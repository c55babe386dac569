/**
 The header of a packet another program wrote: ReadPacket of internal/ftn/packet.go on
 any 29 little-endian words, plain Type 2, Type 2+ and FSC-0048 points alike.
 */
module PacketHeaders {
  import opened Text
  import opened Addresses
  import opened Packets

  ghost predicate Words(ws: seq<int>) { |ws| == 29 && forall w :: 0 <= w < 29 ==> 0 <= ws[w] < 0x1_0000 }

  /** Byte i of a header of 29 words, low byte first. */
  function RawByte(ws: seq<int>, i: nat): (c: char)
    requires Words(ws) && i < 58
    ensures c as int < 256
  {
    (if i % 2 == 0 then ws[i / 2] % 256 else ws[i / 2] / 256) as char
  }

  function RawHeader(ws: seq<int>): (h: Bytes)
    requires Words(ws)
    ensures |h| == 58 && forall i :: 0 <= i < 58 ==> h[i] == RawByte(ws, i)
  {
    hide Words, RawByte;
    seq(58, i requires 0 <= i < 58 => RawByte(ws, i))
  }

  lemma WordGot(ws: seq<int>, w: nat)
    requires Words(ws) && w < 29
    ensures Get(RawHeader(ws), 2 * w) == ws[w]
  {
    hide RawHeader, RawByte;
    LowByte(ws, w);
    HighByte(ws, w);
  }

  lemma LowByte(ws: seq<int>, w: nat)
    requires Words(ws) && w < 29
    ensures RawByte(ws, 2 * w) as int == ws[w] % 256
  {
    assert 2 * w / 2 == w;
  }

  lemma HighByte(ws: seq<int>, w: nat)
    requires Words(ws) && w < 29
    ensures RawByte(ws, 2 * w + 1) as int == ws[w] / 256
  {
    assert (2 * w + 1) / 2 == w && (2 * w + 1) % 2 == 1;
  }

  lemma WordFits(h: Bytes, i: nat)
    requires i + 1 < |h| && IsBytes(h)
    ensures 0 <= Get(h, i) < 0x1_0000
  {
    assert h[i] as int < 256 && h[i + 1] as int < 256;
  }

  /** Any 58 bytes are such a header. */
  lemma AnyHeader(h: Bytes) returns (ws: seq<int>)
    requires |h| == 58 && IsBytes(h)
    ensures Words(ws) && RawHeader(ws) == h
  {
    hide Get, IsBytes, RawByte;
    ws := seq(29, w requires 0 <= w < 29 => Get(h, 2 * w));
    forall w | 0 <= w < 29 ensures 0 <= ws[w] < 0x1_0000 {
      WordFits(h, 2 * w);
    }
    forall i | 0 <= i < 58 ensures RawHeader(ws)[i] == h[i] {
      ByteBack(ws, h, i);
    }
  }

  lemma ByteBack(ws: seq<int>, h: Bytes, i: nat)
    requires Words(ws) && |h| == 58 && IsBytes(h) && i < 58 && ws[i / 2] == Get(h, i / 2 * 2)
    ensures RawHeader(ws)[i] == h[i]
  {
    hide Words, Get, RawByte;
    WordGot(ws, i / 2);
    SameWord(RawHeader(ws), h, i / 2 * 2);
  }

  lemma SameWord(r: Bytes, h: Bytes, i: nat)
    requires i + 1 < |h| && i + 1 < |r| && Get(r, i) == Get(h, i)
    requires r[i] as int < 256 && r[i + 1] as int < 256 && h[i] as int < 256 && h[i + 1] as int < 256
    ensures r[i] == h[i] && r[i + 1] == h[i + 1]
  {
    SameBytes(r[i] as int, r[i + 1] as int, h[i] as int, h[i + 1] as int);
  }

  lemma SameBytes(a: int, b: int, c: int, d: int)
    requires 0 <= a < 256 && 0 <= b < 256 && 0 <= c < 256 && 0 <= d < 256 && a + 256 * b == c + 256 * d
    ensures a == c && b == d
  {
  }

  /** Word 20 repeats word 22, which is odd, with its bytes swapped. */
  predicate SaysType2Plus(ws: seq<int>)
    requires |ws| == 29
  {
    ws[22] % 2 == 1 && ws[20] % 256 == ws[22] / 256 && ws[20] / 256 == ws[22] % 256
  }

  lemma SwapIs(v: nat, w: nat)
    requires v < 0x1_0000 && w < 0x1_0000
    ensures w == Swap16(v) <==> v % 256 == w / 256 && v / 256 == w % 256
  {
    assert v == 256 * (v / 256) + v % 256;
    assert w == 256 * (w / 256) + w % 256;
  }

  lemma PlusRead(ws: seq<int>)
    requires Words(ws)
    ensures IsType2Plus(RawHeader(ws)) <==> SaysType2Plus(ws)
  {
    hide Get, RawHeader, Swap16;
    WordGot(ws, 20);
    WordGot(ws, 22);
    SwapIs(ws[20], ws[22]);
  }

  lemma FromIs(ws: seq<int>)
    requires Words(ws)
    ensures var a := ReadFrom(RawHeader(ws));
            var plus := SaysType2Plus(ws);
            && a.zone == (if plus && ws[23] != 0 then ws[23] else ws[17])
            && a.net == (if plus && ws[10] == 0xFFFF && ws[25] != 0 && ws[19] != 0 then ws[19] else ws[10])
            && a.node == ws[0] && a.point == (if plus then ws[25] else 0) && a.domain == ""
  {
    hide Get, RawHeader, IsType2Plus, SaysType2Plus;
    PlusRead(ws);
    WordGot(ws, 0);
    WordGot(ws, 10);
    WordGot(ws, 17);
    WordGot(ws, 19);
    WordGot(ws, 23);
    WordGot(ws, 25);
  }

  lemma ToIs(ws: seq<int>)
    requires Words(ws)
    ensures var a := ReadAddr(RawHeader(ws), 22, 2, 36, 48, 52);
            var plus := SaysType2Plus(ws);
            && a.zone == (if plus && ws[24] != 0 then ws[24] else ws[18])
            && a.net == ws[11] && a.node == ws[1] && a.point == (if plus then ws[26] else 0) && a.domain == ""
  {
    hide Get, RawHeader, IsType2Plus, SaysType2Plus;
    PlusRead(ws);
    WordGot(ws, 1);
    WordGot(ws, 11);
    WordGot(ws, 18);
    WordGot(ws, 24);
    WordGot(ws, 26);
  }

  lemma CreatedIs(ws: seq<int>)
    requires Words(ws)
    ensures ReadCreated(RawHeader(ws))
            == if ws[2] > 1980 && ws[3] < 12 then
                 Set(Stamp(ws[2], ws[3] + 1, if ws[4] == 0 then 1 else ws[4], ws[5], ws[6], ws[7]))
               else Unset
  {
    hide Get, RawHeader;
    WordGot(ws, 2);
    WordGot(ws, 3);
    WordGot(ws, 4);
    WordGot(ws, 5);
    WordGot(ws, 6);
    WordGot(ws, 7);
  }

  /** p is s without the NULs and spaces at its end. */
  ghost predicate IsPassword(p: Bytes, s: Bytes) {
    && p <= s && (forall i :: |p| <= i < |s| ==> s[i] == '\0' || s[i] == ' ')
    && (p == "" || (p[|p| - 1] != '\0' && p[|p| - 1] != ' '))
  }

  lemma {:induction false} PasswordIs(s: Bytes)
    ensures IsPassword(TrimPassword(s), s)
  {
    if s != "" && (s[|s| - 1] == '\0' || s[|s| - 1] == ' ') {
      PasswordIs(s[..|s| - 1]);
    }
  }

  /** From a Type 2 file of any writer the zones are words 17 and 18, the nets words 10
      and 11, the nodes words 0 and 1, and there are no points. A Type 2+ header overrides
      the zones by words 23 and 24, where they are set, and has the points in words 25 and
      26; the net of an FSC-0048 point is in word 19. Any other version is no packet. */
  lemma HeaderIsRead(ws: seq<int>, body: Bytes)
    requires Words(ws)
    ensures var r, plus := ReadPacket(RawHeader(ws) + body), SaysType2Plus(ws);
            && (r.NotPacket? <==> ws[9] != 2)
            && (ws[9] == 2 ==>
                  && r.packet.from
                     == Addr(if plus && ws[23] != 0 then ws[23] else ws[17],
                             if plus && ws[10] == 0xFFFF && ws[25] != 0 && ws[19] != 0 then ws[19] else ws[10],
                             ws[0], if plus then ws[25] else 0, "")
                  && r.packet.to == Addr(if plus && ws[24] != 0 then ws[24] else ws[18], ws[11], ws[1],
                                         if plus then ws[26] else 0, "")
                  && r.packet.created == (if ws[2] > 1980 && ws[3] < 12 then
                                            Set(Stamp(ws[2], ws[3] + 1, if ws[4] == 0 then 1 else ws[4], ws[5], ws[6], ws[7]))
                                          else Unset)
                  && IsPassword(r.packet.password, RawHeader(ws)[26..34]))
  {
    hide Get, RawHeader, SaysType2Plus, ReadFrom, ReadAddr, ReadCreated, ReadMessages, IsPassword;
    var h := RawHeader(ws);
    assert (h + body)[..58] == h && (h + body)[58..] == body;
    WordGot(ws, 9);
    FromIs(ws);
    ToIs(ws);
    CreatedIs(ws);
    PasswordIs(h[26..34]);
  }

  lemma ShortIsNoPacket(b: Bytes)
    ensures ReadPacket(b).NotPacket? ==> |b| < 58 || b[18] as int + 256 * b[19] as int != 2
    ensures |b| < 58 ==> ReadPacket(b).NotPacket?
  {
  }
}
