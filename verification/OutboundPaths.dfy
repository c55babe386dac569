/** The Binkley-style outbound layout (FTS-5005): base and PacketPath of
    internal/ftn/bso.go. Two systems never share a packet or a busy flag. */
module OutboundPaths {
  import opened Text
  import opened Addresses

  datatype Flavour = Normal | Crash | Hold | Direct

  /** root is a clean path that joins with one slash. */
  datatype Outbound = Outbound(root: string, defaultZone: int)

  // ---- hexadecimal ------------------------------------------------------------

  function HexChar(d: nat): (c: char)
    requires d < 16
    ensures c != '/'
  {
    if d < 10 then (48 + d) as char else (87 + d) as char
  }

  function HexDigit(c: char): nat {
    if '0' <= c <= '9' then c as int - 48 else if 'a' <= c <= 'f' then c as int - 87 else 0
  }

  /** %0wx: n in hexadecimal, with at least w digits. */
  function Hex(n: nat, w: nat): (s: string)
    ensures '/' !in s
    decreases n + w
  {
    if n == 0 && w == 0 then "" else Hex(n / 16, if w == 0 then 0 else w - 1) + [HexChar(n % 16)]
  }

  function HexValue(s: string): nat {
    if s == "" then 0 else 16 * HexValue(s[..|s| - 1]) + HexDigit(s[|s| - 1])
  }

  function Pow16(k: nat): nat { if k == 0 then 1 else 16 * Pow16(k - 1) }

  lemma {:induction false} ValueOfHex(n: nat, w: nat)
    ensures HexValue(Hex(n, w)) == n
    decreases n + w
  {
    if !(n == 0 && w == 0) {
      var k := if w == 0 then 0 else w - 1;
      ValueOfHex(n / 16, k);
      ValueLast(Hex(n / 16, k), n % 16);
    }
  }

  lemma ValueLast(s: string, d: nat)
    requires d < 16
    ensures HexValue(s + [HexChar(d)]) == 16 * HexValue(s) + d
  {
    assert (s + [HexChar(d)])[..|s|] == s;
  }

  lemma {:induction false} LengthOfHex(n: nat, w: nat)
    requires n < Pow16(w)
    ensures |Hex(n, w)| == w
    decreases w
  {
    if w > 0 {
      LengthOfHex(n / 16, w - 1);
    }
  }

  lemma WordHex(n: nat)
    requires IsWord(n)
    ensures |Hex(n, 4)| == 4 && |Hex(n, 8)| == 8
  {
    assert Pow16(2) == 256 && Pow16(4) == 0x1_0000;
    assert Pow16(6) == 0x100_0000 && Pow16(8) == 0x1_0000_0000;
    LengthOfHex(n, 4);
    LengthOfHex(n, 8);
  }

  // ---- paths --------------------------------------------------------------------

  function Letter(f: Flavour): char {
    match f
    case Normal => 'o'
    case Crash => 'c'
    case Hold => 'h'
    case Direct => 'd'
  }

  function ZoneSuffix(o: Outbound, a: Addr): string
    requires Fits16(a)
  {
    if a.zone != o.defaultZone then "." + Hex(a.zone, 3) else ""
  }

  function Stem(a: Addr): string
    requires Fits16(a)
  {
    Hex(a.net, 4) + Hex(a.node, 4)
  }

  /** base: the directory and file stem for a, joined, without extension. */
  function Base(o: Outbound, a: Addr): string
    requires Fits16(a)
  {
    var dir := o.root + ZoneSuffix(o, a);
    if a.point != 0 then dir + "/" + (Stem(a) + ".pnt") + "/" + Hex(a.point, 8) else dir + "/" + Stem(a)
  }

  function PacketPath(o: Outbound, a: Addr, f: Flavour): string
    requires Fits16(a)
  {
    Base(o, a) + (if f == Normal then ".out" else "." + [Letter(f)] + "ut")
  }

  function BusyPath(o: Outbound, a: Addr): string
    requires Fits16(a)
  {
    Base(o, a) + ".bsy"
  }

  // ---- reading a path back ------------------------------------------------------

  /** What a path says: the 4D address and the letter after the last dot. */
  datatype Reading = Reading(zone: int, net: nat, node: nat, point: nat, letter: char)

  function ReadTail(zone: int, t: string): Reading {
    if |t| >= 22 && t[9] == 'p' then
      Reading(zone, HexValue(t[..4]), HexValue(t[4..8]), HexValue(t[13..21]), if |t| > 22 then t[22] else ' ')
    else if |t| >= 10 then
      Reading(zone, HexValue(t[..4]), HexValue(t[4..8]), 0, t[9])
    else Reading(zone, 0, 0, 0, ' ')
  }

  function ReadPath(o: Outbound, path: string): Reading {
    if |path| < |o.root| then Reading(0, 0, 0, 0, ' ')
    else
      var t := path[|o.root|..];
      var slash := Index(t, '/');
      if slash == |t| then Reading(0, 0, 0, 0, ' ')
      else ReadTail(if slash == 0 then o.defaultZone else HexValue(t[1..slash]), t[slash + 1..])
  }

  function ReadingOf(a: Addr, letter: char): Reading
    requires Fits16(a)
  {
    Reading(a.zone, a.net, a.node, a.point, letter)
  }

  lemma NodeTail(zone: int, net: nat, node: nat, ext: string)
    requires IsWord(net) && IsWord(node) && |ext| == 4 && ext[1] != 'p'
    ensures ReadTail(zone, Hex(net, 4) + Hex(node, 4) + ext) == Reading(zone, net, node, 0, ext[1])
  {
    hide Hex, HexValue;
    WordHex(net);
    WordHex(node);
    ValueOfHex(net, 4);
    ValueOfHex(node, 4);
    var t := Hex(net, 4) + Hex(node, 4) + ext;
    assert t[..4] == Hex(net, 4) && t[4..8] == Hex(node, 4) && t[9] == ext[1];
  }

  lemma PointTail(zone: int, net: nat, node: nat, point: nat, ext: string)
    requires IsWord(net) && IsWord(node) && IsWord(point) && |ext| == 4
    ensures ReadTail(zone, Hex(net, 4) + Hex(node, 4) + ".pnt/" + Hex(point, 8) + ext) == Reading(zone, net, node, point, ext[1])
  {
    hide Hex, HexValue;
    WordHex(net);
    WordHex(node);
    WordHex(point);
    ValueOfHex(net, 4);
    ValueOfHex(node, 4);
    ValueOfHex(point, 8);
    var t := Hex(net, 4) + Hex(node, 4) + ".pnt/" + Hex(point, 8) + ext;
    assert t[..4] == Hex(net, 4) && t[4..8] == Hex(node, 4) && t[9] == 'p' && t[13..21] == Hex(point, 8) && t[22] == ext[1];
  }

  /** The part of a path after the directory. */
  function Tail(a: Addr, ext: string): string
    requires Fits16(a)
  {
    if a.point != 0 then Hex(a.net, 4) + Hex(a.node, 4) + ".pnt/" + Hex(a.point, 8) + ext
    else Hex(a.net, 4) + Hex(a.node, 4) + ext
  }

  lemma TailRead(zone: int, a: Addr, ext: string)
    requires Fits16(a) && |ext| == 4 && ext[1] != 'p'
    ensures ReadTail(zone, Tail(a, ext)) == Reading(zone, a.net, a.node, a.point, ext[1])
  {
    hide Hex, ReadTail;
    if a.point != 0 {
      PointTail(zone, a.net, a.node, a.point, ext);
    } else {
      NodeTail(zone, a.net, a.node, ext);
    }
  }

  lemma BaseShape(o: Outbound, a: Addr, ext: string)
    requires Fits16(a)
    ensures Base(o, a) + ext == o.root + (ZoneSuffix(o, a) + "/" + Tail(a, ext))
  {
    hide Hex, ZoneSuffix;
    PointShape(o.root, ZoneSuffix(o, a), Hex(a.net, 4) + Hex(a.node, 4), Hex(a.point, 8), ext);
  }

  lemma PointShape(root: string, zone: string, stem: string, point: string, ext: string)
    ensures root + zone + "/" + (stem + ".pnt") + "/" + point + ext == root + (zone + "/" + (stem + ".pnt/" + point + ext))
    ensures root + zone + "/" + stem + ext == root + (zone + "/" + (stem + ext))
  {
  }

  lemma BaseRead(o: Outbound, a: Addr, ext: string)
    requires Fits16(a) && |ext| == 4 && ext[1] != 'p'
    ensures ReadPath(o, Base(o, a) + ext) == ReadingOf(a, ext[1])
  {
    hide Hex, HexValue, ReadTail, Tail, Base;
    BaseShape(o, a, ext);
    var z, tail := ZoneSuffix(o, a), Tail(a, ext);
    var path := o.root + (z + "/" + tail);
    assert path[|o.root|..] == z + "/" + tail;
    IndexAfter(z, '/', tail);
    assert (z + "/" + tail)[|z| + 1..] == tail;
    ValueOfHex(a.zone, 3);
    if z != "" {
      assert (z + "/" + tail)[1..|z|] == Hex(a.zone, 3);
    }
    TailRead(a.zone, a, ext);
  }

  /** Every packet and every busy flag has one owner: a path names the whole
      address and the flavour, so nodes, points, zones and flavours are kept
      apart, and the lock of one is never the lock of another. */
  lemma PathsDisjoint(o: Outbound, a: Addr, f: Flavour, b: Addr, g: Flavour)
    requires Fits16(a) && Fits16(b)
    ensures PacketPath(o, a, f) == PacketPath(o, b, g) <==> Same(a, b) && f == g
    ensures BusyPath(o, a) == BusyPath(o, b) <==> Same(a, b)
    ensures PacketPath(o, a, f) != BusyPath(o, b)
  {
    hide Hex, ReadPath, Base;
    PacketRead(o, a, f);
    PacketRead(o, b, g);
    BaseRead(o, a, ".bsy");
    BaseRead(o, b, ".bsy");
    if Same(a, b) {
      SameBase(o, a, b);
    }
  }

  lemma PacketRead(o: Outbound, a: Addr, f: Flavour)
    requires Fits16(a)
    ensures ReadPath(o, PacketPath(o, a, f)) == ReadingOf(a, Letter(f))
  {
    hide Hex, ReadPath, Base;
    var ext := "." + [Letter(f)] + "ut";
    assert ".out" == "." + ['o'] + "ut";
    BaseRead(o, a, ext);
  }

  lemma SameBase(o: Outbound, a: Addr, b: Addr)
    requires Fits16(a) && Fits16(b) && Same(a, b)
    ensures Base(o, a) == Base(o, b)
  {
  }

  /** The suffix of a file says when it goes out: out with the next call, cut now, hut when
      called for, dut to the system itself; and bsy is the flag. */
  lemma Suffixes(o: Outbound, a: Addr)
    requires Fits16(a)
    ensures PacketPath(o, a, Normal) == Base(o, a) + ".out" && PacketPath(o, a, Crash) == Base(o, a) + ".cut"
    ensures PacketPath(o, a, Hold) == Base(o, a) + ".hut" && PacketPath(o, a, Direct) == Base(o, a) + ".dut"
    ensures BusyPath(o, a) == Base(o, a) + ".bsy"
  {
    hide Base;
    assert "." + "c" + "ut" == ".cut" && "." + "h" + "ut" == ".hut" && "." + "d" + "ut" == ".dut";
  }

  /** The four hexadecimal digits of a word. */
  function Digits4(n: nat): (s: string)
    requires n <= 65535
  {
    var d: string := "0123456789abcdef";
    [d[n / 4096], d[n / 256 % 16], d[n / 16 % 16], d[n % 16]]
  }

  lemma HexNext(n: nat, w: nat)
    requires w >= 1
    ensures Hex(n, w) == Hex(n / 16, w - 1) + ["0123456789abcdef"[n % 16]]
  {
    HexCharIs(n % 16);
  }

  lemma HexCharIs(d: nat)
    requires d < 16
    ensures HexChar(d) == "0123456789abcdef"[d]
  {
  }

  lemma HexTwo(n: nat, w: nat)
    requires w >= 2
    ensures Hex(n, w) == Hex(n / 256, w - 2) + ["0123456789abcdef"[n / 16 % 16], "0123456789abcdef"[n % 16]]
  {
    hide Hex;
    HexNext(n, w);
    HexNext(n / 16, w - 1);
    assert n / 16 / 16 == n / 256;
  }

  lemma HexZeros()
    ensures Hex(0, 0) == "" && Hex(0, 1) == "0" && Hex(0, 4) == "0000"
  {
    HexCharIs(0);
    HexTwo(0, 4);
    HexTwo(0, 2);
    HexNext(0, 1);
  }

  lemma HexFour(n: nat, w: nat)
    requires n <= 65535 && w >= 4
    ensures Hex(n, w) == Hex(0, w - 4) + Digits4(n)
  {
    hide Hex;
    WordDigits(n);
    HexTwo(n, w);
    HexTwo(n / 256, w - 2);
  }

  lemma WordDigits(n: nat)
    requires n <= 65535
    ensures n / 256 / 16 % 16 == n / 4096 && n / 256 / 256 == 0
  {
  }

  lemma HexThree(n: nat)
    requires n <= 65535
    ensures Hex(n, 3) == if n < 4096 then Digits4(n)[1..] else Digits4(n)
  {
    hide Hex;
    HexTwo(n, 3);
    HexNext(n / 256, 1);
    assert n / 256 / 16 == n / 4096 && n / 4096 < 16;
    HexLast(n / 4096);
  }

  lemma HexLast(c: nat)
    requires c < 16
    ensures Hex(c, 0) == if c == 0 then "" else ["0123456789abcdef"[c]]
  {
    HexCharIs(c);
  }

  lemma HexOfWord(n: nat)
    requires n <= 65535
    ensures Hex(n, 4) == Digits4(n) && Hex(n, 8) == "0000" + Digits4(n)
    ensures Hex(n, 3) == if n < 4096 then Digits4(n)[1..] else Digits4(n)
  {
    hide Hex, Digits4;
    HexFour(n, 4);
    HexFour(n, 8);
    HexZeros();
    HexThree(n);
    assert "" + Digits4(n) == Digits4(n);
  }

  /** A file's path, spelled out: the root, with the zone's three or four digits after a
      dot outside the default zone; the net and the node in four digits each; for a point
      its directory and its eight digits; and the suffix. */
  lemma PathSpelled(o: Outbound, a: Addr, f: Flavour)
    requires Fits16(a)
    ensures var zone := if a.zone < 4096 then Digits4(a.zone)[1..] else Digits4(a.zone);
            var dir := o.root + if a.zone == o.defaultZone then "" else "." + zone;
            var node := Digits4(a.net) + Digits4(a.node);
            var ext := match f case Normal => ".out" case Crash => ".cut" case Hold => ".hut" case Direct => ".dut";
            PacketPath(o, a, f)
            == (if a.point == 0 then dir + "/" + node else dir + "/" + (node + ".pnt") + "/" + ("0000" + Digits4(a.point))) + ext
  {
    hide Hex, Digits4, PacketPath, Letter;
    Suffixes(o, a);
    HexOfWord(a.zone);
    HexOfWord(a.net);
    HexOfWord(a.node);
    HexOfWord(a.point);
    match f
    case Normal =>
    case Crash =>
    case Hold =>
    case Direct =>
  }
}
