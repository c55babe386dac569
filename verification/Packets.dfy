/**
 Type 2+ packets (FTS-0001, FSC-0039, FSC-0048): internal/ftn/packet.go.

 PacketBytes and ReadPacket are the specification; the methods of PacketIO build
 the header in a byte array and read from a consuming reader, as the program does.
 */
module Packets {
  import opened Text
  import opened Addresses

  const NUL: char := '\0'
  const HEADER_LEN := 58
  const PACKET_VERSION := 2
  const MESSAGE_TYPE := 2
  const MAX_NAME_LEN := 36
  const MAX_SUBJECT_LEN := 72
  const MAX_MESSAGE_TEXT := 0x10_0000
  const CAP_WORD := 1
  const PRODUCT_CODE := 0xFE

  /** A message as it travels inside a packet; its text is raw bytes. */
  datatype PackedMessage = PackedMessage(
    origNode: int, origNet: int, destNode: int, destNet: int, attr: int, cost: int,
    dateTime: Bytes, to: Bytes, from: Bytes, subject: Bytes, text: Bytes)

  /** The six numbers a packet's creation time is written as; month is 1-12. */
  datatype Stamp = Stamp(year: int, month: int, day: int, hour: int, minute: int, second: int)

  datatype Created = Unset | Set(at: Stamp)

  datatype Packet = Packet(from: Addr, to: Addr, password: string, created: Created, messages: seq<PackedMessage>)

  // ---- little-endian words ------------------------------------------------

  function Lo(v: int): char { (v % 256) as char }

  function Hi(v: int): char { (v / 256 % 256) as char }

  function LE(v: int): (b: Bytes)
    ensures |b| == 2
  {
    [Lo(v), Hi(v)]
  }

  function Get(b: Bytes, off: nat): nat
    requires off + 1 < |b|
  {
    b[off] as int + 256 * b[off + 1] as int
  }

  function Trunc16(v: int): nat { v % 0x1_0000 }

  lemma LoHi(v: int)
    ensures Lo(v) as int + 256 * Hi(v) as int == Trunc16(v)
  {
    assert v == 0x1_0000 * (v / 256 / 256) + 256 * (v / 256 % 256) + v % 256;
  }

  // ---- writing --------------------------------------------------------------

  function StampOf(c: Created, now: Stamp): Stamp { if c.Set? then c.at else now }

  /** The header as 29 words; the password sits over words 13 to 16. */
  function HeaderWord(p: Packet, now: Stamp, w: nat): int {
    var t := StampOf(p.created, now);
    match w
    case 0 => p.from.node
    case 1 => p.to.node
    case 2 => t.year
    case 3 => t.month - 1
    case 4 => t.day
    case 5 => t.hour
    case 6 => t.minute
    case 7 => t.second
    case 9 => PACKET_VERSION
    case 10 => p.from.net
    case 11 => p.to.net
    case 12 => PRODUCT_CODE
    case 17 => p.from.zone
    case 18 => p.to.zone
    case 20 => CAP_WORD * 256
    case 22 => CAP_WORD
    case 23 => p.from.zone
    case 24 => p.to.zone
    case 25 => p.from.point
    case 26 => p.to.point
    case _ => 0
  }

  /** The password's first eight bytes, upper case, padded with NULs. */
  function PasswordByte(password: string, k: nat): char {
    if k < |password| then UpperChar(password[k]) else NUL
  }

  function HeaderByte(p: Packet, now: Stamp, i: nat): char {
    if 26 <= i < 34 then PasswordByte(p.password, i - 26)
    else if i % 2 == 0 then Lo(HeaderWord(p, now, i / 2))
    else Hi(HeaderWord(p, now, i / 2))
  }

  function HeaderBytes(p: Packet, now: Stamp): (h: Bytes)
    ensures |h| == HEADER_LEN
    ensures forall i :: 0 <= i < HEADER_LEN ==> h[i] == HeaderByte(p, now, i)
  {
    seq(HEADER_LEN, i requires 0 <= i => HeaderByte(p, now, i))
  }

  function Clip(b: Bytes, n: nat): (c: Bytes)
    ensures |c| <= n && NUL !in c
  {
    var r := Remove(b, NUL);
    if |r| > n then r[..n] else r
  }

  function DateByte(d: Bytes, i: nat): char { if i < |d| && i < 19 then d[i] else NUL }

  function DateField(d: Bytes): (f: Bytes)
    ensures |f| == 20
    ensures forall i :: 0 <= i < 20 ==> f[i] == DateByte(d, i)
  {
    seq(20, i requires 0 <= i => DateByte(d, i))
  }

  /** The fixed part of a message after its type word. */
  function Fixed(m: PackedMessage): (b: Bytes)
    ensures |b| == 32
  {
    LE(m.origNode) + LE(m.destNode) + LE(m.origNet) + LE(m.destNet) + LE(m.attr) + LE(m.cost) + DateField(m.dateTime)
  }

  function NameFields(m: PackedMessage): Bytes {
    Clip(m.to, MAX_NAME_LEN - 1) + [NUL] + (Clip(m.from, MAX_NAME_LEN - 1) + [NUL]
    + (Clip(m.subject, MAX_SUBJECT_LEN - 1) + [NUL] + (Remove(m.text, NUL) + [NUL])))
  }

  function MessageBytes(m: PackedMessage): Bytes { LE(MESSAGE_TYPE) + (Fixed(m) + NameFields(m)) }

  function MessagesBytes(ms: seq<PackedMessage>): Bytes {
    if ms == [] then "" else MessageBytes(ms[0]) + MessagesBytes(ms[1..])
  }

  /** The file WriteTo produces; now stands in for an unset creation time. */
  function PacketBytes(p: Packet, now: Stamp): Bytes {
    HeaderBytes(p, now) + (MessagesBytes(p.messages) + LE(0))
  }

  // ---- reading --------------------------------------------------------------

  datatype ReadError = NoError | BadType | TruncatedHeader | Unterminated | TooLong

  datatype Field = Field(value: Bytes, rest: Bytes) | NoField(err: ReadError)

  /** readZ: a NUL-terminated field of at most limit bytes. */
  function ReadZ(b: Bytes, out: Bytes, limit: nat): (f: Field)
    ensures f.Field? ==> |f.rest| < |b|
    ensures f.NoField? ==> f.err == Unterminated || f.err == TooLong
  {
    if b == "" then NoField(Unterminated)
    else if b[0] == NUL then Field(out, b[1..])
    else if |out| >= limit then NoField(TooLong)
    else ReadZ(b[1..], out + [b[0]], limit)
  }

  datatype Decoding = Decoded(m: PackedMessage, rest: Bytes) | NotDecoded(err: ReadError)

  function TrimNul(s: Bytes): Bytes {
    if s != "" && s[|s| - 1] == NUL then TrimNul(s[..|s| - 1]) else s
  }

  /** The four variable fields; h is the fixed part before them. */
  function ReadFields(h: Bytes, b: Bytes): (r: Decoding)
    requires |h| == 32
    ensures r.Decoded? ==> |r.rest| < |b|
    ensures r.NotDecoded? ==> r.err == Unterminated || r.err == TooLong
  {
    var to := ReadZ(b, "", MAX_NAME_LEN);
    if to.NoField? then NotDecoded(to.err) else
    var from := ReadZ(to.rest, "", MAX_NAME_LEN);
    if from.NoField? then NotDecoded(from.err) else
    var subject := ReadZ(from.rest, "", MAX_SUBJECT_LEN);
    if subject.NoField? then NotDecoded(subject.err) else
    var text := ReadZ(subject.rest, "", MAX_MESSAGE_TEXT);
    if text.NoField? then NotDecoded(text.err) else
    Decoded(PackedMessage(Get(h, 0), Get(h, 4), Get(h, 2), Get(h, 6), Get(h, 8), Get(h, 10), TrimNul(h[12..32]),
                          to.value, from.value, subject.value, text.value), text.rest)
  }

  function DecodeMessage(b: Bytes): (r: Decoding)
    ensures r.Decoded? ==> |r.rest| < |b|
    ensures r.NotDecoded? ==> r.err != NoError
  {
    if |b| < 32 then NotDecoded(TruncatedHeader) else ReadFields(b[..32], b[32..])
  }

  datatype ReadMessagesResult = Got(messages: seq<PackedMessage>, err: ReadError)

  function ReadMessages(b: Bytes, got: seq<PackedMessage>): ReadMessagesResult
    decreases |b|
  {
    if |b| < 2 then Got(got, NoError)
    else if Get(b, 0) == 0 then Got(got, NoError)
    else if Get(b, 0) != MESSAGE_TYPE then Got(got, BadType)
    else match DecodeMessage(b[2..])
      case NotDecoded(err) => Got(got, err)
      case Decoded(m, rest) => ReadMessages(rest, got + [m])
  }

  function TrimPassword(s: Bytes): Bytes {
    if s != "" && (s[|s| - 1] == NUL || s[|s| - 1] == ' ') then TrimPassword(s[..|s| - 1]) else s
  }

  function Swap16(v: nat): nat { (v / 256 + v % 256 * 256) % 0x1_0000 }

  /** A Type 2+ header repeats the capability word byte-swapped. */
  predicate IsType2Plus(h: Bytes)
    requires |h| == HEADER_LEN
  {
    Get(h, 44) % 2 == CAP_WORD && Get(h, 44) == Swap16(Get(h, 40))
  }

  function ReadAddr(h: Bytes, net: nat, node: nat, zone: nat, zone2: nat, point: nat): Addr
    requires |h| == HEADER_LEN && net < 57 && node < 57 && zone < 57 && zone2 < 57 && point < 57
  {
    if IsType2Plus(h) then
      Addr(if Get(h, zone2) != 0 then Get(h, zone2) else Get(h, zone), Get(h, net), Get(h, node), Get(h, point), "")
    else Addr(Get(h, zone), Get(h, net), Get(h, node), 0, "")
  }

  /** FSC-0048 points put 0xFFFF in the net field and the real net in AuxNet. */
  function ReadFrom(h: Bytes): Addr
    requires |h| == HEADER_LEN
  {
    var a := ReadAddr(h, 20, 0, 34, 46, 50);
    if IsType2Plus(h) && a.net == 0xFFFF && a.point != 0 && Get(h, 38) != 0 then a.(net := Get(h, 38)) else a
  }

  function ReadCreated(h: Bytes): Created
    requires |h| == HEADER_LEN
  {
    if Get(h, 4) > 1980 && Get(h, 6) < 12 then
      Set(Stamp(Get(h, 4), Get(h, 6) + 1, if Get(h, 8) < 1 then 1 else Get(h, 8), Get(h, 10), Get(h, 12), Get(h, 14)))
    else Unset
  }

  function ReadHeader(h: Bytes): Packet
    requires |h| == HEADER_LEN
  {
    Packet(ReadFrom(h), ReadAddr(h, 22, 2, 36, 48, 52), TrimPassword(h[26..34]), ReadCreated(h), [])
  }

  /** NotPacket is an error without a packet; Read may carry an error beside the
      messages read before it. */
  datatype ReadResult = NotPacket | Read(packet: Packet, err: ReadError)

  function ReadPacket(b: Bytes): ReadResult {
    if |b| < HEADER_LEN then NotPacket else ReadParts(b[..HEADER_LEN], b[HEADER_LEN..])
  }

  function ReadParts(h: Bytes, body: Bytes): ReadResult
    requires |h| == HEADER_LEN
  {
    if Get(h, 18) != PACKET_VERSION then NotPacket
    else
      var r := ReadMessages(body, []);
      Read(ReadHeader(h).(messages := r.messages), r.err)
  }

  // ---- what a reader finds in a written packet -----------------------------------

  /** A message as the wire keeps it. */
  function Wire(m: PackedMessage): PackedMessage {
    PackedMessage(Trunc16(m.origNode), Trunc16(m.origNet), Trunc16(m.destNode), Trunc16(m.destNet),
                  Trunc16(m.attr), Trunc16(m.cost), TrimNul(DateField(m.dateTime)),
                  Clip(m.to, MAX_NAME_LEN - 1), Clip(m.from, MAX_NAME_LEN - 1), Clip(m.subject, MAX_SUBJECT_LEN - 1),
                  Remove(m.text, NUL))
  }

  function WireAll(ms: seq<PackedMessage>): (w: seq<PackedMessage>)
    ensures |w| == |ms| && forall i :: 0 <= i < |ms| ==> w[i] == Wire(ms[i])
  {
    seq(|ms|, i requires 0 <= i < |ms| => Wire(ms[i]))
  }

  function WireAddr(a: Addr): Addr {
    Addr(Trunc16(a.zone), Trunc16(a.net), Trunc16(a.node), Trunc16(a.point), "")
  }

  function PasswordField(password: string): (f: Bytes)
    ensures |f| == 8 && forall k :: 0 <= k < 8 ==> f[k] == PasswordByte(password, k)
  {
    seq(8, k requires 0 <= k => PasswordByte(password, k))
  }

  function WireCreated(t: Stamp): Created {
    var year, month, day := Trunc16(t.year), Trunc16(t.month - 1), Trunc16(t.day);
    if year > 1980 && month < 12 then
      Set(Stamp(year, month + 1, if day < 1 then 1 else day, Trunc16(t.hour), Trunc16(t.minute), Trunc16(t.second)))
    else Unset
  }

  function WireHeader(p: Packet, now: Stamp): Packet {
    Packet(WireAddr(p.from), WireAddr(p.to), TrimPassword(PasswordField(p.password)),
           WireCreated(StampOf(p.created, now)), [])
  }

  /** The text bound of a reader: one byte more and the field is refused. */
  predicate Readable(m: PackedMessage) { |Remove(m.text, NUL)| <= MAX_MESSAGE_TEXT }

  predicate AllReadable(ms: seq<PackedMessage>) { forall i :: 0 <= i < |ms| ==> Readable(ms[i]) }

  /** The messages a reader gets: those before the first unreadable one. */
  function Delivered(ms: seq<PackedMessage>): (d: seq<PackedMessage>)
    ensures |d| <= |ms|
    ensures forall i :: 0 <= i < |d| ==> Readable(ms[i]) && d[i] == Wire(ms[i])
    ensures |d| < |ms| ==> !Readable(ms[|d|])
  {
    hide Readable, Wire;
    if ms == [] || !Readable(ms[0]) then [] else [Wire(ms[0])] + Delivered(ms[1..])
  }

  lemma DeliveredAll(ms: seq<PackedMessage>)
    ensures |Delivered(ms)| == |ms| <==> AllReadable(ms)
    ensures AllReadable(ms) ==> Delivered(ms) == WireAll(ms)
  {
  }

  // ---- fields ---------------------------------------------------------------

  lemma {:induction false} ReadZWhole(f: Bytes, rest: Bytes, out: Bytes, limit: nat)
    requires NUL !in f
    ensures ReadZ(f + [NUL] + rest, out, limit)
            == if |out| + |f| <= limit || f == "" then Field(out + f, rest) else NoField(TooLong)
  {
    var b := f + [NUL] + rest;
    if f == "" {
      assert b == [NUL] + rest && out + f == out;
    } else {
      assert b[0] == f[0] && b[1..] == f[1..] + [NUL] + rest;
      if |out| < limit {
        ReadZWhole(f[1..], rest, out + [f[0]], limit);
        Assoc(out, [f[0]], f[1..]);
        assert [f[0]] + f[1..] == f;
      }
    }
  }

  /** A field cut before its NUL is refused. */
  lemma {:induction false} ReadZCut(f: Bytes, out: Bytes, limit: nat)
    requires NUL !in f
    ensures ReadZ(f, out, limit).NoField?
  {
    if f != "" && |out| < limit {
      ReadZCut(f[1..], out + [f[0]], limit);
    }
  }

  lemma FieldRead(f: Bytes, rest: Bytes, limit: nat)
    requires NUL !in f
    ensures ReadZ(f + [NUL] + rest, "", limit) == if |f| <= limit then Field(f, rest) else NoField(TooLong)
  {
    ReadZWhole(f, rest, "", limit);
    assert "" + f == f;
  }

  // ---- messages -------------------------------------------------------------

  lemma FixedRead(m: PackedMessage)
    ensures var h := Fixed(m);
            && Get(h, 0) == Trunc16(m.origNode) && Get(h, 2) == Trunc16(m.destNode)
            && Get(h, 4) == Trunc16(m.origNet) && Get(h, 6) == Trunc16(m.destNet)
            && Get(h, 8) == Trunc16(m.attr) && Get(h, 10) == Trunc16(m.cost)
            && h[12..32] == DateField(m.dateTime)
  {
    LoHi(m.origNode);
    LoHi(m.destNode);
    LoHi(m.origNet);
    LoHi(m.destNet);
    LoHi(m.attr);
    LoHi(m.cost);
  }

  lemma FieldsRead(m: PackedMessage, rest: Bytes)
    ensures ReadFields(Fixed(m), NameFields(m) + rest) == if Readable(m) then Decoded(Wire(m), rest) else NotDecoded(TooLong)
  {
    FixedRead(m);
    var to, from := Clip(m.to, MAX_NAME_LEN - 1), Clip(m.from, MAX_NAME_LEN - 1);
    var subject, text := Clip(m.subject, MAX_SUBJECT_LEN - 1), Remove(m.text, NUL);
    var b3 := text + [NUL] + rest;
    var b2 := subject + [NUL] + b3;
    var b1 := from + [NUL] + b2;
    NameFieldsThen(to, from, subject, text, rest);
    FieldRead(to, b1, MAX_NAME_LEN);
    FieldRead(from, b2, MAX_NAME_LEN);
    FieldRead(subject, b3, MAX_SUBJECT_LEN);
    FieldRead(text, rest, MAX_MESSAGE_TEXT);
  }

  lemma NameFieldsThen(to: Bytes, from: Bytes, subject: Bytes, text: Bytes, rest: Bytes)
    ensures (to + [NUL] + (from + [NUL] + (subject + [NUL] + (text + [NUL])))) + rest
            == to + [NUL] + (from + [NUL] + (subject + [NUL] + (text + [NUL] + rest)))
  {
    var s := subject + [NUL];
    Assoc(s, text + [NUL], rest);
    Assoc(from + [NUL], s + (text + [NUL]), rest);
    Assoc(to + [NUL], from + [NUL] + (s + (text + [NUL])), rest);
  }

  lemma MessageRead(m: PackedMessage, rest: Bytes)
    ensures DecodeMessage(Fixed(m) + NameFields(m) + rest)
            == if Readable(m) then Decoded(Wire(m), rest) else NotDecoded(TooLong)
  {
    var b := Fixed(m) + NameFields(m) + rest;
    Assoc(Fixed(m), NameFields(m), rest);
    assert b[..32] == Fixed(m) && b[32..] == NameFields(m) + rest;
    FieldsRead(m, rest);
  }

  lemma StepRead(m: PackedMessage, rest: Bytes, got: seq<PackedMessage>)
    ensures ReadMessages(MessageBytes(m) + rest, got)
            == if Readable(m) then ReadMessages(rest, got + [Wire(m)]) else Got(got, TooLong)
  {
    var b := MessageBytes(m) + rest;
    var body := Fixed(m) + NameFields(m);
    Assoc(LE(MESSAGE_TYPE), body, rest);
    assert b[0] == Lo(2) && b[1] == Hi(2);
    assert b[2..] == body + rest;
    MessageRead(m, rest);
  }

  lemma {:induction false} MessagesRead(ms: seq<PackedMessage>, rest: Bytes, got: seq<PackedMessage>)
    ensures var d := Delivered(ms);
            ReadMessages(MessagesBytes(ms) + rest, got)
            == if |d| == |ms| then ReadMessages(rest, got + d) else Got(got + d, TooLong)
  {
    if ms == [] {
      assert MessagesBytes(ms) + rest == rest && got + Delivered(ms) == got;
    } else {
      Assoc(MessageBytes(ms[0]), MessagesBytes(ms[1..]), rest);
      StepRead(ms[0], MessagesBytes(ms[1..]) + rest, got);
      if Readable(ms[0]) {
        MessagesRead(ms[1..], rest, got + [Wire(ms[0])]);
        Assoc(got, [Wire(ms[0])], Delivered(ms[1..]));
      } else {
        assert got + Delivered(ms) == got;
      }
    }
  }

  // ---- the header -----------------------------------------------------------

  lemma WordRead(p: Packet, now: Stamp, w: nat)
    requires w < 29 && !(13 <= w <= 16)
    ensures Get(HeaderBytes(p, now), 2 * w) == Trunc16(HeaderWord(p, now, w))
  {
    LoHi(HeaderWord(p, now, w));
    assert (2 * w) / 2 == w && (2 * w + 1) / 2 == w && (2 * w + 1) % 2 == 1;
  }

  lemma Type2PlusRead(p: Packet, now: Stamp)
    ensures IsType2Plus(HeaderBytes(p, now)) && Get(HeaderBytes(p, now), 38) == 0
  {
    hide HeaderBytes, Get, StampOf;
    WordRead(p, now, 19);
    WordRead(p, now, 20);
    WordRead(p, now, 22);
  }

  lemma FromWords(p: Packet, now: Stamp)
    ensures var h := HeaderBytes(p, now);
            && Get(h, 0) == Trunc16(p.from.node) && Get(h, 20) == Trunc16(p.from.net) && Get(h, 34) == Trunc16(p.from.zone)
            && Get(h, 46) == Trunc16(p.from.zone) && Get(h, 50) == Trunc16(p.from.point)
  {
    WordRead(p, now, 0);
    WordRead(p, now, 10);
    WordRead(p, now, 17);
    WordRead(p, now, 23);
    WordRead(p, now, 25);
  }

  lemma ToWords(p: Packet, now: Stamp)
    ensures var h := HeaderBytes(p, now);
            && Get(h, 2) == Trunc16(p.to.node) && Get(h, 22) == Trunc16(p.to.net) && Get(h, 36) == Trunc16(p.to.zone)
            && Get(h, 48) == Trunc16(p.to.zone) && Get(h, 52) == Trunc16(p.to.point)
  {
    WordRead(p, now, 1);
    WordRead(p, now, 11);
    WordRead(p, now, 18);
    WordRead(p, now, 24);
    WordRead(p, now, 26);
  }

  lemma FromRead(p: Packet, now: Stamp)
    ensures ReadFrom(HeaderBytes(p, now)) == WireAddr(p.from)
  {
    Type2PlusRead(p, now);
    FromWords(p, now);
  }

  lemma ToRead(p: Packet, now: Stamp)
    ensures ReadAddr(HeaderBytes(p, now), 22, 2, 36, 48, 52) == WireAddr(p.to)
  {
    Type2PlusRead(p, now);
    ToWords(p, now);
  }

  lemma CreatedRead(p: Packet, now: Stamp)
    ensures ReadCreated(HeaderBytes(p, now)) == WireCreated(StampOf(p.created, now))
  {
    WordRead(p, now, 2);
    WordRead(p, now, 3);
    WordRead(p, now, 4);
    WordRead(p, now, 5);
    WordRead(p, now, 6);
    WordRead(p, now, 7);
  }

  lemma PasswordRead(p: Packet, now: Stamp)
    ensures HeaderBytes(p, now)[26..34] == PasswordField(p.password)
  {
  }

  lemma HeaderRead(p: Packet, now: Stamp)
    ensures ReadHeader(HeaderBytes(p, now)) == WireHeader(p, now)
  {
    FromRead(p, now);
    ToRead(p, now);
    CreatedRead(p, now);
    PasswordRead(p, now);
  }

  // ---- main results ------------------------------------------------------------

  /** Reading any written packet: every message up to the first whose text is
      over the bound comes back as the wire keeps it. The error is TooLong
      exactly when there is such a message. */
  lemma ReadOfWritten(p: Packet, now: Stamp)
    ensures var d := Delivered(p.messages);
            ReadPacket(PacketBytes(p, now))
            == Read(WireHeader(p, now).(messages := d), if |d| == |p.messages| then NoError else TooLong)
  {
    var body := MessagesBytes(p.messages) + LE(0);
    BodyRead(p.messages);
    PartsRead(p, now, body);
    WholeRead(p, now, body, ReadParts(HeaderBytes(p, now), body));
  }

  lemma PartsRead(p: Packet, now: Stamp, body: Bytes)
    ensures var r := ReadMessages(body, []);
            ReadParts(HeaderBytes(p, now), body) == Read(WireHeader(p, now).(messages := r.messages), r.err)
  {
    hide HeaderBytes, WireHeader, ReadHeader, ReadMessages, Get;
    HeaderRead(p, now);
    VersionRead(p, now);
  }

  lemma VersionRead(p: Packet, now: Stamp)
    ensures Get(HeaderBytes(p, now), 18) == PACKET_VERSION
  {
    WordRead(p, now, 9);
  }

  lemma WholeRead(p: Packet, now: Stamp, body: Bytes, r: ReadResult)
    requires body == MessagesBytes(p.messages) + LE(0)
    requires ReadParts(HeaderBytes(p, now), body) == r
    ensures ReadPacket(PacketBytes(p, now)) == r
  {
    PacketParts(p, now);
  }

  lemma PacketParts(p: Packet, now: Stamp)
    ensures var b := PacketBytes(p, now);
            && |b| >= HEADER_LEN && b[..HEADER_LEN] == HeaderBytes(p, now)
            && b[HEADER_LEN..] == MessagesBytes(p.messages) + LE(0)
  {
  }

  lemma BodyRead(ms: seq<PackedMessage>)
    ensures var d := Delivered(ms);
            ReadMessages(MessagesBytes(ms) + LE(0), []) == Got(d, if |d| == |ms| then NoError else TooLong)
  {
    MessagesRead(ms, LE(0), []);
    TerminatorRead(Delivered(ms));
    assert [] + Delivered(ms) == Delivered(ms);
  }

  lemma TerminatorRead(got: seq<PackedMessage>)
    ensures ReadMessages(LE(0), got) == Got(got, NoError)
  {
    assert Get(LE(0), 0) == 0;
  }

  /** Reading back and writing again loses nothing more: what the wire keeps, it
      keeps for good. */
  lemma WireIdempotent(m: PackedMessage)
    ensures Wire(Wire(m)) == Wire(m)
    ensures Readable(Wire(m)) <==> Readable(m)
  {
    hide Clip, DateField, TrimNul, Remove;
    ClipTwice(m.to, MAX_NAME_LEN - 1);
    ClipTwice(m.from, MAX_NAME_LEN - 1);
    ClipTwice(m.subject, MAX_SUBJECT_LEN - 1);
    RemoveNone(Remove(m.text, NUL), NUL);
    DateTwice(m.dateTime);
  }

  lemma ClipTwice(b: Bytes, n: nat)
    ensures Clip(Clip(b, n), n) == Clip(b, n)
  {
    RemoveNone(Clip(b, n), NUL);
  }

  lemma {:induction false} TrimNulPrefix(s: Bytes)
    ensures var t := TrimNul(s); |t| <= |s| && t == s[..|t|] && (forall i :: |t| <= i < |s| ==> s[i] == NUL)
  {
    if s != "" && s[|s| - 1] == NUL {
      TrimNulPrefix(s[..|s| - 1]);
    }
  }

  lemma DateTwice(d: Bytes)
    ensures DateField(TrimNul(DateField(d))) == DateField(d)
  {
    var f := DateField(d);
    TrimNulPrefix(f);
    var t := TrimNul(f);
    if |t| == 20 {
      assert f[19] == NUL;
    }
  }

  // ---- packets cut short -----------------------------------------------------

  /** The messages that lie wholly inside the first c bytes of the body. */
  function Kept(ms: seq<PackedMessage>, c: nat): (d: seq<PackedMessage>)
    ensures |d| <= |ms|
  {
    hide MessageBytes, Wire;
    if ms == [] || c < |MessageBytes(ms[0])| then []
    else [Wire(ms[0])] + Kept(ms[1..], c - |MessageBytes(ms[0])|)
  }

  /** The bytes after the last whole message. */
  function Left(ms: seq<PackedMessage>, c: nat): nat {
    if ms == [] || c < |MessageBytes(ms[0])| then c else Left(ms[1..], c - |MessageBytes(ms[0])|)
  }

  /** Kept and Left say where the cut is: so many whole messages, then so many
      bytes of the next one. */
  lemma {:induction false} CutPlace(ms: seq<PackedMessage>, c: nat)
    ensures Kept(ms, c) == WireAll(ms[..|Kept(ms, c)|])
    ensures var n := |Kept(ms, c)|;
            && c == |MessagesBytes(ms[..n])| + Left(ms, c)
            && (n < |ms| ==> Left(ms, c) < |MessageBytes(ms[n])|)
  {
    hide MessageBytes, Wire;
    if ms != [] && |MessageBytes(ms[0])| <= c {
      CutPlace(ms[1..], c - |MessageBytes(ms[0])|);
      var n := |Kept(ms, c)|;
      assert ms[..n][1..] == ms[1..][..n - 1];
    }
  }

  lemma FieldCut(f: Bytes, tail: Bytes, y: nat, limit: nat)
    requires NUL !in f && |f| <= limit && y <= |f + [NUL] + tail|
    ensures ReadZ((f + [NUL] + tail)[..y], "", limit).NoField? <==> y <= |f|
    ensures y > |f| ==> ReadZ((f + [NUL] + tail)[..y], "", limit) == Field(f, tail[..y - |f| - 1])
  {
    var b := f + [NUL] + tail;
    if y <= |f| {
      assert b[..y] == f[..y];
      ReadZCut(f[..y], "", limit);
    } else {
      assert b[..y] == f + [NUL] + tail[..y - |f| - 1];
      FieldRead(f, tail[..y - |f| - 1], limit);
    }
  }

  lemma LastFieldCut(f: Bytes, y: nat, limit: nat)
    requires NUL !in f && y <= |f|
    ensures ReadZ((f + [NUL])[..y], "", limit).NoField?
  {
    assert (f + [NUL])[..y] == f[..y];
    ReadZCut(f[..y], "", limit);
  }

  lemma FieldsCut(h: Bytes, m: PackedMessage, y: nat)
    requires |h| == 32 && y < |NameFields(m)|
    ensures ReadFields(h, NameFields(m)[..y]).NotDecoded?
  {
    hide ReadZ, Clip, Remove, TrimNul, Get;
    var to, from := Clip(m.to, MAX_NAME_LEN - 1), Clip(m.from, MAX_NAME_LEN - 1);
    var subject, text := Clip(m.subject, MAX_SUBJECT_LEN - 1), Remove(m.text, NUL);
    var b3 := text + [NUL];
    var b2 := subject + [NUL] + b3;
    var b1 := from + [NUL] + b2;
    FieldCut(to, b1, y, MAX_NAME_LEN);
    if y > |to| {
      var y1 := y - |to| - 1;
      FieldCut(from, b2, y1, MAX_NAME_LEN);
      if y1 > |from| {
        var y2 := y1 - |from| - 1;
        FieldCut(subject, b3, y2, MAX_SUBJECT_LEN);
        if y2 > |subject| {
          LastFieldCut(text, y2 - |subject| - 1, MAX_MESSAGE_TEXT);
        }
      }
    }
  }

  lemma MessageCut(m: PackedMessage, x: nat)
    requires x < |Fixed(m) + NameFields(m)|
    ensures DecodeMessage((Fixed(m) + NameFields(m))[..x]).NotDecoded?
  {
    hide ReadFields, NameFields, Fixed;
    var b := (Fixed(m) + NameFields(m))[..x];
    if x >= 32 {
      assert b[32..] == NameFields(m)[..x - 32];
      FieldsCut(b[..32], m, x - 32);
    }
  }

  lemma StepCut(m: PackedMessage, rest: Bytes, c: nat, got: seq<PackedMessage>)
    requires c < |MessageBytes(m)|
    ensures var r := ReadMessages((MessageBytes(m) + rest)[..c], got);
            r.messages == got && (r.err == NoError <==> c <= 1)
  {
    hide DecodeMessage, Fixed, NameFields;
    var b := (MessageBytes(m) + rest)[..c];
    if c >= 2 {
      assert b[0] == Lo(2) && b[1] == Hi(2);
      assert b[2..] == (Fixed(m) + NameFields(m))[..c - 2];
      MessageCut(m, c - 2);
    }
  }

  lemma EndCut(c: nat, got: seq<PackedMessage>)
    requires c <= 2
    ensures ReadMessages(LE(0)[..c], got) == Got(got, NoError)
  {
    if c == 2 {
      assert LE(0)[..2] == LE(0);
      TerminatorRead(got);
    }
  }

  /** The part of a cut body that a reader gets: the whole messages up to the first
      it cannot read. */
  function ReadStart(ms: seq<PackedMessage>, c: nat): seq<PackedMessage> { Delivered(ms[..|Kept(ms, c)|]) }

  lemma StartsEmpty(ms: seq<PackedMessage>, c: nat)
    requires ms == [] || c < |MessageBytes(ms[0])|
    ensures Kept(ms, c) == [] && ReadStart(ms, c) == [] && Left(ms, c) == c
  {
    hide MessageBytes, Wire;
  }

  lemma StartNext(ms: seq<PackedMessage>, c: nat)
    requires ms != [] && |MessageBytes(ms[0])| <= c
    ensures var d := c - |MessageBytes(ms[0])|;
            && |Kept(ms, c)| == 1 + |Kept(ms[1..], d)| && Left(ms, c) == Left(ms[1..], d)
            && ReadStart(ms, c) == if Readable(ms[0]) then [Wire(ms[0])] + ReadStart(ms[1..], d) else []
  {
    hide MessageBytes, Wire, Readable;
    var n := |Kept(ms, c)|;
    assert ms[..n][1..] == ms[1..][..n - 1];
  }

  lemma {:induction false} BodyCut(ms: seq<PackedMessage>, c: nat, got: seq<PackedMessage>)
    requires c <= |MessagesBytes(ms) + LE(0)|
    ensures var r := ReadMessages((MessagesBytes(ms) + LE(0))[..c], got);
            && r.messages == got + ReadStart(ms, c)
            && (r.err == NoError <==> |ReadStart(ms, c)| == |Kept(ms, c)|
                                      && (Left(ms, c) <= 1 || c == |MessagesBytes(ms) + LE(0)|))
    decreases |ms|
  {
    hide MessageBytes, Wire, LE, ReadMessages, Kept, Left, ReadStart, Readable;
    var b := MessagesBytes(ms) + LE(0);
    if ms == [] {
      StartsEmpty(ms, c);
      assert b == LE(0) && got + [] == got;
      EndCut(c, got);
    } else {
      var first, rest := MessageBytes(ms[0]), MessagesBytes(ms[1..]) + LE(0);
      assert b == first + rest by {
        Assoc(first, MessagesBytes(ms[1..]), LE(0));
      }
      if c < |first| {
        StepCut(ms[0], rest, c, got);
        StartsEmpty(ms, c);
        assert got + [] == got;
      } else {
        CutTail(first, rest, c);
        StepRead(ms[0], rest[..c - |first|], got);
        StartNext(ms, c);
        if Readable(ms[0]) {
          BodyCut(ms[1..], c - |first|, got + [Wire(ms[0])]);
          Assoc(got, [Wire(ms[0])], ReadStart(ms[1..], c - |first|));
        } else {
          assert got + [] == got;
        }
      }
    }
  }

  lemma CutTail(a: Bytes, b: Bytes, c: nat)
    requires |a| <= c <= |a + b|
    ensures (a + b)[..c] == a + b[..c - |a|]
  {
  }

  /** A written packet cut anywhere after its header is a safe prefix: the
      messages read are exactly those wholly before the cut, unaltered, up to the
      first whose text is over the bound. No error is reported exactly when there is
      no such message among them and at most one byte follows the last, or nothing
      was cut. */
  lemma ReadOfTruncated(p: Packet, now: Stamp, k: nat)
    requires HEADER_LEN <= k <= |PacketBytes(p, now)|
    ensures var r := ReadPacket(PacketBytes(p, now)[..k]);
            var c := k - HEADER_LEN;
            && r.Read? && r.packet == WireHeader(p, now).(messages := ReadStart(p.messages, c))
            && (r.err == NoError <==> |ReadStart(p.messages, c)| == |Kept(p.messages, c)|
                                      && (Left(p.messages, c) <= 1 || k == |PacketBytes(p, now)|))
  {
    hide MessageBytes, MessagesBytes, Wire, HeaderBytes, ReadParts, ReadPacket, WireHeader, LE, Kept, Left, ReadStart;
    var body := MessagesBytes(p.messages) + LE(0);
    var c := k - HEADER_LEN;
    BodyCut(p.messages, c, []);
    assert [] + ReadStart(p.messages, c) == ReadStart(p.messages, c);
    PartsRead(p, now, body[..c]);
    CutTail(HeaderBytes(p, now), body, k);
    JoinedRead(p, now, body[..c]);
  }

  lemma JoinedRead(p: Packet, now: Stamp, body: Bytes)
    ensures ReadPacket(HeaderBytes(p, now) + body) == ReadParts(HeaderBytes(p, now), body)
  {
    var b := HeaderBytes(p, now) + body;
    assert b[..HEADER_LEN] == HeaderBytes(p, now) && b[HEADER_LEN..] == body;
  }
}
