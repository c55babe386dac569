/**
 The Telnet byte machine of internal/telnet/conn.go as functions on the bytes that
 are still to be read (RFC 854 and RFC 855; RFC 856 for binary; RFC 1073 for the
 window size).
 */
module Telnets {
  import opened Text

  const SE := 240 as char
  const SB := 250 as char
  const WILL := 251 as char
  const WONT := 252 as char
  const DO := 253 as char
  const DONT := 254 as char
  const IAC := 255 as char

  const OPT_BINARY := 0 as char
  const OPT_ECHO := 1 as char
  const OPT_SGA := 3 as char
  const OPT_NAWS := 31 as char

  const NUL := 0 as char

  const MAX_SUBNEG := 64

  datatype Refusal = Refusal(cmd: char, opt: char)

  /** What a connection remembers, and what it sent. */
  datatype State = State(lastCR: bool, refused: set<Refusal>, binary: bool, width: nat, height: nat, sent: Bytes)

  // ---- negotiation --------------------------------------------------------------------

  datatype Answer = NoAnswer | Refuse(reply: char)

  function AnswerTo(binary: bool, cmd: char, opt: char): Answer {
    if cmd == DO then
      if opt == OPT_ECHO || opt == OPT_SGA || (opt == OPT_BINARY && binary) then NoAnswer else Refuse(WONT)
    else if cmd == WILL then
      if opt == OPT_NAWS || opt == OPT_SGA || (opt == OPT_BINARY && binary) then NoAnswer else Refuse(DONT)
    else NoAnswer
  }

  function Negotiated(s: State, cmd: char, opt: char): State {
    match AnswerTo(s.binary, cmd, opt)
    case NoAnswer => s
    case Refuse(reply) =>
      var key := Refusal(reply, opt);
      if key in s.refused then s else s.(refused := s.refused + {key}, sent := s.sent + [IAC, reply, opt])
  }

  function Clamp(v: nat, lo: nat, hi: nat): nat { if v < lo then lo else if v > hi then hi else v }

  function Resized(s: State, w: nat, h: nat): State {
    s.(width := if w > 0 then Clamp(w, 20, 512) else s.width, height := if h > 0 then Clamp(h, 5, 512) else s.height)
  }

  function Word(hi: char, lo: char): nat { hi as int * 256 + lo as int }

  function Subnegotiated(s: State, buf: Bytes): State {
    if |buf| >= 5 && buf[0] == OPT_NAWS then Resized(s, Word(buf[1], buf[2]), Word(buf[3], buf[4])) else s
  }

  // ---- reading ---------------------------------------------------------------------------

  function Kept(buf: Bytes, b: char): Bytes { if |buf| < MAX_SUBNEG then buf + [b] else buf }

  datatype Sub = Whole(buf: Bytes, rest: Bytes) | Cut

  /** readSubneg from what it has so far. */
  function ReadSub(t: Bytes, buf: Bytes): (r: Sub)
    ensures r.Whole? ==> |r.rest| < |t|
    decreases |t|
  {
    if t == "" then Cut
    else if t[0] != IAC then ReadSub(t[1..], Kept(buf, t[0]))
    else if |t| == 1 then Cut
    else if t[1] == SE then Whole(buf, t[2..])
    else if t[1] != IAC then ReadSub(t[2..], buf)
    else ReadSub(t[2..], Kept(buf, IAC))
  }

  datatype Command = Escaped(rest: Bytes) | Handled(s: State, rest: Bytes) | Broken

  predicate IsOption(c: char) { c == DO || c == DONT || c == WILL || c == WONT }

  /** readCommand: what follows an IAC. */
  function ReadCommand(s: State, t: Bytes): (r: Command)
    ensures !r.Broken? ==> |r.rest| < |t|
    ensures r.Handled? ==> r.s.lastCR == s.lastCR && r.s.binary == s.binary
  {
    if t == "" then Broken
    else if t[0] == IAC then Escaped(t[1..])
    else if IsOption(t[0]) then
      if |t| == 1 then Broken else Handled(Negotiated(s, t[0], t[1]), t[2..])
    else if t[0] == SB then
      match ReadSub(t[1..], "")
      case Cut => Broken
      case Whole(buf, rest) => Handled(Subnegotiated(s, buf), rest)
    else Handled(s, t[1..])
  }

  datatype Read = Byte(b: char, s: State, rest: Bytes) | End(s: State)

  predicate Dropped(cr: bool, b: char) { cr && (b == '\n' || b == NUL) }

  /** ReadByte: the next data byte, or the end of what was sent. */
  function ReadByte(s: State, t: Bytes): (r: Read)
    ensures r.Byte? ==> |r.rest| < |t|
    ensures r.s.binary == s.binary
    decreases |t|
  {
    if t == "" then End(s)
    else if t[0] == IAC then
      match ReadCommand(s, t[1..])
      case Escaped(rest) => Byte(IAC, s.(lastCR := false), rest)
      case Handled(s2, rest) => ReadByte(s2, rest)
      case Broken => End(s)
    else if s.binary then Byte(t[0], s.(lastCR := false), t[1..])
    else if Dropped(s.lastCR, t[0]) then ReadByte(s.(lastCR := false), t[1..])
    else Byte(t[0], s.(lastCR := t[0] == '\r'), t[1..])
  }

  datatype All = All(data: Bytes, s: State)

  function ReadAll(s: State, t: Bytes): All
    decreases |t|
  {
    match ReadByte(s, t)
    case End(s2) => All("", s2)
    case Byte(b, s2, rest) => var r := ReadAll(s2, rest); All([b] + r.data, r.s)
  }

  /** What Write sends. */
  function EscapeIac(p: Bytes): Bytes {
    if p == "" then "" else (if p[0] == IAC then [IAC, IAC] else [p[0]]) + EscapeIac(p[1..])
  }

  // ---- what a client sends ------------------------------------------------------------------

  datatype Item =
    | Data(b: char)
    | Plain(cmd: char)
    | Option(cmd: char, opt: char)
    | Subneg(body: Bytes)

  predicate WellFormed(i: Item) {
    match i
    case Data(_) => true
    case Plain(c) => c != IAC && c != SB && !IsOption(c)
    case Option(c, _) => IsOption(c)
    case Subneg(_) => true
  }

  function WireOf(i: Item): Bytes {
    match i
    case Data(b) => if b == IAC then [IAC, IAC] else [b]
    case Plain(c) => [IAC, c]
    case Option(c, o) => [IAC, c, o]
    case Subneg(body) => [IAC, SB] + EscapeIac(body) + [IAC, SE]
  }

  function Wire(items: seq<Item>): Bytes {
    if items == [] then "" else WireOf(items[0]) + Wire(items[1..])
  }

  function DataOf(items: seq<Item>): Bytes {
    if items == [] then "" else (if items[0].Data? then [items[0].b] else "") + DataOf(items[1..])
  }

  /** One LF or NUL after each CR taken out. */
  function Reduce(cr: bool, d: Bytes): Bytes
    decreases |d|
  {
    if d == "" then ""
    else if Dropped(cr, d[0]) then Reduce(false, d[1..])
    else [d[0]] + Reduce(d[0] == '\r', d[1..])
  }

  /** What an item does to the connection. */
  function After(s: State, i: Item): State {
    match i
    case Data(b) => s.(lastCR := !s.binary && b == '\r')
    case Plain(_) => s
    case Option(c, o) => Negotiated(s, c, o)
    case Subneg(body) => Subnegotiated(s, if |body| <= MAX_SUBNEG then body else body[..MAX_SUBNEG])
  }

  function AfterAll(s: State, items: seq<Item>): State
    decreases |items|
  {
    if items == [] then s else AfterAll(After(s, items[0]), items[1..])
  }

  // ---- transparency -----------------------------------------------------------------------------

  lemma {:induction false} SubnegRead(body: Bytes, buf: Bytes, rest: Bytes)
    requires |buf| <= MAX_SUBNEG
    ensures ReadSub(EscapeIac(body) + [IAC, SE] + rest, buf) == Whole(First(buf + body), rest)
    decreases |body|
  {
    var end := [IAC, SE] + rest;
    assert EscapeIac(body) + [IAC, SE] + rest == EscapeIac(body) + end;
    if body == "" {
      assert buf + body == buf;
      assert EscapeIac(body) + end == end && end[2..] == rest;
    } else {
      var first := if body[0] == IAC then [IAC, IAC] else [body[0]];
      var t := EscapeIac(body) + end;
      Assoc(first, EscapeIac(body[1..]), end);
      assert t[|first|..] == EscapeIac(body[1..]) + end;
      assert EscapeIac(body[1..]) + [IAC, SE] + rest == EscapeIac(body[1..]) + end;
      SubnegRead(body[1..], Kept(buf, body[0]), rest);
      KeptFirst(buf, body);
    }
  }

  function First(s: Bytes): Bytes { if |s| <= MAX_SUBNEG then s else s[..MAX_SUBNEG] }

  lemma KeptFirst(buf: Bytes, body: Bytes)
    requires body != "" && |buf| <= MAX_SUBNEG
    ensures First(Kept(buf, body[0]) + body[1..]) == First(buf + body)
  {
    assert buf + body == buf + [body[0]] + body[1..];
  }

  lemma SubnegIs(s: State, body: Bytes, rest: Bytes)
    ensures ReadByte(s, WireOf(Subneg(body)) + rest) == ReadByte(After(s, Subneg(body)), rest)
  {
    hide Negotiated, Subnegotiated, ReadSub, EscapeIac;
    var t := WireOf(Subneg(body)) + rest;
    var tail := EscapeIac(body) + [IAC, SE] + rest;
    assert t == [IAC, SB] + tail;
    assert t[1..] == [SB] + tail && ([SB] + tail)[1..] == tail;
    SubnegRead(body, "", rest);
    assert "" + body == body;
  }

  /** A command is read without a byte of data. */
  lemma CommandRead(s: State, i: Item, rest: Bytes)
    requires WellFormed(i) && !i.Data?
    ensures ReadByte(s, WireOf(i) + rest) == ReadByte(After(s, i), rest)
  {
    hide Negotiated, Subnegotiated, ReadSub, EscapeIac;
    if i.Subneg? {
      SubnegIs(s, i.body, rest);
    } else {
      var c := i.cmd;
      var t := WireOf(i) + rest;
      if i.Plain? {
        assert t[1..] == [c] + rest && ([c] + rest)[1..] == rest;
      } else {
        assert t[1..] == [c, i.opt] + rest && ([c, i.opt] + rest)[2..] == rest;
      }
    }
  }

  lemma DataRead(s: State, b: char, rest: Bytes)
    ensures var t := WireOf(Data(b)) + rest;
            ReadByte(s, t) == if !s.binary && Dropped(s.lastCR, b) then ReadByte(After(s, Data(b)), rest)
                              else Byte(b, After(s, Data(b)), rest)
  {
    hide Negotiated, Subnegotiated, ReadSub;
    var t := WireOf(Data(b)) + rest;
    if b == IAC {
      assert t[1..] == [IAC] + rest && ([IAC] + rest)[1..] == rest;
    } else {
      assert t[1..] == rest;
    }
  }

  /** Reading what a well-behaved client sends, whatever commands and
      subnegotiations stand between its bytes (between a CR and its LF too): in
      binary mode the data as it is, in text mode with one LF or NUL after each CR
      taken out; and every command has had its effect, in order. */
  lemma {:induction false} Transparent(s: State, items: seq<Item>)
    requires forall i :: i in items ==> WellFormed(i)
    ensures ReadAll(s, Wire(items)).data == if s.binary then DataOf(items) else Reduce(s.lastCR, DataOf(items))
    ensures ReadAll(s, Wire(items)).s == AfterAll(s, items)
    decreases |items|
  {
    hide ReadByte, After, WellFormed, WireOf, Negotiated, Subnegotiated;
    if items == [] {
      assert ReadByte(s, "") == End(s) by { NothingToRead(s); }
    } else {
      var i, rest := items[0], items[1..];
      assert forall x :: x in rest ==> x in items;
      assert i in items;
      Transparent(After(s, i), rest);
      if i.Data? {
        DataRead(s, i.b, Wire(rest));
        DataNext(s, items);
      } else {
        CommandRead(s, i, Wire(rest));
        AfterCommand(s, i);
        assert DataOf(items) == DataOf(rest);
      }
    }
  }

  lemma NothingToRead(s: State)
    ensures ReadByte(s, "") == End(s)
  {
  }

  lemma AfterCommand(s: State, i: Item)
    ensures !i.Data? ==> After(s, i).lastCR == s.lastCR
    ensures After(s, i).binary == s.binary
    ensures i.Data? ==> After(s, i).lastCR == (!s.binary && i.b == '\r')
  {
  }

  lemma DataNext(s: State, items: seq<Item>)
    requires items != [] && items[0].Data?
    ensures After(s, items[0]).binary == s.binary
    ensures var d, rest, cr := items[0].b, DataOf(items[1..]), After(s, items[0]).lastCR;
            && DataOf(items) == [d] + rest
            && (!s.binary ==> Reduce(s.lastCR, DataOf(items)) == if Dropped(s.lastCR, d) then Reduce(cr, rest) else [d] + Reduce(cr, rest))
  {
    assert ([items[0].b] + DataOf(items[1..]))[1..] == DataOf(items[1..]);
  }

  function AsData(p: Bytes): (items: seq<Item>)
    ensures |items| == |p| && forall k :: 0 <= k < |p| ==> items[k] == Data(p[k])
  {
    if p == "" then [] else [Data(p[0])] + AsData(p[1..])
  }

  lemma {:induction false} WriteIsWire(p: Bytes)
    ensures EscapeIac(p) == Wire(AsData(p)) && DataOf(AsData(p)) == p
  {
    if p != "" {
      WriteIsWire(p[1..]);
      assert AsData(p)[1..] == AsData(p[1..]);
    }
  }

  /** What Write escaped, read back by the same protocol. */
  lemma WrittenIsRead(s: State, p: Bytes)
    ensures var r := ReadAll(s, EscapeIac(p));
            && r.data == (if s.binary then p else Reduce(s.lastCR, p))
            && r.s.refused == s.refused && r.s.sent == s.sent
  {
    hide ReadAll, Wire, DataOf, Reduce, EscapeIac;
    WriteIsWire(p);
    Transparent(s, AsData(p));
    DataSendsNothing(s, AsData(p));
  }

  lemma {:induction false} DataSendsNothing(s: State, items: seq<Item>)
    requires forall i :: i in items ==> i.Data?
    ensures AfterAll(s, items).refused == s.refused && AfterAll(s, items).sent == s.sent
    decreases |items|
  {
    if items != [] {
      assert items[0] in items;
      assert forall x :: x in items[1..] ==> x in items;
      DataSendsNothing(After(s, items[0]), items[1..]);
    }
  }

  // ---- negotiation ends ---------------------------------------------------------------------------

  function RefusalBytes(log: seq<Refusal>): Bytes {
    if log == [] then ""
    else
      var last := log[|log| - 1];
      RefusalBytes(log[..|log| - 1]) + [IAC, last.cmd, last.opt]
  }

  ghost predicate Once(log: seq<Refusal>) { forall i, j :: 0 <= i < j < |log| ==> log[i] != log[j] }

  /** All that was sent since is one refusal for each thing refused. */
  ghost predicate RefusedOnce(s: State, before: Bytes, log: seq<Refusal>) {
    && Once(log) && (forall r :: r in log <==> r in s.refused)
    && s.sent == before + RefusalBytes(log)
  }

  ghost predicate SizeOk(s: State) { 20 <= s.width <= 512 && 5 <= s.height <= 512 }

  lemma NegotiatedOnce(s: State, cmd: char, opt: char, before: Bytes, log: seq<Refusal>) returns (log2: seq<Refusal>)
    requires RefusedOnce(s, before, log)
    ensures RefusedOnce(Negotiated(s, cmd, opt), before, log2)
    ensures SizeOk(s) ==> SizeOk(Negotiated(s, cmd, opt))
  {
    hide AnswerTo;
    log2 := log;
    var t := Negotiated(s, cmd, opt);
    if t != s {
      var key := Refusal(AnswerTo(s.binary, cmd, opt).reply, opt);
      log2 := log + [key];
      assert log2[..|log|] == log;
      Assoc(before, RefusalBytes(log), [IAC, key.cmd, key.opt]);
    }
  }

  lemma CommandOnce(s: State, t: Bytes, before: Bytes, log: seq<Refusal>) returns (log2: seq<Refusal>)
    requires RefusedOnce(s, before, log) && ReadCommand(s, t).Handled?
    ensures RefusedOnce(ReadCommand(s, t).s, before, log2)
    ensures SizeOk(s) ==> SizeOk(ReadCommand(s, t).s)
  {
    hide Negotiated, ReadSub, Once, RefusalBytes;
    log2 := log;
    if IsOption(t[0]) {
      log2 := NegotiatedOnce(s, t[0], t[1], before, log);
    }
  }

  lemma {:induction false} ByteOnce(s: State, t: Bytes, before: Bytes, log: seq<Refusal>) returns (log2: seq<Refusal>)
    requires RefusedOnce(s, before, log)
    ensures RefusedOnce(ReadByte(s, t).s, before, log2)
    ensures SizeOk(s) ==> SizeOk(ReadByte(s, t).s)
    decreases |t|
  {
    hide ReadCommand, Once, RefusalBytes;
    log2 := log;
    if t == "" {
    } else if t[0] == IAC {
      var r := ReadCommand(s, t[1..]);
      if r.Handled? {
        log2 := CommandOnce(s, t[1..], before, log);
        log2 := ByteOnce(r.s, r.rest, before, log2);
      }
    } else if !s.binary && Dropped(s.lastCR, t[0]) {
      log2 := ByteOnce(s.(lastCR := false), t[1..], before, log);
    }
  }

  /** Whatever bytes come, well-formed or not: nothing is refused twice, so two ends
      cannot go on negotiating for ever, and the window stays within its bounds. */
  lemma {:induction false} NegotiationEnds(s: State, t: Bytes, before: Bytes, log: seq<Refusal>) returns (log2: seq<Refusal>)
    requires RefusedOnce(s, before, log)
    ensures RefusedOnce(ReadAll(s, t).s, before, log2)
    ensures SizeOk(s) ==> SizeOk(ReadAll(s, t).s)
    decreases |t|
  {
    hide ReadByte, Once, RefusalBytes, RefusedOnce;
    log2 := ByteOnce(s, t, before, log);
    var r := ReadByte(s, t);
    if r.Byte? {
      log2 := NegotiationEnds(r.s, r.rest, before, log2);
    }
  }

  // ---- what a client gets for what it sends ------------------------------------------------

  /** A client's report of its window, high bytes first (RFC 1073), sets the size that was
      reported, as far as the bounds go; a 0 leaves that side as it was, and nothing else
      changes. */
  lemma WindowReported(s: State, w: nat, h: nat)
    requires w < 0x1_0000 && h < 0x1_0000
    ensures var body := [31 as char, (w / 256) as char, (w % 256) as char, (h / 256) as char, (h % 256) as char];
            ReadAll(s, [IAC, SB] + EscapeIac(body) + [IAC, SE])
            == All("", s.(width := if w == 0 then s.width else if w < 20 then 20 else if w > 512 then 512 else w,
                          height := if h == 0 then s.height else if h < 5 then 5 else if h > 512 then 512 else h))
  {
    hide ReadAll, ReadByte, EscapeIac, Reduce;
    var body := [31 as char, (w / 256) as char, (w % 256) as char, (h / 256) as char, (h % 256) as char];
    CommandAlone(s, Subneg(body));
    assert Word(body[1], body[2]) == w && Word(body[3], body[4]) == h;
  }

  lemma CommandAlone(s: State, i: Item)
    requires WellFormed(i) && !i.Data?
    ensures ReadAll(s, WireOf(i)) == All("", After(s, i))
  {
    hide After, WireOf, ReadByte, WellFormed;
    CommandRead(s, i, "");
    assert WireOf(i) + "" == WireOf(i);
    NothingToRead(After(s, i));
  }

  /** The client answers what this end offers (ECHO and SGA to do, NAWS and SGA to be
      done, BINARY both ways while it is on) without being refused; any other option is
      refused in kind, the first time. What a client stops or will not do needs no
      answer. */
  lemma Answered(s: State, cmd: char, opt: char)
    requires IsOption(cmd)
    ensures var offered := if cmd == 253 as char then opt == 1 as char || opt == 3 as char || (opt == 0 as char && s.binary)
                           else if cmd == 251 as char then opt == 31 as char || opt == 3 as char || (opt == 0 as char && s.binary)
                           else true;
            var reply := if cmd == 253 as char then 252 as char else 254 as char;
            ReadAll(s, [255 as char, cmd, opt])
            == All("", if offered || Refusal(reply, opt) in s.refused then s
                       else s.(refused := s.refused + {Refusal(reply, opt)}, sent := s.sent + [255 as char, reply, opt]))
  {
    hide ReadAll, ReadByte, Reduce;
    CommandAlone(s, Option(cmd, opt));
  }
}
