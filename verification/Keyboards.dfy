/**
 From bytes to keys: readRune, skipEscape and decodeHigh of internal/bbs/session.go.
 The session takes one LF or NUL after a CR out of what it reads, and over Telnet the
 connection has done so before; the main result says when that shows.
 */
module Keyboards {
  import opened Text
  import opened LineEditor
  import Charsets
  import Telnets

  datatype Terminal = TermUtf8 | TermCp437 | TermAscii

  datatype Esc = EscNone | EscStart | EscSeq

  /** What the session remembers between two bytes. */
  datatype Input = Input(esc: Esc, lastCR: bool, ubuf: Bytes)

  const START := Input(EscNone, false, "")

  const NUL := Telnets.NUL
  const DEL := 127 as char
  const BACKSPACE := 8 as char
  const CTRL_U := 21 as char
  const UTF_MAX := 4

  // ---- escape sequences -------------------------------------------------------------

  predicate EndsEscape(b: char) { '@' <= b <= '~' }

  /** skipEscape: the next state, and whether the byte belongs to a sequence. */
  function Skip(esc: Esc, b: char): (Esc, bool) {
    if esc == EscStart && (b == '[' || b == 'O') then (EscSeq, true)
    else if esc == EscSeq then (if EndsEscape(b) then EscNone else EscSeq, true)
    else if b == ESC then (EscStart, true)
    else (EscNone, false)
  }

  // ---- high bytes ---------------------------------------------------------------------

  /** How many bytes a UTF-8 lead byte announces; 1 for one that announces none. */
  function Announced(lead: char): nat {
    var n := lead as int;
    if 0xC2 <= n <= 0xDF then 2 else if 0xE0 <= n <= 0xEF then 3 else if 0xF0 <= n <= 0xF4 then 4 else 1
  }

  predicate SecondFits(lead: char, b: char) {
    && Charsets.IsTail(b)
    && (lead as int == 0xE0 ==> b as int >= 0xA0) && (lead as int == 0xED ==> b as int < 0xA0)
    && (lead as int == 0xF0 ==> b as int >= 0x90) && (lead as int == 0xF4 ==> b as int < 0x90)
  }

  /** utf8.FullRune: these bytes are a rune, or cannot become one. */
  predicate FullRune(p: Bytes)
    requires p != ""
  {
    || |p| >= Announced(p[0])
    || (|p| > 1 && !SecondFits(p[0], p[1]))
    || (|p| > 2 && !Charsets.IsTail(p[2]))
  }

  datatype High = High(ubuf: Bytes, keys: seq<Key>)

  /** decodeHigh. */
  function DecodeHigh(cs: Terminal, ubuf: Bytes, b: char): High {
    match cs
    case TermCp437 => High(ubuf, [Rune(Charsets.DecodeUnit(b, Charsets.CP437))])
    case TermAscii => High(ubuf, [])
    case TermUtf8 =>
      var p := ubuf + [b];
      if !FullRune(p) then High(if |p| >= UTF_MAX then "" else p, [])
      else
        match Charsets.FirstRune(p)
        case Invalid => High("", [])
        case Rune(c, _) => High("", if c == '\U{FFFD}' then [] else [Rune(c)])
  }

  // ---- one byte, all bytes ---------------------------------------------------------------

  datatype Taken = Taken(st: Input, keys: seq<Key>)

  function KeyOf(b: char): Key { if b == CTRL_U then KillLine else Rune(b) }

  /** What readRune does with a byte that is in no escape sequence. */
  function TakeData(cs: Terminal, st: Input, b: char): Taken {
    var next := st.(lastCR := b == '\r');
    if Telnets.Dropped(st.lastCR, b) then Taken(next, [])
    else if b == '\r' || b == '\n' then Taken(next, [Enter])
    else if b == BACKSPACE || b == DEL then Taken(next, [Backspace])
    else if b == NUL then Taken(next, [])
    else if b as int < 0x80 then Taken(next, [KeyOf(b)])
    else var h := DecodeHigh(cs, st.ubuf, b); Taken(next.(ubuf := h.ubuf), h.keys)
  }

  function TakeByte(cs: Terminal, st: Input, b: char): Taken {
    var (esc, skipped) := Skip(st.esc, b);
    if skipped then Taken(st.(esc := esc), []) else TakeData(cs, st.(esc := esc), b)
  }

  function Keys(cs: Terminal, st: Input, d: Bytes): seq<Key>
    decreases |d|
  {
    if d == "" then [] else var t := TakeByte(cs, st, d[0]); t.keys + Keys(cs, t.st, d[1..])
  }

  // ---- readRune as it runs ------------------------------------------------------------------

  datatype Next = Pressed(key: Key, st: Input, rest: Bytes) | Waiting(st: Input)

  /** The next key, if the bytes hold one. */
  function NextKey(cs: Terminal, st: Input, d: Bytes): (r: Next)
    ensures r.Pressed? ==> |r.rest| < |d|
    decreases |d|
  {
    if d == "" then Waiting(st)
    else
      var t := TakeByte(cs, st, d[0]);
      if t.keys != [] then Pressed(t.keys[0], t.st, d[1..]) else NextKey(cs, t.st, d[1..])
  }

  lemma OneKeyAtMost(cs: Terminal, st: Input, b: char)
    ensures |TakeByte(cs, st, b).keys| <= 1
  {
    hide FullRune;
  }

  /** Reading key by key gives all the keys. */
  lemma {:induction false} KeysAreNext(cs: Terminal, st: Input, d: Bytes)
    ensures Keys(cs, st, d) == match NextKey(cs, st, d)
                               case Waiting(_) => []
                               case Pressed(k, st2, rest) => [k] + Keys(cs, st2, rest)
    decreases |d|
  {
    hide TakeByte;
    if d != "" {
      var t := TakeByte(cs, st, d[0]);
      OneKeyAtMost(cs, st, d[0]);
      if t.keys == [] {
        KeysAreNext(cs, t.st, d[1..]);
        assert t.keys + Keys(cs, t.st, d[1..]) == Keys(cs, t.st, d[1..]);
      } else {
        assert t.keys == [t.keys[0]];
      }
    }
  }

  class Keyboard {
    const cs: Terminal
    var input: Bytes
    var esc: Esc
    var lastCR: bool
    var ubuf: Bytes

    constructor (cs: Terminal, input: Bytes)
      ensures this.cs == cs && this.input == input && Value() == START
    {
      this.cs, this.input, esc, lastCR, ubuf := cs, input, EscNone, false, "";
    }

    ghost function Value(): Input
      reads this
    {
      Input(esc, lastCR, ubuf)
    }

    method SkipEscape(b: char) returns (skipped: bool)
      modifies this`esc
      ensures (esc, skipped) == Skip(old(esc), b)
    {
      if esc == EscStart {
        if b == '[' || b == 'O' {
          esc := EscSeq;
          return true;
        }
        esc := EscNone;
      } else if esc == EscSeq {
        if EndsEscape(b) {
          esc := EscNone;
        }
        return true;
      }
      if b == ESC {
        esc := EscStart;
        return true;
      }
      return false;
    }

    method HighByte(b: char) returns (keys: seq<Key>)
      modifies this`ubuf
      ensures High(ubuf, keys) == DecodeHigh(cs, old(ubuf), b)
    {
      hide FullRune;
      if cs == TermCp437 {
        return [Rune(Charsets.DecodeUnit(b, Charsets.CP437))];
      }
      if cs == TermAscii {
        return [];
      }
      ubuf := ubuf + [b];
      if !FullRune(ubuf) {
        if |ubuf| >= UTF_MAX {
          ubuf := "";
        }
        return [];
      }
      var r := Charsets.FirstRune(ubuf);
      ubuf := "";
      return if r.Rune? && r.c != '\U{FFFD}' then [Rune(r.c)] else [];
    }

    /** The next key; the end of the input is an error. */
    method ReadRune() returns (ok: bool, key: Key)
      modifies this
      ensures var r := NextKey(cs, old(Value()), old(input));
              if ok then r == Pressed(key, Value(), input) else r == Waiting(Value())
    {
      hide DecodeHigh;
      while input != ""
        invariant NextKey(cs, Value(), input) == NextKey(cs, old(Value()), old(input))
        decreases |input|
      {
        var b := input[0];
        input := input[1..];
        var skipped := SkipEscape(b);
        if skipped {
          continue;
        }
        var wasCR := lastCR;
        lastCR := b == '\r';
        if wasCR && (b == '\n' || b == NUL) {
          continue;
        }
        if b == '\r' || b == '\n' {
          return true, Enter;
        }
        if b == BACKSPACE || b == DEL {
          return true, Backspace;
        }
        if b == NUL {
          continue;
        }
        if b as int < 0x80 {
          return true, KeyOf(b);
        }
        var keys := HighByte(b);
        if keys != [] {
          return true, keys[0];
        }
      }
      return false, Enter;
    }
  }

  // ---- CR LF taken out twice -----------------------------------------------------------------

  /** The state of the escape machine after some bytes. */
  function EscAfter(e: Esc, d: Bytes): Esc
    decreases |d|
  {
    if d == "" then e else EscAfter(Skip(e, d[0]).0, d[1..])
  }

  /** The first byte that is in no escape sequence is LF. */
  predicate LfComes(e: Esc, d: Bytes)
    decreases |d|
  {
    d != "" && if Skip(e, d[0]).1 then LfComes(Skip(e, d[0]).0, d[1..]) else d[0] == '\n'
  }

  /** At i there is a CR outside an escape sequence, then LF or NUL, and what comes
      next, but for escape sequences, is LF. */
  ghost predicate LostAt(e: Esc, d: Bytes, i: nat) {
    && i + 1 < |d| && d[i] == '\r' && EscAfter(e, d[..i]) != EscSeq
    && Telnets.Dropped(true, d[i + 1]) && LfComes(EscNone, d[i + 2..])
  }

  /** The same going forward: afterCR says the byte before is such a CR, pending that
      the LF or NUL after one was the last byte outside a sequence. */
  predicate LostFrom(e: Esc, afterCR: bool, pending: bool, d: Bytes)
    decreases |d|
  {
    d != ""
    && var (e2, skipped) := Skip(e, d[0]);
       if Telnets.Dropped(afterCR, d[0]) then LostFrom(EscNone, false, true, d[1..])
       else if skipped then LostFrom(e2, false, pending, d[1..])
       else (pending && d[0] == '\n') || LostFrom(e2, d[0] == '\r', false, d[1..])
  }

  lemma LostLater(e: Esc, d: Bytes, i: nat)
    requires d != ""
    ensures LostAt(e, d, i + 1) <==> LostAt(Skip(e, d[0]).0, d[1..], i)
  {
    hide LfComes;
    var rest := d[1..];
    if i + 1 < |rest| {
      assert d[..i + 1][1..] == rest[..i] && d[i + 3..] == rest[i + 2..];
    }
  }

  ghost predicate LostSomewhere(e: Esc, d: Bytes) { exists i: nat :: LostAt(e, d, i) }

  lemma LostHere(e: Esc, d: Bytes)
    requires d != ""
    ensures LostSomewhere(e, d) <==> LostAt(e, d, 0) || LostSomewhere(Skip(e, d[0]).0, d[1..])
  {
    hide LostAt;
    if LostSomewhere(e, d) {
      var i: nat :| LostAt(e, d, i);
      if i > 0 {
        LostLater(e, d, i - 1);
      }
    }
    if LostSomewhere(Skip(e, d[0]).0, d[1..]) {
      var i: nat :| LostAt(Skip(e, d[0]).0, d[1..], i);
      LostLater(e, d, i);
    }
  }

  lemma {:induction false} LostForward(e: Esc, afterCR: bool, pending: bool, d: Bytes)
    requires afterCR ==> e == EscNone && !pending
    ensures LostFrom(e, afterCR, pending, d)
            <==> (pending && LfComes(e, d)) || LostSomewhere(e, d)
                 || (afterCR && d != "" && Telnets.Dropped(true, d[0]) && LfComes(EscNone, d[1..]))
    decreases |d|
  {
    hide LostSomewhere;
    if d == "" {
      NoneLost(e);
    } else {
      LostHere(e, d);
      var (e2, skipped) := Skip(e, d[0]);
      if Telnets.Dropped(afterCR, d[0]) {
        LostForward(EscNone, false, true, d[1..]);
      } else if skipped {
        LostForward(e2, false, pending, d[1..]);
      } else {
        LostForward(e2, d[0] == '\r', false, d[1..]);
        assert d[..0] == "" && (|d| > 1 ==> d[1..][1..] == d[2..]);
      }
    }
  }

  lemma NoneLost(e: Esc)
    ensures !LostSomewhere(e, "")
  {
  }

  /** Where the two readers stand: st reads all bytes, and the other what is left after
      the connection, which remembers cr. They differ at most in lastCR, after a LF or
      NUL that only the first has seen. */
  ghost predicate Beside(st: Input, cr: bool, afterCR: bool, pending: bool) {
    && (pending ==> !st.lastCR) && (afterCR ==> cr && st.lastCR && st.esc == EscNone)
    && (cr && !afterCR ==> st.esc == EscSeq)
  }

  function Other(st: Input, pending: bool): Input { if pending then st.(lastCR := true) else st }

  ghost predicate Agree(lost: bool, a: seq<Key>, b: seq<Key>) { if lost then |a| < |b| else a == b }

  lemma AgreeNext(lost: bool, k: seq<Key>, a: seq<Key>, b: seq<Key>)
    requires Agree(lost, a, b)
    ensures Agree(lost, k + a, k + b)
  {
  }

  lemma SkippedAlike(cs: Terminal, st: Input, pending: bool, b: char)
    requires Skip(st.esc, b).1
    ensures TakeByte(cs, Other(st, pending), b) == Taken(Other(TakeByte(cs, st, b).st, pending), [])
    ensures TakeByte(cs, st, b) == Taken(st.(esc := Skip(st.esc, b).0), [])
  {
  }

  lemma DataAlike(cs: Terminal, st: Input, pending: bool, b: char)
    requires !Skip(st.esc, b).1 && (pending ==> !st.lastCR)
    ensures var t, u := TakeByte(cs, st, b), TakeByte(cs, Other(st, pending), b);
            && t.st.esc == EscNone && t.st.lastCR == (b == '\r') && u.st == t.st
            && if pending && b == '\n' then t.keys == [Enter] && u.keys == [] else u.keys == t.keys
  {
    hide DecodeHigh;
  }

  lemma DropIsQuiet(cs: Terminal, st: Input, b: char)
    requires Telnets.Dropped(true, b)
    ensures st.esc == EscSeq ==> TakeByte(cs, st, b) == Taken(st, [])
    ensures st.esc == EscNone && st.lastCR ==> TakeByte(cs, st, b) == Taken(st.(lastCR := false), [])
  {
    hide DecodeHigh;
  }

  lemma {:induction false} TwoReaders(cs: Terminal, st: Input, cr: bool, afterCR: bool, pending: bool, d: Bytes)
    requires Beside(st, cr, afterCR, pending)
    ensures Agree(LostFrom(st.esc, afterCR, pending, d), Keys(cs, Other(st, pending), Telnets.Reduce(cr, d)), Keys(cs, st, d))
    decreases |d|
  {
    hide TakeByte, Agree, Skip, LostFrom;
    if d == "" {
      NoKeys(cs, st, afterCR, pending);
    } else {
      var b, rest := d[0], d[1..];
      LostStep(st.esc, afterCR, pending, d);
      if Telnets.Dropped(cr, b) {
        DropIsQuiet(cs, st, b);
        NothingAdded(Keys(cs, TakeByte(cs, st, b).st, rest));
        if afterCR {
          TwoReaders(cs, st.(lastCR := false), false, false, true, rest);
          assert Other(st.(lastCR := false), true) == st;
        } else {
          SequenceGoesOn(st.esc, b);
          TwoReaders(cs, st, false, false, pending, rest);
        }
      } else {
        var left := Telnets.Reduce(b == '\r', rest);
        assert ([b] + left)[1..] == left;
        var t, u := TakeByte(cs, st, b), TakeByte(cs, Other(st, pending), b);
        if Skip(st.esc, b).1 {
          SkippedAlike(cs, st, pending, b);
          SkippedCR(st.esc, b);
          TwoReaders(cs, t.st, b == '\r', false, pending, rest);
          NothingAdded(Keys(cs, t.st, rest));
          NothingAdded(Keys(cs, u.st, left));
        } else {
          DataAlike(cs, st, pending, b);
          DataLeavesNone(st.esc, b);
          TwoReaders(cs, t.st, b == '\r', b == '\r', false, rest);
          AgreeNext(LostFrom(EscNone, b == '\r', false, rest), t.keys, Keys(cs, t.st, left), Keys(cs, t.st, rest));
          if pending && b == '\n' {
            OneMore(LostFrom(EscNone, false, false, rest), Keys(cs, t.st, left), Keys(cs, t.st, rest));
            NothingAdded(Keys(cs, t.st, left));
          }
        }
      }
    }
  }

  lemma LostStep(e: Esc, afterCR: bool, pending: bool, d: Bytes)
    requires d != ""
    ensures LostFrom(e, afterCR, pending, d)
            == if Telnets.Dropped(afterCR, d[0]) then LostFrom(EscNone, false, true, d[1..])
               else if Skip(e, d[0]).1 then LostFrom(Skip(e, d[0]).0, false, pending, d[1..])
               else (pending && d[0] == '\n') || LostFrom(Skip(e, d[0]).0, d[0] == '\r', false, d[1..])
  {
  }

  lemma NoKeys(cs: Terminal, st: Input, afterCR: bool, pending: bool)
    ensures Agree(LostFrom(st.esc, afterCR, pending, ""), Keys(cs, Other(st, pending), ""), Keys(cs, st, ""))
  {
  }

  lemma NothingAdded(a: seq<Key>)
    ensures [] + a == a
  {
  }

  lemma SequenceGoesOn(e: Esc, b: char)
    requires e == EscSeq && Telnets.Dropped(true, b)
    ensures Skip(e, b) == (EscSeq, true)
  {
  }

  lemma SkippedCR(e: Esc, b: char)
    requires Skip(e, b).1
    ensures b == '\r' ==> e == EscSeq && Skip(e, b).0 == EscSeq
  {
  }

  lemma DataLeavesNone(e: Esc, b: char)
    requires !Skip(e, b).1
    ensures Skip(e, b).0 == EscNone
  {
  }

  lemma OneMore(lost: bool, a: seq<Key>, b: seq<Key>)
    requires Agree(lost, a, b)
    ensures Agree(true, a, [Enter] + b)
  {
  }

  /** Over Telnet CR LF and CR NUL are reduced by the connection and by the session.
      The keys are those the session alone would read if and only if there is no place
      where a CR outside an escape sequence is followed by LF or NUL and, but for
      escape sequences, by LF. Otherwise there are fewer. */
  lemma ReducedTwice(cs: Terminal, d: Bytes)
    ensures Keys(cs, START, Telnets.Reduce(false, d)) == Keys(cs, START, d) <==> !exists i: nat :: LostAt(EscNone, d, i)
    ensures |Keys(cs, START, Telnets.Reduce(false, d))| <= |Keys(cs, START, d)|
  {
    hide Keys, LostFrom, LfComes, EscAfter, Telnets.Reduce;
    TwoReaders(cs, START, false, false, false, d);
    LostForward(EscNone, false, false, d);
    AgreeMeans(LostFrom(EscNone, false, false, d), Keys(cs, START, Telnets.Reduce(false, d)), Keys(cs, START, d));
  }

  lemma AgreeMeans(lost: bool, a: seq<Key>, b: seq<Key>)
    requires Agree(lost, a, b)
    ensures (a == b <==> !lost) && |a| <= |b|
  {
  }

  /** From the wire to the keys: what a client types among its commands. */
  lemma TypedOverTelnet(cs: Terminal, s: Telnets.State, items: seq<Telnets.Item>)
    requires !s.binary && !s.lastCR && forall i :: i in items ==> Telnets.WellFormed(i)
    ensures Keys(cs, START, Telnets.ReadAll(s, Telnets.Wire(items)).data) == Keys(cs, START, Telnets.DataOf(items))
            <==> !exists i: nat :: LostAt(EscNone, Telnets.DataOf(items), i)
  {
    hide Keys, LostAt, Telnets.Reduce, Telnets.ReadAll, Telnets.Wire, Telnets.DataOf;
    Telnets.Transparent(s, items);
    ReducedTwice(cs, Telnets.DataOf(items));
  }

  // ---- three inputs to look at -----------------------------------------------------------------

  /** CR LF LF is two Enters to the session and one over Telnet. */
  lemma CrLfLf(cs: Terminal)
    ensures Telnets.Reduce(false, "\r\n\n") == "\r\n"
    ensures Keys(cs, START, "\r\n\n") == [Enter, Enter] && Keys(cs, START, "\r\n") == [Enter]
  {
    assert "\r\n\n"[1..] == "\n\n" && "\r\n"[1..] == "\n" && "\n\n"[1..] == "\n" && "\n"[1..] == "";
    var afterCR, after := START.(lastCR := true), START;
    assert Keys(cs, after, "\n") == [Enter] + [];
    assert Keys(cs, afterCR, "\n") == [] + [];
    assert Keys(cs, afterCR, "\n\n") == [] + Keys(cs, after, "\n");
    assert Telnets.Reduce(true, "\n\n") == Telnets.Reduce(false, "\n") == "\n" + Telnets.Reduce(false, "");
  }

  /** A cursor key in between changes nothing: CR LF, ESC [ A, LF loses an Enter too. */
  lemma CursorKeyBetween(cs: Terminal)
    ensures var d := "\r\n" + [ESC, '[', 'A'] + "\n"; Keys(cs, START, Telnets.Reduce(false, d)) != Keys(cs, START, d)
  {
    hide Keys, Telnets.Reduce;
    var d := "\r\n" + [ESC, '[', 'A'] + "\n";
    assert d[..0] == "" && d[2..] == [ESC, '[', 'A', '\n'];
    var up := [ESC, '[', 'A', '\n'];
    assert up[1..] == ['[', 'A', '\n'] && up[1..][1..] == ['A', '\n'] && up[1..][1..][1..] == "\n";
    assert LfComes(EscNone, "\n") && LfComes(EscSeq, ['A', '\n']);
    assert LfComes(EscStart, ['[', 'A', '\n']) && LfComes(EscNone, up);
    assert LostAt(EscNone, d, 0);
    ReducedTwice(cs, d);
  }

  /** CR LF NUL is one Enter either way. */
  lemma CrLfNul(cs: Terminal)
    ensures var d := ['\r', '\n', NUL]; Keys(cs, START, Telnets.Reduce(false, d)) == Keys(cs, START, d)
  {
    hide Keys, Telnets.Reduce;
    var d := ['\r', '\n', NUL];
    forall i: nat ensures !LostAt(EscNone, d, i) {
      if i == 0 {
        assert d[2..][0] == NUL;
      }
    }
    ReducedTwice(cs, d);
  }

  // ---- what is typed arrives ---------------------------------------------------------------------

  /** A character that is no control and no replacement character. */
  predicate Typable(c: char) { c >= ' ' && c != DEL && c != '\U{FFFD}' }

  lemma LeadByte(c: char)
    requires c as int >= 0x80
    ensures var u := Charsets.Utf8(c); Announced(u[0]) == |u| >= 2 && forall k :: 0 <= k < |u| ==> u[k] as int >= 0x80
  {
  }

  lemma LaterBytes(c: char)
    requires c as int >= 0x80
    ensures var u := Charsets.Utf8(c); SecondFits(u[0], u[1]) && (|u| > 2 ==> Charsets.IsTail(u[2]))
  {
    var n := c as int;
    if 0x800 <= n < 0x1_0000 {
      assert n / 4096 == n / 64 / 64;
    } else if n >= 0x1_0000 {
      assert n / 262144 == n / 4096 / 64;
    }
  }

  lemma NotYetFull(c: char, k: nat)
    requires c as int >= 0x80 && 1 <= k < |Charsets.Utf8(c)|
    ensures !FullRune(Charsets.Utf8(c)[..k])
  {
    hide Charsets.Utf8, SecondFits, Announced;
    LeadByte(c);
    LaterBytes(c);
  }

  lemma NowFull(c: char)
    requires c as int >= 0x80
    ensures FullRune(Charsets.Utf8(c)) && Charsets.FirstRune(Charsets.Utf8(c)) == Charsets.Rune(c, |Charsets.Utf8(c)|)
  {
    hide Charsets.Utf8, SecondFits, Announced, Charsets.FirstRune;
    LeadByte(c);
    Charsets.FirstRuneOfUtf8(c, "");
    assert Charsets.Utf8(c) + "" == Charsets.Utf8(c);
  }

  /** With the first k bytes of a character in its buffer, the session has the
      character after the rest. */
  lemma {:induction false} BytesTyped(st: Input, c: char, k: nat, rest: Bytes)
    requires Typable(c) && c as int >= 0x80 && k < |Charsets.Utf8(c)|
    requires st.esc == EscNone && st.ubuf == Charsets.Utf8(c)[..k]
    ensures Keys(TermUtf8, st, Charsets.Utf8(c)[k..] + rest)
            == [Rune(c)] + Keys(TermUtf8, Input(EscNone, false, ""), rest)
    decreases |Charsets.Utf8(c)| - k
  {
    hide Charsets.Utf8, FullRune, Charsets.FirstRune, Keys;
    var u := Charsets.Utf8(c);
    var d := u[k..] + rest;
    LeadByte(c);
    assert d[0] == u[k] && d[1..] == u[k + 1..] + rest;
    assert u[..k] + [u[k]] == u[..k + 1];
    KeysStep(TermUtf8, st, d);
    if k + 1 < |u| {
      NotYetFull(c, k + 1);
      BytesTyped(Input(EscNone, false, u[..k + 1]), c, k + 1, rest);
      NothingAdded([Rune(c)] + Keys(TermUtf8, Input(EscNone, false, ""), rest));
    } else {
      NowFull(c);
      assert u[..k + 1] == u && u[k + 1..] + rest == rest;
    }
  }

  lemma KeysStep(cs: Terminal, st: Input, d: Bytes)
    requires d != ""
    ensures Keys(cs, st, d) == TakeByte(cs, st, d[0]).keys + Keys(cs, TakeByte(cs, st, d[0]).st, d[1..])
  {
    hide TakeByte;
  }

  function Runes(s: string): seq<Key> { if s == "" then [] else [Rune(s[0])] + Runes(s[1..]) }

  /** Any text without controls that a UTF-8 terminal sends comes as its characters,
      one key each, whatever is typed after it. */
  lemma {:induction false} TypedIsRead(st: Input, s: string, rest: Bytes)
    requires (forall c :: c in s ==> Typable(c)) && st.esc == EscNone && st.ubuf == ""
    ensures var after := if s == "" then st else START;
            Keys(TermUtf8, st, Charsets.Encode(s, Charsets.UTF8) + rest) == Runes(s) + Keys(TermUtf8, after, rest)
    decreases |s|
  {
    hide Charsets.Utf8, Keys, FullRune;
    if s == "" {
      assert Charsets.Encode(s, Charsets.UTF8) + rest == rest;
      NothingAdded(Keys(TermUtf8, st, rest));
    } else {
      var c, tail := s[0], Charsets.Encode(s[1..], Charsets.UTF8);
      assert c in s && forall x :: x in s[1..] ==> x in s;
      Assoc(Charsets.Utf8(c), tail, rest);
      CharTyped(st, c, tail + rest);
      TypedIsRead(START, s[1..], rest);
      Assoc([Rune(c)], Runes(s[1..]), Keys(TermUtf8, START, rest));
    }
  }

  lemma CharTyped(st: Input, c: char, rest: Bytes)
    requires Typable(c) && st.esc == EscNone && st.ubuf == ""
    ensures Keys(TermUtf8, st, Charsets.Utf8(c) + rest) == [Rune(c)] + Keys(TermUtf8, START, rest)
  {
    hide Keys, FullRune;
    if c as int < 0x80 {
      var d := Charsets.Utf8(c) + rest;
      assert d[0] == c && d[1..] == rest;
      KeysStep(TermUtf8, st, d);
    } else {
      assert Charsets.Utf8(c)[0..] == Charsets.Utf8(c);
      BytesTyped(st, c, 0, rest);
    }
  }
}
