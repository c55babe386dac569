/**
 The line editor of internal/bbs/session.go (readLine, wrapOverflow) and the loop of
 internal/bbs/editor.go that carries an unfinished word over to the next line.
 */
module LineEditor {
  import opened Text

  /** readRune's keys; a Rune below space is a control key that does nothing. */
  datatype Key = Enter | Backspace | KillLine | Rune(c: char)

  datatype LineOpts = LineOpts(max: int, wrap: bool)

  datatype Outcome = Line(line: string, carry: string, rest: seq<Key>) | Cut(buf: string)

  datatype Broken = Broken(line: string, carry: string)

  function TrimSpaces(s: string): (r: string)
    ensures r <= s && forall k :: |r| <= k < |s| ==> s[k] == ' '
  {
    if s != "" && s[|s| - 1] == ' ' then TrimSpaces(s[..|s| - 1]) else s
  }

  /** The place after the last space among the first n, or 0. */
  function AfterSpace(s: string, n: nat): (k: nat)
    requires n <= |s|
    ensures k <= n && (k > 0 ==> s[k - 1] == ' ')
    ensures forall i :: k <= i < n ==> s[i] != ' '
  {
    if n == 0 || s[n - 1] == ' ' then n else AfterSpace(s, n - 1)
  }

  /** wrapOverflow: the key that no longer fits takes the last word along. */
  function WrapOverflow(buf: string, r: char): Broken {
    var k := AfterSpace(buf, |buf|);
    if r == ' ' then Broken(buf, "")
    else if k == 0 then Broken(buf, [r])
    else Broken(TrimSpaces(buf[..k - 1]), buf[k..] + [r])
  }

  function ReadLine(o: LineOpts, buf: string, keys: seq<Key>): (r: Outcome)
    ensures r.Line? ==> |r.rest| < |keys|
    decreases |keys|
  {
    if keys == [] then Cut(buf)
    else
      var rest := keys[1..];
      match keys[0]
      case Enter => Line(buf, "", rest)
      case Backspace => ReadLine(o, if buf == "" then buf else buf[..|buf| - 1], rest)
      case KillLine => ReadLine(o, "", rest)
      case Rune(c) =>
        if c < ' ' then ReadLine(o, buf, rest)
        else if |buf| < o.max then ReadLine(o, buf + [c], rest)
        else if o.wrap then var b := WrapOverflow(buf, c); Line(b.line, b.carry, rest)
        else ReadLine(o, buf, rest)
  }

  /** The lines of a message as they are typed, and what stands in the last one. */
  datatype Typed = Typed(lines: seq<string>, buf: string)

  function TypeAll(max: int, carry: string, keys: seq<Key>): Typed
    decreases |keys|
  {
    match ReadLine(LineOpts(max, true), carry, keys)
    case Cut(buf) => Typed([], buf)
    case Line(line, next, rest) => var t := TypeAll(max, next, rest); Typed([line] + t.lines, t.buf)
  }

  // ---- as it runs -------------------------------------------------------------------------

  method BreakLine(buf: string, r: char) returns (line: string, carry: string)
    ensures Broken(line, carry) == WrapOverflow(buf, r)
  {
    if r == ' ' {
      return buf, "";
    }
    var cut, i := -1, |buf| - 1;
    while i >= 0
      invariant -1 <= i < |buf|
      invariant cut == -1
      invariant AfterSpace(buf, i + 1) == AfterSpace(buf, |buf|)
    {
      if buf[i] == ' ' {
        cut := i;
        break;
      }
      i := i - 1;
    }
    if cut < 0 {
      return buf, [r];
    }
    return TrimSpaces(buf[..cut]), buf[cut + 1..] + [r];
  }

  class Session {
    /** The keys the caller has yet to press. */
    var keys: seq<Key>

    method EditLine(o: LineOpts, init: string) returns (ok: bool, line: string, carry: string)
      modifies this
      ensures var r := ReadLine(o, init, old(keys));
              if ok then r == Line(line, carry, keys) else r == Cut(line)
      ensures ok ==> |keys| < |old(keys)|
    {
      hide WrapOverflow;
      var buf := init;
      while true
        invariant ReadLine(o, buf, keys) == ReadLine(o, init, old(keys))
        invariant |keys| <= |old(keys)|
        decreases |keys|
      {
        if keys == [] {
          return false, buf, "";
        }
        var key := keys[0];
        keys := keys[1..];
        match key
        case Enter =>
          return true, buf, "";
        case Backspace =>
          if |buf| > 0 {
            buf := buf[..|buf| - 1];
          }
        case KillLine =>
          buf := "";
        case Rune(c) =>
          if c < ' ' {
          } else if |buf| < o.max {
            buf := buf + [c];
          } else if o.wrap {
            line, carry := BreakLine(buf, c);
            return true, line, carry;
          }
      }
    }

    /** The editor's loop, without its slash commands. */
    method EditLines(max: int) returns (t: Typed)
      modifies this
      ensures t == TypeAll(max, "", old(keys))
    {
      var lines, carry: string := [], "";
      while true
        invariant TypeAll(max, "", old(keys)) == Typed(lines + TypeAll(max, carry, keys).lines, TypeAll(max, carry, keys).buf)
        decreases |keys|
      {
        ghost var before, left, last := lines, keys, carry;
        var ok, line, next := EditLine(LineOpts(max, true), carry);
        if !ok {
          assert lines + [] == lines;
          return Typed(lines, line);
        }
        lines, carry := lines + [line], next;
        Assoc(before, [line], TypeAll(max, carry, keys).lines);
      }
    }
  }

  // ---- nothing typed is lost ---------------------------------------------------------------

  predicate AllSpaces(s: string) { forall k :: 0 <= k < |s| ==> s[k] == ' ' }

  /** A wrapped line and its carry are the buffer and the key that overflowed it, in
      order, with only spaces between them gone, and some are unless the word fills
      the line. */
  lemma WrapKeeps(buf: string, r: char) returns (gap: string)
    ensures var b := WrapOverflow(buf, r);
            && buf + [r] == b.line + gap + b.carry && AllSpaces(gap)
            && (gap == "" <==> ' ' !in buf + [r])
            && ' ' !in b.carry
  {
    var b := WrapOverflow(buf, r);
    var k := AfterSpace(buf, |buf|);
    if r == ' ' {
      gap := " ";
      assert ' ' in buf + [r];
    } else if k == 0 {
      gap := "";
      assert forall i :: 0 <= i < |buf| ==> buf[i] != ' ';
    } else {
      gap := buf[|b.line|..k];
      assert buf == b.line + gap + buf[k..];
      assert buf[k - 1] == ' ' && buf[k - 1] == (buf + [r])[k - 1];
      Assoc(b.line + gap, buf[k..], [r]);
    }
  }

  /** The printable characters among the keys. */
  function CharsOf(keys: seq<Key>): string {
    if keys == [] then ""
    else (if keys[0].Rune? && keys[0].c >= ' ' then [keys[0].c] else "") + CharsOf(keys[1..])
  }

  /** Nothing is taken back. */
  predicate OnlyTyping(keys: seq<Key>) { forall k :: k in keys ==> k.Rune? || k.Enter? }

  lemma KeysNext(keys: seq<Key>)
    requires keys != [] && OnlyTyping(keys)
    ensures OnlyTyping(keys[1..]) && (keys[0].Rune? || keys[0].Enter?)
    ensures CharsOf(keys) == if keys[0].Rune? && keys[0].c >= ' ' then [keys[0].c] + CharsOf(keys[1..]) else CharsOf(keys[1..])
  {
    assert forall k :: k in keys[1..] ==> k in keys;
    assert keys[0] in keys;
    assert "" + CharsOf(keys[1..]) == CharsOf(keys[1..]);
  }

  lemma NothingTyped(buf: string)
    ensures AllSpaces("") && CharsOf([]) == "" && buf + "" == buf
  {
  }

  lemma LineDone(buf: string, text: string)
    ensures buf + text == buf + "" + "" + text
  {
    assert buf + "" == buf;
  }

  lemma {:induction false} LineKeeps(max: int, buf: string, keys: seq<Key>) returns (gap: string)
    requires OnlyTyping(keys)
    ensures var r := ReadLine(LineOpts(max, true), buf, keys);
            && AllSpaces(gap)
            && (r.Cut? ==> r.buf == buf + CharsOf(keys))
            && (r.Line? ==> buf + CharsOf(keys) == r.line + gap + r.carry + CharsOf(r.rest) && OnlyTyping(r.rest))
    decreases |keys|
  {
    hide WrapOverflow, OnlyTyping, AllSpaces, CharsOf;
    gap := "";
    NothingTyped(buf);
    if keys == [] {
    } else {
      KeysNext(keys);
      var rest := keys[1..];
      if keys[0].Enter? {
        LineDone(buf, CharsOf(rest));
      } else {
        var c := keys[0].c;
        if c < ' ' {
          gap := LineKeeps(max, buf, rest);
        } else {
          Assoc(buf, [c], CharsOf(rest));
          if |buf| < max {
            gap := LineKeeps(max, buf + [c], rest);
          } else {
            gap := WrapKeeps(buf, c);
          }
        }
      }
    }
  }

  /** Each line followed by what its break swallowed. */
  function Woven(lines: seq<string>, gaps: seq<string>): string
    requires |lines| == |gaps|
  {
    if lines == [] then "" else lines[0] + gaps[0] + Woven(lines[1..], gaps[1..])
  }

  /** Typing printable keys and Enters into wrapped lines loses nothing: the lines and
      what is left in the buffer are all the characters typed, in order, and between
      two lines nothing but spaces is gone. */
  lemma {:induction false} NothingTypedIsLost(max: int, carry: string, keys: seq<Key>) returns (gaps: seq<string>)
    requires OnlyTyping(keys)
    ensures var t := TypeAll(max, carry, keys);
            && |gaps| == |t.lines| && (forall k :: 0 <= k < |gaps| ==> AllSpaces(gaps[k]))
            && Woven(t.lines, gaps) + t.buf == carry + CharsOf(keys)
    decreases |keys|
  {
    hide ReadLine, AllSpaces, OnlyTyping;
    var gap := LineKeeps(max, carry, keys);
    var r := ReadLine(LineOpts(max, true), carry, keys);
    if r.Cut? {
      gaps := [];
      assert "" + r.buf == r.buf;
    } else {
      var more := NothingTypedIsLost(max, r.carry, r.rest);
      gaps := [gap] + more;
      var t := TypeAll(max, r.carry, r.rest);
      assert ([r.line] + t.lines)[1..] == t.lines && gaps[1..] == more;
      Assoc(r.line + gap, Woven(t.lines, more), t.buf);
      Assoc(r.line + gap, r.carry, CharsOf(r.rest));
    }
  }

  lemma {:induction false} LineFits(max: nat, buf: string, keys: seq<Key>)
    requires max >= 1 && |buf| <= max
    ensures var r := ReadLine(LineOpts(max, true), buf, keys);
            if r.Line? then |r.line| <= max && |r.carry| <= max else |r.buf| <= max
    decreases |keys|
  {
    if keys != [] {
      var rest := keys[1..];
      match keys[0]
      case Enter =>
      case Backspace => LineFits(max, if buf == "" then buf else buf[..|buf| - 1], rest);
      case KillLine => LineFits(max, "", rest);
      case Rune(c) =>
        if c < ' ' {
          LineFits(max, buf, rest);
        } else if |buf| < max {
          LineFits(max, buf + [c], rest);
        }
    }
  }

  /** Whatever keys are pressed, no line is over its limit, and what is carried over
      always fits on the next line. */
  lemma {:induction false} LinesFit(max: nat, carry: string, keys: seq<Key>)
    requires max >= 1 && |carry| <= max
    ensures var t := TypeAll(max, carry, keys);
            |t.buf| <= max && forall k :: 0 <= k < |t.lines| ==> |t.lines[k]| <= max
    decreases |keys|
  {
    hide ReadLine;
    LineFits(max, carry, keys);
    var r := ReadLine(LineOpts(max, true), carry, keys);
    if r.Line? {
      LinesFit(max, r.carry, r.rest);
    }
  }

  /** Without wrapping the limit holds as well: keys past it are refused. */
  lemma {:induction false} PromptFits(max: nat, buf: string, keys: seq<Key>)
    requires |buf| <= max
    ensures var r := ReadLine(LineOpts(max, false), buf, keys);
            if r.Line? then |r.line| <= max && r.carry == "" else |r.buf| <= max
    decreases |keys|
  {
    if keys != [] {
      var rest := keys[1..];
      match keys[0]
      case Enter =>
      case Backspace => PromptFits(max, if buf == "" then buf else buf[..|buf| - 1], rest);
      case KillLine => PromptFits(max, "", rest);
      case Rune(c) => PromptFits(max, if c >= ' ' && |buf| < max then buf + [c] else buf, rest);
    }
  }
}
