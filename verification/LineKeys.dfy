/**
 What the keys that take something back do to a line: readLine of
 internal/bbs/session.go over whole streams, with Backspace and Ctrl-U in them.
 */
module LineKeys {
  import opened Text
  import opened LineEditor

  // ---- one key -----------------------------------------------------------------------

  lemma Ahead(k: Key, l: Key, keys: seq<Key>)
    ensures ([k, l] + keys)[0] == k && ([k, l] + keys)[1..] == [l] + keys && ([l] + keys)[1..] == keys
  {
  }

  /** A printable key that fits and a Backspace after it change nothing. */
  lemma TakenBack(o: LineOpts, buf: string, c: char, keys: seq<Key>)
    requires c >= ' ' && |buf| < o.max
    ensures ReadLine(o, buf, [Rune(c), Backspace] + keys) == ReadLine(o, buf, keys)
  {
    Ahead(Rune(c), Backspace, keys);
    assert (buf + [c])[..|buf|] == buf;
  }

  lemma NothingToTakeBack(o: LineOpts, keys: seq<Key>)
    ensures ReadLine(o, "", [Backspace] + keys) == ReadLine(o, "", keys)
  {
    assert ([Backspace] + keys)[1..] == keys;
  }

  /** After Ctrl-U the line is that of the keys after it. */
  lemma KillStartsOver(o: LineOpts, buf: string, keys: seq<Key>)
    ensures ReadLine(o, buf, [KillLine] + keys) == ReadLine(o, "", keys)
  {
    assert ([KillLine] + keys)[1..] == keys;
  }

  /** A control key changes nothing. */
  lemma ControlIgnored(o: LineOpts, buf: string, c: char, keys: seq<Key>)
    requires c < ' '
    ensures ReadLine(o, buf, [Rune(c)] + keys) == ReadLine(o, buf, keys)
  {
    assert ([Rune(c)] + keys)[1..] == keys;
  }

  // ---- whole streams -------------------------------------------------------------------

  predicate IsPrintable(k: Key) { k.Rune? && k.c >= ' ' }

  /** How long the line is after a key, from its length alone. */
  function Grown(max: int, n: nat, k: Key): (m: nat) {
    if k.KillLine? then 0
    else if k.Backspace? then (if n == 0 then 0 else n - 1)
    else if IsPrintable(k) && n < max then n + 1
    else n
  }

  /** The keys that are not refused: control keys go, and printable ones at a full line. */
  function Accepted(max: int, n: nat, keys: seq<Key>): seq<Key>
    decreases |keys|
  {
    if keys == [] then []
    else
      var rest := Accepted(max, Grown(max, n, keys[0]), keys[1..]);
      if keys[0].Rune? && (keys[0].c < ' ' || n >= max) then rest else [keys[0]] + rest
  }

  /** No Enter is among the keys, and with wrapping no printable key finds a full line. */
  predicate StaysOnLine(o: LineOpts, n: nat, keys: seq<Key>)
    decreases |keys|
  {
    keys == []
    || (!keys[0].Enter? && (o.wrap && IsPrintable(keys[0]) ==> n < o.max)
        && StaysOnLine(o, Grown(o.max, n, keys[0]), keys[1..]))
  }

  /** What is left of the keys when, read from the last one back, each Backspace strikes
      out the nearest character before it that is not struck out yet, and Ctrl-U all
      before it; owed counts the characters still to be struck out. */
  function Unstruck(keys: seq<Key>, owed: nat): string {
    if keys == [] then ""
    else
      var before := keys[..|keys| - 1];
      match keys[|keys| - 1]
      case Enter => Unstruck(before, owed)
      case Backspace => Unstruck(before, owed + 1)
      case KillLine => ""
      case Rune(c) => if owed > 0 then Unstruck(before, owed - 1) else Unstruck(before, 0) + [c]
  }

  function Typing(s: string): (keys: seq<Key>)
    ensures |keys| == |s| && forall i :: 0 <= i < |s| ==> keys[i] == Rune(s[i])
  {
    seq(|s|, i requires 0 <= i < |s| => Rune(s[i]))
  }

  lemma {:induction false} TypingLeft(s: string, owed: nat)
    ensures Unstruck(Typing(s), owed) == if owed >= |s| then "" else s[..|s| - owed]
    decreases |s|
  {
    if s != "" {
      var before := s[..|s| - 1];
      assert Typing(s)[..|s| - 1] == Typing(before);
      TypingLeft(before, if owed > 0 then owed - 1 else 0);
      assert before + [s[|s| - 1]] == s;
    }
  }

  ghost predicate SameLeft(a: seq<Key>, b: seq<Key>) { forall owed: nat :: Unstruck(a, owed) == Unstruck(b, owed) }

  lemma {:induction false} SameThen(a: seq<Key>, b: seq<Key>, keys: seq<Key>, owed: nat)
    requires SameLeft(a, b)
    ensures Unstruck(a + keys, owed) == Unstruck(b + keys, owed)
    decreases |keys|
  {
    if keys == [] {
      assert a + keys == a && b + keys == b;
    } else {
      var before, k := keys[..|keys| - 1], keys[|keys| - 1];
      LastOf(a, keys);
      LastOf(b, keys);
      SameThen(a, b, before, if k.Backspace? then owed + 1 else if k.Rune? && owed > 0 then owed - 1 else owed);
    }
  }

  lemma LastOf(a: seq<Key>, keys: seq<Key>)
    requires keys != []
    ensures var all := a + keys;
            all[|all| - 1] == keys[|keys| - 1] && all[..|all| - 1] == a + keys[..|keys| - 1]
  {
  }

  lemma {:induction false} SameKeyThen(buf: string, k: Key, left: string, keys: seq<Key>, owed: nat)
    requires !k.Enter? && left == if k.KillLine? then "" else if k.Rune? then buf + [k.c] else if buf == "" then "" else buf[..|buf| - 1]
    ensures Unstruck(Typing(buf) + ([k] + keys), owed) == Unstruck(Typing(left) + keys, owed)
  {
    hide Unstruck, Typing;
    forall n: nat ensures Unstruck(Typing(buf) + [k], n) == Unstruck(Typing(left), n) {
      OneStruck(buf, k, left, n);
    }
    SameThen(Typing(buf) + [k], Typing(left), keys, owed);
    Assoc(Typing(buf), [k], keys);
  }

  lemma OneStruck(buf: string, k: Key, left: string, n: nat)
    requires !k.Enter? && left == if k.KillLine? then "" else if k.Rune? then buf + [k.c] else if buf == "" then "" else buf[..|buf| - 1]
    ensures Unstruck(Typing(buf) + [k], n) == Unstruck(Typing(left), n)
  {
    var all := Typing(buf) + [k];
    assert all[..|buf|] == Typing(buf);
    TypingLeft(left, n);
    if k.Rune? {
      assert all == Typing(left);
    } else if k.Backspace? {
      TypingLeft(buf, n + 1);
    }
  }

  /** The line so far is the first buffer and the keys that were not refused, with what
      Backspace and Ctrl-U strike out gone; the keys after go on from there. */
  lemma {:induction false} LineIsUnstruck(o: LineOpts, buf: string, pre: seq<Key>, keys: seq<Key>)
    requires StaysOnLine(o, |buf|, pre)
    ensures ReadLine(o, buf, pre + keys) == ReadLine(o, Unstruck(Typing(buf) + Accepted(o.max, |buf|, pre), 0), keys)
    decreases |pre|
  {
    hide Unstruck, Typing, WrapOverflow;
    if pre == [] {
      assert pre + keys == keys && Typing(buf) + [] == Typing(buf);
      TypingLeft(buf, 0);
      assert buf[..|buf|] == buf;
    } else {
      var k, rest := pre[0], pre[1..];
      assert (pre + keys)[1..] == rest + keys && (pre + keys)[0] == k;
      var left := if k.KillLine? then "" else if k.Rune? then buf + [k.c] else if buf == "" then "" else buf[..|buf| - 1];
      if k.Rune? && (k.c < ' ' || |buf| >= o.max) {
        LineIsUnstruck(o, buf, rest, keys);
      } else {
        LineIsUnstruck(o, left, rest, keys);
        SameKeyThen(buf, k, left, Accepted(o.max, |left|, rest), 0);
      }
    }
  }

  /** A line ended by Enter, and one the caller hung up on. */
  lemma LineEnded(o: LineOpts, pre: seq<Key>, rest: seq<Key>)
    requires StaysOnLine(o, 0, pre)
    ensures var line := Unstruck(Accepted(o.max, 0, pre), 0);
            ReadLine(o, "", pre + [Enter] + rest) == Line(line, "", rest) && ReadLine(o, "", pre) == Cut(line)
  {
    hide Unstruck, StaysOnLine, Accepted;
    assert Typing("") + Accepted(o.max, 0, pre) == Accepted(o.max, 0, pre);
    LineIsUnstruck(o, "", pre, [Enter] + rest);
    LineIsUnstruck(o, "", pre, []);
    Assoc(pre, [Enter], rest);
    assert pre + [] == pre && ([Enter] + rest)[1..] == rest;
  }

  /** A line that wraps: the key that finds it full takes its word along. */
  lemma LineWraps(max: int, buf: string, pre: seq<Key>, c: char, rest: seq<Key>) returns (full: string)
    requires StaysOnLine(LineOpts(max, true), |buf|, pre) && c >= ' '
    requires !StaysOnLine(LineOpts(max, true), |buf|, pre + [Rune(c)])
    ensures full == Unstruck(Typing(buf) + Accepted(max, |buf|, pre), 0)
    ensures ReadLine(LineOpts(max, true), buf, pre + [Rune(c)] + rest)
            == Line(WrapOverflow(full, c).line, WrapOverflow(full, c).carry, rest)
  {
    hide Unstruck, StaysOnLine, Accepted, WrapOverflow;
    var o := LineOpts(max, true);
    full := Unstruck(Typing(buf) + Accepted(max, |buf|, pre), 0);
    LineIsUnstruck(o, buf, pre, [Rune(c)] + rest);
    Assoc(pre, [Rune(c)], rest);
    assert ([Rune(c)] + rest)[1..] == rest;
    FullThen(o, buf, pre, c);
  }

  lemma {:induction false} FullThen(o: LineOpts, buf: string, pre: seq<Key>, c: char)
    requires o.wrap && StaysOnLine(o, |buf|, pre) && !StaysOnLine(o, |buf|, pre + [Rune(c)])
    ensures |Unstruck(Typing(buf) + Accepted(o.max, |buf|, pre), 0)| >= o.max
    decreases |pre|
  {
    hide Unstruck, Typing;
    if pre == [] {
      assert pre + [Rune(c)] == [Rune(c)] && Typing(buf) + [] == Typing(buf);
      assert StaysOnLine(o, Grown(o.max, |buf|, Rune(c)), [Rune(c)][1..]);
      TypingLeft(buf, 0);
    } else {
      var k, rest := pre[0], pre[1..];
      assert (pre + [Rune(c)])[1..] == rest + [Rune(c)] && (pre + [Rune(c)])[0] == k;
      var left := if k.KillLine? then "" else if k.Rune? then buf + [k.c] else if buf == "" then "" else buf[..|buf| - 1];
      if k.Rune? && (k.c < ' ' || |buf| >= o.max) {
        FullThen(o, buf, rest, c);
      } else {
        FullThen(o, left, rest, c);
        SameKeyThen(buf, k, left, Accepted(o.max, |left|, rest), 0);
      }
    }
  }

  /** Where a word is carried over, the line ends in a word or is empty, the carry is what
      was typed after the last space, and a key typed at a space carries nothing. */
  lemma WrapCarriesAWord(buf: string, c: char, k: nat)
    requires k < |buf| && buf[k] == ' ' && forall i :: k < i < |buf| ==> buf[i] != ' '
    ensures var b := WrapOverflow(buf, c);
            if c == ' ' then b.line == buf && b.carry == ""
            else b.carry == buf[k + 1..] + [c] && b.line <= buf[..k] && (b.line == "" || b.line[|b.line| - 1] != ' ')
  {
    hide TrimSpaces, AfterSpace;
    LastSpace(buf, |buf|, k);
    NoSpaceEnds(buf[..k]);
  }

  lemma {:induction false} LastSpace(s: string, n: nat, k: nat)
    requires k < n <= |s| && s[k] == ' ' && forall i :: k < i < n ==> s[i] != ' '
    ensures AfterSpace(s, n) == k + 1
  {
    if n > k + 1 {
      LastSpace(s, n - 1, k);
    }
  }

  lemma {:induction false} NoSpaceEnds(s: string)
    ensures var r := TrimSpaces(s); r == "" || r[|r| - 1] != ' '
  {
    if s != "" && s[|s| - 1] == ' ' {
      NoSpaceEnds(s[..|s| - 1]);
    }
  }
}
