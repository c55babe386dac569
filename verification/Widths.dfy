/**
 Cutting and padding pipe-coded text to a width: VisibleLen, TruncateVisible and
 Escape of internal/term/render.go, fit and boxRow of internal/bbs/ui.go.
 */
module Widths {
  import opened Text
  import opened Pipes

  function Visible(s: string): string { RenderFrom(NoColor, DEFAULT_PEN, s) }

  function VisibleLen(s: string): nat { |Visible(s)| }

  /** Each pipe twice. */
  function Escape(s: string): string {
    if s == "" then "" else (if s[0] == '|' then "||" else [s[0]]) + Escape(s[1..])
  }

  /** TruncateVisible with n columns left; a negative n is never used up. */
  function Truncate(s: string, n: int): string
    decreases |s|
  {
    if s == "" then ""
    else match HeadOf(s)
      case Coded(code) => "|" + code + Truncate(Rest(s), n)
      case Doubled => if n == 0 then "" else "||" + Truncate(Rest(s), n - 1)
      case Plain(c) => if n == 0 then "" else [c] + Truncate(Rest(s), n - 1)
  }

  lemma TruncateAt(s: string, i: nat, left: int)
    requires i < |s|
    ensures Truncate(s[i..], left)
            == if s[i] == '|' && i + 1 < |s| && s[i + 1] == '|' then
                 if left == 0 then "" else "||" + Truncate(s[i + 2..], left - 1)
               else if s[i] == '|' && i + 2 < |s| && IsCode(s[i + 1..i + 3]) then s[i..i + 3] + Truncate(s[i + 3..], left)
               else if left == 0 then "" else [s[i]] + Truncate(s[i + 1..], left - 1)
  {
    hide IsCode, HeadOf, Rest;
    HeadAt(s, i);
  }

  lemma NothingCut(n: int)
    ensures Truncate("", n) == ""
  {
  }

  method TruncateVisible(s: string, n: int) returns (out: string)
    ensures out == Truncate(s, n)
  {
    hide IsCode, HeadOf, Rest, Truncate;
    out := "";
    var visible, i := 0, 0;
    assert s[0..] == s;
    while i < |s|
      invariant i <= |s|
      invariant out + Truncate(s[i..], n - visible) == Truncate(s, n)
      decreases |s| - i
    {
      ghost var before, left := out, n - visible;
      TruncateAt(s, i, left);
      if s[i] == '|' && i + 1 < |s| && s[i + 1] == '|' {
        if visible == n {
          assert out + "" == out;
          return;
        }
        out := out + "||";
        visible := visible + 1;
        i := i + 2;
        Assoc(before, "||", Truncate(s[i..], left - 1));
      } else if s[i] == '|' && i + 2 < |s| && IsCode(s[i + 1..i + 3]) {
        out := out + s[i..i + 3];
        Assoc(before, s[i..i + 3], Truncate(s[i + 3..], left));
        i := i + 3;
      } else {
        if visible == n {
          assert out + "" == out;
          return;
        }
        Assoc(before, [s[i]], Truncate(s[i + 1..], left - 1));
        out := out + [s[i]];
        visible := visible + 1;
        i := i + 1;
      }
    }
    assert s[i..] == "" && out + "" == out;
    NothingCut(n - visible);
  }

  // ---- what is drawn -----------------------------------------------------------------

  /** The characters that take a column. */
  function Chars(s: string): string
    decreases |s|
  {
    if s == "" then ""
    else match HeadOf(s)
      case Plain(c) => [c] + Chars(Rest(s))
      case Doubled => "|" + Chars(Rest(s))
      case Coded(_) => Chars(Rest(s))
  }

  /** How many |CL there are. */
  function Clears(s: string): nat
    decreases |s|
  {
    if s == "" then 0 else (if HeadOf(s) == Coded("CL") then 1 else 0) + Clears(Rest(s))
  }

  /** VisibleLen counts |CL as a column. */
  lemma {:induction false} VisibleIs(p: Pen, s: string)
    ensures |RenderFrom(NoColor, p, s)| == |Chars(s)| + Clears(s)
    ensures Clears(s) == 0 ==> RenderFrom(NoColor, p, s) == Chars(s)
    decreases |s|
  {
    hide IsCode, PenOf;
    if s != "" {
      match HeadOf(s)
      case Coded(code) => VisibleIs(PenOf(p, code), Rest(s));
      case _ => VisibleIs(p, Rest(s));
    }
  }

  /** Cutting a text after its first head does not change that head. */
  lemma HeadStays(s: string, u: string)
    requires s != "" && u <= s && |u| >= Size(HeadOf(s))
    ensures HeadOf(u) == HeadOf(s) && Rest(u) == u[Size(HeadOf(s))..]
  {
    hide IsCode;
    assert |u| > 2 ==> u[1..3] == s[1..3];
  }

  lemma StartsAlike(a: string, b: string, c: string)
    requires b <= c
    ensures a + b <= a + c
  {
  }

  lemma TruncateOnce(s: string, n: int)
    requires s != ""
    ensures Truncate(s, n) == if n == 0 && !HeadOf(s).Coded? then ""
                              else s[..Size(HeadOf(s))] + Truncate(Rest(s), if HeadOf(s).Coded? then n else n - 1)
  {
    hide IsCode, Rest;
    match HeadOf(s)
    case Coded(code) => assert s[..3] == "|" + code;
    case Doubled => assert s[..2] == "||";
    case Plain(c) => assert s[..1] == [c];
  }

  lemma {:induction false} TruncateIsPrefix(s: string, n: int)
    ensures Truncate(s, n) <= s
    decreases |s|
  {
    hide IsCode, Truncate, HeadOf, Rest;
    if s == "" {
      NothingCut(n);
    } else {
      var m := if HeadOf(s).Coded? then n else n - 1;
      TruncateOnce(s, n);
      TruncateIsPrefix(Rest(s), m);
      StartsAlike(s[..Size(HeadOf(s))], Truncate(Rest(s), m), Rest(s));
    }
  }

  /** The cut text begins with the same head, or is empty. */
  lemma TruncateHead(s: string, n: int)
    requires s != ""
    ensures var t, coded := Truncate(s, n), HeadOf(s).Coded?;
            if n == 0 && !coded then t == ""
            else t != "" && HeadOf(t) == HeadOf(s) && Rest(t) == Truncate(Rest(s), if coded then n else n - 1)
  {
    hide IsCode;
    TruncateIsPrefix(s, n);
    if n != 0 || HeadOf(s).Coded? {
      HeadStays(s, Truncate(s, n));
    }
  }

  function AtMost(n: nat, k: nat): nat { if n < k then n else k }

  /** How many |CL come before column n + 1. */
  function ClearsWithin(s: string, n: int): nat
    decreases |s|
  {
    if s == "" then 0
    else match HeadOf(s)
      case Coded(code) => (if code == "CL" then 1 else 0) + ClearsWithin(Rest(s), n)
      case _ => if n == 0 then 0 else ClearsWithin(Rest(s), n - 1)
  }

  /** Nothing of the text belongs to its first n columns. */
  predicate EndsBefore(s: string, n: int) { s == "" || (n == 0 && !HeadOf(s).Coded?) }

  /** The last thing that belongs to the first n columns is a pipe that is no code's. */
  predicate StrayWithin(s: string, n: int)
    decreases |s|
  {
    !EndsBefore(s, n)
    && var m := if HeadOf(s).Coded? then n else n - 1;
       if EndsBefore(Rest(s), m) then HeadOf(s) == Plain('|') else StrayWithin(Rest(s), m)
  }

  lemma {:induction false} ClearsOfCut(s: string, n: int)
    ensures Clears(Truncate(s, n)) == ClearsWithin(s, n)
    decreases |s|
  {
    hide IsCode, Truncate, HeadOf;
    if s == "" {
      NothingCut(n);
    } else {
      TruncateHead(s, n);
      if HeadOf(s).Coded? {
        ClearsOfCut(Rest(s), n);
      } else if n != 0 {
        ClearsOfCut(Rest(s), n - 1);
      }
    }
  }

  lemma CutIsEmpty(s: string, n: int)
    ensures Truncate(s, n) == "" <==> EndsBefore(s, n)
  {
    hide IsCode, HeadOf;
  }

  lemma {:induction false} StrayOfCut(s: string, n: int)
    ensures EndsStray(Truncate(s, n)) <==> StrayWithin(s, n)
    decreases |s|
  {
    hide IsCode, Truncate, HeadOf;
    CutIsEmpty(s, n);
    if !EndsBefore(s, n) {
      TruncateHead(s, n);
      var m := if HeadOf(s).Coded? then n else n - 1;
      CutIsEmpty(Rest(s), m);
      StrayOfCut(Rest(s), m);
    }
  }

  /** A text cut to n columns keeps its first n visible characters. */
  lemma {:induction false} TruncateKeeps(s: string, n: nat)
    ensures Chars(Truncate(s, n)) == Chars(s)[..AtMost(n, |Chars(s)|)]
    decreases |s|
  {
    hide IsCode, Truncate;
    if s == "" {
      assert Truncate(s, n) == "" by { NothingCut(n); }
    } else {
      TruncateHead(s, n);
      if HeadOf(s).Coded? {
        TruncateKeeps(Rest(s), n);
      } else if n > 0 {
        TruncateKeeps(Rest(s), n - 1);
        var h := if HeadOf(s).Plain? then [s[0]] else "|";
        assert Chars(s) == h + Chars(Rest(s));
        assert Chars(s)[..AtMost(n, |Chars(s)|)] == h + Chars(Rest(s))[..AtMost(n - 1, |Chars(Rest(s))|)];
      }
    }
  }

  lemma {:induction false} ClearsKept(s: string, n: nat)
    ensures Clears(Truncate(s, n)) <= Clears(s)
    decreases |s|
  {
    hide IsCode, Truncate;
    if s == "" {
      NothingCut(n);
    } else {
      TruncateHead(s, n);
      if HeadOf(s).Coded? {
        ClearsKept(Rest(s), n);
      } else if n > 0 {
        ClearsKept(Rest(s), n - 1);
      }
    }
  }

  lemma {:induction false} ShortIsKept(s: string, n: nat)
    requires |Chars(s)| <= n
    ensures Truncate(s, n) == s
    decreases |s|
  {
    hide IsCode, Truncate, HeadOf, Rest;
    if s == "" {
      NothingCut(n);
    } else {
      TruncateOnce(s, n);
      ShortIsKept(Rest(s), if HeadOf(s).Coded? then n else n - 1);
    }
  }

  lemma CutFacts(s: string, n: nat)
    ensures Chars(Truncate(s, n)) == Chars(s)[..AtMost(n, |Chars(s)|)]
    ensures Clears(Truncate(s, n)) <= Clears(s)
    ensures |Chars(s)| <= n ==> Truncate(s, n) == s
  {
    hide Truncate, Chars, Clears;
    TruncateKeeps(s, n);
    ClearsKept(s, n);
    if |Chars(s)| <= n {
      ShortIsKept(s, n);
    }
  }

  /** The columns of a cut text: exact unless the text is too long and has a |CL before
      the column it is cut at. */
  lemma TruncateExact(s: string, n: nat)
    ensures VisibleLen(Truncate(s, n)) == AtMost(n, VisibleLen(s))
            <==> VisibleLen(s) <= n || ClearsWithin(s, n) == 0
  {
    hide Truncate, Chars, Clears, RenderFrom, ClearsWithin;
    ClearsOfCut(s, n);
    CutFacts(s, n);
    VisibleIs(DEFAULT_PEN, s);
    VisibleIs(DEFAULT_PEN, Truncate(s, n));
  }

  /** The plain reading: with no |CL the cut text shows the first n columns. */
  lemma TruncateShows(s: string, n: nat)
    requires Clears(s) == 0
    ensures Visible(Truncate(s, n)) == Visible(s)[..AtMost(n, VisibleLen(s))]
  {
    hide Truncate, Chars, Clears, RenderFrom;
    CutFacts(s, n);
    VisibleIs(DEFAULT_PEN, s);
    VisibleIs(DEFAULT_PEN, Truncate(s, n));
  }

  // ---- escaping --------------------------------------------------------------------------

  /** Escaped text comes out of any renderer as it went in, and leaves its colours. */
  lemma {:induction false} EscapeIsUndone(mode: Mode, p: Pen, s: string)
    ensures RenderFrom(mode, p, Escape(s)) == s && PenAfter(p, Escape(s)) == p
  {
    hide IsCode, CodeText, PenOf;
    if s != "" {
      EscapeIsUndone(mode, p, s[1..]);
      var first := if s[0] == '|' then "||" else [s[0]];
      assert Escape(s)[|first|..] == Escape(s[1..]);
      assert s == [s[0]] + s[1..];
    }
  }

  // ---- texts put together ------------------------------------------------------------------

  /** The last thing in the text is a pipe that belongs to no code. */
  predicate EndsStray(s: string)
    decreases |s|
  {
    s != "" && if Rest(s) == "" then HeadOf(s) == Plain('|') else EndsStray(Rest(s))
  }

  /** What follows cannot be taken into the last head. */
  predicate Joins(a: string, b: string) { b == "" || b[0] == ' ' || (b[0] == '|' && !EndsStray(a)) }

  lemma NoSuchCode(x: char, c: char)
    requires c == ' ' || c == '|'
    ensures !IsCode([x, c]) && !IsCode([c, x])
  {
    assert [x, c][1] == c && [c, x][0] == c;
  }

  lemma SameHead(a: string, b: string)
    requires a != "" && Joins(a, b)
    ensures HeadOf(a + b) == HeadOf(a)
  {
    hide IsCode;
    var s := a + b;
    if b == "" {
      assert s == a;
    } else if a[0] == '|' {
      if |a| > 2 {
        assert s[1..3] == a[1..3];
      } else if |a| == 2 {
        NoSuchCode(a[1], b[0]);
        assert s[1] == a[1] && (|s| > 2 ==> s[1..3] == [a[1], b[0]]);
      } else {
        assert EndsStray(a) by { LonePipeStray(a); }
        assert b[0] == ' ' && s[1] == ' ';
        if |s| > 2 {
          NoSuchCode(b[1], ' ');
          assert s[1..3] == [' ', b[1]];
        }
      }
    }
  }

  lemma LonePipeStray(a: string)
    requires a == "|"
    ensures EndsStray(a)
  {
  }

  lemma HeadJoined(a: string, b: string)
    requires a != "" && Joins(a, b)
    ensures HeadOf(a + b) == HeadOf(a) && Rest(a + b) == Rest(a) + b
    ensures Joins(Rest(a), b)
  {
    hide IsCode, HeadOf;
    SameHead(a, b);
    var k := Size(HeadOf(a));
    assert (a + b)[k..] == a[k..] + b;
  }

  lemma {:induction false} CharsJoined(a: string, b: string)
    requires Joins(a, b)
    ensures Chars(a + b) == Chars(a) + Chars(b) && Clears(a + b) == Clears(a) + Clears(b)
    decreases |a|
  {
    hide IsCode, Joins;
    if a == "" {
      assert a + b == b;
    } else {
      HeadJoined(a, b);
      CharsJoined(Rest(a), b);
      match HeadOf(a)
      case Plain(c) => Assoc([c], Chars(Rest(a)), Chars(b));
      case Doubled => Assoc("|", Chars(Rest(a)), Chars(b));
      case Coded(_) =>
    }
  }

  function Spaces(n: int): (s: string)
    ensures |s| == if n > 0 then n else 0
    ensures forall k :: 0 <= k < |s| ==> s[k] == ' '
    decreases if n > 0 then n else 0
  {
    if n <= 0 then "" else " " + Spaces(n - 1)
  }

  lemma {:induction false} PlainChars(s: string)
    requires '|' !in s
    ensures Chars(s) == s && Clears(s) == 0 && !EndsStray(s)
    decreases |s|
  {
    hide IsCode;
    if s != "" {
      PlainChars(s[1..]);
    }
  }

  // ---- fit ------------------------------------------------------------------------------------

  function Fit(text: string, width: int): string {
    var t := Truncate(text, width);
    t + Spaces(width - VisibleLen(t))
  }

  lemma FitDraws(text: string, width: nat)
    ensures var t := Truncate(text, width);
            && Chars(Fit(text, width)) == Chars(t) + Spaces(width - VisibleLen(t))
            && Clears(Fit(text, width)) == Clears(t)
  {
    hide Truncate, Chars, Clears, VisibleLen, IsCode;
    var t := Truncate(text, width);
    var pad := Spaces(width - VisibleLen(t));
    PlainChars(pad);
    CharsJoined(t, pad);
  }

  /** fit is never narrower than asked, and exactly as wide unless the text is too long
      and has a |CL before the column it is cut at. */
  lemma FitExact(text: string, width: nat)
    ensures VisibleLen(Fit(text, width)) >= width
    ensures VisibleLen(Fit(text, width)) == width <==> VisibleLen(text) <= width || ClearsWithin(text, width) == 0
  {
    hide Truncate, Chars, Clears, RenderFrom, Fit, ClearsWithin;
    ClearsOfCut(text, width);
    var t := Truncate(text, width);
    CutFacts(text, width);
    FitDraws(text, width);
    VisibleIs(DEFAULT_PEN, text);
    VisibleIs(DEFAULT_PEN, t);
    VisibleIs(DEFAULT_PEN, Fit(text, width));
  }

  // ---- box rows ---------------------------------------------------------------------------------

  const BORDER := "|08"
  const LABEL := "|07"
  const SEPARATOR := [0 as char] + "sep"
  const PANEL_PAD := 4
  const BAR := '\U{2502}'
  const LEFT_TEE := '\U{251C}'
  const RIGHT_TEE := '\U{2524}'
  const DASH := '\U{2500}'

  function Dashes(n: nat): (s: string)
    ensures |s| == n && forall k :: 0 <= k < n ==> s[k] == DASH
  {
    if n == 0 then "" else [DASH] + Dashes(n - 1)
  }

  /** A negative dash count stops the program. */
  function BoxRow(line: string, width: int): string
    requires width >= 2
  {
    if line == SEPARATOR then BORDER + [LEFT_TEE] + Dashes(width - 2) + [RIGHT_TEE]
    else BORDER + [BAR] + " " + LABEL + Fit(line, width - PANEL_PAD) + "|16" + BORDER + " " + [BAR]
  }

  /** A code is no column. */
  lemma CodeThen(code: string, rest: string)
    requires |code| == 3 && code[0] == '|' && IsCode(code[1..]) && code[1..] != "CL"
    ensures Chars(code + rest) == Chars(rest) && Clears(code + rest) == Clears(rest)
  {
    var s := code + rest;
    assert s[1..3] == code[1..];
    assert HeadOf(s) == Coded(code[1..]);
    assert Rest(s) == rest;
  }

  lemma PanelCodes()
    ensures IsCode(BORDER[1..]) && IsCode(LABEL[1..]) && IsCode("|16"[1..])
  {
    assert BORDER[1..] == "08" && LABEL[1..] == "07" && "|16"[1..] == "16";
  }

  lemma CharThen(c: char, rest: string)
    requires c != '|'
    ensures Chars([c] + rest) == [c] + Chars(rest) && Clears([c] + rest) == Clears(rest)
  {
    assert Rest([c] + rest) == rest;
  }

  lemma RightEdge()
    ensures var end := "|16" + BORDER + " " + [BAR]; Chars(end) == [' ', BAR] && Clears(end) == 0
    ensures Chars("|" + "|16" + BORDER + " " + [BAR]) == ['|', '1', '6', ' ', BAR]
    ensures Clears("|" + "|16" + BORDER + " " + [BAR]) == 0
  {
    hide Chars, Clears, IsCode;
    PanelCodes();
    var tail := " " + [BAR];
    PlainChars(tail);
    CodeThen(BORDER, tail);
    CodeThen("|16", BORDER + tail);
    assert "|16" + BORDER + " " + [BAR] == "|16" + (BORDER + tail);
    var broken := "|" + "|16" + BORDER + " " + [BAR];
    assert broken == "||" + ("16" + (BORDER + tail));
    CharThen('6', BORDER + tail);
    CharThen('1', ['6'] + (BORDER + tail));
    assert "16" + (BORDER + tail) == ['1'] + (['6'] + (BORDER + tail));
    DoubledThen("16" + (BORDER + tail));
  }

  lemma DoubledThen(rest: string)
    ensures Chars("||" + rest) == "|" + Chars(rest) && Clears("||" + rest) == Clears(rest)
  {
    assert Rest("||" + rest) == rest;
  }

  /** A stray pipe at the end taken off: what is left ends in no other. */
  lemma {:induction false} StrayLast(s: string)
    requires EndsStray(s)
    ensures s != "" && s[|s| - 1] == '|' && !EndsStray(s[..|s| - 1])
    decreases |s|
  {
    hide IsCode, HeadOf;
    var u := s[..|s| - 1];
    if Rest(s) == "" {
      assert u == "";
    } else {
      StrayLast(Rest(s));
      StrayNext(s, u);
    }
  }

  lemma StrayNext(s: string, u: string)
    requires s != "" && u == s[..|s| - 1] && |u| >= Size(HeadOf(s)) && s[|s| - 1] == '|'
    requires !EndsStray(Rest(s)[..|Rest(s)| - 1])
    ensures !EndsStray(u)
  {
    hide IsCode;
    HeadStays(s, u);
    assert Rest(u) == Rest(s)[..|Rest(s)| - 1];
    if Rest(u) == "" && HeadOf(s).Plain? {
      assert |s| == 2 && s[1] == '|';
    }
  }

  /** The two characters of the code after a stray pipe are drawn. */
  lemma RightOf(f: string)
    ensures var end := "|16" + BORDER + " " + [BAR];
            && |Chars(f + end)| == |Chars(f)| + 2 + (if EndsStray(f) then 2 else 0)
            && Clears(f + end) == Clears(f)
  {
    hide Chars, Clears, IsCode, EndsStray, HeadOf;
    var end := "|16" + BORDER + " " + [BAR];
    RightEdge();
    if EndsStray(f) {
      StrayLast(f);
      var u := f[..|f| - 1];
      assert f == u + "|";
      assert f + end == u + ("|" + "|16" + BORDER + " " + [BAR]);
      CharsJoined(u, "|" + "|16" + BORDER + " " + [BAR]);
      CharsJoined(u, "|");
      LonePipe();
    } else {
      CharsJoined(f, end);
    }
  }

  lemma LonePipe()
    ensures Chars("|") == "|" && Clears("|") == 0
  {
  }

  /** The columns of any panel row: those of the fitted text and four more, and two
      more again when the text ends in a stray pipe, which swallows the next code's. */
  lemma BoxRowDraws(line: string, width: int)
    requires width >= 2 && line != SEPARATOR
    ensures VisibleLen(BoxRow(line, width))
            == VisibleLen(Fit(line, width - PANEL_PAD)) + 4 + (if EndsStray(Fit(line, width - PANEL_PAD)) then 2 else 0)
  {
    hide Chars, Clears, IsCode, EndsStray, Fit, RenderFrom, HeadOf;
    var f := Fit(line, width - PANEL_PAD);
    var end := "|16" + BORDER + " " + [BAR];
    var row := BoxRow(line, width);
    Grouped(BORDER, [BAR], " ", LABEL, f, "|16", BORDER, " ", [BAR]);
    RightOf(f);
    LeftOf(f + end);
    VisibleIs(DEFAULT_PEN, row);
    VisibleIs(DEFAULT_PEN, f);
  }

  lemma Grouped(a: string, b: string, c: string, d: string, f: string, g: string, h: string, i: string, j: string)
    ensures a + b + c + d + f + g + h + i + j == a + (b + (c + (d + (f + (g + h + i + j)))))
  {
    var end := g + h + i + j;
    Assoc(a + b + c + d + f, g + h + i, j);
    Assoc(a + b + c + d + f, g + h, i);
    Assoc(a + b + c + d + f, g, h);
    assert a + b + c + d + f + g + h + i + j == a + b + c + d + f + end;
    Assoc(a + b + c + d, f, end);
    Assoc(a + b + c, d, f + end);
    Assoc(a + b, c, d + (f + end));
    Assoc(a, b, c + (d + (f + end)));
  }

  lemma LeftOf(rest: string)
    ensures var row := BORDER + ([BAR] + ([' '] + (LABEL + rest)));
            |Chars(row)| == 2 + |Chars(rest)| && Clears(row) == Clears(rest)
  {
    hide Chars, Clears, IsCode;
    PanelCodes();
    CodeThen(LABEL, rest);
    CharThen(' ', LABEL + rest);
    CharThen(BAR, [' '] + (LABEL + rest));
    CodeThen(BORDER, [BAR] + ([' '] + (LABEL + rest)));
  }

  lemma {:induction false} PaddedEnd(t: string, n: nat)
    requires n > 0
    ensures !EndsStray(t + Spaces(n))
    decreases |t|
  {
    hide IsCode;
    if t == "" {
      PlainChars(Spaces(n));
      assert t + Spaces(n) == Spaces(n);
    } else {
      HeadJoined(t, Spaces(n));
      PaddedEnd(Rest(t), n);
    }
  }

  /** The fitted text ends in a stray pipe exactly when the text fills the width and
      its last column, or what comes with it, is one. */
  lemma FitEndsStray(text: string, width: nat)
    ensures EndsStray(Fit(text, width)) <==> VisibleLen(text) >= width && StrayWithin(text, width)
  {
    hide IsCode, Truncate, Chars, Clears, RenderFrom, EndsStray, StrayWithin;
    var t := Truncate(text, width);
    CutFacts(text, width);
    VisibleIs(DEFAULT_PEN, text);
    VisibleIs(DEFAULT_PEN, t);
    StrayOfCut(text, width);
    if width > VisibleLen(t) {
      PaddedEnd(t, width - VisibleLen(t));
    } else {
      assert t + "" == t;
    }
  }

  /** A panel row is exactly as wide as the panel if and only if the text is not too
      long or has no |CL before the column it is cut at, and it does not fill its
      columns with a stray pipe last. */
  lemma BoxRowExact(line: string, width: int)
    requires width >= PANEL_PAD && line != SEPARATOR
    ensures var n := width - PANEL_PAD;
            VisibleLen(BoxRow(line, width)) == width
            <==> (VisibleLen(line) <= n || ClearsWithin(line, n) == 0) && !(VisibleLen(line) >= n && StrayWithin(line, n))
  {
    hide Chars, Clears, IsCode, EndsStray, Fit, VisibleLen, BoxRow, Truncate, StrayWithin, ClearsWithin;
    BoxRowDraws(line, width);
    FitExact(line, width - PANEL_PAD);
    FitEndsStray(line, width - PANEL_PAD);
  }

  lemma SeparatorExact(width: int)
    requires width >= 2
    ensures VisibleLen(BoxRow(SEPARATOR, width)) == width
  {
    hide Chars, Clears, IsCode, RenderFrom;
    var rest := [LEFT_TEE] + Dashes(width - 2) + [RIGHT_TEE];
    assert BoxRow(SEPARATOR, width) == BORDER + rest;
    PanelCodes();
    PlainChars(rest);
    CodeThen(BORDER, rest);
    VisibleIs(DEFAULT_PEN, BORDER + rest);
  }

  // ---- lines without stray pipes ------------------------------------------------------------------

  /** Every pipe belongs to a code or is doubled. */
  predicate NoStray(s: string)
    decreases |s|
  {
    s == "" || (HeadOf(s) != Plain('|') && NoStray(Rest(s)))
  }

  lemma {:induction false} NoStrayWithin(s: string, n: int)
    requires NoStray(s)
    ensures !StrayWithin(s, n)
    decreases |s|
  {
    hide IsCode, HeadOf;
    if !EndsBefore(s, n) {
      NoStrayWithin(Rest(s), if HeadOf(s).Coded? then n else n - 1);
    }
  }

  /** Lines whose pipes are all codes or doubled and that clear nothing: the fitted
      text is exactly the width asked and the panel row exactly that of the panel. */
  lemma PanelRowsLineUp(line: string, width: nat)
    requires NoStray(line) && Clears(line) == 0
    ensures VisibleLen(Fit(line, width)) == width
    ensures line != SEPARATOR ==> VisibleLen(BoxRow(line, width + PANEL_PAD)) == width + PANEL_PAD
  {
    hide IsCode, NoStray, VisibleLen, BoxRow, Truncate, Chars, Clears, StrayWithin;
    FitExact(line, width);
    ClearsOfCut(line, width);
    ClearsKept(line, width);
    NoStrayWithin(line, width);
    if line != SEPARATOR {
      BoxRowExact(line, width + PANEL_PAD);
    }
  }

  /** A cut text that is too wide: a |CL at the start takes a column and uses none up. */
  lemma ClearWidens()
    ensures VisibleLen("|CLab") == 3 && VisibleLen(Truncate("|CLab", 2)) == 3
  {
    hide RenderFrom, IsCode, HeadOf;
    var s := "|CLab";
    CodeIs("CL", "ab");
    assert s == "|" + "CL" + "ab";
    PlainChars("ab");
    CutFacts("ab", 2);
    assert Truncate(s, 2) == "|" + "CL" + Truncate("ab", 2);
    VisibleIs(DEFAULT_PEN, s);
  }

  lemma CodeIs(code: string, rest: string)
    requires code == "CL"
    ensures var s := "|" + code + rest; HeadOf(s) == Coded(code) && Rest(s) == rest
  {
    var s := "|" + code + rest;
    assert s[1..3] == code;
  }

  /** A row that does not line up: a text that ends in a stray pipe at full width. */
  lemma StrayPipeWidens()
    ensures VisibleLen(BoxRow("|", 5)) == 7
  {
    hide RenderFrom, BoxRow, Chars, Clears;
    assert HeadOf("|") == Plain('|') && Rest("|") == "";
    assert Truncate("|", 1) == "|" + Truncate("", 0) == "|";
    LonePipe();
    VisibleIs(DEFAULT_PEN, "|");
    assert Fit("|", 1) == "|";
    assert EndsStray("|");
    BoxRowDraws("|", 5);
  }
}
