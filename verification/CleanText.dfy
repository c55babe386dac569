/**
 What cleaning leaves of a field or a body (Clean of internal/term/text.go, cleanBody of
 internal/store/messages.go), and what shortening to a number of bytes leaves
 (truncateUTF8 of internal/store/echo.go).
 */
module CleanText {
  import opened Text
  import opened Charsets
  import opened Letters
  import FtnStore

  /** A character a reader sees: no control character, no bidi control, not U+FFFD. */
  predicate Shown(c: char) {
    var n := c as int;
    (0x20 <= n < 0x7F || 0xA0 <= n < 0x61C || 0x61D <= n < 0x200E || 0x2010 <= n < 0x202A || 0x202F <= n < 0x2066
     || 0x206A <= n < 0xFFFD || n >= 0xFFFE)
  }

  ghost predicate AllShown(s: string) { forall i :: 0 <= i < |s| ==> Shown(s[i]) }

  ghost predicate OnlySpace(s: string) { forall i :: 0 <= i < |s| ==> IsSpaceRune(s[i]) }

  lemma ShownIs(c: char)
    ensures Shown(c) <==> !IsStripped(c)
  {
  }

  /** Stripping keeps what is shown, character by character and in order. */
  lemma {:induction false} StripJoins(a: string, b: string)
    ensures StripControl(a + b) == StripControl(a) + StripControl(b)
    ensures AllShown(StripControl(a))
    ensures AllShown(a) ==> StripControl(a) == a
    decreases |a|
  {
    hide IsStripped, Shown;
    if a == "" {
      assert a + b == b;
    } else {
      assert (a + b)[1..] == a[1..] + b;
      ShownIs(a[0]);
      StripJoins(a[1..], b);
      Assoc(if IsStripped(a[0]) then "" else [a[0]], StripControl(a[1..]), StripControl(b));
      assert a == [a[0]] + a[1..];
    }
  }

  lemma StripOne(c: char)
    ensures StripControl([c]) == if Shown(c) then [c] else ""
  {
    ShownIs(c);
    assert [c][1..] == "";
  }

  /** Trimming takes white space off both ends and nothing else. */
  lemma {:induction false} TrimTakes(s: string) returns (before: string, after: string)
    ensures s == before + TrimText(s) + after && OnlySpace(before) && OnlySpace(after) && Trimmed(TrimText(s))
    decreases |s|
  {
    hide IsSpaceRune;
    before, after := "", "";
    if s != "" && IsSpaceRune(s[0]) {
      before, after := TrimTakes(s[1..]);
      Assoc([s[0]], before, TrimText(s));
      Assoc([s[0]], before + TrimText(s), after);
      before := [s[0]] + before;
    } else if s != "" && IsSpaceRune(s[|s| - 1]) {
      before, after := TrimTakes(s[..|s| - 1]);
      Assoc(before + TrimText(s), after, [s[|s| - 1]]);
      after := after + [s[|s| - 1]];
    }
  }

  /** A cleaned field is what is shown of the field, without the white space around it,
      as far as the limit goes. */
  lemma CleanedIs(s: string, max: nat) returns (before: string, kept: string, after: string)
    ensures StripControl(s) == before + kept + after && OnlySpace(before) && OnlySpace(after) && Trimmed(kept)
    ensures Clean(s, max) <= kept && (|kept| <= max ==> Clean(s, max) == kept) && (|kept| > max ==> |Clean(s, max)| == max)
    ensures AllShown(Clean(s, max))
  {
    hide StripControl, TrimText, Trimmed, Shown, OnlySpace;
    kept := TrimText(StripControl(s));
    before, after := TrimTakes(StripControl(s));
    StripJoins(s, "");
    forall i | 0 <= i < |Clean(s, max)| ensures Shown(Clean(s, max)[i]) {
      assert StripControl(s)[|before| + i] == kept[i];
    }
  }

  /** A field of proper length with nothing to hide stays as it is. */
  predicate Plain(s: string, max: nat) {
    |s| <= max && (forall i :: 0 <= i < |s| ==> Shown(s[i])) && (s == "" || (!IsSpaceRune(s[0]) && !IsSpaceRune(s[|s| - 1])))
  }

  lemma PlainStays(s: string, max: nat)
    requires Plain(s, max)
    ensures Clean(s, max) == s
  {
    hide Shown, IsSpaceRune, StripControl;
    StripJoins(s, "");
  }

  // ---- a body ------------------------------------------------------------------------

  /** A line with nothing to hide that does not end in a space. */
  ghost predicate PlainLine(s: string) { AllShown(s) && (s == "" || s[|s| - 1] != ' ') }

  lemma {:induction false} LinesStay(lines: seq<string>)
    requires forall i :: 0 <= i < |lines| ==> PlainLine(lines[i])
    ensures CleanLines(lines) == lines
  {
    hide StripControl, Shown;
    if lines != [] {
      StripJoins(lines[0], "");
      LinesStay(lines[1..]);
      assert lines == [lines[0]] + lines[1..];
    }
  }

  lemma {:induction false} NoCrStays(s: string)
    requires '\r' !in s
    ensures JoinCrLf(s) == s
    decreases |s|
  {
    if s != "" {
      NoCrStays(s[1..]);
      assert s == [s[0]] + s[1..];
    }
  }

  function JoinedCrLf(lines: seq<string>): string {
    if lines == [] then "" else if |lines| == 1 then lines[0] else lines[0] + "\r\n" + JoinedCrLf(lines[1..])
  }

  lemma {:induction false} CrLfAfter(a: string, b: string)
    requires '\r' !in a
    ensures JoinCrLf(a + "\r\n" + b) == a + "\n" + JoinCrLf(b)
    decreases |a|
  {
    var s := a + "\r\n" + b;
    if a == "" {
      assert s == "\r\n" + b && s[2..] == b;
    } else {
      assert s[1..] == a[1..] + "\r\n" + b;
      CrLfAfter(a[1..], b);
      assert a == [a[0]] + a[1..];
    }
  }

  lemma {:induction false} CrLfIsLf(lines: seq<string>)
    requires NoneHas(lines, '\r')
    ensures JoinCrLf(JoinedCrLf(lines)) == Join(lines, '\n')
    ensures JoinCrLf(Join(lines, '\n')) == Join(lines, '\n')
    ensures '\r' !in Join(lines, '\n')
  {
    hide JoinCrLf;
    if lines == [] {
      NoCrStays("");
    } else if |lines| == 1 {
      NoCrStays(lines[0]);
    } else {
      CrLfIsLf(lines[1..]);
      CrLfAfter(lines[0], JoinedCrLf(lines[1..]));
      NoCrStays(Join(lines, '\n'));
    }
  }

  lemma LineHasNoBreak(s: string)
    requires PlainLine(s)
    ensures '\r' !in s && '\n' !in s
  {
  }

  lemma {:induction false} JoinEnds(lines: seq<string>)
    requires lines != [] && lines[0] != "" && lines[|lines| - 1] != ""
    ensures var s := Join(lines, '\n');
            s != "" && s[0] == lines[0][0] && s[|s| - 1] == lines[|lines| - 1][|lines[|lines| - 1]| - 1]
  {
    JoinStarts(lines);
    JoinStops(lines);
  }

  lemma JoinStarts(lines: seq<string>)
    requires lines != [] && lines[0] != ""
    ensures Join(lines, '\n') != "" && Join(lines, '\n')[0] == lines[0][0]
  {
  }

  lemma {:induction false} JoinStops(lines: seq<string>)
    requires lines != [] && lines[|lines| - 1] != ""
    ensures var s, last := Join(lines, '\n'), lines[|lines| - 1];
            s != "" && s[|s| - 1] == last[|last| - 1]
  {
    if |lines| > 1 {
      JoinStops(lines[1..]);
    }
  }

  /** A body of plain lines is kept line for line, whether CR LF or LF ends them. */
  lemma BodyStays(lines: seq<string>)
    requires lines != [] && lines[0] != "" && lines[|lines| - 1] != ""
    requires forall i :: 0 <= i < |lines| ==> PlainLine(lines[i])
    ensures CleanBody(Join(lines, '\n')) == Join(lines, '\n')
    ensures CleanBody(JoinedCrLf(lines)) == Join(lines, '\n')
  {
    hide JoinCrLf, Join, Split, CleanLines, PlainLine;
    forall i | 0 <= i < |lines| ensures '\r' !in lines[i] && '\n' !in lines[i] {
      LineHasNoBreak(lines[i]);
    }
    CrLfIsLf(lines);
    SplitOfJoin(lines, '\n');
    LinesStay(lines);
    JoinEnds(lines);
    LineHasNoBreak(lines[0]);
    LineHasNoBreak(lines[|lines| - 1]);
  }

  ghost predicate ShownOrBreak(s: string) { forall i :: 0 <= i < |s| ==> Shown(s[i]) || s[i] == '\n' }

  lemma {:induction false} EndTrimmed(s: string, c: char)
    ensures var r := TrimEndChar(s, c);
            r <= s && (r == "" || r[|r| - 1] != c) && forall k :: |r| <= k < |s| ==> s[k] == c
  {
    if s != "" && s[|s| - 1] == c {
      EndTrimmed(s[..|s| - 1], c);
    }
  }

  lemma {:induction false} BothTrimmed(s: string, c: char)
    ensures var r := TrimChar(s, c);
            (r == "" || (r[0] != c && r[|r| - 1] != c)) && forall x :: x in r ==> x in s
  {
    if s != "" && s[0] == c {
      BothTrimmed(s[1..], c);
    } else {
      EndTrimmed(s, c);
    }
  }

  lemma {:induction false} LinesShown(lines: seq<string>)
    ensures ShownOrBreak(Join(CleanLines(lines), '\n'))
    ensures |CleanLines(lines)| == |lines|
    ensures forall i :: 0 <= i < |lines| ==> PlainLine(CleanLines(lines)[i])
  {
    hide StripControl, Shown;
    if lines != [] {
      StripJoins(lines[0], "");
      EndTrimmed(StripControl(lines[0]), ' ');
      LinesShown(lines[1..]);
      var all := CleanLines(lines);
      assert all[1..] == CleanLines(lines[1..]);
    }
  }

  /** Whatever the body, what is left is shown, and no blank line is left at
      either end. */
  lemma BodyShown(body: string)
    ensures var r := CleanBody(body);
            ShownOrBreak(r) && (r == "" || (r[0] != '\n' && r[|r| - 1] != '\n'))
  {
    hide Shown, JoinCrLf, Split, CleanLines, Join, TrimChar;
    var lines := CleanLines(Split(JoinCrLf(body), '\n'));
    LinesShown(Split(JoinCrLf(body), '\n'));
    BothTrimmed(Join(lines, '\n'), '\n');
    var s := Join(lines, '\n');
    forall i | 0 <= i < |CleanBody(body)| ensures Shown(CleanBody(body)[i]) || CleanBody(body)[i] == '\n' {
      assert CleanBody(body)[i] in s;
    }
  }

  // ---- a text cut to a number of bytes -------------------------------------------------

  ghost function Bytes8(s: string): nat { |Encode(s, UTF8)| }

  /** r is the longest start of s that takes at most n bytes in UTF-8. */
  ghost predicate LongestStart(r: string, s: string, n: nat) {
    r <= s && Bytes8(r) <= n && forall k :: |r| < k <= |s| ==> Bytes8(s[..k]) > n
  }

  lemma {:induction false} FitBytesLongest(s: string, n: nat)
    ensures LongestStart(FtnStore.FitBytes(s, n), s, n)
    decreases |s|
  {
    hide Utf8;
    if s != "" {
      forall k | 0 < k <= |s| ensures Bytes8(s[..k]) == |Utf8(s[0])| + Bytes8(s[1..][..k - 1]) {
        assert s[..k][1..] == s[1..][..k - 1];
      }
      if |Utf8(s[0])| <= n {
        var m, rest := n - |Utf8(s[0])|, FtnStore.FitBytes(s[1..], n - |Utf8(s[0])|);
        FitBytesLongest(s[1..], m);
        var r := FtnStore.FitBytes(s, n);
        assert r == [s[0]] + rest && r[1..] == rest;
        forall k | |r| < k <= |s| ensures Bytes8(s[..k]) > n {
          assert Bytes8(s[1..][..k - 1]) > m;
        }
      }
    }
  }

  lemma WholeTextFits(s: string, n: nat)
    requires Bytes8(s) <= n
    ensures FtnStore.FitBytes(s, n) == s
  {
    FitBytesLongest(s, n);
    assert s[..|s|] == s;
  }

  lemma {:induction false} AsciiFits(s: string, n: nat)
    requires |s| <= n && forall i :: 0 <= i < |s| ==> s[i] as int < 0x80
    ensures FtnStore.FitBytes(s, n) == s
  {
    EncodeAscii(s, UTF8);
    WholeTextFits(s, n);
  }
}
