/**
 The parts of Go's strings, bytes and strconv packages the FidoNet code leans
 on. Raw bytes and decoded text are both `string`: a byte is a character below
 256, and text is a sequence of code points.
 */
module Text {

  type Bytes = string

  ghost predicate IsBytes(s: string) {
    forall i :: 0 <= i < |s| ==> s[i] as int < 256
  }

  const ESC := 27 as char

  // ---- numbers ------------------------------------------------------------

  const MAX_INT: int := 0x7FFF_FFFF_FFFF_FFFF

  predicate IsDigit(c: char) { '0' <= c <= '9' }

  predicate AllDigits(s: string) { forall i :: 0 <= i < |s| ==> IsDigit(s[i]) }

  function DigitChar(d: nat): (c: char)
    requires d < 10
    ensures IsDigit(c)
  {
    (48 + d) as char
  }

  /** Printed characters that separate nothing: no space, no control, ASCII. */
  predicate Graphic(s: string) { forall i :: 0 <= i < |s| ==> '!' <= s[i] <= '~' }

  function Decimal(n: nat): (s: string)
    ensures |s| >= 1 && AllDigits(s)
  {
    if n < 10 then [DigitChar(n)] else Decimal(n / 10) + [DigitChar(n % 10)]
  }

  function Value(s: string): nat
    requires AllDigits(s)
  {
    if s == "" then 0 else 10 * Value(s[..|s| - 1]) + (s[|s| - 1] as int - 48)
  }

  function Itoa(n: int): string {
    if n < 0 then "-" + Decimal(-n) else Decimal(n)
  }

  /** strconv.Atoi: a failed parse still carries Go's value, 0 for a syntax
      error and the nearest limit for a number out of range. */
  datatype Parsed = Parsed(value: int, ok: bool)

  function Atoi(s: string): Parsed {
    var signed := s != "" && (s[0] == '-' || s[0] == '+');
    var digits := if signed then s[1..] else s;
    if digits == "" || !AllDigits(digits) then Parsed(0, false)
    else
      var v: int := Value(digits);
      if signed && s[0] == '-' then
        if v > MAX_INT + 1 then Parsed(-MAX_INT - 1, false) else Parsed(-v, true)
      else
        if v > MAX_INT then Parsed(MAX_INT, false) else Parsed(v, true)
  }

  lemma {:induction false} ValueOfDecimal(n: nat)
    ensures Value(Decimal(n)) == n
  {
    if n >= 10 {
      ValueOfDecimal(n / 10);
      var s := Decimal(n);
      assert s[..|s| - 1] == Decimal(n / 10);
    } else {
      assert Decimal(n)[..0] == "";
    }
  }

  lemma AtoiOfItoa(n: int)
    requires -MAX_INT <= n <= MAX_INT
    ensures Atoi(Itoa(n)) == Parsed(n, true)
  {
    if n < 0 {
      ValueOfDecimal(-n);
      assert Itoa(n)[1..] == Decimal(-n);
    } else {
      ValueOfDecimal(n);
      assert IsDigit(Itoa(n)[0]);
    }
  }

  /** Decimal(n) has at most k digits when n is below 10 to the k. */
  lemma {:induction false} DecimalLength(n: nat, k: nat)
    requires 1 <= k && n < Pow10(k)
    ensures |Decimal(n)| <= k
  {
    if n >= 10 {
      DecimalLength(n / 10, k - 1);
    }
  }

  function Pow10(k: nat): nat { if k == 0 then 1 else 10 * Pow10(k - 1) }

  lemma WordLength(n: nat)
    requires n < 0x1_0000
    ensures |Decimal(n)| <= 5
  {
    assert Pow10(2) == 100;
    assert Pow10(4) == 10_000;
    DecimalLength(n, 5);
  }

  lemma IntLength(n: nat)
    requires n <= MAX_INT
    ensures |Decimal(n)| <= 19
  {
    assert Pow10(2) == 100;
    assert Pow10(4) == 10_000;
    assert Pow10(6) == 1_000_000;
    assert Pow10(8) == 100_000_000;
    assert Pow10(10) == 10_000_000_000;
    assert Pow10(12) == 1_000_000_000_000;
    assert Pow10(14) == 100_000_000_000_000;
    assert Pow10(16) == 10_000_000_000_000_000;
    assert Pow10(18) == 1_000_000_000_000_000_000;
    DecimalLength(n, 19);
  }

  lemma Assoc<T>(a: seq<T>, b: seq<T>, c: seq<T>)
    ensures a + (b + c) == (a + b) + c
  {
  }

  /** A relation between every two elements, in order, holds with one more in front. */
  lemma Prepended<T>(t: T, rest: seq<T>, rel: (T, T) -> bool)
    requires forall i, j :: 0 <= i < j < |rest| ==> rel(rest[i], rest[j])
    requires forall x :: x in rest ==> rel(t, x)
    ensures forall i, j :: 0 <= i < j < |[t] + rest| ==> rel(([t] + rest)[i], ([t] + rest)[j])
  {
    var s := [t] + rest;
    forall i, j | 0 <= i < j < |s| ensures rel(s[i], s[j]) {
      assert s[j] in rest;
      assert i > 0 ==> s[i] == rest[i - 1] && s[j] == rest[j - 1];
    }
  }

  /** CR LF as LF. */
  function JoinCrLf(s: string): string {
    if s == "" then ""
    else if |s| >= 2 && s[0] == '\r' && s[1] == '\n' then "\n" + JoinCrLf(s[2..])
    else [s[0]] + JoinCrLf(s[1..])
  }

  // ---- splitting and joining ----------------------------------------------

  function Split(s: string, sep: char): (lines: seq<string>)
    ensures |lines| >= 1
  {
    if s == "" then [""]
    else
      var rest := Split(s[1..], sep);
      if s[0] == sep then [""] + rest else [[s[0]] + rest[0]] + rest[1..]
  }

  function Join(lines: seq<string>, sep: char): string {
    if lines == [] then ""
    else if |lines| == 1 then lines[0]
    else lines[0] + [sep] + Join(lines[1..], sep)
  }

  /** Every line followed by its terminator. */
  function Terminated(lines: seq<string>, end: char): string {
    if lines == [] then "" else lines[0] + [end] + Terminated(lines[1..], end)
  }

  ghost predicate NoneHas(lines: seq<string>, c: char) {
    forall i :: 0 <= i < |lines| ==> c !in lines[i]
  }

  lemma {:induction false} SplitNone(s: string, sep: char)
    requires sep !in s
    ensures Split(s, sep) == [s]
  {
    if s != "" {
      SplitNone(s[1..], sep);
      assert [s[0]] + s[1..] == s;
    }
  }

  lemma {:induction false} SplitFirst(a: string, sep: char, b: string)
    requires sep !in a
    ensures Split(a + [sep] + b, sep) == [a] + Split(b, sep)
  {
    var s := a + [sep] + b;
    if a == "" {
      assert s[1..] == b;
    } else {
      assert s[1..] == a[1..] + [sep] + b;
      SplitFirst(a[1..], sep, b);
      assert [a[0]] + a[1..] == a;
    }
  }

  lemma {:induction false} SplitTerminated(lines: seq<string>, end: char, rest: string)
    requires NoneHas(lines, end)
    ensures Split(Terminated(lines, end) + rest, end) == lines + Split(rest, end)
  {
    if lines == [] {
      assert Terminated(lines, end) + rest == rest;
    } else {
      var tail := Terminated(lines[1..], end);
      Assoc(lines[0] + [end], tail, rest);
      SplitFirst(lines[0], end, tail + rest);
      SplitTerminated(lines[1..], end, rest);
      Assoc([lines[0]], lines[1..], Split(rest, end));
      assert [lines[0]] + lines[1..] == lines;
    }
  }

  lemma {:induction false} SplitPieces(s: string, sep: char)
    ensures NoneHas(Split(s, sep), sep)
    ensures Join(Split(s, sep), sep) == s
  {
    if s != "" {
      SplitPieces(s[1..], sep);
      var rest := Split(s[1..], sep);
      var all := Split(s, sep);
      if s[0] == sep {
        assert all[1..] == rest;
      } else {
        assert all[1..] == rest[1..];
      }
      assert s == [s[0]] + s[1..];
    }
  }

  lemma {:induction false} SplitOfJoin(lines: seq<string>, sep: char)
    requires lines != [] && NoneHas(lines, sep)
    ensures Split(Join(lines, sep), sep) == lines
  {
    if |lines| == 1 {
      SplitNone(lines[0], sep);
    } else {
      SplitOfJoin(lines[1..], sep);
      SplitFirst(lines[0], sep, Join(lines[1..], sep));
    }
  }

  lemma {:induction false} TerminatedConcat(a: seq<string>, b: seq<string>, end: char)
    ensures Terminated(a + b, end) == Terminated(a, end) + Terminated(b, end)
  {
    if a == [] {
      assert a + b == b;
    } else {
      assert (a + b)[1..] == a[1..] + b;
      TerminatedConcat(a[1..], b, end);
      Assoc(a[0] + [end], Terminated(a[1..], end), Terminated(b, end));
    }
  }

  /** A joined text plus one more separator is its lines, each terminated. */
  lemma {:induction false} JoinTerminated(lines: seq<string>, sep: char)
    requires lines != []
    ensures Join(lines, sep) + [sep] == Terminated(lines, sep)
  {
    if |lines| == 1 {
      assert Terminated(lines[1..], sep) == "";
    } else {
      JoinTerminated(lines[1..], sep);
      Assoc(lines[0] + [sep], Join(lines[1..], sep), [sep]);
    }
  }

  // ---- replacing ----------------------------------------------------------

  /** ReplaceAll(s, c, ""). */
  function Remove(s: string, c: char): (r: string)
    ensures c !in r
  {
    if s == "" then "" else (if s[0] == c then "" else [s[0]]) + Remove(s[1..], c)
  }

  /** ReplaceAll(s, from, to) for single characters. */
  function Replace(s: string, from: char, to: char): (r: string)
    ensures |r| == |s|
    ensures forall i :: 0 <= i < |s| ==> r[i] == if s[i] == from then to else s[i]
  {
    if s == "" then "" else [if s[0] == from then to else s[0]] + Replace(s[1..], from, to)
  }

  lemma {:induction false} RemoveNone(s: string, c: char)
    requires c !in s
    ensures Remove(s, c) == s
  {
    if s != "" {
      RemoveNone(s[1..], c);
    }
  }

  lemma {:induction false} RemoveConcat(a: string, b: string, c: char)
    ensures Remove(a + b, c) == Remove(a, c) + Remove(b, c)
  {
    if a == "" {
      assert a + b == b;
    } else {
      assert (a + b)[1..] == a[1..] + b;
      RemoveConcat(a[1..], b, c);
      Assoc(if a[0] == c then "" else [a[0]], Remove(a[1..], c), Remove(b, c));
    }
  }

  lemma ReplaceJoin(lines: seq<string>, from: char, to: char)
    requires NoneHas(lines, from)
    ensures Replace(Join(lines, from), from, to) == Join(lines, to)
  {
    if |lines| > 1 {
      ReplaceJoin(lines[1..], from, to);
      var j := Join(lines[1..], from);
      assert Replace(lines[0] + [from] + j, from, to) == lines[0] + [to] + Replace(j, from, to);
    } else if |lines| == 1 {
      assert Replace(lines[0], from, to) == lines[0];
    }
  }

  // ---- searching ----------------------------------------------------------

  /** strings.IndexByte, or |s| instead of -1 when c is absent. */
  function Index(s: string, c: char): (i: nat)
    ensures i <= |s|
    ensures i < |s| ==> s[i] == c
    ensures forall k :: 0 <= k < i ==> s[k] != c
  {
    IndexFrom(s, c, 0)
  }

  function IndexFrom(s: string, c: char, from: nat): (i: nat)
    requires from <= |s|
    ensures from <= i <= |s|
    ensures i < |s| ==> s[i] == c
    ensures forall k :: from <= k < i ==> s[k] != c
    decreases |s| - from
  {
    if from == |s| || s[from] == c then from else IndexFrom(s, c, from + 1)
  }

  lemma IndexAfter(a: string, c: char, b: string)
    requires c !in a
    ensures Index(a + [c] + b, c) == |a|
  {
    var s := a + [c] + b;
    assert s[|a|] == c;
    assert forall k :: 0 <= k < |a| ==> s[k] == a[k] && s[k] in a;
  }

  lemma IndexNone(s: string, c: char)
    requires c !in s
    ensures Index(s, c) == |s|
  {
  }

  /** strings.LastIndexByte: the position after the last c, or 0. */
  function AfterLast(s: string, c: char): (i: nat)
    ensures i <= |s|
    ensures i > 0 ==> s[i - 1] == c
    ensures forall k :: i <= k < |s| ==> s[k] != c
  {
    AfterLastUpTo(s, c, |s|)
  }

  function AfterLastUpTo(s: string, c: char, end: nat): (i: nat)
    requires end <= |s|
    ensures i <= end
    ensures i > 0 ==> s[i - 1] == c
    ensures forall k :: i <= k < end ==> s[k] != c
  {
    if end == 0 || s[end - 1] == c then end else AfterLastUpTo(s, c, end - 1)
  }

  predicate MatchAt(s: string, p: string, i: nat) { i + |p| <= |s| && s[i..i + |p|] == p }

  /** strings.LastIndex; None is Go's -1. */
  datatype Found = None | At(i: nat)

  function LastIndex(s: string, p: string): (r: Found)
    ensures r.At? ==> MatchAt(s, p, r.i) && forall j :: r.i < j <= |s| ==> !MatchAt(s, p, j)
    ensures r.None? ==> forall j :: 0 <= j <= |s| ==> !MatchAt(s, p, j)
  {
    LastIndexFrom(s, p, |s|)
  }

  function LastIndexFrom(s: string, p: string, k: nat): (r: Found)
    requires k <= |s|
    requires forall j :: k < j <= |s| ==> !MatchAt(s, p, j)
    ensures r.At? ==> MatchAt(s, p, r.i) && forall j :: r.i < j <= |s| ==> !MatchAt(s, p, j)
    ensures r.None? ==> forall j :: 0 <= j <= |s| ==> !MatchAt(s, p, j)
  {
    if MatchAt(s, p, k) then At(k) else if k == 0 then None else LastIndexFrom(s, p, k - 1)
  }

  // ---- white space --------------------------------------------------------

  predicate IsAsciiSpace(c: char) { c == ' ' || '\t' <= c <= '\r' }

  /** The three-byte UTF-8 forms of U+1680, U+2000-200A, U+2028, U+2029,
      U+202F, U+205F and U+3000. */
  predicate IsSpace3(a: char, b: char, c: char) {
    || (a == '\U{E1}' && b == '\U{9A}' && c == '\U{80}')
    || (a == '\U{E2}' && b == '\U{80}'
        && ('\U{80}' <= c <= '\U{8A}' || c == '\U{A8}' || c == '\U{A9}' || c == '\U{AF}'))
    || (a == '\U{E2}' && b == '\U{81}' && c == '\U{9F}')
    || (a == '\U{E3}' && b == '\U{80}' && c == '\U{80}')
  }

  predicate IsSpace2(a: char, b: char) { a == '\U{C2}' && (b == '\U{85}' || b == '\U{A0}') }

  /** How many bytes the UTF-8 white space at the start of s takes; 0 if none. */
  function SpaceLen(s: Bytes): (n: nat)
    ensures n <= |s|
  {
    if |s| >= 1 && IsAsciiSpace(s[0]) then 1
    else if |s| >= 2 && IsSpace2(s[0], s[1]) then 2
    else if |s| >= 3 && IsSpace3(s[0], s[1], s[2]) then 3
    else 0
  }

  function LastSpaceLen(s: Bytes): (n: nat)
    ensures n <= |s|
  {
    var k := |s|;
    if k >= 1 && IsAsciiSpace(s[k - 1]) then 1
    else if k >= 2 && IsSpace2(s[k - 2], s[k - 1]) then 2
    else if k >= 3 && IsSpace3(s[k - 3], s[k - 2], s[k - 1]) then 3
    else 0
  }

  function TrimLeft(s: Bytes): Bytes {
    if SpaceLen(s) > 0 then TrimLeft(s[SpaceLen(s)..]) else s
  }

  function TrimRight(s: Bytes): Bytes {
    if LastSpaceLen(s) > 0 then TrimRight(s[..|s| - LastSpaceLen(s)]) else s
  }

  /** strings.TrimSpace and bytes.TrimSpace on raw bytes. */
  function TrimSpace(s: Bytes): Bytes { TrimRight(TrimLeft(s)) }

  /** strings.Fields on raw bytes. */
  function Fields(s: Bytes): seq<Bytes> { FieldsFrom(s, "") }

  function FieldsFrom(s: Bytes, word: Bytes): seq<Bytes>
    decreases |s|
  {
    var done := if word == "" then [] else [word];
    if s == "" then done
    else if SpaceLen(s) > 0 then done + FieldsFrom(s[SpaceLen(s)..], "")
    else FieldsFrom(s[1..], word + [s[0]])
  }

  lemma GraphicIsNoSpace(s: Bytes)
    requires s != "" && '!' <= s[0] <= '~'
    ensures SpaceLen(s) == 0
  {
  }

  lemma {:induction false} FieldsWord(w: Bytes, rest: Bytes, word: Bytes)
    requires Graphic(w)
    ensures FieldsFrom(w + rest, word) == FieldsFrom(rest, word + w)
  {
    hide SpaceLen;
    if w == "" {
      assert w + rest == rest && word + w == word;
    } else {
      var s := w + rest;
      assert s[0] == w[0] && s[1..] == w[1..] + rest;
      GraphicIsNoSpace(s);
      FieldsWord(w[1..], rest, word + [w[0]]);
      assert word + [w[0]] + w[1..] == word + w;
    }
  }

  /** A line of graphic words, each after one space, splits back into them. */
  function Spaced(words: seq<string>): string {
    if words == [] then "" else " " + words[0] + Spaced(words[1..])
  }

  lemma {:induction false} FieldsSpaced(words: seq<string>)
    requires forall i :: 0 <= i < |words| ==> words[i] != "" && Graphic(words[i])
    ensures FieldsFrom(Spaced(words), "") == words
    ensures forall w | w != "" :: FieldsFrom(Spaced(words), w) == [w] + words
  {
    if words != [] {
      var rest := Spaced(words[1..]);
      var s := Spaced(words);
      assert s[1..] == words[0] + rest;
      FieldsWord(words[0], rest, "");
      assert "" + words[0] == words[0];
      FieldsSpaced(words[1..]);
      assert [words[0]] + words[1..] == words;
      assert FieldsFrom(s[1..], "") == words;
    }
  }

  lemma {:induction false} TrimGraphicEnds(s: Bytes)
    requires s != "" && Graphic([s[0]]) && Graphic([s[|s| - 1]])
    ensures TrimSpace(s) == s
  {
    assert '!' <= [s[0]][0] <= '~' && '!' <= [s[|s| - 1]][0] <= '~';
  }

  /** unicode.IsSpace on a code point. */
  predicate IsSpaceRune(c: char) {
    IsAsciiSpace(c) || c == '\U{85}' || c == '\U{A0}' || c == '\U{1680}' || '\U{2000}' <= c <= '\U{200A}'
    || c == '\U{2028}' || c == '\U{2029}' || c == '\U{202F}' || c == '\U{205F}' || c == '\U{3000}'
  }

  /** strings.TrimSpace on decoded text. */
  function TrimText(s: string): string {
    if s != "" && IsSpaceRune(s[0]) then TrimText(s[1..])
    else if s != "" && IsSpaceRune(s[|s| - 1]) then TrimText(s[..|s| - 1])
    else s
  }

  /** Text that TrimSpace leaves alone: no space at either end. */
  predicate Trimmed(s: string) {
    s == "" || (!IsSpaceRune(s[0]) && !IsSpaceRune(s[|s| - 1]))
  }

  // ---- letter case (ASCII) ------------------------------------------------

  function UpperChar(c: char): char {
    if 'a' <= c <= 'z' then (c as int - 32) as char else c
  }

  function ToUpper(s: string): (r: string)
    ensures |r| == |s| && forall i :: 0 <= i < |s| ==> r[i] == UpperChar(s[i])
  {
    seq(|s|, i requires 0 <= i < |s| => UpperChar(s[i]))
  }

  function LowerChar(c: char): char {
    if 'A' <= c <= 'Z' then (c as int + 32) as char else c
  }

  function ToLower(s: string): (r: string)
    ensures |r| == |s| && forall i :: 0 <= i < |s| ==> r[i] == LowerChar(s[i])
  {
    seq(|s|, i requires 0 <= i < |s| => LowerChar(s[i]))
  }
}
