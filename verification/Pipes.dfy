/**
 Pipe codes, internal/term/render.go: the grammar, what Render writes for a terminal,
 and Renderer as it runs.
 */
module Pipes {
  import opened Text

  // ---- the grammar --------------------------------------------------------------------

  /** isCode: |00 to |23, |CL and |RE. */
  predicate IsCode(c: string)
    requires |c| == 2
  {
    c == "CL" || c == "RE" || (IsDigit(c[0]) && IsDigit(c[1]) && TwoDigits(c) <= 23)
  }

  function TwoDigits(c: string): (n: nat)
    requires |c| == 2 && IsDigit(c[0]) && IsDigit(c[1])
    ensures n < 100
  {
    (c[0] as int - 48) * 10 + (c[1] as int - 48)
  }

  /** What a text begins with: a code, a doubled pipe, or a character as it is. */
  datatype Head = Plain(c: char) | Doubled | Coded(code: string)

  function HeadOf(s: string): (h: Head)
    requires s != ""
    ensures h.Coded? ==> |s| > 2 && s[0] == '|' && h.code == s[1..3] && |h.code| == 2 && IsCode(h.code)
    ensures h.Doubled? ==> |s| > 1 && s[0] == '|' && s[1] == '|'
    ensures h.Plain? ==> h.c == s[0]
  {
    if s[0] != '|' then Plain(s[0])
    else if |s| > 1 && s[1] == '|' then Doubled
    else if |s| > 2 && IsCode(s[1..3]) then Coded(s[1..3])
    else Plain('|')
  }

  function Size(h: Head): (n: nat)
    ensures 1 <= n <= 3
  {
    match h
    case Plain(_) => 1
    case Doubled => 2
    case Coded(_) => 3
  }

  function Rest(s: string): (r: string)
    requires s != ""
    ensures |r| < |s| && s[..Size(HeadOf(s))] + r == s
  {
    s[Size(HeadOf(s))..]
  }

  /** The head of what is left at i, by the tests the loops make. */
  lemma HeadAt(s: string, i: nat)
    requires i < |s|
    ensures var rest := s[i..];
            if s[i] == '|' && i + 1 < |s| && s[i + 1] == '|' then HeadOf(rest) == Doubled && Rest(rest) == s[i + 2..]
            else if s[i] == '|' && i + 2 < |s| && IsCode(s[i + 1..i + 3]) then
              HeadOf(rest) == Coded(s[i + 1..i + 3]) && Rest(rest) == s[i + 3..] && s[i..i + 3] == "|" + s[i + 1..i + 3]
            else HeadOf(rest) == Plain(s[i]) && Rest(rest) == s[i + 1..]
  {
    hide IsCode;
    var rest := s[i..];
    assert i + 2 < |s| ==> rest[1..3] == s[i + 1..i + 3];
  }

  // ---- rendering -------------------------------------------------------------------------

  type Colour = n: nat | n < 16

  type Ground = n: nat | n < 8

  /** The colours in force, in DOS order. */
  datatype Pen = Pen(fg: Colour, bg: Ground)

  const DEFAULT_PEN := Pen(7, 0)

  datatype Mode = NoColor | Ansi16 | Ansi256

  function DosToAnsi(d: Ground): Ground { [0, 4, 2, 6, 1, 5, 3, 7][d] }

  function Vga256(d: Colour): nat { [16, 19, 34, 37, 124, 127, 130, 248, 240, 63, 83, 87, 203, 207, 227, 231][d] }

  function SgrText(mode: Mode, p: Pen): string {
    if mode == Ansi256 then [ESC] + "[0;38;5;" + Itoa(Vga256(p.fg)) + ";48;5;" + Itoa(Vga256(p.bg)) + "m"
    else [ESC, '['] + SgrBody(p) + "m"
  }

  function SgrBody(p: Pen): string {
    "0;" + (if p.fg >= 8 then "1;" else "") + ['3', DigitChar(DosToAnsi(p.fg % 8))] + ";" + ['4', DigitChar(DosToAnsi(p.bg))]
  }

  const CLEAR_SCREEN := [ESC] + "[2J" + [ESC] + "[H"

  function PenOf(p: Pen, code: string): Pen
    requires |code| == 2 && IsCode(code)
  {
    if code == "CL" || code == "RE" then DEFAULT_PEN
    else if TwoDigits(code) <= 15 then p.(fg := TwoDigits(code))
    else p.(bg := TwoDigits(code) - 16)
  }

  /** What the terminal is sent for a code, given the colours it leaves. */
  function CodeText(mode: Mode, p: Pen, code: string): string {
    if mode == NoColor then if code == "CL" then "\n" else ""
    else SgrText(mode, p) + if code == "CL" then CLEAR_SCREEN else ""
  }

  function RenderFrom(mode: Mode, p: Pen, s: string): string
    decreases |s|
  {
    if s == "" then ""
    else match HeadOf(s)
      case Plain(c) => [c] + RenderFrom(mode, p, Rest(s))
      case Doubled => "|" + RenderFrom(mode, p, Rest(s))
      case Coded(code) => CodeText(mode, PenOf(p, code), code) + RenderFrom(mode, PenOf(p, code), Rest(s))
  }

  function PenAfter(p: Pen, s: string): Pen
    decreases |s|
  {
    if s == "" then p
    else match HeadOf(s)
      case Coded(code) => PenAfter(PenOf(p, code), Rest(s))
      case _ => PenAfter(p, Rest(s))
  }

  /** DOS counts blue as 1 and red as 4, ANSI the other way round. */
  lemma ColoursSwap(red: nat, green: nat, blue: nat)
    requires red < 2 && green < 2 && blue < 2
    ensures DosToAnsi(blue + 2 * green + 4 * red) == red + 2 * green + 4 * blue
  {
    assert [0, 4, 2, 6, 1, 5, 3, 7][blue + 2 * green + 4 * red] == red + 2 * green + 4 * blue;
  }

  /** The sixteen colours are sixteen entries of the palette of 256. */
  lemma ShadesDiffer(c: Colour, d: Colour)
    requires c != d
    ensures Vga256(c) != Vga256(d) && Vga256(c) <= 255
  {
  }

  lemma CodeAhead(code: string, rest: string)
    requires |code| == 2 && code[0] != '|'
    ensures var s := "|" + code + rest;
            if IsCode(code) then HeadOf(s) == Coded(code) && Rest(s) == rest else HeadOf(s) == Plain('|') && Rest(s) == code + rest
  {
    hide IsCode;
    var s := "|" + code + rest;
    assert s[1..3] == code && s[3..] == rest && s[1..] == code + rest && s[1] == code[0];
  }

  function TwoDigitText(n: nat): string
    requires n < 100
  {
    [DigitChar(n / 10), DigitChar(n % 10)]
  }

  /** |00 to |15 set the colour of the text and keep the ground, |16 to |23 set the ground
      and keep the colour of the text; any higher number is text. */
  lemma NumbersMean(mode: Mode, p: Pen, n: nat, rest: string)
    requires n < 100
    ensures n < 16 ==> PenAfter(p, "|" + TwoDigitText(n) + rest) == PenAfter(Pen(n, p.bg), rest)
    ensures 16 <= n < 24 ==> PenAfter(p, "|" + TwoDigitText(n) + rest) == PenAfter(Pen(p.fg, n - 16), rest)
    ensures n >= 24 ==> RenderFrom(mode, p, "|" + TwoDigitText(n) + rest) == "|" + RenderFrom(mode, p, TwoDigitText(n) + rest)
  {
    hide PenAfter, RenderFrom, HeadOf, Rest;
    var code := TwoDigitText(n);
    CodeAhead(code, rest);
    assert n / 10 * 10 + n % 10 == n && TwoDigits(code) == n;
    PenThen(p, "|" + code + rest);
    if n >= 24 {
      RenderThen(mode, p, "|" + code + rest);
    }
  }

  /** |RE and |CL both go back to grey on black; || is a pipe and sets nothing. */
  lemma NamesMean(p: Pen, rest: string)
    ensures PenAfter(p, "|" + "RE" + rest) == PenAfter(Pen(7, 0), rest)
    ensures PenAfter(p, "|" + "CL" + rest) == PenAfter(Pen(7, 0), rest)
    ensures PenAfter(p, "||" + rest) == PenAfter(p, rest)
  {
    CodeAhead("RE", rest);
    CodeAhead("CL", rest);
    assert ("||" + rest)[2..] == rest;
  }

  lemma PenThen(p: Pen, s: string)
    requires s != ""
    ensures PenAfter(p, s) == PenAfter(if HeadOf(s).Coded? then PenOf(p, HeadOf(s).code) else p, Rest(s))
  {
    hide PenOf;
  }

  lemma RenderThen(mode: Mode, p: Pen, s: string)
    requires s != "" && HeadOf(s).Plain?
    ensures RenderFrom(mode, p, s) == [HeadOf(s).c] + RenderFrom(mode, p, Rest(s))
  {
  }

  // ---- the renderer as it runs -------------------------------------------------------------

  lemma {:induction false} NoPipes(mode: Mode, p: Pen, s: string)
    requires '|' !in s
    ensures RenderFrom(mode, p, s) == s && PenAfter(p, s) == p
    decreases |s|
  {
    if s != "" {
      NoPipes(mode, p, s[1..]);
    }
  }

  class Renderer {
    const mode: Mode
    var fg: Colour
    var bg: Ground

    constructor (mode: Mode)
      ensures this.mode == mode && Value() == DEFAULT_PEN
    {
      this.mode := mode;
      fg, bg := 7, 0;
    }

    ghost function Value(): Pen
      reads this
    {
      Pen(fg, bg)
    }

    /** code: what to send for the two characters after a pipe, if they are a code. */
    method Code(c: string) returns (seqn: string, ok: bool)
      requires |c| == 2
      modifies this
      ensures ok == IsCode(c)
      ensures ok ==> Value() == PenOf(old(Value()), c) && seqn == CodeText(mode, Value(), c)
      ensures !ok ==> Value() == old(Value()) && seqn == ""
    {
      hide SgrText;
      if c == "CL" {
        fg, bg := 7, 0;
        return if mode != NoColor then SgrText(mode, Pen(fg, bg)) + CLEAR_SCREEN else "\n", true;
      }
      if c == "RE" {
        fg, bg := 7, 0;
        return if mode != NoColor then SgrText(mode, Pen(fg, bg)) else "", true;
      }
      if !IsDigit(c[0]) || !IsDigit(c[1]) {
        return "", false;
      }
      var n := (c[0] as int - 48) * 10 + (c[1] as int - 48);
      if n <= 15 {
        fg := n;
      } else if n <= 23 {
        bg := n - 16;
      } else {
        return "", false;
      }
      return if mode == NoColor then "" else SgrText(mode, Pen(fg, bg)), true;
    }

    method Render(s: string) returns (out: string)
      modifies this
      ensures out == RenderFrom(mode, old(Value()), s)
      ensures Value() == PenAfter(old(Value()), s)
    {
      hide IsCode, CodeText, PenOf, HeadOf, Rest;
      if '|' !in s {
        NoPipes(mode, Value(), s);
        return s;
      }
      out := "";
      var i := 0;
      assert s[0..] == s;
      while i < |s|
        invariant i <= |s|
        invariant out + RenderFrom(mode, Value(), s[i..]) == RenderFrom(mode, old(Value()), s)
        invariant PenAfter(Value(), s[i..]) == PenAfter(old(Value()), s)
        decreases |s| - i
      {
        ghost var p, before := Value(), out;
        HeadAt(s, i);
        if s[i] != '|' {
          Assoc(before, [s[i]], RenderFrom(mode, p, s[i + 1..]));
          out := out + [s[i]];
          i := i + 1;
        } else if i + 1 < |s| && s[i + 1] == '|' {
          out := out + "|";
          i := i + 2;
          Assoc(before, "|", RenderFrom(mode, p, s[i..]));
        } else {
          var text, ok := "", false;
          if i + 2 < |s| {
            text, ok := Code(s[i + 1..i + 3]);
          }
          if ok {
            out := out + text;
            i := i + 3;
            Assoc(before, text, RenderFrom(mode, Value(), s[i..]));
          } else {
            out := out + "|";
            i := i + 1;
            Assoc(before, "|", RenderFrom(mode, p, s[i..]));
          }
        }
      }
      assert s[i..] == "";
    }
  }
}
