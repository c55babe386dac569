/**
 The pipe-code renderer is a compiler and the ANSI interpreter runs what it writes:
 together they draw what the pipe codes say. Paint says that directly, with the
 colours in DOS order and no escape sequence.
 */
module Previews {
  import opened Text
  import S = Screens
  import opened Pipes
  import Terminals

  datatype Canvas = Canvas(rows: S.Grid, x: nat, y: nat, pen: Pen)

  const NEW_CANVAS := Canvas([], 0, 0, DEFAULT_PEN)

  /** A DOS colour on the screen: the ANSI colour, 8 higher when it is bright. */
  function Shade(d: Colour): nat { DosToAnsi(d % 8) + if d >= 8 then 8 else 0 }

  function PaintChar(v: Canvas, c: char): Canvas {
    if c == '\r' then v.(x := 0)
    else if c == '\n' then v.(x := 0, y := v.y + 1)
    else if c < ' ' then v
    else
      var (x, y) := S.Wrap(v.x, v.y);
      var cell := S.Cell(c, Shade(v.pen.fg), DosToAnsi(v.pen.bg));
      v.(rows := S.Place(v.rows, x, y, cell), x := if y < S.MAX_ROWS then x + 1 else x, y := y)
  }

  function PaintCode(v: Canvas, code: string): Canvas
    requires |code| == 2 && IsCode(code)
  {
    if code == "CL" then NEW_CANVAS
    else if code == "RE" then v.(pen := DEFAULT_PEN)
    else if TwoDigits(code) <= 15 then v.(pen := v.pen.(fg := TwoDigits(code)))
    else v.(pen := v.pen.(bg := TwoDigits(code) - 16))
  }

  function Paint(v: Canvas, s: string): Canvas
    decreases |s|
  {
    if s == "" then v
    else match HeadOf(s)
      case Plain(c) => Paint(PaintChar(v, c), Rest(s))
      case Doubled => Paint(PaintChar(v, '|'), Rest(s))
      case Coded(code) => Paint(PaintCode(v, code), Rest(s))
  }

  /** The screen shows what the canvas holds and will go on in the same colours. */
  ghost predicate Shows(s: S.Screen, v: Canvas) {
    && s.rows == v.rows && s.x == v.x && s.y == v.y
    && s.fg == DosToAnsi(v.pen.fg % 8) && s.bold == (v.pen.fg >= 8) && s.bg == DosToAnsi(v.pen.bg)
  }

  // ---- feeding sequences --------------------------------------------------------------

  lemma FeedPlain(s: S.Screen, c: char, rest: string)
    requires c != ESC
    ensures S.Feed(s, [c] + rest) == S.Feed(S.Draw(s, c), rest)
  {
    hide S.Draw, S.Csi, S.Params;
    assert ([c] + rest)[1..] == rest;
  }

  lemma FeedSequence(s: S.Screen, body: string, final: char, rest: string)
    requires S.IsFinal(final) && forall c :: c in body ==> !S.IsFinal(c)
    ensures S.Feed(s, [ESC, '['] + body + [final] + rest) == S.Feed(S.Csi(s, final, S.Params(body)), rest)
  {
    hide S.Draw, S.Csi, S.Params;
    var t := [ESC, '['] + body + [final] + rest;
    var j := S.FinalAt(t, 2);
    assert t[2 + |body|] == final;
    assert forall k :: 2 <= k < 2 + |body| ==> t[k] == body[k - 2] && t[k] in body;
    assert j == 2 + |body|;
    assert t[2..j] == body && t[j + 1..] == rest;
  }

  lemma NumberOf(t: string)
    requires 1 <= |t| <= 2 && AllDigits(t)
    ensures S.Number(t) == if |t| == 1 then t[0] as int - 48 else 10 * (t[0] as int - 48) + (t[1] as int - 48)
  {
    if |t| == 1 {
      assert Value(t[..0]) == 0;
    } else {
      var u := t[..1];
      assert u[..0] == "";
      assert Value(u) == t[0] as int - 48;
    }
  }

  lemma ColourParams(f: nat, b: nat)
    requires f < 8 && b < 8
    ensures S.Params("0;" + ['3', DigitChar(f)] + ";" + ['4', DigitChar(b)]) == [0, 30 + f, 40 + b]
    ensures S.Params("0;1;" + ['3', DigitChar(f)] + ";" + ['4', DigitChar(b)]) == [0, 1, 30 + f, 40 + b]
  {
    hide Split, S.Number;
    var x, y := ['3', DigitChar(f)], ['4', DigitChar(b)];
    NumberOf("0");
    NumberOf("1");
    NumberOf(x);
    NumberOf(y);
    SplitNone(y, ';');
    SplitFirst(x, ';', y);
    var xy := x + [';'] + y;
    SplitFirst("0", ';', xy);
    SplitFirst("1", ';', xy);
    SplitFirst("0", ';', "1" + [';'] + xy);
    assert "0;" + x + ";" + y == "0" + [';'] + xy;
    assert "0;1;" + x + ";" + y == "0" + [';'] + ("1" + [';'] + xy);
    TwoNumbers("0", x, y);
    assert ["0"] + (["1"] + [x, y]) == ["0", "1", x, y];
    assert ["0"] + [x, y] == ["0", x, y] && [x] + [y] == [x, y];
    assert S.Numbers(["0", "1", x, y]) == [0, 1, 30 + f, 40 + b];
    assert S.Numbers(["0", x, y]) == [0, 30 + f, 40 + b];
  }

  lemma TwoNumbers(a: string, b: string, c: string)
    ensures [a] + ([b] + [c]) == [a, b, c]
  {
  }

  /** Reset, bold, foreground, background. */
  lemma SgrSets(s: S.Screen, f: nat, b: nat)
    requires f < 8 && b < 8
    ensures S.SgrAll(s, [0, 30 + f, 40 + b]) == s.(fg := f, bg := b, bold := false)
    ensures S.SgrAll(s, [0, 1, 30 + f, 40 + b]) == s.(fg := f, bg := b, bold := true)
  {
    hide S.SgrAll, S.Sgr;
    var s0 := s.(fg := 7, bg := 0, bold := false);
    SgrStep(s, 0, [30 + f, 40 + b]);
    SgrStep(s, 0, [1, 30 + f, 40 + b]);
    SgrStep(s0, 1, [30 + f, 40 + b]);
    SgrPair(s0, f, b);
    SgrPair(s0.(bold := true), f, b);
    assert [0] + [1, 30 + f, 40 + b] == [0, 1, 30 + f, 40 + b];
    assert [0] + [30 + f, 40 + b] == [0, 30 + f, 40 + b];
    assert [1] + [30 + f, 40 + b] == [1, 30 + f, 40 + b];
    OneSgr(s, f, b);
    OneSgr(s0, f, b);
  }

  lemma SgrStep(s: S.Screen, p: int, ps: seq<int>)
    ensures S.SgrAll(s, [p] + ps) == S.SgrAll(S.Sgr(s, p), ps)
  {
    hide S.Sgr;
    assert ([p] + ps)[1..] == ps;
  }

  lemma OneSgr(s: S.Screen, f: nat, b: nat)
    requires f < 8 && b < 8
    ensures S.Sgr(s, 0) == s.(fg := 7, bg := 0, bold := false) && S.Sgr(s, 1) == s.(bold := true)
    ensures S.Sgr(s, 30 + f) == s.(fg := f) && S.Sgr(s, 40 + b) == s.(bg := b)
  {
  }

  lemma SgrPair(s: S.Screen, f: nat, b: nat)
    requires f < 8 && b < 8
    ensures S.SgrAll(s, [30 + f, 40 + b]) == s.(fg := f, bg := b)
  {
    hide S.SgrAll, S.Sgr;
    OneSgr(s, f, b);
    OneSgr(s.(fg := f), f, b);
    SgrStep(s, 30 + f, [40 + b]);
    SgrStep(s.(fg := f), 40 + b, []);
    assert [40 + b] + [] == [40 + b] && [30 + f] + [40 + b] == [30 + f, 40 + b];
    NoSgr(s.(fg := f, bg := b));
  }

  lemma NoSgr(s: S.Screen)
    ensures S.SgrAll(s, []) == s
  {
  }

  lemma BodyHasNoFinal(p: Pen)
    ensures forall c :: c in SgrBody(p) ==> !S.IsFinal(c)
  {
    forall c | c in SgrBody(p) ensures !S.IsFinal(c) {
      assert c == ';' || IsDigit(c);
    }
  }

  lemma FeedColours(s: S.Screen, p: Pen, rest: string)
    ensures S.Feed(s, SgrText(Ansi16, p) + rest)
            == S.Feed(s.(fg := DosToAnsi(p.fg % 8), bg := DosToAnsi(p.bg), bold := p.fg >= 8), rest)
  {
    hide S.Feed, S.Params, S.SgrAll, DosToAnsi, SgrBody;
    BodyHasNoFinal(p);
    FeedSequence(s, SgrBody(p), 'm', rest);
    BodyParams(p);
    SgrSets(s, DosToAnsi(p.fg % 8), DosToAnsi(p.bg));
  }

  lemma BodyParams(p: Pen)
    ensures S.Params(SgrBody(p)) == if p.fg >= 8 then [0, 1, 30 + DosToAnsi(p.fg % 8), 40 + DosToAnsi(p.bg)]
                                    else [0, 30 + DosToAnsi(p.fg % 8), 40 + DosToAnsi(p.bg)]
  {
    hide S.Params, DosToAnsi;
    ColourParams(DosToAnsi(p.fg % 8), DosToAnsi(p.bg));
    assert "0;" + "1;" == "0;1;" && "0;" + "" == "0;";
  }

  lemma FeedClear(s: S.Screen, rest: string)
    ensures S.Feed(s, CLEAR_SCREEN + rest) == S.Feed(s.(rows := [], x := 0, y := 0), rest)
  {
    hide S.Feed, Split, S.Number;
    assert CLEAR_SCREEN + rest == [ESC, '['] + "2" + ['J'] + ([ESC, '['] + "" + ['H'] + rest);
    FeedSequence(s, "2", 'J', [ESC, '['] + "" + ['H'] + rest);
    FeedSequence(s.(rows := [], x := 0, y := 0), "", 'H', rest);
    SplitNone("2", ';');
    SplitNone("", ';');
    NumberOf("2");
    assert S.Params("2") == [2];
    NoNumber();
    assert S.Params("") == [0];
  }

  lemma NoNumber()
    ensures S.Number("") == 0
  {
  }

  // ---- the theorem -------------------------------------------------------------------------

  lemma DrawShows(s: S.Screen, v: Canvas, c: char)
    requires Shows(s, v)
    ensures Shows(S.Draw(s, c), PaintChar(v, c))
  {
    hide S.Place, DosToAnsi;
  }

  lemma CodeShows(s: S.Screen, v: Canvas, code: string, rest: string) returns (t: S.Screen)
    requires Shows(s, v) && |code| == 2 && IsCode(code)
    ensures Shows(t, PaintCode(v, code)) && PaintCode(v, code).pen == PenOf(v.pen, code)
    ensures S.Feed(s, CodeText(Ansi16, PenOf(v.pen, code), code) + rest) == S.Feed(t, rest)
  {
    hide S.Feed, DosToAnsi, IsCode, SgrText;
    var p := PenOf(v.pen, code);
    t := s.(fg := DosToAnsi(p.fg % 8), bg := DosToAnsi(p.bg), bold := p.fg >= 8);
    if code == "CL" {
      FeedColours(s, p, CLEAR_SCREEN + rest);
      Assoc(SgrText(Ansi16, p), CLEAR_SCREEN, rest);
      FeedClear(t, rest);
      t := t.(rows := [], x := 0, y := 0);
    } else {
      FeedColours(s, p, rest);
      assert SgrText(Ansi16, p) + "" == SgrText(Ansi16, p);
    }
  }

  /** Rendering pipe codes and interpreting the escape sequences draws exactly what
      the codes say, from any screen and in any colours, for every text without an
      escape character of its own. */
  lemma {:induction false} PreviewIsPaint(s: S.Screen, v: Canvas, t: string)
    requires Shows(s, v) && ESC !in t
    ensures Shows(S.Feed(s, RenderFrom(Ansi16, v.pen, t)), Paint(v, t))
    ensures Paint(v, t).pen == PenAfter(v.pen, t)
    decreases |t|, 0
  {
    hide S.Feed, IsCode, S.Draw, PaintChar, PaintCode, CodeText, Shows, PenOf;
    if t == "" {
      assert S.Feed(s, "") == s by { FeedNothing(s); }
    } else {
      var rest := Rest(t);
      assert forall c :: c in rest ==> c in t;
      match HeadOf(t)
      case Plain(c) =>
        assert c in t;
        PreviewChar(s, v, c, rest);
      case Doubled =>
        PreviewChar(s, v, '|', rest);
      case Coded(code) =>
        var u := CodeShows(s, v, code, RenderFrom(Ansi16, PenOf(v.pen, code), rest));
        PreviewIsPaint(u, PaintCode(v, code), rest);
    }
  }

  lemma FeedNothing(s: S.Screen)
    ensures S.Feed(s, "") == s
  {
  }

  lemma PreviewChar(s: S.Screen, v: Canvas, c: char, rest: string)
    requires Shows(s, v) && ESC !in rest && c != ESC
    ensures Shows(S.Feed(s, [c] + RenderFrom(Ansi16, v.pen, rest)), Paint(PaintChar(v, c), rest))
    ensures Paint(PaintChar(v, c), rest).pen == PenAfter(v.pen, rest)
    decreases |rest|, 1
  {
    hide S.Feed, IsCode, S.Draw, CodeText, Shows, S.Place, Shade, DosToAnsi, Paint;
    FeedPlain(s, c, RenderFrom(Ansi16, v.pen, rest));
    DrawShows(s, v, c);
    PreviewIsPaint(S.Draw(s, c), PaintChar(v, c), rest);
  }

  /** renderPipeText: a new screen, a new renderer. */
  method PipePreview(text: string) returns (t: Terminals.Terminal)
    requires ESC !in text
    ensures Shows(t.Value(), Paint(NEW_CANVAS, text))
  {
    hide S.Feed, Paint, RenderFrom;
    t := new Terminals.Terminal();
    var r := new Renderer(Ansi16);
    var out := r.Render(text);
    t.Interpret(out);
    assert Shows(S.NEW_SCREEN, NEW_CANVAS);
    PreviewIsPaint(S.NEW_SCREEN, NEW_CANVAS, text);
  }
}
