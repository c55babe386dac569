/**
 The ANSI interpreter of internal/web/ansi.go: an 80-column grid of coloured cells,
 a cursor, and the escape sequences that move and colour it.
 */
module Screens {
  import opened Text

  const COLUMNS := 80
  const MAX_ROWS := 500
  /** Colours are in ANSI order, 8 and up bright. */
  datatype Cell = Cell(r: char, fg: nat, bg: nat)

  type Grid = seq<seq<Cell>>

  const BLANK := Cell(' ', 7, 0)

  datatype Screen = Screen(rows: Grid, x: nat, y: nat, fg: nat, bg: nat, bold: bool, saveX: nat, saveY: nat)

  const NEW_SCREEN := Screen([], 0, 0, 7, 0, false, 0, 0)

  // ---- drawing ---------------------------------------------------------------------

  function Extend(rows: Grid, y: nat): (r: Grid)
    ensures rows <= r && (y < MAX_ROWS ==> y < |r|)
    ensures forall k :: |rows| <= k < |r| ==> r[k] == []
    ensures |r| <= if |rows| < MAX_ROWS then MAX_ROWS else |rows|
    decreases MAX_ROWS - |rows|
  {
    if |rows| <= y && |rows| < MAX_ROWS then Extend(rows + [[]], y) else rows
  }

  function Pad(row: seq<Cell>, x: nat): (r: seq<Cell>)
    ensures row <= r && x < |r| && |r| <= if |row| <= x then x + 1 else |row|
    ensures forall k :: |row| <= k < |r| ==> r[k] == BLANK
    decreases x + 1 - |row|
  {
    if |row| <= x then Pad(row + [BLANK], x) else row
  }

  function Place(rows: Grid, x: nat, y: nat, c: Cell): Grid {
    var r := Extend(rows, y);
    if y < MAX_ROWS then r[y := Pad(r[y], x)[x := c]] else r
  }

  /** Where the next character goes. */
  function Wrap(x: nat, y: nat): (nat, nat) { if x >= COLUMNS then (0, y + 1) else (x, y) }

  function Put(s: Screen, ch: char): Screen {
    var (x, y) := Wrap(s.x, s.y);
    var fg := if s.bold && s.fg < 8 then s.fg + 8 else s.fg;
    s.(rows := Place(s.rows, x, y, Cell(ch, fg, s.bg)), x := if y < MAX_ROWS then x + 1 else x, y := y)
  }

  function Draw(s: Screen, c: char): Screen {
    if c == '\r' then s.(x := 0)
    else if c == '\n' then s.(x := 0, y := s.y + 1)
    else if c < ' ' then s
    else Put(s, c)
  }

  // ---- escape sequences ---------------------------------------------------------------

  function Sgr(s: Screen, p: int): Screen {
    if p == 0 then s.(fg := 7, bg := 0, bold := false)
    else if p == 1 then s.(bold := true)
    else if p == 22 then s.(bold := false)
    else if 30 <= p <= 37 then s.(fg := p - 30)
    else if p == 39 then s.(fg := 7)
    else if 40 <= p <= 47 then s.(bg := p - 40)
    else if p == 49 then s.(bg := 0)
    else if 90 <= p <= 97 then s.(fg := p - 90 + 8)
    else s
  }

  function SgrAll(s: Screen, ps: seq<int>): Screen
    decreases |ps|
  {
    if ps == [] then s else SgrAll(Sgr(s, ps[0]), ps[1..])
  }

  function Min(a: int, b: int): int { if a < b then a else b }

  function Max(a: int, b: int): int { if a > b then a else b }

  /** A parameter that is missing or not positive counts as 1. */
  function Arg(ps: seq<int>, k: nat): (n: nat)
    ensures n >= 1
  {
    if k < |ps| && ps[k] > 0 then ps[k] else 1
  }

  function Csi(s: Screen, final: char, ps: seq<int>): Screen {
    var n := Arg(ps, 0);
    if final == 'm' then SgrAll(s, if ps == [] then [0] else ps)
    else if final == 'A' then s.(y := Max(0, s.y - n))
    else if final == 'B' then s.(y := s.y + n)
    else if final == 'C' then s.(x := Min(COLUMNS - 1, s.x + n))
    else if final == 'D' then s.(x := Max(0, s.x - n))
    else if final == 'H' || final == 'f' then s.(y := n - 1, x := Min(COLUMNS - 1, Arg(ps, 1) - 1))
    else if final == 'J' then if ps != [] && ps[0] == 2 then s.(rows := [], x := 0, y := 0) else s
    else if final == 'K' then
      if s.y < |s.rows| && s.x < |s.rows[s.y]| then s.(rows := s.rows[s.y := s.rows[s.y][..s.x]]) else s
    else if final == 's' then s.(saveX := s.x, saveY := s.y)
    else if final == 'u' then s.(x := s.saveX, y := s.saveY)
    else s
  }

  predicate IsFinal(c: char) { '@' <= c <= '~' }

  /** The next final byte at or after i, or the end. */
  function FinalAt(t: string, i: nat): (j: nat)
    requires i <= |t|
    ensures i <= j <= |t| && (j < |t| ==> IsFinal(t[j]))
    ensures forall k :: i <= k < j ==> !IsFinal(t[k])
    decreases |t| - i
  {
    if i == |t| || IsFinal(t[i]) then i else FinalAt(t, i + 1)
  }

  function TrimMarks(t: string): string {
    if t != "" && t[0] == '?' then TrimMarks(t[1..]) else t
  }

  /** A parameter that is no number, or out of range, is 0. */
  function Number(t: string): int { var p := Atoi(t); if p.ok then p.value else 0 }

  function Numbers(parts: seq<string>): (ns: seq<int>)
    ensures |ns| == |parts| && forall k :: 0 <= k < |parts| ==> ns[k] == Number(parts[k])
  {
    if parts == [] then [] else [Number(parts[0])] + Numbers(parts[1..])
  }

  function Params(t: string): seq<int> { Numbers(Split(TrimMarks(t), ';')) }

  predicate IsCsi(t: string) { |t| >= 2 && t[0] == ESC && t[1] == '[' }

  function Feed(s: Screen, t: string): Screen
    decreases |t|
  {
    if t == "" then s
    else if IsCsi(t) then
      var j := FinalAt(t, 2);
      if j >= |t| then s else Feed(Csi(s, t[j], Params(t[2..j])), t[j + 1..])
    else Feed(Draw(s, t[0]), t[1..])
  }

  // ---- what a screen can hold ------------------------------------------------------------

  /** The cell at a place; beyond what was drawn it is blank. */
  function CellAt(rows: Grid, x: nat, y: nat): Cell {
    if y < |rows| && x < |rows[y]| then rows[y][x] else BLANK
  }

  /** Drawing changes the cell under the cursor and no other; past the last row it
      changes none. */
  lemma PlaceOne(rows: Grid, x: nat, y: nat, c: Cell, x2: nat, y2: nat)
    ensures CellAt(Place(rows, x, y, c), x2, y2)
            == if y < MAX_ROWS && x2 == x && y2 == y then c else CellAt(rows, x2, y2)
  {
    var r := Extend(rows, y);
    if y2 != y && y2 < |r| {
      assert y2 < |rows| ==> r[y2] == rows[y2];
    }
  }

  ghost predicate CellOk(c: Cell) { c.fg < 16 && c.bg < 8 && c.r >= ' ' }

  ghost predicate RowOk(row: seq<Cell>) { |row| <= COLUMNS && forall k :: 0 <= k < |row| ==> CellOk(row[k]) }

  ghost predicate GridOk(rows: Grid) { |rows| <= MAX_ROWS && forall k :: 0 <= k < |rows| ==> RowOk(rows[k]) }

  ghost predicate ScreenOk(s: Screen) { GridOk(s.rows) && s.fg < 16 && s.bg < 8 && s.x <= COLUMNS && s.saveX <= COLUMNS }

  lemma PlaceOk(rows: Grid, x: nat, y: nat, c: Cell)
    requires GridOk(rows) && x < COLUMNS && CellOk(c)
    ensures GridOk(Place(rows, x, y, c))
  {
    hide CellOk;
    var r := Extend(rows, y);
    forall k | 0 <= k < |r| ensures RowOk(r[k]) {
      assert k < |rows| ==> r[k] == rows[k];
    }
    if y < MAX_ROWS {
      PadOk(r[y], x, c);
    }
  }

  lemma PadOk(row: seq<Cell>, x: nat, c: Cell)
    requires RowOk(row) && x < COLUMNS && CellOk(c)
    ensures RowOk(Pad(row, x)[x := c])
  {
    var p := Pad(row, x);
    assert CellOk(BLANK);
    forall k | 0 <= k < |p| ensures CellOk(p[k]) {
      assert k < |row| ==> p[k] == row[k];
    }
  }

  lemma {:induction false} SgrOk(s: Screen, ps: seq<int>)
    requires ScreenOk(s)
    ensures ScreenOk(SgrAll(s, ps))
    ensures var t := SgrAll(s, ps); t.rows == s.rows && t.x == s.x && t.y == s.y && t.saveX == s.saveX && t.saveY == s.saveY
    decreases |ps|
  {
    hide GridOk;
    if ps != [] {
      SgrOk(Sgr(s, ps[0]), ps[1..]);
    }
  }

  lemma CsiOk(s: Screen, final: char, ps: seq<int>)
    requires ScreenOk(s)
    ensures ScreenOk(Csi(s, final, ps))
  {
    hide SgrAll, CellOk;
    SgrOk(s, if ps == [] then [0] else ps);
    if final == 'K' && s.y < |s.rows| && s.x < |s.rows[s.y]| {
      assert RowOk(s.rows[s.y]);
      assert RowOk(s.rows[s.y][..s.x]);
    }
  }

  lemma DrawOk(s: Screen, c: char)
    requires ScreenOk(s)
    ensures ScreenOk(Draw(s, c))
  {
    hide Place, GridOk;
    if c >= ' ' {
      var (x, y) := Wrap(s.x, s.y);
      PlaceOk(s.rows, x, y, Cell(c, if s.bold && s.fg < 8 then s.fg + 8 else s.fg, s.bg));
    }
  }

  /** Whatever it is fed, a screen stays within 80 by 500 cells, draws no control
      character, and uses the 16 foreground and 8 background colours. */
  lemma {:induction false} FeedOk(s: Screen, t: string)
    requires ScreenOk(s)
    ensures ScreenOk(Feed(s, t))
    decreases |t|
  {
    hide ScreenOk, Csi, Draw, Params;
    if t == "" {
    } else if IsCsi(t) {
      var j := FinalAt(t, 2);
      if j < |t| {
        CsiOk(s, t[j], Params(t[2..j]));
        FeedOk(Csi(s, t[j], Params(t[2..j])), t[j + 1..]);
      }
    } else {
      DrawOk(s, t[0]);
      FeedOk(Draw(s, t[0]), t[1..]);
    }
  }
}
