/**
 Where the control sequences of internal/web/ansi.go leave the cursor, the cells and the
 colours, as sequences cancel, restore and show.
 */
module ScreenLaws {
  import opened Text
  import opened Screens
  import Previews

  // ---- the cursor ------------------------------------------------------------------------

  /** Everything but the cursor. */
  predicate OnlyMoved(s: Screen, t: Screen) { t == s.(x := t.x, y := t.y) }

  /** Down and up cancel, and so do right and left where the right edge does not stop
      the cursor. */
  lemma MovesCancel(s: Screen, ps: seq<int>, n: nat)
    requires n == if ps != [] && ps[0] > 0 then ps[0] else 1
    ensures Csi(Csi(s, 'B', ps), 'A', ps) == s
    ensures s.x + n <= 79 ==> Csi(Csi(s, 'C', ps), 'D', ps) == s
    ensures n <= s.y ==> Csi(Csi(s, 'A', ps), 'B', ps) == s
    ensures n <= s.x <= 79 ==> Csi(Csi(s, 'D', ps), 'C', ps) == s
  {
  }

  /** Up and left go n, or to the edge; right to the last column at most, down for ever;
      no move changes anything else. */
  lemma MovesStop(s: Screen, ps: seq<int>, n: nat)
    requires n == if ps != [] && ps[0] > 0 then ps[0] else 1
    ensures var t := Csi(s, 'A', ps); OnlyMoved(s, t) && t.x == s.x && (if s.y >= n then t.y + n == s.y else t.y == 0)
    ensures var t := Csi(s, 'B', ps); OnlyMoved(s, t) && t.x == s.x && t.y - s.y == n
    ensures var t := Csi(s, 'C', ps); OnlyMoved(s, t) && t.y == s.y && (if s.x + n <= 79 then t.x - s.x == n else t.x == 79)
    ensures var t := Csi(s, 'D', ps); OnlyMoved(s, t) && t.y == s.y && (if s.x >= n then t.x + n == s.x else t.x == 0)
  {
  }

  lemma Decimals(n: nat)
    requires n <= MAX_INT
    ensures Number(Itoa(n)) == n && AllDigits(Itoa(n)) && Itoa(n) != ""
  {
    AtoiOfItoa(n);
  }

  lemma DigitsOnly(s: string)
    requires AllDigits(s)
    ensures ';' !in s && '?' !in s && forall c :: c in s ==> !IsFinal(c)
  {
    forall c | c in s ensures IsDigit(c) {
      var i :| 0 <= i < |s| && s[i] == c;
      assert IsDigit(s[i]);
    }
  }

  lemma TwoNumbers(a: nat, b: nat)
    requires a <= MAX_INT && b <= MAX_INT
    ensures var body := Itoa(a) + ";" + Itoa(b);
            Params(body) == [a, b] && forall c :: c in body ==> !IsFinal(c)
  {
    hide Itoa, Number, IsFinal;
    Decimals(a);
    Decimals(b);
    DigitsOnly(Itoa(a));
    DigitsOnly(Itoa(b));
    SplitFirst(Itoa(a), ';', Itoa(b));
    SplitNone(Itoa(b), ';');
    assert [Itoa(a)] + [Itoa(b)] == [Itoa(a), Itoa(b)];
    NoFinalMark();
    assert TrimMarks(Itoa(a) + ";" + Itoa(b)) == Itoa(a) + ";" + Itoa(b);
  }

  lemma NoFinalMark()
    ensures !IsFinal(';') && IsFinal('H')
  {
  }

  /** ESC [ row ; column H and then a character put it in that row and column, counted
      from 1, in the colours of the screen, and every other cell stays. */
  lemma AddressedCell(s: Screen, row: nat, column: nat, ch: char, x: nat, y: nat)
    requires 1 <= row <= 500 && 1 <= column <= 80 && ch >= ' '
    ensures var t := Feed(s, [ESC, '['] + (Itoa(row) + ";" + Itoa(column)) + ['H'] + [ch]);
            && CellAt(t.rows, x, y) == (if x == column - 1 && y == row - 1 then Cell(ch, if s.bold && s.fg < 8 then s.fg + 8 else s.fg, s.bg)
                                        else CellAt(s.rows, x, y))
            && t.x == column && t.y == row - 1
  {
    hide Params, Feed, Place, CellAt, Itoa;
    var body := Itoa(row) + ";" + Itoa(column);
    TwoNumbers(row, column);
    NoFinalMark();
    Previews.FeedSequence(s, body, 'H', [ch]);
    var home := Csi(s, 'H', [row, column]);
    assert home == s.(x := column - 1, y := row - 1);
    FeedOne(home, ch);
    PlaceOne(s.rows, column - 1, row - 1, Cell(ch, if s.bold && s.fg < 8 then s.fg + 8 else s.fg, s.bg), x, y);
  }

  lemma FeedOne(s: Screen, ch: char)
    requires ch >= ' '
    ensures Feed(s, [ch]) == Put(s, ch)
  {
    hide Put, Csi;
    assert [ch][1..] == "";
  }

  // ---- saving and restoring ----------------------------------------------------------------

  /** One thing that happens to a screen. */
  datatype Event = Drawn(c: char) | Sequence(final: char, ps: seq<int>)

  function Happen(s: Screen, e: Event): Screen {
    match e
    case Drawn(c) => Draw(s, c)
    case Sequence(final, ps) => Csi(s, final, ps)
  }

  function HappenAll(s: Screen, es: seq<Event>): Screen
    decreases |es|
  {
    if es == [] then s else HappenAll(Happen(s, es[0]), es[1..])
  }

  lemma {:induction false} SgrSavesNot(s: Screen, ps: seq<int>)
    ensures SgrAll(s, ps).saveX == s.saveX && SgrAll(s, ps).saveY == s.saveY
    ensures SgrAll(s, ps).x == s.x && SgrAll(s, ps).y == s.y && SgrAll(s, ps).rows == s.rows
    decreases |ps|
  {
    if ps != [] {
      SgrSavesNot(Sgr(s, ps[0]), ps[1..]);
    }
  }

  lemma OneSavesNot(s: Screen, e: Event)
    requires !(e.Sequence? && e.final == 's')
    ensures Happen(s, e).saveX == s.saveX && Happen(s, e).saveY == s.saveY
  {
    hide SgrAll, Place;
    if e.Sequence? {
      SgrSavesNot(s, if e.ps == [] then [0] else e.ps);
    }
  }

  lemma {:induction false} SavedStays(s: Screen, es: seq<Event>)
    requires forall e :: e in es ==> !(e.Sequence? && e.final == 's')
    ensures HappenAll(s, es).saveX == s.saveX && HappenAll(s, es).saveY == s.saveY
    decreases |es|
  {
    hide Happen;
    if es != [] {
      assert es[0] in es;
      OneSavesNot(s, es[0]);
      SavedStays(Happen(s, es[0]), es[1..]);
    }
  }

  /** Whatever is drawn, moved and coloured between ESC [ s and ESC [ u, the cursor is
      back where it was, and the cells and colours stay as they have become. */
  lemma CursorComesBack(s: Screen, es: seq<Event>, ps: seq<int>, qs: seq<int>)
    requires forall e :: e in es ==> !(e.Sequence? && e.final == 's')
    ensures var t := HappenAll(Csi(s, 's', ps), es);
            var u := Csi(t, 'u', qs);
            u.x == s.x && u.y == s.y && OnlyMoved(t, u)
  {
    hide HappenAll;
    SavedStays(Csi(s, 's', ps), es);
  }

  // ---- erasing -----------------------------------------------------------------------------

  /** K blanks its line from the cursor on, keeps every other cell and the cursor. */
  lemma LineErased(s: Screen, ps: seq<int>, x: nat, y: nat)
    ensures var t := Csi(s, 'K', ps);
            && CellAt(t.rows, x, y) == (if y == s.y && x >= s.x then BLANK else CellAt(s.rows, x, y))
            && t == s.(rows := t.rows)
  {
    hide SgrAll;
    var t := Csi(s, 'K', ps);
    if y < |s.rows| && y != s.y {
      assert t.rows[y] == s.rows[y];
    }
  }

  /** J with 2 blanks every cell and goes home; any other J does nothing. */
  lemma ScreenErased(s: Screen, ps: seq<int>, x: nat, y: nat)
    ensures var t := Csi(s, 'J', ps);
            if ps != [] && ps[0] == 2 then
              CellAt(t.rows, x, y) == BLANK && t == s.(rows := t.rows, x := 0, y := 0)
            else t == s
  {
  }

  // ---- colours -------------------------------------------------------------------------------

  /** The colours a character gets. */
  function Fg(s: Screen): nat { if s.bold && s.fg < 8 then s.fg + 8 else s.fg }

  lemma OneParam(s: Screen, p: int)
    ensures Csi(s, 'm', [p]) == Sgr(s, p) && Csi(s, 'm', []) == Csi(s, 'm', [0])
  {
    assert SgrAll(Sgr(s, p), [p][1..]) == Sgr(s, p);
  }

  /** What each colour parameter does to the colours of the characters drawn after it:
      one of eight, one of eight bright ones, a background, bold on and off again, and
      back to grey on black; it changes neither the cells nor the cursor. */
  lemma ColoursShow(s: Screen, k: nat)
    requires k < 8 && s.fg < 16
    ensures Fg(Csi(s, 'm', [30 + k])) == k + (if s.bold then 8 else 0) && Csi(s, 'm', [30 + k]).bg == s.bg
    ensures Fg(Csi(s, 'm', [90 + k])) == k + 8 && Csi(s, 'm', [90 + k]).bg == s.bg
    ensures Fg(Csi(s, 'm', [40 + k])) == Fg(s) && Csi(s, 'm', [40 + k]).bg == k
    ensures Fg(Csi(s, 'm', [39])) == 7 + (if s.bold then 8 else 0) && Csi(s, 'm', [39]).bg == s.bg
    ensures Fg(Csi(s, 'm', [49])) == Fg(s) && Csi(s, 'm', [49]).bg == 0
    ensures Fg(Csi(s, 'm', [])) == 7 && Csi(s, 'm', []).bg == 0 && !Csi(s, 'm', []).bold
    ensures Fg(Csi(s, 'm', [1])) >= 8 && Csi(s, 'm', [1]).bg == s.bg
    ensures s.fg < 8 ==> Fg(Csi(Csi(s, 'm', [1]), 'm', [22])) == s.fg
    ensures !s.bold ==> Csi(Csi(s, 'm', [1]), 'm', [22]) == s
  {
    hide Csi, SgrAll;
    OneParam(s, 30 + k);
    OneParam(s, 90 + k);
    OneParam(s, 40 + k);
    OneParam(s, 39);
    OneParam(s, 49);
    OneParam(s, 0);
    OneParam(s, 1);
    OneParam(Sgr(s, 1), 22);
  }

  /** Any m sequence leaves the cells and the cursor alone. */
  lemma ColoursOnly(s: Screen, ps: seq<int>)
    ensures var t := Csi(s, 'm', ps);
            t.rows == s.rows && t.x == s.x && t.y == s.y && t.saveX == s.saveX && t.saveY == s.saveY
  {
    SgrSavesNot(s, if ps == [] then [0] else ps);
  }
}
