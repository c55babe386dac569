/**
 The interpreter of internal/web/ansi.go the way it runs: one screen object, changed
 cell by cell and sequence by sequence. Each method does what its function in Screens
 says.
 */
module Terminals {
  import opened Text
  import opened Screens

  class Terminal {
    var rows: Grid
    var x: nat
    var y: nat
    var fg: nat
    var bg: nat
    var bold: bool
    var saveX: nat
    var saveY: nat

    ghost function Value(): Screen
      reads this
    {
      Screen(rows, x, y, fg, bg, bold, saveX, saveY)
    }

    constructor ()
      ensures Value() == NEW_SCREEN
    {
      rows, x, y, fg, bg, bold, saveX, saveY := [], 0, 0, 7, 0, false, 0, 0;
    }

    /** Make row n exist, as far as rows can. */
    method Row(n: nat)
      modifies this`rows
      ensures rows == Extend(old(rows), n)
    {
      while |rows| <= n && |rows| < MAX_ROWS
        invariant Extend(rows, n) == Extend(old(rows), n)
        decreases MAX_ROWS - |rows|
      {
        rows := rows + [[]];
      }
    }

    method PutRune(r: char)
      modifies this
      ensures Value() == Put(old(Value()), r)
    {
      if x >= COLUMNS {
        x := 0;
        y := y + 1;
      }
      Row(y);
      if y >= MAX_ROWS {
        return;
      }
      ghost var first := rows;
      var row := rows[y];
      while |row| <= x
        invariant Pad(row, x) == Pad(first[y], x)
        decreases x + 1 - |row|
      {
        row := row + [BLANK];
      }
      var colour := fg;
      if bold && colour < 8 {
        colour := colour + 8;
      }
      rows := rows[y := row[x := Cell(r, colour, bg)]];
      x := x + 1;
    }

    method SetGraphics(params: seq<int>)
      modifies this
      ensures Value() == SgrAll(old(Value()), if params == [] then [0] else params)
    {
      var ps := if params == [] then [0] else params;
      assert ps[0..] == ps;
      for k := 0 to |ps|
        invariant SgrAll(Value(), ps[k..]) == SgrAll(old(Value()), ps)
      {
        var p := ps[k];
        assert ps[k..][0] == p && ps[k..][1..] == ps[k + 1..];
        if p == 0 {
          fg, bg, bold := 7, 0, false;
        } else if p == 1 {
          bold := true;
        } else if p == 22 {
          bold := false;
        } else if 30 <= p <= 37 {
          fg := p - 30;
        } else if p == 39 {
          fg := 7;
        } else if 40 <= p <= 47 {
          bg := p - 40;
        } else if p == 49 {
          bg := 0;
        } else if 90 <= p <= 97 {
          fg := p - 90 + 8;
        }
      }
    }

    method Control(final: char, params: seq<int>)
      modifies this
      ensures Value() == Csi(old(Value()), final, params)
    {
      hide SgrAll;
      var n := Arg(params, 0);
      if final == 'm' {
        SetGraphics(params);
      } else if final == 'A' {
        y := Max(0, y - n);
      } else if final == 'B' {
        y := y + n;
      } else if final == 'C' {
        x := Min(COLUMNS - 1, x + n);
      } else if final == 'D' {
        x := Max(0, x - n);
      } else if final == 'H' || final == 'f' {
        y, x := n - 1, Min(COLUMNS - 1, Arg(params, 1) - 1);
      } else if final == 'J' {
        if params != [] && params[0] == 2 {
          rows, x, y := [], 0, 0;
        }
      } else if final == 'K' {
        if y < |rows| && x < |rows[y]| {
          rows := rows[y := rows[y][..x]];
        }
      } else if final == 's' {
        saveX, saveY := x, y;
      } else if final == 'u' {
        x, y := saveX, saveY;
      }
    }

    method Interpret(text: string)
      modifies this
      ensures Value() == Feed(old(Value()), text)
    {
      hide Csi, Put, Params;
      var i := 0;
      assert text[0..] == text;
      while i < |text|
        invariant i <= |text|
        invariant Feed(Value(), text[i..]) == Feed(old(Value()), text)
        decreases |text| - i
      {
        ghost var rest := text[i..];
        var c := text[i];
        assert rest[0] == c && rest[1..] == text[i + 1..];
        if c == ESC && i + 1 < |text| && text[i + 1] == '[' {
          assert IsCsi(rest);
          var j := i + 2;
          while j < |text| && !IsFinal(text[j])
            invariant i + 2 <= j <= |text|
            invariant FinalAt(rest, 2) == FinalAt(rest, j - i)
            decreases |text| - j
          {
            j := j + 1;
          }
          if j >= |text| {
            return;
          }
          assert FinalAt(rest, 2) == j - i;
          assert rest[2..j - i] == text[i + 2..j] && rest[j - i + 1..] == text[j + 1..];
          var params := ParseParams(text[i + 2..j]);
          Control(text[j], params);
          i := j + 1;
        } else {
          assert !IsCsi(rest);
          if c == '\r' {
            x := 0;
          } else if c == '\n' {
            x, y := 0, y + 1;
          } else if c >= ' ' {
            PutRune(c);
          }
          i := i + 1;
        }
      }
      assert text[i..] == "";
    }
  }

  method ParseParams(t: string) returns (params: seq<int>)
    ensures params == Params(t)
  {
    hide Split, TrimMarks;
    var parts := Split(TrimMarks(t), ';');
    params := [];
    for k := 0 to |parts|
      invariant |params| == k
      invariant forall m :: 0 <= m < k ==> params[m] == Number(parts[m])
    {
      params := params + [Number(parts[k])];
    }
    assert params == Numbers(parts);
  }
}
