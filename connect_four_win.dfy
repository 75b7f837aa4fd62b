/** The win test of the connect-four browser engine (public/connect4.js):
    checkWin scans every occupied cell and isWin counts, in each of four
    directions, the run of equal colours through it. The module proves that
    this run-length test holds exactly when the window test of the servers
    finds four in a row for Red or for Yellow. */
module ConnectFourWin {
  import opened Values
  import opened ConnectFourBoard

  datatype Color = Red | Yellow

  /** A cell: `null` or the colour of the piece. */
  type Cell = Option<Color>

  function Other(c: Color): Color {
    if c == Red then Yellow else Red
  }

  /** The `directions` table of checkWin as (x, y) pairs: x steps the row,
      y steps the column. */
  const Directions: seq<(int, int)> := [(1, 0), (0, 1), (1, 1), (1, -1)]

  // ---------------------------------------------------------------------
  // The run-length win test, as the source computes it

  /** How many cells in a row, stepping (dx, dy) away from (r, c), are inside
      the board and equal to `color`, looking at most `steps` cells far: one
      inner loop of isWin, which stops at the first cell that is off the board
      or differs. */
  function Run(b: Grid<Cell>, r: int, c: int, dx: int, dy: int, color: Cell, steps: nat): (n: nat)
    requires IsGrid(b)
    ensures n <= steps
    decreases steps
  {
    if steps == 0 then 0
    else if !InBounds(r + dx, c + dy) || b[r + dx][c + dy] != color then 0
    else 1 + Run(b, r + dx, c + dy, dx, dy, color, steps - 1)
  }

  /** `count` at the end of one direction of isWin: the cell itself, plus the
      run in the positive direction, plus the run in the negative one. */
  function Count(b: Grid<Cell>, row: int, col: int, dx: int, dy: int): nat
    requires IsGrid(b) && InBounds(row, col)
  {
    1 + Run(b, row, col, dx, dy, b[row][col], 3) + Run(b, row, col, -dx, -dy, b[row][col], 3)
  }

  /** isWin(row, col): some direction, from the k-th of the table on, has a
      count of at least four. */
  predicate IsWinFrom(b: Grid<Cell>, row: int, col: int, k: nat)
    requires IsGrid(b) && InBounds(row, col) && k <= |Directions|
    decreases |Directions| - k
  {
    k < |Directions| && (Count(b, row, col, Directions[k].0, Directions[k].1) >= 4 || IsWinFrom(b, row, col, k + 1))
  }

  predicate IsWinAt(b: Grid<Cell>, row: int, col: int)
    requires IsGrid(b) && InBounds(row, col)
  {
    IsWinFrom(b, row, col, 0)
  }

  /** checkWin: some occupied cell passes isWin. */
  predicate RunLengthWin(b: Grid<Cell>)
    requires IsGrid(b)
  {
    exists row, col :: 0 <= row < Rows && 0 <= col < Columns && b[row][col] != None && IsWinAt(b, row, col)
  }

  /** The rule the engine is meant to implement: four consecutive cells of one
      colour in a row, a column or a diagonal. */
  predicate Won(b: Grid<Cell>)
    requires IsGrid(b)
  {
    CheckWin(b, Some(Red)) || CheckWin(b, Some(Yellow))
  }

  /** One counting loop of isWin: how many cells, stepping (dx, dy) away from
      (row, col), match `color` before the first that is off the board or
      differs (at most three). The negative loop of the source, which computes
      `row - i * x`, is this loop with the direction negated. */
  method CountRun(b: Grid<Cell>, row: int, col: int, dx: int, dy: int, color: Cell) returns (n: nat)
    requires IsGrid(b)
    ensures n == Run(b, row, col, dx, dy, color, 3)
  {
    n := 0;
    var i := 1;
    ghost var pr, pc := row, col;
    while i < 4
      invariant 1 <= i <= 4 && n == i - 1
      invariant pr == row + (i - 1) * dx && pc == col + (i - 1) * dy
      invariant n + Run(b, pr, pc, dx, dy, color, 4 - i) == Run(b, row, col, dx, dy, color, 3)
    {
      var r, c := row + i * dx, col + i * dy;
      Step(row, i, dx);
      Step(col, i, dy);
      if r < 0 || r >= Rows || c < 0 || c >= Columns || b[r][c] != color {
        break;
      }
      n := n + 1;
      i := i + 1;
      pr, pc := r, c;
    }
  }

  /** One step further along d. */
  lemma Step(a: int, i: int, d: int)
    ensures a + i * d == (a + (i - 1) * d) + d
  {
  }

  /** isWin: the loop over the four directions with its two counting loops. */
  method IsWin(b: Grid<Cell>, row: int, col: int) returns (w: bool)
    requires IsGrid(b) && InBounds(row, col)
    ensures w == IsWinAt(b, row, col)
  {
    var color := b[row][col];
    var k := 0;
    while k < |Directions|
      invariant 0 <= k <= |Directions|
      invariant forall j :: 0 <= j < k ==> Count(b, row, col, Directions[j].0, Directions[j].1) < 4
    {
      var x, y := Directions[k].0, Directions[k].1;
      var forward := CountRun(b, row, col, x, y, color);
      var backward := CountRun(b, row, col, -x, -y, color);
      var count := 1 + forward + backward;
      CountIs(b, row, col, x, y, forward, backward);
      if count >= 4 {
        IsWinAtSomeDirection(b, row, col);
        return true;
      }
      k := k + 1;
    }
    IsWinAtSomeDirection(b, row, col);
    return false;
  }

  /** The two runs of one direction make up its count. */
  lemma CountIs(b: Grid<Cell>, row: int, col: int, x: int, y: int, forward: nat, backward: nat)
    requires IsGrid(b) && InBounds(row, col)
    requires forward == Run(b, row, col, x, y, b[row][col], 3)
    requires backward == Run(b, row, col, -x, -y, b[row][col], 3)
    ensures 1 + forward + backward == Count(b, row, col, x, y)
  {
  }

  /** Some occupied cell of row `row` passes isWin. */
  predicate RowHasWin(b: Grid<Cell>, row: int)
    requires IsGrid(b) && 0 <= row < Rows
  {
    exists col :: 0 <= col < Columns && b[row][col] != None && IsWinAt(b, row, col)
  }

  /** The inner loop of checkWin: the scan over the cells of one row. */
  method CheckWinRow(b: Grid<Cell>, row: int) returns (w: bool)
    requires IsGrid(b) && 0 <= row < Rows
    ensures w == RowHasWin(b, row)
  {
    var col := 0;
    while col < Columns
      invariant 0 <= col <= Columns
      invariant forall c {:trigger IsWinAt(b, row, c)} :: 0 <= c < col && b[row][c] != None ==> !IsWinAt(b, row, c)
    {
      if b[row][col] != None {
        var hit := IsWin(b, row, col);
        if hit {
          return true;
        }
      }
      col := col + 1;
    }
    return false;
  }

  /** checkWin: the scan over every cell, row by row. */
  method CheckWinScan(b: Grid<Cell>) returns (w: bool)
    requires IsGrid(b)
    ensures w == RunLengthWin(b)
  {
    var row := 0;
    while row < Rows
      invariant 0 <= row <= Rows
      invariant forall r :: 0 <= r < row ==> !RowHasWin(b, r)
    {
      var hit := CheckWinRow(b, row);
      if hit {
        var col :| 0 <= col < Columns && b[row][col] != None && IsWinAt(b, row, col);
        return true;
      }
      row := row + 1;
    }
    if RunLengthWin(b) {
      var r, c :| 0 <= r < Rows && 0 <= c < Columns && b[r][c] != None && IsWinAt(b, r, c);
      assert RowHasWin(b, r);
    }
    return false;
  }

  /** The j-th cell a run counts matches. */
  lemma {:induction false} RunCell(b: Grid<Cell>, r: int, c: int, dx: int, dy: int, color: Cell, steps: nat, j: int)
    requires IsGrid(b) && 1 <= j <= Run(b, r, c, dx, dy, color, steps)
    ensures InBounds(r + j * dx, c + j * dy) && b[r + j * dx][c + j * dy] == color
    decreases steps
  {
    if j > 1 {
      RunCell(b, r + dx, c + dy, dx, dy, color, steps - 1, j - 1);
      assert r + j * dx == (r + dx) + (j - 1) * dx && c + j * dy == (c + dy) + (j - 1) * dy;
    }
  }

  /** A run reaches every matching cell before the first mismatch. */
  lemma {:induction false} RunReaches(b: Grid<Cell>, r: int, c: int, dx: int, dy: int, color: Cell, steps: nat, m: nat)
    requires IsGrid(b) && m <= steps
    requires forall j :: 1 <= j <= m ==> InBounds(r + j * dx, c + j * dy) && b[r + j * dx][c + j * dy] == color
    ensures Run(b, r, c, dx, dy, color, steps) >= m
    decreases steps
  {
    if m > 0 {
      assert InBounds(r + 1 * dx, c + 1 * dy) && b[r + 1 * dx][c + 1 * dy] == color;
      forall j | 1 <= j <= m - 1
        ensures InBounds((r + dx) + j * dx, (c + dy) + j * dy) && b[(r + dx) + j * dx][(c + dy) + j * dy] == color
      {
        assert (r + dx) + j * dx == r + (j + 1) * dx && (c + dy) + j * dy == c + (j + 1) * dy;
      }
      RunReaches(b, r + dx, c + dy, dx, dy, color, steps - 1, m - 1);
    }
  }

  /** isWin holds exactly when one of the four directions counts four. */
  lemma IsWinAtSomeDirection(b: Grid<Cell>, row: int, col: int)
    requires IsGrid(b) && InBounds(row, col)
    ensures IsWinAt(b, row, col) <==>
      exists k :: 0 <= k < |Directions| && Count(b, row, col, Directions[k].0, Directions[k].1) >= 4
  {
    assert IsWinFrom(b, row, col, 0) == (Count(b, row, col, 1, 0) >= 4 || IsWinFrom(b, row, col, 1));
    assert IsWinFrom(b, row, col, 1) == (Count(b, row, col, 0, 1) >= 4 || IsWinFrom(b, row, col, 2));
    assert IsWinFrom(b, row, col, 2) == (Count(b, row, col, 1, 1) >= 4 || IsWinFrom(b, row, col, 3));
    assert IsWinFrom(b, row, col, 3) == (Count(b, row, col, 1, -1) >= 4 || IsWinFrom(b, row, col, 4));
    assert !IsWinFrom(b, row, col, 4);
  }

  /** Moving g steps back and then i steps forward along d. */
  lemma Shift(a: int, g: int, i: int, d: int)
    ensures a - g * d + i * d == a + (g - i) * -d == a + (i - g) * d
    ensures i == g ==> a - g * d + i * d == a
  {
  }

  /** A count of four or more covers a window of four cells of the same
      colour that starts g cells behind (row, col), g being the backward run. */
  lemma CountGivesWindow(b: Grid<Cell>, row: int, col: int, dx: int, dy: int) returns (g: int)
    requires IsGrid(b) && InBounds(row, col)
    requires Count(b, row, col, dx, dy) >= 4 && 0 <= dx <= 1 && -1 <= dy <= 1
    ensures 0 <= g <= 3 && Window(b, b[row][col], row - g * dx, col - g * dy, dx, dy)
  {
    var color := b[row][col];
    var f := Run(b, row, col, dx, dy, color, 3);
    g := Run(b, row, col, -dx, -dy, color, 3);
    forall i | 0 <= i < 4
      ensures InBounds(row - g * dx + i * dx, col - g * dy + i * dy)
           && b[row - g * dx + i * dx][col - g * dy + i * dy] == color
    {
      CoveredCell(b, row, col, dx, dy, f, g, i);
    }
  }

  /** The i-th cell of that window: behind (row, col) it is counted by the
      backward run, ahead of it by the forward run. */
  lemma CoveredCell(b: Grid<Cell>, row: int, col: int, dx: int, dy: int, f: nat, g: nat, i: int)
    requires IsGrid(b) && InBounds(row, col)
    requires f == Run(b, row, col, dx, dy, b[row][col], 3) && g == Run(b, row, col, -dx, -dy, b[row][col], 3)
    requires 1 + f + g >= 4 && 0 <= i < 4 && 0 <= dx <= 1 && -1 <= dy <= 1
    ensures InBounds(row - g * dx + i * dx, col - g * dy + i * dy)
         && b[row - g * dx + i * dx][col - g * dy + i * dy] == b[row][col]
  {
    Shift(row, g, i, dx);
    Shift(col, g, i, dy);
    if i < g {
      RunCell(b, row, col, -dx, -dy, b[row][col], 3, g - i);
    } else if i > g {
      RunCell(b, row, col, dx, dy, b[row][col], 3, i - g);
    }
  }

  /** A window along one of the four directions of the table is one of the
      windows check_win scans; the anti-diagonal one is scanned from its other
      end, as an up-right window. */
  lemma WindowIsScanned(b: Grid<Cell>, p: Cell, r: int, c: int, k: int)
    requires IsGrid(b) && 0 <= k < |Directions|
    requires Window(b, p, r, c, Directions[k].0, Directions[k].1)
    ensures CheckWin(b, p)
  {
    var (dx, dy) := Directions[k];
    assert InBounds(r + 0 * dx, c + 0 * dy) && InBounds(r + 3 * dx, c + 3 * dy);
    if k == 0 {
      assert Window(b, p, r, c, 1, 0);
    } else if k == 1 {
      assert Window(b, p, r, c, 0, 1);
    } else if k == 2 {
      assert Window(b, p, r, c, 1, 1);
    } else {
      forall i | 0 <= i < 4
        ensures InBounds((r + 3) + i * -1, (c - 3) + i * 1) && b[(r + 3) + i * -1][(c - 3) + i * 1] == p
      {
        var j := 3 - i;
        assert (r + 3) + i * -1 == r + j * 1 && (c - 3) + i * 1 == c + j * -1;
      }
      assert Window(b, p, r + 3, c - 3, -1, 1);
    }
  }

  /** A scanned window whose first cell is occupied makes that first cell pass
      isWin: its other three cells are a run of three from it. */
  lemma ScannedWindowIsRun(b: Grid<Cell>, p: Cell, r: int, c: int, dr: int, dc: int)
    requires IsGrid(b) && (dr, dc) in [(0, 1), (1, 0), (1, 1), (-1, 1)]
    requires Window(b, p, r, c, dr, dc)
    ensures InBounds(r, c) && b[r][c] == p && IsWinAt(b, r, c)
  {
    assert InBounds(r + 0 * dr, c + 0 * dc) && b[r + 0 * dr][c + 0 * dc] == p;
    forall j | 1 <= j <= 3 ensures InBounds(r + j * dr, c + j * dc) && b[r + j * dr][c + j * dc] == p {
    }
    RunReaches(b, r, c, dr, dc, p, 3, 3);
    IsWinAtSomeDirection(b, r, c);
    if (dr, dc) == (0, 1) {
      assert Count(b, r, c, Directions[1].0, Directions[1].1) >= 4;
    } else if (dr, dc) == (1, 0) {
      assert Count(b, r, c, Directions[0].0, Directions[0].1) >= 4;
    } else if (dr, dc) == (1, 1) {
      assert Count(b, r, c, Directions[2].0, Directions[2].1) >= 4;
    } else {
      assert Count(b, r, c, Directions[3].0, Directions[3].1) >= 4;
    }
  }

  /** A line for `p` makes some occupied cell pass isWin. */
  lemma LineIsRunLengthWin(b: Grid<Cell>, p: Cell)
    requires IsGrid(b) && p != None && CheckWin(b, p)
    ensures RunLengthWin(b)
  {
    var r, c, dr, dc;
    if exists r, c :: 0 <= r < Rows && 0 <= c < Columns - 3 && Window(b, p, r, c, 0, 1) {
      r, c :| 0 <= r < Rows && 0 <= c < Columns - 3 && Window(b, p, r, c, 0, 1);
      dr, dc := 0, 1;
    } else if exists c, r :: 0 <= c < Columns && 0 <= r < Rows - 3 && Window(b, p, r, c, 1, 0) {
      c, r :| 0 <= c < Columns && 0 <= r < Rows - 3 && Window(b, p, r, c, 1, 0);
      dr, dc := 1, 0;
    } else if exists r, c :: 0 <= r < Rows - 3 && 0 <= c < Columns - 3 && Window(b, p, r, c, 1, 1) {
      r, c :| 0 <= r < Rows - 3 && 0 <= c < Columns - 3 && Window(b, p, r, c, 1, 1);
      dr, dc := 1, 1;
    } else {
      r, c :| 3 <= r < Rows && 0 <= c < Columns - 3 && Window(b, p, r, c, -1, 1);
      dr, dc := -1, 1;
    }
    ScannedWindowIsRun(b, p, r, c, dr, dc);
  }

  /** Every direction of the table steps the row by 0 or 1. */
  lemma DirectionBounds(k: int)
    requires 0 <= k < |Directions|
    ensures 0 <= Directions[k].0 <= 1 && -1 <= Directions[k].1 <= 1
  {
  }

  /** A cell passing isWin lies on a line of four of its own colour. */
  lemma WinAtGivesLine(b: Grid<Cell>, row: int, col: int)
    requires IsGrid(b) && InBounds(row, col) && IsWinAt(b, row, col)
    ensures CheckWin(b, b[row][col])
  {
    IsWinAtSomeDirection(b, row, col);
    var k :| 0 <= k < |Directions| && Count(b, row, col, Directions[k].0, Directions[k].1) >= 4;
    DirectionBounds(k);
    var g := CountGivesWindow(b, row, col, Directions[k].0, Directions[k].1);
    WindowIsScanned(b, b[row][col], row - g * Directions[k].0, col - g * Directions[k].1, k);
  }

  /** The run-length test of the browser and the window test of the servers
      agree: checkWin holds exactly when some line of four consecutive cells
      holds one colour. */
  lemma RunLengthWinIsLine(b: Grid<Cell>)
    requires IsGrid(b)
    ensures RunLengthWin(b) == Won(b)
  {
    if RunLengthWin(b) {
      var row, col :| 0 <= row < Rows && 0 <= col < Columns && b[row][col] != None && IsWinAt(b, row, col);
      WinAtGivesLine(b, row, col);
      if b[row][col].value == Red {
        assert CheckWin(b, Some(Red));
      } else {
        assert CheckWin(b, Some(Yellow));
      }
    }
    if Won(b) {
      if CheckWin(b, Some(Red)) {
        LineIsRunLengthWin(b, Some(Red));
      } else {
        LineIsRunLengthWin(b, Some(Yellow));
      }
    }
  }
}
