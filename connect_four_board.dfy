/** The board helpers that c4_ai.py and c4_q_learning.py share (the two copies
    are textually the same code): a 6x6 grid whose row 0 is the top, the
    column test, the gravity row, the four-in-a-row test and the scratch-board
    write. The helpers are generic in the cell type so that the browser engine,
    whose cells are colours, uses the same definitions. */
module ConnectFourBoard {
  import opened Values

  const Rows: int := 6
  const Columns: int := 6

  type Grid<T> = seq<seq<T>>

  predicate IsGrid<T>(b: Grid<T>) {
    |b| == Rows && forall r :: 0 <= r < Rows ==> |b[r]| == Columns
  }

  predicate InBounds(r: int, c: int) {
    0 <= r < Rows && 0 <= c < Columns
  }

  /** Two grids with the same cells are the same grid. */
  lemma GridExt<T>(a: Grid<T>, b: Grid<T>)
    requires IsGrid(a) && IsGrid(b)
    requires forall r, c :: InBounds(r, c) ==> a[r][c] == b[r][c]
    ensures a == b
  {
    forall r | 0 <= r < Rows ensures a[r] == b[r] {
      assert forall c :: 0 <= c < Columns ==> a[r][c] == b[r][c];
    }
  }

  /** `b` with cell (r, c) set to `v`: the line `board[r][c] = v`. */
  function Set<T>(b: Grid<T>, r: int, c: int, v: T): (b': Grid<T>)
    requires IsGrid(b) && InBounds(r, c)
    ensures IsGrid(b')
    ensures b'[r][c] == v
    ensures forall r', c' :: InBounds(r', c') && (r', c') != (r, c) ==> b'[r'][c'] == b[r'][c']
  {
    b[r := b[r][c := v]]
  }

  /** is_valid_move: the top cell of the column is `None`. */
  predicate IsValidMove(b: Grid<Value>, col: int)
    requires IsGrid(b) && 0 <= col < Columns
  {
    b[0][col] == Null
  }

  /** The row get_next_open_row returns: the scan from the bottom row upward
      stops at the first `blank` cell, so it is the largest row index whose cell
      in `col` is `blank`; `None` when the column holds no `blank` cell. */
  function OpenRow<T(==)>(b: Grid<T>, col: int, blank: T): (r: Option<int>)
    requires IsGrid(b) && 0 <= col < Columns
    ensures r.Some? ==> 0 <= r.value < Rows && b[r.value][col] == blank
    ensures r.Some? ==> forall k :: r.value < k < Rows ==> b[k][col] != blank
    ensures r.None? <==> forall k :: 0 <= k < Rows ==> b[k][col] != blank
  {
    OpenRowFrom(b, col, blank, Rows - 1)
  }

  function OpenRowFrom<T(==)>(b: Grid<T>, col: int, blank: T, row: int): (r: Option<int>)
    requires IsGrid(b) && 0 <= col < Columns && -1 <= row < Rows
    ensures r.Some? ==> 0 <= r.value <= row && b[r.value][col] == blank
    ensures r.Some? ==> forall k :: r.value < k <= row ==> b[k][col] != blank
    ensures r.None? <==> forall k :: 0 <= k <= row ==> b[k][col] != blank
    decreases row + 1
  {
    if row < 0 then None
    else if b[row][col] == blank then Some(row)
    else OpenRowFrom(b, col, blank, row - 1)
  }

  /** A blank cell with no blank cell below it is the open row. */
  lemma OpenRowUnique<T>(b: Grid<T>, col: int, blank: T, row: int)
    requires IsGrid(b) && 0 <= col < Columns && 0 <= row < Rows
    requires b[row][col] == blank
    requires forall k :: row < k < Rows ==> b[k][col] != blank
    ensures OpenRow(b, col, blank) == Some(row)
  {
  }

  /** get_next_open_row, the descending search loop. */
  method GetNextOpenRow(b: Grid<Value>, col: int) returns (r: Option<int>)
    requires IsGrid(b) && 0 <= col < Columns
    ensures r.Some? ==> 0 <= r.value < Rows && b[r.value][col] == Null
    ensures r.Some? ==> forall k :: r.value < k < Rows ==> b[k][col] != Null
    ensures r.None? <==> forall k :: 0 <= k < Rows ==> b[k][col] != Null
    ensures r == OpenRow(b, col, Null)
  {
    var row := Rows - 1;
    while row >= 0
      invariant -1 <= row < Rows
      invariant forall k :: row < k < Rows ==> b[k][col] != Null
    {
      if b[row][col] == Null {
        OpenRowUnique(b, col, Null, row);
        return Some(row);
      }
      row := row - 1;
    }
    return None;
  }

  /** A valid column always has an open row. */
  lemma ValidMoveHasOpenRow(b: Grid<Value>, col: int)
    requires IsGrid(b) && 0 <= col < Columns && IsValidMove(b, col)
    ensures OpenRow(b, col, Null).Some?
  {
  }

  /** The board after `piece` falls into `col`: a copy of `b` with `piece` at
      the open row of `col` (the scratch boards of find_best_move and
      apply_move, and the gravity loop of the browser engine). */
  function Drop<T(==)>(b: Grid<T>, col: int, blank: T, piece: T): (b': Grid<T>)
    requires IsGrid(b) && 0 <= col < Columns && OpenRow(b, col, blank).Some?
    ensures IsGrid(b')
  {
    Set(b, OpenRow(b, col, blank).value, col, piece)
  }

  /** The drop writes the piece into the open row of the column and changes
      no other cell. */
  lemma DropWritesOpenRow<T>(b: Grid<T>, col: int, blank: T, piece: T)
    requires IsGrid(b) && 0 <= col < Columns && OpenRow(b, col, blank).Some?
    ensures var r := OpenRow(b, col, blank).value;
      && Drop(b, col, blank, piece)[r][col] == piece
      && forall r', c' :: InBounds(r', c') && (r', c') != (r, col) ==> Drop(b, col, blank, piece)[r'][c'] == b[r'][c']
  {
  }

  /** Four cells from (r, c) in steps of (dr, dc), all inside the board and
      all equal to `p`: `all(board[..] == player for i in range(4))`. */
  predicate Window<T(==)>(b: Grid<T>, p: T, r: int, c: int, dr: int, dc: int)
    requires IsGrid(b)
  {
    forall i :: 0 <= i < 4 ==> InBounds(r + i * dr, c + i * dc) && b[r + i * dr][c + i * dc] == p
  }

  /** check_win: some horizontal, vertical, down-right or up-right window of
      four cells equals `p` in every cell, scanned over the same start ranges
      as the four loops of the source. */
  predicate CheckWin<T(==)>(b: Grid<T>, p: T)
    requires IsGrid(b)
  {
    || (exists r, c :: 0 <= r < Rows && 0 <= c < Columns - 3 && Window(b, p, r, c, 0, 1))
    || (exists c, r :: 0 <= c < Columns && 0 <= r < Rows - 3 && Window(b, p, r, c, 1, 0))
    || (exists r, c :: 0 <= r < Rows - 3 && 0 <= c < Columns - 3 && Window(b, p, r, c, 1, 1))
    || (exists r, c :: 3 <= r < Rows && 0 <= c < Columns - 3 && Window(b, p, r, c, -1, 1))
  }

  /** A column where dropping `q` completes a line of four for `q`: the test
      the two loops of find_best_move and the blocking loop of apply_move run on
      their scratch boards. */
  predicate WinsAt(b: Grid<Value>, col: int, q: Value)
    requires IsGrid(b) && 0 <= col < Columns
  {
    IsValidMove(b, col) && CheckWin(Drop(b, col, Null, q), q)
  }

  /** The scratch board of a valid column, written at its open row, is the
      board after the drop, so check_win on it is WinsAt. */
  lemma ScratchBoardIsDrop(b: Grid<Value>, col: int, row: int, q: Value, tempBoard: Grid<Value>)
    requires IsGrid(b) && 0 <= col < Columns && IsValidMove(b, col)
    requires OpenRow(b, col, Null) == Some(row) && tempBoard == b[row := b[row][col := q]]
    ensures CheckWin(tempBoard, q) == WinsAt(b, col, q)
  {
  }

  /** The body of the column loops of find_best_move and apply_move: whether
      `col` is valid and dropping `q` into a copy of the board gives `q` a
      line, with the open row of the column. */
  method TryColumn(b: Grid<Value>, col: int, q: Value) returns (wins: bool, row: int)
    requires IsGrid(b) && 0 <= col < Columns
    ensures wins == WinsAt(b, col, q)
    ensures wins ==> IsValidMove(b, col) && OpenRow(b, col, Null) == Some(row)
  {
    wins, row := false, -1;
    if IsValidMove(b, col) {
      ValidMoveHasOpenRow(b, col);
      var r := GetNextOpenRow(b, col);
      var tempBoard := b[r.value := b[r.value][col := q]];
      ScratchBoardIsDrop(b, col, r.value, q, tempBoard);
      wins := CheckWin(tempBoard, q);
      row := r.value;
    }
  }

  /** `[col for col in range(COLUMNS) if is_valid_move(board, col)]`. */
  function ValidColumns(b: Grid<Value>): (cols: seq<int>)
    requires IsGrid(b)
    ensures forall c :: c in cols <==> 0 <= c < Columns && IsValidMove(b, c)
    ensures forall j, k :: 0 <= j < k < |cols| ==> cols[j] < cols[k]
  {
    ValidColumnsFrom(b, 0)
  }

  function ValidColumnsFrom(b: Grid<Value>, from: int): (cols: seq<int>)
    requires IsGrid(b) && 0 <= from <= Columns
    ensures forall c :: c in cols <==> from <= c < Columns && IsValidMove(b, c)
    ensures forall j, k :: 0 <= j < k < |cols| ==> cols[j] < cols[k]
    ensures forall j :: 0 <= j < |cols| ==> from <= cols[j]
    decreases Columns - from
  {
    if from == Columns then []
    else if IsValidMove(b, from) then [from] + ValidColumnsFrom(b, from + 1)
    else ValidColumnsFrom(b, from + 1)
  }

  // ---------------------------------------------------------------------
  // Properties of the window test

  /** Whether a cell equals the player is all that check_win looks at: two
      boards that agree on that, cell by cell, agree on check_win. */
  lemma CheckWinTransfer<T, U>(b: Grid<T>, p: T, b2: Grid<U>, p2: U)
    requires IsGrid(b) && IsGrid(b2)
    requires forall r, c :: InBounds(r, c) ==> (b[r][c] == p <==> b2[r][c] == p2)
    ensures CheckWin(b, p) == CheckWin(b2, p2)
  {
    forall r, c, dr, dc ensures Window(b, p, r, c, dr, dc) == Window(b2, p2, r, c, dr, dc) {
    }
  }

  /** Writing `p` into a cell keeps every line of `p`. */
  lemma WriteKeepsLine<T>(b: Grid<T>, p: T, r0: int, c0: int)
    requires IsGrid(b) && InBounds(r0, c0) && CheckWin(b, p)
    ensures CheckWin(Set(b, r0, c0, p), p)
  {
    var b' := Set(b, r0, c0, p);
    forall r, c, dr, dc | Window(b, p, r, c, dr, dc) ensures Window(b', p, r, c, dr, dc) {
    }
  }

  /** No line for a player who owns no cell. */
  lemma NoPieceNoLine<T>(b: Grid<T>, p: T)
    requires IsGrid(b)
    requires forall r, c :: InBounds(r, c) ==> b[r][c] != p
    ensures !CheckWin(b, p)
  {
    forall r, c, dr, dc ensures !Window(b, p, r, c, dr, dc) {
      assert !(InBounds(r + 0 * dr, c + 0 * dc) && b[r + 0 * dr][c + 0 * dc] == p);
    }
  }

  /** A line needs four of the player's cells: a board on which the player owns
      exactly one cell (the one just written) has no line for them. */
  lemma SinglePieceNoLine<T>(b: Grid<T>, r0: int, c0: int, p: T)
    requires IsGrid(b) && InBounds(r0, c0)
    requires forall r, c :: InBounds(r, c) ==> b[r][c] != p
    ensures !CheckWin(Set(b, r0, c0, p), p)
  {
    var b' := Set(b, r0, c0, p);
    forall r, c, dr, dc | (dr, dc) != (0, 0) ensures !Window(b', p, r, c, dr, dc) {
      assert !(&& InBounds(r + 0 * dr, c + 0 * dc) && b'[r + 0 * dr][c + 0 * dc] == p
               && InBounds(r + 1 * dr, c + 1 * dc) && b'[r + 1 * dr][c + 1 * dc] == p);
    }
  }
}
