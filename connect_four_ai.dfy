/** The rule-based connect-four server (c4_ai.py): win if a column wins,
    otherwise block a column where the opponent would win, otherwise play a
    random valid column. */
module ConnectFourAI {
  import opened Values
  import opened ConnectFourBoard

  /** A reply `(row, col)`. */
  datatype Move = Move(row: int, col: int)

  /** The lowest column, from `from` on, where dropping `q` completes a line
      for `q`. */
  function LowestWinning(b: Grid<Value>, q: Value, from: int): Option<int>
    requires IsGrid(b) && 0 <= from <= Columns
    decreases Columns - from
  {
    if from == Columns then None
    else if WinsAt(b, from, q) then Some(from)
    else LowestWinning(b, q, from + 1)
  }

  /** What LowestWinning means: a winning column with no winning column
      before it, or None exactly when no column from `from` on wins. */
  lemma {:induction false} LowestWinningIsLowest(b: Grid<Value>, q: Value, from: int)
    requires IsGrid(b) && 0 <= from <= Columns
    ensures var c := LowestWinning(b, q, from);
      && (c.Some? ==> from <= c.value < Columns && WinsAt(b, c.value, q))
      && (c.Some? ==> forall k :: from <= k < c.value ==> !WinsAt(b, k, q))
      && (c.None? <==> forall k :: from <= k < Columns ==> !WinsAt(b, k, q))
    decreases Columns - from
  {
    if from < Columns && !WinsAt(b, from, q) {
      LowestWinningIsLowest(b, q, from + 1);
      var c := LowestWinning(b, q, from + 1);
      if c.Some? {
        forall k | from <= k < c.value ensures !WinsAt(b, k, q) {
          if k != from {
            assert from + 1 <= k < c.value;
          }
        }
      }
    }
  }

  /** One step of the search: the lowest winning column from `col` on is
      `col` itself when it wins, else the lowest from `col + 1` on. */
  lemma LowestWinningStep(b: Grid<Value>, q: Value, col: int, wins: bool)
    requires IsGrid(b) && 0 <= col < Columns && wins == WinsAt(b, col, q)
    ensures wins ==> LowestWinning(b, q, col) == Some(col)
    ensures !wins ==> LowestWinning(b, q, col) == LowestWinning(b, q, col + 1)
  {
  }

  /** A move the random fallback may return: a valid column and its open row. */
  predicate IsDropMove(b: Grid<Value>, m: Move)
    requires IsGrid(b)
  {
    0 <= m.col < Columns && IsValidMove(b, m.col) && OpenRow(b, m.col, Null) == Some(m.row)
  }

  /** find_random_move: some valid column, chosen by `random.choice`, with its
      open row; `(None, None)` (here None) when no column is valid. */
  method FindRandomMove(b: Grid<Value>) returns (m: Option<Move>)
    requires IsGrid(b)
    ensures m.Some? ==> IsDropMove(b, m.value)
    ensures m.None? <==> forall c :: 0 <= c < Columns ==> !IsValidMove(b, c)
  {
    var validMoves := ValidColumns(b);
    if |validMoves| > 0 {
      var col :| col in validMoves;
      ValidMoveHasOpenRow(b, col);
      var row := GetNextOpenRow(b, col);
      return Some(Move(row.value, col));
    }
    return None;
  }

  /** One column of that loop: the scratch-board test of column `col`, as a
      step of the search for the lowest winning column. */
  method SearchStep(b: Grid<Value>, q: Value, col: int) returns (wins: bool, row: int)
    requires IsGrid(b) && 0 <= col < Columns
    ensures wins ==> LowestWinning(b, q, col) == Some(col) && IsDropMove(b, Move(row, col))
    ensures !wins ==> LowestWinning(b, q, col) == LowestWinning(b, q, col + 1)
  {
    wins, row := TryColumn(b, col, q);
    LowestWinningStep(b, q, col, wins);
  }

  /** One loop of find_best_move: the first valid column whose scratch board,
      with `q` dropped in it, has a line for `q`. */
  method FirstWinningColumn(b: Grid<Value>, q: Value) returns (m: Option<Move>)
    requires IsGrid(b)
    ensures m.None? <==> LowestWinning(b, q, 0).None?
    ensures m.Some? ==> m.value.col == LowestWinning(b, q, 0).value && IsDropMove(b, m.value)
  {
    var col := 0;
    while col < Columns
      invariant 0 <= col <= Columns
      invariant LowestWinning(b, q, 0) == LowestWinning(b, q, col)
    {
      var wins, row := SearchStep(b, q, col);
      if wins {
        return Some(Move(row, col));
      }
      col := col + 1;
    }
    return None;
  }

  /** find_best_move: the lowest winning column, else the lowest column where
      the computed opponent would win, else the random fallback. Each result
      is a valid column with its open row; the input board is a value and is
      not changed (the scratch boards are copies). */
  method FindBestMove(b: Grid<Value>, player: Value) returns (m: Option<Move>)
    requires IsGrid(b)
    ensures m.Some? ==> IsDropMove(b, m.value)
    ensures LowestWinning(b, player, 0).Some? ==>
      m.Some? && m.value.col == LowestWinning(b, player, 0).value
    ensures LowestWinning(b, player, 0).None? && LowestWinning(b, Opponent(player), 0).Some? ==>
      m.Some? && m.value.col == LowestWinning(b, Opponent(player), 0).value
    ensures m.None? <==> forall c :: 0 <= c < Columns ==> !IsValidMove(b, c)
  {
    var opponent := Opponent(player);
    m := FirstWinningColumn(b, player);
    if m.Some? {
      return;
    }
    m := FirstWinningColumn(b, opponent);
    if m.Some? {
      return;
    }
    m := FindRandomMove(b);
  }

  /** On a board of the browser, which holds only `null`, "Red" and "Yellow",
      the opponent "X" owns no cell, so dropping one "X" never makes a line
      and the blocking loop never fires: the rule-based player wins when it
      can and otherwise plays at random. */
  lemma NoBlockOnColourBoards(b: Grid<Value>, player: Value)
    requires IsGrid(b) && player != Str("X")
    requires forall r, c :: InBounds(r, c) ==> b[r][c] != Str("X")
    ensures LowestWinning(b, Opponent(player), 0).None?
  {
    forall k | 0 <= k < Columns ensures !WinsAt(b, k, Str("X")) {
      if IsValidMove(b, k) {
        SinglePieceNoLine(b, OpenRow(b, k, Null).value, k, Str("X"));
      }
    }
    LowestWinningIsLowest(b, Str("X"), 0);
  }
}
