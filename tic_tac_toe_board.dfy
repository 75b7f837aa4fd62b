/** The board helpers of the tic-tac-toe servers (tictactoe_ai.py and
    tictactoe_q_learning.py hold the same code): nine cells indexed 0..8 row
    by row, the free cells, and the test against the eight winning patterns.
    The test is generic in the cell type; the browser script checks the same
    table. */
module TicTacToeBoard {
  import opened Values

  const Size: int := 9

  type CellIndex = i: int | 0 <= i < 9

  /** `win_patterns`: the three rows, the three columns, the two diagonals. */
  const WinPatterns: seq<seq<CellIndex>> := [
    [0, 1, 2], [3, 4, 5], [6, 7, 8],
    [0, 3, 6], [1, 4, 7], [2, 5, 8],
    [0, 4, 8], [2, 4, 6]
  ]

  /** `all(board[i] == player for i in pattern)`. */
  predicate PatternHolds<T(==)>(b: seq<T>, p: T, pattern: seq<CellIndex>)
    requires |b| == Size
  {
    forall i :: 0 <= i < |pattern| ==> b[pattern[i]] == p
  }

  /** check_win: `any` pattern of the table holds. */
  predicate CheckWin<T(==)>(b: seq<T>, p: T)
    requires |b| == Size
  {
    exists k :: 0 <= k < |WinPatterns| && PatternHolds(b, p, WinPatterns[k])
  }

  /** Three cells equal to `p`. */
  predicate Three<T(==)>(b: seq<T>, p: T, i: CellIndex, j: CellIndex, k: CellIndex)
    requires |b| == Size
  {
    b[i] == p && b[j] == p && b[k] == p
  }

  /** The table read as the eight lines of the board: check_win holds
      exactly when a row, a column or a diagonal is all `p`. */
  lemma CheckWinIsLine<T>(b: seq<T>, p: T)
    requires |b| == Size
    ensures CheckWin(b, p) <==>
      || Three(b, p, 0, 1, 2) || Three(b, p, 3, 4, 5) || Three(b, p, 6, 7, 8)
      || Three(b, p, 0, 3, 6) || Three(b, p, 1, 4, 7) || Three(b, p, 2, 5, 8)
      || Three(b, p, 0, 4, 8) || Three(b, p, 2, 4, 6)
  {
    forall k | 0 <= k < |WinPatterns|
      ensures PatternHolds(b, p, WinPatterns[k]) <==>
        Three(b, p, WinPatterns[k][0], WinPatterns[k][1], WinPatterns[k][2])
    {
      assert |WinPatterns[k]| == 3;
    }
    if Three(b, p, 0, 1, 2) { assert PatternHolds(b, p, WinPatterns[0]); }
    if Three(b, p, 3, 4, 5) { assert PatternHolds(b, p, WinPatterns[1]); }
    if Three(b, p, 6, 7, 8) { assert PatternHolds(b, p, WinPatterns[2]); }
    if Three(b, p, 0, 3, 6) { assert PatternHolds(b, p, WinPatterns[3]); }
    if Three(b, p, 1, 4, 7) { assert PatternHolds(b, p, WinPatterns[4]); }
    if Three(b, p, 2, 5, 8) { assert PatternHolds(b, p, WinPatterns[5]); }
    if Three(b, p, 0, 4, 8) { assert PatternHolds(b, p, WinPatterns[6]); }
    if Three(b, p, 2, 4, 6) { assert PatternHolds(b, p, WinPatterns[7]); }
  }

  /** Whether a cell equals the player is all that check_win looks at. */
  lemma CheckWinTransfer<T, U>(b: seq<T>, p: T, b2: seq<U>, p2: U)
    requires |b| == Size && |b2| == Size
    requires forall i :: 0 <= i < Size ==> (b[i] == p <==> b2[i] == p2)
    ensures CheckWin(b, p) == CheckWin(b2, p2)
  {
    forall k | 0 <= k < |WinPatterns|
      ensures PatternHolds(b, p, WinPatterns[k]) == PatternHolds(b2, p2, WinPatterns[k])
    {
    }
  }

  /** get_available_moves: `[i for i, cell in enumerate(board) if cell is None]`. */
  function AvailableMoves(b: seq<Value>): (moves: seq<int>)
    ensures forall i :: i in moves <==> 0 <= i < |b| && b[i] == Null
    ensures forall j :: 0 <= j < |moves| ==> 0 <= moves[j] < |b| && b[moves[j]] == Null
    ensures forall j, k :: 0 <= j < k < |moves| ==> moves[j] < moves[k]
  {
    AvailableFrom(b, 0)
  }

  function AvailableFrom(b: seq<Value>, from: nat): (moves: seq<int>)
    requires from <= |b|
    ensures forall i :: i in moves <==> from <= i < |b| && b[i] == Null
    ensures forall j :: 0 <= j < |moves| ==> from <= moves[j] < |b| && b[moves[j]] == Null
    ensures forall j, k :: 0 <= j < k < |moves| ==> moves[j] < moves[k]
    decreases |b| - from
  {
    if from == |b| then []
    else if b[from] == Null then [from] + AvailableFrom(b, from + 1)
    else AvailableFrom(b, from + 1)
  }

  /** The first free cell, when there is one, is the head of the list. */
  lemma FirstAvailable(b: seq<Value>)
    requires |AvailableMoves(b)| > 0
    ensures var m := AvailableMoves(b)[0];
      0 <= m < |b| && b[m] == Null && forall i :: 0 <= i < m ==> b[i] != Null
  {
    var moves := AvailableMoves(b);
    assert moves[0] in moves;
  }
}
