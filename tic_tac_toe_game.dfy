/** The state of the tic-tac-toe browser engine (public/tictactoe.js): nine
    cells, the mark to move, the two player types, the two scores and the
    draw counter, and the transitions of a click, an AI reply and the reset
    buttons. As for connect four, the transitions are functions on a
    snapshot `Game`, and the methods of class `GameState`, which holds the
    script's module-level variables, are proved to perform them. */
module TicTacToeGame {
  import opened Values
  import opened TicTacToeBoard

  datatype Mark = X | O

  /** A cell: `null` or a mark. */
  type Cell = Option<Mark>

  function Other(m: Mark): Mark {
    if m == X then O else X
  }

  function EmptyBoard(): (b: seq<Cell>)
    ensures |b| == Size && forall i :: 0 <= i < Size ==> b[i] == None
  {
    seq(Size, i => None)
  }

  /** `board.every(cell => cell)`. */
  predicate IsFull(b: seq<Cell>)
    requires |b| == Size
  {
    forall i :: 0 <= i < Size ==> b[i] != None
  }

  /** The length a JavaScript array cannot reach: array indices are the
      integers from 0 to 2^32 - 2. */
  const MaxLength := 0xFFFF_FFFF

  /** A reply's `move` names one of the nine cells. */
  predicate OnBoard(move: Option<int>) {
    move.Some? && 0 <= move.value < Size
  }

  /** A snapshot of the module-level variables of the script. The board
      array is its nine cells, its `length` and the keys outside the nine
      cells a reply has written since the array was created: `null` (None),
      a negative integer, or an integer of 9 or more. */
  datatype Game = Game(
    board: seq<Cell>,
    length: nat,
    extra: map<Option<int>, Mark>,
    currentPlayer: Mark,
    xType: PlayerType,
    oType: PlayerType,
    xScore: nat,
    oScore: nat,
    drawCounter: nat)

  predicate ValidGame(g: Game) {
    |g.board| == Size && Size <= g.length <= MaxLength
  }

  /** checkWin: the pattern table checked for the mark to move only. */
  predicate CurrentWins(g: Game)
    requires ValidGame(g)
  {
    CheckWin(g.board, Some(g.currentPlayer))
  }

  /** isGameOver: checkWin, or every cell filled. */
  predicate GameOver(g: Game)
    requires ValidGame(g)
  {
    CurrentWins(g) || IsFull(g.board)
  }

  function TypeOf(g: Game, m: Mark): PlayerType {
    if m == X then g.xType else g.oType
  }

  /** The state the script starts in (its first seven lines). */
  function Initial(): (g: Game)
    ensures ValidGame(g) && NoLine(g.board) && !GameOver(g)
  {
    NoLineOnEmpty();
    assert EmptyBoard()[0] == None;
    Game(EmptyBoard(), Size, map[], X, Me, Me, 0, 0, 0)
  }

  /** resetBoard: a new array of nine `null` cells, without the keys
      written past them, and X to move; nothing else changes. */
  function Cleared(g: Game): (g': Game)
    ensures ValidGame(g') && g'.board == EmptyBoard() && g'.currentPlayer == X
    ensures g'.length == Size && g'.extra == map[]
    ensures g'.(board := g.board, length := g.length, extra := g.extra, currentPlayer := g.currentPlayer) == g
  {
    g.(board := EmptyBoard(), length := Size, extra := map[], currentPlayer := X)
  }

  /** updateScore(winner): the winner's score rises by one and the board is
      reset. */
  function ScoreFor(g: Game, winner: Mark): (g': Game)
    ensures g'.xScore == g.xScore + (if winner == X then 1 else 0)
    ensures g'.oScore == g.oScore + (if winner == O then 1 else 0)
    ensures g'.(xScore := g.xScore, oScore := g.oScore) == Cleared(g)
  {
    match winner
    case X => Cleared(g.(xScore := g.xScore + 1))
    case O => Cleared(g.(oScore := g.oScore + 1))
  }

  /** startGame, with the player types the radio buttons hold; resetGame
      runs it too. Scores and draws stay. */
  function Started(g: Game, xType: PlayerType, oType: PlayerType): (g': Game)
    ensures g' == Cleared(g).(xType := xType, oType := oType)
  {
    g.(board := EmptyBoard(), length := Size, extra := map[], currentPlayer := X, xType := xType, oType := oType)
  }

  /** What both move handlers do once the mark is written: a line of the
      mover scores and resets the board; a full board counts a draw and
      resets the board; otherwise the turn passes. */
  function Outcome(g: Game): (g': Game)
    requires ValidGame(g)
    ensures ValidGame(g')
    ensures g'.xType == g.xType && g'.oType == g.oType
    ensures GameOver(g) ==> g'.length == Size && g'.extra == map[]
    ensures CurrentWins(g) ==>
      && g'.board == EmptyBoard() && g'.currentPlayer == X
      && g'.xScore == g.xScore + (if g.currentPlayer == X then 1 else 0)
      && g'.oScore == g.oScore + (if g.currentPlayer == O then 1 else 0)
      && g'.drawCounter == g.drawCounter
    ensures !CurrentWins(g) && IsFull(g.board) ==>
      && g'.board == EmptyBoard() && g'.currentPlayer == X
      && g'.xScore == g.xScore && g'.oScore == g.oScore
      && g'.drawCounter == g.drawCounter + 1
    ensures !GameOver(g) ==>
      && g'.board == g.board && g'.length == g.length && g'.extra == g.extra
      && g'.currentPlayer == Other(g.currentPlayer)
      && g'.xScore == g.xScore && g'.oScore == g.oScore
      && g'.drawCounter == g.drawCounter
  {
    if CurrentWins(g) then ScoreFor(g, g.currentPlayer)
    else if IsFull(g.board) then Cleared(g.(drawCounter := g.drawCounter + 1))
    else g.(currentPlayer := Other(g.currentPlayer))
  }

  /** The mover's mark written at `index`, before the outcome branch. */
  function Write(g: Game, index: int): (g': Game)
    requires ValidGame(g) && 0 <= index < Size
    ensures ValidGame(g') && g'.(board := g.board) == g
    ensures g'.board[index] == Some(g.currentPlayer)
    ensures forall i :: 0 <= i < Size && i != index ==> g'.board[i] == g.board[i]
  {
    g.(board := g.board[index := Some(g.currentPlayer)])
  }

  /** Whether handleClick(index) acts: the cell is empty, the game is not
      over and it is a human's turn. */
  predicate Accepts(g: Game, index: int)
    requires ValidGame(g) && 0 <= index < Size
  {
    g.board[index] == None && !GameOver(g) && TypeOf(g, g.currentPlayer) == Me
  }

  /** handleClick(index). */
  function Click(g: Game, index: int): (g': Game)
    requires ValidGame(g) && 0 <= index < Size
    ensures ValidGame(g')
    ensures !Accepts(g, index) ==> g' == g
    ensures Accepts(g, index) ==> g' == Outcome(Write(g, index))
  {
    if Accepts(g, index) then Outcome(Write(g, index)) else g
  }

  /** `board[move] = currentPlayer` for a key outside the nine cells: the
      key now holds the mark, and an array index at or past the length
      grows the array to just past it. The nine cells do not change. */
  function WriteOff(g: Game, move: Option<int>): (g': Game)
    requires ValidGame(g) && !OnBoard(move)
    ensures ValidGame(g') && g'.board == g.board
    ensures g'.extra == g.extra[move := g.currentPlayer]
    ensures g'.length == if move.Some? && g.length <= move.value < MaxLength then move.value + 1 else g.length
    ensures g'.(length := g.length, extra := g.extra) == g
  {
    var length := if move.Some? && g.length <= move.value < MaxLength then move.value + 1 else g.length;
    g.(length := length, extra := g.extra[move := g.currentPlayer])
  }

  /** `!board[move]`: a cell reads empty when it holds `null`; a key outside
      the nine cells reads `undefined`, which is empty too, until a reply
      has written a mark there. */
  predicate ReadsEmpty(g: Game, move: Option<int>)
    requires ValidGame(g)
  {
    if OnBoard(move) then g.board[move.value] == None else move !in g.extra
  }

  /** The reply handler of makeAIMove for a reply whose `move` is an integer
      or `null` (None): when the key reads empty and the game is not over,
      the mark is written there and the outcome branch runs; otherwise
      nothing changes. A key outside the nine cells leaves the cells as they
      are, so its outcome is the turn passing. */
  function AIReply(g: Game, move: Option<int>): (g': Game)
    requires ValidGame(g)
    ensures ValidGame(g')
    ensures !ReadsEmpty(g, move) || GameOver(g) ==> g' == g
    ensures ReadsEmpty(g, move) && !GameOver(g) && OnBoard(move) ==> g' == Outcome(Write(g, move.value))
    ensures ReadsEmpty(g, move) && !GameOver(g) && !OnBoard(move) ==>
      && g' == Outcome(WriteOff(g, move))
      && g'.board == g.board && g'.currentPlayer == Other(g.currentPlayer)
      && move in g'.extra
  {
    if !ReadsEmpty(g, move) || GameOver(g) then g
    else if OnBoard(move) then Outcome(Write(g, move.value))
    else Outcome(WriteOff(g, move))
  }

  // ---------------------------------------------------------------------
  // Properties

  /** checkWin looks at the mark to move only: a line of the other mark
      does not end the game, and an empty cell is still played, by a click
      on a human's turn and by a reply. */
  lemma OtherLineIgnored(g: Game, index: int)
    requires ValidGame(g) && 0 <= index < Size && g.board[index] == None
    requires CheckWin(g.board, Some(Other(g.currentPlayer))) && !CheckWin(g.board, Some(g.currentPlayer))
    ensures !GameOver(g)
    ensures TypeOf(g, g.currentPlayer) == Me ==> Click(g, index) == Outcome(Write(g, index))
    ensures AIReply(g, Some(index)) == Outcome(Write(g, index))
  {
    assert !IsFull(g.board);
  }

  /** Such states exist: O holds the top row, X is to move and the middle
      row is empty. */
  lemma OtherLineBoard()
    ensures var g := Initial().(board := [Some(O), Some(O), Some(O), None, None, None, None, None, None]);
      && ValidGame(g) && g.currentPlayer == X && g.board[3] == None
      && CheckWin(g.board, Some(O)) && !CheckWin(g.board, Some(X))
  {
    var g := Initial().(board := [Some(O), Some(O), Some(O), None, None, None, None, None, None]);
    CheckWinIsLine(g.board, Some(X));
    assert PatternHolds(g.board, Some(O), WinPatterns[0]);
  }

  /** A reply outside the nine cells on a game that is not over passes the
      turn and leaves its mark under that key, so the same reply once more
      reads a mark there and is ignored. */
  lemma RepeatedOffBoardReplyIgnored(g: Game, move: Option<int>)
    requires ValidGame(g) && !OnBoard(move) && move !in g.extra && !GameOver(g)
    ensures var g1 := AIReply(g, move);
      && g1.board == g.board && g1.currentPlayer == Other(g.currentPlayer)
      && AIReply(g1, move) == g1
  {
    assert ReadsEmpty(g, move);
    var g1 := AIReply(g, move);
    assert move in g1.extra;
    assert !ReadsEmpty(g1, move);
  }

  /** From the start, two `null` replies leave O to move: the first passes
      the turn, the second is ignored. */
  lemma TwoNullReplies()
    ensures AIReply(AIReply(Initial(), None), None).currentPlayer == O
  {
    RepeatedOffBoardReplyIgnored(Initial(), None);
  }

  /** A board with no line for either mark. */
  predicate NoLine(b: seq<Cell>)
    requires |b| == Size
  {
    !CheckWin(b, Some(X)) && !CheckWin(b, Some(O))
  }

  /** Writing a mark creates no line for the other mark. */
  lemma WriteKeepsOtherLineless(b: seq<Cell>, i: int, m: Mark)
    requires |b| == Size && 0 <= i < Size && !CheckWin(b, Some(Other(m)))
    ensures !CheckWin(b[i := Some(m)], Some(Other(m)))
  {
    var b' := b[i := Some(m)];
    forall k | 0 <= k < |WinPatterns| ensures !PatternHolds(b', Some(Other(m)), WinPatterns[k]) {
      assert !PatternHolds(b, Some(Other(m)), WinPatterns[k]);
      var j :| 0 <= j < |WinPatterns[k]| && b[WinPatterns[k][j]] != Some(Other(m));
      assert b'[WinPatterns[k][j]] != Some(Other(m));
    }
  }

  /** Because a line of the mover resets the board at once, no state the
      handlers reach holds a line: the only-the-mover test of checkWin never
      misses a finished game. */
  lemma OutcomeOfMarkHasNoLine(g: Game, index: int)
    requires ValidGame(g) && 0 <= index < Size && NoLine(g.board)
    ensures NoLine(Outcome(Write(g, index)).board)
  {
    var p := Write(g, index);
    assert Other(Other(g.currentPlayer)) == g.currentPlayer;
    WriteKeepsOtherLineless(g.board, index, g.currentPlayer);
    if !CurrentWins(p) && !IsFull(p.board) {
      assert NoLine(p.board) by {
        if g.currentPlayer == X {
          assert !CheckWin(p.board, Some(X)) && !CheckWin(p.board, Some(O));
        } else {
          assert !CheckWin(p.board, Some(O)) && !CheckWin(p.board, Some(X));
        }
      }
    } else {
      NoLineOnEmpty();
    }
  }

  lemma NoLineOnEmpty()
    ensures NoLine(EmptyBoard())
  {
    CheckWinIsLine(EmptyBoard(), Some(X));
    CheckWinIsLine(EmptyBoard(), Some(O));
  }

  /** Clicks and AI replies keep the board free of lines. */
  lemma HandlersKeepNoLine(g: Game, index: int, move: Option<int>)
    requires ValidGame(g) && 0 <= index < Size && NoLine(g.board)
    ensures NoLine(Click(g, index).board)
    ensures NoLine(AIReply(g, move).board)
  {
    OutcomeOfMarkHasNoLine(g, index);
    if OnBoard(move) {
      OutcomeOfMarkHasNoLine(g, move.value);
    } else {
      NoLineOnEmpty();
    }
  }

  // ---------------------------------------------------------------------
  // The board as the servers receive it

  /** JSON.stringify of a cell: `null`, "X" or "O". */
  function EncodeCell(c: Cell): Value {
    match c
    case None => Null
    case Some(X) => Str("X")
    case Some(O) => Str("O")
  }

  function Encode(b: seq<Cell>): (v: seq<Value>)
    ensures |v| == |b| && forall i :: 0 <= i < |b| ==> v[i] == EncodeCell(b[i])
  {
    seq(|b|, i requires 0 <= i < |b| => EncodeCell(b[i]))
  }

  /** The name a mark has on the wire. */
  function Name(m: Mark): Value {
    if m == X then Str("X") else Str("O")
  }

  /** The `board` of the request body: JSON.stringify sends one value per
      index below the length, the nine cells and then the elements past
      them, a hole as `null`; the `null` key and the negative keys are not
      sent. */
  function Wire(g: Game): (v: seq<Value>)
    requires ValidGame(g)
    ensures |v| == g.length && v[..Size] == Encode(g.board)
    ensures forall i :: Size <= i < g.length ==>
      v[i] == if Some(i) in g.extra then Name(g.extra[Some(i)]) else Null
  {
    var v := seq(g.length, i requires 0 <= i < g.length =>
      if i < Size then EncodeCell(g.board[i])
      else if Some(i) in g.extra then Name(g.extra[Some(i)]) else Null);
    assert v[..Size] == Encode(g.board);
    v
  }

  /** Until a reply writes past the nine cells the servers receive exactly
      the nine cells. */
  lemma WireOfNineCells(g: Game)
    requires ValidGame(g) && g.length == Size
    ensures Wire(g) == Encode(g.board)
  {
    assert Wire(g) == Wire(g)[..Size];
  }

  /** A reply of 10 on the empty board grows the array to eleven elements:
      the servers receive the mark at index 10 and `null` at index 9, so
      get_available_moves lists 9 as a free cell. */
  lemma GrownBoardListsHole()
    ensures var v := Wire(AIReply(Initial(), Some(10)));
      |v| == 11 && v[10] == Str("X") && 9 in AvailableMoves(v)
  {
    var g := Initial();
    assert ReadsEmpty(g, Some(10));
    var g1 := AIReply(g, Some(10));
    assert g1 == Outcome(WriteOff(g, Some(10)));
    assert g1.length == 11 && g1.extra == map[Some(10) := X];
    var v := Wire(g1);
    assert v[9] == Null;
  }

  /** The browser's test for a mark and the servers' check_win for its name
      agree on the board sent to them. */
  lemma CheckWinMatchesServers(b: seq<Cell>, m: Mark)
    requires |b| == Size
    ensures CheckWin(b, Some(m)) == CheckWin(Encode(b), Name(m))
  {
    var v := Encode(b);
    forall i | 0 <= i < Size ensures b[i] == Some(m) <==> v[i] == Name(m) {
      assert "X"[0] != "O"[0];
    }
    CheckWinTransfer(b, Some(m), v, Name(m));
  }

  // ---------------------------------------------------------------------
  // The script's module-level state

  class GameState {
    /** The nine cells of the board array. */
    var board: array<Cell>
    /** The array's length and the keys outside the nine cells it holds. */
    var length: nat
    var extra: map<Option<int>, Mark>
    var currentPlayer: Mark
    var xType: PlayerType
    var oType: PlayerType
    var xScore: nat
    var oScore: nat
    var drawCounter: nat

    ghost predicate Valid()
      reads this
    {
      board.Length == Size && Size <= length <= MaxLength
    }

    function State(): (g: Game)
      reads this, board
      requires Valid()
      ensures ValidGame(g)
    {
      Game(board[..], length, extra, currentPlayer, xType, oType, xScore, oScore, drawCounter)
    }

    constructor()
      ensures Valid() && State() == Initial()
    {
      board := new Cell[Size](i => None);
      length, extra := Size, map[];
      currentPlayer := X;
      xType, oType := Me, Me;
      xScore, oScore, drawCounter := 0, 0, 0;
      new;
      assert board[..] == EmptyBoard();
    }

    /** resetBoard: a new array of nine `null` cells and X to move. */
    method ResetBoard()
      requires Valid()
      modifies this
      ensures Valid() && fresh(board)
      ensures State() == Cleared(old(State()))
    {
      board := new Cell[Size](i => None);
      length, extra := Size, map[];
      currentPlayer := X;
      assert board[..] == EmptyBoard();
    }

    /** updateScore(winner). */
    method UpdateScore(winner: Mark)
      requires Valid()
      modifies this
      ensures Valid() && fresh(board)
      ensures State() == ScoreFor(old(State()), winner)
    {
      if winner == X {
        xScore := xScore + 1;
      } else {
        oScore := oScore + 1;
      }
      ResetBoard();
    }

    /** startGame, with the two player types the radio buttons hold. */
    method StartGame(xChoice: PlayerType, oChoice: PlayerType)
      requires Valid()
      modifies this
      ensures Valid() && fresh(board)
      ensures State() == Started(old(State()), xChoice, oChoice)
    {
      board := new Cell[Size](i => None);
      length, extra := Size, map[];
      currentPlayer := X;
      xType, oType := xChoice, oChoice;
      assert board[..] == EmptyBoard();
    }

    /** resetGame: startGame. */
    method ResetGame(xChoice: PlayerType, oChoice: PlayerType)
      requires Valid()
      modifies this
      ensures Valid() && fresh(board)
      ensures State() == Started(old(State()), xChoice, oChoice)
    {
      StartGame(xChoice, oChoice);
    }

    /** The branch both handlers take after a mark is written. */
    method Conclude()
      requires Valid()
      modifies this
      ensures Valid()
      ensures State() == Outcome(old(State()))
    {
      if CheckWin(board[..], Some(currentPlayer)) {
        UpdateScore(currentPlayer);
      } else if IsFull(board[..]) {
        drawCounter := drawCounter + 1;
        ResetBoard();
      } else {
        currentPlayer := if currentPlayer == X then O else X;
      }
    }

    /** handleClick(index). */
    method HandleClick(index: int)
      requires Valid() && 0 <= index < Size
      modifies this, board
      ensures Valid()
      ensures State() == Click(old(State()), index)
    {
      var human := (currentPlayer == X && xType == Me) || (currentPlayer == O && oType == Me);
      if board[index] == None && !GameOver(State()) && human {
        board[index] := Some(currentPlayer);
        Conclude();
      }
    }

    /** The reply handler of makeAIMove. */
    method ApplyAIMove(move: Option<int>)
      requires Valid()
      modifies this, board
      ensures Valid()
      ensures State() == AIReply(old(State()), move)
    {
      if OnBoard(move) {
        if board[move.value] == None && !GameOver(State()) {
          board[move.value] := Some(currentPlayer);
          Conclude();
        }
      } else if move !in extra && !GameOver(State()) {
        extra := extra[move := currentPlayer];
        if move.Some? && length <= move.value < MaxLength {
          length := move.value + 1;
        }
        Conclude();
      }
    }
  }
}
