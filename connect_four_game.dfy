/** The state of the connect-four browser engine (public/connect4.js): the
    board, the colour to move, the two player types, the two scores and the
    draw counter, and the transitions that a click, an AI reply and the reset
    buttons make. The transitions are first stated as functions on a snapshot
    `Game`; the class `GameState` holds the module-level variables of the
    script and its methods are proved to perform those transitions. */
module ConnectFourGame {
  import opened Values
  import opened ConnectFourBoard
  import opened ConnectFourWin

  /** `Array(6).fill(null).map(() => Array(6).fill(null))`. */
  function EmptyBoard(): (b: Grid<Cell>)
    ensures IsGrid(b)
    ensures forall r, c :: InBounds(r, c) ==> b[r][c] == None
  {
    seq(Rows, r => seq(Columns, c => None))
  }

  /** `board.flat().every(cell => cell)`: no cell is `null`. */
  predicate IsFull(b: Grid<Cell>)
    requires IsGrid(b)
  {
    forall r, c :: 0 <= r < Rows && 0 <= c < Columns ==> b[r][c] != None
  }

  /** isGameOver: checkWin, or every cell filled. */
  predicate GameOver(b: Grid<Cell>)
    requires IsGrid(b)
  {
    RunLengthWin(b) || IsFull(b)
  }

  /** Gravity: an occupied cell is on the bottom row or on another piece. */
  predicate Settled(b: Grid<Cell>)
    requires IsGrid(b)
  {
    forall r, c {:trigger b[r][c]} :: 0 <= r < Rows - 1 && 0 <= c < Columns && b[r][c] != None ==> b[r + 1][c] != None
  }

  /** A snapshot of the module-level variables of the script. */
  datatype Game = Game(
    board: Grid<Cell>,
    currentPlayer: Color,
    redType: PlayerType,
    yellowType: PlayerType,
    redScore: nat,
    yellowScore: nat,
    drawCounter: nat)

  predicate ValidGame(g: Game) {
    IsGrid(g.board)
  }

  /** The state the script starts in (its first seven lines). */
  function Initial(): (g: Game)
    ensures ValidGame(g) && Settled(g.board) && !GameOver(g.board)
  {
    NoPieceNoLine(EmptyBoard(), Some(Red));
    NoPieceNoLine(EmptyBoard(), Some(Yellow));
    RunLengthWinIsLine(EmptyBoard());
    assert EmptyBoard()[0][0] == None;
    Game(EmptyBoard(), Red, Me, Me, 0, 0, 0)
  }

  /** The type of the player who plays `c`. */
  function TypeOf(g: Game, c: Color): PlayerType {
    if c == Red then g.redType else g.yellowType
  }

  /** updateScore(winner). */
  function ScoreFor(g: Game, winner: Color): (g': Game)
    ensures g'.redScore == g.redScore + (if winner == Red then 1 else 0)
    ensures g'.yellowScore == g.yellowScore + (if winner == Yellow then 1 else 0)
    ensures g'.(redScore := g.redScore, yellowScore := g.yellowScore) == g
  {
    match winner
    case Red => g.(redScore := g.redScore + 1)
    case Yellow => g.(yellowScore := g.yellowScore + 1)
  }

  /** resetBoard: an empty board with Red to move; nothing else changes. */
  function Cleared(g: Game): (g': Game)
    ensures ValidGame(g') && Settled(g'.board) && !GameOver(g'.board)
    ensures forall r, c :: InBounds(r, c) ==> g'.board[r][c] == None
    ensures g'.currentPlayer == Red
    ensures g'.(board := g.board, currentPlayer := g.currentPlayer) == g
  {
    g.(board := Initial().board, currentPlayer := Red)
  }

  /** resetGame: resetBoard, then both scores and the draw counter back to
      zero; the player types stay. */
  function Reset(g: Game): (g': Game)
    ensures g' == Initial().(redType := g.redType, yellowType := g.yellowType)
  {
    Cleared(g).(drawCounter := 0, redScore := 0, yellowScore := 0)
  }

  /** startGame: a fresh board with Red to move and the player types read
      from the radio buttons; the scores and the draw counter stay. */
  function Started(g: Game, redType: PlayerType, yellowType: PlayerType): (g': Game)
    ensures g' == Cleared(g).(redType := redType, yellowType := yellowType)
  {
    g.(board := EmptyBoard(), currentPlayer := Red, redType := redType, yellowType := yellowType)
  }

  /** What both move handlers do once the piece is on the board: a win scores
      for the mover and leaves the board as it is (the reset waits for a
      timer); a full board counts a draw and resets the board; otherwise the
      turn passes. */
  function Outcome(g: Game): (g': Game)
    requires ValidGame(g)
    ensures ValidGame(g')
    ensures g'.redType == g.redType && g'.yellowType == g.yellowType
    ensures RunLengthWin(g.board) ==>
      && g'.board == g.board && g'.currentPlayer == g.currentPlayer
      && g'.redScore == g.redScore + (if g.currentPlayer == Red then 1 else 0)
      && g'.yellowScore == g.yellowScore + (if g.currentPlayer == Yellow then 1 else 0)
      && g'.drawCounter == g.drawCounter
    ensures !RunLengthWin(g.board) && IsFull(g.board) ==>
      && g'.board == EmptyBoard() && g'.currentPlayer == Red
      && g'.redScore == g.redScore && g'.yellowScore == g.yellowScore
      && g'.drawCounter == g.drawCounter + 1
    ensures !GameOver(g.board) ==>
      && g'.board == g.board && g'.currentPlayer == Other(g.currentPlayer)
      && g'.redScore == g.redScore && g'.yellowScore == g.yellowScore
      && g'.drawCounter == g.drawCounter
  {
    if RunLengthWin(g.board) then ScoreFor(g, g.currentPlayer)
    else if IsFull(g.board) then Cleared(g.(drawCounter := g.drawCounter + 1))
    else g.(currentPlayer := Other(g.currentPlayer))
  }

  /** The gravity loop of handleClick: the mover's piece lands in the lowest
      empty cell of the column. */
  function Place(g: Game, col: int): (g': Game)
    requires ValidGame(g) && 0 <= col < Columns && OpenRow(g.board, col, None).Some?
    ensures ValidGame(g') && g'.(board := g.board) == g
    ensures exists r :: && 0 <= r < Rows && g.board[r][col] == None
                        && (forall k :: r < k < Rows ==> g.board[k][col] != None)
                        && g'.board[r][col] == Some(g.currentPlayer)
                        && forall r', c' :: InBounds(r', c') && (r', c') != (r, col) ==> g'.board[r'][c'] == g.board[r'][c']
  {
    g.(board := Drop(g.board, col, None, Some(g.currentPlayer)))
  }

  /** Whether handleClick(row, col) acts: it is a human's turn, the clicked
      cell is empty and the game is not over. */
  predicate Accepts(g: Game, row: int, col: int)
    requires ValidGame(g) && InBounds(row, col)
  {
    TypeOf(g, g.currentPlayer) == Me && g.board[row][col] == None && !GameOver(g.board)
  }

  /** handleClick(row, col). */
  function Click(g: Game, row: int, col: int): (g': Game)
    requires ValidGame(g) && InBounds(row, col)
    ensures ValidGame(g')
    ensures !Accepts(g, row, col) ==> g' == g
    ensures Accepts(g, row, col) ==> OpenRow(g.board, col, None).Some? && g' == Outcome(Place(g, col))
  {
    if TypeOf(g, g.currentPlayer) != Me then g
    else if g.board[row][col] != None || GameOver(g.board) then g
    else Outcome(Place(g, col))
  }

  /** The board-update branch of the reply handler of makeAIMove, for a reply
      `{row, col}` whose fields are integers or `null` (None). The write
      `board[row][col] = currentPlayer` is not guarded: it may overwrite a
      piece, ignore gravity and happen after the game is over. A `null` or
      out-of-range row makes `board[row]` undefined, the write throws and the
      catch handler leaves the state as it was; a `null` or out-of-range
      column writes a property outside the 36 cells, so the board as the
      script reads it is unchanged, and the outcome branch still runs. */
  function AIReply(g: Game, row: Option<int>, col: Option<int>): (g': Game)
    requires ValidGame(g)
    ensures ValidGame(g')
    ensures (row.None? || !(0 <= row.value < Rows)) ==> g' == g
    ensures row.Some? && 0 <= row.value < Rows && col.Some? && 0 <= col.value < Columns ==>
      g' == Outcome(g.(board := Set(g.board, row.value, col.value, Some(g.currentPlayer))))
    ensures row.Some? && 0 <= row.value < Rows && (col.None? || !(0 <= col.value < Columns)) ==>
      g' == Outcome(g)
  {
    if row.None? || !(0 <= row.value < Rows) then g
    else if col.Some? && 0 <= col.value < Columns then
      Outcome(g.(board := Set(g.board, row.value, col.value, Some(g.currentPlayer))))
    else Outcome(g)
  }

  // ---------------------------------------------------------------------
  // Properties of the transitions

  /** A click on an AI's turn changes nothing. */
  lemma ClickOnAITurnIgnored(g: Game, row: int, col: int)
    requires ValidGame(g) && InBounds(row, col) && TypeOf(g, g.currentPlayer) != Me
    ensures Click(g, row, col) == g
  {
  }

  /** After an accepted click that neither wins nor fills the board, the piece
      is the only change to the board, the turn passes and the counters stay. */
  lemma ClickPassesTurn(g: Game, row: int, col: int)
    requires ValidGame(g) && InBounds(row, col) && Accepts(g, row, col)
    requires !GameOver(Place(g, col).board)
    ensures Click(g, row, col) == Place(g, col).(currentPlayer := Other(g.currentPlayer))
  {
  }

  /** A click keeps the board settled under gravity. */
  lemma ClickKeepsSettled(g: Game, row: int, col: int)
    requires ValidGame(g) && InBounds(row, col) && Settled(g.board)
    ensures Settled(Click(g, row, col).board)
  {
    if Accepts(g, row, col) {
      DropKeepsSettled(g.board, col, Some(g.currentPlayer));
      assert Settled(Initial().board);
    }
  }

  /** The piece lands on the bottom row or on a piece, and the cell above it
      was empty, since it is not below an empty cell. */
  lemma DropKeepsSettled(b: Grid<Cell>, col: int, piece: Cell)
    requires IsGrid(b) && 0 <= col < Columns && OpenRow(b, col, None).Some? && Settled(b)
    ensures Settled(Drop(b, col, None, piece))
  {
    var b' := Drop(b, col, None, piece);
    var r0 := OpenRow(b, col, None).value;
    forall r, c {:trigger b'[r][c]} | 0 <= r < Rows - 1 && 0 <= c < Columns && b'[r][c] != None ensures b'[r + 1][c] != None {
      if c == col && r + 1 == r0 {
      } else if (r, c) != (r0, col) {
        assert b[r][c] != None;
      }
    }
  }

  /** The AI reply handler does not keep gravity: a reply may write a piece
      in mid-air. */
  lemma AIReplyMayFloat()
    ensures !Settled(AIReply(Initial(), Some(0), Some(0)).board)
  {
    var g := Initial();
    var b := Set(g.board, 0, 0, Some(Red));
    SinglePieceNoLine(g.board, 0, 0, Some(Red));
    NoPieceNoLine(b, Some(Yellow));
    RunLengthWinIsLine(b);
    assert b[1][0] == None;
  }

  /** Nothing stops a reply after a win: while the won board waits for its
      reset, a reply for the winner, who is still to move, writes a piece and
      scores the same line again. */
  lemma AIReplyAfterWinScoresAgain(g: Game, r: int, c: int)
    requires ValidGame(g) && InBounds(r, c) && CheckWin(g.board, Some(g.currentPlayer))
    ensures var g' := AIReply(g, Some(r), Some(c));
      && g'.redScore == g.redScore + (if g.currentPlayer == Red then 1 else 0)
      && g'.yellowScore == g.yellowScore + (if g.currentPlayer == Yellow then 1 else 0)
  {
    var b := Set(g.board, r, c, Some(g.currentPlayer));
    WriteKeepsLine(g.board, Some(g.currentPlayer), r, c);
    RunLengthWinIsLine(b);
  }

  /** A reply may overwrite the opponent's piece. */
  lemma AIReplyMayOverwrite(g: Game)
    requires ValidGame(g) && g.board[5][0] == Some(Other(g.currentPlayer))
    ensures AIReply(g, Some(5), Some(0)).board[5][0] == Some(g.currentPlayer)
         || AIReply(g, Some(5), Some(0)).board == EmptyBoard()
  {
  }

  // ---------------------------------------------------------------------
  // The board as the servers receive it

  /** JSON.stringify of a cell: `null`, "Red" or "Yellow". */
  function EncodeCell(c: Cell): Value {
    match c
    case None => Null
    case Some(Red) => Str("Red")
    case Some(Yellow) => Str("Yellow")
  }

  /** The two colour names differ, and neither is `null`. */
  lemma EncodeCellSeparates(c: Cell)
    ensures EncodeCell(c) == Str("Red") <==> c == Some(Red)
    ensures EncodeCell(c) == Str("Yellow") <==> c == Some(Yellow)
  {
    assert "Red"[0] != "Yellow"[0];
  }

  function Encode(b: Grid<Cell>): (v: Grid<Value>)
    requires IsGrid(b)
    ensures IsGrid(v)
    ensures forall r, c :: InBounds(r, c) ==> v[r][c] == EncodeCell(b[r][c])
  {
    seq(Rows, r requires 0 <= r < Rows => seq(Columns, c requires 0 <= c < Columns => EncodeCell(b[r][c])))
  }

  /** The browser's checkWin holds exactly when check_win of the servers finds
      a line for "Red" or for "Yellow" on the board sent to them. */
  lemma CheckWinMatchesServers(b: Grid<Cell>)
    requires IsGrid(b)
    ensures RunLengthWin(b) <==> CheckWin(Encode(b), Str("Red")) || CheckWin(Encode(b), Str("Yellow"))
  {
    var v := Encode(b);
    forall r, c | InBounds(r, c)
      ensures (b[r][c] == Some(Red) <==> v[r][c] == Str("Red"))
           && (b[r][c] == Some(Yellow) <==> v[r][c] == Str("Yellow"))
    {
      EncodeCellSeparates(b[r][c]);
    }
    RunLengthWinIsLine(b);
    CheckWinTransfer(b, Some(Red), v, Str("Red"));
    CheckWinTransfer(b, Some(Yellow), v, Str("Yellow"));
  }

  // ---------------------------------------------------------------------
  // The script's module-level state

  class GameState {
    var board: array2<Cell>
    var currentPlayer: Color
    var redType: PlayerType
    var yellowType: PlayerType
    var redScore: nat
    var yellowScore: nat
    var drawCounter: nat

    ghost predicate Valid()
      reads `board
    {
      board.Length0 == Rows && board.Length1 == Columns
    }

    /** The board as rows of cells. */
    function Cells(): (b: Grid<Cell>)
      reads `board, board
      requires Valid()
      ensures IsGrid(b)
      ensures forall r, c :: InBounds(r, c) ==> b[r][c] == board[r, c]
    {
      var a := board;
      seq(Rows, r requires 0 <= r < Rows reads a => seq(Columns, c requires 0 <= c < Columns reads a => a[r, c]))
    }

    function State(): (g: Game)
      reads this, board
      requires Valid()
      ensures ValidGame(g)
    {
      Game(Cells(), currentPlayer, redType, yellowType, redScore, yellowScore, drawCounter)
    }

    constructor()
      ensures Valid() && State() == Initial()
    {
      var a := new Cell[Rows, Columns]((r, c) => None);
      board := a;
      currentPlayer := Red;
      redType, yellowType := Me, Me;
      redScore, yellowScore, drawCounter := 0, 0, 0;
      new;
      GridExt(Cells(), Initial().board);
    }

    /** isGameOver. */
    method IsGameOver() returns (over: bool)
      requires Valid()
      ensures over == GameOver(Cells())
    {
      var won := CheckWinScan(Cells());
      over := won || IsFull(Cells());
    }

    /** updateScore(winner). */
    method UpdateScore(winner: Color)
      requires Valid()
      modifies this
      ensures Valid() && board == old(board)
      ensures State() == ScoreFor(old(State()), winner)
    {
      if winner == Red {
        redScore := redScore + 1;
      } else {
        yellowScore := yellowScore + 1;
      }
    }

    /** resetBoard: a new, empty board array and Red to move. */
    method ResetBoard()
      requires Valid()
      modifies this
      ensures Valid() && fresh(board)
      ensures State() == Cleared(old(State()))
    {
      board := new Cell[Rows, Columns]((r, c) => None);
      currentPlayer := Red;
      GridExt(Cells(), Initial().board);
    }

    /** resetGame. */
    method ResetGame()
      requires Valid()
      modifies this
      ensures Valid() && fresh(board)
      ensures State() == Reset(old(State()))
    {
      ResetBoard();
      drawCounter := 0;
      redScore := 0;
      yellowScore := 0;
    }

    /** startGame, with the two player types the radio buttons hold. */
    method StartGame(redChoice: PlayerType, yellowChoice: PlayerType)
      requires Valid()
      modifies this
      ensures Valid() && fresh(board)
      ensures State() == Started(old(State()), redChoice, yellowChoice)
    {
      board := new Cell[Rows, Columns]((r, c) => None);
      currentPlayer := Red;
      redType, yellowType := redChoice, yellowChoice;
      GridExt(Cells(), EmptyBoard());
    }

    /** The branch both handlers take after a piece is written. */
    method Conclude()
      requires Valid()
      modifies this
      ensures Valid()
      ensures State() == Outcome(old(State()))
    {
      var won := CheckWinScan(Cells());
      if won {
        UpdateScore(currentPlayer);
      } else if IsFull(Cells()) {
        drawCounter := drawCounter + 1;
        ResetBoard();
      } else {
        currentPlayer := if currentPlayer == Red then Yellow else Red;
      }
    }

    /** The gravity loop of handleClick: from the bottom row up, the first
        empty cell of the column receives the mover's piece. */
    method DropPiece(col: int)
      requires Valid() && 0 <= col < Columns && OpenRow(Cells(), col, None).Some?
      modifies board
      ensures Valid()
      ensures State() == Place(old(State()), col)
    {
      ghost var before := Cells();
      var i := Rows - 1;
      while i >= 0
        invariant -1 <= i < Rows
        invariant Cells() == before
        invariant forall k :: i < k < Rows ==> before[k][col] != None
      {
        if board[i, col] == None {
          board[i, col] := Some(currentPlayer);
          OpenRowUnique(before, col, None, i);
          GridExt(Cells(), Set(before, i, col, Some(currentPlayer)));
          return;
        }
        i := i - 1;
      }
    }

    /** handleClick(row, col). */
    method HandleClick(row: int, col: int)
      requires Valid() && InBounds(row, col)
      modifies this, board
      ensures Valid()
      ensures State() == Click(old(State()), row, col)
    {
      if (currentPlayer == Red && redType != Me) || (currentPlayer == Yellow && yellowType != Me) {
        return;
      }
      if board[row, col] == None {
        var over := IsGameOver();
        if !over {
          DropPiece(col);
          Conclude();
        }
      }
    }

    /** The board-update branch of the reply handler of makeAIMove. */
    method ApplyAIMove(row: Option<int>, col: Option<int>)
      requires Valid()
      modifies this, board
      ensures Valid()
      ensures State() == AIReply(old(State()), row, col)
    {
      if row.None? || row.value < 0 || row.value >= Rows {
        return;
      }
      if col.Some? && 0 <= col.value < Columns {
        ghost var before := Cells();
        board[row.value, col.value] := Some(currentPlayer);
        GridExt(Cells(), Set(before, row.value, col.value, Some(currentPlayer)));
      }
      Conclude();
    }
  }
}
