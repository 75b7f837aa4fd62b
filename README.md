# Connect four and tic-tac-toe: a verified model of the game rules

This project models the rules of a small two-game site.

- **Browser engines.** The scripts `public/connect4.js` and `public/tictactoe.js` hold the board, the player to move, the two scores and the draw counter in module-level variables. They update these on a click, on an AI reply and on the reset buttons.
- **Rule-based servers.** `c4_ai.py` and `tictactoe_ai.py` answer with a move: win if possible, else block, else a free cell.
- **Q-learning servers.** `c4_q_learning.py` and `tictactoe_q_learning.py` choose a move, classify its reward and update a table of Q-values.

Modules:

- `Values`: the JSON values a Python server sees: `null`, strings and integers, and the opponent function both rule-based servers use. Cells and players there are dynamically typed, so this lets the model state behaviour on players such as "Red", which a server does not expect.
- `ConnectFourBoard`, `TicTacToeBoard`: the helpers both servers of a game share: the column test, the gravity row, the free cells and the line tests. They are generic in the cell type, so each browser engine uses the same definitions.
- `ConnectFourWin`: the browser's run-length `checkWin`/`isWin` as loop methods. They are proved against a recursive run-length specification, and that specification is proved equivalent to the servers' window-based `check_win` for Red or Yellow.
- `ConnectFourGame`, `TicTacToeGame`: each browser engine.
  - Every transition is a function on a snapshot `Game`.
  - A class `GameState` holds the script's variables. The board is an `array2`, or an `array` for tic-tac-toe. The tic-tac-toe state also keeps the JavaScript array's length and the keys outside the nine cells that a reply has written.
  - Its methods are proved to perform those transitions: `State() == Click(old(State()), …)` and so on.
- `ConnectFourAI`, `TicTacToeAI`: the rule-based move searches.
- `ConnectFourQLearning`, `TicTacToeQLearning`, `QValues`:
  - the opponent function, `apply_move`, the reward of a tic-tac-toe move and the state encoding;
  - the Q-table as a class whose dictionary field the methods reassign.

Behaviours of the code that the model keeps as they are, each stated by a lemma:

- Tic-tac-toe `checkWin` looks only at the mark to move (`OtherLineIgnored`). Because a line resets the board at once, no reachable board holds a line anyway (`HandlersKeepNoLine`).
- Connect four's reply handler writes `board[row][col]` without any check. A piece may float (`AIReplyMayFloat`) or overwrite a piece (`AIReplyMayOverwrite`).
- After a connect-four win the board stays as it is until a timer resets it, and the winner is still to move. A reply arriving in that window scores the same line again (`AIReplyAfterWinScoresAgain`).
- `c4_ai.py`'s opponent of "Red" or "Yellow" is "X", so its blocking loop never fires on a browser board (`NoBlockOnColourBoards`).
- `get_opponent` in `c4_q_learning.py` assumes the players are 1 and 2. On a browser board the opponent 2 owns no cell, so `apply_move` never sees the opponent's line or threat (`NoOpponentOnColourBoards`).
- The final check of `apply_move` at lines 172-173 repeats a test that already failed. It never adds, so the reward is one of -1, 0, 0.5 and 1 (`ApplyMove`).
- Tic-tac-toe's reply handler writes `board[move]` even for a `null`, negative or out-of-range move. The key then reads as taken, so the same reply a second time is ignored (`RepeatedOffBoardReplyIgnored`, `TwoNullReplies`). An index of 9 or more grows the array, and the request body then carries the extra elements, with `null` for each hole, which `get_available_moves` lists as free (`GrownBoardListsHole`).
- In `tictactoe_q_learning.py`, `next_state` is the encoding of the board before the move. The update therefore bootstraps from the entry it writes (`QTable.GetMove`, `Updated`).

## Model

| member | source | states |
|---|---|---|
| Values.Opponent | c4_ai.py:41 | the opponent is "O" for "X" and "X" for every other player; tictactoe_ai.py:27 computes it the same way |
| QValues.Zeros | c4_q_learning.py:48 | `[0] * n` has length n and every entry 0 |
| QValues.Max | c4_q_learning.py:80 | `max` of a non-empty list is one of its elements and no element exceeds it |
| QValues.MaxZeros | tictactoe_q_learning.py:134 | the largest value of the default row `[0]*9` of an unseen state is 0 |
| QValues.NewValue | c4_q_learning.py:81 | the Q-learning update keeps the old value at learning rate 0 and gives the target `reward + gamma * future` at rate 1 |
| QValues.NewValueBetween | tictactoe_q_learning.py:135 | with a learning rate in [0, 1] the new value lies between the old value and the target |
| ConnectFourBoard.Set | c4_ai.py:47-48 | the copied board with one cell written: that cell holds the value, every other cell is unchanged |
| ConnectFourBoard.IsValidMove | c4_ai.py:76-79 | a move is valid when the top cell of its column is empty |
| ConnectFourBoard.Drop | c4_q_learning.py:147-149 | the copied board with the piece written in the open row of the column |
| ConnectFourBoard.OpenRow | c4_ai.py:81-85 | the open row is the largest row whose cell in the column is empty, and there is none exactly when the column is full |
| ConnectFourBoard.GetNextOpenRow | c4_ai.py:81-85 | the descending search loop returns the largest empty row of the column, or None exactly when there is none |
| ConnectFourBoard.OpenRowUnique | c4_ai.py:82-84 | an empty cell with no empty cell below it is the row the search returns |
| ConnectFourBoard.ValidMoveHasOpenRow | c4_ai.py:76-79 | a column whose top cell is empty has an open row |
| ConnectFourBoard.DropWritesOpenRow | c4_q_learning.py:147-149 | the piece lands in the open row of the column and no other cell changes |
| ConnectFourBoard.TryColumn | c4_ai.py:45-49 | the body of the column loop answers whether the column is valid and its scratch board, with the piece dropped in the open row, has a line for the piece; a winning answer comes with that open row |
| ConnectFourBoard.ValidColumns | c4_ai.py:69 | the list holds exactly the columns whose top cell is empty, in ascending order |
| ConnectFourBoard.CheckWin | c4_ai.py:87-113 | some horizontal, vertical, down-right or up-right window of four cells, over the start ranges of the four loops, holds the player in every cell |
| ConnectFourBoard.CheckWinTransfer | c4_ai.py:87-113 | check_win depends only on which cells equal the player, so boards agreeing on that agree on check_win |
| ConnectFourBoard.WriteKeepsLine | public/connect4.js:146 | writing the player's piece anywhere keeps every line of four the player already has |
| ConnectFourBoard.NoPieceNoLine | c4_ai.py:87-113 | no window of four holds a player who owns no cell |
| ConnectFourBoard.SinglePieceNoLine | c4_ai.py:54-61 | a player owning only the one piece just dropped has no line |
| ConnectFourWin.IsWinAt | public/connect4.js:193-214 | isWin: some direction of the table counts the cell plus its two capped runs as four or more |
| ConnectFourWin.RunLengthWin | public/connect4.js:216-222 | checkWin: some occupied cell passes isWin |
| ConnectFourWin.CountRun | public/connect4.js:198-210 | one counting loop of isWin returns the run of matching cells, stopping at the board edge or the first differing cell, at most three |
| ConnectFourWin.IsWin | public/connect4.js:193-214 | isWin holds exactly when some direction of the table counts four or more |
| ConnectFourWin.CheckWinScan | public/connect4.js:185-223 | the scan over the rows answers true exactly when some occupied cell passes isWin |
| ConnectFourWin.CheckWinRow | public/connect4.js:217-219 | the scan over one row answers true exactly when some occupied cell of that row passes isWin |
| ConnectFourWin.RunCell | public/connect4.js:198-203 | every cell a run counts is on the board and has the colour |
| ConnectFourWin.RunReaches | public/connect4.js:198-203 | a run counts at least every matching cell before the first mismatch |
| ConnectFourWin.IsWinAtSomeDirection | public/connect4.js:195-212 | the loop over the four directions succeeds exactly when one of their counts reaches four |
| ConnectFourWin.CountGivesWindow | public/connect4.js:196-211 | a count of four gives a window of four same-coloured cells through the cell |
| ConnectFourWin.CoveredCell | public/connect4.js:196-211 | each of those four cells is on the board and has the colour: behind the cell it is counted by the backward run, ahead of it by the forward run |
| ConnectFourWin.WindowIsScanned | c4_ai.py:87-113 | a window along any direction of the browser's table is one that check_win scans, the anti-diagonal read from its other end |
| ConnectFourWin.ScannedWindowIsRun | public/connect4.js:193-214 | the first cell of a scanned window of four passes isWin |
| ConnectFourWin.LineIsRunLengthWin | public/connect4.js:216-220 | a line of four of a colour makes checkWin true |
| ConnectFourWin.WinAtGivesLine | public/connect4.js:193-214 | a cell passing isWin lies on a line of four of its own colour |
| ConnectFourWin.RunLengthWinIsLine | public/connect4.js:185-223 | checkWin holds exactly when four consecutive cells in a row, column or diagonal hold one colour |
| ConnectFourGame.EmptyBoard | public/connect4.js:1 | a 6x6 board of `null` cells |
| ConnectFourGame.Initial | public/connect4.js:1-7 | the starting state has an empty, settled board on which the game is not over |
| ConnectFourGame.IsFull | public/connect4.js:107 | `board.flat().every(cell => cell)`: no cell is `null` |
| ConnectFourGame.GameOver | public/connect4.js:227-229 | isGameOver: checkWin or a full board |
| ConnectFourGame.ScoreFor | public/connect4.js:232-238 | updateScore raises the winner's score by one and changes nothing else |
| ConnectFourGame.Cleared | public/connect4.js:241-245 | resetBoard leaves an all-null board with Red to move; the scores, the draws and the player types stay |
| ConnectFourGame.Reset | public/connect4.js:248-254 | resetGame gives the starting state with the current player types: empty board, Red to move, both scores and the draw counter zero |
| ConnectFourGame.Started | public/connect4.js:12-20 | startGame gives a fresh board, Red to move and the chosen types, and keeps scores and draws |
| ConnectFourGame.Outcome | public/connect4.js:100-115 | a win scores one for the mover and keeps board and turn; a full board without a win counts a draw and resets the board with Red to move; otherwise the turn passes and the counters stay |
| ConnectFourGame.Place | public/connect4.js:92-98 | the mover's piece lands in the lowest empty cell of the column, every other cell and all other state unchanged |
| ConnectFourGame.Click | public/connect4.js:84-117 | a click on an AI's turn, on an occupied cell or on a finished game changes nothing; otherwise it plays the piece by gravity and applies the outcome |
| ConnectFourGame.AIReply | public/connect4.js:143-162 | a null or off-board row changes nothing; an on-board cell is overwritten with the mover's piece, then the outcome applies; an off-board column leaves the board and applies the outcome |
| ConnectFourGame.ClickOnAITurnIgnored | public/connect4.js:84-88 | when the player to move is not 'me' a click changes nothing |
| ConnectFourGame.ClickPassesTurn | public/connect4.js:111-113 | an accepted click that neither wins nor fills the board changes only the one cell and passes the turn |
| ConnectFourGame.DropKeepsSettled | public/connect4.js:92-98 | dropping a piece into the lowest empty cell of a column keeps every piece resting on the bottom row or on a piece |
| ConnectFourGame.ClickKeepsSettled | public/connect4.js:92-98 | a click keeps the gravity invariant: every piece rests on the bottom row or on a piece |
| ConnectFourGame.AIReplyMayFloat | public/connect4.js:146 | the reply handler can break gravity: a reply for the top-left cell on an empty board leaves a floating piece |
| ConnectFourGame.AIReplyAfterWinScoresAgain | public/connect4.js:145-151 | on a board where the mover already has a line, any on-board reply scores for the mover once more |
| ConnectFourGame.AIReplyMayOverwrite | public/connect4.js:146 | a reply on the opponent's piece replaces it with the mover's piece, unless the board is then reset |
| ConnectFourGame.EncodeCellSeparates | public/connect4.js:135-138 | on the wire a cell is "Red" exactly when it is Red and "Yellow" exactly when it is Yellow |
| ConnectFourGame.Encode | public/connect4.js:135-138 | the board the servers receive, cell by cell |
| ConnectFourGame.CheckWinMatchesServers | public/connect4.js:185-223 | the browser's checkWin holds exactly when the servers' check_win finds a line for "Red" or for "Yellow" on the board sent to them |
| ConnectFourGame.GameState.constructor | public/connect4.js:1-7 | the script's initial variables are the starting state |
| ConnectFourGame.GameState.IsGameOver | public/connect4.js:227-229 | isGameOver is checkWin or all 36 cells filled |
| ConnectFourGame.GameState.UpdateScore | public/connect4.js:232-238 | the state after updateScore is ScoreFor of the state before, on the same board |
| ConnectFourGame.GameState.ResetBoard | public/connect4.js:241-245 | a fresh board array and the state after is Cleared of the state before |
| ConnectFourGame.GameState.ResetGame | public/connect4.js:248-254 | the state after is Reset of the state before |
| ConnectFourGame.GameState.StartGame | public/connect4.js:12-20 | the state after is Started of the state before with the chosen types |
| ConnectFourGame.GameState.Conclude | public/connect4.js:100-115 | the outcome branch both handlers share performs Outcome |
| ConnectFourGame.GameState.DropPiece | public/connect4.js:92-98 | the gravity loop performs Place in the board array |
| ConnectFourGame.GameState.HandleClick | public/connect4.js:84-117 | handleClick performs Click |
| ConnectFourGame.GameState.ApplyAIMove | public/connect4.js:143-162 | the reply handler performs AIReply |
| ConnectFourAI.LowestWinningIsLowest | c4_ai.py:44-51 | the specification of the search is a column where dropping the piece completes a line with no such column before it, or None exactly when no column does |
| ConnectFourAI.LowestWinningStep | c4_ai.py:44-51 | the lowest winning column from a column on is that column when it wins, else the lowest from the next column on |
| ConnectFourAI.SearchStep | c4_ai.py:45-51 | one pass of the loop body either returns the lowest winning column from here on, with its open row, or moves the search to the next column |
| ConnectFourAI.FindRandomMove | c4_ai.py:68-74 | some valid column with its open row, or None exactly when no column is valid |
| ConnectFourAI.FirstWinningColumn | c4_ai.py:44-51 | the loop over columns returns the lowest winning column with its open row, or None exactly when there is none |
| ConnectFourAI.FindBestMove | c4_ai.py:40-64 | the lowest winning column if any, else the lowest column where the computed opponent wins, else the random fallback; every move is a valid column with its open row; None exactly when no column is valid |
| ConnectFourAI.NoBlockOnColourBoards | c4_ai.py:54-61 | on a board of "Red"/"Yellow" pieces the opponent "X" never has a winning column, so no block is found |
| ConnectFourQLearning.GetOpponent | c4_q_learning.py:177-179 | get_opponent is 1 exactly for player 2 and 2 for every other value |
| ConnectFourQLearning.GetOpponentSwaps | c4_q_learning.py:177-179 | on the players 1 and 2 get_opponent swaps them |
| ConnectFourQLearning.FindRandomMove | c4_q_learning.py:181-185 | some valid column, or None exactly when no column is valid |
| ConnectFourQLearning.Threat | c4_q_learning.py:162-169 | the blocking loop's condition: some valid column where dropping the opponent's piece completes a line for it |
| ConnectFourQLearning.ApplyMove | c4_q_learning.py:143-175 | the piece dropped by gravity; reward 1 and done for the mover's line, else -1 and done for the opponent's line, else not done with 0.5 exactly when the opponent could complete a line next and 0 otherwise; the reward is always one of -1, 0, 0.5, 1 |
| ConnectFourQLearning.NoOpponentOnColourBoards | c4_q_learning.py:154-169 | on a board of strings, for a string player, apply_move finds neither a line nor a threat of the opponent 2 |
| ConnectFourQLearning.Initialized | c4_q_learning.py:43-48 | the key is present, with six zeros if it was absent; every other key and entry is kept |
| ConnectFourQLearning.InitializedIdempotent | c4_q_learning.py:43-48 | initialising a key twice is initialising it once |
| ConnectFourQLearning.Updated | c4_q_learning.py:72-82 | both keys are present, rows keep six values, only `[state][action]` changes, and it becomes the update with the largest value of the next state's row as future (0 for an unseen next state) |
| ConnectFourQLearning.QTable.constructor | c4_q_learning.py:27 | the table starts empty |
| ConnectFourQLearning.QTable.InitializeQValuesForState | c4_q_learning.py:43-48 | the table after is Initialized of the table before |
| ConnectFourQLearning.QTable.UpdateQTable | c4_q_learning.py:72-82 | the table after is Updated of the table before |
| TicTacToeBoard.CheckWin | tictactoe_ai.py:54-66 | some pattern of the table of eight has the player in each of its cells |
| TicTacToeBoard.CheckWinIsLine | tictactoe_ai.py:54-66 | check_win holds exactly when one of the three rows, three columns or two diagonals is all the player |
| TicTacToeBoard.CheckWinTransfer | tictactoe_q_learning.py:107-122 | check_win depends only on which cells equal the player |
| TicTacToeBoard.AvailableMoves | tictactoe_ai.py:51-52 | exactly the indices of the `None` cells, in ascending order |
| TicTacToeBoard.FirstAvailable | tictactoe_ai.py:48-49 | the head of the free list is the lowest free cell |
| TicTacToeAI.FirstCompleting | tictactoe_ai.py:30-34 | the first cell of the list whose copy of the board wins, or None exactly when none does |
| TicTacToeAI.FirstCompletingIsFirst | tictactoe_ai.py:30-34 | on an ascending list, no listed cell below the one found completes a line |
| TicTacToeAI.FoundIsLowest | tictactoe_ai.py:30-34 | a cell found among the free cells is the lowest free cell completing a line |
| TicTacToeAI.NoneFoundIsNone | tictactoe_ai.py:37-41 | nothing is found exactly when no free cell completes a line |
| TicTacToeAI.FindRandomMove | tictactoe_ai.py:47-49 | the first free cell, or None exactly on a full board |
| TicTacToeAI.FindBestMove | tictactoe_ai.py:26-45 | the lowest free cell winning for the player, else the lowest winning for the opponent, else the first free cell; None exactly on a full board; every move a free cell |
| TicTacToeAI.GetMove | tictactoe_ai.py:16-22 | find_best_move when the mode is 'rule-based' or absent, find_random_move for any other mode |
| TicTacToeQLearning.EncodeState | tictactoe_q_learning.py:34 | the state has the board's length; a cell encodes to 0 exactly when `None`, 1 exactly when "X", 2 otherwise |
| TicTacToeQLearning.DecodeState | tictactoe_q_learning.py:34 | a state of 0s, 1s and 2s stands for a board of `null`, "X" and "O" of the same length |
| TicTacToeQLearning.DecodeEncode | tictactoe_q_learning.py:34 | on a board of `null`, "X" and "O" the encoding loses nothing |
| TicTacToeQLearning.EncodeDecode | tictactoe_q_learning.py:34 | decoding then encoding a state gives it back |
| TicTacToeQLearning.EncodingMergesOtherMarks | tictactoe_q_learning.py:34 | "O" and any other string, such as "Red", encode alike |
| TicTacToeQLearning.MakeRandomMove | tictactoe_q_learning.py:44-51 | some free cell, or None exactly when no cell is free |
| TicTacToeQLearning.MoveReward | tictactoe_q_learning.py:72-80 | 1 exactly for a line of the mover, 0.5 exactly for a full board without one, -0.1 exactly otherwise |
| TicTacToeQLearning.Updated | tictactoe_q_learning.py:124-136 | the state is present with nine values, only `[state][action]` changes and becomes the update whose future part is the largest value of the next state's row, or 0 when that state is absent; next_state is never inserted |
| TicTacToeQLearning.QTable.constructor | tictactoe_q_learning.py:20 | the table starts empty |
| TicTacToeQLearning.QTable.UpdateQTable | tictactoe_q_learning.py:124-136 | the table after is Updated of the table before |
| TicTacToeQLearning.QTable.GetMove | tictactoe_q_learning.py:58-99 | the reply is -1 exactly when no move is found, and the table is then untouched; otherwise the reply is the move and the table is updated with the move's reward and the pre-move encoding as both state and next state |
| TicTacToeGame.EmptyBoard | public/tictactoe.js:1 | nine `null` cells |
| TicTacToeGame.Initial | public/tictactoe.js:1-7 | the starting state has an empty board with no line, and the game is not over |
| TicTacToeGame.IsFull | public/tictactoe.js:63 | `board.every(cell => cell)` over the nine cells: none is `null` |
| TicTacToeGame.CurrentWins | public/tictactoe.js:77-86 | checkWin: some pattern is all the mark to move |
| TicTacToeGame.GameOver | public/tictactoe.js:89-91 | isGameOver: checkWin or a full board |
| TicTacToeGame.Cleared | public/tictactoe.js:151-154 | resetBoard leaves a new array of nine `null` cells, without the keys written past them, with X to move, and keeps everything else |
| TicTacToeGame.ScoreFor | public/tictactoe.js:141-148 | updateScore raises the winner's score by one and resets the board |
| TicTacToeGame.Started | public/tictactoe.js:12-19 | startGame, which resetGame runs, empties the board with X to move and the chosen types; scores and draws stay |
| TicTacToeGame.Outcome | public/tictactoe.js:60-71 | a line of the mover scores one and resets the board; a full board without one counts a draw and resets; otherwise the turn passes and the counters stay |
| TicTacToeGame.Write | public/tictactoe.js:59 | the mover's mark at the index and at no other cell |
| TicTacToeGame.Click | public/tictactoe.js:57-73 | a click acts only on an empty cell, a game not over and a human's turn, and then writes the mark and applies the outcome; otherwise nothing changes |
| TicTacToeGame.ReadsEmpty | public/tictactoe.js:124 | `!board[move]`: a cell reads empty when it is `null`, a key outside the nine cells while no reply has written it |
| TicTacToeGame.WriteOff | public/tictactoe.js:125 | writing a key outside the nine cells stores the mark under it and grows the length past an array index at or beyond it; the cells stay |
| TicTacToeGame.AIReply | public/tictactoe.js:123-135 | nothing changes once the game is over or when the key reads taken; otherwise the mark is written in the cell, followed by the outcome, or under the off-board key, after which the cells stay and the turn passes |
| TicTacToeGame.RepeatedOffBoardReplyIgnored | public/tictactoe.js:124-125 | an off-board or `null` reply on a game that is not over passes the turn, and the same reply again changes nothing |
| TicTacToeGame.TwoNullReplies | public/tictactoe.js:124-125 | from the start, two `null` replies leave O to move |
| TicTacToeGame.OtherLineIgnored | public/tictactoe.js:77-91 | on a board with a line of the mark not to move, none of the mark to move and an empty cell, the game is not over and a human click or a reply on that cell is played |
| TicTacToeGame.OtherLineBoard | public/tictactoe.js:77-86 | such a board exists: O's top row with X to move |
| TicTacToeGame.WriteKeepsOtherLineless | public/tictactoe.js:59 | writing a mark creates no line for the other mark |
| TicTacToeGame.OutcomeOfMarkHasNoLine | public/tictactoe.js:59-71 | from a board without lines, a written mark followed by the outcome leaves a board without lines |
| TicTacToeGame.NoLineOnEmpty | public/tictactoe.js:151-154 | the empty board holds no line |
| TicTacToeGame.HandlersKeepNoLine | public/tictactoe.js:57-73 | clicks and AI replies keep every board free of lines |
| TicTacToeGame.Encode | public/tictactoe.js:113 | the nine cells as the servers receive them, cell by cell |
| TicTacToeGame.Wire | public/tictactoe.js:113 | the `board` of the request body: one value per index below the length, the nine cells first, then each written mark or `null` for a hole |
| TicTacToeGame.WireOfNineCells | public/tictactoe.js:113 | while the length is nine the servers receive exactly the nine encoded cells |
| TicTacToeGame.GrownBoardListsHole | tictactoe_ai.py:51-52 | after a reply of 10 on the empty board the servers receive eleven values, and the hole at 9 is listed as a free cell |
| TicTacToeGame.CheckWinMatchesServers | public/tictactoe.js:77-86 | the browser's test for a mark equals the servers' check_win for its name |
| TicTacToeGame.GameState.constructor | public/tictactoe.js:1-7 | the script's initial variables are the starting state |
| TicTacToeGame.GameState.ResetBoard | public/tictactoe.js:151-154 | a fresh board array and the state after is Cleared of the state before |
| TicTacToeGame.GameState.UpdateScore | public/tictactoe.js:141-148 | the state after is ScoreFor of the state before |
| TicTacToeGame.GameState.StartGame | public/tictactoe.js:12-19 | the state after is Started of the state before with the chosen types |
| TicTacToeGame.GameState.ResetGame | public/tictactoe.js:157-159 | resetGame performs Started, so scores and draws are kept |
| TicTacToeGame.GameState.Conclude | public/tictactoe.js:126-133 | the outcome branch both handlers share performs Outcome |
| TicTacToeGame.GameState.HandleClick | public/tictactoe.js:57-73 | handleClick performs Click on the board array |
| TicTacToeGame.GameState.ApplyAIMove | public/tictactoe.js:123-135 | the reply handler, writing the cell or the key and length of the array, performs AIReply |

## Left out

- Rendering and the page: `updateDisplay`, `generateBoard`, `updateBoard`, the messages, pointer events and the dark-mode handlers are presentation only.
- Networking: the `fetch` calls, the Flask routes, CORS, JSON parsing and port selection are not modelled. Each response handler is modelled from the reply it receives, as an `Option` for integers or `null`. The `row` reply the Q-learning connect-four route computes is left out with the rest of the route.
- An absent `move` or `row`/`col` field (JavaScript `undefined`) is not modelled. Only `null` and integers are.
- Timers: the auto-click timers and the one-second delayed reset after a connect-four win. That reset is the separate `ResetBoard` call.
- The radio-button handlers and `updatePlayerTypes` read the page. The chosen player types are parameters of `StartGame`/`ResetGame`.
- File I/O: loading and saving of `q_table` and `reward_log` with pickle, the reward log and the printed debugging output.
- Exploration and choice:
  - `get_best_move` of both Q-learning servers, with its epsilon-greedy exploration, epsilon decay, `np.argmax` and `max(..., key=...)`, is not modelled.
  - `QTable.GetMove` takes its answer as the parameter `chosen`.
  - `random.choice` is an unconstrained choice (`:|`) from the valid moves.
- `determine_ai_move` of `c4_ai.py` is not a separate member. A pair, even `(None, None)`, is truthy in Python, so it always returns the result of `find_best_move`, which `ConnectFourAI.FindBestMove` models.
- The Q-values are exact reals, not floating point. The learning rate and discount are parameters.
- The `str(board)` key of the connect-four Q-table is modelled by the board itself, which distinguishes boards exactly as their printed form does.
- ConnectFourQLearning.ApplyMove: requires an open row in the column. The source's row write throws on a full column, and the route never reaches it with a valid answer. `move_count` is accepted and unused, as in the source.
- TicTacToeGame.AIReply: a `move` that is a string or a non-integer number is not modelled. Such a key is a property like the `null` key, except that a numeric string such as "3" names a cell.
- TicTacToeGame.Wire: the servers are modelled on boards of nine cells. A grown board is only shown to list its holes as free; the rest of what the servers do with it is not modelled.
- ConnectFourGame.AIReply: a `null` or off-board column writes a property outside the 36 cells. The model leaves the 36 cells unchanged, and the extra property is not represented.
