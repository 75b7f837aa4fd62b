/** The Q-learning connect-four server (c4_q_learning.py): the opponent of
    an integer player, the random fallback, the move and its reward, and the
    table of Q-values keyed by board. Its board helpers (is_valid_move,
    get_next_open_row, check_win) are the same code as those of c4_ai.py and
    are the definitions of module ConnectFourBoard. */
module ConnectFourQLearning {
  import opened Values
  import opened ConnectFourBoard
  import opened QValues

  /** get_opponent: 1 for player 2 and 2 for anything else, so it assumes the
      players are the integers 1 and 2; for "Red" or "Yellow" it answers 2. */
  function GetOpponent(player: Value): (q: Value)
    ensures q == Int(1) <==> player == Int(2)
    ensures q == Int(2) <==> player != Int(2)
  {
    if player == Int(2) then Int(1) else Int(2)
  }

  /** On the players 1 and 2, get_opponent swaps them. */
  lemma GetOpponentSwaps(player: Value)
    requires player == Int(1) || player == Int(2)
    ensures GetOpponent(player) != player
    ensures GetOpponent(GetOpponent(player)) == player
  {
  }

  /** find_random_move: some valid column, or None when no column is valid. */
  method FindRandomMove(b: Grid<Value>) returns (col: Option<int>)
    requires IsGrid(b)
    ensures col.Some? ==> 0 <= col.value < Columns && IsValidMove(b, col.value)
    ensures col.None? <==> forall c :: 0 <= c < Columns ==> !IsValidMove(b, c)
  {
    var validMoves := ValidColumns(b);
    if |validMoves| > 0 {
      var c :| c in validMoves;
      return Some(c);
    }
    return None;
  }

  /** Some valid column of `b` where dropping `q` completes a line for `q`:
      what the blocking loop of apply_move looks for. */
  predicate Threat(b: Grid<Value>, q: Value)
    requires IsGrid(b)
  {
    exists k :: 0 <= k < Columns && WinsAt(b, k, q)
  }

  /** apply_move(board, col, player, move_count): the board with the piece
      dropped, and the reward: 1 when the move makes a line for the player,
      else -1 when the opponent has a line, else 0.5 when the opponent could
      complete a line with its next piece and 0 otherwise. The last test of
      the source, a second check_win for the player in the branch where it
      already failed, never adds. `move_count` is not used. The source needs
      an open row in the column (otherwise the write throws). */
  method ApplyMove(b: Grid<Value>, col: int, player: Value, moveCount: int)
    returns (nextBoard: Grid<Value>, reward: real, done: bool)
    requires IsGrid(b) && 0 <= col < Columns && OpenRow(b, col, Null).Some?
    ensures nextBoard == Drop(b, col, Null, player)
    ensures CheckWin(nextBoard, player) ==> reward == 1.0 && done
    ensures !CheckWin(nextBoard, player) && CheckWin(nextBoard, GetOpponent(player)) ==>
      reward == -1.0 && done
    ensures !CheckWin(nextBoard, player) && !CheckWin(nextBoard, GetOpponent(player)) ==>
      !done && (reward == 0.5 <==> Threat(nextBoard, GetOpponent(player)))
            && (reward == 0.0 <==> !Threat(nextBoard, GetOpponent(player)))
    ensures reward == -1.0 || reward == 0.0 || reward == 0.5 || reward == 1.0
  {
    var row := GetNextOpenRow(b, col);
    nextBoard := Set(b, row.value, col, player);
    reward := 0.0;
    done := false;
    var opponent := GetOpponent(player);
    if CheckWin(nextBoard, player) {
      reward := 1.0;
      done := true;
    } else if CheckWin(nextBoard, opponent) {
      reward := -1.0;
      done := true;
    } else {
      var opponentCol := 0;
      while opponentCol < Columns
        invariant 0 <= opponentCol <= Columns && reward == 0.0
        invariant forall k :: 0 <= k < opponentCol ==> !WinsAt(nextBoard, k, opponent)
      {
        var wins, tempRow := TryColumn(nextBoard, opponentCol, opponent);
        if wins {
          reward := reward + 0.5;
          break;
        }
        opponentCol := opponentCol + 1;
      }
      if CheckWin(nextBoard, player) {
        reward := reward + 0.5;
      }
    }
  }

  /** On a board of the browser, which holds only `null`, "Red" and "Yellow",
      and for a colour player, the opponent 2 owns no cell: apply_move never
      sees a line or a threat of the opponent, so its reward is 1 or 0. */
  lemma NoOpponentOnColourBoards(b: Grid<Value>, col: int, player: Value)
    requires IsGrid(b) && 0 <= col < Columns && OpenRow(b, col, Null).Some?
    requires forall r, c :: InBounds(r, c) ==> !b[r][c].Int?
    requires player.Str?
    ensures !CheckWin(Drop(b, col, Null, player), GetOpponent(player))
    ensures !Threat(Drop(b, col, Null, player), GetOpponent(player))
  {
    var next := Drop(b, col, Null, player);
    NoPieceNoLine(next, Int(2));
    forall k | 0 <= k < Columns ensures !WinsAt(next, k, Int(2)) {
      if IsValidMove(next, k) {
        SinglePieceNoLine(next, OpenRow(next, k, Null).value, k, Int(2));
      }
    }
  }

  // ---------------------------------------------------------------------
  // The Q-table

  /** The table after initialize_q_values_for_state(key): `key` is present,
      with six zeros if it was absent; every other key and entry is kept. */
  function Initialized(t: map<Grid<Value>, seq<real>>, key: Grid<Value>): (t': map<Grid<Value>, seq<real>>)
    ensures key in t' && t'[key] == (if key in t then t[key] else Zeros(Columns))
    ensures forall k :: k != key ==> (k in t' <==> k in t)
    ensures forall k :: k != key && k in t ==> t'[k] == t[k]
  {
    if key in t then t else t[key := Zeros(Columns)]
  }

  /** Initialising a key twice is initialising it once. */
  lemma InitializedIdempotent(t: map<Grid<Value>, seq<real>>, key: Grid<Value>)
    ensures Initialized(Initialized(t, key), key) == Initialized(t, key)
  {
  }

  /** The table after update_q_table(state_key, action, reward,
      next_state_key, alpha, gamma): both keys initialised, then the entry
      `[stateKey][action]` replaced by the new value, whose future part is the
      largest value of `nextKey`'s entry after the initialisations; no other
      key and no other value changes. */
  function Updated(t: map<Grid<Value>, seq<real>>, stateKey: Grid<Value>, action: int, reward: real,
                   nextKey: Grid<Value>, alpha: real, gamma: real): (t': map<Grid<Value>, seq<real>>)
    requires forall k :: k in t ==> |t[k]| == Columns
    requires 0 <= action < Columns
    ensures forall k :: k in t' ==> |t'[k]| == Columns
    ensures stateKey in t' && nextKey in t'
    ensures forall k :: k != stateKey && k != nextKey ==> (k in t' <==> k in t)
    ensures forall k :: k != stateKey && k in t ==> t'[k] == t[k]
    ensures nextKey != stateKey && nextKey !in t ==> t'[nextKey] == Zeros(Columns)
    ensures var before := Initialized(t, stateKey)[stateKey];
      forall a :: 0 <= a < Columns && a != action ==> t'[stateKey][a] == before[a]
    ensures var before := Initialized(t, stateKey)[stateKey];
      var future := if nextKey == stateKey then Max(before) else if nextKey in t then Max(t[nextKey]) else 0.0;
      t'[stateKey][action] == NewValue(before[action], reward, future, alpha, gamma)
  {
    MaxZeros(Columns);
    var t1 := Initialized(Initialized(t, stateKey), nextKey);
    var row := t1[stateKey];
    t1[stateKey := row[action := NewValue(row[action], reward, Max(t1[nextKey]), alpha, gamma)]]
  }

  /** The global `q_table`, keyed by the board (the source keys it by
      `str(board)`, which tells boards apart exactly as the board does). */
  class QTable {
    var table: map<Grid<Value>, seq<real>>

    /** Every entry holds one value per column. */
    ghost predicate Valid()
      reads this
    {
      forall k :: k in table ==> |table[k]| == Columns
    }

    constructor()
      ensures Valid() && table == map[]
    {
      table := map[];
    }

    /** initialize_q_values_for_state(state_key). */
    method InitializeQValuesForState(key: Grid<Value>)
      requires Valid()
      modifies this
      ensures Valid()
      ensures table == Initialized(old(table), key)
    {
      if key !in table {
        table := table[key := Zeros(Columns)];
      }
    }

    /** update_q_table. */
    method UpdateQTable(stateKey: Grid<Value>, action: int, reward: real, nextKey: Grid<Value>, alpha: real, gamma: real)
      requires Valid() && 0 <= action < Columns
      modifies this
      ensures Valid()
      ensures table == Updated(old(table), stateKey, action, reward, nextKey, alpha, gamma)
    {
      InitializeQValuesForState(stateKey);
      InitializeQValuesForState(nextKey);
      var oldValue := table[stateKey][action];
      var futureOptimalValue := Max(table[nextKey]);
      var newValue := NewValue(oldValue, reward, futureOptimalValue, alpha, gamma);
      table := table[stateKey := table[stateKey][action := newValue]];
    }
  }
}
