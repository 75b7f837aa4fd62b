/** The Q-learning tic-tac-toe server (tictactoe_q_learning.py): the state
    encoding of a board, the random move, the reward of a move and the table
    of Q-values keyed by encoded state. */
module TicTacToeQLearning {
  import opened Values
  import opened TicTacToeBoard
  import opened QValues

  /** `0 if cell is None else 1 if cell == 'X' else 2`. */
  function EncodeCell(v: Value): int {
    if v == Null then 0 else if v == Str("X") then 1 else 2
  }

  /** The state tuple of a board, cell by cell. */
  function EncodeState(b: seq<Value>): (s: seq<int>)
    ensures |s| == |b|
    ensures forall i :: 0 <= i < |b| ==> s[i] == EncodeCell(b[i])
    ensures forall i :: 0 <= i < |b| ==> (s[i] == 0 <==> b[i] == Null)
    ensures forall i :: 0 <= i < |b| ==> (s[i] == 1 <==> b[i] == Str("X"))
  {
    seq(|b|, i requires 0 <= i < |b| => EncodeCell(b[i]))
  }

  /** A board of the browser: every cell `null`, "X" or "O". */
  predicate IsMarkBoard(b: seq<Value>) {
    forall i :: 0 <= i < |b| ==> b[i] == Null || b[i] == Str("X") || b[i] == Str("O")
  }

  /** A state tuple: every entry 0, 1 or 2. */
  predicate IsState(s: seq<int>) {
    forall i :: 0 <= i < |s| ==> 0 <= s[i] <= 2
  }

  /** The board a state tuple stands for, reading 2 as "O". */
  function DecodeState(s: seq<int>): (b: seq<Value>)
    requires IsState(s)
    ensures |b| == |s| && IsMarkBoard(b)
  {
    seq(|s|, i requires 0 <= i < |s| => if s[i] == 0 then Null else if s[i] == 1 then Str("X") else Str("O"))
  }

  /** On the boards of the browser, the encoding loses nothing. */
  lemma DecodeEncode(b: seq<Value>)
    requires IsMarkBoard(b)
    ensures IsState(EncodeState(b)) && DecodeState(EncodeState(b)) == b
  {
    assert "O" != "X" by { assert "O"[0] != "X"[0]; }
  }

  lemma EncodeDecode(s: seq<int>)
    requires IsState(s)
    ensures EncodeState(DecodeState(s)) == s
  {
    assert "O" != "X" by { assert "O"[0] != "X"[0]; }
  }

  /** Every cell other than `null` and "X" encodes as 2: the encoding does
      not tell "O" from any other string. */
  lemma EncodingMergesOtherMarks()
    ensures EncodeState([Str("O")]) == EncodeState([Str("Red")])
  {
    assert "O" != "X" by { assert "O"[0] != "X"[0]; }
    assert "Red" != "X" by { assert "Red"[0] != "X"[0]; }
  }

  /** make_random_move: some free cell, chosen by `random.choice`, or None
      when no cell is free. */
  method MakeRandomMove(b: seq<Value>) returns (m: Option<int>)
    ensures m.Some? ==> 0 <= m.value < |b| && b[m.value] == Null
    ensures m.None? <==> forall i :: 0 <= i < |b| ==> b[i] != Null
  {
    var availableMoves := AvailableMoves(b);
    if |availableMoves| > 0 {
      assert availableMoves[0] in availableMoves;
      var move :| move in availableMoves;
      return Some(move);
    }
    return None;
  }

  /** The reward branch of get_move for the board after the move: 1 for a
      line of the mover, else 0.5 when no cell is free, else -0.1. A winning
      move that fills the board earns 1. */
  function MoveReward(next: seq<Value>, player: Value): (r: real)
    requires |next| == Size
    ensures r == 1.0 <==> CheckWin(next, player)
    ensures r == 0.5 <==> !CheckWin(next, player) && Null !in next
    ensures r == -0.1 <==> !CheckWin(next, player) && Null in next
  {
    if CheckWin(next, player) then 1.0
    else if Null !in next then 0.5
    else -0.1
  }

  /** The table after update_q_table(q_table, state, action, reward,
      next_state, alpha, gamma): `state` present (nine zeros if it was
      absent), its `action` value replaced by the new one, whose future part
      is the largest value of `next_state`'s entry, or 0 when `next_state` is
      absent; `next_state` is never inserted and nothing else changes. */
  function Updated(t: map<seq<int>, seq<real>>, state: seq<int>, action: int, reward: real,
                   nextState: seq<int>, alpha: real, gamma: real): (t': map<seq<int>, seq<real>>)
    requires forall k :: k in t ==> |t[k]| == Size
    requires 0 <= action < Size
    ensures forall k :: k in t' ==> |t'[k]| == Size
    ensures state in t'
    ensures forall k :: k != state ==> (k in t' <==> k in t)
    ensures forall k :: k != state && k in t ==> t'[k] == t[k]
    ensures nextState != state && nextState !in t ==> nextState !in t'
    ensures var before := if state in t then t[state] else Zeros(Size);
      forall a :: 0 <= a < Size && a != action ==> t'[state][a] == before[a]
    ensures var before := if state in t then t[state] else Zeros(Size);
      var future := if nextState == state then Max(before) else if nextState in t then Max(t[nextState]) else 0.0;
      t'[state][action] == NewValue(before[action], reward, future, alpha, gamma)
  {
    MaxZeros(Size);
    var t1 := if state in t then t else t[state := Zeros(Size)];
    var row := t1[state];
    var future := Max(if nextState in t1 then t1[nextState] else Zeros(Size));
    t1[state := row[action := NewValue(row[action], reward, future, alpha, gamma)]]
  }

  /** The global `q_table`, keyed by state tuple. */
  class QTable {
    var table: map<seq<int>, seq<real>>

    /** Every entry holds one value per cell. */
    ghost predicate Valid()
      reads this
    {
      forall k :: k in table ==> |table[k]| == Size
    }

    constructor()
      ensures Valid() && table == map[]
    {
      table := map[];
    }

    /** update_q_table. */
    method UpdateQTable(state: seq<int>, action: int, reward: real, nextState: seq<int>, alpha: real, gamma: real)
      requires Valid() && 0 <= action < Size
      modifies this
      ensures Valid()
      ensures table == Updated(old(table), state, action, reward, nextState, alpha, gamma)
    {
      if state !in table {
        table := table[state := Zeros(Size)];
      }
      var oldValue := table[state][action];
      var futureOptimalValue := Max(if nextState in table then table[nextState] else Zeros(Size));
      var newValue := NewValue(oldValue, reward, futureOptimalValue, alpha, gamma);
      table := table[state := table[state][action := newValue]];
    }

    /** The move and reward part of get_move. `chosen` is what get_best_move
        answered (its exploration and np.argmax are not modelled): a cell
        index, or None, in which case a random free cell is tried. With a
        move, the mover is written into a copy of the board, the reward is
        classified and the table updated with `next_state` equal to the
        encoding of the board before the move; without one, the reply is -1
        and the table is not touched. */
    method GetMove(board: seq<Value>, player: Value, chosen: Option<int>) returns (reply: int)
      requires Valid() && |board| == Size
      requires chosen.Some? ==> 0 <= chosen.value < Size
      modifies this
      ensures Valid()
      ensures chosen.Some? ==> reply == chosen.value
      ensures chosen.None? && reply != -1 ==> 0 <= reply < Size && board[reply] == Null
      ensures reply == -1 <==> chosen.None? && forall i :: 0 <= i < Size ==> board[i] != Null
      ensures reply == -1 ==> table == old(table)
      ensures reply != -1 ==> 0 <= reply < Size
      ensures reply != -1 ==>
        table == Updated(old(table), EncodeState(board), reply, MoveReward(board[reply := player], player),
                         EncodeState(board), 0.1, 0.9)
    {
      var move := chosen;
      if move.None? {
        move := MakeRandomMove(board);
      }
      var nextState := EncodeState(board);
      var reward := 0.0;
      if move.Some? {
        var nextBoard := board[move.value := player];
        if CheckWin(nextBoard, player) {
          reward := 1.0;
        } else if Null !in nextBoard {
          reward := 0.5;
        } else {
          reward := -0.1;
        }
        UpdateQTable(EncodeState(board), move.value, reward, nextState, 0.1, 0.9);
        reply := move.value;
      } else {
        reply := -1;
      }
    }
  }
}
