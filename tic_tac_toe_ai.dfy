/** The rule-based tic-tac-toe server (tictactoe_ai.py): complete a line if
    a free cell does, else block the opponent's line, else take the first free
    cell. */
module TicTacToeAI {
  import opened Values
  import opened TicTacToeBoard

  /** Writing `q` into cell `i` of a copy of the board gives `q` a line. */
  predicate WinsWith(b: seq<Value>, i: int, q: Value)
    requires |b| == Size && 0 <= i < Size
  {
    CheckWin(b[i := q], q)
  }

  /** A free cell that completes a line for `q`. */
  predicate Completes(b: seq<Value>, i: int, q: Value)
    requires |b| == Size
  {
    0 <= i < Size && b[i] == Null && WinsWith(b, i, q)
  }

  /** One loop of find_best_move over an ascending list of cells: the first
      of them that completes a line for `q`. */
  function FirstCompleting(b: seq<Value>, moves: seq<int>, q: Value): (m: Option<int>)
    requires |b| == Size
    requires forall j :: 0 <= j < |moves| ==> 0 <= moves[j] < Size
    ensures m.Some? ==> m.value in moves && WinsWith(b, m.value, q)
    ensures m.None? <==> forall j :: 0 <= j < |moves| ==> !WinsWith(b, moves[j], q)
  {
    if |moves| == 0 then None
    else if WinsWith(b, moves[0], q) then Some(moves[0])
    else
      var m := FirstCompleting(b, moves[1..], q);
      assert forall j :: 1 <= j < |moves| ==> moves[j] == moves[1..][j - 1];
      m
  }

  /** On an ascending list, no listed cell below the one FirstCompleting
      finds completes a line. */
  lemma {:induction false} FirstCompletingIsFirst(b: seq<Value>, moves: seq<int>, q: Value)
    requires |b| == Size
    requires forall j :: 0 <= j < |moves| ==> 0 <= moves[j] < Size
    requires forall x, y :: 0 <= x < y < |moves| ==> moves[x] < moves[y]
    ensures var m := FirstCompleting(b, moves, q);
      m.Some? ==> forall i :: i in moves && i < m.value ==> !WinsWith(b, i, q)
  {
    if |moves| > 0 && !WinsWith(b, moves[0], q) {
      var rest := moves[1..];
      FirstCompletingIsFirst(b, rest, q);
      forall i | i in moves && i != moves[0] ensures i in rest {
        var k :| 0 <= k < |moves| && moves[k] == i;
        assert rest[k - 1] == i;
      }
    }
  }

  /** A cell FirstCompleting finds among the free cells is the lowest free
      cell that completes a line. */
  lemma FoundIsLowest(b: seq<Value>, q: Value)
    requires |b| == Size && FirstCompleting(b, AvailableMoves(b), q).Some?
    ensures var m := FirstCompleting(b, AvailableMoves(b), q).value;
      Completes(b, m, q) && forall i :: 0 <= i < m ==> !Completes(b, i, q)
  {
    var moves := AvailableMoves(b);
    FirstCompletingIsFirst(b, moves, q);
    var m := FirstCompleting(b, moves, q).value;
    forall i | 0 <= i < m ensures !Completes(b, i, q) {
      if b[i] == Null {
        assert i in moves;
      }
    }
  }

  /** FirstCompleting finds nothing among the free cells exactly when no
      free cell completes a line. */
  lemma NoneFoundIsNone(b: seq<Value>, q: Value)
    requires |b| == Size
    ensures FirstCompleting(b, AvailableMoves(b), q).None? <==> forall i :: 0 <= i < Size ==> !Completes(b, i, q)
  {
    var moves := AvailableMoves(b);
    if FirstCompleting(b, moves, q).None? {
      forall i | 0 <= i < Size ensures !Completes(b, i, q) {
        if b[i] == Null {
          assert i in moves;
          var j :| 0 <= j < |moves| && moves[j] == i;
        }
      }
    } else {
      FoundIsLowest(b, q);
    }
  }

  /** find_random_move: the first free cell, or None on a full board. */
  function FindRandomMove(b: seq<Value>): (m: Option<int>)
    requires |b| == Size
    ensures m.Some? ==> 0 <= m.value < Size && b[m.value] == Null
    ensures m.Some? ==> forall i :: 0 <= i < m.value ==> b[i] != Null
    ensures m.None? <==> forall i :: 0 <= i < Size ==> b[i] != Null
  {
    var moves := AvailableMoves(b);
    if |moves| > 0 then
      FirstAvailable(b);
      Some(moves[0])
    else
      assert forall i :: 0 <= i < Size ==> i !in moves;
      None
  }

  /** find_best_move: the lowest free cell that completes a line for the
      player, else the lowest that completes one for the opponent, else the
      first free cell, else None. The board is not changed: each candidate is
      written into a copy. */
  function FindBestMove(b: seq<Value>, player: Value): (m: Option<int>)
    requires |b| == Size
    ensures m.Some? ==> 0 <= m.value < Size && b[m.value] == Null
    ensures (exists i :: Completes(b, i, player)) ==>
      m.Some? && Completes(b, m.value, player) && forall i :: 0 <= i < m.value ==> !Completes(b, i, player)
    ensures (forall i :: !Completes(b, i, player)) && (exists i :: Completes(b, i, Opponent(player))) ==>
      m.Some? && Completes(b, m.value, Opponent(player))
      && forall i :: 0 <= i < m.value ==> !Completes(b, i, Opponent(player))
    ensures (forall i :: !Completes(b, i, player)) && (forall i :: !Completes(b, i, Opponent(player))) ==>
      m == FindRandomMove(b)
    ensures m.None? <==> forall i :: 0 <= i < Size ==> b[i] != Null
  {
    var moves := AvailableMoves(b);
    var win := FirstCompleting(b, moves, player);
    NoneFoundIsNone(b, player);
    if win.Some? then
      FoundIsLowest(b, player);
      win
    else
      var block := FirstCompleting(b, moves, Opponent(player));
      NoneFoundIsNone(b, Opponent(player));
      if block.Some? then
        FoundIsLowest(b, Opponent(player));
        block
      else FindRandomMove(b)
  }

  /** The mode dispatch of get_move: `aiMode` defaults to 'rule-based' when
      the request has none; any other mode, `null` included, plays the first
      free cell. The reply is a free cell, or None on a full board. */
  function GetMove(b: seq<Value>, player: Value, aiMode: Option<Value>): (m: Option<int>)
    requires |b| == Size
    ensures aiMode.None? || aiMode == Some(Str("rule-based")) ==> m == FindBestMove(b, player)
    ensures aiMode.Some? && aiMode != Some(Str("rule-based")) ==> m == FindRandomMove(b)
    ensures m.Some? ==> 0 <= m.value < Size && b[m.value] == Null
    ensures m.None? <==> forall i :: 0 <= i < Size ==> b[i] != Null
  {
    var mode := if aiMode.Some? then aiMode.value else Str("rule-based");
    if mode == Str("rule-based") then FindBestMove(b, player) else FindRandomMove(b)
  }
}
