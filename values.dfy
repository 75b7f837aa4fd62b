/** Values shared by every module: an optional value, the dynamically typed
    value a Python server reads out of a JSON request body, and the player
    types of the two browser scripts. */
module Values {

  datatype Option<+T> = None | Some(value: T)

  /** A board cell or a player as the Python servers see it: JSON `null`
      (Python `None`), a string such as "X" or "Red", or an integer.
      Python's `==` on these is structural, so a string never equals an
      integer and `None` equals only `None`. */
  datatype Value = Null | Str(s: string) | Int(i: int)

  /** The value of a player's radio button in either browser script: 'me',
      'rule-based' or 'q-learning'. */
  datatype PlayerType = Me | RuleBased | QLearning

  /** `'O' if player == 'X' else 'X'`, the opponent of both rule-based
      servers: the opponent of every player other than "X", including "Red"
      and "Yellow", is "X". */
  function Opponent(player: Value): (q: Value)
    ensures player == Str("X") ==> q == Str("O")
    ensures player != Str("X") ==> q == Str("X")
  {
    if player == Str("X") then Str("O") else Str("X")
  }
}
