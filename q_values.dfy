/** The arithmetic the two Q-learning servers share, on exact reals: a row
    of zeros, Python's `max` of a list, and the Q-learning update. */
module QValues {

  /** `[0] * n`. */
  function Zeros(n: nat): (s: seq<real>)
    ensures |s| == n && forall i :: 0 <= i < n ==> s[i] == 0.0
  {
    seq(n, i => 0.0)
  }

  /** `max` of a non-empty list: an element of the list, and no element is
      larger. */
  function Max(s: seq<real>): (m: real)
    requires |s| > 0
    ensures m in s
    ensures forall i :: 0 <= i < |s| ==> s[i] <= m
  {
    if |s| == 1 then s[0]
    else
      var rest := Max(s[1..]);
      assert forall i :: 1 <= i < |s| ==> s[i] == s[1..][i - 1];
      if s[0] >= rest then s[0] else rest
  }

  /** The largest of a row of zeros is zero: a state the table has not seen
      yet promises nothing. */
  lemma MaxZeros(n: nat)
    requires n > 0
    ensures Max(Zeros(n)) == 0.0
  {
  }

  /** `old_value + alpha * (reward + gamma * future_optimal_value - old_value)`. */
  function NewValue(oldValue: real, reward: real, future: real, alpha: real, gamma: real): (v: real)
    ensures alpha == 0.0 ==> v == oldValue
    ensures alpha == 1.0 ==> v == reward + gamma * future
  {
    oldValue + alpha * (reward + gamma * future - oldValue)
  }

  /** With a learning rate between 0 and 1 the new value lies between the old
      value and the target `reward + gamma * future`: the update moves the
      estimate towards the target and never past it. */
  lemma NewValueBetween(oldValue: real, reward: real, future: real, alpha: real, gamma: real)
    requires 0.0 <= alpha <= 1.0
    ensures var target := reward + gamma * future;
      var v := NewValue(oldValue, reward, future, alpha, gamma);
      (oldValue <= target ==> oldValue <= v <= target) && (target <= oldValue ==> target <= v <= oldValue)
  {
    var target := reward + gamma * future;
    var d := target - oldValue;
    assert NewValue(oldValue, reward, future, alpha, gamma) == oldValue + alpha * d;
    if d >= 0.0 {
      assert 0.0 <= alpha * d <= d by { MulBetween(alpha, d); }
    } else {
      assert d <= alpha * d <= 0.0 by { MulBetween(alpha, -d); }
    }
  }

  lemma MulBetween(a: real, d: real)
    requires 0.0 <= a <= 1.0 && 0.0 <= d
    ensures 0.0 <= a * d <= d
  {
    assert d - a * d == (1.0 - a) * d;
  }
}
