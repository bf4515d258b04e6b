/** Python's numeric built-ins as the system applies them: `int` on sensor
    readings, and `min` over episode lengths. */
module Numeric {

  /** Python's `int(x)` on a float: truncation toward zero. */
  function Truncate(x: real): (r: int)
    ensures 0.0 <= x ==> 0 <= r && r as real <= x < r as real + 1.0
    ensures x < 0.0 ==> r <= 0 && r as real - 1.0 < x <= r as real
  {
    if x >= 0.0 then x.Floor else -((-x).Floor)
  }

  function TruncateAll(xs: seq<real>): (r: seq<int>)
    ensures |r| == |xs|
    ensures forall i :: 0 <= i < |xs| ==> r[i] == Truncate(xs[i])
  {
    if |xs| == 0 then [] else [Truncate(xs[0])] + TruncateAll(xs[1..])
  }

  /** Truncation keeps the sign and loses less than one unit. */
  lemma TruncateBounds(x: real)
    ensures Truncate(x) == 0 || (Truncate(x) > 0 <==> x > 0.0)
    ensures -1.0 < x - Truncate(x) as real < 1.0
    ensures Truncate(-x) == -Truncate(x)
  {
  }

  /** `min(len(x) for x in xs)`: the length of the shortest sequence. */
  function ShortestLength<T>(xs: seq<seq<T>>): (n: nat)
    requires |xs| > 0
    ensures forall k :: 0 <= k < |xs| ==> n <= |xs[k]|
    ensures exists k :: 0 <= k < |xs| && n == |xs[k]|
  {
    if |xs| == 1 then |xs[0]|
    else
      var rest := ShortestLength(xs[1..]);
      assert forall k :: 1 <= k < |xs| ==> xs[k] == xs[1..][k - 1];
      if |xs[0]| <= rest then |xs[0]| else rest
  }
}
