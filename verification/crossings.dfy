/** Sign-change detection, `zero_crossings` in the experiment's helpers:
    `np.where(np.diff(np.sign(x)))[0]`, the indices i at which the sign of x[i]
    (one of -1, 0, 1) differs from the sign of x[i+1]. A step onto or off an
    exact zero therefore counts as a crossing.
 */
module Crossings {

  /** `np.sign` on a real number. */
  function Sign(r: real): (s: int)
    ensures -1 <= s <= 1
    ensures s == 1 <==> r > 0.0
    ensures s == -1 <==> r < 0.0
  {
    if r > 0.0 then 1 else if r < 0.0 then -1 else 0
  }

  /** i is a crossing of x: `np.diff(np.sign(x))[i]` is nonzero. */
  predicate IsCrossing(x: seq<real>, i: int) {
    0 <= i < |x| - 1 && Sign(x[i]) != Sign(x[i + 1])
  }

  predicate StrictlyIncreasing(s: seq<nat>) {
    forall i, j :: 0 <= i < j < |s| ==> s[i] < s[j]
  }

  /** `zero_crossings(x)`: every crossing of x, each once, in increasing order. */
  function ZeroCrossings(x: seq<real>): (r: seq<nat>)
    ensures StrictlyIncreasing(r)
    ensures forall k :: 0 <= k < |r| ==> IsCrossing(x, r[k])
    ensures forall i :: IsCrossing(x, i) ==> i in r
    ensures |x| <= 1 ==> r == []
    ensures |x| >= 1 ==> |r| <= |x| - 1
    decreases |x|
  {
    if |x| <= 1 then []
    else
      var n := |x|;
      var front := x[..n - 1];
      assert forall i :: 0 <= i < n - 2 ==> (IsCrossing(front, i) <==> IsCrossing(x, i));
      ZeroCrossings(front) + (if Sign(x[n - 2]) != Sign(x[n - 1]) then [n - 2] else [])
  }

  /** The loop form: scan the differences left to right and collect the
      indices where the sign changes. */
  method FindZeroCrossings(x: seq<real>) returns (r: seq<nat>)
    ensures r == ZeroCrossings(x)
  {
    r := [];
    if |x| == 0 {
      return;
    }
    var j := 1;
    while j < |x|
      invariant 1 <= j <= |x|
      invariant r == ZeroCrossings(x[..j])
    {
      assert x[..j + 1][..j] == x[..j];
      if Sign(x[j - 1]) != Sign(x[j]) {
        r := r + [j - 1];
      }
      j := j + 1;
    }
    assert x[..j] == x;
  }

  /** A signal that starts strictly on one side of zero and ends strictly on the
      other crosses at least once. */
  lemma {:induction false} OppositeEndsCross(x: seq<real>)
    requires |x| >= 2
    requires (x[0] > 0.0 && x[|x| - 1] < 0.0) || (x[0] < 0.0 && x[|x| - 1] > 0.0)
    ensures |ZeroCrossings(x)| >= 1
  {
    var n := |x|;
    if Sign(x[n - 2]) != Sign(x[n - 1]) {
      assert IsCrossing(x, n - 2);
    } else {
      var front := x[..n - 1];
      assert front[0] == x[0] && front[|front| - 1] == x[n - 2];
      OppositeEndsCross(front);
      var i := ZeroCrossings(front)[0];
      assert IsCrossing(front, i);
      assert IsCrossing(x, i);
    }
  }
}
