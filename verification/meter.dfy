/** `RunningAverageMeter`: the latest value and an exponential moving average of
    the values seen since the last reset. Before the first update there is no
    latest value (`val` is None) and the average is 0; the first update sets the
    average to the value, later ones blend it in with weight 1 - momentum.
 */
module Meter {
  import opened Results

  const DefaultMomentum: real := 0.99

  datatype Meter = Meter(momentum: real, val: Option<real>, avg: real)

  /** `RunningAverageMeter(momentum)`: the given momentum, then a reset. */
  function NewMeter(momentum: real := DefaultMomentum): (m: Meter)
    ensures m == Reset(m)
    ensures m.momentum == momentum
  {
    Reset(Meter(momentum, None, 0.0))
  }

  /** `reset()`: forget the latest value and the average; keep the momentum. */
  function Reset(m: Meter): (r: Meter)
    ensures r.momentum == m.momentum
    ensures r.val.None? && r.avg == 0.0
  {
    Meter(m.momentum, None, 0.0)
  }

  /** `update(val)`. */
  function Update(m: Meter, v: real): (r: Meter)
    ensures r.momentum == m.momentum
    ensures r.val == Some(v)
    ensures m.val.None? ==> r.avg == v
    ensures m.val.Some? && 0.0 <= m.momentum <= 1.0 ==>
              (m.avg <= r.avg <= v) || (v <= r.avg <= m.avg)
  {
    if m.val.None? then
      Meter(m.momentum, Some(v), v)
    else
      var blended := m.avg * m.momentum + v * (1.0 - m.momentum);
      ConvexCombination(m.avg, v, m.momentum, blended);
      Meter(m.momentum, Some(v), blended)
  }

  /** c = a·μ + b·(1 - μ) lies between a and b for μ in [0, 1]. */
  lemma ConvexCombination(a: real, b: real, mu: real, c: real)
    requires c == a * mu + b * (1.0 - mu)
    ensures 0.0 <= mu <= 1.0 ==> (a <= c <= b) || (b <= c <= a)
  {
    if !(0.0 <= mu <= 1.0) {
      return;
    }
    var d := b - a;
    assert c - a == d * (1.0 - mu);
    assert b - c == d * mu;
    if a <= b {
      ProductNonNegative(d, mu);
      ProductNonNegative(d, 1.0 - mu);
    } else {
      ProductNonNegative(-d, mu);
      ProductNonNegative(-d, 1.0 - mu);
      assert -d * mu == -(d * mu);
      assert -d * (1.0 - mu) == -(d * (1.0 - mu));
    }
  }

  lemma ProductNonNegative(x: real, y: real)
    requires x >= 0.0 && y >= 0.0
    ensures x * y >= 0.0
  {
  }

  /** The meter after updating with each of vs in turn. */
  function Feed(m: Meter, vs: seq<real>): Meter
    decreases |vs|
  {
    if |vs| == 0 then m else Update(Feed(m, vs[..|vs| - 1]), vs[|vs| - 1])
  }

  /** The smallest element of a non-empty sequence. */
  function SeqMin(vs: seq<real>): (lo: real)
    requires |vs| > 0
    ensures lo in vs
    ensures forall i :: 0 <= i < |vs| ==> lo <= vs[i]
    decreases |vs|
  {
    if |vs| == 1 then vs[0]
    else
      var m := SeqMin(vs[..|vs| - 1]);
      if vs[|vs| - 1] < m then vs[|vs| - 1] else m
  }

  /** The largest element of a non-empty sequence. */
  function SeqMax(vs: seq<real>): (hi: real)
    requires |vs| > 0
    ensures hi in vs
    ensures forall i :: 0 <= i < |vs| ==> vs[i] <= hi
    decreases |vs|
  {
    if |vs| == 1 then vs[0]
    else
      var m := SeqMax(vs[..|vs| - 1]);
      if vs[|vs| - 1] > m then vs[|vs| - 1] else m
  }

  /** Updating never changes the momentum. */
  lemma {:induction false} FeedKeepsMomentum(m: Meter, vs: seq<real>)
    ensures Feed(m, vs).momentum == m.momentum
    decreases |vs|
  {
    if |vs| > 0 {
      FeedKeepsMomentum(m, vs[..|vs| - 1]);
    }
  }

  /** After a non-empty series of updates `val` is the latest value. */
  lemma FeedKeepsLatest(m: Meter, vs: seq<real>)
    requires |vs| > 0
    ensures Feed(m, vs).val == Some(vs[|vs| - 1])
  {
  }

  /** With momentum in [0, 1] the average stays within the smallest and the
      largest value fed since the last reset. */
  lemma {:induction false} AverageWithinSeenRange(m: Meter, vs: seq<real>)
    requires 0.0 <= m.momentum <= 1.0
    requires |vs| > 0
    ensures SeqMin(vs) <= Feed(Reset(m), vs).avg <= SeqMax(vs)
    decreases |vs|
  {
    var n := |vs|;
    if n > 1 {
      var front := vs[..n - 1];
      AverageWithinSeenRange(m, front);
      FeedKeepsMomentum(Reset(m), front);
      FeedKeepsLatest(Reset(m), front);
    }
  }

  /** Resetting erases all history: what follows a reset does not depend on the
      values fed before it. */
  lemma ResetForgetsHistory(m: Meter, before: seq<real>, after: seq<real>)
    ensures Feed(Reset(Feed(m, before)), after) == Feed(Reset(m), after)
  {
    FeedKeepsMomentum(m, before);
  }

  /** With momentum 0 the average is the latest value; with momentum 1 it stays
      at the first value fed after the reset. */
  lemma {:induction false} ExtremeMomenta(m: Meter, vs: seq<real>)
    requires |vs| > 0
    ensures m.momentum == 0.0 ==> Feed(Reset(m), vs).avg == vs[|vs| - 1]
    ensures m.momentum == 1.0 ==> Feed(Reset(m), vs).avg == vs[0]
    decreases |vs|
  {
    var n := |vs|;
    if n > 1 {
      var front := vs[..n - 1];
      ExtremeMomenta(m, front);
      FeedKeepsMomentum(Reset(m), front);
      FeedKeepsLatest(Reset(m), front);
      assert front[0] == vs[0];
    }
  }
}
