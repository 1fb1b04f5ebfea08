/** The trajectory metrics used to evaluate a learned model: relative energy drift,
    relative phase error and mean absolute trajectory error, each comparing a
    predicted trajectory with a reference one.
 */
module Metrics {
  import opened Results
  import opened Arrays
  import opened Energy
  import opened Crossings

  function Sum(s: seq<real>): real
    decreases |s|
  {
    if |s| == 0 then 0.0 else Sum(s[..|s| - 1]) + s[|s| - 1]
  }

  /** `np.mean` of a non-empty array (the mean of an empty array is NaN). */
  function Mean(s: seq<real>): real
    requires |s| > 0
  {
    Sum(s) / (|s| as real)
  }

  function Abs(r: real): (a: real)
    ensures a >= 0.0
    ensures a == 0.0 <==> r == 0.0
    ensures a == r || a == -r
  {
    if r < 0.0 then -r else r
  }

  lemma {:induction false} SumAtLeast(s: seq<real>, c: real)
    requires forall i :: 0 <= i < |s| ==> s[i] >= c
    ensures Sum(s) >= (|s| as real) * c
    decreases |s|
  {
    if |s| > 0 {
      SumAtLeast(s[..|s| - 1], c);
    }
  }

  lemma {:induction false} SumAtMost(s: seq<real>, c: real)
    requires forall i :: 0 <= i < |s| ==> s[i] <= c
    ensures Sum(s) <= (|s| as real) * c
    decreases |s|
  {
    if |s| > 0 {
      SumAtMost(s[..|s| - 1], c);
    }
  }

  lemma {:induction false} SumBelow(s: seq<real>, c: real)
    requires |s| > 0
    requires forall i :: 0 <= i < |s| ==> s[i] < c
    ensures Sum(s) < (|s| as real) * c
    decreases |s|
  {
    if |s| > 1 {
      SumBelow(s[..|s| - 1], c);
    }
  }

  /** A sum of non-negative terms is zero exactly when every term is. */
  lemma {:induction false} SumZeroIffAllZero(s: seq<real>)
    requires forall i :: 0 <= i < |s| ==> s[i] >= 0.0
    ensures Sum(s) == 0.0 <==> forall i :: 0 <= i < |s| ==> s[i] == 0.0
    decreases |s|
  {
    if |s| > 0 {
      var front := s[..|s| - 1];
      SumZeroIffAllZero(front);
      SumAtLeast(front, 0.0);
      if Sum(s) == 0.0 {
        assert s[|s| - 1] == 0.0;
        forall i | 0 <= i < |s|
          ensures s[i] == 0.0
        {
          if i < |s| - 1 {
            assert front[i] == s[i];
          }
        }
      }
    }
  }

  lemma MeanAtLeast(s: seq<real>, c: real)
    requires |s| > 0
    requires forall i :: 0 <= i < |s| ==> s[i] >= c
    ensures Mean(s) >= c
  {
    SumAtLeast(s, c);
    var n := |s| as real;
    assert Mean(s) * n == Sum(s);
  }

  lemma MeanAtMost(s: seq<real>, c: real)
    requires |s| > 0
    requires forall i :: 0 <= i < |s| ==> s[i] <= c
    ensures Mean(s) <= c
  {
    SumAtMost(s, c);
    var n := |s| as real;
    assert Mean(s) * n == Sum(s);
  }

  lemma MeanBelow(s: seq<real>, c: real)
    requires |s| > 0
    requires forall i :: 0 <= i < |s| ==> s[i] < c
    ensures Mean(s) < c
  {
    SumBelow(s, c);
    var n := |s| as real;
    assert Mean(s) * n == Sum(s);
  }

  // ---------------------------------------------------------------------------
  // relative_energy_drift

  /** Row t of a trajectory under Python indexing, or None where `xs[t]` raises
      IndexError. */
  function At(xs: Trajectory, t: int): (r: Option<State>)
    ensures r.Some? <==> -(|xs| as int) <= t < |xs|
    ensures r.Some? ==> r.value in xs
  {
    match PyIndex(|xs|, t)
    case None => None
    case Some(i) => Some(xs[i])
  }

  /** The reference energy at t is nonzero whenever both rows at t exist (a
      zero energy would make the drift infinite or NaN; a missing row raises
      IndexError before anything is divided). */
  predicate DriftDefined(pred: Trajectory, truth: Trajectory, t: int) {
    At(pred, t).Some? && At(truth, t).Some? ==>
      StateEnergy(At(truth, t).value, DefaultK, DefaultM) != 0.0
  }

  /** `relative_energy_drift(x_pred, x_true, t=-1)`: the energy of the predicted
      state at t relative to the energy of the reference state at t, minus one. */
  function RelativeEnergyDrift(pred: Trajectory, truth: Trajectory, t: int := -1): (r: Result<real>)
    requires DriftDefined(pred, truth, t)
    ensures r.Ok? <==> At(pred, t).Some? && At(truth, t).Some?
    ensures r.Err? ==> r.error == IndexError
    ensures r.Ok? ==>
              (1.0 + r.value) * StateEnergy(At(truth, t).value, DefaultK, DefaultM)
              == StateEnergy(At(pred, t).value, DefaultK, DefaultM)
    ensures r.Ok? && At(pred, t) == At(truth, t) ==> r.value == 0.0
    ensures r.Ok? ==> r.value >= -1.0
  {
    match (At(pred, t), At(truth, t))
    case (Some(p), Some(q)) =>
      var ep := StateEnergy(p, DefaultK, DefaultM);
      var et := StateEnergy(q, DefaultK, DefaultM);
      DriftAtLeastMinusOne(ep, et);
      Ok((ep - et) / et)
    case _ => Err(IndexError)
  }

  lemma DriftAtLeastMinusOne(ep: real, et: real)
    requires ep >= 0.0 && et > 0.0
    ensures (ep - et) / et >= -1.0
    ensures (1.0 + (ep - et) / et) * et == ep
  {
    var q := (ep - et) / et;
    assert q * et == ep - et;
    if q < -1.0 {
      assert (q + 1.0) * et < 0.0;
    }
  }

  /** A prediction that follows the reference has zero energy drift at every
      index that exists, in particular at the default index -1. */
  lemma DriftOfIdenticalTrajectories(xs: Trajectory, t: int)
    requires DriftDefined(xs, xs, t)
    requires -(|xs| as int) <= t < |xs|
    ensures RelativeEnergyDrift(xs, xs, t) == Ok(0.0)
  {
  }

  // ---------------------------------------------------------------------------
  // trajectory_error

  /** |a - b| in column `col` (0 position, 1 velocity) of two states. */
  function ColumnAbsDiff(a: State, b: State, col: nat): real {
    if col == 0 then Abs(a.pos - b.pos) else Abs(a.vel - b.vel)
  }

  /** `np.abs(x_pred - x_val)`, flattened in row-major order, after both arrays
      are broadcast to n rows. */
  function AbsDiffs(pred: Trajectory, val: Trajectory, n: nat): (d: seq<real>)
    requires |pred| == 1 || n <= |pred|
    requires |val| == 1 || n <= |val|
    ensures |d| == 2 * n
    ensures forall j :: 0 <= j < |d| ==> d[j] >= 0.0
  {
    seq(2 * n, j requires 0 <= j < 2 * n =>
      ColumnAbsDiff(BroadcastRow(pred, j / 2), BroadcastRow(val, j / 2), j % 2))
  }

  /** The broadcast length is nonzero wherever broadcasting succeeds (the mean of
      an empty array is NaN). */
  predicate TrajectoryErrorDefined(pred: Trajectory, val: Trajectory) {
    BroadcastLength(|pred|, |val|) != Some(0)
  }

  /** `trajectory_error(x_pred, x_val)`: the mean absolute difference over every
      entry of the two (n, 2) arrays; shapes numpy cannot broadcast raise
      ValueError. The result is zero exactly when the broadcast rows agree. */
  function TrajectoryError(pred: Trajectory, val: Trajectory): (r: Result<real>)
    requires TrajectoryErrorDefined(pred, val)
    ensures r.Ok? <==> BroadcastLength(|pred|, |val|).Some?
    ensures r.Err? ==> r.error == BroadcastError
    ensures r.Ok? ==> r.value >= 0.0
    ensures r.Ok? ==>
              (r.value == 0.0 <==>
               forall i :: 0 <= i < BroadcastLength(|pred|, |val|).value ==>
                 BroadcastRow(pred, i) == BroadcastRow(val, i))
  {
    match BroadcastLength(|pred|, |val|)
    case None => Err(BroadcastError)
    case Some(n) =>
      var d := AbsDiffs(pred, val, n);
      MeanAtLeast(d, 0.0);
      MeanZeroIffRowsAgree(pred, val, n);
      Ok(Mean(d))
  }

  lemma MeanZeroIffRowsAgree(pred: Trajectory, val: Trajectory, n: nat)
    requires n > 0
    requires |pred| == 1 || n <= |pred|
    requires |val| == 1 || n <= |val|
    ensures Mean(AbsDiffs(pred, val, n)) == 0.0 <==>
            forall i :: 0 <= i < n ==> BroadcastRow(pred, i) == BroadcastRow(val, i)
  {
    var d := AbsDiffs(pred, val, n);
    SumZeroIffAllZero(d);
    assert Mean(d) == 0.0 <==> Sum(d) == 0.0;
    if forall j :: 0 <= j < |d| ==> d[j] == 0.0 {
      forall i | 0 <= i < n
        ensures BroadcastRow(pred, i) == BroadcastRow(val, i)
      {
        assert d[2 * i] == 0.0 && d[2 * i + 1] == 0.0;
      }
    }
    if forall i :: 0 <= i < n ==> BroadcastRow(pred, i) == BroadcastRow(val, i) {
      forall j | 0 <= j < |d|
        ensures d[j] == 0.0
      {
        assert BroadcastRow(pred, j / 2) == BroadcastRow(val, j / 2);
      }
    }
  }

  /** For two trajectories of the same non-zero length the error is zero exactly
      when they are equal. */
  lemma TrajectoryErrorZeroIffEqual(pred: Trajectory, val: Trajectory)
    requires |pred| == |val| > 0
    ensures TrajectoryError(pred, val) == Ok(0.0) <==> pred == val
  {
    if TrajectoryError(pred, val) == Ok(0.0) {
      forall i | 0 <= i < |pred|
        ensures pred[i] == val[i]
      {
        assert BroadcastRow(pred, i) == BroadcastRow(val, i);
      }
    }
  }

  /** The error does not depend on which trajectory is the reference. */
  lemma TrajectoryErrorSymmetric(pred: Trajectory, val: Trajectory)
    requires TrajectoryErrorDefined(pred, val)
    ensures TrajectoryErrorDefined(val, pred)
    ensures TrajectoryError(pred, val) == TrajectoryError(val, pred)
  {
    match BroadcastLength(|pred|, |val|)
    case None =>
    case Some(n) =>
      var d, e := AbsDiffs(pred, val, n), AbsDiffs(val, pred, n);
      forall j | 0 <= j < 2 * n
        ensures d[j] == e[j]
      {
      }
      assert d == e;
  }

  // ---------------------------------------------------------------------------
  // relative_phase_error

  /** `zero_crossings(xs[:, 0])`: the crossings of the position signal. */
  function CrossingsOf(xs: Trajectory): seq<nat> {
    ZeroCrossings(Positions(xs))
  }

  function Min(a: nat, b: nat): nat {
    if a <= b then a else b
  }

  /** Both signals cross at least once and neither crosses at index 0 (a crossing
      at 0 divides by zero, and no crossing at all leaves an empty mean). */
  predicate PhaseErrorDefined(pred: Trajectory, val: Trajectory) {
    var rc, pc := CrossingsOf(val), CrossingsOf(pred);
    |rc| > 0 && |pc| > 0 && rc[0] > 0 && pc[0] > 0
  }

  /** Each term of the mean: `(1/r - 1/p) * r` for a reference crossing r and the
      predicted crossing p of the same rank. */
  function PhaseTerm(r: nat, p: nat): real
    requires r > 0 && p > 0
  {
    (1.0 / (r as real) - 1.0 / (p as real)) * (r as real)
  }

  /** The crossing lists of a phase comparison: both non-empty, strictly
      increasing, and starting after index 0. */
  predicate ValidCrossings(rc: seq<nat>, pc: seq<nat>) {
    && |rc| > 0 && |pc| > 0
    && StrictlyIncreasing(rc) && StrictlyIncreasing(pc)
    && rc[0] > 0 && pc[0] > 0
  }

  /** `1 - r_k / p_k` for the first n crossings. */
  function PhaseRatios(rc: seq<nat>, pc: seq<nat>, n: nat): (q: seq<real>)
    requires n <= |rc| && n <= |pc|
    requires forall k :: 0 <= k < n ==> pc[k] > 0
    ensures |q| == n
  {
    seq(n, k requires 0 <= k < n => 1.0 - (rc[k] as real) / (pc[k] as real))
  }

  /** The metric on two crossing lists: the mean of the phase terms over the
      shorter list. Since every term is `1 - r_k / p_k` with r_k, p_k > 0, the
      metric is the mean of those ratios and lies below 1. */
  function PhaseErrorOf(rc: seq<nat>, pc: seq<nat>): (e: real)
    requires ValidCrossings(rc, pc)
    ensures forall k :: 0 <= k < Min(|rc|, |pc|) ==> pc[k] > 0
    ensures e == Mean(PhaseRatios(rc, pc, Min(|rc|, |pc|)))
    ensures e < 1.0
  {
    var n := Min(|rc|, |pc|);
    CrossingsPositive(rc);
    CrossingsPositive(pc);
    var terms := seq(n, k requires 0 <= k < n => PhaseTerm(rc[k], pc[k]));
    TermsAreRatios(rc, pc, n, terms);
    MeanBelow(terms, 1.0);
    Mean(terms)
  }

  /** The source's terms `(1/r - 1/p) * r` are the ratios `1 - r/p`, each below 1. */
  lemma TermsAreRatios(rc: seq<nat>, pc: seq<nat>, n: nat, terms: seq<real>)
    requires n <= |rc| && n <= |pc|
    requires forall k :: 0 <= k < n ==> rc[k] > 0 && pc[k] > 0
    requires |terms| == n && forall k :: 0 <= k < n ==> terms[k] == PhaseTerm(rc[k], pc[k])
    ensures terms == PhaseRatios(rc, pc, n)
    ensures forall k :: 0 <= k < n ==> terms[k] < 1.0
  {
    var ratios := PhaseRatios(rc, pc, n);
    forall k | 0 <= k < n
      ensures terms[k] == ratios[k] && terms[k] < 1.0
    {
      PhaseTermIsOneMinusRatio(rc[k], pc[k]);
    }
  }

  /** `relative_phase_error(x_pred, x_val)`: the phase metric on the crossings
      of the reference (`x_val`) and predicted position signals. */
  function RelativePhaseError(pred: Trajectory, val: Trajectory): (r: real)
    requires PhaseErrorDefined(pred, val)
    ensures ValidCrossings(CrossingsOf(val), CrossingsOf(pred))
    ensures r < 1.0
  {
    var rc, pc := CrossingsOf(val), CrossingsOf(pred);
    PhaseErrorOf(rc, pc)
  }

  /** A strictly increasing list whose first entry is positive is positive
      throughout. */
  lemma CrossingsPositive(c: seq<nat>)
    requires StrictlyIncreasing(c) && |c| > 0 && c[0] > 0
    ensures forall k :: 0 <= k < |c| ==> c[k] > 0
  {
    forall k | 0 < k < |c|
      ensures c[k] > 0
    {
      assert c[0] < c[k];
    }
  }

  lemma PhaseTermIsOneMinusRatio(r: nat, p: nat)
    requires r > 0 && p > 0
    ensures PhaseTerm(r, p) == 1.0 - (r as real) / (p as real)
    ensures PhaseTerm(r, p) < 1.0
  {
    var a, b := r as real, p as real;
    assert (1.0 / a) * a == 1.0;
    assert (1.0 / b) * a == a / b;
    assert a / b > 0.0;
  }

  /** A prediction whose compared crossings all come no earlier than the
      reference's (it lags) has a non-negative phase error. */
  lemma LaggingCrossings(rc: seq<nat>, pc: seq<nat>)
    requires ValidCrossings(rc, pc)
    ensures (forall k :: 0 <= k < Min(|rc|, |pc|) ==> rc[k] <= pc[k]) ==> PhaseErrorOf(rc, pc) >= 0.0
  {
    var n := Min(|rc|, |pc|);
    var q := PhaseRatios(rc, pc, n);
    assert PhaseErrorOf(rc, pc) == Mean(q);
    if forall k :: 0 <= k < n ==> rc[k] <= pc[k] {
      forall k | 0 <= k < n
        ensures q[k] >= 0.0
      {
        RatioVersusOne(rc[k], pc[k]);
      }
      MeanAtLeast(q, 0.0);
    }
  }

  /** A prediction whose compared crossings all come no later than the
      reference's (it leads) has a non-positive phase error. */
  lemma LeadingCrossings(rc: seq<nat>, pc: seq<nat>)
    requires ValidCrossings(rc, pc)
    ensures (forall k :: 0 <= k < Min(|rc|, |pc|) ==> pc[k] <= rc[k]) ==> PhaseErrorOf(rc, pc) <= 0.0
  {
    var n := Min(|rc|, |pc|);
    var q := PhaseRatios(rc, pc, n);
    assert PhaseErrorOf(rc, pc) == Mean(q);
    if forall k :: 0 <= k < n ==> pc[k] <= rc[k] {
      forall k | 0 <= k < n
        ensures q[k] <= 0.0
      {
        RatioVersusOne(rc[k], pc[k]);
      }
      MeanAtMost(q, 0.0);
    }
  }

  lemma RatioVersusOne(r: nat, p: nat)
    requires p > 0
    ensures r <= p ==> 1.0 - (r as real) / (p as real) >= 0.0
    ensures p <= r ==> 1.0 - (r as real) / (p as real) <= 0.0
  {
    var a, b := r as real, p as real;
    var q := a / b;
    assert q * b == a;
    if r <= p {
      assert (1.0 - q) * b == b - a;
      FactorNonNegative(1.0 - q, b);
    }
    if p <= r {
      assert (q - 1.0) * b == a - b;
      FactorNonNegative(q - 1.0, b);
    }
  }

  lemma FactorNonNegative(x: real, b: real)
    requires b > 0.0 && x * b >= 0.0
    ensures x >= 0.0
  {
  }

  /** When the compared crossings coincide the phase error is zero. */
  lemma MatchingCrossingsNoPhaseError(rc: seq<nat>, pc: seq<nat>)
    requires ValidCrossings(rc, pc)
    ensures var n := Min(|rc|, |pc|);
            rc[..n] == pc[..n] ==> PhaseErrorOf(rc, pc) == 0.0
  {
    var n := Min(|rc|, |pc|);
    if rc[..n] == pc[..n] {
      forall k | 0 <= k < n
        ensures rc[k] == pc[k]
      {
        assert rc[..n][k] == pc[..n][k];
      }
      LaggingCrossings(rc, pc);
      LeadingCrossings(rc, pc);
    }
  }

  /** A trajectory compared with itself has phase error zero. */
  lemma PhaseErrorOfIdenticalTrajectories(xs: Trajectory)
    requires PhaseErrorDefined(xs, xs)
    ensures RelativePhaseError(xs, xs) == 0.0
  {
    var c := CrossingsOf(xs);
    MatchingCrossingsNoPhaseError(c, c);
  }
}
