/** Vector fields of the experiment: the reference field `Lambda` (the
    mass-spring-damper x'' = -(d·x' + c·x)/m with m = 1, c = 1, d = 0, i.e. the
    undamped harmonic oscillator) and the `modelFunc` adapter that lets a
    batch-only model be called on a single state or on a batch.
 */
module Dynamics {
  import opened Results
  import opened Arrays
  import opened Energy

  /** The constants `Lambda.call` uses. */
  const LambdaMass: real := 1.0
  const LambdaStiffness: real := 1.0
  const LambdaDamping: real := 0.0

  /** The derivative (x', v') = (v, -(d·v + c·x)/m) of a state of the damped
      oscillator with mass m, spring constant c and damping d. */
  function DampedDerivative(s: State, m: real, c: real, d: real): State
    requires m != 0.0
  {
    State(s.vel, -(d * s.vel + c * s.pos) / m)
  }

  /** The rate of change of `Energy(x, v, k, m)` along a direction ds: the dot
      product of its gradient (k·x, m·v) with ds. */
  function EnergyRate(s: State, ds: State, k: real, m: real): real {
    k * s.pos * ds.pos + m * s.vel * ds.vel
  }

  /** `EnergyRate` is the derivative of `Energy`: moving a step h along ds
      changes the energy by h times the rate plus a term of second order in h. */
  lemma EnergyRateIsDerivative(s: State, ds: State, k: real, m: real, h: real)
    ensures Energy.Energy(s.pos + h * ds.pos, s.vel + h * ds.vel, k, m) - StateEnergy(s, k, m)
            == h * EnergyRate(s, ds, k, m) + h * h * StateEnergy(ds, k, m)
  {
  }

  /** Along the damped field the energy (with spring constant c) changes at rate
      -d·v²: it is conserved without damping and dissipated with d > 0. */
  lemma DampedEnergyRate(s: State, m: real, c: real, d: real)
    requires m != 0.0
    ensures EnergyRate(s, DampedDerivative(s, m, c, d), c, m) == -d * s.vel * s.vel
  {
    var f := -(d * s.vel + c * s.pos);
    assert m * (f / m) == f;
    assert m * s.vel * (f / m) == s.vel * f;
  }

  /** `Lambda.call(t, y)` on a batch of states; t is ignored. Each row (x, v) is
      mapped to (v, -x). */
  function LambdaCall(t: real, y: seq<State>): (r: seq<State>)
    ensures |r| == |y|
    ensures forall i :: 0 <= i < |y| ==> r[i] == State(y[i].vel, -y[i].pos)
  {
    seq(|y|, i requires 0 <= i < |y| => DampedDerivative(y[i], LambdaMass, LambdaStiffness, LambdaDamping))
  }

  /** The reference field is tangent to the level sets of `total_energy` with
      its default constants: energy does not change along it. */
  lemma LambdaConservesEnergy(t: real, y: seq<State>)
    ensures forall i :: 0 <= i < |y| ==> EnergyRate(y[i], LambdaCall(t, y)[i], DefaultK, DefaultM) == 0.0
  {
    forall i | 0 <= i < |y|
      ensures EnergyRate(y[i], LambdaCall(t, y)[i], DefaultK, DefaultM) == 0.0
    {
      DampedEnergyRate(y[i], LambdaMass, LambdaStiffness, LambdaDamping);
    }
  }

  /** Applying the reference field twice gives the negated state: x'' = -x. */
  lemma LambdaSecondDerivative(t: real, y: seq<State>)
    ensures LambdaCall(t, LambdaCall(t, y)) == seq(|y|, i requires 0 <= i < |y| => State(-y[i].pos, -y[i].vel))
  {
  }

  /** The argument of `modelFunc.call`: a single state (a rank-1 array) or a
      batch of states (a rank-2 array). */
  datatype Input<R> = Single(row: R) | Batch(rows: seq<R>)

  /** `modelFunc.call(t, x)` for a model mapping batches to batches: a single
      state is wrapped into a batch of one, the model applied, and row 0 of the
      output returned (TensorFlow's InvalidArgumentError if the model returns
      no rows); a batch is
      handed to the model and its output returned unchanged. */
  function ModelFuncCall<R>(model: seq<R> -> seq<R>, t: real, x: Input<R>): (r: Result<Input<R>>)
    ensures r.Ok? ==> (r.value.Single? <==> x.Single?)
    ensures x.Batch? ==> r == Ok(Batch(model(x.rows)))
    ensures x.Single? ==> (r.Err? <==> |model([x.row])| == 0)
    ensures r.Err? ==> r.error == InvalidArgument
  {
    match x
    case Single(s) =>
      var out := model([s]);
      if |out| == 0 then Err(InvalidArgument) else Ok(Single(out[0]))
    case Batch(b) => Ok(Batch(model(b)))
  }

  /** A single state gives the same answer as row 0 of the batch holding only it. */
  lemma SingleAgreesWithBatchOfOne<R>(model: seq<R> -> seq<R>, t: real, s: R)
    ensures ModelFuncCall(model, t, Single(s)).Ok? <==> |ModelFuncCall(model, t, Batch([s])).value.rows| > 0
    ensures ModelFuncCall(model, t, Single(s)).Ok? ==>
              ModelFuncCall(model, t, Single(s)).value.row == ModelFuncCall(model, t, Batch([s])).value.rows[0]
  {
  }

  /** A model that applies f to every row independently. */
  ghost predicate RowWise<R(!new)>(model: seq<R> -> seq<R>, f: R -> R) {
    forall b: seq<R> :: |model(b)| == |b| && forall i :: 0 <= i < |b| ==> model(b)[i] == f(b[i])
  }

  /** Through the adapter a row-wise model acts on a single state as f does. */
  lemma RowWiseOnSingle<R(!new)>(model: seq<R> -> seq<R>, f: R -> R, t: real, s: R)
    requires RowWise(model, f)
    ensures ModelFuncCall(model, t, Single(s)) == Ok(Single(f(s)))
  {
    assert |model([s])| == 1 && model([s])[0] == f([s][0]);
  }

  /** The reference field through the adapter maps a single state (x, v) to (v, -x). */
  lemma LambdaThroughModelFunc(t: real, s: State)
    ensures ModelFuncCall(y => LambdaCall(t, y), t, Single(s)) == Ok(Single(State(s.vel, -s.pos)))
  {
    RowWiseOnSingle(y => LambdaCall(t, y), (u: State) => State(u.vel, -u.pos), t, s);
  }
}
