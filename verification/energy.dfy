/** Total mechanical energy of the mass-spring-damper, `total_energy` in the
    experiment's helpers: spring energy 0.5·k·x² plus kinetic energy 0.5·m·v²,
    for one state (a rank-1 array) or row by row for a batch (a rank-2 array).
 */
module Energy {
  import opened Results
  import opened Arrays

  /** Default spring constant and mass of `total_energy`. */
  const DefaultK: real := 1.0
  const DefaultM: real := 1.0

  /** The energy of position x and velocity v. */
  function Energy(x: real, v: real, k: real, m: real): (e: real)
    ensures k >= 0.0 && m >= 0.0 ==> e >= 0.0
  {
    0.5 * k * x * x + 0.5 * m * v * v
  }

  function StateEnergy(s: State, k: real, m: real): real {
    Energy(s.pos, s.vel, k, m)
  }

  /** The value `total_energy` returns: a scalar for one state, one energy per
      row for a batch. */
  datatype EnergyValue = Scalar(e: real) | PerRow(es: seq<real>)

  /** `total_energy(state, k, m)`. A rank-1 array uses its first two entries, a
      rank-2 array its first two columns; a missing entry or column raises
      IndexError and any other rank raises ValueError. */
  function TotalEnergy(a: NdArray, k: real := DefaultK, m: real := DefaultM): (r: Result<EnergyValue>)
    requires WellFormed(a)
    ensures r == Err(RankError(Rank(a))) <==> Rank(a) != 1 && Rank(a) != 2
    ensures r == Err(IndexError) <==>
              (a.Vector? && |a.elems| < 2) || (a.Matrix? && a.width < 2)
    ensures r.Ok? && a.Vector? ==> r.value.Scalar?
    ensures r.Ok? && a.Matrix? ==> r.value.PerRow? && |r.value.es| == |a.rows|
    ensures r.Ok? && k >= 0.0 && m >= 0.0 ==>
              match r.value
              case Scalar(e) => e >= 0.0
              case PerRow(es) => forall i :: 0 <= i < |es| ==> es[i] >= 0.0
  {
    match a
    case Vector(s) =>
      if |s| < 2 then Err(IndexError) else Ok(Scalar(Energy(s[0], s[1], k, m)))
    case Matrix(rows, width) =>
      if width < 2 then Err(IndexError)
      else Ok(PerRow(seq(|rows|, i requires 0 <= i < |rows| => Energy(rows[i][0], rows[i][1], k, m))))
    case OtherRank(ndim) => Err(RankError(ndim))
  }

  /** The batched form agrees with the single-state form row by row: row i of
      `total_energy(batch)` is `total_energy(batch[i])`. */
  lemma BatchedMatchesSingle(a: NdArray, k: real, m: real, i: nat)
    requires WellFormed(a) && a.Matrix? && a.width >= 2 && i < |a.rows|
    ensures TotalEnergy(Vector(a.rows[i]), k, m).Ok?
    ensures TotalEnergy(a, k, m).Ok?
    ensures TotalEnergy(a, k, m).value.es[i] == TotalEnergy(Vector(a.rows[i]), k, m).value.e
  {
  }

  /** A state, written as the rank-1 array [x, v], has the energy of that state. */
  lemma VectorEnergyIsStateEnergy(s: State, k: real, m: real)
    ensures TotalEnergy(Vector([s.pos, s.vel]), k, m) == Ok(Scalar(StateEnergy(s, k, m)))
  {
  }

  /** A trajectory, written as an (n, 2) array, has one energy per state. */
  lemma TrajectoryEnergy(xs: Trajectory, k: real, m: real)
    ensures TotalEnergy(AsMatrix(xs), k, m).Ok?
    ensures TotalEnergy(AsMatrix(xs), k, m).value ==
            PerRow(seq(|xs|, i requires 0 <= i < |xs| => StateEnergy(xs[i], k, m)))
  {
  }
}
