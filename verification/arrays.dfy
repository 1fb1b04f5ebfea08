/** The array shapes the experiment's helpers work on.

    A trajectory is an array of shape (n, 2): one (position, velocity) row per
    time step. `total_energy` additionally branches on the rank of an arbitrary
    array, so a small n-dimensional array type is provided for it.
 */
module Arrays {
  import opened Results

  /** One state of the oscillator: position x and velocity x_dt. */
  datatype State = State(pos: real, vel: real)

  /** A trajectory: the rows of an (n, 2) array, in time order. */
  type Trajectory = seq<State>

  /** An array of real numbers, by rank. `Matrix` stores its column count so that
      an array with no rows still has a width; `OtherRank` is an array of any
      rank except 1 and 2, whose entries this model does not track. */
  datatype NdArray =
    | Vector(elems: seq<real>)
    | Matrix(rows: seq<seq<real>>, width: nat)
    | OtherRank(ndim: nat)

  /** The shapes numpy can actually build. */
  predicate WellFormed(a: NdArray) {
    match a
    case Vector(_) => true
    case Matrix(rows, width) => forall i :: 0 <= i < |rows| ==> |rows[i]| == width
    case OtherRank(ndim) => ndim != 1 && ndim != 2
  }

  /** `len(a.shape)` */
  function Rank(a: NdArray): nat {
    match a
    case Vector(_) => 1
    case Matrix(_, _) => 2
    case OtherRank(ndim) => ndim
  }

  /** The array of shape (n, 2) that holds a trajectory. */
  function AsMatrix(xs: Trajectory): (a: NdArray)
    ensures WellFormed(a) && Rank(a) == 2
    ensures a.Matrix? && |a.rows| == |xs| && a.width == 2
    ensures forall i :: 0 <= i < |xs| ==> a.rows[i] == [xs[i].pos, xs[i].vel]
  {
    Matrix(seq(|xs|, i requires 0 <= i < |xs| => [xs[i].pos, xs[i].vel]), 2)
  }

  /** The position column `x[:, 0]` of a trajectory. */
  function Positions(xs: Trajectory): (p: seq<real>)
    ensures |p| == |xs|
    ensures forall i :: 0 <= i < |xs| ==> p[i] == xs[i].pos
  {
    seq(|xs|, i requires 0 <= i < |xs| => xs[i].pos)
  }

  /** Python indexing `a[t]` into an axis of length n: negative t counts from
      the end; anything outside [-n, n) raises IndexError (None here). */
  function PyIndex(n: nat, t: int): (r: Option<nat>)
    ensures r.Some? <==> -(n as int) <= t < n
    ensures r.Some? ==> r.value < n
    ensures r.Some? && t >= 0 ==> r.value == t
    ensures r.Some? && t < 0 ==> r.value + (-t) == n
  {
    if 0 <= t < n then Some(t)
    else if -(n as int) <= t < 0 then Some(n + t)
    else None
  }

  /** numpy broadcasting of the leading axes of two arrays of lengths n and m:
      equal lengths pair up, a length-1 axis is repeated, anything else fails. */
  function BroadcastLength(n: nat, m: nat): (r: Option<nat>)
    ensures r.Some? <==> (n == m || n == 1 || m == 1)
    ensures r.Some? && n == m ==> r.value == n
    ensures r.Some? && n != m ==> r.value == (if n == 1 then m else n)
  {
    if n == m then Some(n)
    else if n == 1 then Some(m)
    else if m == 1 then Some(n)
    else None
  }

  /** Row i of an array after broadcasting it to a longer leading axis. */
  function BroadcastRow(xs: Trajectory, i: nat): State
    requires |xs| == 1 || i < |xs|
  {
    if |xs| == 1 then xs[0] else xs[i]
  }
}
