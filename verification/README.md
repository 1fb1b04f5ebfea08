# Mass-spring-damper evaluation helpers, modelled in Dafny

This project models the pure helper and metric layer of a Neural ODE experiment. The experiment learns the dynamics of a mass-spring-damper system, and this layer is how it scores a learned vector field against the true physical system. Everything is stated over Dafny `real` numbers. A trajectory is a sequence of `State(pos, vel)` rows, the model of an (n, 2) array.

Modules (one file each):

- `Results` (`results.dfy`): `Option`, and `Result` carrying the exceptions a reachable input can raise. These are `RankError` (ValueError on a bad rank), `IndexError`, `BroadcastError` (ValueError on shapes numpy cannot broadcast), and `InvalidArgument` (TensorFlow's InvalidArgumentError when a tensor is sliced out of range).
- `Arrays` (`arrays.dfy`): states and trajectories. It also has a rank-tagged `NdArray`, Python negative indexing (`PyIndex`) and numpy broadcasting of leading axes (`BroadcastLength`).
- `Energy` (`energy.dfy`): `total_energy` for a single state and for a batch, with its error paths.
- `Crossings` (`crossings.dfy`): `zero_crossings`, as a recursive function and as a loop, both with the same characterisation.
- `Metrics` (`metrics.dfy`): `relative_energy_drift`, `relative_phase_error` and `trajectory_error`, plus the `Sum`/`Mean` lemmas they rest on.
- `Dynamics` (`dynamics.dfy`): the reference field `Lambda.call`, the general damped-oscillator derivative it instantiates, and the `modelFunc.call` adapter.
- `Meter` (`meter.dfy`): `RunningAverageMeter` as an immutable record, with `Reset`, `Update` and `Feed` (a sequence of updates).

Python's floating-point NaN and infinity never appear. Where the code would produce them, a precondition rules the case out:

- a zero reference energy in the drift;
- a crossing at index 0, or no crossing at all, in the phase error;
- an empty broadcast result in the trajectory error.

`Lambda.call` indexes `y[:, 1]`, so it accepts only a batch; a single state reaches it only through `modelFunc` (`Dynamics.LambdaThroughModelFunc`).

## Model

| member | source | states |
|---|---|---|
| Crossings.ZeroCrossings | experiments/massspringdamper/utils.py:314-316 | Returns exactly the indices i < n-1 at which sign(x[i]) and sign(x[i+1]) differ, with sign in {-1, 0, 1}. They are strictly increasing and there are at most n-1 of them. An input of length 0 or 1 gives an empty result. |
| Crossings.FindZeroCrossings | experiments/massspringdamper/utils.py:314-316 | A left-to-right scan of the sign differences gives the same list as the recursive definition. |
| Crossings.OppositeEndsCross | experiments/massspringdamper/utils.py:314-316 | A signal that starts strictly on one side of zero and ends strictly on the other has at least one crossing. |
| Energy.Energy | experiments/massspringdamper/utils.py:114 | 0.5·k·x² + 0.5·m·v² is never negative when k, m ≥ 0. |
| Energy.TotalEnergy | experiments/massspringdamper/utils.py:111-117 | k and m default to 1. Any rank other than 1 or 2 raises ValueError, and a missing entry or column raises IndexError. A rank-1 input gives a scalar and a rank-2 input gives one value per row. All values are non-negative when k, m ≥ 0. |
| Energy.BatchedMatchesSingle | experiments/massspringdamper/utils.py:113-116 | Row i of the batched energy equals the energy of row i computed on its own. |
| Energy.VectorEnergyIsStateEnergy | experiments/massspringdamper/utils.py:113-114 | The rank-1 array [x, v] has the energy of the state (x, v). |
| Energy.TrajectoryEnergy | experiments/massspringdamper/utils.py:115-116 | An (n, 2) trajectory gets one energy per state, in order. |
| Metrics.RelativeEnergyDrift | experiments/massspringdamper/utils.py:120-129 | Raises IndexError exactly when t is outside [-n, n) for either trajectory, whatever the energies. Only when both rows exist must the reference energy be nonzero. Otherwise (1 + drift)·E_true = E_pred. The drift is 0 when the two states at t are equal, and it is never below -1. |
| Metrics.DriftOfIdenticalTrajectories | experiments/massspringdamper/utils.py:120-129 | A trajectory compared with itself has drift exactly 0 at every valid index. |
| Metrics.TrajectoryError | experiments/massspringdamper/utils.py:148-149 | Shapes that cannot be broadcast raise ValueError. Otherwise the error is ≥ 0, and it is 0 exactly when the broadcast rows agree. |
| Metrics.TrajectoryErrorZeroIffEqual | experiments/massspringdamper/utils.py:148-149 | For non-empty trajectories of equal length the error is 0 if and only if they are equal. |
| Metrics.TrajectoryErrorSymmetric | experiments/massspringdamper/utils.py:148-149 | Swapping the prediction and the reference does not change the result. |
| Metrics.RelativePhaseError | experiments/massspringdamper/utils.py:141-145 | Takes the crossings of the two position columns (reference first), which are valid inputs to the phase metric, and the result is always below 1. |
| Metrics.PhaseErrorOf | experiments/massspringdamper/utils.py:143-145 | Compares only the first min(len(pred), len(ref)) crossings. The mean of the source's terms (1/r − 1/p)·r equals the mean of 1 − r_k/p_k, so it is below 1. |
| Metrics.LaggingCrossings | experiments/massspringdamper/utils.py:143-145 | If no compared predicted crossing comes before the reference one, the phase error is ≥ 0. |
| Metrics.LeadingCrossings | experiments/massspringdamper/utils.py:143-145 | If no compared predicted crossing comes after the reference one, the phase error is ≤ 0. |
| Metrics.MatchingCrossingsNoPhaseError | experiments/massspringdamper/utils.py:143-145 | Equal crossing prefixes give a phase error of exactly 0. |
| Metrics.PhaseErrorOfIdenticalTrajectories | experiments/massspringdamper/utils.py:141-145 | A trajectory compared with itself has phase error 0. |
| Arrays.PyIndex | experiments/massspringdamper/utils.py:127-128 | Python indexing succeeds exactly for t in [-n, n). A negative t counts from the end. |
| Arrays.BroadcastLength | experiments/massspringdamper/utils.py:149 | numpy broadcasting of two leading axes succeeds exactly when the lengths are equal or one of them is 1. |
| Dynamics.LambdaCall | experiments/massspringdamper/utils.py:14-18 | With m = 1, c = 1, d = 0 the field maps every row (x, v) to (v, −x) and keeps the batch length. |
| Dynamics.EnergyRateIsDerivative | experiments/massspringdamper/utils.py:114 | `EnergyRate` is the derivative of the energy formula: a step h along a direction changes the energy by h times the rate plus h² times the energy of the direction. |
| Dynamics.DampedEnergyRate | experiments/massspringdamper/utils.py:18 | Along (v, −(d·v + c·x)/m) the energy 0.5·c·x² + 0.5·m·v² changes at rate −d·v². |
| Dynamics.LambdaConservesEnergy | experiments/massspringdamper/utils.py:14-18 | Along the reference field, `total_energy` with its default k = m = 1 has zero rate of change at every row. |
| Dynamics.LambdaSecondDerivative | experiments/massspringdamper/utils.py:14-18 | Applying the reference field twice gives the negated state (x'' = −x). |
| Dynamics.ModelFuncCall | experiments/massspringdamper/utils.py:27-30 | A batch goes to the model and comes back unchanged. A single state comes back as a single state, and the call fails exactly when the model returns no rows. Taking row 0 of an empty tensor raises TensorFlow's InvalidArgumentError. |
| Dynamics.SingleAgreesWithBatchOfOne | experiments/massspringdamper/utils.py:27-30 | Calling on one state gives row 0 of calling on the batch that holds only that state. |
| Dynamics.RowWiseOnSingle | experiments/massspringdamper/utils.py:27-29 | For a model that acts row by row with f, a single state s gives f(s). |
| Dynamics.LambdaThroughModelFunc | experiments/massspringdamper/utils.py:27-29 | The reference field reached through the adapter maps a single state (x, v) to (v, −x). |
| Meter.NewMeter | experiments/massspringdamper/utils.py:35-37 | A new meter is already in the reset state and has the given momentum (0.99 by default). |
| Meter.Reset | experiments/massspringdamper/utils.py:39-41 | `val` becomes None and `avg` becomes 0. The momentum is kept. |
| Meter.Update | experiments/massspringdamper/utils.py:43-48 | `val` becomes the new value. The first update after a reset sets `avg` to the value. Later updates, with momentum in [0, 1], put `avg` between the old average and the value. |
| Meter.FeedKeepsMomentum | experiments/massspringdamper/utils.py:43-48 | No series of updates changes the momentum. |
| Meter.FeedKeepsLatest | experiments/massspringdamper/utils.py:48 | After any non-empty series of updates, `val` is the last value. |
| Meter.AverageWithinSeenRange | experiments/massspringdamper/utils.py:43-48 | With momentum in [0, 1], `avg` stays between the minimum and the maximum of the values fed since the reset. |
| Meter.ResetForgetsHistory | experiments/massspringdamper/utils.py:39-41 | After a reset, later averages do not depend on anything fed before it. |
| Meter.ExtremeMomenta | experiments/massspringdamper/utils.py:43-48 | Momentum 0 makes `avg` the latest value. Momentum 1 keeps `avg` at the first value fed since the reset. |

## Left out

- The adjoint-sensitivity integrator (`tfdiffeq_2.py`). It is a TensorFlow `custom_gradient` hook built on gradient tapes, an external `odeint` whose source is not part of this model, and a process-global argument slot.
- `create_dataset` and `load_dataset`: unseeded random draws, the `MassSpringDamper` simulator (not part of this model), device placement and `.npy` file I/O.
- `visualize`: integration with the external `odeint`, plotting, wall-clock time and the CSV results log. Only the metric functions it calls are modelled.
- `makedirs` (filesystem only) and `utils/visualize_mass_spring_damper_dataset.py` (plotting only).
- IEEE rounding and the float32 casts. NaN and infinity results are preconditions (`DriftDefined`, `PhaseErrorDefined`, `TrajectoryErrorDefined`).
- Dynamics.LambdaCall: takes batches of (x, v) pairs only. Arrays with more than two columns, and rank-1 inputs (where `y[:, 1]` raises), are not represented.
- Dynamics.ModelFuncCall: the model is a total function from batches to batches. An input of rank 3 or more, which the source passes to the model unchanged, is not represented.
- Energy.TotalEnergy: an array of rank other than 1 or 2 carries only its rank, since the source rejects it before reading any entry.
- Metrics.RelativeEnergyDrift: reads the energy of row t through `StateEnergy`. `Energy.VectorEnergyIsStateEnergy` shows this equals the rank-1 branch of `total_energy` that the source takes.
- Metrics.RelativePhaseError and Metrics.TrajectoryError: the trajectories are (n, 2) arrays of states. Other shapes are not represented.
