# Fixed-step integrators of the Mars lander exercise, in Dafny

This project models the time-integration core of the Mars lander exercise over
Dafny's `real` numbers. The core has two step rules:

- **Explicit Euler.** The acceleration is taken at the pre-step position. The
  position advances with the pre-step velocity, and the velocity with that
  acceleration.
- **Position Verlet.** It is bootstrapped by one Euler step. After that,
  `p[n+1] = 2 p[n] - p[n-1] + dt^2 a(p[n])`, and the velocity is the central
  difference `(p[n+1] - p[n-1]) / (2 dt)`.

The rules are applied in three settings. Each setting has its own module.

- **Spring** (`spring.dfy`, `task1_euler.dfy`, `task1_verlet.dfy`,
  `spring_verlet.dfy`): the one-dimensional spring `a = -k x / m`.
  - The trajectory loops of the three programs are methods proved against the
    step functions.
  - Euler multiplies `k x^2 + m v^2` by exactly `1 + dt^2 k / m`.
  - Verlet keeps the form `x[n]^2 + x[n-1]^2 - c x[n] x[n-1]` with
    `c = 2 - dt^2 k / m`, and is time-reversible.
  - The scripts' step sweeps never reset their global state, and the model keeps
    that.
- **Orbit** (`vectors.dfy`, `orbit.dfy`, `task2a_euler.dfy`,
  `task2b_euler.dfy`, `task2a_verlet.dfy`): a point mass under the
  inverse-square law `a = -(G M / r^2) (p / r)`.
  - The three `orbit_grapher` functions are methods that check their input
    tuples, then record the Euler or Verlet trajectory entry by entry.
  - The mass cancels, and the acceleration is parallel to the position.
  - Motion that starts in a plane through the origin stays in it, and motion on
    the y axis stays on it.
  - One Euler step multiplies the angular momentum `p x v` by
    `1 + dt^2 G M / r^3`.
  - Verlet keeps the cross product of consecutive positions constant.
- **Lander** (`lander.dfy`): one call of `numerical_dynamics` on a `Lander`
  object that holds the simulator's globals and the step's static
  `old_position`, and the two autopilots.
  - The throttle is the clamp of `delta_PID + P_out` into [0, 1].
  - The parachute rule is a latch.
  - With the engine off and no atmosphere, the first step is the orbit model's
    Euler step and every later one its Verlet step.

Euclidean length and unit vectors cannot be computed over the reals without a
square root. They are function parameters `norm` and `unit`, constrained by
`Vectors.IsNorm` (`norm(p) >= 0` and `norm(p)^2 == p . p`) and
`Vectors.IsUnit` (`unit(p) == p / norm(p)` away from zero).

Two behaviours of the code shape the model:

- **Force at the origin.** In the orbit scripts `np.linalg.norm` returns a
  numpy float64, so `p[i]/r` at the origin is numpy division. It yields NaN
  with a RuntimeWarning and raises no exception. The model therefore has a
  `Triple` that is either `Finite` or `NaN` (`Orbit.AccelNaNIff`). How far the
  NaN spreads depends on the scheme:
  - In the Euler scripts a step from the origin makes the velocity NaN
    (`Orbit.EulerFromOrigin`). Every later position and velocity is then NaN
    (`Orbit.EulerNaNPersists`).
  - In the Verlet script a position at the origin at entry 1 or later makes
    every later position and velocity NaN (`Orbit.VerletOriginPoisons`).
  - A Verlet orbit that starts at the origin with a non-zero velocity gets a
    NaN velocity 1, but position 2 and velocity 2 are finite, because entry 2
    is built from positions 0 and 1 alone: the NaN does not carry over
    (`Orbit.VerletFromOrigin`). Nothing is claimed about the entries after
    that; they turn NaN if a later position lands on the origin.
- **State shared across runs.** task1_euler.py and task1_verlet.py keep `x`,
  `v` as module globals across their sweep over step sizes, so each later run
  starts where the previous one stopped (`Task1Euler.LaterRunsDoNotRestart`,
  `Task1Verlet.VerletSweep`).

## Model

| member | source | states |
|---|---|---|
| Spring.Accel | task1_euler.py:32 | the spring acceleration -k x / m at position x; defined for a non-zero mass |
| Spring.UnitAccel | task1_euler.py:7-8 | with m = k = 1 the spring acceleration is -x |
| Spring.EulerStep | task1_euler.py:32-34 | one explicit Euler step: the position advances with the pre-step velocity, the velocity with the acceleration at the pre-step position |
| Spring.EulerIter | task1_euler.py:25-34 | the state after i passes of the loop body: the start, and then one Euler step of the previous iterate |
| Spring.UnitStep | task1_euler.py:32-34 | with m = k = 1 and dt = 1 an Euler step maps (x, v) to (x + v, v - x) |
| Spring.EulerUpdate | task1_euler.py:32-34 | the three assignments compute exactly one Euler step: position with the pre-step velocity, velocity with the acceleration at the pre-step position |
| Spring.EulerEnergyFactor | task1_euler.py:32-34 | one Euler step multiplies k x^2 + m v^2 by exactly 1 + dt^2 k / m |
| Spring.EnergyPositive | task1_euler.py:7-10 | for m, k > 0, k x^2 + m v^2 is positive at every state but (0, 0) |
| Spring.EulerEnergyGrows | task1_euler.py:32-34 | for m, k, dt > 0 the energy strictly grows under a step, except at (0, 0), which is a fixed point |
| Spring.EulerIterFactor | task1_euler.py:25-34 | step i of the iteration multiplies the energy by exactly 1 + dt^2 k / m |
| Spring.EulerIterEnergy | task1_euler.py:25-34 | after i steps the energy is the initial energy times (1 + dt^2 k / m)^i |
| Spring.EulerIterMoves | task1_euler.py:25-34 | for m, k, dt > 0 no positive number of steps returns to a starting state other than (0, 0) |
| Spring.VerletNext | task1_verlet.py:35 | the Verlet recurrence: 2 x[n] - x[n-1] + dt^2 a(x[n]) |
| Spring.VerletPos | task1_verlet.py:25-39 | position i of a Verlet run: the start, one Euler step, then the recurrence on the two previous positions |
| Spring.VerletVel | task1_verlet.py:25-39 | velocity i of a Verlet run: the start, the Euler step's, then the central difference (x[i] - x[i-2]) / (2 dt) |
| Spring.VerletUpdate | task1_verlet.py:34-36 | the new position is the Verlet recurrence on the last two recorded positions, with the acceleration at the current one; the velocity is the central difference with the one before last |
| Spring.VerletNextReversible | task1_verlet.py:35 | applying the recurrence to the new and the current position gives back the earlier position |
| Spring.VerletPositions | task1_verlet.py:25-39 | the first n positions of a Verlet trajectory are n entries |
| Spring.VerletVelocities | task1_verlet.py:25-39 | the first n velocities of a Verlet trajectory are n entries |
| Spring.VerletListsIndex | task1_verlet.py:38-39 | entry i of the recorded lists is position and velocity i of the trajectory |
| Spring.VerletBootstrapIsEuler | task1_verlet.py:25-31 | entry 1 of a Verlet trajectory is one Euler step of entry 0 |
| Spring.VerletFormStep | task1_verlet.py:35 | one Verlet step keeps x[n]^2 + x[n-1]^2 - (2 - dt^2 k / m) x[n] x[n-1] |
| Spring.VerletFormConserved | task1_verlet.py:33-39 | that form has the same value at every n >= 1 |
| Spring.VerletReversible | task1_verlet.py:33-39 | along a trajectory, running the recurrence backwards recovers every earlier position |
| Spring.TenthStepEntry1 | task1_verlet.py:25-31 | with m = k = 1 and dt = 0.1 from (0, 1), entry 1 is (0.1, 1) |
| Spring.TenthStepEntry2Pos | spring_verlet.cpp:41-42 | ... entry 2 has position 0.199 |
| Spring.TenthStepEntry2Vel | spring_verlet.cpp:43 | ... and velocity 0.995 |
| Task1Euler.EulerRun | task1_euler.py:18-34 | a run over n grid points records n entries; entry i is the i-th Euler iterate of the run's start; the globals end one step beyond the last entry |
| Task1Euler.EulerSweep | task1_euler.py:16-34 | every run of the sweep records its Euler trajectory from the state the previous run left in the globals |
| Task1Euler.LaterRunsDoNotRestart | task1_euler.py:16-34 | for m, k > 0 and runs with positive steps and grid points, every run after the first starts with more energy than the initial state, so no run restarts from it |
| Task1Euler.UnitStepEntry1 | task1_euler.py:32-34 | with m = k = 1 and dt = 1 from (0, 1), entry 1 is (1, 1) |
| Task1Euler.UnitStepEntry2 | task1_euler.py:32-34 | ... and entry 2 is (2, 0) |
| Task1Verlet.RunLength | task1_verlet.py:33 | a run records at least two entries, max(2, n), because a negative range is empty |
| Task1Verlet.VerletRun | task1_verlet.py:18-39 | a run records max(2, n) entries of the Verlet trajectory of its start; the globals end holding the last entry |
| Task1Verlet.VerletLoop | task1_verlet.py:33-39 | from the two bootstrap entries the loop extends the lists with the recurrence and the central difference up to max(2, n) entries |
| Task1Verlet.VerletSweep | task1_verlet.py:16-39 | run j records the Verlet trajectory that starts from the last entry of run j - 1, and the first run starts from the initial state |
| SpringVerletCpp.EntryCount | spring_verlet.cpp:37 | the program records at least two entries |
| SpringVerletCpp.GridPointWithin | spring_verlet.cpp:37 | for dt > 0, time i dt is within t_max exactly when i <= floor(t_max / dt) |
| SpringVerletCpp.SpringVerletMain | spring_verlet.cpp:24-50 | the three lists have equal length max(2, floor(t_max / dt) + 1); entry i has time i dt; positions and velocities are the Verlet trajectory of (x0, v0) |
| Orbit.CheckInputs | task2a_euler.py:19-20 | a run goes ahead exactly when both tuples have three components, and otherwise fails with the assertion message of the first bad one |
| Orbit.FromTuple | task2a_euler.py:16-20 | a 3-tuple argument, once its length is checked, read as a finite position or velocity |
| Orbit.AddScaled | task2a_euler.py:43-44 | the tuple update `a + dt * b`, component by component; NaN in either operand gives NaN |
| Orbit.AccelComponent | task2a_euler.py:39-42 | component i of the acceleration: `p[i]/r` times `G*M*m/r**2`, negated and divided by m |
| Orbit.GravityAccel | task2a_euler.py:38-42 | the acceleration -F / m at a finite position, component by component; NaN at the origin, where r is 0 |
| Orbit.Accel | task2a_euler.py:38-42 | the same at a position triple; a NaN position gives a NaN acceleration |
| Orbit.GravityComponent | task2a_euler.py:38-42 | each acceleration component is -(G M / r^3) times the position component: the mass cancels |
| Orbit.AccelClosedForm | task2a_euler.py:38-42 | away from the origin the acceleration is -(G M / r^3) p |
| Orbit.AccelMassFree | task2a_euler.py:40-42 | the acceleration does not depend on the orbiting mass |
| Orbit.AccelNaNIff | task2a_euler.py:38-39 | the acceleration is NaN exactly when the position is NaN or the origin |
| Orbit.AccelParallel | task2a_euler.py:38-42 | a finite acceleration is parallel to the position |
| Orbit.EulerStep | task2a_euler.py:43-44 | one Euler step of a position and velocity triple, NaN spreading as in numpy |
| Orbit.EulerIter | task2a_euler.py:31-44 | the entry after i passes of the loop body |
| Orbit.EulerAxes | task2b_euler.py:37-50 | the per-axis temporaries compute exactly one Euler step from the pre-step p and v |
| Orbit.EulerMassFree | task2b_euler.py:31-50 | the whole Euler trajectory does not depend on the orbiting mass |
| Orbit.EulerFromOrigin | task2b_euler.py:38-50 | a step from the origin moves the position by dt v and makes the velocity NaN |
| Orbit.EulerNaNPersists | task2a_euler.py:31-44 | once a velocity is NaN, every later position and velocity is NaN |
| Orbit.CentralEulerCross | task2b_euler.py:43-50 | for a central acceleration c q, one step multiplies q x w by 1 - dt^2 c |
| Orbit.EulerAngularMomentum | task2b_euler.py:38-50 | one Euler step away from the origin multiplies the angular momentum p x v by exactly 1 + dt^2 G M / r^3 |
| Orbit.AccelInPlane | task2b_euler.py:38-42 | a position in a plane through the origin has its acceleration in that plane |
| Orbit.EulerStepInPlane | task2b_euler.py:43-50 | an Euler step keeps position and velocity in a plane through the origin |
| Orbit.EulerPlanar | task2b_euler.py:31-50 | every entry of an Euler trajectory that starts in such a plane stays in it |
| Orbit.EulerStaysInXYPlane | task2b_euler.py:41-50 | starting with p_z = v_z = 0, as the script's three calls do, every entry has p_z = v_z = 0 |
| Orbit.EulerStaysOnYAxis | task2a_euler.py:42-44 | starting on the y axis with velocity on it, as the script's call does, every entry stays on the y axis |
| Orbit.VerletNext | task2a_verlet.py:57-60 | the recurrence 2 p[n] - p[n-1] + dt^2 a(p[n]), component by component; NaN from any NaN input or acceleration |
| Orbit.CentralDiff | task2a_verlet.py:61-64 | the central difference (p[n+1] - p[n-1]) / (2 dt), component by component |
| Orbit.VerletPos | task2a_verlet.py:30-67 | position i of a Verlet orbit: the start, one Euler step, then the recurrence |
| Orbit.VerletVel | task2a_verlet.py:30-67 | velocity i: the start, the Euler step's, then the central difference of positions i and i - 2 |
| Orbit.VerletPositions | task2a_verlet.py:30-67 | the first n positions of a Verlet orbit are n entries |
| Orbit.VerletVelocities | task2a_verlet.py:30-67 | the first n velocities of a Verlet orbit are n entries |
| Orbit.VerletListsIndex | task2a_verlet.py:66-67 | entry i of the recorded lists is position and velocity i of the trajectory |
| Orbit.VerletBootstrapIsEuler | task2a_verlet.py:30-46 | entries 0 and 1 are the initial state and one Euler step of it |
| Orbit.VerletOriginPoisons | task2a_verlet.py:52-53 | once a position after the bootstrap is the origin, every later position and velocity is NaN |
| Orbit.VerletFromOrigin | task2a_verlet.py:30-64 | from the origin with a non-zero velocity, position 1 is dt v[0] and velocity 1 is NaN, but position 2 and velocity 2 are finite |
| Orbit.CentralVerletCross | task2a_verlet.py:57-59 | for a central acceleration, p[n+1] x p[n] = p[n] x p[n-1] |
| Orbit.VerletCrossStep | task2a_verlet.py:52-59 | a finite Verlet position comes from finite predecessors, and its cross product with the current position equals the current one's with the previous |
| Orbit.VerletCrossConserved | task2a_verlet.py:49-67 | the cross product of consecutive positions is the same for every n >= 1 |
| Orbit.VerletStepInPlane | task2a_verlet.py:52-64 | a Verlet step and its central difference keep a plane through the origin |
| Orbit.VerletPositionsPlanar | task2a_verlet.py:30-67 | every position of a Verlet orbit that starts in such a plane stays in it |
| Orbit.VerletVelocitiesPlanar | task2a_verlet.py:30-67 | ... and so does every velocity |
| Orbit.VerletStaysOnYAxis | task2a_verlet.py:49-64 | starting with position and velocity on the y axis, as the script's call does, every position and velocity stays on it |
| Task2aEuler.OrbitGrapher1 | task2a_euler.py:19-45 | a bad tuple fails with its assertion before any entry; otherwise the lists have n entries each, the Euler trajectory of the inputs |
| Task2bEuler.OrbitGrapher2 | task2b_euler.py:19-51 | the same with the per-axis updates: n entries of the Euler trajectory, or the assertion failure with empty lists |
| Task2aVerlet.VerletAxes | task2a_verlet.py:52-64 | the per-axis temporaries compute the Verlet position from the last two entries and its central-difference velocity |
| Task2aVerlet.OrbitGrapher3 | task2a_verlet.py:19-68 | a bad tuple fails with its assertion; otherwise the lists have max(2, n) entries, the Verlet trajectory of the inputs |
| Lander.CurrentMass | lander.cpp:83 | the dry mass plus the fuel's mass |
| Lander.LanderArea | lander.cpp:84 | the lander's area, 3.141592654 times the size squared |
| Lander.ChuteArea | lander.cpp:85 | the parachute's area, five squares of twice the size |
| Lander.LanderWeight | lander.cpp:31 | the weight G M mass / abs2(p), as lander.cpp:31, 56 and 87 compute it |
| Lander.GravityForce | lander.cpp:87 | the weight G M mass / abs2(p), directed against the unit position vector |
| Lander.DragForce | lander.cpp:91 | the quadratic drag 0.5 rho C A abs2(v), directed against the unit velocity vector |
| Lander.TotalDrag | lander.cpp:91-97 | the lander's drag, plus the parachute's only while it is deployed |
| Lander.TotalForce | lander.cpp:99 | the sum of gravity, thrust and drag |
| Lander.Acceleration | lander.cpp:99-101 | the total of gravity, thrust and drag over the mass |
| Lander.StepWith | lander.cpp:114-120 | Euler while the simulation time is 0, Verlet on (old_position, position) with the central-difference velocity after |
| Lander.Step | lander.cpp:83-120 | the step taken with the acceleration at the current state, mass and parachute status |
| Lander.MassPositive | lander.cpp:83 | with non-negative fuel the current mass is at least the unloaded mass, and positive |
| Lander.MassTimesAcceleration | lander.cpp:83-101 | with non-negative fuel the current mass is non-zero, and it times the acceleration gives back the total of gravity, thrust and drag (a consistency check of the definitions) |
| Lander.VerletStepReversible | lander.cpp:118 | the pre-step position is recovered from the new one by the same recurrence |
| Lander.NoAtmosphere | lander.cpp:91-97 | at zero density the drag is zero whether or not the parachute is deployed |
| Lander.FreeFallStep | lander.cpp:83-123 | with zero thrust and zero density the step is taken with the acceleration of gravity alone |
| Lander.FreeFallAcceleration | lander.cpp:87-101 | with no thrust and no drag the acceleration is -(G M / r^3) p, whatever the mass |
| Lander.FreeFallBodyAccel | lander.cpp:87-101 | that acceleration is the orbit scripts' gravity on a body of the lander's mass |
| Lander.FreeFallFirstStepIsEuler | lander.cpp:114-116 | in free fall the step at time 0 is the orbit model's Euler step |
| Lander.FreeFallLaterStepIsVerlet | lander.cpp:117-120 | in free fall every later step is the orbit model's Verlet step on (old_position, position), with its central-difference velocity |
| Lander.DragOpposesMotion | lander.cpp:91 | with non-negative density, coefficient and area the drag points against the motion: its dot product with the velocity is never positive |
| Lander.ChuteAddsDrag | lander.cpp:91-97 | unless the parachute is deployed the drag is the lander's alone; deploying it only adds drag against the motion |
| Lander.Altitude | lander.cpp:36 | the height above the surface, `position.abs() - MARS_RADIUS`, as lander.cpp:36, 46 and 63 compute it |
| Lander.DeltaPID | lander.cpp:56-58 | the throttle value delta_PID, the weight over MAX_THRUST |
| Lander.POut1 | lander.cpp:34-36 | autopilot1's term -K_p (0.5 + K_h h + v . e_r) with K_h = 0.017 and K_p = 0.2 |
| Lander.POut | lander.cpp:59-63 | autopilot's term K_p (500 - h) + K_d speed with K_p = 1 and K_d = 0 |
| Lander.ParachuteAfter | lander.cpp:46-48 | autopilot1's parachute rule: DEPLOYED when at most 5000 m up and at most 200 m/s fast, else unchanged |
| Lander.Throttle | lander.cpp:38-44 | the throttle is the clamp of delta_PID + P_out into [0, 1] |
| Lander.DeltaPIDBalancesWeight | lander.cpp:56-58 | at throttle delta_PID the full thrust equals the weight (a consistency check of the definition) |
| Lander.Autopilot1TargetDescent | lander.cpp:34-36 | autopilot1's term is zero exactly when the radial velocity is -(0.5 + 0.017 h), and positive exactly when the lander descends faster than that |
| Lander.Autopilot1FasterDescentMoreThrottle | lander.cpp:34-44 | at the same position, a faster descent never gets less throttle from autopilot1 |
| Lander.AutopilotIgnoresVelocity | lander.cpp:59-63 | with K_d = 0, P_out is 500 minus the altitude, whatever the velocity (a consistency check of the definition) |
| Lander.AutopilotHoversAtTarget | lander.cpp:58-71 | at 500 m altitude with 0 < delta_PID < 1 the throttle is delta_PID |
| Lander.ParachuteLatch | lander.cpp:46-48 | the rule only ever deploys and never retracts; the chute is out afterwards exactly when it was before or altitude <= 5000 and speed <= 200 |
| Lander.Lander.Autopilot1 | lander.cpp:19-49 | sets the throttle by the clamp with K_h = 0.017 and K_p = 0.2 and applies the parachute latch; nothing else changes |
| Lander.Lander.Autopilot | lander.cpp:51-72 | sets the throttle by the clamp aiming at 500 m; the parachute and everything else are unchanged |
| Lander.Lander.NumericalDynamics | lander.cpp:74-126 | the new position and velocity are the Euler step at time 0 and the Verlet step after, from gravity, thrust and drag over the current mass; old_position holds the pre-step position; the throttle is the autopilot's when it is enabled |

## Left out

- Plotting, the per-axis list splitting, the `np.array` conversions and the trajectory file of spring_verlet.cpp are presentation and I/O. They are not modelled.
- `np.arange(0, t_max, dt)` is not computed. Its length is the parameter `n`.
- spring_verlet.cpp accumulates `t += dt` in floating point. The model adds over the reals, so entry i has time exactly `i dt`.
- The orbit scripts loop over a one-element list of steps. Each is modelled as that single run, and their `return 0` is not modelled.
- Floating-point rounding, overflow to infinity and bit-exact results are not modelled. All arithmetic is over `real`. NaN is modelled only where it arises from 0/0 at the origin in the orbit scripts.
- Square roots are not computed. `norm` and `unit` are parameters with the defining properties above.
- lander.h, the `vector3d` class and the simulator's other files are not part of this model. The constants are fields of `Lander.Constants`. `thrust_wrt_world()` and `atmospheric_density(position)` are inputs of a step. `delta_t` is a parameter.
- `attitude_stabilization` (lander.cpp:129), `initialize_simulation` and the updates of `simulation_time` and `fuel` made elsewhere in the simulator are not modelled.
- Lander.Step: requires non-negative fuel. The C++ only divides by the mass, so a non-zero mass would do; the simulator never makes the fuel negative, so the requirement holds at every call.
- Lander.Lander.NumericalDynamics: requires non-negative fuel, for the same reason. It also requires a non-zero position, because the C++ divides by its squared length. When the autopilot is enabled, it also requires a non-zero new position, because the autopilot divides by that length. A zero `delta_t` is excluded for the same reason.
- Lander.Lander.Autopilot1: requires a non-zero position, for the same division.
- Lander.Lander.Autopilot: requires a non-zero position, for the same division.
- Task2aVerlet.OrbitGrapher3: requires a non-zero step. The central difference divides by `2 dt`, and `np.arange` cannot build a grid with a zero step.
- Task1Verlet.VerletSweep: requires non-zero steps, for the same reason.
- Task1Verlet.VerletRun: requires a non-zero step, for the same reason.
- Task1Verlet.VerletLoop: requires a non-zero step, for the same reason.
- SpringVerletCpp.SpringVerletMain: requires a positive step. Otherwise the C++ loop over `t <= t_max` need not end.
