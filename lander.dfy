/**
 * lander.cpp: one integration step of the Mars lander (`numerical_dynamics`)
 * and the two autopilots that set the throttle and the parachute.
 *
 * The simulator's globals (position, velocity, fuel, simulation time,
 * parachute status, throttle, autopilot switch) and the step's
 * `static old_position` are the fields of a `Lander` object. The forces,
 * the mass and the throttle rule are plain expressions and are functions.
 * The thrust vector (`thrust_wrt_world()`) and the atmospheric density at
 * the current position (`atmospheric_density(position)`) are inputs of a
 * step, and the time step `delta_t` is a parameter.
 *
 * vector3d's `abs()` is the length `norm`, `abs2()` the dot product of a
 * vector with itself, `norm()` the unit vector `unit`, and `*` between two
 * vectors the dot product.
 */
module Lander {

  import opened Vectors
  import RealArith
  import Orbit

  /** The constants of the scenario, as lander.h names them. */
  datatype Constants = Constants(
    gravity: real,         // GRAVITY
    marsMass: real,        // MARS_MASS
    marsRadius: real,      // MARS_RADIUS
    unloadedMass: real,    // UNLOADED_LANDER_MASS
    fuelCapacity: real,    // FUEL_CAPACITY
    fuelDensity: real,     // FUEL_DENSITY
    landerSize: real,      // LANDER_SIZE
    dragCoefLander: real,  // DRAG_COEF_LANDER
    dragCoefChute: real,   // DRAG_COEF_CHUTE
    maxThrust: real)       // MAX_THRUST
  {
    /** A lander with mass and an engine that can push. */
    predicate Valid() {
      unloadedMass > 0.0 && fuelCapacity >= 0.0 && fuelDensity >= 0.0 && maxThrust > 0.0
    }
  }

  datatype ParachuteStatus = NotDeployed | Deployed | Lost

  // ---------------------------------------------------------------------
  // Mass and forces
  // ---------------------------------------------------------------------

  /** CURRENT_LANDER_MASS: the dry mass plus the fuel left. */
  function CurrentMass(k: Constants, fuel: real): real {
    k.unloadedMass + fuel * k.fuelCapacity * k.fuelDensity
  }

  /** With any fuel left the lander is heavier than its dry mass, so dividing by its mass is safe. */
  lemma MassPositive(k: Constants, fuel: real)
    requires k.Valid() && fuel >= 0.0
    ensures !(CurrentMass(k, fuel) < k.unloadedMass) && CurrentMass(k, fuel) > 0.0
  {
    RealArith.ProductNonNeg(fuel, k.fuelCapacity, fuel * k.fuelCapacity);
    RealArith.ProductNonNeg(fuel * k.fuelCapacity, k.fuelDensity, fuel * k.fuelCapacity * k.fuelDensity);
  }

  /** AREA_LANDER: pi times the size squared. */
  function LanderArea(k: Constants): real {
    3.141592654 * (k.landerSize * k.landerSize)
  }

  /** AREA_CHUTE: five squares of twice the size. */
  function ChuteArea(k: Constants): real {
    5.0 * ((2.0 * k.landerSize) * (2.0 * k.landerSize))
  }

  /** CURRENT_LANDER_WEIGHT: the pull `G*M*mass/|p|^2` of Mars on a lander at p. */
  function LanderWeight(k: Constants, mass: real, p: Vec3): real
    requires p != Zero
  {
    DotSelfPos(p);
    (k.gravity * k.marsMass * mass) / Dot(p, p)
  }

  /** F_gravity: the weight, directed against the unit position vector. */
  function GravityForce(k: Constants, unit: Vec3 -> Vec3, mass: real, p: Vec3): Vec3
    requires p != Zero
  {
    Scale(LanderWeight(k, mass, p), Neg(unit(p)))
  }

  /** A quadratic drag `0.5*rho*C*A*|v|^2`, directed against the unit velocity vector. */
  function DragForce(coef: real, area: real, density: real, unit: Vec3 -> Vec3, v: Vec3): Vec3 {
    Scale(0.5 * density * coef * area * Dot(v, v), Neg(unit(v)))
  }

  /** F_drag: the lander's drag, plus the parachute's only while it is deployed. */
  function TotalDrag(k: Constants, unit: Vec3 -> Vec3, density: real, status: ParachuteStatus, v: Vec3): Vec3 {
    var lander := DragForce(k.dragCoefLander, LanderArea(k), density, unit, v);
    if status == Deployed then Add(lander, DragForce(k.dragCoefChute, ChuteArea(k), density, unit, v))
    else lander
  }

  /** F_total = F_gravity + F_thrust + F_drag. */
  function TotalForce(k: Constants, unit: Vec3 -> Vec3, mass: real, p: Vec3, thrust: Vec3, drag: Vec3): Vec3
    requires p != Zero
  {
    Add(Add(GravityForce(k, unit, mass, p), thrust), drag)
  }

  /** The acceleration: the total force over the mass. */
  function Acceleration(k: Constants, unit: Vec3 -> Vec3, mass: real, p: Vec3, thrust: Vec3, drag: Vec3): Vec3
    requires mass != 0.0 && p != Zero
  {
    Div(TotalForce(k, unit, mass, p, thrust, drag), mass)
  }

  /** Newton's second law: the current mass times the acceleration gives back the total force. */
  lemma MassTimesAcceleration(k: Constants, unit: Vec3 -> Vec3, fuel: real, p: Vec3, thrust: Vec3, drag: Vec3)
    requires k.Valid() && fuel >= 0.0 && p != Zero
    ensures CurrentMass(k, fuel) != 0.0
    ensures Scale(CurrentMass(k, fuel), Acceleration(k, unit, CurrentMass(k, fuel), p, thrust, drag))
         == TotalForce(k, unit, CurrentMass(k, fuel), p, thrust, drag)
  {
    MassPositive(k, fuel);
  }

  // ---------------------------------------------------------------------
  // The integration step
  // ---------------------------------------------------------------------

  /** Position and velocity after a step. */
  datatype Motion = Motion(position: Vec3, velocity: Vec3)

  /**
   * One step from position p, velocity v and previous position `prev` with
   * acceleration a: Euler while the simulation time is 0, Verlet after.
   */
  function StepWith(dt: real, time: real, p: Vec3, prev: Vec3, v: Vec3, a: Vec3): Motion
    requires dt != 0.0
  {
    if time == 0.0 then
      Motion(Add(p, Scale(dt, v)), Add(v, Scale(dt, a)))
    else
      var next := Add(Sub(Scale(2.0, p), prev), Scale(dt, Scale(dt, a)));
      Motion(next, Div(Sub(next, prev), 2.0 * dt))
  }

  /** The step `numerical_dynamics` takes, with the acceleration of the current state. */
  function Step(k: Constants, unit: Vec3 -> Vec3, dt: real, time: real, fuel: real, status: ParachuteStatus,
                p: Vec3, prev: Vec3, v: Vec3, thrust: Vec3, density: real): Motion
    requires k.Valid() && fuel >= 0.0 && p != Zero && dt != 0.0
  {
    MassPositive(k, fuel);
    StepWith(dt, time, p, prev, v,
             Acceleration(k, unit, CurrentMass(k, fuel), p, thrust, TotalDrag(k, unit, density, status, v)))
  }

  /**
   * The Verlet step is time-reversible: the previous position is recovered
   * from the new one by the same recurrence.
   */
  lemma VerletStepReversible(dt: real, time: real, p: Vec3, prev: Vec3, v: Vec3, a: Vec3)
    requires dt != 0.0 && time != 0.0
    ensures prev == Add(Sub(Scale(2.0, p), StepWith(dt, time, p, prev, v, a).position), Scale(dt, Scale(dt, a)))
  {
  }

  lemma ScaleTwice(dt: real, a: Vec3)
    ensures Scale(dt, Scale(dt, a)) == Scale(dt * dt, a)
  {
  }

  // ---------------------------------------------------------------------
  // Free fall is the orbit problem
  // ---------------------------------------------------------------------

  /** The orbiting body a free-falling lander of the given mass is. */
  function FreeFallBody(k: Constants, mass: real): Orbit.Body {
    Orbit.Body(k.gravity, k.marsMass, mass)
  }

  /**
   * `(w * -(p/r)) / m` is p scaled by `c = -(w/r)/m`. Each intermediate
   * vector is a parameter, so every component step is one operation on atoms.
   */
  lemma DirectionVector(w: real, m: real, r: real, c: real, p: Vec3, u: Vec3, n: Vec3, s: Vec3, a: Vec3)
    requires m != 0.0 && r != 0.0 && c == -((w / r) / m)
    requires u == Div(p, r) && n == Neg(u) && s == Scale(w, n) && a == Div(s, m)
    ensures a == Scale(c, p)
  {
    DirectionComponent(w, m, r, c, p.x, u.x, n.x, s.x, a.x);
    DirectionComponent(w, m, r, c, p.y, u.y, n.y, s.y, a.y);
    DirectionComponent(w, m, r, c, p.z, u.z, n.z, s.z, a.z);
  }

  /** With `w = G*M*m/r^2`, the mass cancels from `(w/r)/m` and `G*M/r^3` is left. */
  lemma FreeFallPull(G: real, M: real, m: real, r: real, w: real)
    requires m != 0.0 && r != 0.0 && r * r != 0.0
    requires w == (G * M * m) / (r * r)
    ensures (w / r) / m == Orbit.Pull(G, M, r)
  {
    RealArith.PowersNonZero(r);
    assert w / r == (G * M * m) / (r * r * r);
    assert ((G * M * m) / (r * r * r)) / m == (G * M) / (r * r * r);
  }

  /** `(w * -u) / m` with `w = G*M*m/r^2` and `u = p/r` is `-(G*M/r^3)*p`. */
  lemma FreeFallVector(G: real, M: real, m: real, r: real, p: Vec3, w: real, u: Vec3, a: Vec3)
    requires m != 0.0 && r != 0.0 && r * r != 0.0
    requires w == (G * M * m) / (r * r) && u == Div(p, r) && a == Div(Scale(w, Neg(u)), m)
    ensures a == Scale(-Orbit.Pull(G, M, r), p)
  {
    DirectionVector(w, m, r, -((w / r) / m), p, u, Neg(u), Scale(w, Neg(u)), a);
    FreeFallPull(G, M, m, r, w);
  }

  lemma NoDrag(coef: real, area: real, unit: Vec3 -> Vec3, v: Vec3)
    ensures DragForce(coef, area, 0.0, unit, v) == Zero
  {
  }

  /** With no atmosphere there is no drag, whatever the parachute's state. */
  lemma NoAtmosphere(k: Constants, unit: Vec3 -> Vec3, status: ParachuteStatus, v: Vec3)
    ensures TotalDrag(k, unit, 0.0, status, v) == Zero
  {
    NoDrag(k.dragCoefLander, LanderArea(k), unit, v);
    NoDrag(k.dragCoefChute, ChuteArea(k), unit, v);
  }

  /** With the engine off and no atmosphere, the step is taken with the acceleration of gravity alone. */
  lemma FreeFallStep(k: Constants, unit: Vec3 -> Vec3, dt: real, time: real, fuel: real, status: ParachuteStatus,
                     p: Vec3, prev: Vec3, v: Vec3)
    requires k.Valid() && fuel >= 0.0 && p != Zero && dt != 0.0
    ensures CurrentMass(k, fuel) != 0.0
    ensures Step(k, unit, dt, time, fuel, status, p, prev, v, Zero, 0.0)
         == StepWith(dt, time, p, prev, v, Acceleration(k, unit, CurrentMass(k, fuel), p, Zero, Zero))
  {
    MassPositive(k, fuel);
    NoAtmosphereAcceleration(k, unit, CurrentMass(k, fuel), p, status, v);
  }

  /** With no atmosphere the acceleration is the one without drag. */
  lemma NoAtmosphereAcceleration(k: Constants, unit: Vec3 -> Vec3, mass: real, p: Vec3, status: ParachuteStatus, v: Vec3)
    requires mass != 0.0 && p != Zero
    ensures Acceleration(k, unit, mass, p, Zero, TotalDrag(k, unit, 0.0, status, v))
         == Acceleration(k, unit, mass, p, Zero, Zero)
  {
    NoAtmosphere(k, unit, status, v);
  }

  /** The weight is `G*M*mass` over `r*r` for any r whose square is the square length. */
  lemma WeightOverSquareLength(k: Constants, mass: real, p: Vec3, r: real)
    requires p != Zero && r * r == Dot(p, p)
    ensures r * r != 0.0
    ensures LanderWeight(k, mass, p) == (k.gravity * k.marsMass * mass) / (r * r)
  {
    DotSelfPos(p);
    DivEqual(k.gravity * k.marsMass * mass, k.gravity * k.marsMass * mass, Dot(p, p), r * r);
  }

  /** The facts about a non-zero p's length and direction the free-fall lemmas use. */
  lemma LengthAndDirection(norm: Vec3 -> real, unit: Vec3 -> Vec3, p: Vec3)
    requires p != Zero && IsNorm(norm) && IsUnit(unit, norm)
    ensures norm(p) != 0.0 && norm(p) * norm(p) == Dot(p, p) && unit(p) == Div(p, norm(p))
  {
    NormZeroIff(norm, p);
  }

  /**
   * Gravity over the mass is `-(G*M/r^3)*p` for any r that is the length
   * of p and whose unit vector is p/r.
   */
  lemma GravityOverMass(k: Constants, unit: Vec3 -> Vec3, mass: real, p: Vec3, r: real)
    requires mass != 0.0 && p != Zero
    requires r != 0.0 && r * r == Dot(p, p) && unit(p) == Div(p, r)
    ensures Div(GravityForce(k, unit, mass, p), mass) == Scale(-Orbit.Pull(k.gravity, k.marsMass, r), p)
  {
    WeightOverSquareLength(k, mass, p, r);
    FreeFallVector(k.gravity, k.marsMass, mass, r, p, LanderWeight(k, mass, p), unit(p),
                   Div(GravityForce(k, unit, mass, p), mass));
  }

  /**
   * With the engine off and no drag, the lander's acceleration is the
   * inverse-square acceleration `-(G*M/r^3)*p`, whatever its mass.
   */
  lemma FreeFallAcceleration(k: Constants, norm: Vec3 -> real, unit: Vec3 -> Vec3, mass: real, p: Vec3)
    requires mass != 0.0 && p != Zero
    requires norm(p) != 0.0 && norm(p) * norm(p) == Dot(p, p) && unit(p) == Div(p, norm(p))
    ensures Acceleration(k, unit, mass, p, Zero, Zero) == Scale(-Orbit.Pull(k.gravity, k.marsMass, norm(p)), p)
  {
    GravityOverMass(k, unit, mass, p, norm(p));
  }

  /** ... which is the orbit scripts' gravity on a body of that mass. */
  lemma FreeFallBodyAccel(k: Constants, norm: Vec3 -> real, unit: Vec3 -> Vec3, mass: real, p: Vec3)
    requires mass != 0.0 && p != Zero
    requires norm(p) != 0.0 && norm(p) * norm(p) == Dot(p, p) && unit(p) == Div(p, norm(p))
    ensures Orbit.Accel(FreeFallBody(k, mass), norm, Orbit.Finite(p))
         == Orbit.Finite(Acceleration(k, unit, mass, p, Zero, Zero))
  {
    FreeFallAcceleration(k, norm, unit, mass, p);
    BodyAccel(k.gravity, k.marsMass, mass, norm, p, Acceleration(k, unit, mass, p, Zero, Zero));
  }

  /** A vector equal to the closed form is the orbit scripts' acceleration. */
  lemma BodyAccel(G: real, M: real, mass: real, norm: Vec3 -> real, p: Vec3, a: Vec3)
    requires mass != 0.0 && norm(p) != 0.0 && a == Scale(-Orbit.Pull(G, M, norm(p)), p)
    ensures Orbit.Accel(Orbit.Body(G, M, mass), norm, Orbit.Finite(p)) == Orbit.Finite(a)
  {
    Orbit.AccelClosedForm(Orbit.Body(G, M, mass), norm, p);
  }

  /** The Euler branch with acceleration a is the orbit Euler step of any body whose gravity at p is a. */
  lemma EulerBranchIsOrbitEuler(b: Orbit.Body, norm: Vec3 -> real, dt: real, p: Vec3, prev: Vec3, v: Vec3, a: Vec3)
    requires b.Valid() && dt != 0.0 && Orbit.Accel(b, norm, Orbit.Finite(p)) == Orbit.Finite(a)
    ensures var next := StepWith(dt, 0.0, p, prev, v, a);
      Orbit.EulerStep(b, norm, dt, Orbit.Phase(Orbit.Finite(p), Orbit.Finite(v)))
        == Orbit.Phase(Orbit.Finite(next.position), Orbit.Finite(next.velocity))
  {
  }

  /** The Verlet branch with acceleration a is the orbit Verlet step of any body whose gravity at p is a. */
  lemma VerletBranchIsOrbitVerlet(b: Orbit.Body, norm: Vec3 -> real, dt: real, time: real,
                                  p: Vec3, prev: Vec3, v: Vec3, a: Vec3)
    requires b.Valid() && dt != 0.0 && time != 0.0 && Orbit.Accel(b, norm, Orbit.Finite(p)) == Orbit.Finite(a)
    ensures var next := StepWith(dt, time, p, prev, v, a);
      Orbit.VerletNext(b, norm, dt, Orbit.Finite(prev), Orbit.Finite(p)) == Orbit.Finite(next.position) &&
      Orbit.CentralDiff(dt, Orbit.Finite(next.position), Orbit.Finite(prev)) == Orbit.Finite(next.velocity)
  {
    ScaleTwice(dt, a);
  }

  /**
   * In free fall the first step of `numerical_dynamics` is the orbit
   * scripts' Euler step.
   */
  lemma FreeFallFirstStepIsEuler(k: Constants, norm: Vec3 -> real, unit: Vec3 -> Vec3, dt: real, fuel: real,
                                 status: ParachuteStatus, p: Vec3, prev: Vec3, v: Vec3)
    requires k.Valid() && fuel >= 0.0 && p != Zero && dt != 0.0 && IsNorm(norm) && IsUnit(unit, norm)
    ensures CurrentMass(k, fuel) != 0.0
    ensures var next := Step(k, unit, dt, 0.0, fuel, status, p, prev, v, Zero, 0.0);
      Orbit.EulerStep(FreeFallBody(k, CurrentMass(k, fuel)), norm, dt, Orbit.Phase(Orbit.Finite(p), Orbit.Finite(v)))
        == Orbit.Phase(Orbit.Finite(next.position), Orbit.Finite(next.velocity))
  {
    FreeFallStep(k, unit, dt, 0.0, fuel, status, p, prev, v);
    LengthAndDirection(norm, unit, p);
    FreeFallBodyAccel(k, norm, unit, CurrentMass(k, fuel), p);
    EulerBranchIsOrbitEuler(FreeFallBody(k, CurrentMass(k, fuel)), norm, dt, p, prev, v,
                            Acceleration(k, unit, CurrentMass(k, fuel), p, Zero, Zero));
  }

  /**
   * In free fall every later step of `numerical_dynamics` is the orbit
   * scripts' Verlet step on (old_position, position), with their
   * central-difference velocity.
   */
  lemma FreeFallLaterStepIsVerlet(k: Constants, norm: Vec3 -> real, unit: Vec3 -> Vec3, dt: real, time: real,
                                  fuel: real, status: ParachuteStatus, p: Vec3, prev: Vec3, v: Vec3)
    requires k.Valid() && fuel >= 0.0 && p != Zero && dt != 0.0 && time != 0.0
    requires IsNorm(norm) && IsUnit(unit, norm)
    ensures CurrentMass(k, fuel) != 0.0
    ensures var next := Step(k, unit, dt, time, fuel, status, p, prev, v, Zero, 0.0);
      var b := FreeFallBody(k, CurrentMass(k, fuel));
      Orbit.VerletNext(b, norm, dt, Orbit.Finite(prev), Orbit.Finite(p)) == Orbit.Finite(next.position) &&
      Orbit.CentralDiff(dt, Orbit.Finite(next.position), Orbit.Finite(prev)) == Orbit.Finite(next.velocity)
  {
    FreeFallStep(k, unit, dt, time, fuel, status, p, prev, v);
    LengthAndDirection(norm, unit, p);
    FreeFallBodyAccel(k, norm, unit, CurrentMass(k, fuel), p);
    VerletBranchIsOrbitVerlet(FreeFallBody(k, CurrentMass(k, fuel)), norm, dt, time, p, prev, v,
                              Acceleration(k, unit, CurrentMass(k, fuel), p, Zero, Zero));
  }

  // ---------------------------------------------------------------------
  // Drag
  // ---------------------------------------------------------------------

  /**
   * A drag force with non-negative density, coefficient and area points
   * against the motion: its dot product with the velocity is never positive.
   */
  lemma DragOpposesMotion(coef: real, area: real, density: real, norm: Vec3 -> real, unit: Vec3 -> Vec3, v: Vec3)
    requires IsNorm(norm) && IsUnit(unit, norm)
    requires !(density < 0.0) && !(coef < 0.0) && !(area < 0.0)
    ensures !(Dot(DragForce(coef, area, density, unit, v), v) > 0.0)
  {
    var f := DragForce(coef, area, density, unit, v);
    if v != Zero {
      NormZeroIff(norm, v);
      var r := norm(v);
      var d := Dot(v, v);
      var s := 0.5 * density * coef * area * d;
      DotSelfPos(v);
      RealArith.ProductNonNeg(0.5 * density, coef, 0.5 * density * coef);
      RealArith.ProductNonNeg(0.5 * density * coef, area, 0.5 * density * coef * area);
      RealArith.ProductNonNeg(0.5 * density * coef * area, d, s);
      RealArith.ProductNonNeg(s, d, s * d);
      RealArith.QuotientNonNeg(s * d, r, (s * d) / r);
      DragDotComponent(s, r, v.x, v.y, v.z, d, Dot(f, v));
    }
  }

  /**
   * Deploying the parachute only adds drag against the motion: the total
   * drag's component along the velocity is never larger with the chute
   * out, and equals the lander's own drag otherwise.
   */
  lemma ChuteAddsDrag(k: Constants, norm: Vec3 -> real, unit: Vec3 -> Vec3, density: real, v: Vec3)
    requires IsNorm(norm) && IsUnit(unit, norm)
    requires !(density < 0.0) && !(k.dragCoefChute < 0.0)
    ensures TotalDrag(k, unit, density, NotDeployed, v) == TotalDrag(k, unit, density, Lost, v)
         == DragForce(k.dragCoefLander, LanderArea(k), density, unit, v)
    ensures !(Dot(TotalDrag(k, unit, density, Deployed, v), v) > Dot(TotalDrag(k, unit, density, NotDeployed, v), v))
  {
    var s := k.landerSize;
    RealArith.SquareNonNeg(2.0 * s, (2.0 * s) * (2.0 * s));
    RealArith.ProductNonNeg(5.0, (2.0 * s) * (2.0 * s), ChuteArea(k));
    DragOpposesMotion(k.dragCoefChute, ChuteArea(k), density, norm, unit, v);
    DotAdd(DragForce(k.dragCoefLander, LanderArea(k), density, unit, v),
           DragForce(k.dragCoefChute, ChuteArea(k), density, unit, v), v);
  }

  // ---------------------------------------------------------------------
  // Autopilots
  // ---------------------------------------------------------------------

  /** Clamping into [0, 1]: the reference for the throttle rule. */
  function Clamp01(x: real): real {
    if x < 0.0 then 0.0 else if x > 1.0 then 1.0 else x
  }

  /**
   * The throttle rule both autopilots share: off when the proportional
   * term cancels the weight-balancing value, full when it reaches the
   * rest of the range, and their sum in between.
   */
  function Throttle(deltaPID: real, pOut: real): (t: real)
    ensures 0.0 <= t <= 1.0
    ensures t == Clamp01(deltaPID + pOut)
  {
    if pOut <= -deltaPID then 0.0
    else if pOut >= 1.0 - deltaPID then 1.0
    else deltaPID + pOut
  }

  /** The height above the surface. */
  function Altitude(k: Constants, norm: Vec3 -> real, p: Vec3): real {
    norm(p) - k.marsRadius
  }

  /** delta_PID: the throttle whose thrust balances the lander's weight. */
  function DeltaPID(k: Constants, fuel: real, p: Vec3): real
    requires k.Valid() && p != Zero
  {
    LanderWeight(k, CurrentMass(k, fuel), p) / k.maxThrust
  }

  /** At throttle delta_PID the engine's full-scale thrust exactly balances the weight. */
  lemma DeltaPIDBalancesWeight(k: Constants, fuel: real, p: Vec3)
    requires k.Valid() && p != Zero
    ensures DeltaPID(k, fuel, p) * k.maxThrust == LanderWeight(k, CurrentMass(k, fuel), p)
  {
  }

  /** autopilot1's proportional term, with K_h = 0.017 and K_p = 0.2. */
  function POut1(k: Constants, norm: Vec3 -> real, unit: Vec3 -> Vec3, p: Vec3, v: Vec3): real {
    -0.2 * (0.5 + 0.017 * Altitude(k, norm, p) + Dot(v, unit(p)))
  }

  /**
   * autopilot1 aims at a descent rate that falls with the altitude: its
   * term is zero exactly when the radial velocity is -(0.5 + K_h*h), and
   * positive, asking for more thrust, exactly when the lander comes down
   * faster than that.
   */
  lemma Autopilot1TargetDescent(k: Constants, norm: Vec3 -> real, unit: Vec3 -> Vec3, p: Vec3, v: Vec3)
    ensures var target := -(0.5 + 0.017 * Altitude(k, norm, p));
      (POut1(k, norm, unit, p, v) == 0.0 <==> Dot(v, unit(p)) == target) &&
      (POut1(k, norm, unit, p, v) > 0.0 <==> Dot(v, unit(p)) < target)
  {
  }

  /** At the same position, a faster descent never gets autopilot1 less throttle. */
  lemma Autopilot1FasterDescentMoreThrottle(k: Constants, norm: Vec3 -> real, unit: Vec3 -> Vec3, fuel: real,
                                            p: Vec3, v1: Vec3, v2: Vec3)
    requires k.Valid() && p != Zero && Dot(v1, unit(p)) <= Dot(v2, unit(p))
    ensures Throttle(DeltaPID(k, fuel, p), POut1(k, norm, unit, p, v2))
         <= Throttle(DeltaPID(k, fuel, p), POut1(k, norm, unit, p, v1))
  {
  }

  /** autopilot's term with K_p = 1, K_d = 0 and a 500 m target altitude. */
  function POut(k: Constants, norm: Vec3 -> real, unit: Vec3 -> Vec3, p: Vec3, v: Vec3): real {
    var speed := Dot(Neg(v), unit(p));
    1.0 * (500.0 - Altitude(k, norm, p)) + 0.0 * speed
  }

  /** With K_d = 0 the autopilot ignores the velocity altogether. */
  lemma AutopilotIgnoresVelocity(k: Constants, norm: Vec3 -> real, unit: Vec3 -> Vec3, p: Vec3, v1: Vec3, v2: Vec3)
    ensures POut(k, norm, unit, p, v1) == POut(k, norm, unit, p, v2) == 500.0 - Altitude(k, norm, p)
  {
  }

  /**
   * At the 500 m target the autopilot's term vanishes, so a
   * weight-balancing value strictly inside (0, 1) is the throttle itself.
   */
  lemma AutopilotHoversAtTarget(k: Constants, norm: Vec3 -> real, unit: Vec3 -> Vec3, fuel: real, p: Vec3, v: Vec3)
    requires k.Valid() && p != Zero && Altitude(k, norm, p) == 500.0
    requires 0.0 < DeltaPID(k, fuel, p) < 1.0
    ensures Throttle(DeltaPID(k, fuel, p), POut(k, norm, unit, p, v)) == DeltaPID(k, fuel, p)
  {
    AutopilotIgnoresVelocity(k, norm, unit, p, v, v);
  }

  /** autopilot1's parachute rule: deploy low and slow, otherwise leave it as it is. */
  function ParachuteAfter(k: Constants, norm: Vec3 -> real, p: Vec3, v: Vec3, status: ParachuteStatus): ParachuteStatus {
    if Altitude(k, norm, p) <= 5000.0 && norm(v) <= 200.0 then Deployed else status
  }

  /**
   * The parachute rule is a latch: the only change it makes is to deploy,
   * it never retracts, and the chute is out afterwards exactly when it was
   * out before or the lander is at most 5 km up and at most 200 m/s fast.
   * A lost chute is redeployed too.
   */
  lemma ParachuteLatch(k: Constants, norm: Vec3 -> real, p: Vec3, v: Vec3, status: ParachuteStatus)
    ensures var after := ParachuteAfter(k, norm, p, v, status);
      (after != status ==> after == Deployed) &&
      (status == Deployed ==> after == Deployed) &&
      (after == Deployed <==> status == Deployed || (Altitude(k, norm, p) <= 5000.0 && norm(v) <= 200.0))
  {
  }

  // ---------------------------------------------------------------------
  // The simulator state
  // ---------------------------------------------------------------------

  class Lander {
    var position: Vec3
    var velocity: Vec3
    /** `numerical_dynamics`'s static `old_position`: the position before the last step. */
    var oldPosition: Vec3
    var simulationTime: real
    var fuel: real
    var parachuteStatus: ParachuteStatus
    var throttle: real
    var autopilotEnabled: bool

    /**
     * autopilot1: sets the throttle by the clamped rule from the weight
     * and its proportional term, and deploys the parachute when low and
     * slow.
     */
    method Autopilot1(k: Constants, norm: Vec3 -> real, unit: Vec3 -> Vec3)
      requires k.Valid() && position != Zero
      modifies this
      ensures position == old(position) && velocity == old(velocity) && oldPosition == old(oldPosition)
      ensures simulationTime == old(simulationTime) && fuel == old(fuel)
      ensures autopilotEnabled == old(autopilotEnabled)
      ensures throttle == Throttle(DeltaPID(k, fuel, position), POut1(k, norm, unit, position, velocity))
      ensures 0.0 <= throttle <= 1.0
      ensures parachuteStatus == ParachuteAfter(k, norm, position, velocity, old(parachuteStatus))
    {
      var mass := CurrentMass(k, fuel);
      var weight := LanderWeight(k, mass, position);
      var deltaPID := weight / k.maxThrust;
      var kH := 0.017;
      var kP := 0.2;
      var pOut := -kP * (0.5 + kH * (norm(position) - k.marsRadius) + Dot(velocity, unit(position)));
      if pOut <= -deltaPID {
        throttle := 0.0;
      } else if pOut >= 1.0 - deltaPID {
        throttle := 1.0;
      } else {
        throttle := deltaPID + pOut;
      }
      if norm(position) - k.marsRadius <= 5000.0 && norm(velocity) <= 200.0 {
        parachuteStatus := Deployed;
      }
    }

    /** autopilot: sets the throttle by the clamped rule aiming at 500 m; the parachute is left alone. */
    method Autopilot(k: Constants, norm: Vec3 -> real, unit: Vec3 -> Vec3)
      requires k.Valid() && position != Zero
      modifies this
      ensures position == old(position) && velocity == old(velocity) && oldPosition == old(oldPosition)
      ensures simulationTime == old(simulationTime) && fuel == old(fuel)
      ensures autopilotEnabled == old(autopilotEnabled)
      ensures throttle == Throttle(DeltaPID(k, fuel, position), POut(k, norm, unit, position, velocity))
      ensures 0.0 <= throttle <= 1.0
      ensures parachuteStatus == old(parachuteStatus)
    {
      var mass := CurrentMass(k, fuel);
      var weight := LanderWeight(k, mass, position);
      var deltaPID := weight / k.maxThrust;
      var kD := 0.0;
      var kP := 1.0;
      var targetAltitude := 500.0;
      var speed := Dot(Neg(velocity), unit(position));
      var pOut := kP * (targetAltitude - (norm(position) - k.marsRadius)) + kD * speed;
      if pOut <= -deltaPID {
        throttle := 0.0;
      } else if pOut >= 1.0 - deltaPID {
        throttle := 1.0;
      } else {
        throttle := deltaPID + pOut;
      }
    }

    /**
     * numerical_dynamics: one step of the lander's motion, Euler while the
     * simulation time is 0 and Verlet after, remembering the pre-step
     * position; then the autopilot, when it is enabled, on the new state.
     * The autopilot divides by the new position's length, so that position
     * must not be the centre of Mars.
     */
    method NumericalDynamics(k: Constants, norm: Vec3 -> real, unit: Vec3 -> Vec3, dt: real,
                             thrust: Vec3, density: real)
      requires k.Valid() && fuel >= 0.0 && position != Zero && dt != 0.0
      requires autopilotEnabled ==>
        Step(k, unit, dt, simulationTime, fuel, parachuteStatus, position, oldPosition, velocity,
             thrust, density).position != Zero
      modifies this
      ensures Motion(position, velocity)
           == Step(k, unit, dt, old(simulationTime), old(fuel), old(parachuteStatus),
                   old(position), old(oldPosition), old(velocity), thrust, density)
      ensures oldPosition == old(position)
      ensures simulationTime == old(simulationTime) && fuel == old(fuel)
      ensures autopilotEnabled == old(autopilotEnabled) && parachuteStatus == old(parachuteStatus)
      ensures throttle == if autopilotEnabled
                          then Throttle(DeltaPID(k, fuel, position), POut(k, norm, unit, position, velocity))
                          else old(throttle)
    {
      var mass := CurrentMass(k, fuel);
      MassPositive(k, fuel);
      var fGravity := GravityForce(k, unit, mass, position);
      var fThrust := thrust;
      var fDrag := TotalDrag(k, unit, density, parachuteStatus, velocity);
      var fTotal := Add(Add(fGravity, fThrust), fDrag);
      var acceleration := Div(fTotal, mass);
      var newPosition;
      if simulationTime == 0.0 {
        newPosition := Add(position, Scale(dt, velocity));
        velocity := Add(velocity, Scale(dt, acceleration));
      } else {
        newPosition := Add(Sub(Scale(2.0, position), oldPosition), Scale(dt, Scale(dt, acceleration)));
        velocity := Div(Sub(newPosition, oldPosition), 2.0 * dt);
      }
      oldPosition := position;
      position := newPosition;
      if autopilotEnabled {
        Autopilot(k, norm, unit);
      }
    }
  }

  // ---------------------------------------------------------------------
  // Arithmetic helpers: identities over real atoms, one per vector component
  // ---------------------------------------------------------------------

  /** Serves DirectionVector: one component of (w * -(p/r)) / m is -((w/r)/m) times that of p. */
  lemma DirectionComponent(w: real, m: real, r: real, c: real, px: real, ux: real, nx: real, sx: real, ax: real)
    requires m != 0.0 && r != 0.0 && c == -((w / r) / m)
    requires ux == px / r && nx == -ux && sx == w * nx && ax == sx / m
    ensures ax == c * px
  {
  }

  /** Serves WeightOverSquareLength: equal numerators over equal denominators give equal quotients. */
  lemma DivEqual(x1: real, x2: real, d1: real, d2: real)
    requires d1 != 0.0 && x1 == x2 && d1 == d2
    ensures x1 / d1 == x2 / d2
  {
  }

  /** Serves DragOpposesMotion: (s * -(v/r)) . v is -(s * v.v)/r. */
  lemma DragDotComponent(s: real, r: real, v1: real, v2: real, v3: real, d: real, e: real)
    requires r != 0.0 && d == v1 * v1 + v2 * v2 + v3 * v3
    requires e == s * -(v1 / r) * v1 + s * -(v2 / r) * v2 + s * -(v3 / r) * v3
    ensures e == -(s * d) / r
  {
  }
}
