/**
 * The inverse-square orbit shared by task2a_euler.py, task2b_euler.py and
 * task2a_verlet.py: a test mass m moves around a central mass M fixed at
 * the origin, and the scripts record its position and velocity triples.
 *
 * The scripts divide by `r = np.linalg.norm(p)`, a numpy float. At the
 * origin that division does not raise: numpy returns NaN, so every later
 * value computed from it is NaN. A `Triple` is therefore either a finite
 * vector or NaN; every operation below propagates NaN as the floats do.
 */
module Orbit {

  import opened Vectors
  import RealArith

  /** The gravitational constant G, the central mass M and the orbiting mass m. */
  datatype Body = Body(G: real, M: real, m: real) {
    /** `a = -F/m` divides by the orbiting mass. */
    predicate Valid() {
      m != 0.0
    }
  }

  /** A position or velocity tuple: finite, or NaN in every component. */
  datatype Triple = Finite(val: Vec3) | NaN

  /** One recorded entry: a position and a velocity. */
  datatype Phase = Phase(p: Triple, v: Triple)

  /** The outcome of a script's input checks. */
  datatype Outcome = Completed | AssertionError(message: string)

  /** The two assertions every orbit script opens with. */
  function CheckInputs(p: seq<real>, v: seq<real>): (o: Outcome)
    ensures o == Completed <==> |p| == 3 && |v| == 3
  {
    if |p| != 3 then AssertionError("Position vector not 3-dimensional")
    else if |v| != 3 then AssertionError("Velocity vector not 3-dimensional")
    else Completed
  }

  /** A checked 3-element input tuple as a triple. */
  function FromTuple(t: seq<real>): Triple
    requires |t| == 3
  {
    Finite(Vec3(t[0], t[1], t[2]))
  }

  /** `a + c*b`, component by component; NaN in either gives NaN. */
  function AddScaled(a: Triple, c: real, b: Triple): Triple {
    if a.Finite? && b.Finite? then Finite(Add(a.val, Scale(c, b.val))) else NaN
  }

  /**
   * Component i of the acceleration the scripts compute at distance `r`
   * from the centre, where `c` is component i of the position: the unit
   * vector component `c/r`, times the force magnitude `G*M*m/r**2`,
   * negated and divided by m.
   */
  function AccelComponent(b: Body, r: real, c: real): real
    requires b.Valid() && r != 0.0
  {
    RealArith.PowersNonZero(r);
    var fMag := (b.G * b.M * b.m) / (r * r);
    -((c / r) * fMag) / b.m
  }

  /**
   * The acceleration at a finite position q, with `r = |q|`. At the origin
   * `r` is 0, numpy's `0/0` is NaN and so is every component.
   */
  function GravityAccel(b: Body, norm: Vec3 -> real, q: Vec3): Triple
    requires b.Valid()
  {
    var r := norm(q);
    if r == 0.0 then NaN
    else Finite(Vec3(AccelComponent(b, r, q.x), AccelComponent(b, r, q.y), AccelComponent(b, r, q.z)))
  }

  /** The acceleration at a position triple; a NaN position gives NaN. */
  function Accel(b: Body, norm: Vec3 -> real, p: Triple): Triple
    requires b.Valid()
  {
    if p.NaN? then NaN else GravityAccel(b, norm, p.val)
  }

  /** The strength `G*M/r^3` of the pull towards the centre at distance r. */
  function Pull(G: real, M: real, r: real): real
    requires r != 0.0
  {
    RealArith.PowersNonZero(r);
    G * M / (r * r * r)
  }

  // ---------------------------------------------------------------------
  // The force law
  // ---------------------------------------------------------------------

  /** One component of `-F/m`: the mass cancels and `-(G*M/r^3)*c` is left. */
  lemma GravityComponent(b: Body, r: real, c: real)
    requires b.Valid() && r != 0.0
    ensures AccelComponent(b, r, c) == -Pull(b.G, b.M, r) * c
  {
    RealArith.PowersNonZero(r);
    ForceQuotient(b.G * b.M * b.m, c, r);
    MassCancels(b.G * b.M, b.m, c, r * r * r, (c / r) * ((b.G * b.M * b.m) / (r * r)));
  }

  /**
   * Away from the origin the acceleration is `-(G*M/r^3)*p`: it points at
   * the centre and does not involve the orbiting mass m.
   */
  lemma AccelClosedForm(b: Body, norm: Vec3 -> real, q: Vec3)
    requires b.Valid() && norm(q) != 0.0
    ensures GravityAccel(b, norm, q) == Finite(Scale(-Pull(b.G, b.M, norm(q)), q))
  {
    GravityComponent(b, norm(q), q.x);
    GravityComponent(b, norm(q), q.y);
    GravityComponent(b, norm(q), q.z);
  }

  /** Two bodies that differ only in the orbiting mass accelerate alike. */
  lemma AccelMassFree(b1: Body, b2: Body, norm: Vec3 -> real, p: Triple)
    requires b1.Valid() && b2.Valid() && b1.G == b2.G && b1.M == b2.M
    ensures Accel(b1, norm, p) == Accel(b2, norm, p)
  {
    if p.Finite? && norm(p.val) != 0.0 {
      AccelClosedForm(b1, norm, p.val);
      AccelClosedForm(b2, norm, p.val);
    }
  }

  /** The acceleration is NaN exactly at a NaN position and at the origin. */
  lemma AccelNaNIff(b: Body, norm: Vec3 -> real, p: Triple)
    requires b.Valid() && IsNorm(norm)
    ensures Accel(b, norm, p) == NaN <==> p == NaN || p == Finite(Zero)
  {
    if p.Finite? {
      NormZeroIff(norm, p.val);
    }
  }

  /** A finite acceleration is parallel to the position it is taken at. */
  lemma AccelParallel(b: Body, norm: Vec3 -> real, q: Vec3)
    requires b.Valid() && GravityAccel(b, norm, q).Finite?
    ensures Cross(q, GravityAccel(b, norm, q).val) == Zero
  {
    AccelClosedForm(b, norm, q);
    CrossScaled(q, -Pull(b.G, b.M, norm(q)));
  }

  // ---------------------------------------------------------------------
  // Explicit Euler
  // ---------------------------------------------------------------------

  /**
   * One Euler step: the position advances with the old velocity, the
   * velocity with the acceleration at the old position.
   */
  function EulerStep(b: Body, norm: Vec3 -> real, dt: real, st: Phase): Phase
    requires b.Valid()
  {
    Phase(AddScaled(st.p, dt, st.v), AddScaled(st.v, dt, Accel(b, norm, st.p)))
  }

  /** The i-th Euler iterate of `st`. */
  function EulerIter(b: Body, norm: Vec3 -> real, dt: real, st: Phase, i: nat): Phase
    requires b.Valid()
    decreases i
  {
    if i == 0 then st else EulerStep(b, norm, dt, EulerIter(b, norm, dt, st, i - 1))
  }

  /** `ps`, `vs` record, entry by entry, the Euler iterates of `start`. */
  predicate IsEulerTrajectory(b: Body, norm: Vec3 -> real, dt: real, start: Phase, ps: seq<Triple>, vs: seq<Triple>)
    requires b.Valid()
  {
    |ps| == |vs| &&
    forall i :: 0 <= i < |ps| ==> Phase(ps[i], vs[i]) == EulerIter(b, norm, dt, start, i)
  }

  /**
   * The per-axis Euler step with its temporaries `p_x .. v_z`, as
   * task2b_euler.py and the bootstrap of task2a_verlet.py write it.
   */
  method EulerAxes(b: Body, norm: Vec3 -> real, dt: real, p: Triple, v: Triple)
    returns (p': Triple, v': Triple)
    requires b.Valid()
    ensures Phase(p', v') == EulerStep(b, norm, dt, Phase(p, v))
  {
    var a := Accel(b, norm, p);
    if p.Finite? && v.Finite? {
      var px := p.val.x + dt * v.val.x;
      var py := p.val.y + dt * v.val.y;
      var pz := p.val.z + dt * v.val.z;
      p' := Finite(Vec3(px, py, pz));
      assert p' == AddScaled(p, dt, v);
    } else {
      p' := NaN;
    }
    if v.Finite? && a.Finite? {
      var vx := v.val.x + dt * a.val.x;
      var vy := v.val.y + dt * a.val.y;
      var vz := v.val.z + dt * a.val.z;
      v' := Finite(Vec3(vx, vy, vz));
      assert v' == AddScaled(v, dt, a);
    } else {
      v' := NaN;
    }
  }

  /** The Euler trajectory does not depend on the orbiting mass. */
  lemma {:induction false} EulerMassFree(b1: Body, b2: Body, norm: Vec3 -> real, dt: real, st: Phase, i: nat)
    requires b1.Valid() && b2.Valid() && b1.G == b2.G && b1.M == b2.M
    ensures EulerIter(b1, norm, dt, st, i) == EulerIter(b2, norm, dt, st, i)
  {
    if i > 0 {
      EulerMassFree(b1, b2, norm, dt, st, i - 1);
      AccelMassFree(b1, b2, norm, EulerIter(b1, norm, dt, st, i - 1).p);
    }
  }

  /** An Euler step from the origin yields a NaN velocity. */
  lemma EulerFromOrigin(b: Body, norm: Vec3 -> real, dt: real, w: Vec3)
    requires b.Valid() && IsNorm(norm)
    ensures EulerStep(b, norm, dt, Phase(Finite(Zero), Finite(w)))
         == Phase(Finite(Scale(dt, w)), NaN)
  {
    NormZeroIff(norm, Zero);
  }

  /** Once the velocity is NaN, both position and velocity are NaN from the next step on. */
  lemma {:induction false} EulerNaNPersists(b: Body, norm: Vec3 -> real, dt: real, st: Phase, i: nat, j: nat)
    requires b.Valid() && EulerIter(b, norm, dt, st, i).v == NaN && i < j
    ensures EulerIter(b, norm, dt, st, j) == Phase(NaN, NaN)
    decreases j
  {
    if j > i + 1 {
      EulerNaNPersists(b, norm, dt, st, i, j - 1);
    }
  }

  function EulerPosition(q: Vec3, w: Vec3, dt: real): Vec3 {
    Add(q, Scale(dt, w))
  }

  function EulerVelocity(q: Vec3, w: Vec3, dt: real, c: real): Vec3 {
    Add(w, Scale(dt, Scale(c, q)))
  }

  lemma EulerCrossX(q: Vec3, w: Vec3, dt: real, c: real)
    ensures Cross(EulerPosition(q, w, dt), EulerVelocity(q, w, dt, c)).x
         == (1.0 - dt * dt * c) * Cross(q, w).x
  {
    var p', w' := EulerPosition(q, w, dt), EulerVelocity(q, w, dt, c);
    EulerCrossComponent(q.y, q.z, w.y, w.z, dt, c, p'.y, p'.z, w'.y, w'.z, Cross(p', w').x, Cross(q, w).x);
  }

  lemma EulerCrossY(q: Vec3, w: Vec3, dt: real, c: real)
    ensures Cross(EulerPosition(q, w, dt), EulerVelocity(q, w, dt, c)).y
         == (1.0 - dt * dt * c) * Cross(q, w).y
  {
    var p', w' := EulerPosition(q, w, dt), EulerVelocity(q, w, dt, c);
    EulerCrossComponent(q.z, q.x, w.z, w.x, dt, c, p'.z, p'.x, w'.z, w'.x, Cross(p', w').y, Cross(q, w).y);
  }

  lemma EulerCrossZ(q: Vec3, w: Vec3, dt: real, c: real)
    ensures Cross(EulerPosition(q, w, dt), EulerVelocity(q, w, dt, c)).z
         == (1.0 - dt * dt * c) * Cross(q, w).z
  {
    var p', w' := EulerPosition(q, w, dt), EulerVelocity(q, w, dt, c);
    EulerCrossComponent(q.x, q.y, w.x, w.y, dt, c, p'.x, p'.y, w'.x, w'.y, Cross(p', w').z, Cross(q, w).z);
  }

  /** Under any central law `a = c*p`, an Euler step scales `p x v` by `1 - dt^2*c`. */
  lemma CentralEulerCross(q: Vec3, w: Vec3, dt: real, c: real)
    ensures Cross(EulerPosition(q, w, dt), EulerVelocity(q, w, dt, c))
         == Scale(1.0 - dt * dt * c, Cross(q, w))
  {
    EulerCrossX(q, w, dt, c);
    EulerCrossY(q, w, dt, c);
    EulerCrossZ(q, w, dt, c);
  }

  /**
   * Away from the origin, one Euler step multiplies the angular momentum
   * `p x v` (per unit mass) by exactly `1 + dt^2*G*M/r^3`.
   */
  lemma EulerAngularMomentum(b: Body, norm: Vec3 -> real, dt: real, q: Vec3, w: Vec3)
    requires b.Valid() && norm(q) != 0.0
    ensures var next := EulerStep(b, norm, dt, Phase(Finite(q), Finite(w)));
      next.p.Finite? && next.v.Finite? &&
      Cross(next.p.val, next.v.val) == Scale(1.0 + dt * dt * Pull(b.G, b.M, norm(q)), Cross(q, w))
  {
    var s := Pull(b.G, b.M, norm(q));
    AccelClosedForm(b, norm, q);
    CentralEulerCross(q, w, dt, -s);
    GrowthFactor(dt, s, -s);
  }

  // ---------------------------------------------------------------------
  // Planes and axes
  // ---------------------------------------------------------------------

  /** A triple lies in the plane through the origin with normal n (NaN is exempt). */
  predicate InPlane(n: Vec3, t: Triple) {
    t.NaN? || Dot(n, t.val) == 0.0
  }

  lemma DotScaledZero(n: Vec3, s: real, b: Vec3)
    requires Dot(n, b) == 0.0
    ensures Dot(n, Scale(s, b)) == 0.0
  {
    ScaledDotComponent(n.x, n.y, n.z, b.x, b.y, b.z, s, Dot(n, b), Dot(n, Scale(s, b)));
  }

  /** A plane through the origin is closed under `a + s*b`. */
  lemma PlaneAddScaled(n: Vec3, a: Vec3, s: real, b: Vec3)
    requires Dot(n, a) == 0.0 && Dot(n, b) == 0.0
    ensures Dot(n, Add(a, Scale(s, b))) == 0.0
  {
    DotScaledZero(n, s, b);
  }

  /** The acceleration stays in every plane through the origin that holds the position. */
  lemma AccelInPlane(b: Body, norm: Vec3 -> real, n: Vec3, p: Triple)
    requires b.Valid() && InPlane(n, p)
    ensures InPlane(n, Accel(b, norm, p))
  {
    if Accel(b, norm, p).Finite? {
      AccelClosedForm(b, norm, p.val);
      DotScaledZero(n, -Pull(b.G, b.M, norm(p.val)), p.val);
    }
  }

  /** An Euler step keeps position and velocity in a plane through the centre. */
  lemma EulerStepInPlane(b: Body, norm: Vec3 -> real, dt: real, n: Vec3, st: Phase)
    requires b.Valid() && InPlane(n, st.p) && InPlane(n, st.v)
    ensures InPlane(n, EulerStep(b, norm, dt, st).p) && InPlane(n, EulerStep(b, norm, dt, st).v)
  {
    AccelInPlane(b, norm, n, st.p);
    var a := Accel(b, norm, st.p);
    if st.p.Finite? && st.v.Finite? {
      PlaneAddScaled(n, st.p.val, dt, st.v.val);
    }
    if st.v.Finite? && a.Finite? {
      PlaneAddScaled(n, st.v.val, dt, a.val);
    }
  }

  /** Motion that starts in a plane through the centre stays in it for every Euler entry. */
  lemma {:induction false} EulerPlanar(b: Body, norm: Vec3 -> real, dt: real, n: Vec3, st: Phase, i: nat)
    requires b.Valid() && InPlane(n, st.p) && InPlane(n, st.v)
    ensures InPlane(n, EulerIter(b, norm, dt, st, i).p) && InPlane(n, EulerIter(b, norm, dt, st, i).v)
  {
    if i > 0 {
      EulerPlanar(b, norm, dt, n, st, i - 1);
      EulerStepInPlane(b, norm, dt, n, EulerIter(b, norm, dt, st, i - 1));
    }
  }

  const XAxisNormal: Vec3 := Vec3(1.0, 0.0, 0.0)
  const ZAxisNormal: Vec3 := Vec3(0.0, 0.0, 1.0)

  /** A finite triple in the x-y plane has z = 0. */
  predicate InXYPlane(t: Triple) {
    t.NaN? || t.val.z == 0.0
  }

  /** A finite triple on the y-axis has x = z = 0. */
  predicate OnYAxis(t: Triple) {
    t.NaN? || (t.val.x == 0.0 && t.val.z == 0.0)
  }

  lemma XYPlaneIsPlane(t: Triple)
    ensures InXYPlane(t) <==> InPlane(ZAxisNormal, t)
  {
  }

  lemma YAxisIsTwoPlanes(t: Triple)
    ensures OnYAxis(t) <==> InPlane(XAxisNormal, t) && InPlane(ZAxisNormal, t)
  {
  }

  /** Starting in the x-y plane, every finite Euler entry has z = 0 in position and velocity. */
  lemma EulerStaysInXYPlane(b: Body, norm: Vec3 -> real, dt: real, st: Phase, i: nat)
    requires b.Valid() && InXYPlane(st.p) && InXYPlane(st.v)
    ensures InXYPlane(EulerIter(b, norm, dt, st, i).p) && InXYPlane(EulerIter(b, norm, dt, st, i).v)
  {
    XYPlaneIsPlane(st.p);
    XYPlaneIsPlane(st.v);
    EulerPlanar(b, norm, dt, ZAxisNormal, st, i);
    XYPlaneIsPlane(EulerIter(b, norm, dt, st, i).p);
    XYPlaneIsPlane(EulerIter(b, norm, dt, st, i).v);
  }

  /** Starting on the y-axis, every finite Euler entry has x = z = 0 in position and velocity. */
  lemma EulerStaysOnYAxis(b: Body, norm: Vec3 -> real, dt: real, st: Phase, i: nat)
    requires b.Valid() && OnYAxis(st.p) && OnYAxis(st.v)
    ensures OnYAxis(EulerIter(b, norm, dt, st, i).p) && OnYAxis(EulerIter(b, norm, dt, st, i).v)
  {
    YAxisIsTwoPlanes(st.p);
    YAxisIsTwoPlanes(st.v);
    EulerPlanar(b, norm, dt, XAxisNormal, st, i);
    EulerPlanar(b, norm, dt, ZAxisNormal, st, i);
    YAxisIsTwoPlanes(EulerIter(b, norm, dt, st, i).p);
    YAxisIsTwoPlanes(EulerIter(b, norm, dt, st, i).v);
  }

  // ---------------------------------------------------------------------
  // Position Verlet
  // ---------------------------------------------------------------------

  /** `2*cur - prev + dt**2 * a(cur)`, component by component. */
  function VerletNext(b: Body, norm: Vec3 -> real, dt: real, prev: Triple, cur: Triple): Triple
    requires b.Valid()
  {
    var a := Accel(b, norm, cur);
    if prev.Finite? && cur.Finite? && a.Finite? then
      Finite(Add(Sub(Scale(2.0, cur.val), prev.val), Scale(dt * dt, a.val)))
    else
      NaN
  }

  /** The central difference `(next - prev)/(2*dt)`, component by component. */
  function CentralDiff(dt: real, next: Triple, prev: Triple): Triple
    requires dt != 0.0
  {
    if next.Finite? && prev.Finite? then Finite(Div(Sub(next.val, prev.val), 2.0 * dt)) else NaN
  }

  /**
   * Position i of the Verlet trajectory from `st`: the start, one Euler
   * step, then the Verlet recurrence on the two latest positions.
   */
  function VerletPos(b: Body, norm: Vec3 -> real, dt: real, st: Phase, i: nat): Triple
    requires b.Valid()
    decreases i
  {
    if i == 0 then st.p
    else if i == 1 then EulerStep(b, norm, dt, st).p
    else VerletNext(b, norm, dt, VerletPos(b, norm, dt, st, i - 2), VerletPos(b, norm, dt, st, i - 1))
  }

  /** Velocity i: the start, the Euler step's, then central differences of positions. */
  function VerletVel(b: Body, norm: Vec3 -> real, dt: real, st: Phase, i: nat): Triple
    requires b.Valid() && dt != 0.0
  {
    if i == 0 then st.v
    else if i == 1 then EulerStep(b, norm, dt, st).v
    else CentralDiff(dt, VerletPos(b, norm, dt, st, i), VerletPos(b, norm, dt, st, i - 2))
  }

  /** The first `n` positions of the Verlet trajectory from `st`. */
  function VerletPositions(b: Body, norm: Vec3 -> real, dt: real, st: Phase, n: nat): (ps: seq<Triple>)
    requires b.Valid()
    ensures |ps| == n
  {
    if n == 0 then [] else VerletPositions(b, norm, dt, st, n - 1) + [VerletPos(b, norm, dt, st, n - 1)]
  }

  /** The first `n` velocities of the Verlet trajectory from `st`. */
  function VerletVelocities(b: Body, norm: Vec3 -> real, dt: real, st: Phase, n: nat): (vs: seq<Triple>)
    requires b.Valid() && dt != 0.0
    ensures |vs| == n
  {
    if n == 0 then [] else VerletVelocities(b, norm, dt, st, n - 1) + [VerletVel(b, norm, dt, st, n - 1)]
  }

  /** Entry `i` of the recorded lists is position and velocity `i` of the trajectory. */
  lemma {:induction false} VerletListsIndex(b: Body, norm: Vec3 -> real, dt: real, st: Phase, n: nat, i: nat)
    requires b.Valid() && dt != 0.0 && i < n
    ensures VerletPositions(b, norm, dt, st, n)[i] == VerletPos(b, norm, dt, st, i)
    ensures VerletVelocities(b, norm, dt, st, n)[i] == VerletVel(b, norm, dt, st, i)
  {
    if i < n - 1 {
      VerletListsIndex(b, norm, dt, st, n - 1, i);
    }
  }

  /** Entries 0 and 1 of a Verlet trajectory are the start and one Euler step of it. */
  lemma VerletBootstrapIsEuler(b: Body, norm: Vec3 -> real, dt: real, st: Phase)
    requires b.Valid() && dt != 0.0
    ensures Phase(VerletPos(b, norm, dt, st, 0), VerletVel(b, norm, dt, st, 0)) == EulerIter(b, norm, dt, st, 0)
    ensures Phase(VerletPos(b, norm, dt, st, 1), VerletVel(b, norm, dt, st, 1)) == EulerIter(b, norm, dt, st, 1)
  {
  }

  /** From a position at the origin the next Verlet position is NaN, and so is everything after. */
  lemma {:induction false} VerletOriginPoisons(b: Body, norm: Vec3 -> real, dt: real, st: Phase, i: nat, j: nat)
    requires b.Valid() && IsNorm(norm) && dt != 0.0
    requires 1 <= i < j && VerletPos(b, norm, dt, st, i) == Finite(Zero)
    ensures VerletPos(b, norm, dt, st, j) == NaN && VerletVel(b, norm, dt, st, j) == NaN
    decreases j
  {
    if j == i + 1 {
      NormZeroIff(norm, Zero);
    } else {
      VerletOriginPoisons(b, norm, dt, st, i, j - 1);
    }
  }

  /**
   * A Verlet orbit that starts at the origin with a non-zero velocity gets
   * a NaN velocity at entry 1 only: position 1 is the finite Euler step,
   * and entry 2 is built from positions 0 and 1 alone, so it is finite.
   */
  lemma VerletFromOrigin(b: Body, norm: Vec3 -> real, dt: real, w: Vec3)
    requires b.Valid() && IsNorm(norm) && dt != 0.0 && w != Zero
    ensures var st := Phase(Finite(Zero), Finite(w));
      VerletPos(b, norm, dt, st, 1) == Finite(Scale(dt, w)) && VerletVel(b, norm, dt, st, 1) == NaN &&
      VerletPos(b, norm, dt, st, 2).Finite? && VerletVel(b, norm, dt, st, 2).Finite?
  {
    ScaleNonZero(dt, w);
    NormZeroIff(norm, Zero);
    NormZeroIff(norm, Scale(dt, w));
    VerletFromZeroLength(b, norm, dt, w);
  }

  /** VerletFromOrigin with the two lengths it needs given as facts. */
  lemma VerletFromZeroLength(b: Body, norm: Vec3 -> real, dt: real, w: Vec3)
    requires b.Valid() && dt != 0.0 && norm(Zero) == 0.0 && norm(Scale(dt, w)) != 0.0
    ensures var st := Phase(Finite(Zero), Finite(w));
      VerletPos(b, norm, dt, st, 1) == Finite(Scale(dt, w)) && VerletVel(b, norm, dt, st, 1) == NaN &&
      VerletPos(b, norm, dt, st, 2).Finite? && VerletVel(b, norm, dt, st, 2).Finite?
  {
    var st := Phase(Finite(Zero), Finite(w));
    assert VerletPos(b, norm, dt, st, 1) == Finite(Scale(dt, w)) by {
      assert Add(Zero, Scale(dt, w)) == Scale(dt, w);
    }
    VerletSecondEntryFinite(b, norm, dt, st);
  }

  /** Entry 2 is finite when positions 0 and 1 are, and position 1 is off the origin. */
  lemma VerletSecondEntryFinite(b: Body, norm: Vec3 -> real, dt: real, st: Phase)
    requires b.Valid() && dt != 0.0
    requires VerletPos(b, norm, dt, st, 0).Finite? && VerletPos(b, norm, dt, st, 1).Finite?
    requires norm(VerletPos(b, norm, dt, st, 1).val) != 0.0
    ensures VerletPos(b, norm, dt, st, 2).Finite? && VerletVel(b, norm, dt, st, 2).Finite?
  {
    VerletNextFinite(b, norm, dt, VerletPos(b, norm, dt, st, 0), VerletPos(b, norm, dt, st, 1));
  }

  /** The recurrence on finite positions, the current one off the origin, is finite. */
  lemma VerletNextFinite(b: Body, norm: Vec3 -> real, dt: real, prev: Triple, cur: Triple)
    requires b.Valid() && prev.Finite? && cur.Finite? && norm(cur.val) != 0.0
    ensures VerletNext(b, norm, dt, prev, cur).Finite?
  {
  }

  function VerletPosition(prev: Vec3, cur: Vec3, h: real, k: real): Vec3 {
    Add(Sub(Scale(2.0, cur), prev), Scale(h, Scale(k, cur)))
  }

  lemma VerletCrossX(prev: Vec3, cur: Vec3, h: real, k: real)
    ensures Cross(VerletPosition(prev, cur, h, k), cur).x == Cross(cur, prev).x
  {
    var n := VerletPosition(prev, cur, h, k);
    VerletCrossComponent(cur.y, cur.z, prev.y, prev.z, h, k, n.y, n.z, Cross(n, cur).x, Cross(cur, prev).x);
  }

  lemma VerletCrossY(prev: Vec3, cur: Vec3, h: real, k: real)
    ensures Cross(VerletPosition(prev, cur, h, k), cur).y == Cross(cur, prev).y
  {
    var n := VerletPosition(prev, cur, h, k);
    VerletCrossComponent(cur.z, cur.x, prev.z, prev.x, h, k, n.z, n.x, Cross(n, cur).y, Cross(cur, prev).y);
  }

  lemma VerletCrossZ(prev: Vec3, cur: Vec3, h: real, k: real)
    ensures Cross(VerletPosition(prev, cur, h, k), cur).z == Cross(cur, prev).z
  {
    var n := VerletPosition(prev, cur, h, k);
    VerletCrossComponent(cur.x, cur.y, prev.x, prev.y, h, k, n.x, n.y, Cross(n, cur).z, Cross(cur, prev).z);
  }

  /** Under any central law `a = k*p` the Verlet recurrence keeps `p_{n+1} x p_n = p_n x p_{n-1}`. */
  lemma CentralVerletCross(prev: Vec3, cur: Vec3, h: real, k: real)
    ensures Cross(VerletPosition(prev, cur, h, k), cur) == Cross(cur, prev)
  {
    VerletCrossX(prev, cur, h, k);
    VerletCrossY(prev, cur, h, k);
    VerletCrossZ(prev, cur, h, k);
  }

  /**
   * A finite Verlet position comes from finite predecessors, and the
   * cross product of consecutive positions carries over:
   * `p_{n+1} x p_n == p_n x p_{n-1}`.
   */
  lemma VerletCrossStep(b: Body, norm: Vec3 -> real, dt: real, prev: Triple, cur: Triple)
    requires b.Valid() && VerletNext(b, norm, dt, prev, cur).Finite?
    ensures prev.Finite? && cur.Finite?
    ensures Cross(VerletNext(b, norm, dt, prev, cur).val, cur.val) == Cross(cur.val, prev.val)
  {
    var s := Pull(b.G, b.M, norm(cur.val));
    AccelClosedForm(b, norm, cur.val);
    assert VerletNext(b, norm, dt, prev, cur).val == VerletPosition(prev.val, cur.val, dt * dt, -s);
    CentralVerletCross(prev.val, cur.val, dt * dt, -s);
  }

  /**
   * Along a Verlet trajectory the cross product of consecutive positions
   * is the same at every finite entry n+1 >= 2 as between entries 1 and 0.
   */
  lemma {:induction false} VerletCrossConserved(b: Body, norm: Vec3 -> real, dt: real, st: Phase, n: nat)
    requires b.Valid() && n >= 1 && VerletPos(b, norm, dt, st, n + 1).Finite?
    ensures VerletPos(b, norm, dt, st, n).Finite? && VerletPos(b, norm, dt, st, 1).Finite?
    ensures VerletPos(b, norm, dt, st, 0).Finite?
    ensures Cross(VerletPos(b, norm, dt, st, n + 1).val, VerletPos(b, norm, dt, st, n).val)
         == Cross(VerletPos(b, norm, dt, st, 1).val, VerletPos(b, norm, dt, st, 0).val)
    decreases n
  {
    VerletCrossStep(b, norm, dt, VerletPos(b, norm, dt, st, n - 1), VerletPos(b, norm, dt, st, n));
    if n > 1 {
      VerletCrossConserved(b, norm, dt, st, n - 1);
    }
  }

  /** A plane through the origin is closed under `2*c - p`. */
  lemma PlaneReflect(n: Vec3, c: Vec3, p: Vec3)
    requires Dot(n, c) == 0.0 && Dot(n, p) == 0.0
    ensures Dot(n, Sub(Scale(2.0, c), p)) == 0.0
  {
    DotScaledZero(n, 2.0, c);
  }

  lemma DivIsScale(a: Vec3, d: real)
    requires d != 0.0
    ensures Div(a, d) == Scale(1.0 / d, a)
  {
  }

  /** A Verlet position and a central difference stay in a plane through the centre. */
  lemma VerletStepInPlane(b: Body, norm: Vec3 -> real, dt: real, n: Vec3, prev: Triple, cur: Triple)
    requires b.Valid() && InPlane(n, prev) && InPlane(n, cur)
    ensures InPlane(n, VerletNext(b, norm, dt, prev, cur))
    ensures dt != 0.0 ==> InPlane(n, CentralDiff(dt, VerletNext(b, norm, dt, prev, cur), prev))
  {
    var next := VerletNext(b, norm, dt, prev, cur);
    var a := Accel(b, norm, cur);
    AccelInPlane(b, norm, n, cur);
    if next.Finite? {
      PlaneReflect(n, cur.val, prev.val);
      PlaneAddScaled(n, Sub(Scale(2.0, cur.val), prev.val), dt * dt, a.val);
      if dt != 0.0 {
        var diff := Sub(next.val, prev.val);
        assert diff == Add(next.val, Scale(-1.0, prev.val));
        PlaneAddScaled(n, next.val, -1.0, prev.val);
        DivIsScale(diff, 2.0 * dt);
        DotScaledZero(n, 1.0 / (2.0 * dt), diff);
      }
    }
  }

  /** Motion that starts in a plane through the centre keeps every Verlet position in it. */
  lemma {:induction false} VerletPositionsPlanar(b: Body, norm: Vec3 -> real, dt: real, n: Vec3, st: Phase, i: nat)
    requires b.Valid() && InPlane(n, st.p) && InPlane(n, st.v)
    ensures InPlane(n, VerletPos(b, norm, dt, st, i))
    decreases i
  {
    if i == 1 {
      EulerStepInPlane(b, norm, dt, n, st);
    } else if i >= 2 {
      VerletPositionsPlanar(b, norm, dt, n, st, i - 2);
      VerletPositionsPlanar(b, norm, dt, n, st, i - 1);
      VerletStepInPlane(b, norm, dt, n, VerletPos(b, norm, dt, st, i - 2), VerletPos(b, norm, dt, st, i - 1));
    }
  }

  /** ... and every Verlet velocity. */
  lemma VerletVelocitiesPlanar(b: Body, norm: Vec3 -> real, dt: real, n: Vec3, st: Phase, i: nat)
    requires b.Valid() && dt != 0.0 && InPlane(n, st.p) && InPlane(n, st.v)
    ensures InPlane(n, VerletVel(b, norm, dt, st, i))
  {
    if i == 1 {
      EulerStepInPlane(b, norm, dt, n, st);
    } else if i >= 2 {
      VerletPositionsPlanar(b, norm, dt, n, st, i - 2);
      VerletPositionsPlanar(b, norm, dt, n, st, i - 1);
      VerletStepInPlane(b, norm, dt, n, VerletPos(b, norm, dt, st, i - 2), VerletPos(b, norm, dt, st, i - 1));
    }
  }

  /** Starting on the y-axis, every finite Verlet position and velocity has x = z = 0. */
  lemma VerletStaysOnYAxis(b: Body, norm: Vec3 -> real, dt: real, st: Phase, i: nat)
    requires b.Valid() && dt != 0.0 && OnYAxis(st.p) && OnYAxis(st.v)
    ensures OnYAxis(VerletPos(b, norm, dt, st, i)) && OnYAxis(VerletVel(b, norm, dt, st, i))
  {
    YAxisIsTwoPlanes(st.p);
    YAxisIsTwoPlanes(st.v);
    VerletPositionsPlanar(b, norm, dt, XAxisNormal, st, i);
    VerletPositionsPlanar(b, norm, dt, ZAxisNormal, st, i);
    VerletVelocitiesPlanar(b, norm, dt, XAxisNormal, st, i);
    VerletVelocitiesPlanar(b, norm, dt, ZAxisNormal, st, i);
    YAxisIsTwoPlanes(VerletPos(b, norm, dt, st, i));
    YAxisIsTwoPlanes(VerletVel(b, norm, dt, st, i));
  }

  // ---------------------------------------------------------------------
  // Arithmetic helpers: identities over real atoms, one per vector component
  // ---------------------------------------------------------------------

  /** Serves GravityComponent: the unit-vector component c/r times the magnitude k/r^2 is k*c/r^3. */
  lemma ForceQuotient(k: real, c: real, r: real)
    requires r != 0.0 && r * r != 0.0 && r * r * r != 0.0
    ensures (c / r) * (k / (r * r)) == (k * c) / (r * r * r)
  {
  }

  /** Serves GravityComponent: the orbiting mass m cancels from -F_i/m. */
  lemma MassCancels(k: real, m: real, c: real, d: real, x: real)
    requires m != 0.0 && d != 0.0 && x == (k * m * c) / d
    ensures -x / m == -(k / d) * c
  {
  }

  /** Serves EulerAngularMomentum: the central factor c = -G*M/r^3 turns 1 - dt^2*c into 1 + dt^2*G*M/r^3. */
  lemma GrowthFactor(dt: real, s: real, c: real)
    requires c == -s
    ensures 1.0 - dt * dt * c == 1.0 + dt * dt * s
  {
  }

  /** Serves EulerCrossX/Y/Z: one component of (q + dt*w) x (w + dt*c*q) is (1 - dt^2*c) times that of q x w. */
  lemma EulerCrossComponent(a1: real, a2: real, b1: real, b2: real, dt: real, c: real,
                            p1: real, p2: real, v1: real, v2: real, l: real, x: real)
    requires p1 == a1 + dt * b1 && p2 == a2 + dt * b2
    requires v1 == b1 + dt * (c * a1) && v2 == b2 + dt * (c * a2)
    requires l == p1 * v2 - p2 * v1 && x == a1 * b2 - a2 * b1
    ensures l == (1.0 - dt * dt * c) * x
  {
  }

  /** Serves VerletCrossX/Y/Z: one component of (2*cur - prev + h*k*cur) x cur equals that of cur x prev. */
  lemma VerletCrossComponent(c1: real, c2: real, p1: real, p2: real, h: real, k: real,
                             n1: real, n2: real, l: real, x: real)
    requires n1 == 2.0 * c1 - p1 + h * (k * c1) && n2 == 2.0 * c2 - p2 + h * (k * c2)
    requires l == n1 * c2 - n2 * c1 && x == c1 * p2 - c2 * p1
    ensures l == x
  {
  }

  /** Serves DotScaledZero: n . (s*b) is s times n . b, hence 0 when n . b is. */
  lemma ScaledDotComponent(n1: real, n2: real, n3: real, b1: real, b2: real, b3: real,
                           s: real, d: real, e: real)
    requires d == n1 * b1 + n2 * b2 + n3 * b3 && d == 0.0
    requires e == n1 * (s * b1) + n2 * (s * b2) + n3 * (s * b3)
    ensures e == 0.0
  {
    assert e == s * d;
  }
}
