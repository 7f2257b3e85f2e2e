/**
 * The one-dimensional spring oscillator shared by task1_euler.py,
 * task1_verlet.py and spring_verlet.cpp: the acceleration a = -k*x/m, the
 * explicit Euler step, and the position-Verlet recurrence bootstrapped by one
 * Euler step. These functions are the specifications that the trajectory
 * loops of those three programs are proved against.
 */
module Spring {

  import RealArith

  /** Mass and spring constant; the programs divide by the mass. */
  datatype Params = Params(m: real, k: real) {
    predicate Valid() { m != 0.0 }
  }

  /** Position and velocity of the point mass at one grid point. */
  datatype State = State(x: real, v: real)

  function Accel(s: Params, x: real): real
    requires s.Valid()
  {
    -s.k * x / s.m
  }

  /** With unit mass and spring constant the acceleration is -x. */
  lemma UnitAccel(s: Params, x: real)
    requires s.m == 1.0 && s.k == 1.0
    ensures Accel(s, x) == -x
  {
  }

  /**
   * One explicit Euler step: the position advances with the pre-step
   * velocity and the velocity with the acceleration at the pre-step position.
   */
  function EulerStep(s: Params, dt: real, st: State): State
    requires s.Valid()
  {
    State(st.x + dt * st.v, st.v + dt * Accel(s, st.x))
  }

  /** With m = k = 1 and dt = 1 a step maps (x, v) to (x + v, v - x). */
  lemma UnitStep(s: Params, dt: real, st: State)
    requires s.m == 1.0 && s.k == 1.0 && dt == 1.0
    ensures EulerStep(s, dt, st) == State(st.x + st.v, st.v - st.x)
  {
    UnitAccel(s, st.x);
  }

  /** The state after `i` Euler steps from `st`. */
  function EulerIter(s: Params, dt: real, st: State, i: nat): State
    requires s.Valid()
  {
    if i == 0 then st else EulerStep(s, dt, EulerIter(s, dt, st, i - 1))
  }

  /**
   * The update the three spring programs write out after recording a state:
   * the acceleration at the current position, then the position with the
   * current velocity, then the velocity with that acceleration.
   */
  method EulerUpdate(s: Params, dt: real, x0: real, v0: real) returns (x: real, v: real)
    requires s.Valid()
    ensures State(x, v) == EulerStep(s, dt, State(x0, v0))
  {
    x, v := x0, v0;
    var a := -s.k * x / s.m;
    x := x + dt * v;
    v := v + dt * a;
  }

  /** One more iterate is one more step; a helper for computing concrete entries. */
  lemma EulerIterSucc(s: Params, dt: real, st: State, i: nat)
    requires s.Valid()
    ensures EulerIter(s, dt, st, i + 1) == EulerStep(s, dt, EulerIter(s, dt, st, i))
  {
  }

  /** Twice the mechanical energy, scaled by m: k*x^2 + m*v^2. */
  function Energy(s: Params, st: State): real {
    s.k * (st.x * st.x) + s.m * (st.v * st.v)
  }

  /** One Euler step multiplies k*x^2 + m*v^2 by exactly 1 + dt^2*k/m. */
  lemma EulerEnergyFactor(s: Params, dt: real, st: State)
    requires s.Valid()
    ensures Energy(s, EulerStep(s, dt, st)) == (1.0 + dt * dt * s.k / s.m) * Energy(s, st)
  {
    var a := Accel(s, st.x);
    assert s.m * a == -s.k * st.x;
    EnergyExpand(s.k, s.m, st.x, st.v, dt, a);
    EnergyCollect(s.k, s.m, st.x, st.v, dt, a);
  }

  /** For positive m and k the energy is positive away from the rest state. */
  lemma EnergyPositive(s: Params, st: State)
    requires s.m > 0.0 && s.k > 0.0 && st != State(0.0, 0.0)
    ensures Energy(s, st) > 0.0
  {
    RealArith.WeightedSquaresPos(s.k, s.m, st.x, st.v, Energy(s, st));
  }

  /**
   * For positive m, k and dt the energy strictly grows under an Euler step,
   * unless the mass rests at the origin, which is a fixed point.
   */
  lemma EulerEnergyGrows(s: Params, dt: real, st: State)
    requires s.m > 0.0 && s.k > 0.0 && dt > 0.0
    ensures st != State(0.0, 0.0) ==> Energy(s, EulerStep(s, dt, st)) > Energy(s, st)
    ensures st == State(0.0, 0.0) ==> EulerStep(s, dt, st) == st
  {
    if st != State(0.0, 0.0) {
      var e, c := Energy(s, st), dt * dt * s.k / s.m;
      EulerEnergyFactor(s, dt, st);
      EnergyPositive(s, st);
      var dd := dt * dt;
      RealArith.ProductPos(dt, dt, dd);
      RealArith.ProductPos(dd, s.k, dd * s.k);
      RealArith.QuotientPos(dd * s.k, s.m, c);
      RealArith.ProductPos(c, e, c * e);
      assert (1.0 + c) * e == e + c * e;
    }
  }

  /** After i Euler steps the energy is E0 * (1 + dt^2*k/m)^i. */
  lemma {:induction false} EulerIterEnergy(s: Params, dt: real, st: State, i: nat)
    requires s.Valid()
    ensures Energy(s, EulerIter(s, dt, st, i)) == Pow(1.0 + dt * dt * s.k / s.m, i) * Energy(s, st)
  {
    if i > 0 {
      EulerIterEnergy(s, dt, st, i - 1);
      EulerIterFactor(s, dt, st, i);
      calc {
        Energy(s, EulerIter(s, dt, st, i));
        (1.0 + dt * dt * s.k / s.m) * Energy(s, EulerIter(s, dt, st, i - 1));
        (1.0 + dt * dt * s.k / s.m) * (Pow(1.0 + dt * dt * s.k / s.m, i - 1) * Energy(s, st));
        ((1.0 + dt * dt * s.k / s.m) * Pow(1.0 + dt * dt * s.k / s.m, i - 1)) * Energy(s, st);
        Pow(1.0 + dt * dt * s.k / s.m, i) * Energy(s, st);
      }
    }
  }

  /** Step i of the iteration multiplies the energy by 1 + dt^2*k/m. */
  lemma EulerIterFactor(s: Params, dt: real, st: State, i: nat)
    requires s.Valid() && i > 0
    ensures Energy(s, EulerIter(s, dt, st, i)) == (1.0 + dt * dt * s.k / s.m) * Energy(s, EulerIter(s, dt, st, i - 1))
  {
    assert EulerIter(s, dt, st, i) == EulerStep(s, dt, EulerIter(s, dt, st, i - 1));
    EulerEnergyFactor(s, dt, EulerIter(s, dt, st, i - 1));
  }

  function Pow(b: real, n: nat): real {
    if n == 0 then 1.0 else b * Pow(b, n - 1)
  }

  /**
   * With m, k, dt > 0 every positive number of steps from a state other than
   * the rest state raises the energy, so the state never comes back.
   */
  lemma {:induction false} EulerIterMoves(s: Params, dt: real, st: State, i: nat)
    requires s.m > 0.0 && s.k > 0.0 && dt > 0.0 && i > 0
    requires st != State(0.0, 0.0)
    ensures Energy(s, EulerIter(s, dt, st, i)) > Energy(s, st)
    ensures EulerIter(s, dt, st, i) != st
  {
    if i == 1 {
      EulerEnergyGrows(s, dt, st);
    } else {
      var prev := EulerIter(s, dt, st, i - 1);
      EulerIterMoves(s, dt, st, i - 1);
      EnergyPositive(s, st);
      assert Energy(s, State(0.0, 0.0)) == 0.0;
      EulerEnergyGrows(s, dt, prev);
    }
  }

  /** The position-Verlet recurrence: the position after `cur`, given the one before it. */
  function VerletNext(s: Params, dt: real, prev: real, cur: real): real
    requires s.Valid()
  {
    2.0 * cur - prev + dt * dt * Accel(s, cur)
  }

  /**
   * One step of the Verlet loops of task1_verlet.py and spring_verlet.cpp,
   * given the last two recorded positions and the current position `x0`
   * (equal to the last one): the acceleration at `x0`, the recurrence, and
   * the central difference of the new position and the one before last.
   */
  method VerletUpdate(s: Params, dt: real, last2: real, last: real, x0: real)
    returns (x: real, v: real)
    requires s.Valid() && dt != 0.0 && x0 == last
    ensures x == VerletNext(s, dt, last2, last)
    ensures v == (x - last2) / (2.0 * dt)
  {
    x := x0;
    var a := -s.k * x / s.m;
    x := 2.0 * last - last2 + (dt * dt) * a;
    v := (x - last2) / (2.0 * dt);
  }

  /**
   * The recurrence is time-reversible: applied to the new position and the
   * current one, it gives back the earlier position.
   */
  lemma VerletNextReversible(s: Params, dt: real, prev: real, cur: real)
    requires s.Valid()
    ensures VerletNext(s, dt, VerletNext(s, dt, prev, cur), cur) == prev
  {
  }

  /**
   * Positions of the Verlet trajectory: entry 0 is the start, entry 1 one
   * Euler step of it, and every later entry the recurrence applied to the
   * two entries before it.
   */
  function VerletPos(s: Params, dt: real, st: State, i: nat): real
    requires s.Valid()
  {
    if i == 0 then st.x
    else if i == 1 then EulerStep(s, dt, st).x
    else VerletNext(s, dt, VerletPos(s, dt, st, i - 2), VerletPos(s, dt, st, i - 1))
  }

  /**
   * Velocities of the Verlet trajectory: the start, the Euler bootstrap, and
   * afterwards the central difference (x[i] - x[i-2]) / (2*dt).
   */
  function VerletVel(s: Params, dt: real, st: State, i: nat): real
    requires s.Valid() && dt != 0.0
  {
    if i == 0 then st.v
    else if i == 1 then EulerStep(s, dt, st).v
    else (VerletPos(s, dt, st, i) - VerletPos(s, dt, st, i - 2)) / (2.0 * dt)
  }

  /** The central-difference case of VerletVel; a helper for computing concrete entries. */
  lemma VerletVelCentral(s: Params, dt: real, st: State, i: nat)
    requires s.Valid() && dt != 0.0 && i >= 2
    ensures VerletVel(s, dt, st, i) == (VerletPos(s, dt, st, i) - VerletPos(s, dt, st, i - 2)) / (2.0 * dt)
  {
  }

  /** The first `n` positions of the Verlet trajectory from `st`. */
  function VerletPositions(s: Params, dt: real, st: State, n: nat): (xs: seq<real>)
    requires s.Valid()
    ensures |xs| == n
  {
    if n == 0 then [] else VerletPositions(s, dt, st, n - 1) + [VerletPos(s, dt, st, n - 1)]
  }

  /** The first `n` velocities of the Verlet trajectory from `st`. */
  function VerletVelocities(s: Params, dt: real, st: State, n: nat): (vs: seq<real>)
    requires s.Valid() && dt != 0.0
    ensures |vs| == n
  {
    if n == 0 then [] else VerletVelocities(s, dt, st, n - 1) + [VerletVel(s, dt, st, n - 1)]
  }

  /** Entry `i` of the recorded lists is position and velocity `i` of the trajectory. */
  lemma {:induction false} VerletListsIndex(s: Params, dt: real, st: State, n: nat, i: nat)
    requires s.Valid() && dt != 0.0 && i < n
    ensures VerletPositions(s, dt, st, n)[i] == VerletPos(s, dt, st, i)
    ensures VerletVelocities(s, dt, st, n)[i] == VerletVel(s, dt, st, i)
  {
    if i < n - 1 {
      VerletListsIndex(s, dt, st, n - 1, i);
    }
  }

  /** The bootstrap entry of a Verlet trajectory is exactly one Euler step. */
  lemma VerletBootstrapIsEuler(s: Params, dt: real, st: State)
    requires s.Valid() && dt != 0.0
    ensures State(VerletPos(s, dt, st, 1), VerletVel(s, dt, st, 1)) == EulerIter(s, dt, st, 1)
  {
  }

  /** The quadratic form x_n^2 + x_{n-1}^2 - c*x_n*x_{n-1}, c = 2 - dt^2*k/m. */
  function VerletForm(s: Params, dt: real, cur: real, prev: real): real
    requires s.Valid()
  {
    var c := 2.0 - dt * dt * s.k / s.m;
    cur * cur + prev * prev - c * cur * prev
  }

  /** The form is kept by one Verlet step: its exact, drift-free energy. */
  lemma VerletFormStep(s: Params, dt: real, prev: real, cur: real)
    requires s.Valid()
    ensures VerletForm(s, dt, VerletNext(s, dt, prev, cur), cur) == VerletForm(s, dt, cur, prev)
  {
    var c := 2.0 - dt * dt * s.k / s.m;
    var next := VerletNext(s, dt, prev, cur);
    assert next == c * cur - prev by {
      assert dt * dt * (-s.k * cur / s.m) == -(dt * dt * s.k / s.m) * cur;
    }
    calc {
      next * next + cur * cur - c * next * cur;
      (c * cur - prev) * (c * cur - prev) + cur * cur - c * (c * cur - prev) * cur;
      cur * cur + prev * prev - c * cur * prev;
    }
  }

  /** Every position pair (x_n, x_{n-1}) with n >= 1 has the same form value. */
  lemma {:induction false} VerletFormConserved(s: Params, dt: real, st: State, n: nat)
    requires s.Valid() && n >= 1
    ensures VerletForm(s, dt, VerletPos(s, dt, st, n), VerletPos(s, dt, st, n - 1))
         == VerletForm(s, dt, VerletPos(s, dt, st, 1), VerletPos(s, dt, st, 0))
  {
    if n > 1 {
      VerletFormConserved(s, dt, st, n - 1);
      VerletFormStep(s, dt, VerletPos(s, dt, st, n - 2), VerletPos(s, dt, st, n - 1));
    }
  }

  /** Along a trajectory, the recurrence run backwards recovers every earlier position. */
  lemma VerletReversible(s: Params, dt: real, st: State, n: nat)
    requires s.Valid() && n >= 1
    ensures VerletPos(s, dt, st, n - 1)
         == VerletNext(s, dt, VerletPos(s, dt, st, n + 1), VerletPos(s, dt, st, n))
  {
    VerletNextReversible(s, dt, VerletPos(s, dt, st, n - 1), VerletPos(s, dt, st, n));
  }

  /**
   * The starting values of task1_verlet.py and spring_verlet.cpp: with
   * m = k = 1 and dt = 0.1 from (0, 1), entry 1 is (0.1, 1).
   */
  lemma TenthStepEntry1(s: Params, dt: real)
    requires s.m == 1.0 && s.k == 1.0 && dt == 0.1
    ensures VerletPos(s, dt, State(0.0, 1.0), 1) == 0.1
    ensures VerletVel(s, dt, State(0.0, 1.0), 1) == 1.0
  {
    UnitAccel(s, 0.0);
  }

  /** ... entry 2 has position 0.199 ... */
  lemma TenthStepEntry2Pos(s: Params, dt: real)
    requires s.m == 1.0 && s.k == 1.0 && dt == 0.1
    ensures VerletPos(s, dt, State(0.0, 1.0), 2) == 0.199
  {
    var st := State(0.0, 1.0);
    TenthStepEntry1(s, dt);
    assert VerletPos(s, dt, st, 2) == VerletNext(s, dt, VerletPos(s, dt, st, 0), VerletPos(s, dt, st, 1));
    UnitAccel(s, 0.1);
  }

  /** ... and velocity 0.995. */
  lemma TenthStepEntry2Vel(s: Params, dt: real)
    requires s.m == 1.0 && s.k == 1.0 && dt == 0.1
    ensures VerletVel(s, dt, State(0.0, 1.0), 2) == 0.995
  {
    TenthStepEntry2Pos(s, dt);
    VerletVelCentral(s, dt, State(0.0, 1.0), 2);
  }

  // ---------------------------------------------------------------------
  // Arithmetic helpers: identities over real atoms
  // ---------------------------------------------------------------------

  /** Serves EulerEnergyFactor: the energy after a step, expanded, with m*a = -k*x cancelling the cross terms. */
  lemma EnergyExpand(k: real, m: real, x: real, v: real, dt: real, a: real)
    requires m * a == -k * x
    ensures k * ((x + dt * v) * (x + dt * v)) + m * ((v + dt * a) * (v + dt * a))
         == k * (x * x) + m * (v * v) + dt * dt * (k * (v * v) - a * (k * x))
  {
    assert m * ((v + dt * a) * (v + dt * a)) == m * (v * v) + 2.0 * dt * v * (m * a) + dt * dt * a * (m * a);
  }

  /** Serves EulerEnergyFactor: with a = -k*x/m the added term is dt^2*k/m times the energy. */
  lemma EnergyCollect(k: real, m: real, x: real, v: real, dt: real, a: real)
    requires m != 0.0 && m * a == -k * x
    ensures k * (x * x) + m * (v * v) + dt * dt * (k * (v * v) - a * (k * x))
         == (1.0 + dt * dt * k / m) * (k * (x * x) + m * (v * v))
  {
    assert a == -k * x / m;
    assert -a * (k * x) == (k * x) * (k * x) / m;
    assert k * (v * v) + (k * x) * (k * x) / m == (k / m) * (k * (x * x) + m * (v * v));
  }
}
