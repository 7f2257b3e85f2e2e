/**
 * task2a_verlet.py: `orbit_grapher3` checks its inputs, records the
 * initial state and one per-axis Euler step of it, then runs the
 * position-Verlet loop `len(t_array) - 2` times on the two latest
 * recorded positions.
 */
module Task2aVerlet {

  import opened Orbit

  /**
   * One pass of the Verlet loop body: the acceleration at the current
   * position `p` (which is `p_list[-1]`), the new position per axis from
   * `p_list[-1]` and `p_list[-2]`, and the central-difference velocity.
   */
  method VerletAxes(b: Body, norm: Vectors.Vec3 -> real, dt: real, p: Triple, prev: Triple, last: Triple)
    returns (p': Triple, v': Triple)
    requires b.Valid() && dt != 0.0 && p == last
    ensures p' == VerletNext(b, norm, dt, prev, last)
    ensures v' == CentralDiff(dt, p', prev)
  {
    var a := Accel(b, norm, p);
    if prev.Finite? && last.Finite? && a.Finite? {
      var px := 2.0 * last.val.x - prev.val.x + (dt * dt) * a.val.x;
      var py := 2.0 * last.val.y - prev.val.y + (dt * dt) * a.val.y;
      var pz := 2.0 * last.val.z - prev.val.z + (dt * dt) * a.val.z;
      p' := Finite(Vectors.Vec3(px, py, pz));
      var vx := (px - prev.val.x) / (2.0 * dt);
      var vy := (py - prev.val.y) / (2.0 * dt);
      var vz := (pz - prev.val.z) / (2.0 * dt);
      v' := Finite(Vectors.Vec3(vx, vy, vz));
    } else {
      p', v' := NaN, NaN;
    }
  }

  /**
   * One call of `orbit_grapher3` with time step `dt` on a grid of `n`
   * points: either an input assertion fails before any step, or the lists
   * hold the first `max(2, n)` positions and velocities of the Verlet
   * trajectory of the initial state.
   */
  method OrbitGrapher3(b: Body, norm: Vectors.Vec3 -> real, dt: real, n: nat, p: seq<real>, v: seq<real>)
    returns (outcome: Outcome, ps: seq<Triple>, vs: seq<Triple>)
    requires b.Valid() && dt != 0.0
    ensures outcome == CheckInputs(p, v)
    ensures outcome != Completed ==> ps == [] && vs == []
    ensures outcome == Completed ==>
      |ps| == (if n < 2 then 2 else n) &&
      ps == VerletPositions(b, norm, dt, Phase(FromTuple(p), FromTuple(v)), |ps|) &&
      vs == VerletVelocities(b, norm, dt, Phase(FromTuple(p), FromTuple(v)), |ps|)
  {
    outcome := CheckInputs(p, v);
    ps, vs := [], [];
    if outcome != Completed {
      return;
    }
    var pos, vel := FromTuple(p), FromTuple(v);
    ghost var start := Phase(pos, vel);
    ps, vs := [pos], [vel];
    pos, vel := EulerAxes(b, norm, dt, pos, vel);
    ps, vs := ps + [pos], vs + [vel];
    var i := 0;
    while i < n - 2
      invariant |ps| == i + 2 && (i == 0 || i <= n - 2)
      invariant pos == ps[|ps| - 1]
      invariant ps == VerletPositions(b, norm, dt, start, |ps|)
      invariant vs == VerletVelocities(b, norm, dt, start, |ps|)
    {
      VerletListsIndex(b, norm, dt, start, |ps|, |ps| - 2);
      VerletListsIndex(b, norm, dt, start, |ps|, |ps| - 1);
      pos, vel := VerletAxes(b, norm, dt, pos, ps[|ps| - 2], ps[|ps| - 1]);
      assert pos == VerletPos(b, norm, dt, start, |ps|);
      assert vel == VerletVel(b, norm, dt, start, |ps|);
      ps, vs := ps + [pos], vs + [vel];
      i := i + 1;
    }
    assert |ps| == |vs|;
  }
}
