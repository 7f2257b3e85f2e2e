/**
 * task2b_euler.py: `orbit_grapher2` is `orbit_grapher1` with the Euler
 * step written axis by axis through the temporaries `p_x .. v_z`.
 */
module Task2bEuler {

  import opened Orbit

  /**
   * One call of `orbit_grapher2` with time step `dt` on a grid of `n`
   * points: either an input assertion fails before any step, or the lists
   * hold the `n` Euler iterates of the initial state.
   */
  method OrbitGrapher2(b: Body, norm: Vectors.Vec3 -> real, dt: real, n: nat, p: seq<real>, v: seq<real>)
    returns (outcome: Outcome, ps: seq<Triple>, vs: seq<Triple>)
    requires b.Valid()
    ensures outcome == CheckInputs(p, v)
    ensures outcome != Completed ==> ps == [] && vs == []
    ensures outcome == Completed ==>
      |ps| == n && IsEulerTrajectory(b, norm, dt, Phase(FromTuple(p), FromTuple(v)), ps, vs)
  {
    outcome := CheckInputs(p, v);
    ps, vs := [], [];
    if outcome != Completed {
      return;
    }
    var pos, vel := FromTuple(p), FromTuple(v);
    ghost var start := Phase(pos, vel);
    var i := 0;
    while i < n
      invariant i <= n && |ps| == i
      invariant IsEulerTrajectory(b, norm, dt, start, ps, vs)
      invariant Phase(pos, vel) == EulerIter(b, norm, dt, start, i)
    {
      ps := ps + [pos];
      vs := vs + [vel];
      pos, vel := EulerAxes(b, norm, dt, pos, vel);
      i := i + 1;
    }
    assert |ps| == |vs|;
  }
}
