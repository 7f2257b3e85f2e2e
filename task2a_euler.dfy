/**
 * task2a_euler.py: `orbit_grapher1` checks that the initial position and
 * velocity are 3-tuples, then, for each of the `n` points of the time grid,
 * records the state and advances it by one Euler step under gravity,
 * written as whole-tuple expressions.
 */
module Task2aEuler {

  import opened Orbit

  /**
   * One call of `orbit_grapher1` with time step `dt` on a grid of `n`
   * points: either an input assertion fails before any step, or the lists
   * hold the `n` Euler iterates of the initial state.
   */
  method OrbitGrapher1(b: Body, norm: Vectors.Vec3 -> real, dt: real, n: nat, p: seq<real>, v: seq<real>)
    returns (outcome: Outcome, ps: seq<Triple>, vs: seq<Triple>)
    requires b.Valid()
    ensures outcome == CheckInputs(p, v)
    ensures outcome != Completed ==> ps == [] && vs == []
    ensures outcome == Completed ==>
      |ps| == n && IsEulerTrajectory(b, norm, dt, Phase(FromTuple(p), FromTuple(v)), ps, vs)
  {
    outcome := CheckInputs(p, v);
    ps, vs := [], [];
    if outcome != Completed {
      return;
    }
    var pos, vel := FromTuple(p), FromTuple(v);
    ghost var start := Phase(pos, vel);
    var i := 0;
    while i < n
      invariant i <= n && |ps| == i
      invariant IsEulerTrajectory(b, norm, dt, start, ps, vs)
      invariant Phase(pos, vel) == EulerIter(b, norm, dt, start, i)
    {
      ps := ps + [pos];
      vs := vs + [vel];
      var a := Accel(b, norm, pos);
      pos := AddScaled(pos, dt, vel);
      vel := AddScaled(vel, dt, a);
      i := i + 1;
    }
    assert |ps| == |vs|;
  }
}
