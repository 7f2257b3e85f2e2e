/**
 * spring_verlet.cpp: the same bootstrap and Verlet recurrence as
 * task1_verlet.py, with the time of every entry pushed alongside, and a
 * loop that runs while t <= t_max: the grid is closed at t_max rather than
 * half-open as np.arange is.
 */
module SpringVerletCpp {

  import opened Spring
  import RealArith

  /** Number of entries: max(2, floor(t_max/dt) + 1). */
  function EntryCount(dt: real, tMax: real): (count: nat)
    requires dt > 0.0
    ensures count >= 2
  {
    var last := (tMax / dt).Floor;
    if last + 1 < 2 then 2 else last + 1
  }

  /** For dt > 0 the time i*dt is within t_max exactly when i <= floor(t_max/dt). */
  lemma GridPointWithin(dt: real, tMax: real, i: int)
    requires dt > 0.0
    ensures i as real * dt <= tMax <==> i <= (tMax / dt).Floor
  {
    var q := tMax / dt;
    assert q * dt == tMax;
    if i as real <= q {
      RealArith.ProductNonNeg(q - i as real, dt, (q - i as real) * dt);
      assert i <= q.Floor;
    } else {
      RealArith.ProductPos(i as real - q, dt, (i as real - q) * dt);
      assert i > q.Floor;
    }
  }

  /**
   * main's trajectory: entries (0, x0, v0) and (dt, one Euler step), then
   * one Verlet entry for each t = 2*dt, 3*dt, ... up to and including t_max.
   */
  method SpringVerletMain(s: Params, dt: real, tMax: real, x0: real, v0: real)
    returns (ts: seq<real>, xs: seq<real>, vs: seq<real>)
    requires s.Valid() && dt > 0.0
    ensures |ts| == |xs| == |vs| == EntryCount(dt, tMax)
    ensures forall i :: 0 <= i < |ts| ==> ts[i] == i as real * dt
    ensures xs == VerletPositions(s, dt, State(x0, v0), |xs|)
    ensures vs == VerletVelocities(s, dt, State(x0, v0), |vs|)
  {
    ghost var start := State(x0, v0);
    var x, v, t := x0, v0, 0.0;
    ts, xs, vs := [t], [x], [v];
    x, v := EulerUpdate(s, dt, x, v);
    t := t + dt;
    ts, xs, vs := ts + [t], xs + [x], vs + [v];
    ghost var i := 2;
    t := 2.0 * dt;
    while t <= tMax
      invariant |ts| == |xs| == |vs| == i && t == i as real * dt
      invariant i == 2 || i <= (tMax / dt).Floor + 1
      invariant forall j :: 0 <= j < |ts| ==> ts[j] == j as real * dt
      invariant xs == VerletPositions(s, dt, start, i) && vs == VerletVelocities(s, dt, start, i)
      invariant x == xs[i - 1]
      decreases (tMax / dt).Floor + 1 - i
    {
      GridPointWithin(dt, tMax, i);
      VerletListsIndex(s, dt, start, i, i - 2);
      VerletListsIndex(s, dt, start, i, i - 1);
      x, v := VerletUpdate(s, dt, xs[|xs| - 2], xs[|xs| - 1], x);
      assert x == VerletPos(s, dt, start, i);
      assert v == VerletVel(s, dt, start, i);
      ts, xs, vs := ts + [t], xs + [x], vs + [v];
      t := t + dt;
      i := i + 1;
    }
    GridPointWithin(dt, tMax, i);
  }
}
