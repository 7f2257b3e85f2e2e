/**
 * task1_verlet.py: for each time step of a sweep, record the global state,
 * bootstrap with one Euler step, then extend the position list with the
 * position-Verlet recurrence and a central-difference velocity,
 * len(np.arange(0, t_max, dt)) - 2 times. The globals are never reset, so
 * each run starts from the last entry of the previous one.
 */
module Task1Verlet {

  import opened Spring

  /** One run of the sweep: its time step and the number of grid points. */
  datatype Run = Run(dt: real, n: nat)

  /** Number of entries a run over `n` grid points records. */
  function RunLength(n: nat): (len: nat)
    ensures len >= 2
  {
    if n < 2 then 2 else n
  }

  /** `xs`, `vs` are the first |xs| entries of the Verlet trajectory from `start`. */
  predicate IsVerletTrajectory(s: Params, dt: real, start: State, xs: seq<real>, vs: seq<real>)
    requires s.Valid() && dt != 0.0
  {
    xs == VerletPositions(s, dt, start, |xs|) && vs == VerletVelocities(s, dt, start, |xs|)
  }

  /**
   * One run: max(2, n) entries, the first the starting state, the second
   * one Euler step of it, the rest the Verlet recurrence; the globals end
   * up holding the last entry.
   */
  method VerletRun(s: Params, dt: real, x0: real, v0: real, n: nat)
    returns (xs: seq<real>, vs: seq<real>, x: real, v: real)
    requires s.Valid() && dt != 0.0
    ensures |xs| == RunLength(n)
    ensures IsVerletTrajectory(s, dt, State(x0, v0), xs, vs)
    ensures x == xs[|xs| - 1] && v == vs[|vs| - 1]
  {
    x, v := x0, v0;
    xs, vs := [x], [v];
    x, v := EulerUpdate(s, dt, x, v);
    xs, vs := xs + [x], vs + [v];
    xs, vs, x, v := VerletLoop(s, dt, State(x0, v0), xs, vs, x, v, n);
  }

  /** The loop of a run, entered with the two bootstrap entries recorded. */
  method VerletLoop(s: Params, dt: real, ghost start: State, xs0: seq<real>, vs0: seq<real>,
                    x0: real, v0: real, n: nat)
    returns (xs: seq<real>, vs: seq<real>, x: real, v: real)
    requires s.Valid() && dt != 0.0
    requires |xs0| == 2 && IsVerletTrajectory(s, dt, start, xs0, vs0)
    requires x0 == xs0[1] && v0 == vs0[1]
    ensures |xs| == RunLength(n)
    ensures IsVerletTrajectory(s, dt, start, xs, vs)
    ensures x == xs[|xs| - 1] && v == vs[|vs| - 1]
  {
    xs, vs, x, v := xs0, vs0, x0, v0;
    var i := 0;
    while i < n - 2
      invariant |xs| == i + 2 && (i == 0 || i <= n - 2)
      invariant IsVerletTrajectory(s, dt, start, xs, vs)
      invariant x == xs[|xs| - 1] && v == vs[|vs| - 1]
    {
      VerletListsIndex(s, dt, start, |xs|, |xs| - 2);
      VerletListsIndex(s, dt, start, |xs|, |xs| - 1);
      x, v := VerletUpdate(s, dt, xs[|xs| - 2], xs[|xs| - 1], x);
      assert x == VerletPos(s, dt, start, |xs|);
      assert v == VerletVel(s, dt, start, |xs|);
      xs, vs := xs + [x], vs + [v];
      i := i + 1;
    }
  }

  /** The state a recorded run ends with. */
  function LastEntry(trajectory: (seq<real>, seq<real>)): State
    requires |trajectory.0| > 0 && |trajectory.1| > 0
  {
    State(trajectory.0[|trajectory.0| - 1], trajectory.1[|trajectory.1| - 1])
  }

  /**
   * Run `j` of a sweep from (x0, v0) recorded the Verlet trajectory that
   * starts from the last entry of run `j - 1`, or from (x0, v0) for the first.
   */
  predicate RunChained(s: Params, runs: seq<Run>, x0: real, v0: real,
                       trajectories: seq<(seq<real>, seq<real>)>, j: nat)
    requires s.Valid() && j < |runs| && j < |trajectories|
    requires forall i :: 0 <= i < |runs| ==> runs[i].dt != 0.0
  {
    |trajectories[j].1| == |trajectories[j].0| == RunLength(runs[j].n) &&
    (j == 0 || (|trajectories[j - 1].0| > 0 && |trajectories[j - 1].1| > 0)) &&
    IsVerletTrajectory(s, runs[j].dt,
                       if j == 0 then State(x0, v0) else LastEntry(trajectories[j - 1]),
                       trajectories[j].0, trajectories[j].1)
  }

  /**
   * The whole sweep: run `j` records max(2, n) entries of the Verlet
   * trajectory that starts from the last entry of run `j - 1`.
   */
  method VerletSweep(s: Params, runs: seq<Run>, x0: real, v0: real)
    returns (trajectories: seq<(seq<real>, seq<real>)>, x: real, v: real)
    requires s.Valid()
    requires forall i :: 0 <= i < |runs| ==> runs[i].dt != 0.0
    ensures |trajectories| == |runs|
    ensures forall j :: 0 <= j < |runs| ==> RunChained(s, runs, x0, v0, trajectories, j)
    ensures |runs| > 0 ==> |trajectories[|runs| - 1].0| > 0 && |trajectories[|runs| - 1].1| > 0
    ensures State(x, v) == if |runs| == 0 then State(x0, v0) else LastEntry(trajectories[|runs| - 1])
  {
    trajectories := [];
    x, v := x0, v0;
    var j := 0;
    while j < |runs|
      invariant j <= |runs| && |trajectories| == j
      invariant forall i :: 0 <= i < j ==> RunChained(s, runs, x0, v0, trajectories, i)
      invariant j > 0 ==> |trajectories[j - 1].0| > 0 && |trajectories[j - 1].1| > 0
      invariant State(x, v) == if j == 0 then State(x0, v0) else LastEntry(trajectories[j - 1])
    {
      var xs, vs;
      ghost var start := State(x, v);
      xs, vs, x, v := VerletRun(s, runs[j].dt, x, v, runs[j].n);
      ghost var before := trajectories;
      trajectories := trajectories + [(xs, vs)];
      forall i | 0 <= i <= j
        ensures RunChained(s, runs, x0, v0, trajectories, i)
      {
        if 0 < i {
          assert trajectories[i - 1] == before[i - 1];
        }
        if i < j {
          assert trajectories[i] == before[i];
          assert RunChained(s, runs, x0, v0, before, i);
        }
      }
      j := j + 1;
    }
  }
}
