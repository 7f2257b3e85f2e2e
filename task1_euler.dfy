/**
 * task1_euler.py: a sweep over several time steps. For each step the loop
 * over the grid np.arange(0, t_max, dt) records the module-global state
 * (x, v) and then advances it by one Euler step; the globals are never
 * reset, so each run continues from where the previous one stopped.
 */
module Task1Euler {

  import opened Spring

  /** One run of the sweep: its time step and the number of grid points. */
  datatype Run = Run(dt: real, n: nat)

  /** `xs`, `vs` record, entry by entry, the Euler iterates of `start`. */
  predicate IsEulerTrajectory(s: Params, dt: real, start: State, xs: seq<real>, vs: seq<real>)
    requires s.Valid()
  {
    |xs| == |vs| &&
    forall i :: 0 <= i < |xs| ==> State(xs[i], vs[i]) == EulerIter(s, dt, start, i)
  }

  /**
   * One pass of the trajectory loop over a grid of `n` points: `n` entries,
   * each recorded before the state advances, so the returned globals are
   * one step beyond the last entry.
   */
  method EulerRun(s: Params, dt: real, x0: real, v0: real, n: nat)
    returns (xs: seq<real>, vs: seq<real>, x: real, v: real)
    requires s.Valid()
    ensures |xs| == n
    ensures IsEulerTrajectory(s, dt, State(x0, v0), xs, vs)
    ensures State(x, v) == EulerIter(s, dt, State(x0, v0), n)
  {
    xs, vs := [], [];
    x, v := x0, v0;
    var i := 0;
    while i < n
      invariant i <= n && |xs| == i
      invariant IsEulerTrajectory(s, dt, State(x0, v0), xs, vs)
      invariant State(x, v) == EulerIter(s, dt, State(x0, v0), i)
    {
      xs := xs + [x];
      vs := vs + [v];
      x, v := EulerUpdate(s, dt, x, v);
      i := i + 1;
    }
  }

  /** The state the globals hold when run `j` of the sweep begins. */
  function RunStart(s: Params, runs: seq<Run>, start: State, j: nat): State
    requires s.Valid() && j <= |runs|
  {
    if j == 0 then start
    else EulerIter(s, runs[j - 1].dt, RunStart(s, runs, start, j - 1), runs[j - 1].n)
  }

  /**
   * The whole sweep: run `j` records its own trajectory, starting from the
   * state run `j - 1` left behind.
   */
  method EulerSweep(s: Params, runs: seq<Run>, x0: real, v0: real)
    returns (trajectories: seq<(seq<real>, seq<real>)>, x: real, v: real)
    requires s.Valid()
    ensures |trajectories| == |runs|
    ensures forall j :: 0 <= j < |runs| ==>
      |trajectories[j].0| == runs[j].n &&
      IsEulerTrajectory(s, runs[j].dt, RunStart(s, runs, State(x0, v0), j),
                        trajectories[j].0, trajectories[j].1)
    ensures State(x, v) == RunStart(s, runs, State(x0, v0), |runs|)
  {
    trajectories := [];
    x, v := x0, v0;
    var j := 0;
    while j < |runs|
      invariant j <= |runs| && |trajectories| == j
      invariant forall i :: 0 <= i < j ==>
        |trajectories[i].0| == runs[i].n &&
        IsEulerTrajectory(s, runs[i].dt, RunStart(s, runs, State(x0, v0), i),
                          trajectories[i].0, trajectories[i].1)
      invariant State(x, v) == RunStart(s, runs, State(x0, v0), j)
    {
      var xs, vs;
      xs, vs, x, v := EulerRun(s, runs[j].dt, x, v, runs[j].n);
      trajectories := trajectories + [(xs, vs)];
      j := j + 1;
    }
  }

  /**
   * With m, k > 0 and runs of positive step and at least one grid point,
   * every run after the first starts with more energy than the sweep's
   * initial state: no run restarts from the initial conditions.
   */
  lemma {:induction false} LaterRunsDoNotRestart(s: Params, runs: seq<Run>, start: State, j: nat)
    requires s.m > 0.0 && s.k > 0.0 && start != State(0.0, 0.0)
    requires forall i :: 0 <= i < |runs| ==> runs[i].dt > 0.0 && runs[i].n > 0
    requires 1 <= j <= |runs|
    ensures Energy(s, RunStart(s, runs, start, j)) > Energy(s, start)
    ensures RunStart(s, runs, start, j) != start
  {
    var prev := RunStart(s, runs, start, j - 1);
    if j == 1 {
      EulerIterMoves(s, runs[0].dt, start, runs[0].n);
    } else {
      LaterRunsDoNotRestart(s, runs, start, j - 1);
      EnergyPositive(s, start);
      assert Energy(s, State(0.0, 0.0)) == 0.0;
      EulerIterMoves(s, runs[j - 1].dt, prev, runs[j - 1].n);
    }
  }

  /** With m = k = 1 and dt = 1 from (0, 1), entry 1 is (1, 1). */
  lemma UnitStepEntry1(s: Params, dt: real)
    requires s.m == 1.0 && s.k == 1.0 && dt == 1.0
    ensures EulerIter(s, dt, State(0.0, 1.0), 1) == State(1.0, 1.0)
  {
    EulerIterSucc(s, dt, State(0.0, 1.0), 0);
    UnitStep(s, dt, State(0.0, 1.0));
  }

  /** ... and entry 2 is (2, 0). */
  lemma UnitStepEntry2(s: Params, dt: real)
    requires s.m == 1.0 && s.k == 1.0 && dt == 1.0
    ensures EulerIter(s, dt, State(0.0, 1.0), 2) == State(2.0, 0.0)
  {
    UnitStepEntry1(s, dt);
    EulerIterSucc(s, dt, State(0.0, 1.0), 1);
    UnitStep(s, dt, State(1.0, 1.0));
  }
}
