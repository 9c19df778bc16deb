/** Infinite runs of the coroutine server: under a fair scheduler everybody is served, whatever else happens. */
module CoroutineFairness {
  import opened EventLoops
  import opened CoroutineServer
  import opened CoroutineTheorems
  import opened CoroutineLiveness

  /** The state after `n` steps of `run`. */
  ghost function StateAt(s: State, run: nat -> Step, n: nat): State {
    if n == 0 then s
    else
      var t := StateAt(s, run, n - 1);
      if Enabled(t, run(n - 1)) then Apply(t, run(n - 1)) else t
  }

  ghost predicate IsInfiniteRun(s: State, run: nat -> Step) {
    forall n: nat :: Enabled(StateAt(s, run, n), run(n))
  }

  ghost predicate CanGoOn(s: State) { exists step :: Progress(step) && Enabled(s, step) }

  /** Time goes on, and the program is not held up for ever while it could go on. */
  ghost predicate Fair(s: State, run: nat -> Step) {
    && (forall t: nat :: TimeReaches(s, run, t))
    && forall n: nat :: (forall m: nat :: m >= n ==> CanGoOn(StateAt(s, run, m))) ==> GoesOnAfter(run, n)
  }

  ghost predicate TimeReaches(s: State, run: nat -> Step, t: nat) { exists n: nat :: StateAt(s, run, n).now >= t }

  ghost predicate GoesOnAfter(run: nat -> Step, n: nat) { exists m: nat :: m >= n && Progress(run(m)) }

  /** Nobody stops the server; after `quiet` steps nobody arrives and nobody wakes the worker without a cause. */
  ghost predicate LeftAlone(run: nat -> Step, quiet: nat) {
    && (forall n: nat :: run(n) != Stop)
    && forall n: nat :: n >= quiet ==> !run(n).Accept? && run(n) != Spurious
  }

  lemma NextState(s: State, run: nat -> Step, n: nat)
    ensures StateAt(s, run, 0) == s
    ensures var t := StateAt(s, run, n);
      StateAt(s, run, n + 1) == if Enabled(t, run(n)) then Apply(t, run(n)) else t
  {
    hide Apply, Enabled;
  }

  lemma EnabledAt(s: State, run: nat -> Step, n: nat)
    requires IsInfiniteRun(s, run)
    ensures Enabled(StateAt(s, run, n), run(n))
  {
    hide Enabled, StateAt;
  }

  lemma ApplyTime(s: State, step: Step)
    requires Enabled(s, step)
    ensures Apply(s, step).now == s.now + if step.Tick? then step.dt else 0
  {
  }

  lemma {:induction false} RunningAt(s: State, run: nat -> Step, n: nat)
    requires Inv(s) && s.q.running && IsInfiniteRun(s, run) && forall n: nat :: run(n) != Stop
    ensures Inv(StateAt(s, run, n)) && StateAt(s, run, n).q.running && Enabled(StateAt(s, run, n), run(n))
  {
    hide *;
    EnabledAt(s, run, n);
    NextState(s, run, 0);
    if n > 0 {
      EnabledAt(s, run, n - 1);
      RunningAt(s, run, n - 1);
      NextState(s, run, n - 1);
      MeasuredStep(StateAt(s, run, n - 1), run(n - 1));
    }
  }

  /** In the quiet part of a run the measure never rises, and each step of the program takes at least one off. */
  lemma {:induction false} MeasureFalls(s: State, run: nat -> Step, quiet: nat, n: nat, m: nat)
    requires Inv(s) && s.q.running && IsInfiniteRun(s, run) && LeftAlone(run, quiet) && quiet <= n <= m
    ensures 0 <= Measure(StateAt(s, run, m)) <= Measure(StateAt(s, run, n))
    ensures Progress(run(m)) ==> 0 <= Measure(StateAt(s, run, m + 1)) < Measure(StateAt(s, run, n))
    decreases m - n
  {
    hide Inv, Apply, Enabled, Measure, IsInfiniteRun;
    RunningAt(s, run, m);
    MeasureBounds(StateAt(s, run, m));
    if n < m {
      RunningAt(s, run, m - 1);
      MeasureFalls(s, run, quiet, n, m - 1);
      MeasuredStep(StateAt(s, run, m - 1), run(m - 1));
    }
    MeasuredStep(StateAt(s, run, m), run(m));
  }

  /** While the program does not go on, only time does. */
  lemma {:induction false} OnlyTime(s: State, run: nat -> Step, quiet: nat, n: nat, m: nat)
    requires Inv(s) && s.q.running && IsInfiniteRun(s, run) && LeftAlone(run, quiet) && quiet <= n <= m
    requires !GoesOnAfter(run, n)
    ensures var t, u := StateAt(s, run, n), StateAt(s, run, m); t.now <= u.now && u == Later(t, u.now - t.now)
    decreases m - n
  {
    hide Inv, Apply, Enabled, IsInfiniteRun;
    if n < m {
      OnlyTime(s, run, quiet, n, m - 1);
      RunningAt(s, run, m - 1);
      assert !Progress(run(m - 1)) && run(m - 1).Tick?;
      TickEffect(StateAt(s, run, m - 1), run(m - 1).dt);
    }
  }

  /** What the program can do it can still do later, as long as only time goes on. */
  lemma EnabledLater(s: State, a: nat, b: nat, step: Step)
    requires a <= b && Enabled(Later(s, a), step)
    ensures Enabled(Later(s, b), step)
  {
  }

  lemma CanGoOnLater(s: State, run: nat -> Step, quiet: nat, n: nat, late: nat, m: nat, ahead: nat, step: Step)
    requires Inv(s) && s.q.running && IsInfiniteRun(s, run) && LeftAlone(run, quiet) && quiet <= n <= m && late <= m
    requires !GoesOnAfter(run, n) && StateAt(s, run, late).now >= StateAt(s, run, n).now + ahead
    requires Progress(step) && Enabled(Later(StateAt(s, run, n), ahead), step)
    ensures CanGoOn(StateAt(s, run, m))
  {
    hide Inv, Apply, Enabled, Progress, LeftAlone, IsInfiniteRun, StateAt, GoesOnAfter, Later;
    var t, u := StateAt(s, run, n), StateAt(s, run, m);
    TimeGrows(s, run, late, m);
    OnlyTime(s, run, quiet, n, m);
    EnabledLater(t, ahead, u.now - t.now, step);
  }

  /** While somebody is unserved a fair run goes on with the program. */
  lemma GoesOn(s: State, run: nat -> Step, quiet: nat, n: nat)
    requires Inv(s) && s.q.running && IsInfiniteRun(s, run) && Fair(s, run) && LeftAlone(run, quiet) && quiet <= n
    requires !AllServed(StateAt(s, run, n))
    ensures GoesOnAfter(run, n)
  {
    assert forall n: nat :: run(n) != Stop;
    hide Inv, Apply, Enabled, Progress, AllServed, LeftAlone, IsInfiniteRun, StateAt, GoesOnAfter, CanGoOn,
      Later;
    if !GoesOnAfter(run, n) {
      var t := StateAt(s, run, n);
      RunningAt(s, run, n);
      ServedOrLive(t);
      var ahead, step := NextStep(t);
      assert TimeReaches(s, run, t.now + ahead);
      var late: nat :| StateAt(s, run, late).now >= t.now + ahead;
      var from := if late < n then n else late;
      forall m: nat | m >= from
        ensures CanGoOn(StateAt(s, run, m))
      {
        CanGoOnLater(s, run, quiet, n, late, m, ahead, step);
      }
      GoesOnSooner(run, n, from);
    }
  }

  lemma GoesOnSooner(run: nat -> Step, n: nat, m: nat)
    requires n <= m && GoesOnAfter(run, m)
    ensures GoesOnAfter(run, n)
  {
  }

  lemma {:induction false} TimeGrows(s: State, run: nat -> Step, n: nat, m: nat)
    requires n <= m
    ensures StateAt(s, run, n).now <= StateAt(s, run, m).now
    decreases m - n
  {
    hide *;
    if n < m {
      TimeGrows(s, run, n, m - 1);
      NextState(s, run, m - 1);
      if Enabled(StateAt(s, run, m - 1), run(m - 1)) {
        ApplyTime(StateAt(s, run, m - 1), run(m - 1));
      }
    }
  }

  lemma ServedOnce(s: State, run: nat -> Step, quiet: nat, n: nat) returns (served: nat)
    requires Inv(s) && s.q.running && IsInfiniteRun(s, run) && Fair(s, run) && LeftAlone(run, quiet) && quiet <= n
    ensures served >= n && AllServed(StateAt(s, run, served))
    decreases Measure(StateAt(s, run, n))
  {
    hide *;
    MeasureFalls(s, run, quiet, n, n);
    if AllServed(StateAt(s, run, n)) {
      served := n;
    } else {
      GoesOn(s, run, quiet, n);
      var m := NextProgress(run, n);
      MeasureFalls(s, run, quiet, n, m);
      served := ServedOnce(s, run, quiet, m + 1);
    }
  }

  lemma NextProgress(run: nat -> Step, n: nat) returns (m: nat)
    requires GoesOnAfter(run, n)
    ensures m >= n && Progress(run(m))
  {
    m :| m >= n && Progress(run(m));
  }

  lemma {:induction false} ServedForGood(s: State, run: nat -> Step, quiet: nat, n: nat, m: nat)
    requires Inv(s) && s.q.running && IsInfiniteRun(s, run) && LeftAlone(run, quiet) && quiet <= n <= m
    requires AllServed(StateAt(s, run, n))
    ensures AllServed(StateAt(s, run, m))
    decreases m - n
  {
    hide Inv, Apply, Enabled, AllServed, IsInfiniteRun;
    if n < m {
      ServedForGood(s, run, quiet, n, m - 1);
      var t := StateAt(s, run, m - 1);
      RunningAt(s, run, m - 1);
      RunningAt(s, run, m);
      WorkStep(t, run(m - 1));
      FileKept(t, run(m - 1));
      ServedIffNoWork(t);
      ServedIffNoWork(StateAt(s, run, m));
    }
  }

  /** Every fair run that is not stopped, and in which arrivals and idle wake-ups come to an end, has served everybody
      from some moment on, in whatever order the parties take their steps. */
  lemma FairRunServesAll(s: State, run: nat -> Step, quiet: nat)
    requires Inv(s) && s.q.running && IsInfiniteRun(s, run) && Fair(s, run) && LeftAlone(run, quiet)
    ensures exists n: nat :: ServedFrom(s, run, n)
  {
    hide Inv, IsInfiniteRun, Fair, LeftAlone, AllServed, StateAt;
    var n := ServedOnce(s, run, quiet, quiet);
    forall m: nat | m >= n
      ensures AllServed(StateAt(s, run, m))
    {
      ServedForGood(s, run, quiet, n, m);
    }
    assert ServedFrom(s, run, n);
  }

  ghost predicate ServedFrom(s: State, run: nat -> Step, n: nat) {
    forall m: nat :: m >= n ==> AllServed(StateAt(s, run, m))
  }

  // ---- such runs exist ----

  /** A scheduler that lets the program and the clock take turns. */
  ghost function Choose(t: State, n: nat): (step: Step)
    ensures Enabled(t, step) && (Progress(step) || step == Tick(1))
    ensures n % 2 == 1 && CanGoOn(t) ==> Progress(step)
    ensures n % 2 == 0 ==> step == Tick(1)
  {
    if n % 2 == 1 && CanGoOn(t) then
      var step :| Progress(step) && Enabled(t, step);
      step
    else Tick(1)
  }

  ghost function Trail(s: State, n: nat): State {
    if n == 0 then s else Apply(Trail(s, n - 1), Choose(Trail(s, n - 1), n - 1))
  }

  lemma NextOnTrail(s: State, n: nat)
    ensures Trail(s, 0) == s && Trail(s, n + 1) == Apply(Trail(s, n), Choose(Trail(s, n), n))
  {
    hide Apply, Choose;
  }

  lemma {:induction false} OnTrail(s: State, run: nat -> Step, n: nat)
    requires forall n: nat :: run(n) == Choose(Trail(s, n), n)
    ensures StateAt(s, run, n) == Trail(s, n)
  {
    hide *;
    NextState(s, run, n);
    NextOnTrail(s, n);
    if n > 0 {
      OnTrail(s, run, n - 1);
      NextState(s, run, n - 1);
      NextOnTrail(s, n - 1);
    }
  }

  lemma {:induction false} TrailTime(s: State, n: nat)
    ensures Trail(s, 2 * n).now >= n
  {
    hide *;
    if n > 0 {
      var m := 2 * n - 2;
      TrailTime(s, n - 1);
      NextOnTrail(s, m);
      NextOnTrail(s, m + 1);
      ApplyTime(Trail(s, m), Choose(Trail(s, m), m));
      ApplyTime(Trail(s, m + 1), Choose(Trail(s, m + 1), m + 1));
    }
  }

  lemma RunOnTrail(s: State, run: nat -> Step)
    requires forall n: nat :: run(n) == Choose(Trail(s, n), n)
    ensures IsInfiniteRun(s, run) && Fair(s, run)
  {
    hide Apply, Enabled, Choose, Trail, StateAt;
    forall n: nat
      ensures StateAt(s, run, n) == Trail(s, n)
    {
      OnTrail(s, run, n);
    }
    forall t: nat
      ensures TimeReaches(s, run, t)
    {
      TrailTime(s, t);
      assert StateAt(s, run, 2 * t).now >= t;
    }
    forall n: nat | forall m: nat :: m >= n ==> CanGoOn(StateAt(s, run, m))
      ensures GoesOnAfter(run, n)
    {
      var m := if n % 2 == 1 then n else n + 1;
      assert CanGoOn(StateAt(s, run, m)) && Progress(run(m));
    }
  }

  /** From every state there is a fair run without arrivals, stop, or idle wake-ups. */
  lemma FairRunExists(s: State) returns (run: nat -> Step)
    ensures IsInfiniteRun(s, run) && Fair(s, run) && LeftAlone(run, 0)
  {
    run := (n: nat) => Choose(Trail(s, n), n);
    hide Choose, Trail, IsInfiniteRun, Fair;
    RunOnTrail(s, run);
  }
}
