/** The coroutine server makes progress: an exact count of resumptions, a bound on the steps to serve everybody,
    no state in which a live client is stuck, and a way to the end from everywhere. */
module CoroutineLiveness {
  import opened Chunking
  import opened EventLoops
  import opened CoroutineServer
  import opened CoroutineInvariants
  import opened CoroutineStreams
  import opened CoroutineTiming
  import opened CoroutineTheorems

  /** Resumptions still needed by all clients together. */
  function Work(size: nat, cs: seq<Client>): int {
    if cs == [] then 0 else Work(size, cs[..|cs| - 1]) + Remaining(size, cs[|cs| - 1].frame)
  }

  lemma {:induction false} WorkUpdate(size: nat, cs: seq<Client>, c: nat, y: Client)
    requires c < |cs|
    ensures Work(size, cs[c := y]) == Work(size, cs) - Remaining(size, cs[c].frame) + Remaining(size, y.frame)
  {
    var n := |cs| - 1;
    if c == n {
      assert cs[c := y][..n] == cs[..n];
    } else {
      WorkUpdate(size, cs[..n], c, y);
      assert cs[c := y][..n] == cs[..n][c := y];
    }
  }

  lemma {:induction false} WorkNonNegative(size: nat, cs: seq<Client>)
    requires FramesInRange(size, cs)
    ensures Work(size, cs) >= 0
    ensures Work(size, cs) == 0 <==> forall c :: 0 <= c < |cs| ==> !Live(cs, c)
  {
    if cs != [] {
      var n := |cs| - 1;
      WorkNonNegative(size, cs[..n]);
      assert FrameInRange(size, cs[n].frame);
      assert forall c :: 0 <= c < n ==> Live(cs[..n], c) == Live(cs, c);
      if cs[n].frame != Finished {
        AdvanceCounts(size, cs[n].frame);
        assert Live(cs, n);
      }
    }
  }

  lemma WorkAppend(size: nat, cs: seq<Client>, y: Client)
    ensures Work(size, cs + [y]) == Work(size, cs) + Remaining(size, y.frame)
  {
    assert (cs + [y])[..|cs|] == cs;
  }

  lemma WorkResume(s: State)
    requires Core(s) && Enabled(s, Resume)
    ensures Work(|s.file|, Apply(s, Resume).clients) == Work(|s.file|, s.clients) - 1
  {
    var c := s.worker.client;
    var y := Resumed(|s.file|, s.clients[c]);
    ResumeEffect(s);
    assert Live(s.clients, c) && FrameInRange(|s.file|, s.clients[c].frame);
    AdvanceCounts(|s.file|, s.clients[c].frame);
    assert y.frame == Advance(|s.file|, s.clients[c].frame);
    hide *;
    WorkUpdate(|s.file|, s.clients, c, y);
  }

  lemma WorkBegin(s: State)
    requires Core(s) && Enabled(s, Begin)
    ensures Work(|s.file|, Apply(s, Begin).clients) == Work(|s.file|, s.clients)
  {
    var c := s.worker.task.client;
    var y := Begun(s, s.clients[c]);
    OwnDescriptor(s);
    BeginEffect(s);
    assert y.frame == s.clients[c].frame;
    hide *;
    WorkUpdate(|s.file|, s.clients, c, y);
  }

  /** Accepting adds one client's count, resuming takes one off, nothing else changes the work to do. */
  lemma WorkStep(s: State, step: Step)
    requires Inv(s) && Enabled(s, step)
    ensures Work(|s.file|, Apply(s, step).clients) == Work(|s.file|, s.clients) +
      if step.Accept? then 1 + 2 * Blocks(|s.file|) else if step == Resume then -1 else 0
  {
    assert Core(s);
    hide Inv, Core, Apply, Enabled, Work, Blocks;
    match step
    case Accept(fd) =>
      AcceptEffect(s, fd);
      WorkAppend(|s.file|, s.clients, Client(fd, AtHeader, [], 0));
    case Resume => WorkResume(s);
    case Begin => WorkBegin(s);
    case _ => OtherEffect(s, step);
  }

  /** Every client is resumed exactly 1 + 2 * ceil(size / 100) times by the time it is finished. */
  lemma ExactCount(file: string, steps: seq<Step>, c: nat)
    requires IsRun(Init(file), steps) && c < |After(Init(file), steps).clients|
    ensures var client := After(Init(file), steps).clients[c];
      && client.resumes <= 1 + 2 * Blocks(|file|)
      && (client.frame == Finished <==> client.resumes == 1 + 2 * Blocks(|file|))
  {
    Reached(file, steps);
    var s := After(Init(file), steps);
    assert FrameInRange(|file|, s.clients[c].frame);
    if s.clients[c].frame != Finished {
      AdvanceCounts(|file|, s.clients[c].frame);
    }
  }

  // ---- a bound on the steps of worker and accept thread ----

  /** The worker would find a task to run now. */
  ghost predicate Ready(q: Queues, now: Time) {
    q.immediate != [] || exists i :: 0 <= i < |q.scheduled| && q.scheduled[i].when <= now
  }

  ghost function Rank(q: Queues, w: Worker, now: Time): nat {
    match w
    case Delaying(_, _) => 9
    case LoopTest => if Ready(q, now) then 4 else 8
    case BeforeLock => if Ready(q, now) then 3 else 7
    case Signalled(_) => if WaitOver(q) then 5 else 6
    case Blocked(_) => 5
    case Executing(_) => 2
    case Resuming(_) => 1
    case Exited => 0
  }

  /** An upper bound on the steps of `Progress` still possible. */
  ghost function Measure(s: State): int {
    10 * Work(|s.file|, s.clients) + Rank(s.q, s.worker, s.now) + if s.notifying then 2 else 0
  }

  /** The steps by which the program itself goes on. Left out are new work (`Accept`), shutdown, time, and
      wake-ups without a cause. */
  predicate Progress(step: Step) { !step.Accept? && !step.Stop? && !step.Tick? && !step.Spurious? }

  lemma DueIsReady(q: Queues, until: Until, now: Time)
    requires Covers(until, q.scheduled) && until.At? && until.when <= now
    ensures Ready(q, now)
  {
    var i: nat :| IsEarliest(q.scheduled, i) && q.scheduled[i].when == until.when;
    assert 0 <= i < |q.scheduled|;
  }

  lemma NotReady(q: Queues, top: nat, now: Time)
    requires q.immediate == [] && (q.scheduled == [] || (IsEarliest(q.scheduled, top) && q.scheduled[top].when > now))
    ensures !Ready(q, now)
  {
  }

  lemma RankFallsOnTake(s: State, top: nat)
    requires s.q.running && Enabled(s, TakeNext(top))
    ensures var t := Apply(s, TakeNext(top)); Rank(t.q, t.worker, t.now) < Rank(s.q, s.worker, s.now)
  {
    TakeEffect(s, top);
    if s.q.immediate == [] && (s.q.scheduled == [] || s.q.scheduled[top].when > s.now) {
      NotReady(s.q, top, s.now);
      assert Apply(s, TakeNext(top)).worker.Blocked?;
    }
    hide Apply, Ready;
  }

  lemma RankFallsOnTimeout(s: State)
    requires Waits(s.q, s.worker, s.notifying) && Enabled(s, Timeout)
    ensures var t := Apply(s, Timeout); Rank(t.q, t.worker, t.now) < Rank(s.q, s.worker, s.now)
  {
    DueIsReady(s.q, s.worker.until, s.now);
    hide Ready, Covers, WaitOver;
  }

  lemma RankFallsOnTest(s: State)
    requires s.q.running && Enabled(s, Test)
    ensures var t := Apply(s, Test); Rank(t.q, t.worker, t.now) < Rank(s.q, s.worker, s.now)
  {
    assert Apply(s, Test) == s.(worker := BeforeLock);
    hide Ready, Apply, Enabled;
  }

  lemma RankFallsOnRecheck(s: State)
    requires s.q.running && Enabled(s, Recheck)
    ensures var t := Apply(s, Recheck); Rank(t.q, t.worker, t.now) < Rank(s.q, s.worker, s.now)
  {
    var until := s.worker.until;
    assert WaitOver(s.q) ==> Ready(s.q, s.now);
    assert Apply(s, Recheck) == s.(worker := if WaitOver(s.q) then LoopTest else Blocked(until));
    hide Ready, WaitOver, Apply, Enabled;
  }

  /** Beginning a task and delaying it: only the worker's own state counts. */
  lemma RankFallsInTask(s: State, step: Step)
    requires Enabled(s, step) && (step == Begin || step == Delay)
    ensures var t := Apply(s, step); Rank(t.q, t.worker, t.now) < Rank(s.q, s.worker, s.now)
  {
    assert step == Begin ==> Apply(s, step).worker.Resuming?;
    assert step == Delay ==> Apply(s, step).worker == LoopTest;
    hide Ready, Apply;
  }

  lemma RankFalls(s: State, step: Step)
    requires Inv(s) && s.q.running && Enabled(s, step) && Progress(step) && step != Resume && step != Notify
    ensures var t := Apply(s, step); Rank(t.q, t.worker, t.now) < Rank(s.q, s.worker, s.now)
  {
    WaitsOf(s);
    hide Inv, Enabled, Apply, Rank, Waits;
    match step
    case Timeout => RankFallsOnTimeout(s);
    case TakeNext(top) => RankFallsOnTake(s, top);
    case Test => RankFallsOnTest(s);
    case Recheck => RankFallsOnRecheck(s);
    case Begin => RankFallsInTask(s, step);
    case Delay => RankFallsInTask(s, step);
  }

  lemma WaitsOf(s: State)
    requires Inv(s)
    ensures Waits(s.q, s.worker, s.notifying)
  {
    hide Core, Streams, Counts, Waits, Deadlines, Spacing, Fifo, Stays;
  }

  lemma ProgressDecreases(s: State, step: Step)
    requires Inv(s) && s.q.running && Enabled(s, step) && Progress(step)
    ensures Measure(Apply(s, step)) < Measure(s)
  {
    hide Inv, Work;
    WorkStep(s, step);
    if step == Resume {
    } else if step == Notify {
    } else {
      RankFalls(s, step);
    }
  }

  lemma ReadyLater(q: Queues, now: Time, later: Time)
    requires Ready(q, now) && now <= later
    ensures Ready(q, later)
  {
    if q.immediate == [] {
      var i :| 0 <= i < |q.scheduled| && q.scheduled[i].when <= now;
      assert q.scheduled[i].when <= later;
    }
  }

  lemma TickKeeps(s: State, dt: nat)
    ensures Measure(Apply(s, Tick(dt))) <= Measure(s)
  {
    TickEffect(s, dt);
    hide Apply, Enabled, Work, Ready;
    if Ready(s.q, s.now) {
      ReadyLater(s.q, s.now, s.now + dt);
    }
  }

  lemma MeasureBounds(s: State)
    requires Inv(s)
    ensures 0 <= Measure(s) <= 10 * Work(|s.file|, s.clients) + 11
  {
    WorkNonNegative(|s.file|, s.clients);
  }

  /** The price of one new client. */
  function Price(size: nat): nat { 10 * (1 + 2 * Blocks(size)) + 2 }

  /** What one step may add to the measure: a spurious wake-up one, a new client ten for each of its resumptions and
      two for the signal. Every step of the program takes at least one off. */
  function Allowance(size: nat, step: Step): int {
    match step
    case Accept(_) => Price(size)
    case Spurious => 1
    case Tick(_) => 0
    case _ => -1
  }

  lemma AcceptCost(s: State, fd: int)
    requires s.q.running && Enabled(s, Accept(fd))
    requires Work(|s.file|, Apply(s, Accept(fd)).clients) == Work(|s.file|, s.clients) + 1 + 2 * Blocks(|s.file|)
    ensures Measure(Apply(s, Accept(fd))) <= Measure(s) + Allowance(|s.file|, Accept(fd))
  {
    hide Work, Blocks;
  }

  lemma SpuriousCost(s: State)
    requires s.q.running && Enabled(s, Spurious)
    ensures Measure(Apply(s, Spurious)) <= Measure(s) + 1
  {
    hide Work, Blocks, Ready;
  }

  lemma StepCost(s: State, step: Step)
    requires Inv(s) && s.q.running && Enabled(s, step) && step != Stop
    ensures Measure(Apply(s, step)) <= Measure(s) + Allowance(|s.file|, step)
  {
    hide Inv, Measure, Apply, Enabled, Work, Blocks;
    WorkStep(s, step);
    match step
    case Accept(fd) => AcceptCost(s, fd);
    case Spurious => SpuriousCost(s);
    case Tick(dt) => TickKeeps(s, dt);
    case _ => ProgressDecreases(s, step);
  }

  lemma RunningKept(s: State, step: Step)
    requires s.q.running && Enabled(s, step) && step != Stop
    ensures Apply(s, step).q.running
  {
  }

  lemma MeasuredStep(s: State, step: Step)
    requires Inv(s) && s.q.running && Enabled(s, step) && step != Stop
    ensures Inv(Apply(s, step)) && Apply(s, step).q.running
    ensures 0 <= Measure(Apply(s, step)) <= Measure(s) + Allowance(|s.file|, step)
  {
    hide *;
    InvStep(s, step);
    MeasureBounds(Apply(s, step));
    RunningKept(s, step);
    StepCost(s, step);
    FileKept(s, step);
  }

  /** How many steps of a run are the program's own, arrivals, wake-ups without a cause, and resumptions. */
  function ProgressSteps(steps: seq<Step>): nat
    decreases |steps|
  {
    if steps == [] then 0 else (if Progress(steps[0]) then 1 else 0) + ProgressSteps(steps[1..])
  }

  function Arrivals(steps: seq<Step>): nat
    decreases |steps|
  {
    if steps == [] then 0 else (if steps[0].Accept? then 1 else 0) + Arrivals(steps[1..])
  }

  function IdleWakeUps(steps: seq<Step>): nat
    decreases |steps|
  {
    if steps == [] then 0 else (if steps[0] == Spurious then 1 else 0) + IdleWakeUps(steps[1..])
  }

  function Resumptions(steps: seq<Step>): nat
    decreases |steps|
  {
    if steps == [] then 0 else (if steps[0] == Resume then 1 else 0) + Resumptions(steps[1..])
  }

  lemma CountOne(steps: seq<Step>)
    requires steps != []
    ensures var step, rest := steps[0], steps[1..];
      && ProgressSteps(steps) == ProgressSteps(rest) + (if Progress(step) then 1 else 0)
      && IdleWakeUps(steps) == IdleWakeUps(rest) + (if step == Spurious then 1 else 0)
      && Resumptions(steps) == Resumptions(rest) + (if step == Resume then 1 else 0)
      && Arrivals(steps) == Arrivals(rest) + if step.Accept? then 1 else 0
  {
    hide Progress;
  }

  lemma Distribute(n: nat, p: nat)
    ensures (n + 1) * p == n * p + p
  {
  }

  lemma CountHead(size: nat, steps: seq<Step>)
    requires steps != [] && Stop !in steps
    ensures var rest := steps[1..];
      ProgressSteps(steps) - IdleWakeUps(steps) - Arrivals(steps) * Price(size)
        <= ProgressSteps(rest) - IdleWakeUps(rest) - Arrivals(rest) * Price(size) - Allowance(size, steps[0])
  {
    assert steps[0] in steps;
    hide ProgressSteps, IdleWakeUps, Arrivals, Price;
    CountOne(steps);
    Distribute(Arrivals(steps[1..]), Price(size));
  }

  lemma NothingCounted()
    ensures ProgressSteps([]) == IdleWakeUps([]) == Arrivals([]) == Resumptions([]) == 0
  {
  }

  /** However the steps are interleaved, whoever arrives meanwhile and however often the worker is woken without a
      cause: the program's own steps are paid for by the work there was, the arrivals and the idle wake-ups. */
  lemma {:induction false} BoundedService(s: State, steps: seq<Step>)
    requires Inv(s) && s.q.running && IsRun(s, steps) && Stop !in steps
    ensures Measure(s) <= 10 * Work(|s.file|, s.clients) + 11
    ensures Inv(After(s, steps)) && 0 <= Measure(After(s, steps))
    ensures ProgressSteps(steps) + Measure(After(s, steps))
      <= Measure(s) + IdleWakeUps(steps) + Arrivals(steps) * Price(|s.file|)
    decreases |steps|
  {
    hide *;
    MeasureBounds(s);
    if steps == [] {
      EmptyRun(s);
      NothingCounted();
    } else {
      RunHead(s, steps);
      assert steps[0] in steps;
      MeasuredStep(s, steps[0]);
      FileKept(s, steps[0]);
      BoundedService(Apply(s, steps[0]), steps[1..]);
      CountHead(|s.file|, steps);
    }
  }

  ghost predicate AllServed(s: State) {
    forall c :: 0 <= c < |s.clients| ==> s.clients[c].frame == Finished
  }

  /** What `n` new clients have to be resumed altogether. */
  function ArrivalWork(size: nat, n: nat): nat { n * (1 + 2 * Blocks(size)) }

  lemma NextArrival(size: nat, n: nat)
    ensures ArrivalWork(size, 0) == 0 && ArrivalWork(size, n + 1) == ArrivalWork(size, n) + 1 + 2 * Blocks(size)
  {
    hide Blocks;
    Distribute(n, 1 + 2 * Blocks(size));
  }

  /** Over any run, shutdown included: what there was to do and what arrived is done or left. */
  lemma {:induction false} WorkBalance(s: State, steps: seq<Step>)
    requires Inv(s) && IsRun(s, steps)
    ensures Work(|s.file|, After(s, steps).clients) + Resumptions(steps)
      == Work(|s.file|, s.clients) + ArrivalWork(|s.file|, Arrivals(steps))
    decreases |steps|
  {
    hide *;
    if steps == [] {
      NextArrival(|s.file|, 0);
      EmptyRun(s);
      NothingCounted();
    } else {
      RunHead(s, steps);
      var t, rest := Apply(s, steps[0]), steps[1..];
      CountOne(steps);
      InvStep(s, steps[0]);
      FileKept(s, steps[0]);
      WorkStep(s, steps[0]);
      WorkBalance(t, rest);
      NextArrival(|s.file|, Arrivals(rest));
    }
  }

  lemma ServedIffNoWork(s: State)
    requires Inv(s)
    ensures Work(|s.file|, s.clients) >= 0 && (AllServed(s) <==> Work(|s.file|, s.clients) == 0)
  {
    assert FramesInRange(|s.file|, s.clients);
    WorkNonNegative(|s.file|, s.clients);
    hide Inv, Work;
    assert AllServed(s) <==> forall c :: 0 <= c < |s.clients| ==> !Live(s.clients, c);
  }

  /** A run has served everybody exactly when it has resumed coroutines as often as there was work at its beginning, and
      1 + 2 * ceil(size / 100) times for each client that arrived in it; no run resumes more often. */
  lemma ServedIffResumed(s: State, steps: seq<Step>)
    requires Inv(s) && IsRun(s, steps)
    ensures var due := Work(|s.file|, s.clients) + ArrivalWork(|s.file|, Arrivals(steps));
      Resumptions(steps) <= due && (AllServed(After(s, steps)) <==> Resumptions(steps) == due)
  {
    hide *;
    WorkBalance(s, steps);
    InvRun(s, steps);
    ServedIffNoWork(After(s, steps));
  }

  // ---- nobody is stuck ----

  /** The position of a least deadline. */
  lemma {:induction false} EarliestExists(q: seq<Scheduled>) returns (i: nat)
    requires q != []
    ensures IsEarliest(q, i)
  {
    i := 0;
    if |q| > 1 {
      var j := EarliestExists(q[..|q| - 1]);
      i := if q[j].when <= q[|q| - 1].when then j else |q| - 1;
    }
  }

  /** A worker blocked while a client is unfinished, with no signal on its way, waits for a deadline. */
  lemma BlockedHasDeadline(s: State)
    requires Inv(s) && s.q.running && s.worker.Blocked? && !s.notifying
    requires exists c: nat :: Live(s.clients, c)
    ensures s.worker.until.At?
  {
    var c: nat :| Live(s.clients, c);
    assert Continuations(s.q, s.worker, c) == 1;
    assert Posted([], c) == 0 && Asleep([], c) == 0;
  }

  lemma BeginEnabled(s: State)
    requires Inv(s) && s.worker.Executing?
    ensures Enabled(s, Begin)
  {
    assert FrameInRange(|s.file|, s.clients[s.worker.task.client].frame);
  }

  lemma ResumeEnabled(s: State)
    requires Inv(s) && s.worker.Resuming?
    ensures Enabled(s, Resume)
  {
  }

  /** A step the worker can take by itself, whenever it is not blocked. */
  lemma WorkerStep(s: State) returns (step: Step)
    requires Inv(s) && s.worker != Exited && !s.worker.Blocked?
    ensures Progress(step) && Enabled(s, step)
  {
    hide Inv;
    match s.worker
    case LoopTest => step := Test;
    case BeforeLock =>
      var top := 0;
      if s.q.scheduled != [] {
        top := EarliestExists(s.q.scheduled);
      }
      step := TakeNext(top);
    case Signalled(_) => step := Recheck;
    case Executing(_) =>
      BeginEnabled(s);
      step := Begin;
    case Resuming(_) =>
      ResumeEnabled(s);
      step := Resume;
    case Delaying(_, _) => step := Delay;
  }

  /** The step the program takes next on its own: with `ahead` the time until it can be taken. */
  lemma NextStep(s: State) returns (ahead: nat, step: Step)
    requires Inv(s) && s.q.running
    requires exists c: nat :: Live(s.clients, c)
    ensures Progress(step) && Enabled(Later(s, ahead), step)
    ensures ahead > 0 ==> s.worker.Blocked? && s.worker.until == At(s.now + ahead)
  {
    hide *;
    StillThere(s);
    ahead := 0;
    if !s.worker.Blocked? {
      step := WorkerStep(s);
    } else if s.notifying {
      step := Notify;
    } else {
      BlockedHasDeadline(s);
      step := Timeout;
      ahead := if s.worker.until.when > s.now then s.worker.until.when - s.now else 0;
    }
    BlockedCanGoOn(s, ahead);
  }

  lemma StillThere(s: State)
    requires Inv(s) && s.q.running
    ensures s.worker != Exited && Later(s, 0) == s
  {
    assert Stays(s);
  }

  lemma BlockedCanGoOn(s: State, ahead: nat)
    ensures Progress(Notify) && (s.notifying ==> Enabled(Later(s, ahead), Notify))
    ensures Progress(Timeout)
    ensures s.worker.Blocked? && s.worker.until.At? && s.worker.until.when <= s.now + ahead ==>
      Enabled(Later(s, ahead), Timeout)
  {
  }

  lemma ServedOrLive(s: State)
    ensures AllServed(s) || exists c: nat :: Live(s.clients, c)
  {
    if c :| 0 <= c < |s.clients| && s.clients[c].frame != Finished {
      assert Live(s.clients, c);
    }
  }

  /** The program can go no further, now or at any later time. */
  ghost predicate Stalled(s: State) {
    forall dt: nat, step :: Progress(step) ==> !Enabled(Later(s, dt), step)
  }

  /** However its steps were scheduled: a run without `stop` that can go no further has served everybody. */
  lemma StalledIsServed(s: State, steps: seq<Step>)
    requires Inv(s) && s.q.running && IsRun(s, steps) && Stop !in steps
    ensures Stalled(After(s, steps)) ==> AllServed(After(s, steps))
  {
    hide IsRun, After, Inv, Enabled, Apply, Measure, Work;
    RunKeepsRunning(s, steps);
    InvRun(s, steps);
    var t := After(s, steps);
    ServedOrLive(t);
    if !AllServed(t) {
      var ahead, step := NextStep(t);
    }
  }

  lemma {:induction false} RunKeepsRunning(s: State, steps: seq<Step>)
    requires s.q.running && IsRun(s, steps) && Stop !in steps
    ensures After(s, steps).q.running
    decreases |steps|
  {
    hide Apply, Enabled;
    if steps != [] {
      RunHead(s, steps);
      assert steps[0] in steps;
      RunningKept(s, steps[0]);
      RunKeepsRunning(Apply(s, steps[0]), steps[1..]);
    }
  }

  lemma ClientsKept(s: State, step: Step)
    requires Inv(s) && Enabled(s, step) && !step.Accept?
    ensures |Apply(s, step).clients| == |s.clients|
  {
    assert Core(s);
    if step == Begin {
      OwnDescriptor(s);
      BeginEffect(s);
    } else if step == Resume {
      ResumeEffect(s);
    } else {
      OtherEffect(s, step);
    }
    hide *;
  }

  lemma TickAllowed(s: State, dt: nat)
    ensures Enabled(s, Tick(dt)) && Allowance(|s.file|, Tick(dt)) == 0
  {
  }

  lemma ProgressCost(size: nat, step: Step)
    requires Progress(step)
    ensures Allowance(size, step) == -1 && !step.Accept? && step != Stop && !step.Tick?
  {
  }

  /** The program's next step after the time it has to wait for. */
  lemma OneRound(s: State) returns (ahead: nat, step: Step)
    requires Inv(s) && s.q.running && !AllServed(s)
    ensures Progress(step) && Enabled(Later(s, ahead), step)
    ensures var t := Apply(Later(s, ahead), step);
      Inv(t) && t.q.running && |t.clients| == |s.clients| && 0 <= Measure(t) < Measure(s)
  {
    ServedOrLive(s);
    hide Inv, Apply, Enabled, Measure, AllServed, Allowance, Progress;
    ahead, step := NextStep(s);
    TickAllowed(s, ahead);
    MeasuredStep(s, Tick(ahead));
    TickEffect(s, ahead);
    ProgressCost(|s.file|, step);
    MeasuredStep(Later(s, ahead), step);
    ClientsKept(Later(s, ahead), step);
  }

  lemma RunOneMore(s: State, step: Step, steps: seq<Step>)
    requires Enabled(s, step) && IsRun(Apply(s, step), steps)
    ensures IsRun(s, [step] + steps) && After(s, [step] + steps) == After(Apply(s, step), steps)
  {
    assert ([step] + steps)[1..] == steps;
  }

  /** From every running state the program, given time, serves everybody to the end. */
  lemma {:induction false} EveryoneIsServed(s: State) returns (steps: seq<Step>)
    requires Inv(s) && s.q.running
    ensures IsRun(s, steps) && forall k :: 0 <= k < |steps| ==> Progress(steps[k]) || steps[k].Tick?
    ensures |After(s, steps).clients| == |s.clients| && AllServed(After(s, steps))
    decreases Measure(s)
  {
    EmptyRun(s);
    hide *;
    if AllServed(s) {
      steps := [];
    } else {
      var ahead, step := OneRound(s);
      var m := Later(s, ahead);
      steps := EveryoneIsServed(Apply(m, step));
      TickAllowed(s, ahead);
      TickEffect(s, ahead);
      RunOneMore(m, step, steps);
      RunOneMore(s, Tick(ahead), [step] + steps);
      steps := [Tick(ahead)] + ([step] + steps);
    }
  }

  // ---- shutdown ----

  /** Once `running` is false: an upper bound on the worker's steps to its end. */
  function ShutdownRank(w: Worker): nat {
    match w
    case BeforeLock => 8
    case Executing(_) => 7
    case Blocked(_) => 6
    case Resuming(_) => 6
    case Signalled(_) => 5
    case Delaying(_, _) => 5
    case LoopTest => 4
    case Exited => 0
  }

  function ToExit(s: State): nat { ShutdownRank(s.worker) + if s.notifying then 2 else 0 }

  /** After `stop` the worker always has a step until it is gone, or the signal to it is still to come. */
  lemma StopNeverStuck(s: State) returns (step: Step)
    requires Inv(s) && !s.q.running && s.worker != Exited
    ensures Progress(step) && Enabled(s, step)
  {
    assert Waits(s.q, s.worker, s.notifying);
    hide Inv;
    if s.worker.Blocked? {
      step := Notify;
    } else {
      step := WorkerStep(s);
    }
  }

  lemma StopStep(s: State, step: Step)
    requires !s.q.running && Enabled(s, step)
    ensures !Apply(s, step).q.running
    ensures ToExit(Apply(s, step)) <= ToExit(s) - (if step.Tick? then 0 else 1)
  {
  }

  function Steps(steps: seq<Step>): nat
    decreases |steps|
  {
    if steps == [] then 0 else (if steps[0].Tick? then 0 else 1) + Steps(steps[1..])
  }

  /** Over every run after `stop`, idle wake-ups included: at most ten steps are left, and each one taken is one
      less. */
  lemma {:induction false} StopTerminates(s: State, steps: seq<Step>)
    requires Inv(s) && !s.q.running && IsRun(s, steps)
    ensures Inv(After(s, steps)) && !After(s, steps).q.running
    ensures Steps(steps) + ToExit(After(s, steps)) <= ToExit(s) <= 10
    decreases |steps|
  {
    EmptyRun(s);
    hide Inv, IsRun, After, Apply, Enabled;
    if steps != [] {
      RunHead(s, steps);
      InvStep(s, steps[0]);
      StopStep(s, steps[0]);
      StopTerminates(Apply(s, steps[0]), steps[1..]);
    }
  }

  /** A run after `stop` can go no further exactly when the worker is gone and all signals are given. */
  lemma StoppedIffExited(s: State, steps: seq<Step>)
    requires Inv(s) && !s.q.running && IsRun(s, steps)
    ensures var t := After(s, steps);
      (forall step :: Progress(step) ==> !Enabled(t, step)) <==> t.worker == Exited && !t.notifying
  {
    StopTerminates(s, steps);
    var t := After(s, steps);
    hide Inv;
    if t.worker != Exited {
      var step := StopNeverStuck(t);
    } else if t.notifying {
      assert Progress(Notify) && Enabled(t, Notify);
    }
  }

  /** From every stopped state at most ten steps of the program lead to the worker's end: `join` returns. */
  lemma {:induction false} StopReachesExit(s: State) returns (steps: seq<Step>)
    requires Inv(s) && !s.q.running
    ensures IsRun(s, steps) && |steps| <= ToExit(s) <= 10 && After(s, steps).worker == Exited
    ensures forall k :: 0 <= k < |steps| ==> Progress(steps[k])
    decreases ToExit(s)
  {
    hide *;
    EmptyRun(s);
    StopTerminates(s, []);
    if s.worker == Exited {
      steps := [];
    } else {
      var step := StopNeverStuck(s);
      ProgressCost(|s.file|, step);
      InvStep(s, step);
      StopStep(s, step);
      steps := StopReachesExit(Apply(s, step));
      RunOneMore(s, step, steps);
      steps := [step] + steps;
    }
  }
}
