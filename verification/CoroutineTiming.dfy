/** Waiting and deadlines in the coroutine server. */
module CoroutineTiming {
  import opened Chunking
  import opened EventLoops
  import opened CoroutineServer
  import opened CoroutineInvariants
  import opened CoroutineStreams

  // ---- no lost wake-up ----

  predicate Waiting(w: Worker) { w.Blocked? || w.Signalled? }

  /** `until` is right for the scheduled queue: no deadline when it is empty, otherwise its least deadline. */
  ghost predicate Covers(until: Until, q: seq<Scheduled>) {
    match until
    case Untimed => q == []
    case At(when) => exists i: nat :: IsEarliest(q, i) && q[i].when == when
  }

  /** A worker in a wait has the right deadline, and a blocked one whose wait should end is about to be notified. */
  ghost predicate Waits(q: Queues, w: Worker, notifying: bool) {
    && (Waiting(w) ==> Covers(w.until, q.scheduled))
    && (w.Blocked? && WaitOver(q) ==> notifying)
  }

  lemma WaitsStep(s: State, step: Step)
    requires Enabled(s, step) && Waits(s.q, s.worker, s.notifying)
    ensures var t := Apply(s, step); Waits(t.q, t.worker, t.notifying)
  {
    match step
    case TakeNext(top) =>
      if s.q.immediate == [] && s.q.scheduled != [] {
        assert Covers(At(s.q.scheduled[top].when), s.q.scheduled);
      }
    case _ =>
  }

  // ---- first in, first out ----

  /** The tasks posted are the tasks taken, in the same order, followed by those still queued. */
  predicate Fifo(s: State) { s.posted == s.taken + s.q.immediate }

  /** Only `Accept`, `Resume` and `TakeNext` touch the immediate queue and its histories. */
  lemma FifoKept(s: State, step: Step)
    requires Enabled(s, step) && !step.Accept? && step != Resume && !step.TakeNext?
    ensures var t := Apply(s, step); t.q.immediate == s.q.immediate && t.posted == s.posted && t.taken == s.taken
  {
  }

  lemma FifoPost(s: State, step: Step)
    requires Enabled(s, step) && (step.Accept? || step == Resume)
    ensures var t := Apply(s, step);
      && t.taken == s.taken
      && ((t.q.immediate == s.q.immediate && t.posted == s.posted)
          || exists task :: t.q.immediate == s.q.immediate + [task] && t.posted == s.posted + [task])
  {
  }

  lemma FifoStep(s: State, step: Step)
    requires Enabled(s, step) && Fifo(s)
    ensures Fifo(Apply(s, step))
  {
    match step
    case TakeNext(top) =>
      TakeEffect(s, top);
      hide Apply, Enabled, Remove;
      if s.q.immediate != [] {
        assert s.q.immediate == s.q.immediate[..1] + s.q.immediate[1..];
      }
    case Accept(_) =>
      FifoPost(s, step);
      hide Apply, Enabled;
    case Resume =>
      FifoPost(s, step);
      hide Apply, Enabled;
    case _ =>
      FifoKept(s, step);
      hide Apply, Enabled;
  }

  // ---- deadlines ----

  /** The due time of the scheduled task taken last. */
  function LastDue(starts: seq<Start>): Time {
    if starts == [] then 0 else starts[|starts| - 1].due
  }

  /** Scheduled tasks start no earlier than due, and in the order of their deadlines. */
  ghost predicate InOrder(starts: seq<Start>, now: Time) {
    && (forall i :: 0 <= i < |starts| ==> starts[i].due <= starts[i].at <= now)
    && (forall i, j :: 0 <= i < j < |starts| ==> starts[i].due <= starts[j].due && starts[i].at <= starts[j].at)
  }

  ghost predicate NoneOverdue(starts: seq<Start>, q: seq<Scheduled>) {
    forall i :: 0 <= i < |q| ==> LastDue(starts) <= q[i].when
  }

  ghost predicate Deadlines(s: State) {
    && InOrder(s.starts, s.now)
    && NoneOverdue(s.starts, s.q.scheduled)
    && LastDue(s.starts) <= s.now
    && (s.worker.Delaying? ==> LastDue(s.starts) <= s.worker.when)
  }

  lemma InOrderNext(starts: seq<Start>, due: Time, now: Time)
    requires InOrder(starts, now) && LastDue(starts) <= due <= now
    ensures InOrder(starts + [Start(due, now)], now)
  {
  }

  lemma DeadlinesTake(s: State, top: nat)
    requires Enabled(s, TakeNext(top)) && Deadlines(s)
    ensures Deadlines(Apply(s, TakeNext(top)))
  {
    var t, q := Apply(s, TakeNext(top)), s.q.scheduled;
    TakeEffect(s, top);
    if t.starts != s.starts {
      assert IsEarliest(q, top);
      hide Apply, Enabled;
      InOrderNext(s.starts, q[top].when, s.now);
      assert LastDue(t.starts) == q[top].when;
      assert NoneOverdue(t.starts, q);
      assert NoneOverdue(t.starts, Remove(q, top));
    } else {
      hide Apply, Enabled;
    }
  }

  lemma InOrderLater(starts: seq<Start>, now: Time, later: Time)
    requires InOrder(starts, now) && now <= later
    ensures InOrder(starts, later)
  {
  }

  /** Neither taking nor delaying: the schedule, its history and a deadline already computed stay as they are. */
  lemma ScheduleKept(s: State, step: Step)
    requires Enabled(s, step) && !step.TakeNext? && step != Resume && step != Delay
    ensures var t := Apply(s, step);
      && t.starts == s.starts && t.q.scheduled == s.q.scheduled && s.now <= t.now
      && (t.worker.Delaying? ==> t.worker == s.worker)
  {
  }

  lemma DeadlinesResume(s: State)
    requires Enabled(s, Resume) && Deadlines(s)
    ensures Deadlines(Apply(s, Resume))
  {
    ResumeEffect(s);
    assert Apply(s, Resume).starts == s.starts;
    hide Apply, Enabled, InOrder, NoneOverdue;
  }

  lemma DeadlinesDelay(s: State)
    requires Enabled(s, Delay) && Deadlines(s)
    ensures Deadlines(Apply(s, Delay))
  {
    var t := Apply(s, Delay);
    assert t == s.(q := PushedLater(s.q, ResumeOnly(s.worker.client), s.worker.when), worker := LoopTest);
    hide Apply, Enabled, InOrder;
    assert NoneOverdue(t.starts, t.q.scheduled);
  }

  lemma DeadlinesStep(s: State, step: Step)
    requires Enabled(s, step) && Deadlines(s)
    ensures Deadlines(Apply(s, step))
  {
    match step
    case TakeNext(top) => DeadlinesTake(s, top);
    case Resume => DeadlinesResume(s);
    case Delay => DeadlinesDelay(s);
    case _ =>
      ScheduleKept(s, step);
      InOrderLater(s.starts, s.now, Apply(s, step).now);
      hide Apply, Enabled, InOrder, NoneOverdue, LastDue;
  }

  // ---- pacing of one client ----

  /** At time `t` the pause after the client's latest piece is over. The header is followed by no pause. */
  predicate RestedAt(client: Client, t: Time) {
    |client.stream| >= 2 ==> client.stream[|client.stream| - 1].at + SLEEP <= t
  }

  /** Sends are in the past and pieces of the file at least 200 ms apart. */
  ghost predicate Paced(client: Client, now: Time) {
    && (forall k :: 0 <= k < |client.stream| ==> client.stream[k].at <= now)
    && (forall k :: 2 <= k < |client.stream| ==> client.stream[k - 1].at + SLEEP <= client.stream[k].at)
  }

  /** A client waiting for its next send, or woken from its pause, has rested already. */
  predicate Rested(client: Client, c: nat, w: Worker, now: Time) {
    && (client.frame.AtChunk? && w != Resuming(c) ==> RestedAt(client, now))
    && (client.frame.AtSleep? && (w == Executing(ResumeOnly(c)) || w == Resuming(c)) ==> RestedAt(client, now))
    && (w.Delaying? && w.client == c ==> RestedAt(client, w.when))
  }

  ghost predicate AllPaced(cs: seq<Client>, now: Time) {
    forall c :: 0 <= c < |cs| ==> Paced(cs[c], now)
  }

  ghost predicate AllRested(cs: seq<Client>, w: Worker, now: Time) {
    forall c :: 0 <= c < |cs| ==> Rested(cs[c], c, w, now)
  }

  ghost predicate SleepersRest(cs: seq<Client>, q: seq<Scheduled>) {
    forall i :: 0 <= i < |q| && q[i].task.client < |cs| ==> RestedAt(cs[q[i].task.client], q[i].when)
  }

  ghost predicate Spacing(s: State) {
    AllPaced(s.clients, s.now) && AllRested(s.clients, s.worker, s.now) && SleepersRest(s.clients, s.q.scheduled)
  }

  /** The worker changes the client it holds, and holds no other. */
  lemma SpacingUpdate(cs: seq<Client>, q: seq<Scheduled>, w: Worker, v: Worker, now: Time, c: nat, y: Client)
    requires c < |cs| && AllPaced(cs, now) && AllRested(cs, w, now) && SleepersRest(cs, q)
    requires forall i :: 0 <= i < |q| ==> q[i].task.client != c
    requires InHand(w, c) == 1 && forall d: nat :: d != c ==> InHand(v, d) == 0
    requires Paced(y, now) && Rested(y, c, v, now)
    ensures AllPaced(cs[c := y], now) && AllRested(cs[c := y], v, now) && SleepersRest(cs[c := y], q)
  {
    var ds := cs[c := y];
    forall d | 0 <= d < |ds|
      ensures Rested(ds[d], d, v, now)
    {
      if d != c {
        assert Rested(cs[d], d, w, now);
        assert InHand(v, d) == 0;
      }
    }
  }

  /** The client's piece goes out now, after its pause. */
  lemma BegunRests(file: string, x: Client, y: Client, c: nat, task: Task, data: string, now: Time)
    requires task.client == c && StreamFits(file, x, false) && Paced(x, now) && Rested(x, c, Executing(task), now)
    requires if task.SendThenResume? then x.frame.AtHeader? || x.frame.AtChunk? else x.frame.AtSleep?
    requires y.frame == x.frame
    requires y.stream == if task.SendThenResume? then x.stream + [Sent(data, now)] else x.stream
    ensures Rested(y, c, Resuming(c), now) && Paced(y, now)
  {
    hide Script, Header;
  }

  lemma SpacingBegin(s: State)
    requires Enabled(s, Begin) && Core(s) && Streams(s.file, s.clients, s.worker) && Spacing(s)
    ensures Spacing(Apply(s, Begin))
  {
    var c := s.worker.task.client;
    var x := s.clients[c];
    var y := Begun(s, x);
    NotQueued(s.clients, s.q, s.worker, c);
    OwnDescriptor(s);
    BeginEffect(s);
    assert Rested(x, c, s.worker, s.now) && Paced(x, s.now) && StreamFits(s.file, x, false);
    assert TaskFits(s.clients, s.worker.task);
    hide Core, Streams, AllPaced, AllRested, SleepersRest, Apply, Enabled, StreamFits, Rested, Paced, PieceOf;
    BegunRests(s.file, x, y, c, s.worker.task, PieceOf(s.file, x.frame), s.now);
    hide Begun;
    SpacingUpdate(s.clients, s.q.scheduled, s.worker, Resuming(c), s.now, c, y);
  }

  /** A resumed client has rested for as long as its new suspension point asks. */
  lemma ResumedRests(file: string, x: Client, y: Client, c: nat, now: Time, v: Worker)
    requires y.stream == x.stream && y.frame == Advance(|file|, x.frame) && StreamFits(file, x, true)
    requires Rested(x, c, Resuming(c), now) && Paced(x, now)
    requires if y.frame.AtSleep? then v == Delaying(c, now + SLEEP) else v == LoopTest
    ensures Rested(y, c, v, now) && Paced(y, now)
  {
  }

  lemma SpacingResume(s: State)
    requires Enabled(s, Resume) && Core(s) && Streams(s.file, s.clients, s.worker) && Spacing(s)
    ensures Spacing(Apply(s, Resume))
  {
    var t, c := Apply(s, Resume), s.worker.client;
    var x := s.clients[c];
    var y := Resumed(|s.file|, x);
    NotQueued(s.clients, s.q, s.worker, c);
    ResumeEffect(s);
    assert StreamFits(s.file, x, true) && Rested(x, c, s.worker, s.now) && Paced(x, s.now);
    hide Core, Streams, AllPaced, AllRested, SleepersRest, Apply, Enabled, StreamFits, Rested, Paced, Advance;
    ResumedRests(s.file, x, y, c, s.now, t.worker);
    SpacingUpdate(s.clients, s.q.scheduled, s.worker, t.worker, s.now, c, y);
  }

  /** The worker takes a task that is due: its client has rested. */
  lemma TakenRests(cs: seq<Client>, w: Worker, task: Task, now: Time)
    requires AllRested(cs, w, now) && (forall c: nat :: InHand(w, c) == 0)
    requires task.ResumeOnly? && task.client < |cs| ==> RestedAt(cs[task.client], now)
    ensures AllRested(cs, Executing(task), now)
  {
    forall c | 0 <= c < |cs|
      ensures Rested(cs[c], c, Executing(task), now)
    {
      assert Rested(cs[c], c, w, now) && InHand(w, c) == 0;
    }
  }

  lemma SleepersRemove(cs: seq<Client>, q: seq<Scheduled>, i: nat)
    requires i < |q| && SleepersRest(cs, q)
    ensures SleepersRest(cs, Remove(q, i))
  {
  }

  lemma SpacingTake(s: State, top: nat)
    requires Enabled(s, TakeNext(top)) && Core(s) && Spacing(s)
    ensures Spacing(Apply(s, TakeNext(top)))
  {
    var t, q := Apply(s, TakeNext(top)), s.q.scheduled;
    TakeEffect(s, top);
    assert forall c: nat :: InHand(s.worker, c) == 0;
    if s.q.immediate != [] {
      assert s.q.immediate[0].SendThenResume?;
      hide Core, Apply, AllPaced, SleepersRest, AllRested, RestedAt;
      TakenRests(s.clients, s.worker, s.q.immediate[0], s.now);
    } else if q != [] && q[top].when <= s.now {
      var c := q[top].task.client;
      assert c < |s.clients| ==> RestedAt(s.clients[c], q[top].when);
      SleepersRemove(s.clients, q, top);
      hide Core, Apply, AllPaced, SleepersRest, AllRested;
      TakenRests(s.clients, s.worker, q[top].task, s.now);
    } else {
      SpacingKept(s.clients, s.worker, t.worker, s.now, s.now);
      hide Core, Apply, AllPaced, SleepersRest, AllRested;
    }
  }

  lemma SleepersAppend(cs: seq<Client>, q: seq<Scheduled>, e: Scheduled)
    requires SleepersRest(cs, q) && (e.task.client < |cs| ==> RestedAt(cs[e.task.client], e.when))
    ensures SleepersRest(cs, q + [e])
  {
  }

  lemma SpacingDelay(s: State)
    requires Enabled(s, Delay) && Core(s) && Spacing(s)
    ensures Spacing(Apply(s, Delay))
  {
    var t := Apply(s, Delay);
    assert t == s.(q := PushedLater(s.q, ResumeOnly(s.worker.client), s.worker.when), worker := LoopTest);
    assert Rested(s.clients[s.worker.client], s.worker.client, s.worker, s.now);
    hide Core, Apply, Enabled;
    assert AllRested(t.clients, t.worker, t.now);
    SleepersAppend(s.clients, s.q.scheduled, Scheduled(s.worker.when, ResumeOnly(s.worker.client)));
  }

  lemma SpacingAccept(s: State, fd: int)
    requires Enabled(s, Accept(fd)) && Core(s) && Spacing(s)
    ensures Spacing(Apply(s, Accept(fd)))
  {
    var t, c := Apply(s, Accept(fd)), |s.clients|;
    AcceptEffect(s, fd);
    assert ScheduledFits(s.clients, s.q.scheduled);
    hide Core, Apply, Enabled;
    assert AllPaced(t.clients, t.now);
    assert AllRested(t.clients, t.worker, t.now);
    assert SleepersRest(t.clients, t.q.scheduled);
  }

  /** The worker takes up no client and time goes on. */
  lemma SpacingKept(cs: seq<Client>, w: Worker, v: Worker, now: Time, later: Time)
    requires now <= later && AllPaced(cs, now) && AllRested(cs, w, now)
    requires v == w || (forall c: nat :: InHand(w, c) == 0 && InHand(v, c) == 0)
    ensures AllPaced(cs, later) && AllRested(cs, v, later)
  {
    forall c | 0 <= c < |cs|
      ensures Rested(cs[c], c, v, later)
    {
      assert Rested(cs[c], c, w, now) && (v == w || (InHand(w, c) == 0 && InHand(v, c) == 0));
    }
  }

  lemma SpacingStep(s: State, step: Step)
    requires Enabled(s, step) && Core(s) && Streams(s.file, s.clients, s.worker) && Spacing(s)
    ensures Spacing(Apply(s, step))
  {
    match step
    case Begin => SpacingBegin(s);
    case Resume => SpacingResume(s);
    case TakeNext(top) => SpacingTake(s, top);
    case Delay => SpacingDelay(s);
    case Accept(fd) => SpacingAccept(s, fd);
    case _ =>
      OtherEffect(s, step);
      ScheduleKept(s, step);
      IdleKept(s, step);
      hide Core, Apply, Enabled, Streams;
      SpacingKept(s.clients, s.worker, Apply(s, step).worker, s.now, Apply(s, step).now);
  }

  /** The other steps leave what the worker holds in its hand. */
  lemma IdleKept(s: State, step: Step)
    requires Enabled(s, step)
    requires !step.Accept? && !step.TakeNext? && step != Begin && step != Resume && step != Delay
    ensures var v := Apply(s, step).worker;
      v == s.worker || (forall c: nat :: InHand(s.worker, c) == 0 && InHand(v, c) == 0)
  {
  }
}
