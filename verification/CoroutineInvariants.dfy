/** What every step of the coroutine server keeps. */
module CoroutineInvariants {
  import opened Chunking
  import opened EventLoops
  import opened CoroutineServer

  // ---- one continuation for each live client ----

  /** How often client `c` occurs in the immediate queue. */
  function Posted(q: seq<Task>, c: nat): nat {
    if q == [] then 0 else Posted(q[..|q| - 1], c) + if q[|q| - 1].client == c then 1 else 0
  }

  /** How often client `c` occurs in the scheduled queue. */
  function Asleep(q: seq<Scheduled>, c: nat): nat {
    if q == [] then 0 else Asleep(q[..|q| - 1], c) + if q[|q| - 1].task.client == c then 1 else 0
  }

  /** Whether the worker holds a continuation of client `c`. */
  function InHand(w: Worker, c: nat): nat {
    match w
    case Executing(task) => if task.client == c then 1 else 0
    case Resuming(d) => if d == c then 1 else 0
    case Delaying(d, _) => if d == c then 1 else 0
    case _ => 0
  }

  /** The number of continuations of client `c` in the whole system. */
  function Continuations(q: Queues, w: Worker, c: nat): nat {
    Posted(q.immediate, c) + Asleep(q.scheduled, c) + InHand(w, c)
  }

  predicate Live(cs: seq<Client>, c: nat) { c < |cs| && cs[c].frame != Finished }

  ghost predicate OneContinuation(cs: seq<Client>, q: Queues, w: Worker) {
    forall c: nat :: Continuations(q, w, c) == if Live(cs, c) then 1 else 0
  }

  // ---- each continuation is of the kind its frame waits for ----

  predicate FrameInRange(size: nat, f: Frame) {
    (f.AtChunk? || f.AtSleep?) ==> f.offset < size && f.offset % CHUNK_SIZE == 0
  }

  predicate AwaitsSend(cs: seq<Client>, c: nat) { Live(cs, c) && !cs[c].frame.AtSleep? }

  predicate AwaitsSleep(cs: seq<Client>, c: nat) { c < |cs| && cs[c].frame.AtSleep? }

  predicate TaskFits(cs: seq<Client>, t: Task) {
    if t.SendThenResume? then AwaitsSend(cs, t.client) else AwaitsSleep(cs, t.client)
  }

  ghost predicate FramesInRange(size: nat, cs: seq<Client>) {
    forall c :: 0 <= c < |cs| ==> FrameInRange(size, cs[c].frame)
  }

  ghost predicate ImmediateFits(cs: seq<Client>, q: seq<Task>) {
    forall i :: 0 <= i < |q| ==> q[i].SendThenResume? && TaskFits(cs, q[i])
  }

  ghost predicate ScheduledFits(cs: seq<Client>, q: seq<Scheduled>) {
    forall i :: 0 <= i < |q| ==> q[i].task.ResumeOnly? && TaskFits(cs, q[i].task)
  }

  predicate WorkerFits(cs: seq<Client>, w: Worker) {
    match w
    case Executing(task) => TaskFits(cs, task)
    case Resuming(c) => Live(cs, c)
    case Delaying(c, _) => AwaitsSleep(cs, c)
    case _ => true
  }

  ghost predicate Shape(size: nat, cs: seq<Client>, q: Queues, w: Worker) {
    FramesInRange(size, cs) && ImmediateFits(cs, q.immediate) && ScheduledFits(cs, q.scheduled) && WorkerFits(cs, w)
  }

  // ---- descriptors ----

  ghost predicate Descriptors(cs: seq<Client>, owner: map<int, nat>) {
    && (forall c :: 0 <= c < |cs| && Live(cs, c) ==> cs[c].fd in owner && owner[cs[c].fd] == c)
    && (forall fd :: fd in owner ==> Live(cs, owner[fd]) && cs[owner[fd]].fd == fd)
  }

  ghost predicate Core(s: State) {
    && OneContinuation(s.clients, s.q, s.worker)
    && Shape(|s.file|, s.clients, s.q, s.worker)
    && Descriptors(s.clients, s.owner)
  }

  // ---- counting in the queues ----

  lemma PostedAppend(q: seq<Task>, t: Task)
    ensures forall c: nat :: Posted(q + [t], c) == Posted(q, c) + if t.client == c then 1 else 0
  {
    assert (q + [t])[..|q|] == q;
  }

  lemma AsleepAppend(q: seq<Scheduled>, e: Scheduled)
    ensures forall c: nat :: Asleep(q + [e], c) == Asleep(q, c) + if e.task.client == c then 1 else 0
  {
    assert (q + [e])[..|q|] == q;
  }

  lemma {:induction false} PostedTail(q: seq<Task>, c: nat)
    requires q != []
    ensures Posted(q, c) == Posted(q[1..], c) + if q[0].client == c then 1 else 0
  {
    if |q| > 1 {
      PostedTail(q[..|q| - 1], c);
      assert q[1..][..|q| - 2] == q[..|q| - 1][1..];
    }
  }

  lemma {:induction false} AsleepRemove(q: seq<Scheduled>, i: nat, c: nat)
    requires i < |q|
    ensures Asleep(q, c) == Asleep(Remove(q, i), c) + if q[i].task.client == c then 1 else 0
  {
    var n := |q| - 1;
    if i == n {
      assert Remove(q, i) == q[..n];
    } else {
      AsleepRemove(q[..n], i, c);
      assert Remove(q, i)[..n - 1] == Remove(q[..n], i);
    }
  }

  lemma {:induction false} PostedMember(q: seq<Task>, i: nat)
    requires i < |q|
    ensures Posted(q, q[i].client) >= 1
  {
    if i < |q| - 1 {
      PostedMember(q[..|q| - 1], i);
    }
  }

  lemma {:induction false} AsleepMember(q: seq<Scheduled>, i: nat)
    requires i < |q|
    ensures Asleep(q, q[i].task.client) >= 1
  {
    if i < |q| - 1 {
      AsleepMember(q[..|q| - 1], i);
    }
  }

  /** What the worker holds is in no queue. */
  lemma NotQueued(cs: seq<Client>, q: Queues, w: Worker, c: nat)
    requires OneContinuation(cs, q, w) && InHand(w, c) == 1
    ensures forall i :: 0 <= i < |q.immediate| ==> q.immediate[i].client != c
    ensures forall i :: 0 <= i < |q.scheduled| ==> q.scheduled[i].task.client != c
  {
    assert Continuations(q, w, c) <= 1;
    forall i | 0 <= i < |q.immediate|
      ensures q.immediate[i].client != c
    {
      PostedMember(q.immediate, i);
    }
    forall i | 0 <= i < |q.scheduled|
      ensures q.scheduled[i].task.client != c
    {
      AsleepMember(q.scheduled, i);
    }
  }

  lemma CoreInit(file: string)
    ensures Core(Init(file))
  {
  }

  // ---- one lemma for each step that moves a continuation ----

  lemma OneTake(s: State, top: nat)
    requires Enabled(s, TakeNext(top)) && OneContinuation(s.clients, s.q, s.worker)
    ensures var t := Apply(s, TakeNext(top)); OneContinuation(t.clients, t.q, t.worker)
  {
    var t := Apply(s, TakeNext(top));
    TakeEffect(s, top);
    assert Enabled(s, TakeNext(top));
    hide Apply, Posted, Asleep;
    forall c: nat
      ensures Continuations(t.q, t.worker, c) == Continuations(s.q, s.worker, c)
    {
      if s.q.immediate != [] {
        PostedTail(s.q.immediate, c);
      } else if s.q.scheduled != [] && s.q.scheduled[top].when <= s.now {
        AsleepRemove(s.q.scheduled, top, c);
      }
    }
  }

  lemma OneAccept(s: State, fd: int)
    requires Enabled(s, Accept(fd)) && OneContinuation(s.clients, s.q, s.worker)
    ensures var t := Apply(s, Accept(fd)); OneContinuation(t.clients, t.q, t.worker)
  {
    PostedAppend(s.q.immediate, SendThenResume(|s.clients|));
    AcceptEffect(s, fd);
    var t := Apply(s, Accept(fd));
    hide Apply, Enabled, Posted, Asleep, InHand;
    forall c: nat
      ensures Continuations(t.q, t.worker, c) == if Live(t.clients, c) then 1 else 0
    {
      assert Continuations(s.q, s.worker, c) == if Live(s.clients, c) then 1 else 0;
    }
  }

  lemma OneResume(s: State)
    requires Enabled(s, Resume) && OneContinuation(s.clients, s.q, s.worker) && Live(s.clients, s.worker.client)
    ensures var t := Apply(s, Resume); OneContinuation(t.clients, t.q, t.worker)
  {
    var d := s.worker.client;
    assert s.worker == Resuming(d) && d < |s.clients|;
    hide Apply, Enabled, Posted, Asleep, Advance, Pushed;
    ResumeEffect(s);
    var t := Apply(s, Resume);
    forall c: nat
      ensures Continuations(t.q, t.worker, c) == if Live(t.clients, c) then 1 else 0
    {
      OnlyItsOwn(s.clients, s.q, d, Resumed(|s.file|, s.clients[d]), s.now + SLEEP, c);
    }
  }

  /** Resuming client `d`, which becomes `y`: its continuation moves from the worker to where `y` says, and nobody
      else's moves. */
  lemma OnlyItsOwn(cs: seq<Client>, q: Queues, d: nat, y: Client, when: Time, c: nat)
    requires OneContinuation(cs, q, Resuming(d)) && Live(cs, d)
    ensures var posts := !y.frame.AtSleep? && !y.frame.Finished?;
      Continuations(if posts then Pushed(q, SendThenResume(d)) else q,
                    if y.frame.AtSleep? then Delaying(d, when) else LoopTest, c)
        == if Live(cs[d := y], c) then 1 else 0
  {
    hide Posted, Asleep;
    PostedAppend(q.immediate, SendThenResume(d));
    assert Continuations(q, Resuming(d), c) == if Live(cs, c) then 1 else 0;
  }

  lemma OneDelay(s: State)
    requires Enabled(s, Delay) && OneContinuation(s.clients, s.q, s.worker)
    ensures var t := Apply(s, Delay); OneContinuation(t.clients, t.q, t.worker)
  {
    AsleepAppend(s.q.scheduled, Scheduled(s.worker.when, ResumeOnly(s.worker.client)));
    var t := Apply(s, Delay);
    forall c: nat
      ensures Continuations(t.q, t.worker, c) == Continuations(s.q, s.worker, c)
    {
    }
  }

  lemma OneStep(s: State, step: Step)
    requires Enabled(s, step) && OneContinuation(s.clients, s.q, s.worker)
    requires step.Resume? ==> Live(s.clients, s.worker.client)
    ensures var t := Apply(s, step); OneContinuation(t.clients, t.q, t.worker)
  {
    match step
    case Accept(fd) => OneAccept(s, fd);
    case TakeNext(top) => OneTake(s, top);
    case Resume => OneResume(s);
    case Delay => OneDelay(s);
    case _ =>
      var t := Apply(s, step);
      forall c: nat
        ensures Continuations(t.q, t.worker, c) == Continuations(s.q, s.worker, c)
        ensures Live(t.clients, c) == Live(s.clients, c)
      {
      }
  }

  /** Changing a client no queue mentions leaves the queued tasks fitting. */
  lemma FitsElsewhere(cs: seq<Client>, q: Queues, c: nat, x: Client)
    requires c < |cs| && ImmediateFits(cs, q.immediate) && ScheduledFits(cs, q.scheduled)
    requires forall i :: 0 <= i < |q.immediate| ==> q.immediate[i].client != c
    requires forall i :: 0 <= i < |q.scheduled| ==> q.scheduled[i].task.client != c
    ensures ImmediateFits(cs[c := x], q.immediate) && ScheduledFits(cs[c := x], q.scheduled)
  {
  }

  lemma ResumedInRange(size: nat, client: Client)
    requires FrameInRange(size, client.frame)
    ensures FrameInRange(size, Resumed(size, client).frame)
    ensures Resumed(size, client).frame != AtHeader
  {
  }

  lemma ShapeKept(size: nat, cs: seq<Client>, c: nat, y: Client)
    requires FramesInRange(size, cs) && c < |cs| && FrameInRange(size, y.frame)
    ensures FramesInRange(size, cs[c := y])
  {
  }

  lemma ShapeResume(s: State)
    requires Enabled(s, Resume) && Core(s)
    ensures var t := Apply(s, Resume); Shape(|t.file|, t.clients, t.q, t.worker)
  {
    var c := s.worker.client;
    var t := Apply(s, Resume);
    NotQueued(s.clients, s.q, s.worker, c);
    ResumeEffect(s);
    ResumedInRange(|s.file|, s.clients[c]);
    var y := t.clients[c];
    FitsElsewhere(s.clients, s.q, c, y);
    ShapeKept(|s.file|, s.clients, c, y);
    hide Apply, Enabled, OneContinuation, Descriptors, Advance, FrameInRange, FramesInRange;
    assert Live(s.clients, c);
    assert t.q != s.q ==> t.q == Pushed(s.q, SendThenResume(c));
  }

  lemma ShapeTake(s: State, top: nat)
    requires Enabled(s, TakeNext(top)) && Core(s)
    ensures var t := Apply(s, TakeNext(top)); Shape(|t.file|, t.clients, t.q, t.worker)
  {
    var t := Apply(s, TakeNext(top));
    TakeEffect(s, top);
    hide Apply, OneContinuation, Descriptors, FramesInRange;
    assert ImmediateFits(t.clients, t.q.immediate);
    assert ScheduledFits(t.clients, t.q.scheduled);
  }

  lemma ShapeAccept(s: State, fd: int)
    requires Enabled(s, Accept(fd)) && Core(s)
    ensures var t := Apply(s, Accept(fd)); Shape(|t.file|, t.clients, t.q, t.worker)
  {
    var t := Apply(s, Accept(fd));
    AcceptEffect(s, fd);
    hide Apply, Enabled, OneContinuation, Descriptors;
    assert FramesInRange(|t.file|, t.clients);
    assert ImmediateFits(t.clients, t.q.immediate);
    assert ScheduledFits(t.clients, t.q.scheduled);
  }

  /** The task the worker is about to run belongs to a live client, the owner of its descriptor. */
  lemma OwnDescriptor(s: State)
    requires Core(s) && Enabled(s, Begin)
    ensures var c := s.worker.task.client;
      Live(s.clients, c) && s.clients[c].fd in s.owner && s.owner[s.clients[c].fd] == c
  {
    hide OneContinuation;
  }

  lemma ShapeBegin(s: State)
    requires Enabled(s, Begin) && Core(s)
    ensures var t := Apply(s, Begin); Shape(|t.file|, t.clients, t.q, t.worker)
  {
    OwnDescriptor(s);
    BeginEffect(s);
    var c := s.worker.task.client;
    var y := Begun(s, s.clients[c]);
    assert y.frame == s.clients[c].frame;
    hide Apply, Enabled, OneContinuation, Descriptors, Begun;
    SameFrame(|s.file|, s.clients, s.q, c, y);
  }

  /** Replacing a client by one with the same frame changes nothing for the tasks. */
  lemma SameFrame(size: nat, cs: seq<Client>, q: Queues, c: nat, y: Client)
    requires c < |cs| && y.frame == cs[c].frame
    requires FramesInRange(size, cs) && ImmediateFits(cs, q.immediate) && ScheduledFits(cs, q.scheduled)
    ensures FramesInRange(size, cs[c := y]) && ImmediateFits(cs[c := y], q.immediate)
    ensures ScheduledFits(cs[c := y], q.scheduled)
  {
  }

  lemma ShapeStep(s: State, step: Step)
    requires Enabled(s, step) && Core(s)
    ensures var t := Apply(s, step); Shape(|t.file|, t.clients, t.q, t.worker)
  {
    match step
    case Accept(fd) => ShapeAccept(s, fd);
    case Resume => ShapeResume(s);
    case TakeNext(top) => ShapeTake(s, top);
    case Begin => ShapeBegin(s);
    case _ =>
      var t := Apply(s, step);
      assert t.clients == s.clients && t.file == s.file && t.q.immediate == s.q.immediate;
      assert ScheduledFits(t.clients, t.q.scheduled);
  }

  lemma DescriptorsReframe(cs: seq<Client>, owner: map<int, nat>, c: nat, x: Client)
    requires Descriptors(cs, owner) && Live(cs, c) && x.fd == cs[c].fd
    ensures Descriptors(cs[c := x], if x.frame == Finished then owner - {x.fd} else owner)
  {
  }

  lemma DescriptorsResume(s: State)
    requires Enabled(s, Resume) && Core(s)
    ensures var t := Apply(s, Resume); Descriptors(t.clients, t.owner)
  {
    var c := s.worker.client;
    var t := Apply(s, Resume);
    ResumeEffect(s);
    assert Live(s.clients, c);
    DescriptorsReframe(s.clients, s.owner, c, t.clients[c]);
    hide *;
  }

  lemma DescriptorsBegin(s: State)
    requires Enabled(s, Begin) && Core(s)
    ensures var t := Apply(s, Begin); Descriptors(t.clients, t.owner)
  {
    OwnDescriptor(s);
    BeginEffect(s);
    var c := s.worker.task.client;
    var y := Begun(s, s.clients[c]);
    assert y.fd == s.clients[c].fd && y.frame == s.clients[c].frame;
    DescriptorsSame(s.clients, s.owner, c, y);
    hide *;
  }

  lemma DescriptorsSame(cs: seq<Client>, owner: map<int, nat>, c: nat, y: Client)
    requires Descriptors(cs, owner) && c < |cs| && y.fd == cs[c].fd && y.frame == cs[c].frame
    ensures Descriptors(cs[c := y], owner)
  {
  }

  lemma DescriptorsAccept(cs: seq<Client>, owner: map<int, nat>, fd: int)
    requires Descriptors(cs, owner) && fd !in owner
    ensures Descriptors(cs + [Client(fd, AtHeader, [], 0)], owner[fd := |cs|])
  {
  }

  lemma DescriptorsStep(s: State, step: Step)
    requires Enabled(s, step) && Core(s)
    ensures var t := Apply(s, step); Descriptors(t.clients, t.owner)
  {
    match step
    case Resume => DescriptorsResume(s);
    case Begin => DescriptorsBegin(s);
    case Accept(fd) =>
      AcceptEffect(s, fd);
      DescriptorsAccept(s.clients, s.owner, fd);
      hide Apply, Descriptors;
    case _ =>
      OtherEffect(s, step);
      hide Apply, Descriptors;
  }

  lemma CoreStep(s: State, step: Step)
    requires Core(s) && Enabled(s, step)
    ensures Core(Apply(s, step))
  {
    OneStep(s, step);
    ShapeStep(s, step);
    DescriptorsStep(s, step);
  }
}
