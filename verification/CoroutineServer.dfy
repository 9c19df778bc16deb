/** The coroutine server as a transition system: the accept thread, the worker thread and the clock take
    steps in any order. A step is what one thread does between two points where the other can interfere. */
module CoroutineServer {
  import opened Decimal
  import opened Chunking
  import opened EventLoops

  /** 200 ms in nanosecond ticks. */
  const SLEEP: Time := 200_000_000

  function Header(size: nat): string {
    "HTTP/1.1 200 OK\r\n" + "Content-Length: " + PrintNat(size) + "\r\n"
    + "Content-Type: text/html\r\n" + "Connection: close\r\n" + "\r\n"
  }

  /** Where a client's coroutine is suspended, with its local `offset`. The two middle forms are the
      two `co_await`s of the loop body. */
  datatype Frame = AtHeader | AtChunk(offset: nat) | AtSleep(offset: nat) | Finished

  datatype Sent = Sent(data: string, at: Time)

  /** `stream` is what the network handed this connection, `resumes` how often its coroutine was resumed. */
  datatype Client = Client(fd: int, frame: Frame, stream: seq<Sent>, resumes: nat)

  datatype Until = Untimed | At(when: Time)

  /** The worker: before the loop test, before the lock, blocked in a wait, signalled but not yet holding the
      lock again, about to run a task, about to resume a coroutine, about to lock inside `post_delayed`
      with the deadline already computed, and gone. */
  datatype Worker =
    | LoopTest | BeforeLock | Blocked(until: Until) | Signalled(until: Until)
    | Executing(task: Task) | Resuming(client: nat) | Delaying(client: nat, when: Time) | Exited

  /** A scheduled task taken from its queue: when it was due and when it was taken. */
  datatype Start = Start(due: Time, at: Time)

  /** `notifying`: the accept thread has changed the queues and has not yet signalled. `owner`: the
      client behind each open descriptor. Histories: the scheduled tasks taken, the tasks posted and those of
      them taken. */
  datatype State = State(file: string, q: Queues, worker: Worker, notifying: bool, clients: seq<Client>,
                         owner: map<int, nat>, now: Time, starts: seq<Start>, posted: seq<Task>, taken: seq<Task>)

  function Init(file: string): State {
    State(file, Queues([], [], true), LoopTest, false, [], map[], 0, [], [], [])
  }

  datatype Step =
    | Accept(fd: int) | Notify | Stop                      // accept thread
    | Test | TakeNext(top: nat) | Recheck | Timeout        // worker, waiting and choosing
    | Begin | Resume | Delay                               // worker, inside a task
    | Spurious | Tick(dt: nat)                             // scheduler and clock

  /** What the awaiter in a suspended frame sends. */
  function PieceOf(file: string, f: Frame): string
    requires f.AtChunk? ==> f.offset < |file|
  {
    if AwaitedBy(file, f).Piece? then AwaitedBy(file, f).data else []
  }

  function Post(s: State, task: Task): State {
    s.(q := Pushed(s.q, task), posted := s.posted + [task])
  }

  /** `send` on a descriptor reaches whichever client owns it now. */
  function Send(s: State, fd: int, data: string): State {
    if fd in s.owner && s.owner[fd] < |s.clients| then
      var c := s.owner[fd];
      s.(clients := s.clients[c := s.clients[c].(stream := s.clients[c].stream + [Sent(data, s.now)])])
    else s
  }

  /** The loop test with `offset`: on to the next send, or out of the loop, through `close`, to the end. */
  function LoopHead(size: nat, offset: nat): Frame {
    if offset < size then AtChunk(offset) else Finished
  }

  /** A coroutine runs from its suspension point to the next one. */
  function Advance(size: nat, f: Frame): Frame {
    match f
    case AtHeader => LoopHead(size, 0)
    case AtChunk(offset) => AtSleep(offset)
    case AtSleep(offset) => LoopHead(size, offset + CHUNK_SIZE)
    case Finished => Finished
  }

  /** What a coroutine does on reaching a suspension point or its end: the data of an `AsyncSend`, the duration of a
      `Sleep`, or the `close` of its descriptor. */
  datatype Awaited = Piece(data: string) | Sleep(duration: Time) | Closed

  function AwaitedBy(file: string, f: Frame): Awaited
    requires f.AtChunk? ==> f.offset < |file|
  {
    match f
    case AtHeader => Piece(Header(|file|))
    case AtChunk(offset) => Piece(ChunkAt(file, offset))
    case AtSleep(_) => Sleep(SLEEP)
    case Finished => Closed
  }

  /** One client's coroutine frame: the suspension point and the loop variable. */
  datatype Point = HeaderSend | ChunkSend | Pause | Ended

  class Coroutine {
    var point: Point
    var offset: nat

    ghost function Abs(): Frame
      reads this
    {
      match point
      case HeaderSend => AtHeader
      case ChunkSend => AtChunk(offset)
      case Pause => AtSleep(offset)
      case Ended => Finished
    }

    constructor ()
      ensures Abs() == AtHeader
    {
      point, offset := HeaderSend, 0;
    }

    /** The loop test: on to the send of the next piece, or through `close` to the end. */
    method Loop(file: string) returns (awaited: Awaited)
      modifies this
      ensures Abs() == LoopHead(|file|, offset) && offset == old(offset)
      ensures awaited == AwaitedBy(file, Abs())
    {
      if offset < |file| {
        point := ChunkSend;
        var chunk := if |file| - offset > CHUNK_SIZE then CHUNK_SIZE else |file| - offset;
        awaited := Piece(file[offset..offset + chunk]);
      } else {
        point := Ended;
        awaited := Closed;
      }
    }

    /** Runs from one suspension point to the next, and says what is awaited there. */
    method Resume(file: string) returns (awaited: Awaited)
      requires point != Ended
      modifies this
      ensures Abs() == Advance(|file|, old(Abs()))
      ensures awaited == AwaitedBy(file, Abs())
    {
      match point {
        case HeaderSend =>
          offset := 0;
          awaited := Loop(file);
        case ChunkSend =>
          point := Pause;
          awaited := Sleep(SLEEP);
        case Pause =>
          offset := offset + CHUNK_SIZE;
          awaited := Loop(file);
        case Ended =>
          assert false;
      }
    }
  }

  function Resumed(size: nat, client: Client): Client {
    client.(frame := Advance(size, client.frame), resumes := client.resumes + 1)
  }

  /** Resuming client `c`: what it does on reaching its next suspension point, or its end. */
  function ResumeClient(s: State, c: nat): State
    requires c < |s.clients|
  {
    var client := Resumed(|s.file|, s.clients[c]);
    var t := s.(clients := s.clients[c := client]);
    match client.frame
    case AtSleep(_) => t.(worker := Delaying(c, s.now + SLEEP))
    case Finished => t.(owner := s.owner - {client.fd}, worker := LoopTest)
    case _ => Post(t, SendThenResume(c)).(worker := LoopTest)
  }

  predicate Enabled(s: State, step: Step) {
    match step
    case Accept(fd) => s.q.running && !s.notifying && fd >= 0 && fd !in s.owner
    case Notify => s.notifying
    case Stop => s.q.running && !s.notifying
    case Test => s.worker.LoopTest?
    case TakeNext(top) =>
      s.worker.BeforeLock? && (s.q.immediate == [] && s.q.scheduled != [] ==> IsEarliest(s.q.scheduled, top))
    case Recheck => s.worker.Signalled?
    case Timeout => (s.worker.Blocked? || s.worker.Signalled?) && s.worker.until.At? && s.worker.until.when <= s.now
    case Begin => s.worker.Executing? && s.worker.task.client < |s.clients|
      && var f := s.clients[s.worker.task.client].frame; (f.AtChunk? ==> f.offset < |s.file|)
    case Resume => s.worker.Resuming? && s.worker.client < |s.clients|
    case Delay => s.worker.Delaying?
    case Spurious => s.worker.Blocked?
    case Tick(dt) => true
  }

  /** After the critical section: run the task, or evaluate the wait predicate under the same lock. */
  function AfterTake(s: State, taken: Taken, q: Queues): State {
    match taken
    case Run(task) =>
      s.(q := q, worker := Executing(task))
    case NoDeadline =>
      s.(worker := if WaitOver(s.q) then LoopTest else Blocked(Untimed))
    case Deadline(when) =>
      s.(worker := if WaitOver(s.q) then LoopTest else Blocked(At(when)))
  }

  /** The history entry written when a scheduled task is taken. */
  function Started(s: State, top: nat): seq<Start>
    requires Enabled(s, TakeNext(top))
  {
    if s.q.immediate == [] && s.q.scheduled != [] && s.q.scheduled[top].when <= s.now
    then s.starts + [Start(s.q.scheduled[top].when, s.now)] else s.starts
  }

  function Apply(s: State, step: Step): State
    requires Enabled(s, step)
  {
    match step
    case Accept(fd) =>
      var c := |s.clients|;
      Post(s, SendThenResume(c))
        .(clients := s.clients + [Client(fd, AtHeader, [], 0)], owner := s.owner[fd := c], notifying := true)
    case Notify =>
      s.(notifying := false, worker := if s.worker.Blocked? then Signalled(s.worker.until) else s.worker)
    case Stop =>
      s.(q := Stopped(s.q), notifying := true)
    case Test =>
      s.(worker := if s.q.running then BeforeLock else Exited)
    case TakeNext(top) =>
      var (taken, q) := Take(s.q, s.now, top);
      AfterTake(s, taken, q)
        .(starts := Started(s, top), taken := s.taken + if s.q.immediate == [] then [] else s.q.immediate[..1])
    case Recheck =>
      s.(worker := if WaitOver(s.q) then LoopTest else Blocked(s.worker.until))
    case Timeout =>
      s.(worker := LoopTest)
    case Begin =>
      var c := s.worker.task.client;
      var client := s.clients[c];
      (if s.worker.task.SendThenResume? then Send(s, client.fd, PieceOf(s.file, client.frame)) else s)
        .(worker := Resuming(c))
    case Resume =>
      ResumeClient(s, s.worker.client)
    case Delay =>
      s.(q := PushedLater(s.q, ResumeOnly(s.worker.client), s.worker.when), worker := LoopTest)
    case Spurious =>
      s.(worker := Signalled(s.worker.until))
    case Tick(dt) =>
      s.(now := s.now + dt)
  }

  // ---- the effect of each kind of step on the clients ----

  /** The state some time later. */
  function Later(s: State, dt: nat): State { s.(now := s.now + dt) }

  lemma TickEffect(s: State, dt: nat)
    ensures Apply(s, Tick(dt)) == Later(s, dt)
  {
  }

  lemma ResumeEffect(s: State)
    requires Enabled(s, Resume)
    ensures var t, c := Apply(s, Resume), s.worker.client;
      var y := Resumed(|s.file|, s.clients[c]);
      var posts := !y.frame.AtSleep? && !y.frame.Finished?;
      && t.clients == s.clients[c := y] && t.file == s.file && t.now == s.now && t.notifying == s.notifying
      && t.owner == (if y.frame.Finished? then s.owner - {y.fd} else s.owner)
      && t.q == (if posts then Pushed(s.q, SendThenResume(c)) else s.q)
      && t.worker == (if y.frame.AtSleep? then Delaying(c, s.now + SLEEP) else LoopTest)
  {
  }

  /** The client whose task begins, once its piece is out. */
  function Begun(s: State, client: Client): Client
    requires client.frame.AtChunk? ==> client.frame.offset < |s.file|
  {
    if s.worker.Executing? && s.worker.task.SendThenResume?
    then client.(stream := client.stream + [Sent(PieceOf(s.file, client.frame), s.now)]) else client
  }

  lemma BeginEffect(s: State)
    requires Enabled(s, Begin)
    requires var c := s.worker.task.client; s.clients[c].fd in s.owner && s.owner[s.clients[c].fd] == c
    ensures var c := s.worker.task.client;
      Apply(s, Begin) == s.(clients := s.clients[c := Begun(s, s.clients[c])], worker := Resuming(c))
  {
  }

  lemma AcceptEffect(s: State, fd: int)
    requires Enabled(s, Accept(fd))
    ensures var t := Apply(s, Accept(fd));
      && t.clients == s.clients + [Client(fd, AtHeader, [], 0)] && t.owner == s.owner[fd := |s.clients|]
      && t.q == Pushed(s.q, SendThenResume(|s.clients|)) && t.worker == s.worker
      && t.file == s.file && t.now == s.now && t.notifying
  {
  }

  /** A pass through the critical section: an immediate task is taken, or a due scheduled one, or none. */
  lemma TakeEffect(s: State, top: nat)
    requires Enabled(s, TakeNext(top))
    ensures var t := Apply(s, TakeNext(top));
      && t.clients == s.clients && t.owner == s.owner && t.file == s.file && t.now == s.now && t.posted == s.posted
      && t.notifying == s.notifying
      && if s.q.immediate != [] then
           && t.q == s.q.(immediate := s.q.immediate[1..]) && t.worker == Executing(s.q.immediate[0])
           && t.starts == s.starts && t.taken == s.taken + s.q.immediate[..1]
         else if s.q.scheduled != [] && s.q.scheduled[top].when <= s.now then
           && t.q == s.q.(scheduled := Remove(s.q.scheduled, top)) && t.worker == Executing(s.q.scheduled[top].task)
           && t.starts == s.starts + [Start(s.q.scheduled[top].when, s.now)] && t.taken == s.taken
         else
           && t.q == s.q && t.starts == s.starts && t.taken == s.taken && (t.worker.LoopTest? || t.worker.Blocked?)
  {
  }

  lemma OtherEffect(s: State, step: Step)
    requires Enabled(s, step) && !step.Accept? && step != Begin && step != Resume
    ensures var t := Apply(s, step); t.clients == s.clients && t.owner == s.owner && t.file == s.file
  {
  }

  /** Each step changes the queues as the event loop's methods do, and no other step changes them. Changes made by the
      accept thread are signalled next; the worker makes its own when it is not waiting. */
  lemma QueueSteps(s: State, step: Step)
    requires Enabled(s, step)
    ensures Apply(s, step).q == match step
      case Accept(_) => Pushed(s.q, SendThenResume(|s.clients|))
      case Stop => Stopped(s.q)
      case TakeNext(top) => Take(s.q, s.now, top).1
      case Resume =>
        if AwaitedBy(s.file, Advance(|s.file|, s.clients[s.worker.client].frame)).Piece?
        then Pushed(s.q, SendThenResume(s.worker.client)) else s.q
      case Delay => PushedLater(s.q, ResumeOnly(s.worker.client), s.worker.when)
      case _ => s.q
    ensures step.Accept? || step.Stop? ==> Apply(s, step).notifying
    ensures step == Resume || step == Delay ==> !s.worker.Blocked?
    ensures step == Notify ==> !Apply(s, step).worker.Blocked?
  {
  }

  /** `steps` is a run from `s`; `After` is where it ends. */
  predicate IsRun(s: State, steps: seq<Step>)
    decreases |steps|
  {
    steps == [] || (Enabled(s, steps[0]) && IsRun(Apply(s, steps[0]), steps[1..]))
  }

  function After(s: State, steps: seq<Step>): State
    requires IsRun(s, steps)
    decreases |steps|
  {
    if steps == [] then s else After(Apply(s, steps[0]), steps[1..])
  }

  lemma RunHead(s: State, steps: seq<Step>)
    requires IsRun(s, steps) && steps != []
    ensures Enabled(s, steps[0]) && IsRun(Apply(s, steps[0]), steps[1..])
    ensures After(s, steps) == After(Apply(s, steps[0]), steps[1..])
  {
  }

  lemma EmptyRun(s: State)
    ensures IsRun(s, []) && After(s, []) == s
  {
  }
}
