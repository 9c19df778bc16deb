/** The event loop of the coroutine server: an immediate FIFO, a deadline-ordered queue and a stop flag,
    each method one critical section under the mutex. */
module EventLoops {

  /** Ticks of the steady clock. */
  type Time = nat

  /** What the two kinds of queued closures do: `AsyncSend` sends and then resumes the coroutine,
      `Sleep` only resumes it. */
  datatype Task = SendThenResume(client: nat) | ResumeOnly(client: nat)

  datatype Scheduled = Scheduled(when: Time, task: Task)

  datatype Queues = Queues(immediate: seq<Task>, scheduled: seq<Scheduled>, running: bool)

  /** Outcome of the worker's critical section. */
  datatype Taken = Run(task: Task) | NoDeadline | Deadline(when: Time)

  /** Position `i` may be the top of the priority queue: no entry is due earlier. */
  predicate IsEarliest(q: seq<Scheduled>, i: nat) {
    i < |q| && forall j :: 0 <= j < |q| ==> q[i].when <= q[j].when
  }

  function Remove<T>(q: seq<T>, i: nat): (r: seq<T>)
    requires i < |q|
  {
    q[..i] + q[i + 1..]
  }

  /** The queues after `post`, `post_delayed` and `stop`. */
  function Pushed(q: Queues, task: Task): Queues { q.(immediate := q.immediate + [task]) }

  function PushedLater(q: Queues, task: Task, when: Time): Queues {
    q.(scheduled := q.scheduled + [Scheduled(when, task)])
  }

  function Stopped(q: Queues): Queues { q.(running := false) }

  /** One pass through the worker's critical section at time `now`, when the priority queue has entry
      `top` in front (ties are broken by `top`). */
  function Take(q: Queues, now: Time, top: nat): (Taken, Queues)
    requires q.immediate == [] && q.scheduled != [] ==> IsEarliest(q.scheduled, top)
  {
    if q.immediate != [] then
      (Run(q.immediate[0]), q.(immediate := q.immediate[1..]))
    else if q.scheduled != [] then
      if q.scheduled[top].when <= now then
        (Run(q.scheduled[top].task), q.(scheduled := Remove(q.scheduled, top)))
      else
        (Deadline(q.scheduled[top].when), q)
    else
      (NoDeadline, q)
  }

  /** The predicate of both waits. */
  predicate WaitOver(q: Queues) { q.immediate != [] || !q.running }

  class EventLoop {
    var immediate: seq<Task>
    var scheduled: seq<Scheduled>
    var running: bool

    ghost function Abs(): Queues
      reads this
    {
      Queues(immediate, scheduled, running)
    }

    constructor ()
      ensures Abs() == Queues([], [], false)
    {
      immediate, scheduled, running := [], [], false;
    }

    method Start()
      modifies this
      ensures Abs() == old(Abs()).(running := true)
    {
      running := true;
    }

    method Stop()
      modifies this
      ensures Abs() == Stopped(old(Abs()))
    {
      running := false;
    }

    method Post(task: Task)
      modifies this
      ensures Abs() == Pushed(old(Abs()), task)
    {
      immediate := immediate + [task];
    }

    /** `now` is the clock as read before the lock is taken. */
    method PostDelayed(task: Task, delay: Time, now: Time)
      modifies this
      ensures Abs() == PushedLater(old(Abs()), task, now + delay)
    {
      var when := now + delay;
      scheduled := scheduled + [Scheduled(when, task)];
    }

    /** The priority queue's top: a position whose deadline is least. */
    method Top() returns (top: nat)
      requires scheduled != []
      ensures IsEarliest(scheduled, top)
    {
      top := 0;
      for i := 1 to |scheduled|
        invariant top < |scheduled|
        invariant forall j :: 0 <= j < i ==> scheduled[top].when <= scheduled[j].when
      {
        if scheduled[i].when < scheduled[top].when {
          top := i;
        }
      }
    }

    /** The worker's critical section up to the decision to run or to wait. An immediate task goes first,
        in FIFO order; a scheduled one is taken only when none earlier exists and it is due. */
    method TakeNext(now: Time) returns (taken: Taken, ghost top: nat)
      modifies this
      ensures old(immediate) == [] && old(scheduled) != [] ==> IsEarliest(old(scheduled), top)
      ensures (taken, Abs()) == Take(old(Abs()), now, top)
    {
      top := 0;
      if immediate != [] {
        taken := Run(immediate[0]);
        immediate := immediate[1..];
      } else if scheduled != [] {
        var t := Top();
        top := t;
        if scheduled[t].when <= now {
          taken := Run(scheduled[t].task);
          scheduled := scheduled[..t] + scheduled[t + 1..];
        } else {
          taken := Deadline(scheduled[t].when);
        }
      } else {
        taken := NoDeadline;
      }
    }
  }
}
