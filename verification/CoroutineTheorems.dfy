/** The coroutine server over whole runs: every interleaving of accept thread, worker and clock. */
module CoroutineTheorems {
  import opened Chunking
  import opened Math
  import opened EventLoops
  import opened CoroutineServer
  import opened CoroutineInvariants
  import opened CoroutineStreams
  import opened CoroutineTiming

  ghost predicate Inv(s: State) {
    && Core(s)
    && Streams(s.file, s.clients, s.worker)
    && Counts(|s.file|, s.clients)
    && Waits(s.q, s.worker, s.notifying)
    && Deadlines(s)
    && Spacing(s)
    && Fifo(s)
    && Stays(s)
  }

  /** The worker is there as long as the server is running. */
  predicate Stays(s: State) { s.q.running ==> s.worker != Exited }

  lemma InvStep(s: State, step: Step)
    requires Inv(s) && Enabled(s, step)
    ensures Inv(Apply(s, step))
  {
    hide Core, Streams, Counts, Waits, Deadlines, Spacing, Fifo, Stays, Apply, Enabled;
    CoreStep(s, step);
    StreamsStep(s, step);
    CountsStep(s, step);
    WaitsStep(s, step);
    DeadlinesStep(s, step);
    SpacingStep(s, step);
    FifoStep(s, step);
    StaysStep(s, step);
  }

  lemma StaysStep(s: State, step: Step)
    requires Enabled(s, step) && Stays(s)
    ensures Stays(Apply(s, step))
  {
  }

  lemma FileKept(s: State, step: Step)
    requires Enabled(s, step)
    ensures Apply(s, step).file == s.file
  {
  }

  lemma {:induction false} InvRun(s: State, steps: seq<Step>)
    requires Inv(s) && IsRun(s, steps)
    ensures Inv(After(s, steps)) && After(s, steps).file == s.file
    decreases |steps|
  {
    EmptyRun(s);
    hide *;
    if steps != [] {
      RunHead(s, steps);
      InvStep(s, steps[0]);
      FileKept(s, steps[0]);
      InvRun(Apply(s, steps[0]), steps[1..]);
    }
  }

  lemma Reached(file: string, steps: seq<Step>)
    requires IsRun(Init(file), steps)
    ensures Inv(After(Init(file), steps)) && After(Init(file), steps).file == file
  {
    InitInv(file);
    hide *;
    InvRun(Init(file), steps);
  }

  lemma InitInv(file: string)
    ensures Inv(Init(file)) && Init(file).file == file
  {
    CoreInit(file);
    hide Core;
  }

  // ---- what can happen next ----

  /** Nothing that can happen is left out of a run. While the server runs and no signal is due, every client with a
      number that no live client holds is accepted, and none with another; it can be stopped; a signal that is due can
      be given; a blocked worker can wake up without a cause; a wait ends at its deadline; any time can pass. */
  lemma WhatCanHappen(file: string, steps: seq<Step>)
    requires IsRun(Init(file), steps)
    ensures var s := After(Init(file), steps);
      && (s.q.running && !s.notifying ==> forall fd :: Enabled(s, Accept(fd)) <==>
            fd >= 0 && forall c :: 0 <= c < |s.clients| && s.clients[c].frame != Finished ==> s.clients[c].fd != fd)
      && (s.q.running && !s.notifying ==> Enabled(s, Stop))
      && (s.notifying ==> Enabled(s, Notify))
      && (s.worker.Blocked? ==> Enabled(s, Spurious))
      && (s.worker.Blocked? || s.worker.Signalled? ==>
            (Enabled(s, Timeout) <==> s.worker.until.At? && s.worker.until.when <= s.now))
      && forall dt: nat :: Enabled(s, Tick(dt))
  {
    hide *;
    Reached(file, steps);
    var s := After(Init(file), steps);
    if s.q.running && !s.notifying {
      forall fd
        ensures Enabled(s, Accept(fd)) <==>
          fd >= 0 && forall c :: 0 <= c < |s.clients| && s.clients[c].frame != Finished ==> s.clients[c].fd != fd
      {
        CanAccept(s, fd);
      }
    }
    OthersCanHappen(s);
  }

  lemma OthersCanHappen(s: State)
    ensures s.q.running && !s.notifying ==> Enabled(s, Stop)
    ensures s.notifying ==> Enabled(s, Notify)
    ensures s.worker.Blocked? ==> Enabled(s, Spurious)
    ensures s.worker.Blocked? || s.worker.Signalled? ==>
      (Enabled(s, Timeout) <==> s.worker.until.At? && s.worker.until.when <= s.now)
    ensures forall dt: nat :: Enabled(s, Tick(dt))
  {
  }

  lemma CanAccept(s: State, fd: int)
    requires Inv(s) && s.q.running && !s.notifying
    ensures Enabled(s, Accept(fd)) <==>
      fd >= 0 && forall c :: 0 <= c < |s.clients| && s.clients[c].frame != Finished ==> s.clients[c].fd != fd
  {
    OwnersAreLive(s, fd);
    hide Inv, Core;
  }

  lemma OwnersAreLive(s: State, fd: int)
    requires Inv(s)
    ensures fd !in s.owner <==>
      forall c :: 0 <= c < |s.clients| && s.clients[c].frame != Finished ==> s.clients[c].fd != fd
  {
    assert Descriptors(s.clients, s.owner);
    hide Inv, Core;
    if fd in s.owner {
      assert Live(s.clients, s.owner[fd]);
    } else {
      assert forall c :: 0 <= c < |s.clients| && s.clients[c].frame != Finished ==> Live(s.clients, c);
    }
  }

  /** The server runs until it is stopped, and not after. */
  lemma {:induction false} RunsUntilStopped(s: State, steps: seq<Step>)
    requires IsRun(s, steps)
    ensures After(s, steps).q.running <==> s.q.running && Stop !in steps
    decreases |steps|
  {
    EmptyRun(s);
    hide Apply, Enabled, IsRun, After;
    if steps != [] {
      RunHead(s, steps);
      RunningStep(s, steps[0]);
      RunsUntilStopped(Apply(s, steps[0]), steps[1..]);
      assert steps == [steps[0]] + steps[1..];
    }
  }

  lemma RunningStep(s: State, step: Step)
    requires Enabled(s, step)
    ensures Apply(s, step).q.running <==> s.q.running && step != Stop
  {
    QueueSteps(s, step);
    hide Apply, Enabled;
  }

  /** Every client is waiting for its header, and the descriptor numbers in use are those below their number. */
  ghost predicate JustAccepted(s: State, n: nat) {
    && s.q.running && !s.notifying && s.worker == LoopTest && |s.clients| == n
    && (forall c :: 0 <= c < n ==> s.clients[c].frame == AtHeader)
    && forall fd :: fd in s.owner ==> fd < n
  }

  lemma {:induction false} AcceptMore(s: State, n: nat, m: nat) returns (steps: seq<Step>)
    requires JustAccepted(s, n) && n <= m
    ensures IsRun(s, steps) && JustAccepted(After(s, steps), m)
    decreases m - n
  {
    if n == m {
      steps := [];
    } else {
      var t := Apply(s, Accept(n));
      var u := Apply(t, Notify);
      AcceptEffect(s, n);
      assert JustAccepted(u, n + 1);
      hide Apply, Enabled, JustAccepted;
      steps := AcceptMore(u, n + 1, m);
      OneMore(t, Notify, steps);
      OneMore(s, Accept(n), [Notify] + steps);
      steps := [Accept(n)] + ([Notify] + steps);
    }
  }

  lemma OneMore(s: State, step: Step, steps: seq<Step>)
    requires Enabled(s, step) && IsRun(Apply(s, step), steps)
    ensures IsRun(s, [step] + steps) && After(s, [step] + steps) == After(Apply(s, step), steps)
  {
    assert ([step] + steps)[1..] == steps;
  }

  /** Any number of clients can be served at once. */
  lemma ManyAtOnce(file: string, n: nat) returns (steps: seq<Step>)
    ensures IsRun(Init(file), steps)
    ensures var s := After(Init(file), steps);
      |s.clients| == n && forall c :: 0 <= c < n ==> s.clients[c].frame != Finished
  {
    assert JustAccepted(Init(file), 0);
    hide IsRun, After;
    steps := AcceptMore(Init(file), 0, n);
  }

  // ---- safety ----

  /** At every moment a live client has exactly one continuation in the system, and a finished or unknown one
      has none; a task the worker is about to run finds its coroutine suspended at the matching `co_await`. */
  lemma ExactlyOneContinuation(file: string, steps: seq<Step>, c: nat)
    requires IsRun(Init(file), steps)
    ensures var s := After(Init(file), steps);
      && Continuations(s.q, s.worker, c) == (if Live(s.clients, c) then 1 else 0)
      && (s.worker.Executing? ==> TaskFits(s.clients, s.worker.task) && Enabled(s, Begin))
      && (s.worker.Resuming? ==> Live(s.clients, s.worker.client) && Enabled(s, Resume))
  {
    Reached(file, steps);
    var s := After(Init(file), steps);
    if s.worker.Executing? {
      assert FrameInRange(|file|, s.clients[s.worker.task.client].frame);
    }
  }

  /** A blocked worker has something to wait for: without a deadline nothing is scheduled, with one it is the
      least of the schedule; and if the wait should be over, the signal that ends it is still to come. */
  lemma NoLostWakeup(file: string, steps: seq<Step>)
    requires IsRun(Init(file), steps)
    ensures var s := After(Init(file), steps);
      s.worker.Blocked? ==>
        && (s.worker.until == Untimed <==> s.q.scheduled == [])
        && (s.worker.until.At? ==>
              exists i: nat :: IsEarliest(s.q.scheduled, i) && s.q.scheduled[i].when == s.worker.until.when)
        && ((s.q.immediate != [] || !s.q.running) ==> s.notifying)
  {
    Reached(file, steps);
  }

  /** The queue-level reason: `post_delayed` may run beside a waiting worker exactly when that worker's wait
      already ends by the new deadline. Only coroutines the worker itself resumed call it, so the case where
      the condition fails does not arise in the server. */
  lemma DelayedPostBesideAWait(until: Until, q: seq<Scheduled>, e: Scheduled)
    requires Covers(until, q)
    ensures Covers(until, q + [e]) <==> until.At? && until.when <= e.when
  {
    assert (q + [e])[|q|] == e;
    if until.At? && until.when <= e.when {
      var i: nat :| IsEarliest(q, i) && q[i].when == until.when;
      assert IsEarliest(q + [e], i) && (q + [e])[i].when == until.when;
    }
  }

  function Pieces(stream: seq<Sent>): seq<string> {
    if stream == [] then [] else Pieces(stream[..|stream| - 1]) + [stream[|stream| - 1].data]
  }

  lemma {:induction false} PiecesAt(stream: seq<Sent>)
    ensures |Pieces(stream)| == |stream|
    ensures forall k :: 0 <= k < |stream| ==> Pieces(stream)[k] == stream[k].data
  {
    if stream != [] {
      PiecesAt(stream[..|stream| - 1]);
    }
  }

  /** What a client has been sent is at all times a prefix of the sequential script: nothing, or the header and
      then the first pieces of the file; a finished client has been sent exactly the header and the file. */
  lemma StreamsFollowScript(file: string, steps: seq<Step>, c: nat)
    requires IsRun(Init(file), steps)
    requires c < |After(Init(file), steps).clients|
    ensures var client := After(Init(file), steps).clients[c];
      var sent := Pieces(client.stream);
      && sent <= Script(Header(|file|), file)
      && (sent == [] || Concat(sent) == Header(|file|) + file[..Min(100 * (|sent| - 1), |file|)])
      && (client.frame == Finished ==> sent == Script(Header(|file|), file) && Concat(sent) == Header(|file|) + file)
  {
    hide *;
    Reached(file, steps);
    var s := After(Init(file), steps);
    StreamOf(s, c);
    FittingStream(file, s.clients[c], s.worker == Resuming(c));
  }

  lemma StreamOf(s: State, c: nat)
    requires Inv(s) && c < |s.clients|
    ensures StreamFits(s.file, s.clients[c], s.worker == Resuming(c))
  {
    hide Core, Counts, Waits, Deadlines, Spacing, Fifo, Stays, StreamFits;
  }

  /** What a stream that fits its frame holds. */
  lemma FittingStream(file: string, client: Client, handed: bool)
    requires StreamFits(file, client, handed)
    ensures var script, sent := Script(Header(|file|), file), Pieces(client.stream);
      && sent <= script
      && (sent == [] || Concat(sent) == Header(|file|) + file[..Min(100 * (|sent| - 1), |file|)])
      && (client.frame == Finished ==> sent == script && Concat(sent) == Header(|file|) + file)
  {
    hide *;
    var header := Header(|file|);
    var script, n := Script(header, file), |client.stream|;
    PiecesArePrefix(file, client, handed);
    if n > 0 {
      ScriptPrefix(header, file, n - 1);
    }
    if client.frame == Finished {
      ScriptComplete(header, file);
      assert script[..n] == script;
    }
  }

  lemma PiecesArePrefix(file: string, client: Client, handed: bool)
    requires StreamFits(file, client, handed)
    ensures var script, n := Script(Header(|file|), file), |client.stream|;
      && n <= |script| == 1 + Blocks(|file|) && Pieces(client.stream) == script[..n]
      && (client.frame == Finished ==> n == |script|)
  {
    ScriptAt(Header(|file|), file);
    PiecesAt(client.stream);
    hide Script, Pieces, Header;
    assert Pieces(client.stream) == Script(Header(|file|), file)[..|client.stream|];
  }

  lemma FinishedStep(s: State, step: Step, c: nat)
    requires Core(s) && Enabled(s, step) && c < |s.clients| && s.clients[c].frame == Finished
    ensures c < |Apply(s, step).clients| && Apply(s, step).clients[c] == s.clients[c]
  {
    match step
    case Begin =>
      OwnDescriptor(s);
      BeginEffect(s);
      hide Core, Apply, Enabled;
    case Resume =>
      assert Live(s.clients, s.worker.client);
      ResumeEffect(s);
      hide Core, Apply, Enabled;
    case Accept(fd) =>
      AcceptEffect(s, fd);
      hide Core, Apply, Enabled;
    case _ =>
      OtherEffect(s, step);
      hide *;
  }

  /** Once finished, a client is never touched again: not resumed, and nothing more reaches its connection,
      although its descriptor number may be in use by another client. */
  lemma {:induction false} FinishedIsFinal(s: State, steps: seq<Step>, c: nat)
    requires Inv(s) && IsRun(s, steps) && c < |s.clients| && s.clients[c].frame == Finished
    ensures c < |After(s, steps).clients| && After(s, steps).clients[c] == s.clients[c]
    decreases |steps|
  {
    EmptyRun(s);
    assert Core(s);
    hide *;
    if steps != [] {
      RunHead(s, steps);
      InvStep(s, steps[0]);
      FinishedStep(s, steps[0], c);
      FinishedIsFinal(Apply(s, steps[0]), steps[1..], c);
    }
  }

  /** A send reaches the client it is meant for and no other. */
  lemma SendsReachTheirClient(file: string, steps: seq<Step>, c: nat)
    requires IsRun(Init(file), steps)
    requires After(Init(file), steps).worker == Executing(SendThenResume(c))
    ensures var s := After(Init(file), steps);
      && Enabled(s, Begin) && c < |s.clients|
      && Apply(s, Begin).clients ==
           var piece := Sent(PieceOf(s.file, s.clients[c].frame), s.now);
           s.clients[c := s.clients[c].(stream := s.clients[c].stream + [piece])]
  {
    Reached(file, steps);
    var s := After(Init(file), steps);
    assert FrameInRange(|file|, s.clients[c].frame);
    OwnDescriptor(s);
    BeginEffect(s);
    hide Inv, Core, Apply;
  }

  /** Posted tasks are taken in the order they were posted, none of them twice, none left out. */
  lemma PostedInOrder(file: string, steps: seq<Step>)
    requires IsRun(Init(file), steps)
    ensures var s := After(Init(file), steps); s.taken <= s.posted && s.posted[|s.taken|..] == s.q.immediate
  {
    Reached(file, steps);
  }

  /** After a piece its coroutine is scheduled for exactly 200 ms (in nanoseconds) after it went on, whenever the worker
      gets to scheduling it. */
  lemma PauseIsExact(file: string, steps: seq<Step>)
    requires IsRun(Init(file), steps) && Enabled(After(Init(file), steps), Resume)
    ensures var s := After(Init(file), steps);
      var c, t := s.worker.client, Apply(s, Resume);
      s.clients[c].frame.AtChunk? ==>
        && t.worker == Delaying(c, s.now + 200_000_000)
        && forall dt: nat :: Enabled(Later(t, dt), Delay)
             && Apply(Later(t, dt), Delay).q
                  == s.q.(scheduled := s.q.scheduled + [Scheduled(s.now + 200_000_000, ResumeOnly(c))])
  {
    hide IsRun, After;
    var s := After(Init(file), steps);
    ResumeEffect(s);
    if s.clients[s.worker.client].frame.AtChunk? {
      var t := Apply(s, Resume);
      forall dt: nat
        ensures Enabled(Later(t, dt), Delay)
        ensures Apply(Later(t, dt), Delay).q
          == s.q.(scheduled := s.q.scheduled + [Scheduled(s.now + 200_000_000, ResumeOnly(s.worker.client))])
      {
        QueueSteps(Later(t, dt), Delay);
      }
    }
  }

  /** No scheduled task starts before it is due, scheduled tasks start in the order of their deadlines, and two
      pieces of the file sent to one client are at least 200 ms apart. */
  lemma DeadlinesRespected(file: string, steps: seq<Step>)
    requires IsRun(Init(file), steps)
    ensures var s := After(Init(file), steps);
      && (forall i :: 0 <= i < |s.starts| ==> s.starts[i].due <= s.starts[i].at)
      && (forall i, j :: 0 <= i < j < |s.starts| ==> s.starts[i].due <= s.starts[j].due)
      && (forall c, k :: 0 <= c < |s.clients| && 2 <= k < |s.clients[c].stream| ==>
            s.clients[c].stream[k - 1].at + 200_000_000 <= s.clients[c].stream[k].at)
  {
    Reached(file, steps);
    var s := After(Init(file), steps);
    forall c, k | 0 <= c < |s.clients| && 2 <= k < |s.clients[c].stream|
      ensures s.clients[c].stream[k - 1].at + 200_000_000 <= s.clients[c].stream[k].at
    {
      assert Paced(s.clients[c], s.now);
    }
  }
}
