/** What each client of the coroutine server has been sent, and how many resumptions it still needs. */
module CoroutineStreams {
  import opened Chunking
  import opened EventLoops
  import opened CoroutineServer
  import opened CoroutineInvariants

  /** Sends completed for a client suspended in `f`; `handed` says that the send it awaits is already out. */
  function SendsDone(size: nat, f: Frame, handed: bool): nat {
    match f
    case AtHeader => if handed then 1 else 0
    case AtChunk(offset) => 1 + offset / CHUNK_SIZE + if handed then 1 else 0
    case AtSleep(offset) => 2 + offset / CHUNK_SIZE
    case Finished => 1 + Blocks(size)
  }

  /** Resumptions still to come. */
  function Remaining(size: nat, f: Frame): int {
    match f
    case AtHeader => 1 + 2 * Blocks(size)
    case AtChunk(offset) => 2 * (Blocks(size) - offset / CHUNK_SIZE)
    case AtSleep(offset) => 2 * (Blocks(size) - offset / CHUNK_SIZE) - 1
    case Finished => 0
  }

  lemma AdvanceCounts(size: nat, f: Frame)
    requires FrameInRange(size, f) && f != Finished
    ensures FrameInRange(size, Advance(size, f))
    ensures Remaining(size, Advance(size, f)) == Remaining(size, f) - 1 >= 0
    ensures SendsDone(size, Advance(size, f), false) == SendsDone(size, f, true)
  {
  }

  /** The client has received exactly the sends its frame says, each the right piece of the script. */
  ghost predicate StreamFits(file: string, client: Client, handed: bool) {
    && |client.stream| == SendsDone(|file|, client.frame, handed) <= |Script(Header(|file|), file)|
    && forall k :: 0 <= k < |client.stream| ==> client.stream[k].data == Script(Header(|file|), file)[k]
  }

  ghost predicate Streams(file: string, cs: seq<Client>, w: Worker) {
    forall c :: 0 <= c < |cs| ==> StreamFits(file, cs[c], w == Resuming(c))
  }

  ghost predicate Counts(size: nat, cs: seq<Client>) {
    forall c :: 0 <= c < |cs| ==> cs[c].resumes + Remaining(size, cs[c].frame) == 1 + 2 * Blocks(size)
  }

  /** The awaited send is the next piece of the script. */
  lemma AwaitedPiece(file: string, f: Frame)
    requires FrameInRange(|file|, f) && (f.AtHeader? || f.AtChunk?)
    ensures SendsDone(|file|, f, false) < |Script(Header(|file|), file)|
    ensures PieceOf(file, f) == Script(Header(|file|), file)[SendsDone(|file|, f, false)]
  {
    if f.AtChunk? {
      ChunkCount(file, 0);
      ChunkIndex(file, 0, f.offset / CHUNK_SIZE);
    }
  }

  /** One client changes, and only this one may be in the worker's hand before or after. */
  lemma StreamsUpdate(file: string, cs: seq<Client>, w: Worker, v: Worker, c: nat, y: Client)
    requires c < |cs| && Streams(file, cs, w) && StreamFits(file, y, v == Resuming(c))
    requires (w.Resuming? ==> w == Resuming(c)) && (v.Resuming? ==> v == Resuming(c))
    ensures Streams(file, cs[c := y], v)
  {
    hide StreamFits;
    var ds := cs[c := y];
    forall d | 0 <= d < |ds|
      ensures StreamFits(file, ds[d], v == Resuming(d))
    {
      if d != c {
        assert StreamFits(file, cs[d], w == Resuming(d));
      }
    }
  }

  lemma BegunFits(s: State)
    requires Enabled(s, Begin) && Core(s) && StreamFits(s.file, s.clients[s.worker.task.client], false)
    ensures StreamFits(s.file, Begun(s, s.clients[s.worker.task.client]), true)
  {
    var x := s.clients[s.worker.task.client];
    assert TaskFits(s.clients, s.worker.task) && FrameInRange(|s.file|, x.frame);
    hide Core, Enabled, Script, Header;
    if s.worker.task.SendThenResume? {
      AwaitedPiece(s.file, x.frame);
      hide PieceOf;
    }
  }

  lemma StreamsBegin(s: State)
    requires Enabled(s, Begin) && Core(s) && Streams(s.file, s.clients, s.worker)
    ensures var t := Apply(s, Begin); Streams(t.file, t.clients, t.worker)
  {
    var c := s.worker.task.client;
    assert StreamFits(s.file, s.clients[c], false);
    OwnDescriptor(s);
    BeginEffect(s);
    BegunFits(s);
    hide *;
    StreamsUpdate(s.file, s.clients, s.worker, Resuming(c), c, Begun(s, s.clients[c]));
  }

  lemma ResumedFits(file: string, x: Client)
    requires FrameInRange(|file|, x.frame) && x.frame != Finished && StreamFits(file, x, true)
    ensures StreamFits(file, Resumed(|file|, x), false)
  {
    AdvanceCounts(|file|, x.frame);
    hide SendsDone, Script, Header, Advance;
  }

  lemma StreamsResume(s: State)
    requires Enabled(s, Resume) && Core(s) && Streams(s.file, s.clients, s.worker)
    ensures var t := Apply(s, Resume); Streams(t.file, t.clients, t.worker)
  {
    var c := s.worker.client;
    var x, t := s.clients[c], Apply(s, Resume);
    ResumeEffect(s);
    assert Live(s.clients, c) && FrameInRange(|s.file|, x.frame);
    assert StreamFits(s.file, x, true);
    hide *;
    ResumedFits(s.file, x);
    StreamsUpdate(s.file, s.clients, s.worker, t.worker, c, Resumed(|s.file|, x));
  }

  lemma StreamsAccept(file: string, cs: seq<Client>, w: Worker, fd: int)
    requires Streams(file, cs, w) && w != Resuming(|cs|)
    ensures Streams(file, cs + [Client(fd, AtHeader, [], 0)], w)
  {
    assert |Script(Header(|file|), file)| >= 0;
    assert StreamFits(file, Client(fd, AtHeader, [], 0), false);
    hide StreamFits;
  }

  /** Only `Begin` makes the worker resume, and only `Resume` ends that. */
  lemma ResumingKept(s: State, step: Step)
    requires Enabled(s, step) && step != Begin && step != Resume
    ensures s.worker.Resuming? || Apply(s, step).worker.Resuming? ==> Apply(s, step).worker == s.worker
  {
  }

  lemma StreamsSame(file: string, cs: seq<Client>, w: Worker, v: Worker)
    requires Streams(file, cs, w) && (w.Resuming? || v.Resuming? ==> v == w)
    ensures Streams(file, cs, v)
  {
    hide StreamFits;
    forall c | 0 <= c < |cs|
      ensures StreamFits(file, cs[c], v == Resuming(c))
    {
      assert StreamFits(file, cs[c], w == Resuming(c));
    }
  }

  lemma StreamsStep(s: State, step: Step)
    requires Enabled(s, step) && Core(s) && Streams(s.file, s.clients, s.worker)
    ensures var t := Apply(s, step); Streams(t.file, t.clients, t.worker)
  {
    match step
    case Begin => StreamsBegin(s);
    case Resume => StreamsResume(s);
    case Accept(fd) =>
      AcceptEffect(s, fd);
      assert s.worker.Resuming? ==> Live(s.clients, s.worker.client);
      StreamsAccept(s.file, s.clients, s.worker, fd);
      hide *;
    case _ =>
      OtherEffect(s, step);
      ResumingKept(s, step);
      StreamsSame(s.file, s.clients, s.worker, Apply(s, step).worker);
      hide *;
  }

  lemma CountsUpdate(size: nat, cs: seq<Client>, c: nat, y: Client)
    requires c < |cs| && Counts(size, cs)
    requires y.resumes + Remaining(size, y.frame) == cs[c].resumes + Remaining(size, cs[c].frame)
    ensures Counts(size, cs[c := y])
  {
    hide Remaining, Blocks;
  }

  lemma CountsStep(s: State, step: Step)
    requires Enabled(s, step) && Core(s) && Counts(|s.file|, s.clients)
    ensures var t := Apply(s, step); Counts(|t.file|, t.clients)
  {
    match step
    case Resume =>
      var x := s.clients[s.worker.client];
      ResumeEffect(s);
      assert Live(s.clients, s.worker.client) && FrameInRange(|s.file|, x.frame);
      AdvanceCounts(|s.file|, x.frame);
      assert Resumed(|s.file|, x).frame == Advance(|s.file|, x.frame) && Resumed(|s.file|, x).resumes == x.resumes + 1;
      hide *;
      CountsUpdate(|s.file|, s.clients, s.worker.client, Resumed(|s.file|, x));
    case Begin =>
      var x := s.clients[s.worker.task.client];
      OwnDescriptor(s);
      BeginEffect(s);
      assert Begun(s, x).frame == x.frame && Begun(s, x).resumes == x.resumes;
      hide *;
      CountsUpdate(|s.file|, s.clients, s.worker.task.client, Begun(s, x));
    case Accept(fd) =>
      AcceptEffect(s, fd);
      hide Apply, Enabled, Core;
    case _ =>
      OtherEffect(s, step);
      hide *;
  }
}
