/** The pthread server: one thread for each accepted client, interleaved in any order, each doing what the
    sequential loop `Chunking.SendFile` does. When `accept` fails, the file is freed while threads may still send
    from it; up to exactly that, it and the coroutine server send every client the same pieces. */
module PthreadServer {
  import opened Decimal
  import opened Chunking
  import opened Math
  import Coroutines = CoroutineServer
  import CoroutineTheorems

  const HEADER_BUFFER := 256

  function HeaderText(size: nat): string {
    "HTTP/1.1 200 OK\r\n" + "Content-Length: " + PrintNat(size) + "\r\n" + "Content-Type: text/html\r\n" + "\r\n"
  }

  /** What `snprintf` leaves in the buffer: at most 255 characters. */
  function Header(size: nat): string {
    var text := HeaderText(size);
    text[..Min(|text|, HEADER_BUFFER - 1)]
  }

  /** A size that fits in `size_t` never has its header cut. */
  lemma HeaderIsWhole(size: nat)
    requires size < 0x1_0000_0000_0000_0000
    ensures Header(size) == HeaderText(size)
  {
    assert Power10(20) == 100_000_000_000_000_000_000 by {
      assert Power10(5) == 100_000;
      assert Power10(10) == 10_000_000_000;
      assert Power10(15) == 1_000_000_000_000_000;
    }
    PrintNatLength(size, 20);
  }

  /** Where a thread is. `NoThread`: `pthread_create` failed and nobody serves the connection. */
  datatype Point = AtHeader | AtSend(offset: nat) | AtSleep(offset: nat) | AtClose | Done | NoThread

  /** `turns`: how many steps the client's thread has taken. */
  datatype Client = Client(fd: int, point: Point, stream: seq<string>, turns: nat)

  /** `file` is the file as it was read, `memory` what the threads find where it was put. `listening`: the accept loop
      is running; after it the memory is freed. */
  datatype State = State(file: string, memory: string, listening: bool, clients: seq<Client>, owner: map<int, nat>)

  function Init(file: string): State { State(file, file, true, [], map[]) }

  /** `AcceptFails` ends the accept loop and frees the file; from then on anybody may `Reuse` its memory. */
  datatype Step = Accept(fd: int, created: bool) | AcceptFails | Reuse(memory: string) | Thread(c: nat)

  predicate CanRun(size: nat, p: Point) {
    !p.Done? && !p.NoThread? && (p.AtSend? ==> p.offset < size)
  }

  predicate Enabled(s: State, step: Step) {
    match step
    case Accept(fd, _) => s.listening && fd >= 0 && fd !in s.owner
    case AcceptFails => s.listening
    case Reuse(memory) => !s.listening && |memory| == |s.memory|
    case Thread(c) => c < |s.clients| && CanRun(|s.memory|, s.clients[c].point)
  }

  function LoopHead(size: nat, offset: nat): Point {
    if offset < size then AtSend(offset) else AtClose
  }

  /** `send` on a descriptor reaches its present owner. */
  function Send(cs: seq<Client>, owner: map<int, nat>, fd: int, data: string): (r: seq<Client>)
    ensures |r| == |cs|
  {
    if fd in owner && owner[fd] < |cs| then
      cs[owner[fd] := cs[owner[fd]].(stream := cs[owner[fd]].stream + [data])]
    else cs
  }

  function Move(cs: seq<Client>, c: nat, p: Point): seq<Client>
    requires c < |cs|
  {
    cs[c := cs[c].(point := p, turns := cs[c].turns + 1)]
  }

  function Apply(s: State, step: Step): State
    requires Enabled(s, step)
  {
    match step
    case Accept(fd, created) =>
      s.(clients := s.clients + [Client(fd, if created then AtHeader else NoThread, [], 0)],
         owner := s.owner[fd := |s.clients|])
    case AcceptFails =>
      s.(listening := false)
    case Reuse(memory) =>
      s.(memory := memory)
    case Thread(c) =>
      var fd, size := s.clients[c].fd, |s.memory|;
      match s.clients[c].point
      case AtHeader =>
        s.(clients := Move(Send(s.clients, s.owner, fd, Header(size)), c, LoopHead(size, 0)))
      case AtSend(offset) =>
        s.(clients := Move(Send(s.clients, s.owner, fd, ChunkAt(s.memory, offset)), c, AtSleep(offset)))
      case AtSleep(offset) =>
        s.(clients := Move(s.clients, c, LoopHead(size, offset + CHUNK_SIZE)))
      case AtClose =>
        s.(clients := Move(s.clients, c, Done), owner := s.owner - {fd})
      case _ => s
  }

  predicate IsRun(s: State, steps: seq<Step>)
    decreases |steps|
  {
    steps == [] || (Enabled(s, steps[0]) && IsRun(Apply(s, steps[0]), steps[1..]))
  }

  function After(s: State, steps: seq<Step>): State
    requires IsRun(s, steps)
    decreases |steps|
  {
    if steps == [] then s else After(Apply(s, steps[0]), steps[1..])
  }

  lemma RunHead(s: State, steps: seq<Step>)
    requires IsRun(s, steps) && steps != []
    ensures Enabled(s, steps[0]) && IsRun(Apply(s, steps[0]), steps[1..])
    ensures After(s, steps) == After(Apply(s, steps[0]), steps[1..])
  {
  }

  lemma EmptyRun(s: State)
    ensures IsRun(s, []) && After(s, []) == s
  {
  }

  lemma RunOneMore(s: State, step: Step, steps: seq<Step>)
    requires Enabled(s, step) && IsRun(Apply(s, step), steps)
    ensures IsRun(s, [step] + steps) && After(s, [step] + steps) == After(Apply(s, step), steps)
  {
    assert ([step] + steps)[1..] == steps;
  }

  // ---- what every run keeps, whatever becomes of the memory ----

  function SendsDone(size: nat, p: Point): nat {
    match p
    case AtHeader => 0
    case AtSend(offset) => 1 + offset / CHUNK_SIZE
    case AtSleep(offset) => 2 + offset / CHUNK_SIZE
    case AtClose => 1 + Blocks(size)
    case Done => 1 + Blocks(size)
    case NoThread => 0
  }

  /** Steps the thread has still to take: the header, two for each piece, and the close. */
  function TurnsLeft(size: nat, p: Point): int {
    match p
    case AtHeader => 2 + 2 * Blocks(size)
    case AtSend(offset) => 2 * (Blocks(size) - offset / CHUNK_SIZE) + 1
    case AtSleep(offset) => 2 * (Blocks(size) - offset / CHUNK_SIZE)
    case AtClose => 1
    case Done => 0
    case NoThread => 0
  }

  predicate InRange(size: nat, p: Point) {
    (p.AtSend? || p.AtSleep?) ==> p.offset < size && p.offset % CHUNK_SIZE == 0
  }

  /** The header, and pieces of the right lengths. */
  ghost predicate Sized(size: nat, stream: seq<string>) {
    && (stream != [] ==> stream[0] == Header(size))
    && forall k :: 1 <= k < |stream| ==>
         CHUNK_SIZE * (k - 1) < size && |stream[k]| == ChunkLength(size, CHUNK_SIZE * (k - 1))
  }

  ghost predicate ClientFits(size: nat, client: Client) {
    && InRange(size, client.point)
    && |client.stream| == SendsDone(size, client.point) <= 1 + Blocks(size)
    && Sized(size, client.stream)
    && client.turns + TurnsLeft(size, client.point) == if client.point.NoThread? then 0 else 2 + 2 * Blocks(size)
  }

  ghost predicate Clients(size: nat, cs: seq<Client>) {
    forall c :: 0 <= c < |cs| ==> ClientFits(size, cs[c])
  }

  ghost predicate Descriptors(cs: seq<Client>, owner: map<int, nat>) {
    && (forall c :: 0 <= c < |cs| && cs[c].point != Done ==> cs[c].fd in owner && owner[cs[c].fd] == c)
    && (forall fd :: fd in owner ==> owner[fd] < |cs| && cs[owner[fd]].point != Done && cs[owner[fd]].fd == fd)
  }

  ghost predicate Inv(s: State) {
    && |s.memory| == |s.file| && (s.listening ==> s.memory == s.file)
    && Clients(|s.file|, s.clients) && Descriptors(s.clients, s.owner)
  }

  /** A client after the next step of its thread. */
  function Moved(memory: string, client: Client): Client
    requires CanRun(|memory|, client.point)
  {
    var size, turns := |memory|, client.turns + 1;
    match client.point
    case AtHeader =>
      client.(point := LoopHead(size, 0), stream := client.stream + [Header(size)], turns := turns)
    case AtSend(offset) =>
      client.(point := AtSleep(offset), stream := client.stream + [ChunkAt(memory, offset)], turns := turns)
    case AtSleep(offset) =>
      client.(point := LoopHead(size, offset + CHUNK_SIZE), turns := turns)
    case AtClose =>
      client.(point := Done, turns := turns)
  }

  /** A thread changes its own client and gives up the descriptor when it closes it. */
  lemma ThreadEffect(s: State, c: nat)
    requires Descriptors(s.clients, s.owner) && Enabled(s, Thread(c))
    ensures var t, y := Apply(s, Thread(c)), Moved(s.memory, s.clients[c]);
      && t.file == s.file && t.memory == s.memory && t.listening == s.listening && t.clients == s.clients[c := y]
      && t.owner == if y.point == Done then s.owner - {y.fd} else s.owner
  {
    assert s.owner[s.clients[c].fd] == c;
    hide Header;
  }

  lemma SizedNext(size: nat, stream: seq<string>, data: string)
    requires Sized(size, stream)
    requires if stream == [] then data == Header(size)
      else CHUNK_SIZE * (|stream| - 1) < size && |data| == ChunkLength(size, CHUNK_SIZE * (|stream| - 1))
    ensures Sized(size, stream + [data])
  {
    hide Header, ChunkLength;
  }

  lemma MovedFits(memory: string, client: Client)
    requires ClientFits(|memory|, client) && CanRun(|memory|, client.point)
    ensures ClientFits(|memory|, Moved(memory, client))
  {
    var size := |memory|;
    hide Header, Sized;
    match client.point
    case AtHeader => SizedNext(size, client.stream, Header(size));
    case AtSend(offset) => SizedNext(size, client.stream, ChunkAt(memory, offset));
    case _ =>
  }

  lemma DescriptorsMoved(cs: seq<Client>, owner: map<int, nat>, c: nat, y: Client)
    requires Descriptors(cs, owner) && c < |cs| && y.fd == cs[c].fd && cs[c].point != Done
    ensures Descriptors(cs[c := y], if y.point == Done then owner - {y.fd} else owner)
  {
  }

  lemma ClientsMoved(size: nat, cs: seq<Client>, c: nat, y: Client)
    requires Clients(size, cs) && c < |cs| && ClientFits(size, y)
    ensures Clients(size, cs[c := y])
  {
    hide ClientFits;
  }

  lemma InvThread(s: State, c: nat)
    requires Inv(s) && Enabled(s, Thread(c))
    ensures Inv(Apply(s, Thread(c)))
  {
    var y := Moved(s.memory, s.clients[c]);
    assert ClientFits(|s.file|, s.clients[c]);
    assert y.fd == s.clients[c].fd;
    ThreadEffect(s, c);
    MovedFits(s.memory, s.clients[c]);
    ClientsMoved(|s.file|, s.clients, c, y);
    DescriptorsMoved(s.clients, s.owner, c, y);
    hide Apply, Enabled, Clients, Descriptors;
  }

  lemma InvAccept(s: State, fd: int, created: bool)
    requires Inv(s) && Enabled(s, Accept(fd, created))
    ensures Inv(Apply(s, Accept(fd, created)))
  {
    var t := Apply(s, Accept(fd, created));
    hide Header;
    assert ClientFits(|s.file|, t.clients[|s.clients|]);
    assert t.clients[..|s.clients|] == s.clients;
    hide ClientFits;
  }

  lemma InvStep(s: State, step: Step)
    requires Inv(s) && Enabled(s, step)
    ensures Inv(Apply(s, step)) && Apply(s, step).file == s.file
  {
    match step
    case Accept(fd, created) => InvAccept(s, fd, created);
    case Thread(c) =>
      InvThread(s, c);
      ThreadEffect(s, c);
      hide Inv, Moved;
    case _ =>
      hide Clients, Descriptors;
  }

  lemma {:induction false} InvRun(s: State, steps: seq<Step>)
    requires Inv(s) && IsRun(s, steps)
    ensures Inv(After(s, steps)) && After(s, steps).file == s.file
    decreases |steps|
  {
    EmptyRun(s);
    hide *;
    if steps != [] {
      RunHead(s, steps);
      InvStep(s, steps[0]);
      InvRun(Apply(s, steps[0]), steps[1..]);
    }
  }

  lemma Reached(file: string, steps: seq<Step>)
    requires IsRun(Init(file), steps)
    ensures Inv(After(Init(file), steps)) && After(Init(file), steps).file == file
  {
    assert Inv(Init(file)) && Init(file).file == file;
    hide *;
    InvRun(Init(file), steps);
  }

  lemma FitsAt(s: State, c: nat)
    requires Inv(s) && c < |s.clients|
    ensures ClientFits(|s.file|, s.clients[c]) && |s.memory| == |s.file|
  {
  }

  /** Nothing that can happen is left out of a run. As long as the accept loop runs, every client is accepted that comes
      with a number no open connection has, and none with another, whether a thread can be created for it or not; the
      loop can end at any time, and after it any bytes can take the file's place. */
  lemma WhatCanHappen(file: string, steps: seq<Step>)
    requires IsRun(Init(file), steps)
    ensures var s := After(Init(file), steps);
      && (s.listening ==> forall fd, created :: Enabled(s, Accept(fd, created)) <==>
            fd >= 0 && forall c :: 0 <= c < |s.clients| && s.clients[c].point != Done ==> s.clients[c].fd != fd)
      && (Enabled(s, AcceptFails) <==> s.listening)
      && forall memory: string :: Enabled(s, Reuse(memory)) <==> !s.listening && |memory| == |file|
  {
    hide *;
    Reached(file, steps);
    var s := After(Init(file), steps);
    if s.listening {
      forall fd, created
        ensures Enabled(s, Accept(fd, created)) <==>
          fd >= 0 && forall c :: 0 <= c < |s.clients| && s.clients[c].point != Done ==> s.clients[c].fd != fd
      {
        CanAccept(s, fd, created);
      }
    }
    EndCanHappen(s);
  }

  lemma EndCanHappen(s: State)
    requires Inv(s)
    ensures Enabled(s, AcceptFails) <==> s.listening
    ensures forall memory: string :: Enabled(s, Reuse(memory)) <==> !s.listening && |memory| == |s.file|
  {
    hide Clients, Descriptors;
  }

  lemma CanAccept(s: State, fd: int, created: bool)
    requires Inv(s) && s.listening
    ensures Enabled(s, Accept(fd, created)) <==>
      fd >= 0 && forall c :: 0 <= c < |s.clients| && s.clients[c].point != Done ==> s.clients[c].fd != fd
  {
    hide Clients;
  }

  /** Every thread is about to send its header, and the descriptor numbers in use are those below their number. */
  ghost predicate JustAccepted(s: State, n: nat) {
    && s.listening && |s.clients| == n && (forall c :: 0 <= c < n ==> s.clients[c].point == AtHeader)
    && forall fd :: fd in s.owner ==> fd < n
  }

  lemma {:induction false} AcceptMore(s: State, n: nat, m: nat) returns (steps: seq<Step>)
    requires JustAccepted(s, n) && n <= m
    ensures IsRun(s, steps) && JustAccepted(After(s, steps), m)
    decreases m - n
  {
    if n == m {
      steps := [];
    } else {
      var t := Apply(s, Accept(n, true));
      assert JustAccepted(t, n + 1);
      hide Apply, Enabled, JustAccepted;
      steps := AcceptMore(t, n + 1, m);
      RunOneMore(s, Accept(n, true), steps);
      steps := [Accept(n, true)] + steps;
    }
  }

  /** Any number of threads can be at work at once. */
  lemma ManyAtOnce(file: string, n: nat) returns (steps: seq<Step>)
    ensures IsRun(Init(file), steps)
    ensures var s := After(Init(file), steps);
      |s.clients| == n && forall c :: 0 <= c < n ==> Enabled(s, Thread(c))
  {
    assert JustAccepted(Init(file), 0);
    hide IsRun, After;
    steps := AcceptMore(Init(file), 0, n);
  }

  /** A thread that exists can always go on until it is done. */
  lemma ThreadsNeverStuck(file: string, steps: seq<Step>, c: nat)
    requires IsRun(Init(file), steps) && c < |After(Init(file), steps).clients|
    ensures var s := After(Init(file), steps);
      Enabled(s, Thread(c)) <==> s.clients[c].point != Done && s.clients[c].point != NoThread
  {
    hide IsRun, After, Inv;
    Reached(file, steps);
    FitsAt(After(Init(file), steps), c);
  }

  /** A thread takes exactly 2 + 2 * ceil(size / 100) steps: the header, a send and a pause for each piece, and the
      close. */
  lemma ExactCount(file: string, steps: seq<Step>, c: nat)
    requires IsRun(Init(file), steps) && c < |After(Init(file), steps).clients|
    ensures var client := After(Init(file), steps).clients[c];
      && client.turns <= 2 + 2 * Blocks(|file|)
      && (client.point == Done <==> client.turns == 2 + 2 * Blocks(|file|))
  {
    hide IsRun, After, Inv;
    Reached(file, steps);
    FitsAt(After(Init(file), steps), c);
    hide Sized, Header;
  }

  // ---- the contents, as long as nobody sends from freed memory ----

  /** The thread has a piece of the file still to send. */
  predicate PieceLeft(size: nat, p: Point) {
    match p
    case AtHeader => size > 0
    case AtSend(_) => true
    case AtSleep(offset) => offset + CHUNK_SIZE < size
    case _ => false
  }

  ghost predicate NoPieceLeft(s: State) {
    forall c :: 0 <= c < |s.clients| ==> !PieceLeft(|s.file|, s.clients[c].point)
  }

  ghost predicate Prefix(file: string, stream: seq<string>) { stream <= Script(Header(|file|), file) }

  ghost predicate Contents(file: string, cs: seq<Client>) {
    forall c :: 0 <= c < |cs| ==> Prefix(file, cs[c].stream)
  }

  /** All streams are right, and nothing more will come from memory that may have changed. */
  ghost predicate Good(s: State) {
    Contents(s.file, s.clients) && (s.listening || NoPieceLeft(s))
  }

  lemma NextPiece(file: string, client: Client)
    requires ClientFits(|file|, client) && client.point.AtSend?
    ensures |client.stream| < |Script(Header(|file|), file)|
    ensures Script(Header(|file|), file)[|client.stream|] == ChunkAt(file, client.point.offset)
  {
    ChunkCount(file, 0);
    ChunkIndex(file, 0, client.point.offset / CHUNK_SIZE);
    hide Header, Sized;
  }

  lemma PrefixNext(script: seq<string>, stream: seq<string>, data: string)
    requires stream <= script
    ensures stream + [data] <= script <==> |stream| < |script| && script[|stream|] == data
  {
  }

  /** A thread's step keeps its stream right if it does not send from changed memory. */
  lemma MovedRight(file: string, memory: string, client: Client)
    requires |memory| == |file| && ClientFits(|file|, client) && CanRun(|file|, client.point)
    requires Prefix(file, client.stream) && (memory == file || !PieceLeft(|file|, client.point))
    ensures Prefix(file, Moved(memory, client).stream)
    ensures !PieceLeft(|file|, client.point) ==> !PieceLeft(|file|, Moved(memory, client).point)
  {
    ScriptAt(Header(|file|), file);
    if client.point.AtSend? {
      NextPiece(file, client);
      PrefixNext(Script(Header(|file|), file), client.stream, ChunkAt(file, client.point.offset));
    } else if client.point.AtHeader? {
      assert client.stream == [];
      PrefixNext(Script(Header(|file|), file), [], Header(|file|));
    }
    hide Script, Header, ChunkAt, Sized;
  }

  lemma ContentsMoved(file: string, cs: seq<Client>, c: nat, y: Client)
    requires Contents(file, cs) && c < |cs| && Prefix(file, y.stream)
    ensures Contents(file, cs[c := y])
  {
    hide Prefix;
  }

  lemma GoodThread(s: State, c: nat)
    requires Inv(s) && Good(s) && Enabled(s, Thread(c))
    ensures Good(Apply(s, Thread(c)))
  {
    FitsAt(s, c);
    ThreadEffect(s, c);
    assert Prefix(s.file, s.clients[c].stream);
    MovedRight(s.file, s.memory, s.clients[c]);
    var y := Moved(s.memory, s.clients[c]);
    ContentsMoved(s.file, s.clients, c, y);
    hide Apply, Inv, Contents, Moved, PieceLeft;
  }

  lemma GoodStep(s: State, step: Step)
    requires Inv(s) && Good(s) && Enabled(s, step) && (step == AcceptFails ==> NoPieceLeft(s))
    ensures Good(Apply(s, step))
  {
    match step
    case Thread(c) => GoodThread(s, c);
    case Accept(fd, created) =>
      hide Script, Header;
      assert Prefix(s.file, []);
      hide Prefix;
    case _ =>
      hide Inv, Contents;
  }

  /** If the run ends the accept loop, no thread has a piece left to send at that moment. */
  ghost predicate EndsSafely(s: State, steps: seq<Step>)
    requires IsRun(s, steps)
    decreases |steps|
  {
    steps == [] ||
    ((steps[0] == AcceptFails ==> NoPieceLeft(s)) && EndsSafely(Apply(s, steps[0]), steps[1..]))
  }

  lemma SafeHead(s: State, steps: seq<Step>)
    requires IsRun(s, steps) && steps != [] && EndsSafely(s, steps)
    ensures (steps[0] == AcceptFails ==> NoPieceLeft(s)) && EndsSafely(Apply(s, steps[0]), steps[1..])
  {
  }

  lemma {:induction false} GoodRun(s: State, steps: seq<Step>)
    requires Inv(s) && Good(s) && IsRun(s, steps) && EndsSafely(s, steps)
    ensures Good(After(s, steps))
    decreases |steps|
  {
    EmptyRun(s);
    hide *;
    if steps != [] {
      RunHead(s, steps);
      SafeHead(s, steps);
      InvStep(s, steps[0]);
      GoodStep(s, steps[0]);
      GoodRun(Apply(s, steps[0]), steps[1..]);
    }
  }

  /** A run in which the accept loop is still going has not ended it. */
  lemma {:induction false} ListeningIsSafe(s: State, steps: seq<Step>)
    requires IsRun(s, steps) && After(s, steps).listening
    ensures s.listening && EndsSafely(s, steps)
    decreases |steps|
  {
    if steps != [] {
      RunHead(s, steps);
      ListeningIsSafe(Apply(s, steps[0]), steps[1..]);
    }
  }

  /** What a client is to have got: a prefix of the sequential script, and once its thread is done the whole of it. */
  ghost predicate Follows(file: string, client: Client) {
    && Prefix(file, client.stream)
    && (client.point == Done ==>
          client.stream == Script(Header(|file|), file) && Concat(client.stream) == Header(|file|) + file)
  }

  lemma GoodFollows(s: State, c: nat)
    requires Inv(s) && Contents(s.file, s.clients) && c < |s.clients|
    ensures Follows(s.file, s.clients[c])
  {
    FitsAt(s, c);
    ScriptAt(Header(|s.file|), s.file);
    ScriptComplete(Header(|s.file|), s.file);
    assert Prefix(s.file, s.clients[c].stream);
    hide Script, Header, Concat, Sized, Inv, Blocks;
  }

  /** Under every interleaving a client has been sent the header and then pieces of the script's lengths. They are the
      script's pieces, and all of them once the thread is done, unless the accept loop ended while some thread still
      had a piece to send. */
  lemma StreamsFollowScript(file: string, steps: seq<Step>, c: nat)
    requires IsRun(Init(file), steps) && c < |After(Init(file), steps).clients|
    ensures Sized(|file|, After(Init(file), steps).clients[c].stream)
    ensures After(Init(file), steps).listening ==> EndsSafely(Init(file), steps)
    ensures EndsSafely(Init(file), steps) ==> Follows(file, After(Init(file), steps).clients[c])
  {
    assert Good(Init(file));
    Reached(file, steps);
    assert Inv(Init(file));
    hide *;
    var s := After(Init(file), steps);
    FitsHasSize(s, c);
    if s.listening {
      ListeningIsSafe(Init(file), steps);
    }
    if EndsSafely(Init(file), steps) {
      GoodRun(Init(file), steps);
      GoodHasContents(s);
      GoodFollows(s, c);
    }
  }

  lemma FitsHasSize(s: State, c: nat)
    requires Inv(s) && c < |s.clients|
    ensures Sized(|s.file|, s.clients[c].stream)
  {
    FitsAt(s, c);
  }

  lemma GoodHasContents(s: State)
    requires Good(s)
    ensures Contents(s.file, s.clients)
  {
  }

  // ---- exactly when the end of the accept loop does no harm ----

  /** Memory that differs from the file in every byte. */
  function Other(file: string): (memory: string)
    ensures |memory| == |file| && forall i :: 0 <= i < |file| ==> memory[i] != file[i]
  {
    seq(|file|, i requires 0 <= i < |file| => if file[i] == 'z' then 'y' else 'z')
  }

  lemma WrongPiece(file: string, memory: string, client: Client)
    requires ClientFits(|file|, client) && client.point.AtSend? && Prefix(file, client.stream)
    requires |memory| == |file| && forall i :: 0 <= i < |file| ==> memory[i] != file[i]
    ensures CanRun(|file|, client.point) && !Prefix(file, Moved(memory, client).stream)
  {
    var o := client.point.offset;
    NextPiece(file, client);
    assert ChunkAt(memory, o)[0] == memory[o] && ChunkAt(file, o)[0] == file[o];
    PrefixNext(Script(Header(|file|), file), client.stream, ChunkAt(memory, o));
    hide Script, Header;
  }

  /** A thread at its `send`, with the memory changed. */
  lemma SendsWrong(s: State, c: nat)
    requires Inv(s) && c < |s.clients| && s.clients[c].point.AtSend? && Prefix(s.file, s.clients[c].stream)
    requires forall i :: 0 <= i < |s.file| ==> s.memory[i] != s.file[i]
    ensures Enabled(s, Thread(c)) && c < |Apply(s, Thread(c)).clients|
    ensures !Prefix(s.file, Apply(s, Thread(c)).clients[c].stream)
  {
    FitsAt(s, c);
    WrongPiece(s.file, s.memory, s.clients[c]);
    ThreadEffect(s, c);
    hide Prefix, ClientFits, Moved;
  }

  /** A thread with a piece left is at its `send`, or gets there in one step. */
  lemma GetsToSend(s: State, c: nat)
    requires Inv(s) && c < |s.clients| && PieceLeft(|s.file|, s.clients[c].point) && !s.clients[c].point.AtSend?
    requires Prefix(s.file, s.clients[c].stream)
    ensures Enabled(s, Thread(c))
    ensures var t := Apply(s, Thread(c));
      && Inv(t) && t.file == s.file && t.memory == s.memory && c < |t.clients|
      && t.clients[c].point.AtSend? && Prefix(t.file, t.clients[c].stream)
  {
    FitsAt(s, c);
    InvThread(s, c);
    ThreadEffect(s, c);
    ScriptAt(Header(|s.file|), s.file);
    hide Inv, Apply, Sized, Script, Header;
  }

  /** Once the file is freed, a piece left to send can come out wrong. */
  lemma PieceGoesWrong(t: State, c: nat) returns (more: seq<Step>)
    requires Inv(t) && !t.listening && Contents(t.file, t.clients)
    requires c < |t.clients| && PieceLeft(|t.file|, t.clients[c].point)
    ensures IsRun(t, more) && c < |After(t, more).clients| && !Prefix(t.file, After(t, more).clients[c].stream)
  {
    var reuse := Reuse(Other(t.file));
    var u := Apply(t, reuse);
    InvStep(t, reuse);
    assert Prefix(t.file, t.clients[c].stream);
    assert u == t.(memory := Other(t.file));
    hide Inv, Contents, IsRun, After, Apply, Other, Prefix, PieceLeft;
    if t.clients[c].point.AtSend? {
      SendsWrong(u, c);
      more := OneStepRun(u, Thread(c));
    } else {
      GetsToSend(u, c);
      var v := Apply(u, Thread(c));
      SendsWrong(v, c);
      more := OneStepRun(v, Thread(c));
      RunOneMore(u, Thread(c), more);
      more := [Thread(c)] + more;
    }
    RunOneMore(t, reuse, more);
    more := [reuse] + more;
  }

  lemma OneStepRun(s: State, step: Step) returns (steps: seq<Step>)
    requires Enabled(s, step)
    ensures IsRun(s, steps) && After(s, steps) == Apply(s, step)
  {
    EmptyRun(Apply(s, step));
    RunOneMore(s, step, []);
    steps := [step] + [];
  }

  /** No step but the end of the accept loop makes a run unsafe. */
  lemma {:induction false} ClosedIsSafe(s: State, steps: seq<Step>)
    requires !s.listening && IsRun(s, steps)
    ensures EndsSafely(s, steps)
    decreases |steps|
  {
    if steps != [] {
      RunHead(s, steps);
      ClosedIsSafe(Apply(s, steps[0]), steps[1..]);
    }
  }

  /** Whatever the threads do and whatever becomes of the memory from `t` on, every client gets what it is to get. */
  ghost predicate AllFollow(t: State) {
    forall more: seq<Step> | IsRun(t, more) ::
      forall c :: 0 <= c < |After(t, more).clients| ==> Follows(t.file, After(t, more).clients[c])
  }

  /** When `accept` fails, freeing the file does no harm if and only if no thread has a piece left to send. */
  lemma FreeingIsHarmlessIff(file: string, steps: seq<Step>)
    requires IsRun(Init(file), steps) && After(Init(file), steps).listening
    ensures var s := After(Init(file), steps); AllFollow(Apply(s, AcceptFails)) <==> NoPieceLeft(s)
  {
    assert Good(Init(file)) && Inv(Init(file));
    var s := After(Init(file), steps);
    var t := Apply(s, AcceptFails);
    Reached(file, steps);
    ListeningIsSafe(Init(file), steps);
    GoodRun(Init(file), steps);
    InvStep(s, AcceptFails);
    assert t == s.(listening := false) && Contents(t.file, t.clients);
    hide Inv, Contents, IsRun, After, Apply, EndsSafely, Follows;
    if NoPieceLeft(s) {
      assert NoPieceLeft(t) && Good(t);
      forall more: seq<Step> | IsRun(t, more)
        ensures forall c :: 0 <= c < |After(t, more).clients| ==> Follows(t.file, After(t, more).clients[c])
      {
        AfterHarmless(t, more);
      }
    } else {
      var c :| 0 <= c < |s.clients| && PieceLeft(|s.file|, s.clients[c].point);
      var more := PieceGoesWrong(t, c);
      WrongNotFollows(t.file, After(t, more).clients[c]);
    }
  }

  lemma WrongNotFollows(file: string, client: Client)
    requires !Prefix(file, client.stream)
    ensures !Follows(file, client)
  {
  }

  lemma AfterHarmless(t: State, more: seq<Step>)
    requires Inv(t) && Good(t) && !t.listening && IsRun(t, more)
    ensures forall c :: 0 <= c < |After(t, more).clients| ==> Follows(t.file, After(t, more).clients[c])
  {
    hide *;
    ClosedIsSafe(t, more);
    InvRun(t, more);
    GoodRun(t, more);
    GoodHasContents(After(t, more));
    forall c | 0 <= c < |After(t, more).clients|
      ensures Follows(t.file, After(t, more).clients[c])
    {
      GoodFollows(After(t, more), c);
    }
  }

  /** Concretely: a file of one byte, a header sent, `accept` failing, and the byte sent from reused memory. */
  lemma FreedExample()
    ensures var steps := [Accept(3, true), Thread(0), AcceptFails, Reuse("z"), Thread(0)];
      && IsRun(Init("a"), steps) && |After(Init("a"), steps).clients| == 1
      && After(Init("a"), steps).clients[0].stream == [Header(1), "z"]
      && !Prefix("a", [Header(1), "z"])
  {
    hide Header;
    var s0 := Init("a");
    var s1 := Apply(s0, Accept(3, true));
    var s2 := Apply(s1, Thread(0));
    assert s2.clients[0].stream == [Header(1)];
    assert s2.clients == [Client(3, AtSend(0), [Header(1)], 1)];
    var s3 := Apply(s2, AcceptFails);
    var s4 := Apply(s3, Reuse("z"));
    var s5 := Apply(s4, Thread(0));
    assert ChunkAt("z", 0) == "z" && ChunkAt("a", 0) == "a";
    assert s5.clients[0].stream == [Header(1), "z"];
    assert s5.clients == [Client(3, AtSleep(0), [Header(1), "z"], 2)];
    EmptyRun(s5);
    hide Apply, Enabled, IsRun, After;
    RunOneMore(s4, Thread(0), []);
    RunOneMore(s3, Reuse("z"), [Thread(0)] + []);
    RunOneMore(s2, AcceptFails, [Reuse("z")] + ([Thread(0)] + []));
    RunOneMore(s1, Thread(0), [AcceptFails] + ([Reuse("z")] + ([Thread(0)] + [])));
    RunOneMore(s0, Accept(3, true), [Thread(0)] + ([AcceptFails] + ([Reuse("z")] + ([Thread(0)] + []))));
    assert [Accept(3, true)] + ([Thread(0)] + ([AcceptFails] + ([Reuse("z")] + ([Thread(0)] + []))))
        == [Accept(3, true), Thread(0), AcceptFails, Reuse("z"), Thread(0)];
    ScriptAt(Header(1), "a");
    hide Script;
    assert Script(Header(1), "a")[1] == "a";
  }

  /** Two finished clients, one of each server, have received the same sequence of pieces after the header; at any time
      the shorter of two such sequences is the beginning of the other. The accept loop of this server may have ended,
      if no thread then had a piece left to send. */
  lemma ServersAgree(file: string, p: seq<Step>, c: nat, r: seq<Coroutines.Step>, d: nat)
    requires IsRun(Init(file), p) && EndsSafely(Init(file), p) && c < |After(Init(file), p).clients|
    requires Coroutines.IsRun(Coroutines.Init(file), r)
    requires d < |Coroutines.After(Coroutines.Init(file), r).clients|
    ensures var mine := After(Init(file), p).clients[c];
      var theirs := Coroutines.After(Coroutines.Init(file), r).clients[d];
      var pieces := CoroutineTheorems.Pieces(theirs.stream);
      mine.stream != [] && pieces != [] ==>
        && (mine.stream[1..] <= pieces[1..] || pieces[1..] <= mine.stream[1..])
        && (mine.point == Done && theirs.frame == Coroutines.Finished ==> mine.stream[1..] == pieces[1..])
  {
    hide *;
    StreamsFollowScript(file, p, c);
    CoroutineTheorems.StreamsFollowScript(file, r, d);
    var mine := After(Init(file), p).clients[c];
    var theirs := CoroutineTheorems.Pieces(Coroutines.After(Coroutines.Init(file), r).clients[d].stream);
    FollowsScript(file, mine);
    TailsAgree(file, Header(|file|), Coroutines.Header(|file|), mine.stream, theirs);
  }

  lemma FollowsScript(file: string, client: Client)
    requires Follows(file, client)
    ensures client.stream <= Script(Header(|file|), file)
    ensures client.point == Done ==> client.stream == Script(Header(|file|), file)
  {
  }

  /** Prefixes of two scripts for one file differ, after the headers, at most in length. */
  lemma TailsAgree(file: string, header: string, other: string, a: seq<string>, b: seq<string>)
    requires a <= Script(header, file) && b <= Script(other, file)
    ensures a != [] && b != [] ==> a[1..] <= b[1..] || b[1..] <= a[1..]
    ensures a == Script(header, file) && b == Script(other, file) ==> a[1..] == b[1..]
  {
    assert Script(header, file)[1..] == Script(other, file)[1..] == Chunks(file, 0);
    hide Script, Chunks;
  }
}
