/** The non-blocking echo server: a table of client sockets served through one shared buffer. */
module EchoServer {
  import opened Sockets
  import opened SendLoop

  // ---- echo correctness of one connection ----

  /** Everything received has been sent back, and nothing else, but for one byte per transient error. */
  predicate Echoed(d: Desc) {
    |d.out| == |d.inp| + d.transients && (d.transients == 0 ==> d.out == d.inp)
  }

  /** What has been sent back is the beginning of what was received, unless `send` failed transiently. */
  predicate EchoPrefix(d: Desc) { d.transients == 0 ==> d.out <= d.inp }

  /** Before shutdown: open connections are echoed completely and have not failed; closed ones have failed, once, and
      are echoed as far as they got. `busy` is the connection whose bytes are just being sent back. */
  ghost predicate Echo(descs: seq<Desc>, busy: int) {
    forall d :: 0 <= d < |descs| ==>
      && EchoPrefix(descs[d]) && descs[d].faults == descs[d].closes <= 1
      && (descs[d].closes == 0 && d != busy ==> Echoed(descs[d]))
  }

  /** One client's turn: what `recv` came to, and the calls of `send`. */
  datatype Exchange = Exchange(got: Got, rs: seq<SendResult>)

  /** The results are those of a loop over the data; there are none when `recv` delivered nothing. */
  predicate Possible(x: Exchange) { (DataOf(x.got) == [] ==> x.rs == []) && Legal(|DataOf(x.got)|, x.rs) }

  /** `errno` after each call of the turn that failed. */
  function TurnErrors(x: Exchange): seq<Errno> {
    (if x.got.RecvError? then [x.got.errno] else []) + Errors(x.rs)
  }

  /** The turn costs the client its slot: exactly a call that failed for good does. */
  predicate Drops(x: Exchange) { Lost(x.got) || EndsHard(x.rs) }

  /** The turn is over: the slot is lost or nothing is left to send. */
  predicate Complete(x: Exchange) { Drops(x) || ToWrite(|DataOf(x.got)|, x.rs) == 0 }

  /** The connection after the turn. */
  function Ended(d: Desc, x: Exchange, stray: int -> char): Desc {
    Served(Polled(d, x.got), DataOf(x.got), stray, x.rs).(closes := if Drops(x) then 1 else d.closes)
  }

  /** Exactly an error other than the three that mean "not now" costs the client its slot. */
  lemma DropsIffError(x: Exchange)
    requires Possible(x)
    ensures !Drops(x) <==> forall e :: e in TurnErrors(x) ==> e in {InProgress, Again, WouldBlock}
  {
    FailsIffHardError(|DataOf(x.got)|, x.rs);
    hide Errors, EndsHard, Legal;
    assert forall e :: e in TurnErrors(x) <==> e in Errors(x.rs) || (x.got.RecvError? && e == x.got.errno);
    if x.got.RecvError? {
      NotNowIs(x.got.errno);
      assert x.got.errno in TurnErrors(x);
    }
  }

  /** What a turn means for the echo. */
  lemma EndedEcho(d: Desc, x: Exchange, stray: int -> char)
    requires Echoed(d) && Possible(x) && d.faults == d.closes == 0
    ensures var e := Ended(d, x, stray);
      && e.polls == d.polls + 1 && e.inp == d.inp + DataOf(x.got)
      && EchoPrefix(e) && (Complete(x) && !Drops(x) ==> Echoed(e))
      && e.faults == e.closes == if Drops(x) then 1 else 0
  {
    hide Echoed, EchoPrefix, Emitted, Transients, Hards, Errors, ToWrite, Legal, EndsHard, DataOf;
    EchoAfterSend(d, x, stray);
    HardsAtEnd(|DataOf(x.got)|, x.rs);
    if Lost(x.got) {
      NoDataNoResults(x);
    }
    EchoOf(d.(inp := d.inp + DataOf(x.got), out := d.out + Emitted(DataOf(x.got), stray, x.rs),
              transients := d.transients + Transients(x.rs)), Ended(d, x, stray));
  }

  /** The echo depends on data and transient errors only. */
  lemma EchoOf(d: Desc, e: Desc)
    requires d.inp == e.inp && d.out == e.out && d.transients == e.transients
    ensures (Echoed(d) <==> Echoed(e)) && (EchoPrefix(d) <==> EchoPrefix(e))
  {
  }

  lemma NoDataNoResults(x: Exchange)
    requires Possible(x) && Lost(x.got)
    ensures x.rs == [] && !EndsHard(x.rs)
  {
    hide Legal;
  }

  /** The data part of it. */
  lemma EchoAfterSend(d: Desc, x: Exchange, stray: int -> char)
    requires Echoed(d) && Possible(x)
    ensures var e := d.(inp := d.inp + DataOf(x.got), out := d.out + Emitted(DataOf(x.got), stray, x.rs),
                        transients := d.transients + Transients(x.rs));
      EchoPrefix(e) && (ToWrite(|DataOf(x.got)|, x.rs) == 0 ==> Echoed(e))
  {
    hide DataOf, Emitted, ToWrite, Transients, Sent, Legal;
    var data := DataOf(x.got);
    ToWriteBalance(data, stray, x.rs);
    if Transients(x.rs) == 0 {
      SendsPrefix(data, stray, x.rs);
      assert data[..|data|] == data;
    }
  }

  lemma EchoUpdate(descs: seq<Desc>, c: nat, d: Desc, busy: int)
    requires c < |descs| && Echo(descs, -1) && EchoPrefix(d) && d.faults == d.closes <= 1
    requires d.closes == 0 && c != busy ==> Echoed(d)
    ensures Echo(descs[c := d], busy)
  {
    hide Echoed, EchoPrefix;
  }

  // ---- the slot table ----

  function Occupied(sock: seq<int>): set<int> {
    set i | 0 <= i < |sock| && sock[i] != INVALID_SOCK :: sock[i]
  }

  ghost predicate Distinct(sock: seq<int>) {
    forall i, j :: 0 <= i < j < |sock| && sock[i] != INVALID_SOCK ==> sock[i] != sock[j]
  }

  /** The open descriptors are exactly the listener and the sockets in the table, each once. */
  ghost predicate Conserved(sock: seq<int>, listener: int, owner: map<int, nat>) {
    && Distinct(sock)
    && INVALID_SOCK !in owner
    && listener !in Occupied(sock)
    && owner.Keys == Occupied(sock) + if listener == INVALID_SOCK then {} else {listener}
  }

  lemma EmptyTable(sock: seq<int>, listener: int, owner: map<int, nat>)
    requires forall i :: 0 <= i < |sock| ==> sock[i] == INVALID_SOCK
    requires INVALID_SOCK !in owner && owner.Keys == if listener == INVALID_SOCK then {} else {listener}
    ensures Conserved(sock, listener, owner)
  {
    assert Occupied(sock) == {};
  }

  lemma NothingEchoed(descs: seq<Desc>)
    requires forall d :: 0 <= d < |descs| ==> descs[d] == NewDesc(descs[d].fd)
    ensures Echo(descs, -1)
  {
  }

  lemma EchoAccept(descs: seq<Desc>, fd: int)
    requires Echo(descs, -1)
    ensures Echo(descs + [NewDesc(fd)], -1)
  {
  }

  lemma Fill(sock: seq<int>, i: nat, fd: int, listener: int, owner: map<int, nat>, d: nat)
    requires i < |sock| && sock[i] == INVALID_SOCK && fd != INVALID_SOCK && fd !in owner
    requires Conserved(sock, listener, owner)
    ensures Conserved(sock[i := fd], listener, owner[fd := d])
  {
    var t := sock[i := fd];
    assert t[i] == fd;
    assert forall x :: x in Occupied(sock) ==> x in Occupied(t) by {
      forall x | x in Occupied(sock) ensures x in Occupied(t) {
        var j :| 0 <= j < |sock| && sock[j] != INVALID_SOCK && sock[j] == x;
        assert t[j] == x;
      }
    }
    assert Occupied(t) == Occupied(sock) + {fd};
  }

  lemma Vacate(sock: seq<int>, i: nat, listener: int, owner: map<int, nat>)
    requires i < |sock| && sock[i] != INVALID_SOCK && Conserved(sock, listener, owner)
    ensures sock[i] in owner
    ensures Conserved(sock[i := INVALID_SOCK], listener, owner - {sock[i]})
  {
    var t := sock[i := INVALID_SOCK];
    assert sock[i] in Occupied(sock);
    forall x | x in Occupied(sock) && x != sock[i] ensures x in Occupied(t) {
      var j :| 0 <= j < |sock| && sock[j] != INVALID_SOCK && sock[j] == x;
      assert t[j] == x;
    }
    assert Occupied(t) == Occupied(sock) - {sock[i]};
  }

  /** How a run of the server stands: left through `error`, between two rounds, or inside a `send` loop. */
  datatype Outcome = Left | Looping | Sending

  /** What the main loop can see of a moment. */
  datatype Snapshot = Snapshot(sock: seq<int>, owner: map<int, nat>, descs: seq<Desc>, opens: nat, last: Status)

  /** One call of `accept` for free slot `i`: nothing there, or a new client in that slot and nowhere else, whose
      flags were set next. */
  ghost predicate AcceptedInto(a: Snapshot, b: Snapshot, i: nat) {
    && b.opens == a.opens + 1 && i < |b.sock| == |a.sock|
    && if b.sock[i] == INVALID_SOCK then
         && b.sock == a.sock && b.owner == a.owner && b.descs == a.descs
         && b.last.Failed? && b.last.call == Accept
       else
         && b.sock == a.sock[i := b.sock[i]] && b.sock[i] !in a.owner
         && b.owner == a.owner[b.sock[i] := |a.descs|]
         && b.descs == a.descs + [NewDesc(b.sock[i])]
         && b.last.call == SetFlags
  }

  /** First half of a round: an `accept` for the first free slot, if there is one. */
  ghost predicate AcceptHalf(a: Snapshot, b: Snapshot) {
    if INVALID_SOCK in a.sock
    then exists i: nat :: AcceptedInto(a, b, i) && a.sock[i] == INVALID_SOCK && INVALID_SOCK !in a.sock[..i]
    else b == a
  }

  /** The first half, which led from `a` to `b`, has made the server give up. */
  predicate Stops(a: Snapshot, b: Snapshot) { INVALID_SOCK in a.sock && GivesUp(b.last) }

  /** Slot `j` holds a client. */
  predicate Seated(a: Snapshot, j: int) {
    0 <= j < |a.sock| && a.sock[j] != INVALID_SOCK && a.sock[j] in a.owner && a.owner[a.sock[j]] < |a.descs|
  }

  /** The connection in slot `j`. */
  function ClientOf(a: Snapshot, j: int): nat
    requires Seated(a, j)
  {
    a.owner[a.sock[j]]
  }

  predicate SameSize(a: Snapshot, b: Snapshot) { |b.sock| == |a.sock| && |b.descs| == |a.descs| && b.opens == a.opens }

  /** A turn that took the connection from `was` to `now`. */
  predicate TurnTaken(was: Desc, now: Desc, x: Exchange, stray: int -> char) {
    Possible(x) && Complete(x) && now == Ended(was, x, stray)
  }

  /** Between `a` and `b` the client of slot `j` has had its turn, and has lost the slot exactly if a call failed for
      good; a free slot has stayed free. */
  ghost predicate SlotTurn(a: Snapshot, b: Snapshot, j: int, stray: int -> char)
    requires 0 <= j < |a.sock| && SameSize(a, b)
  {
    if a.sock[j] == INVALID_SOCK then b.sock[j] == INVALID_SOCK
    else
      Seated(a, j) && exists x ::
        && TurnTaken(a.descs[ClientOf(a, j)], b.descs[ClientOf(a, j)], x, stray)
        && b.sock[j] == if Drops(x) then INVALID_SOCK else a.sock[j]
  }

  /** Nothing has happened to slot `j` and its client. */
  ghost predicate SlotWaits(a: Snapshot, b: Snapshot, j: int)
    requires 0 <= j < |a.sock| && SameSize(a, b)
  {
    && b.sock[j] == a.sock[j]
    && (a.sock[j] != INVALID_SOCK ==>
          && Seated(a, j) && a.sock[j] in b.owner && b.owner[a.sock[j]] == ClientOf(a, j)
          && b.descs[ClientOf(a, j)] == a.descs[ClientOf(a, j)])
  }

  /** Descriptors of no slot are as they were, and an open one belongs to the same connection. */
  ghost predicate OthersKept(a: Snapshot, b: Snapshot)
    requires SameSize(a, b)
  {
    && (forall d :: 0 <= d < |a.descs| && (forall j :: Seated(a, j) ==> ClientOf(a, j) != d) ==>
          b.descs[d] == a.descs[d])
    && (forall fd :: fd in b.owner ==> fd in a.owner && b.owner[fd] == a.owner[fd])
  }

  /** Second half of a round: every client has its turn. */
  ghost predicate ServeHalf(a: Snapshot, b: Snapshot, stray: int -> char) {
    && SameSize(a, b) && OthersKept(a, b)
    && forall j :: 0 <= j < |a.sock| ==> SlotTurn(a, b, j, stray)
  }

  /** One round of the main loop. */
  ghost predicate OneRound(a: Snapshot, b: Snapshot, stray: int -> char) {
    exists m: Snapshot :: AcceptHalf(a, m) && !Stops(a, m) && ServeHalf(m, b, stray)
  }

  /** The connection `was` is now in the middle of its `send` loop: after `patience` calls bytes are left. */
  ghost predicate Halfway(was: Desc, now: Desc, patience: nat, stray: int -> char) {
    exists x :: Possible(x) && !Complete(x) && |x.rs| == patience && now == Ended(was, x, stray)
  }

  /** A second half that has got as far as the `send` loop of connection `busy`: the slots before its own have had their
      turn, those after it have not. */
  ghost predicate StuckHalf(m: Snapshot, b: Snapshot, busy: int, patience: nat, stray: int -> char) {
    && SameSize(m, b) && OthersKept(m, b)
    && exists i :: Seated(m, i) && ClientOf(m, i) == busy && b.sock[i] == m.sock[i]
         && Halfway(m.descs[busy], b.descs[busy], patience, stray)
         && (forall j :: 0 <= j < i ==> SlotTurn(m, b, j, stray))
         && (forall j :: i < j < |m.sock| ==> SlotWaits(m, b, j))
  }

  ghost predicate StuckRound(a: Snapshot, b: Snapshot, busy: int, patience: nat, stray: int -> char) {
    exists m: Snapshot :: AcceptHalf(a, m) && !Stops(a, m) && StuckHalf(m, b, busy, patience, stray)
  }

  /** A round whose first half made the server give up, and close everything. */
  ghost predicate LastRound(a: Snapshot, b: Snapshot) {
    exists m: Snapshot :: AcceptHalf(a, m) && Stops(a, m) && ClosedDown(m, b)
  }

  ghost predicate ClosedDown(a: Snapshot, b: Snapshot) {
    b.owner == map[] && ClosedFrom(a.descs, b.descs) && b.sock == a.sock && b.opens == a.opens && b.last == a.last
  }

  /** After set-up: no clients, at most the listener, and the outcome of the last call made. */
  predicate Fresh(a: Snapshot) {
    && (forall i :: 0 <= i < |a.sock| ==> a.sock[i] == INVALID_SOCK)
    && |a.descs| <= 1 && (a.last.Success? ==> a.last.call == Listen && |a.descs| == 1)
  }

  /** The moments at which the rounds begin; at each of them every open connection is echoed. */
  ghost predicate Rounds(history: seq<Snapshot>, stray: int -> char) {
    && (forall r :: 0 < r < |history| ==> OneRound(history[r - 1], history[r], stray))
    && (forall r :: 0 <= r < |history| ==> Echo(history[r].descs, -1))
  }

  /** How a run that began with these rounds stands now: between rounds, stuck in one, or closed down, because the
      set-up failed or the first half of a round did. */
  ghost predicate Ends(history: seq<Snapshot>, outcome: Outcome, now: Snapshot, busy: int, patience: nat,
                       stray: int -> char)
    requires history != []
  {
    var latest := history[|history| - 1];
    match outcome
    case Looping => history[0].last.Success? && latest == now
    case Sending => history[0].last.Success? && StuckRound(latest, now, busy, patience, stray)
    case Left =>
      if history[0].last.Success? then LastRound(latest, now)
      else |history| == 1 && GivesUp(history[0].last) && ClosedDown(history[0], now)
  }

  class Server {
    const kernel: Kernel
    const sock: array<int>
    const rxBuffer: array<char>
    const stray: int -> char
    var listener: int

    /** The static storage of `tcp_server_task`: `slots` client slots and a 128-byte buffer. */
    constructor (kernel: Kernel, slots: nat, stray: int -> char)
      ensures this.kernel == kernel && sock.Length == slots && rxBuffer.Length == 128
      ensures fresh(sock) && fresh(rxBuffer)
    {
      this.kernel := kernel;
      this.stray := stray;
      sock := new int[slots];
      rxBuffer := new char[128];
      listener := INVALID_SOCK;
    }

    ghost predicate Valid()
      reads this, kernel, sock
    {
      && kernel.Valid()
      && kernel.misuses == 0
      && Conserved(sock[..], listener, kernel.owner)
    }

    /** Sends `len` bytes of the buffer, with at most `patience` calls. */
    method SocketSend(fd: int, len: nat, patience: nat) returns (res: int, waiting: bool, ghost rs: seq<SendResult>)
      requires kernel.Valid() && fd in kernel.owner && len <= rxBuffer.Length
      modifies kernel
      ensures kernel.Valid() && kernel.owner == old(kernel.owner) && kernel.misuses == old(kernel.misuses)
      ensures kernel.opens == old(kernel.opens)
      ensures Legal(len, rs) && |rs| <= patience
      ensures kernel.descs ==
        old(kernel.descs)[kernel.owner[fd] := Served(old(kernel.descs[kernel.owner[fd]]), rxBuffer[..len], stray, rs)]
      ensures waiting ==> ToWrite(len, rs) > 0 && |rs| == patience && !EndsHard(rs)
      ensures !waiting ==> if EndsHard(rs) then res == -1 else res == len && ToWrite(len, rs) == 0
    {
      rs := [];
      var toWrite: int := len;
      var calls := 0;
      ghost var data := rxBuffer[..len];
      ghost var c := kernel.owner[fd];
      ghost var was := kernel.descs[c];
      NoSendYet(was, data, stray);
      hide *;
      while toWrite > 0 && calls < patience
        invariant kernel.Valid() && kernel.owner == old(kernel.owner) && kernel.misuses == old(kernel.misuses)
        invariant kernel.opens == old(kernel.opens) && |rs| == calls <= patience
        invariant Legal(len, rs) && !EndsHard(rs) && toWrite == ToWrite(len, rs) >= 0
        invariant kernel.descs == old(kernel.descs)[c := Served(was, data, stray, rs)]
        decreases patience - calls
      {
        var request := Window(rxBuffer[..len], stray, len - toWrite, toWrite);
        var written, errno := kernel.Send(fd, request);
        LegalOneCall(len, rs, written, errno);
        ServedOneCall(was, data, stray, rs, toWrite, written, errno);
        rs := rs + [Result(written, errno)];
        if written < 0 && !NotNow(errno) {
          return -1, false, rs;
        }
        toWrite := toWrite - written;
        calls := calls + 1;
      }
      return len, toWrite > 0, rs;
    }

    /** `recv` into the shared buffer; negative results other than "no data" end the connection. */
    method TryReceive(fd: int) returns (len: int, ghost got: Got)
      requires Valid() && fd in kernel.owner
      modifies kernel, rxBuffer
      ensures Valid() && -2 <= len <= rxBuffer.Length
      ensures kernel.owner == old(kernel.owner) && kernel.opens == old(kernel.opens)
      ensures kernel.last == if got.Bytes? then Success(Recv) else Failed(Recv, got.errno)
      ensures match got
        case Bytes(data) => len == |data|
        case RecvError(e) =>
          len == if e in {InProgress, Again, WouldBlock} then 0 else if e == NotConnected then -2 else -1
      ensures (len < 0 <==> Lost(got)) && DataOf(got) == if len < 0 then [] else rxBuffer[..len]
      ensures kernel.descs == old(kernel.descs)[kernel.owner[fd] := Polled(old(kernel.descs[kernel.owner[fd]]), got)]
    {
      hide Kernel.Valid, Conserved;
      var errno;
      len, errno := kernel.Recv(fd, rxBuffer);
      got := if len < 0 then RecvError(errno) else Bytes(rxBuffer[..len]);
      NotNowIs(errno);
      if len < 0 {
        len := if NotNow(errno) then 0 else if errno == NotConnected then -2 else -1;
      }
    }

    /** Closes the socket in slot `i` and frees the slot. */
    method Drop(i: nat)
      requires Valid() && i < sock.Length && sock[i] != INVALID_SOCK
      modifies kernel, sock
      ensures Valid() && sock[i] == INVALID_SOCK && kernel.opens == old(kernel.opens)
      ensures sock[..] == old(sock[..])[i := INVALID_SOCK]
      ensures old(sock[i] in kernel.owner) && kernel.owner == old(kernel.owner) - {old(sock[i])}
      ensures kernel.descs ==
        old(kernel.descs)[old(kernel.owner[sock[i]]) := old(kernel.descs[kernel.owner[sock[i]]]).(closes := 1)]
    {
      Vacate(sock[..], i, listener, kernel.owner);
      kernel.Close(sock[i]);
      sock[i] := INVALID_SOCK;
      assert sock[..] == old(sock[..])[i := INVALID_SOCK];
    }

    /** Sends the `len` bytes just received from the client of slot `i` back to it, and drops it exactly if that fails
        for good. `rs` are the results of the calls; `waiting`: bytes are left after `patience` of them. */
    method Reply(i: nat, len: nat, patience: nat) returns (waiting: bool, ghost rs: seq<SendResult>)
      requires Valid() && len <= rxBuffer.Length
      requires i < sock.Length && sock[i] != INVALID_SOCK && sock[i] in kernel.owner
      requires kernel.owner[sock[i]] < |kernel.descs|
      modifies kernel, sock
      ensures Valid() && kernel.opens == old(kernel.opens)
      ensures Legal(len, rs)
      ensures if waiting then ToWrite(len, rs) > 0 && |rs| == patience && !EndsHard(rs)
        else ToWrite(len, rs) == 0 || EndsHard(rs)
      ensures kernel.descs == old(kernel.descs)[old(kernel.owner[sock[i]]) :=
        Replied(old(kernel.descs[kernel.owner[sock[i]]]), rxBuffer[..len], stray, rs)]
      ensures sock[..] == if EndsHard(rs) then old(sock[..])[i := INVALID_SOCK] else old(sock[..])
      ensures kernel.owner == if EndsHard(rs) then old(kernel.owner) - {old(sock[i])} else old(kernel.owner)
    {
      ghost var c, data := kernel.owner[sock[i]], rxBuffer[..len];
      ghost var was := kernel.descs[c];
      hide Kernel.Valid, Conserved, Served, Replied, Legal, ToWrite, EndsHard;
      var res;
      res, waiting, rs := SocketSend(sock[i], len, patience);
      RepliedIs(was, data, stray, rs);
      if !waiting && res < 0 {
        Drop(i);
      }
    }

    /** Deals with the result `len` of polling the client of slot `i`: an error costs it its slot, data goes back to it,
        and no data changes nothing. */
    method Handle(i: nat, len: int, patience: nat, ghost was: Desc, ghost got: Got)
      returns (waiting: bool, ghost x: Exchange)
      requires Valid() && len <= rxBuffer.Length
      requires i < sock.Length && sock[i] != INVALID_SOCK && sock[i] in kernel.owner
      requires kernel.owner[sock[i]] < |kernel.descs|
      requires kernel.descs[kernel.owner[sock[i]]] == Polled(was, got)
      requires (len < 0 <==> Lost(got)) && DataOf(got) == if len < 0 then [] else rxBuffer[..len]
      modifies kernel, sock
      ensures Valid() && kernel.opens == old(kernel.opens)
      ensures Possible(x) && x.got == got
      ensures waiting <==> !Complete(x)
      ensures waiting ==> |x.rs| == patience
      ensures kernel.descs == old(kernel.descs)[old(kernel.owner[sock[i]]) := Ended(was, x, stray)]
      ensures sock[..] == if Drops(x) then old(sock[..])[i := INVALID_SOCK] else old(sock[..])
      ensures kernel.owner == if Drops(x) then old(kernel.owner) - {old(sock[i])} else old(kernel.owner)
    {
      hide *;
      waiting, x := false, Exchange(got, []);
      if len < 0 {
        Drop(i);
        RecvFailed(was, x, stray);
      } else if len > 0 {
        ghost var rs;
        waiting, rs := Reply(i, len, patience);
        x := x.(rs := rs);
        DataSentBack(was, x, stray, waiting);
      } else {
        NothingThere(was, x, stray);
      }
    }

    lemma SlotIsSeat(i: nat)
      requires Valid() && i < sock.Length && sock[i] != INVALID_SOCK && Echo(kernel.descs, -1)
      ensures sock[i] in kernel.owner && kernel.owner[sock[i]] < |kernel.descs|
      ensures var d := kernel.descs[kernel.owner[sock[i]]]; Echoed(d) && d.faults == d.closes == 0
      ensures Seated(Now(), i) && ClientOf(Now(), i) == kernel.owner[sock[i]]
    {
      assert sock[i] in Occupied(sock[..]) by { assert sock[..][i] == sock[i]; }
      hide Echoed, EchoPrefix;
    }

    /** One client's turn: receive, send the same bytes back, drop it on an error. Nobody else is touched. */
    method Serve(i: nat, patience: nat) returns (waiting: bool, ghost c: nat, ghost x: Exchange)
      requires Valid() && i < sock.Length && sock[i] != INVALID_SOCK && Echo(kernel.descs, -1)
      modifies kernel, sock, rxBuffer
      ensures Valid() && Echo(kernel.descs, if waiting then c else -1)
      ensures Turn(old(Now()), Now(), i, x, stray) && c == ClientOf(old(Now()), i)
      ensures (waiting <==> !Complete(x)) && (waiting ==> |x.rs| == patience)
    {
      SlotIsSeat(i);
      c := kernel.owner[sock[i]];
      ghost var start, was := Now(), kernel.descs[c];
      assert start == Snapshot(sock[..], kernel.owner, kernel.descs, kernel.opens, kernel.last);
      hide *;
      ghost var got;
      var len;
      len, got := TryReceive(sock[i]);
      waiting, x := Handle(i, len, patience, was, got);
      EndedEcho(was, x, stray);
      NotDropped(x);
      TurnIs(start, Now(), i, x, stray);
      EchoUpdate(old(kernel.descs), c, Ended(was, x, stray), if waiting then c else -1);
    }

    /** The first free slot, or the table's length. */
    method FindFree() returns (i: nat)
      ensures i <= sock.Length && (i < sock.Length ==> sock[i] == INVALID_SOCK)
      ensures forall j :: 0 <= j < i ==> sock[j] != INVALID_SOCK
    {
      i := 0;
      while i < sock.Length
        invariant i <= sock.Length && forall j :: 0 <= j < i ==> sock[j] != INVALID_SOCK
      {
        if sock[i] == INVALID_SOCK {
          break;
        }
        i := i + 1;
      }
    }

    ghost function Now(): Snapshot
      reads this, kernel, sock
    {
      Snapshot(sock[..], kernel.owner, kernel.descs, kernel.opens, kernel.last)
    }

    /** Tries to accept into slot `i`; `ok` is false when the server has to give up. */
    method AcceptInto(i: nat) returns (ok: bool)
      requires Valid() && i < sock.Length && sock[i] == INVALID_SOCK && Echo(kernel.descs, -1)
      modifies kernel, sock
      ensures Valid() && Echo(kernel.descs, -1)
      ensures AcceptedInto(old(Now()), Now(), i)
      ensures ok <==> !GivesUp(kernel.last)
      ensures ok <==> kernel.last.Success? || kernel.last == Failed(Accept, WouldBlock)
    {
      assert INVALID_SOCK !in kernel.owner;
      ghost var start := Now();
      hide Kernel.Valid, Echo, Conserved, AcceptedInto, GivesUp;
      var fd, errno := kernel.Open(Accept);
      sock[i] := fd;
      assert sock[..] == start.sock[i := fd];
      if fd < 0 {
        ok := errno == WouldBlock;
        NothingAccepted(start, Now(), i, errno);
      } else {
        EchoAccept(start.descs, fd);
        Fill(start.sock, i, fd, listener, start.owner, |start.descs|);
        ok := kernel.Prepare(SetFlags, fd);
        OneAccepted(start, Now(), i, fd, ok);
      }
    }

    /** First half of a round: accepts into the first free slot, if there is one. */
    method AcceptNext() returns (ok: bool)
      requires Valid() && Echo(kernel.descs, -1)
      modifies kernel, sock
      ensures Valid() && Echo(kernel.descs, -1) && AcceptHalf(old(Now()), Now())
      ensures ok <==> !Stops(old(Now()), Now())
    {
      ghost var before := Now();
      var free := FindFree();
      ok := true;
      hide Conserved, Echo, AcceptedInto, GivesUp;
      if free < sock.Length {
        assert before.sock[free] == INVALID_SOCK;
        ok := AcceptInto(free);
      }
    }

    /** Serves every connected client exactly once, in slot order, or stops inside the `send` loop of `busy`. */
    method ServeAll(patience: nat) returns (waiting: bool, ghost busy: int)
      requires Valid() && Echo(kernel.descs, -1)
      modifies kernel, sock, rxBuffer
      ensures Valid() && Echo(kernel.descs, busy) && (!waiting ==> busy == -1)
      ensures if waiting then StuckHalf(old(Now()), Now(), busy, patience, stray)
        else ServeHalf(old(Now()), Now(), stray)
    {
      waiting, busy := false, -1;
      ghost var start := Now();
      NoneServedYet(start, listener, stray);
      hide Echo, Conserved, ServedUpTo, ServeHalf, StuckHalf, Turn, Complete;
      for i := 0 to sock.Length
        invariant Valid() && Echo(kernel.descs, -1) && busy == -1
        invariant ServedUpTo(start, Now(), i, stray)
      {
        ghost var before := Now();
        if sock[i] != INVALID_SOCK {
          ghost var c, x;
          waiting, c, x := Serve(i, patience);
          if waiting {
            busy := c;
            StuckAt(start, before, Now(), i, x, patience, stray);
            return;
          }
          SlotServed(start, before, Now(), i, x, stray);
        } else {
          SlotFree(start, before, i, stray);
        }
      }
      AllServed(start, Now(), stray);
    }

    /** Closes the sockets of the table. */
    method CloseSlots()
      requires kernel.Valid() && kernel.misuses == 0 && Distinct(sock[..]) && kernel.owner.Keys == Occupied(sock[..])
      modifies kernel
      ensures kernel.Valid() && kernel.owner == map[] && kernel.misuses == 0
      ensures kernel.opens == old(kernel.opens) && kernel.last == old(kernel.last)
      ensures ClosedFrom(old(kernel.descs), kernel.descs)
    {
      assert sock[0..] == sock[..];
      hide Occupied, Distinct, ClosedFrom;
      CloseNone(kernel.descs);
      for i := 0 to sock.Length
        invariant kernel.Valid() && kernel.misuses == 0
        invariant kernel.opens == old(kernel.opens) && kernel.last == old(kernel.last)
        invariant kernel.owner.Keys == Occupied(sock[i..])
        invariant ClosedFrom(old(kernel.descs), kernel.descs)
      {
        OccupiedTail(sock[..], i);
        if sock[i] != INVALID_SOCK {
          CloseOne(old(kernel.descs), kernel.descs, kernel.owner[sock[i]]);
          kernel.Close(sock[i]);
          assert kernel.owner.Keys == Occupied(sock[i..]) - {sock[i]};
        }
      }
      OccupiedNone(sock[sock.Length..]);
    }

    /** The `error` label: closes the listener and every socket of the table. */
    method CloseAll()
      requires Valid()
      modifies kernel
      ensures kernel.Valid() && kernel.owner == map[] && kernel.misuses == 0
      ensures kernel.opens == old(kernel.opens) && kernel.last == old(kernel.last)
      ensures ClosedFrom(old(kernel.descs), kernel.descs)
    {
      if listener != INVALID_SOCK {
        kernel.Close(listener);
      }
      CloseSlots();
    }

    /** Opens the listener and prepares it, up to the first call that fails. */
    method OpenListener() returns (ok: bool)
      requires kernel.Valid() && kernel.descs == [] && kernel.owner == map[] && kernel.misuses == 0
      modifies `listener, kernel
      ensures kernel.Valid() && kernel.misuses == 0 && listener >= -1
      ensures kernel.owner == if listener == INVALID_SOCK then map[] else map[listener := 0]
      ensures kernel.descs == if listener == INVALID_SOCK then [] else [NewDesc(listener)]
      ensures ok ==> listener != INVALID_SOCK && kernel.last == Success(Listen)
      ensures !ok ==> kernel.last.Failed? && kernel.last.call != Accept && kernel.last.call != Recv
    {
      hide Kernel.Valid;
      listener := INVALID_SOCK;
      ok := kernel.Prepare(GetAddrInfo, INVALID_SOCK);
      if ok {
        var errno;
        listener, errno := kernel.Open(Socket);
        ok := listener >= 0;
      }
      if ok {
        ok := kernel.Prepare(SetFlags, listener);
      }
      if ok {
        ok := kernel.Prepare(Bind, listener);
      }
      if ok {
        ok := kernel.Prepare(Listen, listener);
      }
    }

    /** Sets the server up; `ok` is false when one of the calls fails. */
    method SetUp() returns (ok: bool)
      requires kernel.Valid() && kernel.descs == [] && kernel.owner == map[] && kernel.misuses == 0
      modifies this, kernel, sock
      ensures Valid() && Echo(kernel.descs, -1) && Fresh(Now())
      ensures if ok then kernel.last.Success? && listener != INVALID_SOCK else GivesUp(kernel.last)
    {
      hide Kernel.Valid, Echo, Conserved, GivesUp;
      for i := 0 to sock.Length
        invariant forall j :: 0 <= j < i ==> sock[j] == INVALID_SOCK
        modifies sock
      {
        sock[i] := INVALID_SOCK;
      }
      ok := OpenListener();
      EmptyTable(sock[..], listener, kernel.owner);
      NothingEchoed(kernel.descs);
      OtherFailure(kernel.last);
    }

    /** One round of the main loop: accept, then serve everybody; or the way out through `error`. */
    method Round(patience: nat) returns (outcome: Outcome, ghost busy: int)
      requires Valid() && Echo(kernel.descs, -1)
      modifies kernel, sock, rxBuffer
      ensures outcome != Left ==> Valid() && Echo(kernel.descs, busy)
      ensures match outcome
        case Looping => busy == -1 && OneRound(old(Now()), Now(), stray)
        case Sending => StuckRound(old(Now()), Now(), busy, patience, stray)
        case Left => LastRound(old(Now()), Now()) && ShutDown()
    {
      hide *;
      busy := -1;
      ghost var start := Now();
      var ok := AcceptNext();
      ghost var mid := Now();
      if !ok {
        Leave();
        Leaving(start, mid, Now());
        return Left, -1;
      }
      var waiting;
      waiting, busy := ServeAll(patience);
      Halves(start, mid, Now(), busy, patience, stray);
      outcome := if waiting then Sending else Looping;
    }

    /** `tcp_server_task` for up to `rounds` rounds of its main loop and `patience` calls in each `send` loop:
        any finite part of any run. `history` holds the moments at which its rounds begin, the first one after
        set-up. */
    method Run(rounds: nat, patience: nat) returns (outcome: Outcome, ghost busy: int, ghost history: seq<Snapshot>)
      requires kernel.Valid() && kernel.descs == [] && kernel.owner == map[] && kernel.misuses == 0
      modifies this, kernel, sock, rxBuffer
      ensures history != [] && Fresh(history[0]) && Rounds(history, stray)
      ensures Ends(history, outcome, Now(), busy, patience, stray)
      ensures if outcome == Left then ShutDown() else Valid() && Echo(kernel.descs, busy)
      ensures if outcome == Looping then busy == -1 && |history| == rounds + 1
        else |history| <= if history[0].last.Success? then rounds else 1
    {
      busy := -1;
      var ok := SetUp();
      history := [Now()];
      if !ok {
        Leave();
        return Left, -1, history;
      }
      hide Fresh, OneRound, StuckRound, LastRound, Echo, Conserved, ClosedFrom;
      for round := 0 to rounds
        invariant Valid() && Echo(kernel.descs, -1)
        invariant |history| == round + 1 && Rounds(history, stray) && history[round] == Now()
        invariant Fresh(history[0]) && history[0].last.Success?
      {
        outcome, busy := Round(patience);
        if outcome != Looping {
          return;
        }
        OneMoreRound(history, Now(), stray);
        history := history + [Now()];
      }
      return Looping, -1, history;
    }

    /** Every descriptor ever opened, the listener included, has been closed exactly once, and no call was ever
        made on one that was not open. */
    ghost predicate ShutDown()
      reads kernel
    {
      && kernel.Valid() && kernel.owner == map[] && kernel.misuses == 0
      && forall d :: 0 <= d < |kernel.descs| ==>
           kernel.descs[d].closes == 1 && EchoPrefix(kernel.descs[d]) && kernel.descs[d].faults <= 1
    }

    method Leave()
      requires Valid() && Echo(kernel.descs, -1)
      modifies kernel
      ensures ShutDown() && ClosedDown(old(Now()), Now())
    {
      ghost var was := kernel.descs;
      CloseAll();
      EchoClosed(was, kernel.descs);
    }
  }

  lemma OtherFailure(last: Status)
    ensures last.Failed? && last.call != Recv && last.call != Accept ==> GivesUp(last)
  {
  }

  lemma NothingAccepted(a: Snapshot, b: Snapshot, i: nat, errno: Errno)
    requires i < |a.sock| && a.sock[i] == INVALID_SOCK
    requires b.sock == a.sock[i := INVALID_SOCK]
    requires b == Snapshot(b.sock, a.owner, a.descs, a.opens + 1, Failed(Accept, errno))
    ensures b.sock == a.sock && AcceptedInto(a, b, i) && (GivesUp(b.last) <==> errno != WouldBlock)
  {
  }

  lemma OneAccepted(a: Snapshot, b: Snapshot, i: nat, fd: int, ok: bool)
    requires i < |a.sock| && fd >= 0 && fd !in a.owner
    requires b == Snapshot(a.sock[i := fd], a.owner[fd := |a.descs|], a.descs + [NewDesc(fd)],
                           a.opens + 1, b.last)
    requires b.last.call == SetFlags && (ok <==> b.last.Success?)
    ensures AcceptedInto(a, b, i) && (GivesUp(b.last) <==> !ok)
  {
  }

  lemma Leaving(a: Snapshot, m: Snapshot, b: Snapshot)
    requires AcceptHalf(a, m) && Stops(a, m) && ClosedDown(m, b)
    ensures LastRound(a, b)
  {
  }

  lemma Halves(a: Snapshot, m: Snapshot, b: Snapshot, busy: int, patience: nat, stray: int -> char)
    requires AcceptHalf(a, m) && !Stops(a, m)
    ensures ServeHalf(m, b, stray) ==> OneRound(a, b, stray)
    ensures StuckHalf(m, b, busy, patience, stray) ==> StuckRound(a, b, busy, patience, stray)
  {
    hide AcceptHalf, Stops, ServeHalf, StuckHalf;
  }

  lemma OneMoreRound(history: seq<Snapshot>, now: Snapshot, stray: int -> char)
    requires history != [] && Rounds(history, stray) && OneRound(history[|history| - 1], now, stray)
    requires Echo(now.descs, -1)
    ensures Rounds(history + [now], stray)
  {
    hide OneRound, Echo;
    var h := history + [now];
    forall r | 0 < r < |h|
      ensures OneRound(h[r - 1], h[r], stray)
    {
      if r < |history| {
        assert h[r - 1] == history[r - 1] && h[r] == history[r];
      }
    }
  }

  lemma OccupiedNone(sock: seq<int>)
    requires sock == []
    ensures Occupied(sock) == {}
  {
  }

  lemma CloseNone(was: seq<Desc>)
    ensures ClosedFrom(was, was)
  {
  }

  lemma CloseOne(was: seq<Desc>, now: seq<Desc>, d: nat)
    requires ClosedFrom(was, now) && d < |now|
    ensures ClosedFrom(was, now[d := now[d].(closes := 1)])
  {
  }

  /** Closing does not touch what has been echoed. */
  lemma EchoClosed(was: seq<Desc>, now: seq<Desc>)
    requires Echo(was, -1) && ClosedFrom(was, now)
    ensures forall d :: 0 <= d < |now| ==> EchoPrefix(now[d]) && now[d].faults <= 1
  {
    forall d | 0 <= d < |now|
      ensures EchoPrefix(now[d]) && now[d].faults <= 1
    {
      assert EchoPrefix(was[d]);
    }
  }

  /** `now` differs from `was` only in that some descriptors have been closed. */
  ghost predicate ClosedFrom(was: seq<Desc>, now: seq<Desc>) {
    |was| == |now| && forall d :: 0 <= d < |now| ==> now[d] == was[d] || now[d] == was[d].(closes := 1)
  }

  // ---- turns ----

  /** A connection after its data has been sent back with these results. */
  function Replied(d: Desc, data: seq<char>, stray: int -> char, rs: seq<SendResult>): Desc {
    Served(d, data, stray, rs).(closes := if EndsHard(rs) then 1 else d.closes)
  }

  lemma RepliedIs(d: Desc, data: seq<char>, stray: int -> char, rs: seq<SendResult>)
    ensures Replied(d, data, stray, rs)
      == if EndsHard(rs) then Served(d, data, stray, rs).(closes := 1) else Served(d, data, stray, rs)
  {
    hide Emitted, Transients, Hards;
  }

  lemma RecvFailed(was: Desc, x: Exchange, stray: int -> char)
    requires Lost(x.got) && DataOf(x.got) == [] && x.rs == []
    ensures Possible(x) && Complete(x) && Drops(x)
    ensures Ended(was, x, stray) == Polled(was, x.got).(closes := 1)
  {
    NoSendYet(Polled(was, x.got), [], stray);
    hide Served, Polled;
  }

  lemma NothingThere(was: Desc, x: Exchange, stray: int -> char)
    requires !Lost(x.got) && DataOf(x.got) == [] && x.rs == []
    ensures Possible(x) && Complete(x) && !Drops(x) && Ended(was, x, stray) == Polled(was, x.got)
  {
    NoSendYet(Polled(was, x.got), [], stray);
    hide Served;
  }

  lemma DataSentBack(was: Desc, x: Exchange, stray: int -> char, waiting: bool)
    requires !Lost(x.got) && DataOf(x.got) != [] && Legal(|DataOf(x.got)|, x.rs)
    requires if waiting then ToWrite(|DataOf(x.got)|, x.rs) > 0 && !EndsHard(x.rs)
      else ToWrite(|DataOf(x.got)|, x.rs) == 0 || EndsHard(x.rs)
    ensures Possible(x) && (waiting <==> !Complete(x)) && (Drops(x) <==> EndsHard(x.rs))
    ensures Ended(was, x, stray) == Replied(Polled(was, x.got), DataOf(x.got), stray, x.rs)
  {
    hide Served, Legal, ToWrite, EndsHard;
  }

  lemma NotDropped(x: Exchange)
    ensures !Complete(x) ==> !Drops(x)
  {
  }

  /** Slot `i` has had a turn between `b` and `c`. */
  ghost predicate Turn(b: Snapshot, c: Snapshot, i: nat, x: Exchange, stray: int -> char) {
    && Seated(b, i) && Possible(x) && SameSize(b, c)
    && c.descs == b.descs[ClientOf(b, i) := Ended(b.descs[ClientOf(b, i)], x, stray)]
    && c.sock == (if Drops(x) then b.sock[i := INVALID_SOCK] else b.sock)
    && c.owner == if Drops(x) then b.owner - {b.sock[i]} else b.owner
  }

  lemma TurnIs(b: Snapshot, c: Snapshot, i: nat, x: Exchange, stray: int -> char)
    requires Seated(b, i) && Possible(x) && c.opens == b.opens
    requires c.descs == b.descs[ClientOf(b, i) := Ended(b.descs[ClientOf(b, i)], x, stray)]
    requires c.sock == if Drops(x) then b.sock[i := INVALID_SOCK] else b.sock
    requires c.owner == if Drops(x) then b.owner - {b.sock[i]} else b.owner
    ensures Turn(b, c, i, x, stray)
  {
  }

  ghost predicate Separate(a: Snapshot) {
    && (forall j :: 0 <= j < |a.sock| && a.sock[j] != INVALID_SOCK ==> Seated(a, j))
    && (forall j, k :: Seated(a, j) && Seated(a, k) && j != k ==>
          a.sock[j] != a.sock[k] && ClientOf(a, j) != ClientOf(a, k))
  }

  /** The serving loop has passed the first `i` slots. */
  ghost predicate ServedUpTo(a: Snapshot, b: Snapshot, i: nat, stray: int -> char) {
    && i <= |a.sock| && Separate(a) && SameSize(a, b) && OthersKept(a, b)
    && (forall j :: 0 <= j < i ==> SlotTurn(a, b, j, stray))
    && (forall j :: i <= j < |a.sock| ==> SlotWaits(a, b, j))
  }

  lemma NoneServedYet(a: Snapshot, listener: int, stray: int -> char)
    requires Conserved(a.sock, listener, a.owner)
    requires forall fd :: fd in a.owner ==> a.owner[fd] < |a.descs| && a.descs[a.owner[fd]].fd == fd
    ensures ServedUpTo(a, a, 0, stray)
  {
    assert forall j :: 0 <= j < |a.sock| && a.sock[j] != INVALID_SOCK ==> a.sock[j] in Occupied(a.sock);
  }

  lemma AllServed(a: Snapshot, b: Snapshot, stray: int -> char)
    requires ServedUpTo(a, b, |a.sock|, stray)
    ensures ServeHalf(a, b, stray)
  {
    hide SlotTurn, SlotWaits, OthersKept, Separate;
  }

  /** A free slot needs no turn. */
  lemma SlotFree(a: Snapshot, b: Snapshot, i: nat, stray: int -> char)
    requires ServedUpTo(a, b, i, stray) && i < |b.sock| && b.sock[i] == INVALID_SOCK
    ensures ServedUpTo(a, b, i + 1, stray)
  {
    assert SlotWaits(a, b, i);
    assert SlotTurn(a, b, i, stray);
    hide SlotTurn, SlotWaits, OthersKept, Separate;
  }

  /** The turn of slot `i` is nobody else's. */
  lemma OthersTurn(a: Snapshot, b: Snapshot, c: Snapshot, i: nat, x: Exchange, stray: int -> char, j: nat)
    requires Separate(a) && SameSize(a, b) && i < |a.sock| && SlotWaits(a, b, i) && Turn(b, c, i, x, stray)
    requires j < |a.sock| && j != i
    ensures SameSize(a, c)
    ensures SlotTurn(a, b, j, stray) ==> SlotTurn(a, c, j, stray)
    ensures SlotWaits(a, b, j) ==> SlotWaits(a, c, j)
  {
    assert Seated(a, i) && ClientOf(a, i) == ClientOf(b, i) && a.sock[i] == b.sock[i];
    assert c.sock[j] == b.sock[j];
    if Seated(a, j) {
      assert a.sock[j] != a.sock[i] && ClientOf(a, j) != ClientOf(a, i);
      assert c.descs[ClientOf(a, j)] == b.descs[ClientOf(a, j)];
    }
    hide TurnTaken, Ended, Separate, Possible, Drops;
  }

  lemma OthersStay(a: Snapshot, b: Snapshot, c: Snapshot, i: nat, x: Exchange, stray: int -> char)
    requires SameSize(a, b) && OthersKept(a, b) && i < |a.sock| && SlotWaits(a, b, i) && Turn(b, c, i, x, stray)
    ensures SameSize(a, c) && OthersKept(a, c)
  {
    assert Seated(a, i) && ClientOf(a, i) == ClientOf(b, i);
    hide Ended, Possible, Drops;
  }

  lemma OwnTurn(a: Snapshot, b: Snapshot, c: Snapshot, i: nat, x: Exchange, stray: int -> char)
    requires SameSize(a, b) && i < |a.sock| && SlotWaits(a, b, i) && Turn(b, c, i, x, stray) && Complete(x)
    ensures SameSize(a, c) && SlotTurn(a, c, i, stray)
  {
    assert Seated(a, i) && ClientOf(a, i) == ClientOf(b, i);
    assert TurnTaken(a.descs[ClientOf(a, i)], c.descs[ClientOf(a, i)], x, stray);
    hide TurnTaken, Ended, Possible, Drops;
  }

  lemma SlotServed(a: Snapshot, b: Snapshot, c: Snapshot, i: nat, x: Exchange, stray: int -> char)
    requires ServedUpTo(a, b, i, stray) && i < |a.sock| && Turn(b, c, i, x, stray) && Complete(x)
    ensures ServedUpTo(a, c, i + 1, stray)
  {
    hide SlotTurn, SlotWaits, OthersKept, Separate, Turn, Complete, SameSize;
    OthersStay(a, b, c, i, x, stray);
    OwnTurn(a, b, c, i, x, stray);
    forall j | 0 <= j < i
      ensures SlotTurn(a, c, j, stray)
    {
      OthersTurn(a, b, c, i, x, stray, j);
    }
    forall j | i < j < |a.sock|
      ensures SlotWaits(a, c, j)
    {
      OthersTurn(a, b, c, i, x, stray, j);
    }
  }

  lemma OwnSendLoop(a: Snapshot, b: Snapshot, c: Snapshot, i: nat, x: Exchange, patience: nat, stray: int -> char)
    requires SameSize(a, b) && i < |a.sock| && SlotWaits(a, b, i) && Turn(b, c, i, x, stray)
    requires !Complete(x) && |x.rs| == patience
    ensures Seated(a, i) && Seated(b, i) && ClientOf(a, i) == ClientOf(b, i) && c.sock[i] == a.sock[i]
    ensures SameSize(a, c) && Halfway(a.descs[ClientOf(a, i)], c.descs[ClientOf(a, i)], patience, stray)
  {
    NotDropped(x);
    hide Ended, Possible, Drops, Complete;
  }

  lemma StuckAt(a: Snapshot, b: Snapshot, c: Snapshot, i: nat, x: Exchange, patience: nat, stray: int -> char)
    requires ServedUpTo(a, b, i, stray) && i < |a.sock| && Turn(b, c, i, x, stray)
    requires !Complete(x) && |x.rs| == patience
    ensures Seated(b, i) && StuckHalf(a, c, ClientOf(b, i), patience, stray)
  {
    hide SlotTurn, SlotWaits, OthersKept, Separate, Turn, Complete, SameSize, Halfway, Seated, ClientOf;
    OthersStay(a, b, c, i, x, stray);
    OwnSendLoop(a, b, c, i, x, patience, stray);
    forall j | 0 <= j < i
      ensures SlotTurn(a, c, j, stray)
    {
      OthersTurn(a, b, c, i, x, stray, j);
    }
    forall j | i < j < |a.sock|
      ensures SlotWaits(a, c, j)
    {
      OthersTurn(a, b, c, i, x, stray, j);
    }
  }

  // ---- what a round means for one connection ----

  /** Logs only grow. */
  predicate Grew(was: Desc, now: Desc) {
    && was.inp <= now.inp && was.out <= now.out && was.fd == now.fd
    && was.polls <= now.polls && was.sends <= now.sends && was.transients <= now.transients
    && was.faults <= now.faults && was.errs <= now.errs && was.closes <= now.closes
  }

  lemma TurnGrows(was: Desc, now: Desc, x: Exchange, stray: int -> char)
    requires TurnTaken(was, now, x, stray) && was.closes <= 1
    ensures Grew(was, now)
  {
    hide Emitted, Transients, Hards, Legal, ToWrite;
  }

  /** A client that was echoed has its turn: it keeps its slot exactly if no call failed for good, then it is echoed
      again, and without transient errors by exactly the bytes received in this turn. */
  lemma TurnMeans(was: Desc, now: Desc, x: Exchange, stray: int -> char)
    requires TurnTaken(was, now, x, stray) && Echoed(was) && was.faults == was.closes == 0
    ensures now.polls == was.polls + 1 && now.inp == was.inp + DataOf(x.got) && now.errs == was.errs + TurnErrors(x)
    ensures Drops(x) <==> now.faults == 1
    ensures Drops(x) <==> now.closes == 1
    ensures !Drops(x) ==> Echoed(now)
    ensures !Drops(x) ==> (now.out == was.out + DataOf(x.got) <==> now.transients == was.transients)
  {
    EndedEcho(was, x, stray);
    assert was.errs + TurnErrors(x) == was.errs + (if x.got.RecvError? then [x.got.errno] else []) + Errors(x.rs);
    if !Drops(x) {
      FaithfulIffNoTransient(DataOf(x.got), stray, x.rs);
      hide Emitted, Transients, Hards, Legal, ToWrite, Echoed, EchoPrefix;
      assert now.out == was.out + Emitted(DataOf(x.got), stray, x.rs);
      assert now.out[|was.out|..] == Emitted(DataOf(x.got), stray, x.rs);
      assert (was.out + DataOf(x.got))[|was.out|..] == DataOf(x.got);
    }
  }

  lemma ServeGrows(a: Snapshot, b: Snapshot, stray: int -> char, d: nat)
    requires ServeHalf(a, b, stray) && Echo(a.descs, -1) && d < |a.descs|
    ensures d < |b.descs| && Grew(a.descs[d], b.descs[d])
  {
    if j :| Seated(a, j) && ClientOf(a, j) == d {
      assert SlotTurn(a, b, j, stray);
      var x :| TurnTaken(a.descs[d], b.descs[d], x, stray);
      TurnGrows(a.descs[d], b.descs[d], x, stray);
    } else {
      assert b.descs[d] == a.descs[d];
    }
  }

  /** An accept leaves the clients already there as they are. */
  lemma AcceptKeeps(a: Snapshot, m: Snapshot)
    requires AcceptHalf(a, m) && Echo(a.descs, -1)
    ensures Echo(m.descs, -1) && |a.descs| <= |m.descs| && m.descs[..|a.descs|] == a.descs && |m.sock| == |a.sock|
    ensures forall j :: Seated(a, j) ==> Seated(m, j) && m.sock[j] == a.sock[j] && ClientOf(m, j) == ClientOf(a, j)
  {
    if INVALID_SOCK in a.sock {
      var i: nat :| AcceptedInto(a, m, i) && a.sock[i] == INVALID_SOCK && INVALID_SOCK !in a.sock[..i];
      if m.sock[i] != INVALID_SOCK {
        EchoAccept(a.descs, m.sock[i]);
        hide Echo;
      }
    }
  }

  lemma RoundGrows(a: Snapshot, b: Snapshot, stray: int -> char)
    requires OneRound(a, b, stray) && Echo(a.descs, -1)
    ensures |a.descs| <= |b.descs| && forall d :: 0 <= d < |a.descs| ==> Grew(a.descs[d], b.descs[d])
  {
    var m: Snapshot :| AcceptHalf(a, m) && !Stops(a, m) && ServeHalf(m, b, stray);
    AcceptKeeps(a, m);
    assert |b.descs| == |m.descs|;
    hide AcceptHalf, ServeHalf, Echo, Grew, Stops;
    forall d | 0 <= d < |a.descs|
      ensures Grew(a.descs[d], b.descs[d])
    {
      assert m.descs[d] == m.descs[..|a.descs|][d];
      ServeGrows(m, b, stray, d);
    }
  }

  lemma GrewTwice(a: Desc, b: Desc, c: Desc)
    requires Grew(a, b) && Grew(b, c)
    ensures Grew(a, c)
  {
  }

  lemma GrewNot(a: Desc)
    ensures Grew(a, a)
  {
  }

  /** Over a run no connection's log is ever cut or rewritten: what was received and sent back stays. */
  lemma {:induction false} HistoryGrows(history: seq<Snapshot>, stray: int -> char, r: nat, q: nat)
    requires Rounds(history, stray) && r <= q < |history|
    ensures |history[r].descs| <= |history[q].descs|
    ensures forall d :: 0 <= d < |history[r].descs| ==> Grew(history[r].descs[d], history[q].descs[d])
    decreases q - r
  {
    hide OneRound, Echo, Grew;
    if r == q {
      forall d | 0 <= d < |history[r].descs|
        ensures Grew(history[r].descs[d], history[q].descs[d])
      {
        GrewNot(history[r].descs[d]);
      }
    } else {
      HistoryGrows(history, stray, r, q - 1);
      assert OneRound(history[q - 1], history[q], stray);
      RoundGrows(history[q - 1], history[q], stray);
      forall d | 0 <= d < |history[r].descs|
        ensures Grew(history[r].descs[d], history[q].descs[d])
      {
        GrewTwice(history[r].descs[d], history[q - 1].descs[d], history[q].descs[d]);
      }
    }
  }

  /** What a round of a run means for the client of slot `j`: one turn; the slot is kept exactly if every call that
      failed did so with one of the three errors that mean "not now"; and then everything received so far has been sent
      back. */
  lemma EachRound(a: Snapshot, b: Snapshot, stray: int -> char, j: nat) returns (x: Exchange)
    requires OneRound(a, b, stray) && Echo(a.descs, -1) && Seated(a, j) && a.descs[ClientOf(a, j)].closes == 0
    ensures j < |b.sock| && ClientOf(a, j) < |b.descs|
    ensures b.sock[j] == if Drops(x) then INVALID_SOCK else a.sock[j]
    ensures var was, now := a.descs[ClientOf(a, j)], b.descs[ClientOf(a, j)];
      && TurnTaken(was, now, x, stray) && now.inp == was.inp + DataOf(x.got) && now.polls == was.polls + 1
      && (Drops(x) <==> now.faults == 1)
      && was.errs <= now.errs
      && (b.sock[j] == a.sock[j] <==> forall e :: e in now.errs[|was.errs|..] ==> e in {InProgress, Again, WouldBlock})
      && (!Drops(x) ==> Echoed(now) && (now.out == was.out + DataOf(x.got) <==> now.transients == was.transients))
  {
    var m: Snapshot :| AcceptHalf(a, m) && !Stops(a, m) && ServeHalf(m, b, stray);
    AcceptKeeps(a, m);
    var c := ClientOf(a, j);
    assert m.descs[c] == m.descs[..|a.descs|][c] == a.descs[c];
    assert SlotTurn(m, b, j, stray);
    assert Echoed(a.descs[c]) && a.descs[c].faults == 0;
    hide AcceptHalf, Echo, Stops, TurnTaken, Echoed;
    var y :| TurnTaken(m.descs[c], b.descs[c], y, stray) && b.sock[j] == if Drops(y) then INVALID_SOCK else m.sock[j];
    x := y;
    TurnMeans(a.descs[c], b.descs[c], x, stray);
    DropsIffTurnError(a.descs[c], b.descs[c], x, stray);
  }

  lemma DropsIffTurnError(was: Desc, now: Desc, x: Exchange, stray: int -> char)
    requires TurnTaken(was, now, x, stray) && now.errs == was.errs + TurnErrors(x)
    ensures !Drops(x) <==> forall e :: e in now.errs[|was.errs|..] ==> e in {InProgress, Again, WouldBlock}
  {
    DropsIffError(x);
    assert now.errs[|was.errs|..] == TurnErrors(x);
    hide Drops, TurnErrors, Ended;
  }

  lemma OccupiedTail(sock: seq<int>, i: nat)
    requires i < |sock| && Distinct(sock)
    ensures Occupied(sock[i..]) == Occupied(sock[i + 1..]) + if sock[i] == INVALID_SOCK then {} else {sock[i]}
    ensures sock[i] !in Occupied(sock[i + 1..])
  {
    var a, b := sock[i..], sock[i + 1..];
    forall x | x in Occupied(b) ensures x in Occupied(a) {
      var j :| 0 <= j < |b| && b[j] != INVALID_SOCK && b[j] == x;
      assert a[j + 1] == x;
    }
    forall x | x in Occupied(a) && x != sock[i] ensures x in Occupied(b) {
      var j :| 0 <= j < |a| && a[j] != INVALID_SOCK && a[j] == x;
      assert b[j - 1] == x;
    }
    if sock[i] != INVALID_SOCK {
      assert a[0] == sock[i];
    }
  }
}
