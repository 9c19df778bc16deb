/** The hand-made TCP server: a packet log fed by the sniffer, waits that search it, and one session at a time. */
module TcpServer {
  import opened Decimal
  import opened CStrings
  import opened Math
  import opened TcpSegments

  datatype Option<T> = None | Some(value: T)

  /** A captured packet. `raw`: its payload, if it has one. */
  datatype Packet = Packet(tcpIp: bool, srcIp: string, srcPort: nat, dstPort: nat, flags: nat,
                           seqno: nat, ack: nat, raw: Option<string>, time: nat)

  const FIN := 0x01
  const SYN := 0x02
  const ACK := 0x10

  predicate HasFlag(p: Packet, bit: nat)
    requires bit > 0
  {
    p.flags / bit % 2 == 1
  }

  const LOG_SIZE := 100

  // ---- the packet log ----

  predicate Relevant(p: Packet, port: nat) { p.tcpIp && (p.srcPort == port || p.dstPort == port) }

  /** The log after one more captured packet. */
  function Logged(log: seq<Packet>, p: Packet, port: nat): seq<Packet> {
    if !Relevant(p, port) then log
    else if |log| + 1 > LOG_SIZE then (log + [p])[1..] else log + [p]
  }

  function LoggedAll(log: seq<Packet>, ps: seq<Packet>, port: nat): seq<Packet> {
    if ps == [] then log else Logged(LoggedAll(log, ps[..|ps| - 1], port), ps[|ps| - 1], port)
  }

  function OnPort(ps: seq<Packet>, port: nat): seq<Packet> {
    if ps == [] then []
    else OnPort(ps[..|ps| - 1], port) + if Relevant(ps[|ps| - 1], port) then [ps[|ps| - 1]] else []
  }

  function Last(ps: seq<Packet>, n: nat): seq<Packet> { if |ps| <= n then ps else ps[|ps| - n..] }

  /** After any capture the log holds exactly the last 100 packets on the port, in the order of arrival. */
  lemma {:induction false} LogIsLastHundred(ps: seq<Packet>, port: nat)
    ensures LoggedAll([], ps, port) == Last(OnPort(ps, port), 100)
  {
    if ps != [] {
      LogIsLastHundred(ps[..|ps| - 1], port);
    }
  }

  lemma {:induction false} LoggedAllAppend(log: seq<Packet>, a: seq<Packet>, b: seq<Packet>, port: nat)
    ensures LoggedAll(log, a + b, port) == LoggedAll(LoggedAll(log, a, port), b, port)
  {
    if b == [] {
      assert a + b == a;
    } else {
      assert (a + b)[..|a + b| - 1] == a + b[..|b| - 1];
      LoggedAllAppend(log, a, b[..|b| - 1], port);
    }
  }

  function Flatten(polls: seq<seq<Packet>>): seq<Packet> {
    if polls == [] then [] else Flatten(polls[..|polls| - 1]) + polls[|polls| - 1]
  }

  // ---- what the waits look for ----

  /** The three flags by their places in the flag byte. */
  lemma FlagsAre(p: Packet)
    ensures HasFlag(p, FIN) <==> p.flags % 2 == 1
    ensures HasFlag(p, SYN) <==> p.flags % 4 >= 2
    ensures HasFlag(p, ACK) <==> p.flags % 32 >= 16
  {
    FlagAt(p.flags, 1);
    FlagAt(p.flags, 2);
    FlagAt(p.flags, 16);
  }

  lemma FlagAt(flags: nat, bit: nat)
    requires bit in {1, 2, 16}
    ensures flags / bit % 2 == 1 <==> flags % (2 * bit) >= bit
  {
  }

  datatype Peer = Peer(ip: string, port: nat)

  datatype Wanted = AnySyn | HandshakeAck(peer: Peer, ack: int) | Get(peer: Peer) | DataAck(peer: Peer, ack: int)

  predicate FromPeer(p: Packet, peer: Peer) { p.tcpIp && p.srcIp == peer.ip && p.srcPort == peer.port }

  predicate Admissible(w: Wanted, p: Packet, port: nat) {
    && p.tcpIp && p.dstPort == port
    && match w
       case AnySyn => HasFlag(p, SYN)
       case HandshakeAck(peer, ack) => FromPeer(p, peer) && HasFlag(p, ACK) && p.raw.None? && p.ack == ack
       case Get(peer) => p.raw.Some? && FromPeer(p, peer) && FindText(p.raw.value, "GET", 0) >= 0
       case DataAck(peer, ack) => FromPeer(p, peer) && HasFlag(p, ACK) && p.ack == ack
  }

  /** Position `i` is the latest admissible packet of the log that is not older than `since`. */
  ghost predicate IsLatest(log: seq<Packet>, w: Wanted, port: nat, since: nat, i: int) {
    && 0 <= i < |log| && Admissible(w, log[i], port) && log[i].time >= since
    && forall j :: i < j < |log| ==> !(Admissible(w, log[j], port) && log[j].time >= since)
  }

  ghost predicate NoneIn(log: seq<Packet>, w: Wanted, port: nat, since: nat) {
    forall j :: 0 <= j < |log| ==> !(Admissible(w, log[j], port) && log[j].time >= since)
  }

  /** What the sniffer does around one wait: the packets captured between the wait before and the first look, the
      time the wait starts, and the packets captured before each poll. */
  datatype Watch = Watch(early: seq<Packet>, start: nat, polls: seq<seq<Packet>>)

  /** The log at look `k` of a wait, and from when on its packets count then: the first look takes any. */
  function LogAt(log: seq<Packet>, watch: Watch, k: nat, port: nat): seq<Packet>
    requires k <= |watch.polls|
  {
    LoggedAll(log, watch.early + Flatten(watch.polls[..k]), port)
  }

  function Since(k: nat, start: nat): nat { if k == 0 then 0 else start }

  ghost predicate Misses(log: seq<Packet>, w: Wanted, port: nat, watch: Watch, k: nat)
    requires k <= |watch.polls|
  {
    NoneIn(LogAt(log, watch, k, port), w, port, Since(k, watch.start))
  }

  /** The first `n` looks have missed. */
  ghost predicate MissedUpTo(log: seq<Packet>, w: Wanted, port: nat, watch: Watch, n: nat)
    requires n <= |watch.polls| + 1
  {
    forall k: nat :: k < n ==> Misses(log, w, port, watch, k)
  }

  /** A wait that began with `log` came out with `found`, at the first look that showed an admissible packet, and
      with the latest one there; or it gave up after every look had missed. It left the log as `after`. */
  ghost predicate Waited(log: seq<Packet>, w: Wanted, port: nat, watch: Watch, found: Option<Packet>,
                         after: seq<Packet>) {
    exists used: nat :: used <= |watch.polls| && after == LogAt(log, watch, used, port)
      && MissedUpTo(log, w, port, watch, used)
      && match found
         case None => used == |watch.polls| && Misses(log, w, port, watch, used)
         case Some(p) => exists i :: IsLatest(after, w, port, Since(used, watch.start), i) && p == after[i]
  }

  lemma FirstLook(log: seq<Packet>, w: Wanted, port: nat, watch: Watch)
    ensures LogAt(log, watch, 0, port) == LoggedAll(log, watch.early, port) && Since(0, watch.start) == 0
    ensures MissedUpTo(log, w, port, watch, 0)
    ensures NoneIn(LogAt(log, watch, 0, port), w, port, 0) ==> MissedUpTo(log, w, port, watch, 1)
  {
    assert watch.polls[..0] == [];
    assert watch.early + [] == watch.early;
  }

  lemma LogAtNext(log: seq<Packet>, watch: Watch, k: nat, port: nat)
    requires k < |watch.polls|
    ensures LogAt(log, watch, k + 1, port) == LoggedAll(LogAt(log, watch, k, port), watch.polls[k], port)
  {
    var polls := watch.polls;
    assert polls[..k + 1][..k] == polls[..k];
    LoggedAllAppend(log, watch.early + Flatten(polls[..k]), polls[k], port);
    assert watch.early + Flatten(polls[..k]) + polls[k] == watch.early + (Flatten(polls[..k]) + polls[k]);
  }

  lemma NextLook(log: seq<Packet>, w: Wanted, port: nat, watch: Watch, k: nat)
    requires k < |watch.polls| && MissedUpTo(log, w, port, watch, k + 1)
    ensures var now := LogAt(log, watch, k + 1, port);
      && now == LoggedAll(LogAt(log, watch, k, port), watch.polls[k], port) && Since(k + 1, watch.start) == watch.start
      && (NoneIn(now, w, port, watch.start) ==> MissedUpTo(log, w, port, watch, k + 2))
  {
    LogAtNext(log, watch, k, port);
    hide NoneIn, LoggedAll, LogAt;
    assert Misses(log, w, port, watch, k + 1) <==> NoneIn(LogAt(log, watch, k + 1, port), w, port, watch.start);
  }

  lemma Finds(log: seq<Packet>, w: Wanted, port: nat, watch: Watch, used: nat, i: int, after: seq<Packet>)
    requires used <= |watch.polls| && after == LogAt(log, watch, used, port) && MissedUpTo(log, w, port, watch, used)
    requires IsLatest(after, w, port, Since(used, watch.start), i)
    ensures 0 <= i < |after| && Waited(log, w, port, watch, Some(after[i]), after)
  {
    hide LogAt, MissedUpTo, Since;
  }

  lemma GivesUp(log: seq<Packet>, w: Wanted, port: nat, watch: Watch, after: seq<Packet>)
    requires after == LogAt(log, watch, |watch.polls|, port) && MissedUpTo(log, w, port, watch, |watch.polls| + 1)
    ensures Waited(log, w, port, watch, None, after)
  {
    hide LogAt, Misses;
  }

  // ---- packets sent ----

  datatype Out = SynAck(seqno: int, ack: int) | PureAck(seqno: int, ack: int)
    | Data(segment: Segment, ack: int) | FinAck(seqno: int, ack: int)

  function Headers(length: nat): string {
    "HTTP/1.1 200 OK\r\n" + "Content-Type: text/plain\r\n" + "Content-Length: " + PrintNat(length) + "\r\n"
    + "Connection: close\r\n" + "\r\n"
  }

  function AsData(segs: seq<Segment>, ack: int): seq<Out> {
    if segs == [] then [] else [Data(segs[0], ack)] + AsData(segs[1..], ack)
  }

  class Server {
    const port: nat
    const responseData: string
    var seqno: int
    var ack: int
    var peer: Peer
    var packets: seq<Packet>
    var sent: seq<Out>          // everything handed to `send`

    ghost var captured: seq<Packet>

    constructor (port: nat, responseData: string)
      ensures this.port == port && this.responseData == responseData && sent == []
      ensures Faithful() && captured == []
    {
      this.port, this.responseData := port, responseData;
      seqno, ack, peer := 0, 0, Peer("", 0);
      packets, sent, captured := [], [], [];
    }

    /** The log now, and how many packets have been captured. */
    ghost function Here(): Moment
      reads this
    {
      Moment(|captured|, packets)
    }

    /** The log is what all packets captured so far leave in it. */
    ghost predicate Faithful()
      reads this
    {
      packets == LoggedAll([], captured, port)
    }

    /** The sniffer's callback. */
    method Capture(p: Packet)
      modifies `packets, `captured
      ensures packets == Logged(old(packets), p, port) && captured == old(captured) + [p]
      ensures old(Faithful()) ==> Faithful()
    {
      captured := captured + [p];
      assert captured[..|captured| - 1] == old(captured);
      if p.tcpIp {
        if p.srcPort == port || p.dstPort == port {
          packets := packets + [p];
          if |packets| > LOG_SIZE {
            packets := packets[1..];
          }
        }
      }
    }

    method CaptureAll(ps: seq<Packet>)
      modifies `packets, `captured
      ensures packets == LoggedAll(old(packets), ps, port) && captured == old(captured) + ps
      ensures old(Faithful()) ==> Faithful()
    {
      assert ps[..0] == [];
      for i := 0 to |ps|
        invariant packets == LoggedAll(old(packets), ps[..i], port) && captured == old(captured) + ps[..i]
        invariant old(Faithful()) ==> Faithful()
      {
        Capture(ps[i]);
        assert ps[..i + 1][..i] == ps[..i];
      }
      assert ps[..|ps|] == ps;
    }

    /** Searches the log from its end, passing over what is older than `since`. */
    method FindLatest(w: Wanted, since: nat) returns (i: int)
      ensures if i < 0 then i == -1 && NoneIn(packets, w, port, since) else IsLatest(packets, w, port, since, i)
    {
      i := |packets| - 1;
      while i >= 0
        invariant -1 <= i < |packets|
        invariant forall j :: i < j < |packets| ==> !(Admissible(w, packets[j], port) && packets[j].time >= since)
      {
        if packets[i].time >= since && Admissible(w, packets[i], port) {
          return;
        }
        i := i - 1;
      }
    }

    /** A wait: one look at the whole log, then polls that consider only packets captured since the start. It gives
        up after the last poll. */
    method Await(w: Wanted, watch: Watch) returns (found: Option<Packet>)
      requires Faithful()
      modifies `packets, `captured
      ensures Faithful() && old(captured) <= captured
      ensures Waited(old(packets), w, port, watch, found, packets)
    {
      ghost var log := packets;
      CaptureAll(watch.early);
      FirstLook(log, w, port, watch);
      hide *;
      var i := FindLatest(w, 0);
      if i >= 0 {
        Finds(log, w, port, watch, 0, i, packets);
        return Some(packets[i]);
      }
      for k := 0 to |watch.polls|
        invariant Faithful() && old(captured) <= captured
        invariant packets == LogAt(log, watch, k, port)
        invariant MissedUpTo(log, w, port, watch, k + 1)
      {
        CaptureAll(watch.polls[k]);
        NextLook(log, w, port, watch, k);
        i := FindLatest(w, watch.start);
        if i >= 0 {
          Finds(log, w, port, watch, k + 1, i, packets);
          return Some(packets[i]);
        }
      }
      GivesUp(log, w, port, watch, packets);
      found := None;
    }

    /** Sends one segment and moves on, after waiting for its acknowledgement unless it is the last; a missing
        acknowledgement only costs time. */
    method SendSegment(data: string, isLast: bool, watch: Watch)
      requires Faithful()
      modifies this
      ensures Faithful() && old(captured) <= captured
      ensures sent == old(sent) + [Data(Segment(old(seqno), data), ack)] && seqno == old(seqno) + |data|
      ensures peer == old(peer) && ack == old(ack)
      ensures SegmentWait(Segment(old(seqno), data), isLast, peer, port, watch, old(packets), packets)
    {
      sent := sent + [Data(Segment(seqno, data), ack)];
      var next := seqno + |data|;
      if !isLast {
        hide Waited;
        var answer := Await(DataAck(peer, next), watch);
      }
      seqno := next;
    }

    /** One pass of the loop that sends the response: the chunk `i` of size `size` from `pos` on. */
    method SendChunk(payload: string, pos: nat, size: nat, isLast: bool, watch: Watch, ghost job: Response,
                     ghost done: seq<Segment>, ghost i: nat, ghost ms: seq<Moment>)
      returns (end: nat, ghost more: seq<Segment>, ghost next: seq<Moment>)
      requires Faithful() && Midway(job, sent, done, i, pos, ms, packets, captured)
      requires i < |job.sizes| && i < |job.watches| && pos < |payload| && payload == job.payload
      requires size == job.sizes[i] && isLast == (i + 1 == |job.sizes|) && watch == job.watches[i]
      requires seqno == job.base + pos && peer == job.peer && ack == job.ack && port == job.port
      modifies this
      ensures Faithful() && old(captured) <= captured && peer == old(peer) && ack == old(ack)
      ensures end <= |payload| && seqno == job.base + end
      ensures Midway(job, sent, more, i + 1, end, next, packets, captured)
    {
      hide Midway, SegmentWait, LoggedAll;
      ghost var was, log, seen := sent, packets, captured;
      InRange(job, was, done, i, pos, ms, log, seen);
      end := Min(pos + size, |payload|);
      var data := payload[pos..end];
      ghost var seg := Segment(seqno, data);
      SendSegment(data, isLast, watch);
      GoesOn(job, was, done, i, pos, ms, log, seen, seg, end, packets, captured);
      more, next := done + [seg], ms + [Moment(|captured|, packets)];
    }

    /** Cuts the response into segments and sends them. `ms` are the log before the first segment and after each. */
    method SendHttpResponse(watches: seq<Watch>) returns (ghost ms: seq<Moment>)
      requires |watches| == 3 && Faithful()
      modifies this
      ensures Faithful() && old(captured) <= captured
      ensures peer == old(peer) && ack == old(ack)
      ensures SentInOrder(Headers(|responseData|) + responseData, old(seqno), ack, old(sent), sent)
      ensures WaitedInOrder(Headers(|responseData|) + responseData, old(seqno), peer, port, watches, ms)
      ensures FromTo(ms, Moment(|old(captured)|, old(packets)), Moment(|captured|, packets), captured, port)
      ensures seqno == old(seqno) + |Headers(|responseData|) + responseData|
    {
      var payload := Headers(|responseData|) + responseData;
      var sizes := ChunkSizes(|payload|);
      var pos: nat := 0;
      var i: nat := 0;
      ghost var job := Response(payload, sizes, sent, seqno, ack, peer, port, watches,
                               Moment(|captured|, packets));
      ghost var done := [];
      ms := [job.first];
      Begins(job, packets, captured);
      hide *;
      while i < |sizes| && pos < |payload|
        invariant i <= |sizes| && pos <= |payload| && seqno == job.base + pos
        invariant peer == job.peer && ack == job.ack && Faithful() && old(captured) <= captured
        invariant Midway(job, sent, done, i, pos, ms, packets, captured)
        decreases |sizes| - i
      {
        InRange(job, sent, done, i, pos, ms, packets, captured);
        var end;
        end, done, ms := SendChunk(payload, pos, sizes[i], i + 1 == |sizes|, watches[i], job, done, i, ms);
        pos := end;
        i := i + 1;
      }
      Finishes(job, sent, done, i, pos, ms, packets, captured);
    }

    /** Waits for a SYN and records its sender; `initial` is the random initial number. */
    method WaitForSyn(watch: Watch, initial: nat) returns (syn: Option<Packet>)
      requires Faithful()
      modifies this
      ensures Faithful() && old(captured) <= captured
      ensures sent == old(sent)
      ensures Waited(old(packets), AnySyn, port, watch, syn, packets)
      ensures syn.Some? ==>
        peer == Peer(syn.value.srcIp, syn.value.srcPort) && ack == syn.value.seqno + 1 && seqno == initial
    {
      syn := Await(AnySyn, watch);
      if syn.Some? {
        peer := Peer(syn.value.srcIp, syn.value.srcPort);
        ack := syn.value.seqno + 1;
        seqno := initial;
      }
    }

    /** Completes the handshake on an ACK without payload, from the client, for exactly the next number. */
    method WaitForAck(watch: Watch) returns (handshake: Option<Packet>)
      requires Faithful()
      modifies this
      ensures Faithful() && old(captured) <= captured
      ensures sent == old(sent) && peer == old(peer) && ack == old(ack)
      ensures Waited(old(packets), HandshakeAck(peer, old(seqno) + 1), port, watch, handshake, packets)
      ensures seqno == old(seqno) + if handshake.Some? then 1 else 0
    {
      handshake := Await(HandshakeAck(peer, seqno + 1), watch);
      if handshake.Some? {
        seqno := seqno + 1;
      }
    }

    method WaitForGet(watch: Watch) returns (get: Option<Packet>)
      requires Faithful()
      modifies this
      ensures Faithful() && old(captured) <= captured
      ensures sent == old(sent) && peer == old(peer) && seqno == old(seqno)
      ensures Waited(old(packets), Get(peer), port, watch, get, packets)
      ensures get.Some? ==> get.value.raw.Some? && ack == get.value.seqno + |get.value.raw.value|
    {
      get := Await(Get(peer), watch);
      if get.Some? {
        ack := get.value.seqno + |get.value.raw.value|;
      }
    }

    /** Sniffs for the client's FIN, at most 120 times, and answers the first one. `sniffed[k]` is what passes during
        attempt k. */
    method WaitForFin(sniffed: seq<seq<Packet>>) returns (fin: Option<Packet>)
      modifies `ack, `sent
      ensures Sniffed(sniffed, peer, port, fin)
      ensures sent == old(sent) + if fin.Some? then [FinAck(seqno, fin.value.seqno + 1)] else []
    {
      var timeouts := 0;
      while timeouts < FIN_ATTEMPTS && timeouts < |sniffed|
        invariant 0 <= timeouts <= Min(|sniffed|, FIN_ATTEMPTS)
        invariant forall k :: 0 <= k < timeouts ==> FirstFin(sniffed[k], peer, port).None?
      {
        fin := FirstFin(sniffed[timeouts], peer, port);
        if fin.Some? {
          ack := fin.value.seqno + 1;
          sent := sent + [FinAck(seqno, ack)];
          return;
        }
        timeouts := timeouts + 1;
      }
      fin := None;
    }

    /** The part of a session after the GET: acknowledge it, send the response, answer the FIN. */
    method Respond(env: Environment) returns (fin: Option<Packet>, ghost ms: seq<Moment>)
      requires |env.data| == 3 && Faithful()
      modifies this
      ensures Faithful() && old(captured) <= captured
      ensures Sniffed(env.sniffed, old(peer), port, fin)
      ensures sent == old(sent) + Answer(old(seqno), old(ack), Headers(|responseData|) + responseData, fin)
      ensures WaitedInOrder(Headers(|responseData|) + responseData, old(seqno), old(peer), port, env.data, ms)
      ensures FromTo(ms, Moment(|old(captured)|, old(packets)), Moment(|captured|, packets), captured, port)
    {
      ghost var payload := Headers(|responseData|) + responseData;
      ghost var data := AsData(Segments(payload, ChunkSizes(|payload|), 0, seqno), ack);
      ghost var before, s, a := sent, seqno, ack;
      hide *;
      sent := sent + [PureAck(seqno, ack)];
      ms := SendHttpResponse(env.data);
      SentIs(payload, s, a, before + [PureAck(s, a)], sent);
      fin := WaitForFin(env.sniffed);
      ghost var end := if fin.Some? then [FinAck(s + |payload|, fin.value.seqno + 1)] else [];
      AnswerIs(s, a, payload, fin);
      Associative(before, [PureAck(s, a)], data);
      Associative(before, [PureAck(s, a)] + data, end);
    }

    /** The opening of a session: SYN, SYN/ACK, ACK. `ms` are the logs before and after its waits. */
    method Greet(env: Environment) returns (syn: Option<Packet>, handshake: Option<Packet>, ghost ms: seq<Moment>)
      requires Faithful()
      modifies this
      ensures Faithful() && old(captured) <= captured
      ensures |ms| == (if syn.Some? then 3 else 2) && ms[0] == old(Here()) && ms[|ms| - 1] == Here()
      ensures Moments(ms, captured, port)
      ensures Waited(ms[0].log, AnySyn, port, env.syn, syn, ms[1].log)
      ensures syn.None? ==> sent == old(sent) && handshake.None?
      ensures syn.Some? ==> peer == Peer(syn.value.srcIp, syn.value.srcPort)
      ensures syn.Some? ==> sent == old(sent) + [SynAck(env.initial, syn.value.seqno + 1)]
      ensures syn.Some? ==>
        Waited(ms[1].log, HandshakeAck(peer, env.initial + 1), port, env.ack, handshake, ms[2].log)
      ensures handshake.Some? ==> seqno == env.initial + 1
    {
      hide Waited, Admissible, Moments, LoggedAll;
      ms := [Here()];
      FirstMoment(packets, captured, port);
      ghost var seen := captured;
      syn := WaitForSyn(env.syn, env.initial);
      NextMoment(ms, seen, captured, packets, port);
      handshake, ms := None, ms + [Here()];
      if syn.Some? {
        sent := sent + [SynAck(seqno, ack)];
        seen := captured;
        handshake := WaitForAck(env.ack);
        NextMoment(ms, seen, captured, packets, port);
        ms := ms + [Here()];
      }
    }

    /** One session of `run`: the waits in their order, each on the log the one before it left, and exactly the
        packets that go with how far the session got. `ms` are the logs before and after its waits. */
    method Session(env: Environment) returns (trace: Trace, ghost ms: seq<Moment>)
      requires |env.data| == 3 && Faithful()
      modifies this
      ensures Faithful() && old(captured) <= captured
      ensures |ms| >= 2 && ms[0] == old(Here()) && ms[|ms| - 1] == Here() && Moments(ms, captured, port)
      ensures SessionWaits(trace, env, port, Headers(|responseData|) + responseData, ms)
      ensures sent == old(sent) + SessionPackets(trace, env.initial, Headers(|responseData|) + responseData)
    {
      hide Waited, Admissible, Answer, Headers, Sniffed, LoggedAll, Moments, WaitedInOrder;
      var syn, handshake;
      syn, handshake, ms := Greet(env);
      if syn.None? {
        assert sent == old(sent) + [];
        return NoSyn, ms;
      }
      if handshake.None? {
        return NoHandshake(syn.value), ms;
      }
      ghost var seen := captured;
      var get := WaitForGet(env.get);
      NextMoment(ms, seen, captured, packets, port);
      ms := ms + [Here()];
      if get.None? {
        return NoGet(syn.value, handshake.value), ms;
      }
      ghost var ack1 := ack;
      seen := captured;
      var fin;
      ghost var data;
      fin, data := Respond(env);
      JoinMoments(ms, data, seen, captured, port);
      ms := ms + data[1..];
      assert ms[3..] == data;
      trace := Served(syn.value, handshake.value, get.value, fin);
      ghost var payload := Headers(|responseData|) + responseData;
      ghost var opening := [SynAck(env.initial, syn.value.seqno + 1)];
      assert sent == old(sent) + (opening + Answer(env.initial + 1, ack1, payload, fin));
    }

    /** `run`: session after session on one log that is never cleared. */
    method Run(envs: seq<Environment>) returns (traces: seq<Trace>, ghost logs: seq<seq<Moment>>)
      requires Faithful() && forall k :: 0 <= k < |envs| ==> |envs[k].data| == 3
      modifies this
      ensures Faithful() && old(captured) <= captured
      ensures |traces| == |envs|
      ensures RunWaits(traces, envs, port, Headers(|responseData|) + responseData, logs, captured)
      ensures Chained(logs, old(Here()), Here())
      ensures sent == old(sent) + RunPackets(traces, envs, Headers(|responseData|) + responseData)
    {
      traces, logs := [], [];
      ghost var payload, start, first := Headers(|responseData|) + responseData, sent, Here();
      assert sent == start + RunPackets([], envs, payload) && RunWaits([], envs, port, payload, [], captured);
      hide *;
      for i := 0 to |envs|
        invariant Faithful() && old(captured) <= captured && |traces| == i
        invariant RunWaits(traces, envs, port, payload, logs, captured) && Chained(logs, first, Here())
        invariant sent == start + RunPackets(traces, envs, payload)
      {
        var trace;
        ghost var these, seen := [], captured;
        trace, these := Session(envs[i]);
        RunOneMore(traces, envs, port, logs, seen, captured, trace, these, payload);
        ChainedNext(logs, first, these);
        Associative(start, RunPackets(traces, envs, payload), SessionPackets(trace, envs[i].initial, payload));
        traces := traces + [trace];
        logs := logs + [these];
      }
    }
  }

  /** The packets that answer a GET, the first of them numbered `seqno` like the first byte of the payload. */
  function Answer(seqno: int, ack: int, payload: string, fin: Option<Packet>): seq<Out> {
    [PureAck(seqno, ack)] + AsData(Segments(payload, ChunkSizes(|payload|), 0, seqno), ack)
    + if fin.Some? then [FinAck(seqno + |payload|, fin.value.seqno + 1)] else []
  }

  lemma AnswerIs(seqno: int, ack: int, payload: string, fin: Option<Packet>)
    ensures Answer(seqno, ack, payload, fin) ==
      [PureAck(seqno, ack)] + AsData(Segments(payload, ChunkSizes(|payload|), 0, seqno), ack)
      + if fin.Some? then [FinAck(seqno + |payload|, fin.value.seqno + 1)] else []
  {
    hide AsData, Segments, ChunkSizes;
  }

  lemma SentIs(payload: string, base: int, ack: int, before: seq<Out>, after: seq<Out>)
    requires SentInOrder(payload, base, ack, before, after)
    ensures after == before + AsData(Segments(payload, ChunkSizes(|payload|), 0, base), ack)
  {
    hide AsData, Segments, ChunkSizes;
  }

  /** Everything that happens around one session. */
  datatype Environment = Environment(
    initial: nat, syn: Watch, ack: Watch, get: Watch, data: seq<Watch>, sniffed: seq<seq<Packet>>)

  /** How far a session got and on which packets. */
  datatype Trace = NoSyn | NoHandshake(syn: Packet) | NoGet(syn: Packet, handshake: Packet)
    | Served(syn: Packet, handshake: Packet, get: Packet, fin: Option<Packet>)

  predicate IsFin(p: Packet, peer: Peer, port: nat) { FromPeer(p, peer) && HasFlag(p, FIN) && p.dstPort == port }

  /** The first FIN from the peer among the packets of one attempt. */
  function FirstFin(ps: seq<Packet>, peer: Peer, port: nat): (fin: Option<Packet>)
    ensures fin.Some? ==> fin.value in ps && IsFin(fin.value, peer, port)
    ensures fin.None? ==> forall p :: p in ps ==> !IsFin(p, peer, port)
  {
    if ps == [] then None
    else if IsFin(ps[0], peer, port) then Some(ps[0])
    else
      var fin := FirstFin(ps[1..], peer, port);
      assert ps == [ps[0]] + ps[1..];
      fin
  }

  const FIN_ATTEMPTS := 120

  /** `fin` is the first FIN of the first attempt that saw one, or no attempt saw any. */
  ghost predicate Sniffed(sniffed: seq<seq<Packet>>, peer: Peer, port: nat, fin: Option<Packet>) {
    match fin
    case None => forall k :: 0 <= k < Min(|sniffed|, FIN_ATTEMPTS) ==> FirstFin(sniffed[k], peer, port).None?
    case Some(_) =>
      exists k ::
        && 0 <= k < Min(|sniffed|, FIN_ATTEMPTS)
        && FirstFin(sniffed[k], peer, port) == fin
        && forall j :: 0 <= j < k ==> FirstFin(sniffed[j], peer, port).None?
  }

  /** The log when `n` packets had been captured. */
  datatype Moment = Moment(n: nat, log: seq<Packet>)

  /** The log was the last 100 packets on the port among the first `n` captured. */
  ghost predicate IsMoment(m: Moment, captured: seq<Packet>, port: nat) {
    m.n <= |captured| && m.log == Last(OnPort(captured[..m.n], port), LOG_SIZE)
  }

  /** Consecutive moments of a run. */
  ghost predicate Moments(ms: seq<Moment>, captured: seq<Packet>, port: nat) {
    && (forall k :: 0 <= k < |ms| ==> IsMoment(ms[k], captured, port))
    && (forall k :: 0 < k < |ms| ==> ms[k - 1].n <= ms[k].n)
  }

  lemma NowIsMoment(packets: seq<Packet>, captured: seq<Packet>, port: nat)
    requires packets == LoggedAll([], captured, port)
    ensures IsMoment(Moment(|captured|, packets), captured, port)
  {
    LogIsLastHundred(captured, port);
    assert captured[..|captured|] == captured;
  }

  lemma FirstMoment(packets: seq<Packet>, captured: seq<Packet>, port: nat)
    requires packets == LoggedAll([], captured, port)
    ensures Moments([Moment(|captured|, packets)], captured, port)
  {
    NowIsMoment(packets, captured, port);
  }

  /** More packets do not change what the log was. */
  lemma MomentsLater(ms: seq<Moment>, seen: seq<Packet>, captured: seq<Packet>, port: nat)
    requires Moments(ms, seen, port) && seen <= captured
    ensures Moments(ms, captured, port)
  {
    forall k | 0 <= k < |ms|
      ensures IsMoment(ms[k], captured, port)
    {
      assert IsMoment(ms[k], seen, port) && captured[..ms[k].n] == seen[..ms[k].n];
    }
  }

  lemma NextMoment(ms: seq<Moment>, seen: seq<Packet>, captured: seq<Packet>, packets: seq<Packet>, port: nat)
    requires Moments(ms, seen, port) && seen <= captured && packets == LoggedAll([], captured, port)
    ensures Moments(ms + [Moment(|captured|, packets)], captured, port)
  {
    MomentsLater(ms, seen, captured, port);
    NowIsMoment(packets, captured, port);
    assert forall k :: 0 <= k < |ms| ==> IsMoment(ms[k], captured, port);
    hide LoggedAll, OnPort, Last;
  }

  lemma JoinMoments(ms: seq<Moment>, more: seq<Moment>, seen: seq<Packet>, captured: seq<Packet>, port: nat)
    requires Moments(ms, seen, port) && seen <= captured && Moments(more, captured, port)
    requires ms != [] && more != [] && more[0] == ms[|ms| - 1]
    ensures Moments(ms + more[1..], captured, port)
  {
    MomentsLater(ms, seen, captured, port);
    hide IsMoment;
    var all := ms + more[1..];
    forall k | |ms| <= k < |all|
      ensures all[k] == more[k - |ms| + 1]
    {
    }
  }

  /** The logs of consecutive sessions, from the moment `first` to the moment `last`. */
  ghost predicate Chained(logs: seq<seq<Moment>>, first: Moment, last: Moment) {
    && (forall k :: 0 <= k < |logs| ==> logs[k] != [])
    && if logs == [] then first == last
       else
         && logs[0][0] == first && logs[|logs| - 1][|logs[|logs| - 1]| - 1] == last
         && forall k :: 0 < k < |logs| ==> logs[k][0] == logs[k - 1][|logs[k - 1]| - 1]
  }

  lemma ChainedNext(logs: seq<seq<Moment>>, first: Moment, ms: seq<Moment>)
    requires ms != [] && Chained(logs, first, ms[0])
    ensures Chained(logs + [ms], first, ms[|ms| - 1])
  {
  }

  /** A wait with whatever success. */
  ghost predicate WaitedFor(before: seq<Packet>, w: Wanted, port: nat, watch: Watch, after: seq<Packet>) {
    exists found :: Waited(before, w, port, watch, found, after)
  }

  /** The wait after a segment: for the number after it; there is none after the last chunk. */
  ghost predicate SegmentWait(s: Segment, isLast: bool, peer: Peer, port: nat, watch: Watch, before: seq<Packet>,
                              after: seq<Packet>) {
    if isLast then after == before
    else WaitedFor(before, DataAck(peer, s.seqno + |s.data|), port, watch, after)
  }

  /** The waits of a response of these segments, cut into `n` chunks, each on the log the one before it left. */
  ghost predicate DataWaits(segs: seq<Segment>, n: nat, peer: Peer, port: nat, watches: seq<Watch>, ms: seq<Moment>) {
    && |ms| == |segs| + 1 && |segs| <= n <= |watches|
    && forall k :: 0 <= k < |segs| ==>
         SegmentWait(segs[k], k + 1 == n, peer, port, watches[k], ms[k].log, ms[k + 1].log)
  }

  /** Exactly the segments of `payload` have been sent, in their order. */
  predicate SentInOrder(payload: string, base: int, ack: int, before: seq<Out>, after: seq<Out>) {
    after == before + AsData(Segments(payload, ChunkSizes(|payload|), 0, base), ack)
  }

  /** And each but the last was followed by the wait for its acknowledgement. */
  ghost predicate WaitedInOrder(payload: string, base: int, peer: Peer, port: nat, watches: seq<Watch>,
                                ms: seq<Moment>) {
    var sizes := ChunkSizes(|payload|);
    DataWaits(Segments(payload, sizes, 0, base), |sizes|, peer, port, watches, ms)
  }

  /** The moments of a run from `first` to `last`. */
  ghost predicate FromTo(ms: seq<Moment>, first: Moment, last: Moment, captured: seq<Packet>, port: nat) {
    ms != [] && ms[0] == first && ms[|ms| - 1] == last && Moments(ms, captured, port)
  }

  /** The same in the middle of the sending loop, after `i` segments. */
  ghost predicate WaitedSoFar(done: seq<Segment>, i: nat, n: nat, peer: Peer, port: nat, watches: seq<Watch>,
                              ms: seq<Moment>, first: Moment, packets: seq<Packet>, captured: seq<Packet>) {
    && DataWaits(done, n, peer, port, watches, ms) && |done| == i
    && ms[0] == first && ms[i] == Moment(|captured|, packets) && Moments(ms, captured, port)
  }

  lemma NoWaits(n: nat, peer: Peer, port: nat, watches: seq<Watch>, packets: seq<Packet>, captured: seq<Packet>)
    requires n <= |watches| && packets == LoggedAll([], captured, port)
    ensures var m := Moment(|captured|, packets);
      WaitedSoFar([], 0, n, peer, port, watches, [m], m, packets, captured)
  {
    FirstMoment(packets, captured, port);
    hide LoggedAll;
  }

  lemma NextWait(done: seq<Segment>, i: nat, n: nat, peer: Peer, port: nat, watches: seq<Watch>, ms: seq<Moment>,
                 first: Moment, log: seq<Packet>, seen: seq<Packet>, s: Segment, packets: seq<Packet>,
                 captured: seq<Packet>)
    requires WaitedSoFar(done, i, n, peer, port, watches, ms, first, log, seen) && i < n <= |watches|
    requires SegmentWait(s, i + 1 == n, peer, port, watches[i], log, packets)
    requires seen <= captured && packets == LoggedAll([], captured, port)
    ensures WaitedSoFar(done + [s], i + 1, n, peer, port, watches, ms + [Moment(|captured|, packets)], first, packets,
                        captured)
  {
    NextMoment(ms, seen, captured, packets, port);
    hide SegmentWait, Moments, LoggedAll;
    var ss, mm := done + [s], ms + [Moment(|captured|, packets)];
    forall k | 0 <= k < |ss|
      ensures SegmentWait(ss[k], k + 1 == n, peer, port, watches[k], mm[k].log, mm[k + 1].log)
    {
      if k < i {
        assert SegmentWait(done[k], k + 1 == n, peer, port, watches[k], ms[k].log, ms[k + 1].log);
      }
    }
  }

  lemma AllWaited(done: seq<Segment>, i: nat, n: nat, peer: Peer, port: nat, watches: seq<Watch>, ms: seq<Moment>,
                  first: Moment, packets: seq<Packet>, captured: seq<Packet>)
    requires WaitedSoFar(done, i, n, peer, port, watches, ms, first, packets, captured)
    ensures DataWaits(done, n, peer, port, watches, ms) && Moments(ms, captured, port)
    ensures ms != [] && ms[0] == first && ms[|ms| - 1] == Moment(|captured|, packets)
  {
    hide Moments;
  }

  /** What the sending loop was given and began with. */
  datatype Response = Response(payload: string, sizes: seq<nat>, start: seq<Out>, base: int, ack: int, peer: Peer,
                               port: nat, watches: seq<Watch>, first: Moment)

  /** The sending loop at chunk `i` and position `pos`. */
  ghost predicate Midway(job: Response, sent: seq<Out>, done: seq<Segment>, i: nat, pos: nat, ms: seq<Moment>,
                         packets: seq<Packet>, captured: seq<Packet>) {
    && job.sizes == ChunkSizes(|job.payload|) && |job.sizes| <= |job.watches|
    && i <= |job.sizes| && pos <= |job.payload|
    && Underway(job.start, sent, done, job.payload, job.sizes, i, pos, job.base, job.ack)
    && WaitedSoFar(done, i, |job.sizes|, job.peer, job.port, job.watches, ms, job.first, packets, captured)
  }

  lemma Begins(job: Response, packets: seq<Packet>, captured: seq<Packet>)
    requires job.sizes == ChunkSizes(|job.payload|) && |job.watches| == 3
    requires job.first == Moment(|captured|, packets) && packets == LoggedAll([], captured, job.port)
    ensures Midway(job, job.start, [], 0, 0, [job.first], packets, captured)
  {
    NothingSent(job.start, job.payload, job.sizes, job.base, job.ack);
    NoWaits(|job.sizes|, job.peer, job.port, job.watches, packets, captured);
    hide Underway, WaitedSoFar, ChunkSizes, LoggedAll;
  }

  lemma InRange(job: Response, sent: seq<Out>, done: seq<Segment>, i: nat, pos: nat, ms: seq<Moment>,
                packets: seq<Packet>, captured: seq<Packet>)
    requires Midway(job, sent, done, i, pos, ms, packets, captured) && i < |job.sizes| && pos < |job.payload|
    ensures i < |job.watches| && pos <= Min(pos + job.sizes[i], |job.payload|) <= |job.payload|
  {
    hide Underway, WaitedSoFar, ChunkSizes;
  }

  lemma GoesOn(job: Response, was: seq<Out>, done: seq<Segment>, i: nat, pos: nat, ms: seq<Moment>, log: seq<Packet>,
               seen: seq<Packet>, seg: Segment, end: nat, packets: seq<Packet>, captured: seq<Packet>)
    requires Midway(job, was, done, i, pos, ms, log, seen) && i < |job.sizes| && pos < |job.payload|
    requires i < |job.watches| && pos <= end <= |job.payload| && end == Min(pos + job.sizes[i], |job.payload|)
    requires seg == Segment(job.base + pos, job.payload[pos..end])
    requires SegmentWait(seg, i + 1 == |job.sizes|, job.peer, job.port, job.watches[i], log, packets)
    requires seen <= captured && packets == LoggedAll([], captured, job.port)
    ensures Midway(job, was + [Data(seg, job.ack)], done + [seg], i + 1, end, ms + [Moment(|captured|, packets)],
                   packets, captured)
  {
    hide Underway, WaitedSoFar, ChunkSizes, LoggedAll, SegmentWait;
    OneSegment(job.start, was, done, job.payload, job.sizes, i, pos, job.base, job.ack);
    NextWait(done, i, |job.sizes|, job.peer, job.port, job.watches, ms, job.first, log, seen, seg, packets, captured);
  }

  lemma Finishes(job: Response, sent: seq<Out>, done: seq<Segment>, i: nat, pos: nat, ms: seq<Moment>,
                 packets: seq<Packet>, captured: seq<Packet>)
    requires Midway(job, sent, done, i, pos, ms, packets, captured) && (i == |job.sizes| || pos == |job.payload|)
    ensures pos == |job.payload|
    ensures SentInOrder(job.payload, job.base, job.ack, job.start, sent)
    ensures WaitedInOrder(job.payload, job.base, job.peer, job.port, job.watches, ms)
    ensures FromTo(ms, job.first, Moment(|captured|, packets), captured, job.port)
  {
    hide Underway, WaitedSoFar, ChunkSizes, Segments, DataWaits, Moments;
    AllSent(job.start, sent, done, job.payload, job.sizes, i, pos, job.base, job.ack);
    AllWaited(done, i, |job.sizes|, job.peer, job.port, job.watches, ms, job.first, packets, captured);
  }

  /** The waits of a session that got as far as `t`: any SYN, then from its sender an ACK for exactly s0 + 1 without
      payload, then a GET, then the acknowledgements of the response, each wait on the log the one before it left; and
      the FIN answered is that client's. */
  ghost predicate SessionWaits(t: Trace, env: Environment, port: nat, payload: string, ms: seq<Moment>) {
    if t.NoSyn? then |ms| == 2 && Waited(ms[0].log, AnySyn, port, env.syn, None, ms[1].log)
    else
      var peer := Peer(t.syn.srcIp, t.syn.srcPort);
      var handshake := if t.NoHandshake? then None else Some(t.handshake);
      && |ms| >= 3
      && Waited(ms[0].log, AnySyn, port, env.syn, Some(t.syn), ms[1].log)
      && Waited(ms[1].log, HandshakeAck(peer, env.initial + 1), port, env.ack, handshake, ms[2].log)
      && if t.NoHandshake? then |ms| == 3
         else
           && |ms| >= 4
           && Waited(ms[2].log, Get(peer), port, env.get, if t.NoGet? then None else Some(t.get), ms[3].log)
           && if t.NoGet? then |ms| == 4
              else
                && WaitedInOrder(payload, env.initial + 1, peer, port, env.data, ms[3..])
                && Sniffed(env.sniffed, peer, port, t.fin)
  }

  /** The number after the client's request, which every answer acknowledges. */
  function RequestEnd(t: Trace): int
    requires t.Served?
  {
    t.get.seqno + if t.get.raw.Some? then |t.get.raw.value| else 0
  }

  /** The packets of a session with initial number `s0`: SYN takes s0, the payload the numbers after it, and the
      FIN the one after those (section 3.4 of RFC 9293); each acknowledges the packet it answers. */
  function SessionPackets(t: Trace, s0: nat, payload: string): seq<Out> {
    match t
    case NoSyn => []
    case NoHandshake(syn) => [SynAck(s0, syn.seqno + 1)]
    case NoGet(syn, _) => [SynAck(s0, syn.seqno + 1)]
    case Served(syn, _, _, fin) => [SynAck(s0, syn.seqno + 1)] + Answer(s0 + 1, RequestEnd(t), payload, fin)
  }

  /** Everything sent in the sessions `traces`, one after the other. */
  function RunPackets(traces: seq<Trace>, envs: seq<Environment>, payload: string): seq<Out>
    requires |traces| <= |envs|
  {
    if traces == [] then []
    else
      var n := |traces| - 1;
      RunPackets(traces[..n], envs, payload) + SessionPackets(traces[n], envs[n].initial, payload)
  }

  /** Each session of a run has waited as it should, on logs that were the log at the time. */
  ghost predicate RunWaits(traces: seq<Trace>, envs: seq<Environment>, port: nat, payload: string,
                           logs: seq<seq<Moment>>, captured: seq<Packet>) {
    && |traces| == |logs| <= |envs|
    && forall k :: 0 <= k < |traces| ==>
         SessionWaits(traces[k], envs[k], port, payload, logs[k]) && Moments(logs[k], captured, port)
  }

  lemma RunOneMore(traces: seq<Trace>, envs: seq<Environment>, port: nat, logs: seq<seq<Moment>>, seen: seq<Packet>,
                   captured: seq<Packet>, t: Trace, ms: seq<Moment>, payload: string)
    requires RunWaits(traces, envs, port, payload, logs, seen) && |traces| < |envs| && seen <= captured
    requires SessionWaits(t, envs[|traces|], port, payload, ms) && Moments(ms, captured, port)
    ensures RunWaits(traces + [t], envs, port, payload, logs + [ms], captured)
    ensures RunPackets(traces + [t], envs, payload)
      == RunPackets(traces, envs, payload) + SessionPackets(t, envs[|traces|].initial, payload)
  {
    hide SessionWaits, SessionPackets, Moments;
    assert (traces + [t])[..|traces|] == traces;
    forall k | 0 <= k < |traces|
      ensures Moments(logs[k], captured, port)
    {
      MomentsLater(logs[k], seen, captured, port);
    }
  }

  lemma Associative(a: seq<Out>, b: seq<Out>, c: seq<Out>)
    ensures a + b + c == a + (b + c)
  {
  }

  lemma {:induction false} AsDataNext(segs: seq<Segment>, s: Segment, ack: int)
    ensures AsData(segs + [s], ack) == AsData(segs, ack) + [Data(s, ack)]
  {
    if segs == [] {
      assert [] + [s] == [s];
    } else {
      assert (segs + [s])[1..] == segs[1..] + [s];
      AsDataNext(segs[1..], s, ack);
    }
  }

  /** The sending loop at chunk `i` and position `pos`: the segments `done` have been sent, they and the rest make up
      the response, and the chunks left are enough for it. */
  ghost predicate Underway(start: seq<Out>, sent: seq<Out>, done: seq<Segment>, payload: string, sizes: seq<nat>,
                           i: nat, pos: nat, base: int, ack: int)
    requires i <= |sizes| && pos <= |payload|
  {
    && pos + Sum(sizes[i..]) >= |payload|
    && sent == start + AsData(done, ack)
    && done + Segments(payload, sizes[i..], pos, base) == Segments(payload, sizes, 0, base)
  }

  lemma NothingSent(start: seq<Out>, payload: string, sizes: seq<nat>, base: int, ack: int)
    requires sizes == ChunkSizes(|payload|)
    ensures |sizes| <= 3 && Underway(start, start, [], payload, sizes, 0, 0, base, ack)
  {
    ChunksCover(payload);
    assert sizes[0..] == sizes;
    var all := Segments(payload, sizes, 0, base);
    hide Segments, Sum, ChunkSizes;
    assert [] + all == all && start + [] == start;
  }

  /** One pass of the sending loop. */
  lemma OneSegment(start: seq<Out>, sent: seq<Out>, done: seq<Segment>, payload: string, sizes: seq<nat>, i: nat,
                   pos: nat, base: int, ack: int)
    requires i < |sizes| && pos < |payload| && Underway(start, sent, done, payload, sizes, i, pos, base, ack)
    ensures var end := Min(pos + sizes[i], |payload|);
      pos <= end <= |payload| &&
      var seg := Segment(base + pos, payload[pos..end]);
      Underway(start, sent + [Data(seg, ack)], done + [seg], payload, sizes, i + 1, end, base, ack)
  {
    var end := Min(pos + sizes[i], |payload|);
    var seg := Segment(base + pos, payload[pos..end]);
    assert sizes[i..][1..] == sizes[i + 1..] && sizes[i..] == [sizes[i]] + sizes[i + 1..];
    OneMoreSegment(payload, sizes[i..], sizes[i], sizes[i + 1..], pos, base);
    AsDataNext(done, seg, ack);
    var rest := Segments(payload, sizes[i + 1..], end, base);
    hide Segments, AsData;
    assert done + ([seg] + rest) == done + [seg] + rest;
    Associative(start, AsData(done, ack), [Data(seg, ack)]);
  }

  /** And its end. */
  lemma AllSent(start: seq<Out>, sent: seq<Out>, done: seq<Segment>, payload: string, sizes: seq<nat>, i: nat, pos: nat,
                base: int, ack: int)
    requires sizes == ChunkSizes(|payload|)
    requires i <= |sizes| && pos <= |payload| && (i == |sizes| || pos == |payload|)
    requires Underway(start, sent, done, payload, sizes, i, pos, base, ack)
    ensures pos == |payload| && done == Segments(payload, ChunkSizes(|payload|), 0, base)
    ensures sent == start + AsData(Segments(payload, ChunkSizes(|payload|), 0, base), ack)
  {
    assert Segments(payload, sizes[i..], pos, base) == [];
    hide Segments, AsData;
    assert done + [] == done;
  }

  /** What a wait returns is admissible. */
  lemma WaitedAdmissible(log: seq<Packet>, w: Wanted, port: nat, watch: Watch, p: Packet, after: seq<Packet>)
    requires Waited(log, w, port, watch, Some(p), after)
    ensures Admissible(w, p, port) && p in after
  {
    var used: nat :| used <= |watch.polls| && after == LogAt(log, watch, used, port)
      && exists i :: IsLatest(after, w, port, Since(used, watch.start), i) && p == after[i];
    var i :| IsLatest(after, w, port, Since(used, watch.start), i) && p == after[i];
  }

  /** The handshake of a session is completed only by a packet without payload, from the sender of the SYN, that
      acknowledges exactly the number after the server's initial one. */
  lemma HandshakeIsExact(t: Trace, env: Environment, port: nat, payload: string, ms: seq<Moment>)
    requires SessionWaits(t, env, port, payload, ms) && (t.NoGet? || t.Served?)
    ensures t.handshake.ack == env.initial + 1 && t.handshake.raw.None? && HasFlag(t.handshake, ACK)
    ensures t.handshake.srcIp == t.syn.srcIp && t.handshake.srcPort == t.syn.srcPort && t.handshake.dstPort == port
    ensures HasFlag(t.syn, SYN) && t.syn.dstPort == port
    ensures t.syn.flags % 4 >= 2 && t.handshake.flags % 32 >= 16
  {
    FlagsAre(t.syn);
    FlagsAre(t.handshake);
    var peer := Peer(t.syn.srcIp, t.syn.srcPort);
    hide Waited;
    WaitedAdmissible(ms[0].log, AnySyn, port, env.syn, t.syn, ms[1].log);
    WaitedAdmissible(ms[1].log, HandshakeAck(peer, env.initial + 1), port, env.ack, t.handshake, ms[2].log);
  }

  /** The request that is answered came from the same client, in its text a GET. */
  lemma RequestIsExact(t: Trace, env: Environment, port: nat, payload: string, ms: seq<Moment>)
    requires SessionWaits(t, env, port, payload, ms) && t.Served?
    ensures t.get.srcIp == t.syn.srcIp && t.get.srcPort == t.syn.srcPort && t.get.dstPort == port
    ensures t.get.raw.Some? && exists a: string, b: string :: t.get.raw.value == a + "GET" + b
  {
    var peer := Peer(t.syn.srcIp, t.syn.srcPort);
    hide Waited, WaitedInOrder, Sniffed;
    WaitedAdmissible(ms[2].log, Get(peer), port, env.get, t.get, ms[3].log);
    SoughtPackets(t.get, peer, 0, port);
  }

  /** Where chunk `k` of a response of this length ends, and whether there is a next one: there are two, or three when
      more than 1000 bytes are to be sent. */
  function ChunkEnd(length: nat, k: nat): nat
    requires k < 3
  {
    if k == 2 then length else Min(500 * (k + 1), length)
  }

  predicate ChunkFollowed(length: nat, k: nat) { k == 0 || (k == 1 && length > 1000) }

  /** The waits of a served session for the acknowledgements of its data are those of its response. */
  lemma ServedWaits(t: Trace, env: Environment, port: nat, payload: string, ms: seq<Moment>)
    requires SessionWaits(t, env, port, payload, ms) && t.Served?
    ensures |ms| >= 4
    ensures WaitedInOrder(payload, env.initial + 1, Peer(t.syn.srcIp, t.syn.srcPort), port, env.data, ms[3..])
  {
    hide Waited, Sniffed, WaitedInOrder;
  }

  /** After each chunk of the response but the last the server waited for the client to acknowledge it: for the number
      after it, on the log as it was then. After the last chunk it did not wait. */
  lemma DataAcksAwaited(payload: string, base: int, peer: Peer, port: nat, watches: seq<Watch>, ms: seq<Moment>,
                        k: nat)
    returns (found: Option<Packet>)
    requires WaitedInOrder(payload, base, peer, port, watches, ms) && 500 * k < |payload| && k < 3
    ensures |ms| > k + 1 && |watches| > k
    ensures ChunkFollowed(|payload|, k) ==>
      Waited(ms[k].log, DataAck(peer, base + ChunkEnd(|payload|, k)), port, watches[k], found, ms[k + 1].log)
    ensures !ChunkFollowed(|payload|, k) ==> ms[k + 1].log == ms[k].log
  {
    hide Waited, Segments;
    SegmentsAre(payload, base);
    var segs := Segments(payload, ChunkSizes(|payload|), 0, base);
    assert SegmentWait(segs[k], k + 1 == |ChunkSizes(|payload|)|, peer, port, watches[k], ms[k].log, ms[k + 1].log);
    found := None;
    if k + 1 < |ChunkSizes(|payload|)| {
      found :| Waited(ms[k].log, DataAck(peer, segs[k].seqno + |segs[k].data|), port, watches[k], found, ms[k + 1].log);
    }
  }

  /** A session ends without a FIN only if none came from the peer in the first 120 attempts. */
  lemma NoFinSeen(t: Trace, env: Environment, port: nat, payload: string, ms: seq<Moment>, k: nat, p: Packet)
    requires SessionWaits(t, env, port, payload, ms) && t.Served? && t.fin.None?
    requires k < |env.sniffed| && k < 120 && p in env.sniffed[k]
    ensures !IsFin(p, Peer(t.syn.srcIp, t.syn.srcPort), port)
  {
    hide Waited, WaitedInOrder;
    assert FirstFin(env.sniffed[k], Peer(t.syn.srcIp, t.syn.srcPort), port).None?;
  }

  /** A FIN is answered only if it arrived, in one of the first 120 attempts, from the peer. */
  lemma AnsweredFin(t: Trace, env: Environment, port: nat, payload: string, ms: seq<Moment>) returns (k: nat)
    requires SessionWaits(t, env, port, payload, ms) && t.Served? && t.fin.Some?
    ensures k < |env.sniffed| && k < 120 && t.fin.value in env.sniffed[k]
    ensures IsFin(t.fin.value, Peer(t.syn.srcIp, t.syn.srcPort), port)
    ensures forall j, p :: 0 <= j < k && p in env.sniffed[j] ==> !IsFin(p, Peer(t.syn.srcIp, t.syn.srcPort), port)
  {
    hide Waited;
    var peer := Peer(t.syn.srcIp, t.syn.srcPort);
    var i :|
      && 0 <= i < Min(|env.sniffed|, FIN_ATTEMPTS)
      && FirstFin(env.sniffed[i], peer, port) == t.fin
      && forall j :: 0 <= j < i ==> FirstFin(env.sniffed[j], peer, port).None?;
    k := i;
  }

  /** What is looked for, in terms of the packet: from whom, to which port, with which flag, number and payload. */
  lemma SoughtPackets(p: Packet, peer: Peer, ack: int, port: nat)
    ensures var here := p.tcpIp && p.dstPort == port;
      var fromPeer := here && p.srcIp == peer.ip && p.srcPort == peer.port;
      && (Admissible(AnySyn, p, port) <==> here && p.flags % 4 >= 2)
      && (Admissible(HandshakeAck(peer, ack), p, port) <==>
            fromPeer && p.flags % 32 >= 16 && p.ack == ack && p.raw == None)
      && (Admissible(DataAck(peer, ack), p, port) <==> fromPeer && p.flags % 32 >= 16 && p.ack == ack)
      && (Admissible(Get(peer), p, port) <==>
            (fromPeer && p.raw.Some? && exists a: string, b: string :: p.raw.value == a + "GET" + b))
      && (IsFin(p, peer, port) <==> fromPeer && p.flags % 2 == 1)
  {
    FlagsAre(p);
    hide HasFlag;
    if p.raw.Some? {
      GetOccurs(p.raw.value);
    }
  }

  lemma GetOccurs(raw: string)
    ensures FindText(raw, "GET", 0) >= 0 <==> exists a: string, b: string :: raw == a + "GET" + b
  {
    var i := FindText(raw, "GET", 0);
    if i >= 0 {
      assert raw == raw[..i] + "GET" + raw[i + 3..];
    }
    forall a: string, b: string | raw == a + "GET" + b
      ensures OccursAt(raw, "GET", |a|)
    {
      assert raw[|a|..|a| + 3] == "GET";
    }
  }

  lemma {:induction false} DataOf(segs: seq<Segment>, ack: int, s: Segment, a: int)
    ensures Data(s, a) in AsData(segs, ack) <==> a == ack && s in segs
  {
    if segs != [] {
      DataOf(segs[1..], ack, s, a);
      assert segs == [segs[0]] + segs[1..];
    }
  }

  /** The data packets of a served session are the segments of its response, all with one acknowledgement. */
  lemma DataSent(t: Trace, s0: nat, payload: string, s: Segment, ack: int)
    requires t.Served?
    ensures Data(s, ack) in SessionPackets(t, s0, payload)
      <==> ack == RequestEnd(t) && s in Segments(payload, ChunkSizes(|payload|), 0, s0 + 1)
  {
    var data := AsData(Segments(payload, ChunkSizes(|payload|), 0, s0 + 1), RequestEnd(t));
    DataOf(Segments(payload, ChunkSizes(|payload|), 0, s0 + 1), RequestEnd(t), s, ack);
    SessionParts(t, s0, payload);
    hide Segments, AsData, SessionPackets;
  }

  /** The packets of a served session: opening, data, end. */
  lemma SessionParts(t: Trace, s0: nat, payload: string)
    requires t.Served?
    ensures SessionPackets(t, s0, payload) ==
      [SynAck(s0, t.syn.seqno + 1), PureAck(s0 + 1, RequestEnd(t))]
      + AsData(Segments(payload, ChunkSizes(|payload|), 0, s0 + 1), RequestEnd(t))
      + if t.fin.Some? then [FinAck(s0 + 1 + |payload|, t.fin.value.seqno + 1)] else []
  {
    hide Segments, AsData;
  }

  lemma {:induction false} AsDataAt(segs: seq<Segment>, ack: int)
    ensures |AsData(segs, ack)| == |segs|
    ensures forall i :: 0 <= i < |segs| ==> AsData(segs, ack)[i] == Data(segs[i], ack)
  {
    if segs != [] {
      AsDataAt(segs[1..], ack);
    }
  }

  // ---- sequence numbers are 32-bit numbers (section 3.4 of RFC 9293) ----

  predicate Fits(n: int) { 0 <= n < 0x1_0000_0000 }

  function Number(o: Out): int { if o.Data? then o.segment.seqno else o.seqno }

  ghost predicate AllFit(os: seq<Out>) { forall o :: o in os ==> Fits(Number(o)) && Fits(o.ack) }

  /** The greatest number of a served session: the FIN's, or else the last segment's. */
  function TopNumber(t: Trace, s0: nat, length: nat): int
    requires t.Served?
  {
    s0 + 1 + if t.fin.Some? then length else LastStart(length)
  }

  /** Numbers and acknowledgements of a served session are 32-bit numbers exactly when the greatest number and the
      numbers after the client's SYN, request and FIN are: the server never reduces them modulo 2^32. */
  lemma NumbersFitIff(t: Trace, s0: nat, payload: string)
    requires t.Served?
    ensures AllFit(SessionPackets(t, s0, payload)) <==>
      && Fits(TopNumber(t, s0, |payload|)) && Fits(t.syn.seqno + 1) && Fits(RequestEnd(t))
      && (t.fin.Some? ==> Fits(t.fin.value.seqno + 1))
  {
    var segs, ack := Segments(payload, ChunkSizes(|payload|), 0, s0 + 1), RequestEnd(t);
    var opening := [SynAck(s0, t.syn.seqno + 1), PureAck(s0 + 1, ack)];
    var end := if t.fin.Some? then [FinAck(s0 + 1 + |payload|, t.fin.value.seqno + 1)] else [];
    DataFits(payload, s0 + 1, ack);
    SessionParts(t, s0, payload);
    hide Segments, AsData, SessionPackets, RequestEnd, ChunkSizes, Fits, AllFit;
    AllFitParts(opening, AsData(segs, ack), end);
    AllFitTwo(opening);
    AllFitOne(end);
    FitsBelow(s0, s0 + 1);
    FitsBelow(s0 + 1, s0 + 1 + LastStart(|payload|));
    FitsBelow(s0 + 1 + LastStart(|payload|), s0 + 1 + |payload|);
  }

  lemma FitsBelow(m: nat, n: nat)
    requires m <= n
    ensures Fits(n) ==> Fits(m)
  {
  }

  lemma AllFitParts(a: seq<Out>, b: seq<Out>, c: seq<Out>)
    ensures AllFit(a + b + c) <==> AllFit(a) && AllFit(b) && AllFit(c)
  {
    hide Fits;
    forall o: Out
      ensures o in a + b + c <==> o in a || o in b || o in c
    {
    }
  }

  lemma AllFitTwo(os: seq<Out>)
    requires |os| == 2
    ensures AllFit(os) <==> Fits(Number(os[0])) && Fits(os[0].ack) && Fits(Number(os[1])) && Fits(os[1].ack)
  {
    assert os[0] in os && os[1] in os;
  }

  lemma AllFitOne(os: seq<Out>)
    requires |os| <= 1
    ensures AllFit(os) <==> os == [] || (Fits(Number(os[0])) && Fits(os[0].ack))
  {
    assert os != [] ==> os[0] in os;
  }

  /** The data packets' numbers fit when the last one's does. */
  lemma DataFits(payload: string, base: nat, ack: int)
    ensures AllFit(AsData(Segments(payload, ChunkSizes(|payload|), 0, base), ack))
      <==> payload == [] || (Fits(base + LastStart(|payload|)) && Fits(ack))
  {
    var segs := Segments(payload, ChunkSizes(|payload|), 0, base);
    var data := AsData(segs, ack);
    LastSegment(payload, base);
    AsDataAt(segs, ack);
    hide Segments, AsData, ChunkSizes, LastStart;
    if payload != [] {
      assert data[|data| - 1] in data && data[|data| - 1] == Data(segs[|segs| - 1], ack);
    }
    if payload == [] || (Fits(base + LastStart(|payload|)) && Fits(ack)) {
      forall o | o in data
        ensures Fits(Number(o)) && Fits(o.ack)
      {
        var i :| 0 <= i < |data| && data[i] == o;
        assert o == Data(segs[i], ack);
      }
    }
  }

  /** With the greatest initial number the server can draw, 2^32 - 2, the second data packet of every response of more
      than 500 bytes carries a number past 32 bits. */
  lemma NumbersOverflow(t: Trace, payload: string)
    requires t.Served? && |payload| > 500
    ensures var o := Data(Segment(0x1_0000_0000 + 499, payload[500..Min(1000, |payload|)]), RequestEnd(t));
      o in SessionPackets(t, 0xFFFF_FFFE, payload) && !Fits(Number(o))
  {
    var base := 0xFFFF_FFFF;
    var segs := Segments(payload, ChunkSizes(|payload|), 0, base);
    SegmentsAre(payload, base);
    DataSent(t, 0xFFFF_FFFE, payload, Segment(base + 500, payload[500..Min(1000, |payload|)]), RequestEnd(t));
    hide Segments, SessionPackets, ChunkSizes;
    assert segs[1] in segs;
  }

  /** Whatever happens to the packets of a served session on the way, a client that has got each data packet at
      least once, in any order, reads the response off the numbers s0 + 1, s0 + 2, ... and nothing off any other. */
  lemma SessionDelivers(t: Trace, s0: nat, payload: string, delivered: seq<Segment>)
    requires t.Served?
    requires forall s :: s in delivered <==> Data(s, RequestEnd(t)) in SessionPackets(t, s0, payload)
    ensures forall q :: s0 + 1 <= q < s0 + 1 + |payload| ==> ByteAt(delivered, q) == Got(payload[q - (s0 + 1)])
    ensures forall q :: !(s0 + 1 <= q < s0 + 1 + |payload|) ==> ByteAt(delivered, q) == Lost
  {
    var segs := Segments(payload, ChunkSizes(|payload|), 0, s0 + 1);
    hide SessionPackets, Segments, ByteAt;
    forall s: Segment
      ensures s in delivered <==> s in segs
    {
      DataSent(t, s0, payload, s, RequestEnd(t));
    }
    Reassembly(payload, s0 + 1, delivered);
  }
}
