/** What it means for the hand-made TCP server that its packet log is never cleared between sessions. */
module TcpSessions {
  import opened TcpServer

  // ---- what the log keeps ----

  /** Whatever a wait looks for is logged when it is captured. */
  lemma SoughtIsLogged(log: seq<Packet>, w: Wanted, p: Packet, port: nat)
    requires Admissible(w, p, port)
    ensures Logged(log, p, port) != [] && Logged(log, p, port)[|Logged(log, p, port)| - 1] == p
  {
  }

  /** How many of the packets are TCP packets from or to the port. */
  function Traffic(ps: seq<Packet>, port: nat): nat {
    if ps == [] then 0
    else
      var p := ps[|ps| - 1];
      Traffic(ps[..|ps| - 1], port) + if p.tcpIp && (p.srcPort == port || p.dstPort == port) then 1 else 0
  }

  lemma {:induction false} TrafficIsOnPort(ps: seq<Packet>, port: nat)
    ensures |OnPort(ps, port)| == Traffic(ps, port)
    ensures forall p :: p in OnPort(ps, port) ==> p.tcpIp && (p.srcPort == port || p.dstPort == port)
  {
    if ps != [] {
      TrafficIsOnPort(ps[..|ps| - 1], port);
    }
  }

  /** The log after any captures: whatever a wait looks for is in it as long as at most 99 packets of the port's traffic
      have followed, and nothing is in it that is not of that traffic. */
  lemma LogKeepsSought(ps: seq<Packet>, i: nat, w: Wanted, port: nat)
    requires i < |ps| && Admissible(w, ps[i], port)
    ensures Traffic(ps[i + 1..], port) <= 99 ==> ps[i] in LoggedAll([], ps, port)
  {
    var p, rest := ps[i], ps[i + 1..];
    LogIsLastHundred(ps, port);
    assert ps == ps[..i] + [p] + rest;
    OnPortAppend(ps[..i] + [p], rest, port);
    assert (ps[..i] + [p])[..i] == ps[..i];
    assert OnPort(ps[..i] + [p], port) == OnPort(ps[..i], port) + [p];
    TrafficIsOnPort(rest, port);
    hide OnPort, LoggedAll, Traffic;
    if Traffic(rest, port) <= 99 {
      var all, k := OnPort(ps, port), |OnPort(ps[..i], port)|;
      assert all[k] == p && |all| - k <= 100;
      var log := Last(all, 100);
      assert log[k - (|all| - |log|)] == p;
    }
  }

  lemma LogIsTraffic(ps: seq<Packet>, port: nat)
    ensures forall p :: p in LoggedAll([], ps, port) ==> p.tcpIp && (p.srcPort == port || p.dstPort == port)
  {
    LogIsLastHundred(ps, port);
    TrafficIsOnPort(ps, port);
    hide OnPort, LoggedAll, Traffic;
  }

  // ---- which SYN a session takes ----

  predicate IsSyn(p: Packet, port: nat) { Admissible(AnySyn, p, port) }

  /** Position `j` holds the latest SYN of `ps`. */
  ghost predicate LatestSyn(ps: seq<Packet>, port: nat, j: nat) {
    j < |ps| && IsSyn(ps[j], port) && forall i :: j < i < |ps| ==> !IsSyn(ps[i], port)
  }

  /** The packets on the port captured by the first look of a wait that began at `m`. */
  function SeenBy(m: Moment, watch: Watch, captured: seq<Packet>, port: nat): seq<Packet>
    requires m.n <= |captured|
  {
    OnPort(captured[..m.n] + watch.early, port)
  }

  lemma FirstLookLog(m: Moment, watch: Watch, captured: seq<Packet>, port: nat)
    requires IsMoment(m, captured, port)
    ensures LogAt(m.log, watch, 0, port) == Last(SeenBy(m, watch, captured, port), LOG_SIZE)
  {
    var before := captured[..m.n];
    FirstLook(m.log, AnySyn, port, watch);
    LogIsLastHundred(before, port);
    LogIsLastHundred(before + watch.early, port);
    LoggedAllAppend([], before, watch.early, port);
    hide LoggedAll, OnPort, Last, LogAt;
  }

  /** A wait takes the latest admissible packet of its first look, however old, if there is one; otherwise it takes
      nothing older than its start. */
  lemma FirstLookDecides(log: seq<Packet>, w: Wanted, port: nat, watch: Watch, found: Option<Packet>,
                         after: seq<Packet>)
    requires Waited(log, w, port, watch, found, after)
    ensures var first := LogAt(log, watch, 0, port);
      && (forall i :: IsLatest(first, w, port, 0, i) ==> found == Some(first[i]))
      && (NoneIn(first, w, port, 0) ==> found.None? || found.value.time >= watch.start)
  {
    var first := LogAt(log, watch, 0, port);
    var used: nat :| used <= |watch.polls| && after == LogAt(log, watch, used, port)
      && MissedUpTo(log, w, port, watch, used)
      && match found
         case None => used == |watch.polls| && Misses(log, w, port, watch, used)
         case Some(p) => exists i :: IsLatest(after, w, port, Since(used, watch.start), i) && p == after[i];
    hide LogAt, Admissible;
    if used > 0 {
      assert Misses(log, w, port, watch, 0);
    }
  }

  /** A packet that look `k` of a wait takes. */
  predicate Counts(w: Wanted, p: Packet, port: nat, k: nat, start: nat) {
    Admissible(w, p, port) && (k == 0 || p.time >= start)
  }

  ghost predicate LastToCount(seen: seq<Packet>, w: Wanted, port: nat, k: nat, start: nat, i: int) {
    && 0 <= i < |seen| && Counts(w, seen[i], port, k, start)
    && forall j :: i < j < |seen| ==> !Counts(w, seen[j], port, k, start)
  }

  lemma CountsAre(log: seq<Packet>, w: Wanted, port: nat, k: nat, start: nat)
    ensures forall i :: LastToCount(log, w, port, k, start, i) <==> IsLatest(log, w, port, Since(k, start), i)
    ensures (forall p :: p in log ==> !Counts(w, p, port, k, start)) <==> NoneIn(log, w, port, Since(k, start))
  {
    hide Admissible;
    if NoneIn(log, w, port, Since(k, start)) {
      forall p | p in log
        ensures !Counts(w, p, port, k, start)
      {
        var j :| 0 <= j < |log| && log[j] == p;
      }
    }
    if forall p :: p in log ==> !Counts(w, p, port, k, start) {
      assert forall j :: 0 <= j < |log| ==> !Counts(w, log[j], port, k, start);
    }
  }

  lemma NotBoth(log: seq<Packet>, w: Wanted, port: nat, since: nat)
    ensures NoneIn(log, w, port, since) ==> forall i :: !IsLatest(log, w, port, since, i)
  {
    hide Admissible;
  }

  lemma OneLatest(log: seq<Packet>, w: Wanted, port: nat, since: nat)
    ensures forall i, j :: IsLatest(log, w, port, since, i) && IsLatest(log, w, port, since, j) ==> i == j
  {
    hide Admissible;
  }

  lemma MissedAt(log: seq<Packet>, w: Wanted, port: nat, watch: Watch, used: nat, k: nat)
    requires k < used <= |watch.polls| && MissedUpTo(log, w, port, watch, used)
    ensures NoneIn(LogAt(log, watch, k, port), w, port, Since(k, watch.start))
  {
    hide NoneIn, LogAt;
    assert Misses(log, w, port, watch, k);
  }

  /** Which look decides a wait, and how: the first one that shows an admissible packet (at the first look of any age,
      later not older than the wait's start), by the latest such packet; and when none does, nothing is found. */
  lemma LookDecides(log: seq<Packet>, w: Wanted, port: nat, watch: Watch, found: Option<Packet>, after: seq<Packet>,
                    k: nat)
    requires Waited(log, w, port, watch, found, after) && k <= |watch.polls|
    requires forall j: nat, p :: j < k && p in LogAt(log, watch, j, port) ==> !Counts(w, p, port, j, watch.start)
    ensures var seen := LogAt(log, watch, k, port);
      && (forall i :: LastToCount(seen, w, port, k, watch.start, i) ==> found == Some(seen[i]) && after == seen)
      && ((forall p :: p in seen ==> !Counts(w, p, port, k, watch.start)) && k == |watch.polls| ==>
            found == None && after == seen)
  {
    var used: nat :| used <= |watch.polls| && after == LogAt(log, watch, used, port)
      && MissedUpTo(log, w, port, watch, used)
      && match found
         case None => used == |watch.polls| && Misses(log, w, port, watch, used)
         case Some(p) => exists i :: IsLatest(after, w, port, Since(used, watch.start), i) && p == after[i];
    var seen := LogAt(log, watch, k, port);
    hide Admissible, Counts, LastToCount, LogAt, Since, MissedUpTo, IsLatest, NoneIn;
    CountsAre(seen, w, port, k, watch.start);
    assert used >= k by {
      if used < k {
        CountsAre(after, w, port, used, watch.start);
        NotBoth(after, w, port, Since(used, watch.start));
      }
    }
    if used > k {
      MissedAt(log, w, port, watch, used, k);
    }
    NotBoth(seen, w, port, Since(k, watch.start));
    OneLatest(seen, w, port, Since(k, watch.start));
  }

  lemma LatestInLast(ps: seq<Packet>, port: nat, j: nat)
    requires LatestSyn(ps, port, j) && |ps| - j <= LOG_SIZE
    ensures var log := Last(ps, LOG_SIZE);
      var i := j - (|ps| - |log|);
      0 <= i < |log| && log[i] == ps[j] && IsLatest(log, AnySyn, port, 0, i)
  {
  }

  lemma NoneInLast(ps: seq<Packet>, port: nat)
    requires forall i :: 0 <= i < |ps| && |ps| - i <= LOG_SIZE ==> !IsSyn(ps[i], port)
    ensures NoneIn(Last(ps, LOG_SIZE), AnySyn, port, 0)
  {
  }

  ghost predicate SynWait(t: Trace, log: seq<Packet>, port: nat, watch: Watch, after: seq<Packet>) {
    Waited(log, AnySyn, port, watch, if t.NoSyn? then None else Some(t.syn), after)
  }

  lemma BeginsWithSynWait(t: Trace, env: Environment, port: nat, payload: string, ms: seq<Moment>)
    requires SessionWaits(t, env, port, payload, ms)
    ensures |ms| >= 2 && SynWait(t, ms[0].log, port, env.syn, ms[1].log)
  {
    hide Waited, WaitedInOrder, Sniffed;
  }

  /** Which SYN a session takes is decided by the last 100 packets on the port at its first look: the latest SYN among
      them, served before or not; if there is none, a SYN not older than the session's start. */
  lemma SynTaken(t: Trace, env: Environment, port: nat, payload: string, ms: seq<Moment>, captured: seq<Packet>)
    requires SessionWaits(t, env, port, payload, ms) && |ms| >= 2 && IsMoment(ms[0], captured, port)
    ensures var seen := SeenBy(ms[0], env.syn, captured, port);
      && (forall j: nat :: LatestSyn(seen, port, j) && |seen| - j <= LOG_SIZE ==> !t.NoSyn? && t.syn == seen[j])
      && ((forall i :: 0 <= i < |seen| && |seen| - i <= LOG_SIZE ==> !IsSyn(seen[i], port)) ==>
            t.NoSyn? || t.syn.time >= env.syn.start)
  {
    var seen := SeenBy(ms[0], env.syn, captured, port);
    BeginsWithSynWait(t, env, port, payload, ms);
    FirstLookLog(ms[0], env.syn, captured, port);
    FirstLookDecides(ms[0].log, AnySyn, port, env.syn, if t.NoSyn? then None else Some(t.syn), ms[1].log);
    hide *;
    SynTakenFrom(t, LogAt(ms[0].log, env.syn, 0, port), seen, port, env.syn.start);
  }

  lemma SynTakenFrom(t: Trace, log: seq<Packet>, seen: seq<Packet>, port: nat, start: nat)
    requires log == Last(seen, LOG_SIZE)
    requires var found := if t.NoSyn? then None else Some(t.syn);
      && (forall i :: IsLatest(log, AnySyn, port, 0, i) ==> found == Some(log[i]))
      && (NoneIn(log, AnySyn, port, 0) ==> found.None? || found.value.time >= start)
    ensures forall j: nat :: LatestSyn(seen, port, j) && |seen| - j <= LOG_SIZE ==> !t.NoSyn? && t.syn == seen[j]
    ensures (forall i :: 0 <= i < |seen| && |seen| - i <= LOG_SIZE ==> !IsSyn(seen[i], port)) ==>
      t.NoSyn? || t.syn.time >= start
  {
    hide IsSyn, Last, IsLatest, NoneIn;
    forall j: nat | LatestSyn(seen, port, j) && |seen| - j <= LOG_SIZE
      ensures !t.NoSyn? && t.syn == seen[j]
    {
      LatestInLast(seen, port, j);
    }
    if forall i :: 0 <= i < |seen| && |seen| - i <= LOG_SIZE ==> !IsSyn(seen[i], port) {
      NoneInLast(seen, port);
    }
  }

  // ---- the same SYN in two sessions ----

  lemma {:induction false} OnPortAppend(a: seq<Packet>, b: seq<Packet>, port: nat)
    ensures OnPort(a + b, port) == OnPort(a, port) + OnPort(b, port)
  {
    if b == [] {
      assert a + b == a;
    } else {
      assert (a + b)[..|a + b| - 1] == a + b[..|b| - 1];
      OnPortAppend(a, b[..|b| - 1], port);
    }
  }

  lemma SeenGrows(n: nat, m: Moment, watch: Watch, captured: seq<Packet>, port: nat)
    requires n <= m.n <= |captured|
    ensures OnPort(captured[..n], port) <= SeenBy(m, watch, captured, port)
  {
    var later := captured[n..m.n] + watch.early;
    assert captured[..m.n] + watch.early == captured[..n] + later;
    OnPortAppend(captured[..n], later, port);
  }

  lemma {:induction false} MomentsGrow(ms: seq<Moment>, captured: seq<Packet>, port: nat, i: nat, k: nat)
    requires Moments(ms, captured, port) && i <= k < |ms|
    ensures ms[i].n <= ms[k].n <= |captured|
    decreases k - i
  {
    hide OnPort, Last;
    assert IsMoment(ms[k], captured, port);
    if i < k {
      MomentsGrow(ms, captured, port, i, k - 1);
    }
  }

  /** The packet a wait returns is among the last 100 on the port. */
  lemma FoundInLast(log: seq<Packet>, port: nat, watch: Watch, p: Packet, m: Moment, captured: seq<Packet>)
    returns (j: nat)
    requires Waited(log, AnySyn, port, watch, Some(p), m.log) && IsMoment(m, captured, port)
    ensures var seen := OnPort(captured[..m.n], port);
      j < |seen| <= j + LOG_SIZE && seen[j] == p && IsSyn(p, port)
  {
    WaitedAdmissible(log, AnySyn, port, watch, p, m.log);
    hide Waited, Admissible, OnPort;
    var seen := OnPort(captured[..m.n], port);
    var i :| 0 <= i < |m.log| && m.log[i] == p;
    j := i + |seen| - |m.log|;
  }

  /** The SYN that session `k` took is the packet at position `j` of those captured on the port, one of the last 100 at
      the time. The next session takes it again if it still is one of the last 100 at that session's first look and no
      SYN came after it. */
  lemma SynServedAgain(traces: seq<Trace>, envs: seq<Environment>, port: nat, payload: string,
                       logs: seq<seq<Moment>>, captured: seq<Packet>, first: Moment, last: Moment, k: nat)
    returns (j: nat)
    requires RunWaits(traces, envs, port, payload, logs, captured) && Chained(logs, first, last)
    requires k + 1 < |traces| && !traces[k].NoSyn?
    ensures |logs[k]| >= 2 && logs[k + 1] != [] && logs[k][1].n <= logs[k + 1][0].n <= |captured|
    ensures var taken := OnPort(captured[..logs[k][1].n], port);
      j < |taken| <= j + LOG_SIZE && taken[j] == traces[k].syn
    ensures var seen := SeenBy(logs[k + 1][0], envs[k + 1].syn, captured, port);
      && j < |seen| && seen[j] == traces[k].syn
      && (LatestSyn(seen, port, j) && |seen| - j <= LOG_SIZE ==>
            !traces[k + 1].NoSyn? && traces[k + 1].syn == traces[k].syn)
  {
    var ms, next := logs[k], logs[k + 1];
    assert SessionWaits(traces[k], envs[k], port, payload, ms) && Moments(ms, captured, port);
    assert SessionWaits(traces[k + 1], envs[k + 1], port, payload, next) && Moments(next, captured, port);
    assert next[0] == ms[|ms| - 1];
    BeginsWithSynWait(traces[k], envs[k], port, payload, ms);
    BeginsWithSynWait(traces[k + 1], envs[k + 1], port, payload, next);
    assert IsMoment(ms[1], captured, port) && IsMoment(next[0], captured, port);
    hide SessionWaits, Moments, IsMoment, Waited, OnPort, LatestSyn, SeenBy, RunWaits, Chained;
    MomentsGrow(ms, captured, port, 1, |ms| - 1);
    j := FoundInLast(ms[0].log, port, envs[k].syn, traces[k].syn, ms[1], captured);
    SeenGrows(ms[1].n, next[0], envs[k + 1].syn, captured, port);
    SynTaken(traces[k + 1], envs[k + 1], port, payload, next, captured);
  }
}
