/** The loop that sends a buffer in partial writes, as a function of the results of its `send` calls. */
module SendLoop {
  import opened Sockets

  /** What one `send` came to. */
  datatype SendResult = Wrote(n: nat) | SendError(errno: Errno)

  /** It failed for now only, or for good. */
  predicate Transient(r: SendResult) { r.SendError? && NotNow(r.errno) }

  predicate Hard(r: SendResult) { r.SendError? && !NotNow(r.errno) }

  function Result(written: int, errno: Errno): SendResult {
    if written >= 0 then Wrote(written) else SendError(errno)
  }

  /** Which values of `errno` the loop goes on after, and which end it. */
  lemma ErrorsAre(errno: Errno)
    ensures Transient(Result(-1, errno)) <==> errno in {InProgress, Again, WouldBlock}
    ensures Hard(Result(-1, errno)) <==> errno in {NotConnected, Other}
  {
  }

  /** The loop's `written`: the return value of a call it goes on after. */
  function Written(r: SendResult): int {
    if r.Wrote? then r.n else if Transient(r) then -1 else 0
  }

  /** `to_write` after these results: a transient result subtracts -1. */
  function ToWrite(len: nat, rs: seq<SendResult>): int {
    if rs == [] then len else ToWrite(len, rs[..|rs| - 1]) - Written(rs[|rs| - 1])
  }

  function Sent(rs: seq<SendResult>): nat {
    if rs == [] then 0 else Sent(rs[..|rs| - 1]) + if rs[|rs| - 1].Wrote? then rs[|rs| - 1].n else 0
  }

  function Transients(rs: seq<SendResult>): nat {
    if rs == [] then 0 else Transients(rs[..|rs| - 1]) + if Transient(rs[|rs| - 1]) then 1 else 0
  }

  function Hards(rs: seq<SendResult>): nat {
    if rs == [] then 0 else Hards(rs[..|rs| - 1]) + if Hard(rs[|rs| - 1]) then 1 else 0
  }

  /** `errno` after each call that failed. */
  function Errors(rs: seq<SendResult>): seq<Errno> {
    if rs == [] then []
    else Errors(rs[..|rs| - 1]) + if rs[|rs| - 1].SendError? then [rs[|rs| - 1].errno] else []
  }

  predicate EndsHard(rs: seq<SendResult>) { rs != [] && Hard(rs[|rs| - 1]) }

  /** Memory around the buffer `data`: its contents, and `stray` outside it. */
  function Memory(data: seq<char>, stray: int -> char, i: int): char {
    if 0 <= i < |data| then data[i] else stray(i)
  }

  /** The `n` bytes at offset `from`. */
  function Window(data: seq<char>, stray: int -> char, from: int, n: nat): (w: seq<char>)
    ensures |w| == n && forall k :: 0 <= k < n ==> w[k] == Memory(data, stray, from + k)
  {
    seq(n, k requires 0 <= k < n => Memory(data, stray, from + k))
  }

  /** The results a loop over `len` bytes can see: each call asks for `to_write` > 0 bytes from
      `len - to_write` on, and the loop ends at a hard error. */
  predicate Legal(len: nat, rs: seq<SendResult>) {
    rs == [] ||
    var before := rs[..|rs| - 1];
    && Legal(len, before)
    && ToWrite(len, before) > 0
    && !EndsHard(before)
    && (rs[|rs| - 1].Wrote? ==> rs[|rs| - 1].n <= ToWrite(len, before))
  }

  /** What one call delivers while `toWrite` bytes are to be sent. */
  function Delivered(data: seq<char>, stray: int -> char, toWrite: int, r: SendResult): seq<char> {
    if r.Wrote? then Window(data, stray, |data| - toWrite, r.n) else []
  }

  /** The bytes the peer gets. */
  function Emitted(data: seq<char>, stray: int -> char, rs: seq<SendResult>): seq<char> {
    if rs == [] then []
    else
      var before := rs[..|rs| - 1];
      Emitted(data, stray, before) + Delivered(data, stray, ToWrite(|data|, before), rs[|rs| - 1])
  }

  /** The bookkeeping invariant of the loop, over all results: `to_write` is what is left to send plus one for
      every transient error. */
  lemma {:induction false} ToWriteBalance(data: seq<char>, stray: int -> char, rs: seq<SendResult>)
    requires Legal(|data|, rs)
    ensures ToWrite(|data|, rs) == |data| - Sent(rs) + Transients(rs) >= 0
    ensures |Emitted(data, stray, rs)| == Sent(rs)
  {
    if rs != [] {
      ToWriteBalance(data, stray, rs[..|rs| - 1]);
    }
  }

  lemma WindowInside(data: seq<char>, stray: int -> char, from: nat, n: nat)
    requires from + n <= |data|
    ensures data[..from] + Window(data, stray, from, n) == data[..from + n]
  {
  }

  lemma LastCall(data: seq<char>, stray: int -> char, rs: seq<SendResult>)
    requires Legal(|data|, rs) && rs != []
    ensures var before, r := rs[..|rs| - 1], rs[|rs| - 1];
      && Legal(|data|, before) && (r.Wrote? ==> r.n <= ToWrite(|data|, before))
      && Sent(rs) == Sent(before) + (if r.Wrote? then r.n else 0)
      && Transients(rs) == Transients(before) + (if Transient(r) then 1 else 0)
      && Emitted(data, stray, rs) == Emitted(data, stray, before) + Delivered(data, stray, ToWrite(|data|, before), r)
  {
    hide ToWrite, Window, Delivered, Transient;
  }

  /** Without transient errors every call continues where the last one stopped. */
  lemma {:induction false} SendsPrefix(data: seq<char>, stray: int -> char, rs: seq<SendResult>)
    requires Legal(|data|, rs) && Transients(rs) == 0
    ensures Sent(rs) <= |data| && Emitted(data, stray, rs) == data[..Sent(rs)]
  {
    ToWriteBalance(data, stray, rs);
    if rs == [] {
    } else {
      var before, r := rs[..|rs| - 1], rs[|rs| - 1];
      hide Transient, Window, Legal, ToWrite, Sent, Transients, Emitted;
      LastCall(data, stray, rs);
      SendsPrefix(data, stray, before);
      ToWriteBalance(data, stray, before);
      if r.Wrote? {
        WindowInside(data, stray, Sent(before), r.n);
      }
    }
  }

  /** A loop that runs to its end has sent exactly the data if and only if no call failed transiently. */
  lemma FaithfulIffNoTransient(data: seq<char>, stray: int -> char, rs: seq<SendResult>)
    requires Legal(|data|, rs) && ToWrite(|data|, rs) == 0
    ensures Emitted(data, stray, rs) == data <==> Transients(rs) == 0
  {
    ToWriteBalance(data, stray, rs);
    if Transients(rs) == 0 {
      SendsPrefix(data, stray, rs);
      assert data[..|data|] == data;
    }
  }

  /** A call that would block makes the loop send a byte twice, or step before the start of the buffer. */
  lemma TransientExamples(stray: int -> char)
    ensures var rs := [Wrote(1), SendError(WouldBlock), Wrote(2)];
      Legal(2, rs) && ToWrite(2, rs) == 0 && Emitted("ab", stray, rs) == "aab"
    ensures var rs := [SendError(WouldBlock)]; Legal(1, rs) && 1 - ToWrite(1, rs) == -1
  {
    var e := SendError(WouldBlock);
    var r1, r2, r3 := [Wrote(1)], [Wrote(1), e], [Wrote(1), e, Wrote(2)];
    assert r1[..0] == [] && r2[..1] == r1 && r3[..2] == r2;
    assert Transient(e) && Written(e) == -1;
    assert ToWrite(2, r1) == 1 && ToWrite(2, r2) == 2 && ToWrite(2, r3) == 0;
    assert Legal(2, r1) && Legal(2, r2);
    assert Emitted("ab", stray, r1) == [] + Window("ab", stray, 0, 1) == "a";
    assert Emitted("ab", stray, r2) == "a" + [];
    assert Emitted("ab", stray, r3) == "a" + Window("ab", stray, 0, 2);
    assert [e][..0] == [];
  }

  // ---- the loop's effect on its connection ----

  /** A connection after `n` calls of `send` that delivered `w`, failed `t` times for now and `h` times for good, with
      the errors `es`. */
  function Advanced(d: Desc, w: seq<char>, n: nat, t: nat, h: nat, es: seq<Errno>): Desc {
    d.(out := d.out + w, sends := d.sends + n, transients := d.transients + t, faults := d.faults + h,
       errs := d.errs + es)
  }

  /** A connection after the loop has seen these results. */
  function Served(d: Desc, data: seq<char>, stray: int -> char, rs: seq<SendResult>): Desc {
    Advanced(d, Emitted(data, stray, rs), |rs|, Transients(rs), Hards(rs), Errors(rs))
  }

  /** A connection after one more result, which delivered `w`. */
  function Told(d: Desc, w: seq<char>, r: SendResult): Desc {
    Advanced(d, w, 1, if Transient(r) then 1 else 0, if Hard(r) then 1 else 0,
             if r.SendError? then [r.errno] else [])
  }

  /** Only the last call can fail for good. */
  lemma {:induction false} HardsAtEnd(len: nat, rs: seq<SendResult>)
    requires Legal(len, rs)
    ensures Hards(rs) == if EndsHard(rs) then 1 else 0
  {
    if rs != [] {
      HardsAtEnd(len, rs[..|rs| - 1]);
    }
  }

  /** A loop fails for good exactly when one of its errors is none of those that only mean "not now". */
  lemma {:induction false} FailsIffHardError(len: nat, rs: seq<SendResult>)
    requires Legal(len, rs)
    ensures !EndsHard(rs) <==> forall e :: e in Errors(rs) ==> e in {InProgress, Again, WouldBlock}
  {
    hide ToWrite;
    if rs != [] {
      var before, r := rs[..|rs| - 1], rs[|rs| - 1];
      FailsIffHardError(len, before);
      assert forall e :: e in Errors(rs) <==> e in Errors(before) || (r.SendError? && e == r.errno);
      if r.SendError? {
        NotNowIs(r.errno);
        assert r.errno in Errors(rs);
      }
    }
  }

  lemma WindowPrefix(data: seq<char>, stray: int -> char, from: int, n: nat, m: nat)
    requires m <= n
    ensures Window(data, stray, from, n)[..m] == Window(data, stray, from, m)
  {
  }

  /** One more `send` call, seen from the loop. */
  lemma LegalOneCall(len: nat, rs: seq<SendResult>, written: int, errno: Errno)
    requires Legal(len, rs) && !EndsHard(rs) && -1 <= written <= ToWrite(len, rs) && ToWrite(len, rs) > 0
    ensures var now := rs + [Result(written, errno)];
      && Legal(len, now) && (EndsHard(now) <==> written < 0 && !NotNow(errno))
      && (!EndsHard(now) ==> ToWrite(len, now) == ToWrite(len, rs) - written >= 0)
  {
    assert (rs + [Result(written, errno)])[..|rs|] == rs;
  }

  lemma CountsOneMore(rs: seq<SendResult>, r: SendResult)
    ensures Transients(rs + [r]) == Transients(rs) + if Transient(r) then 1 else 0
    ensures Hards(rs + [r]) == Hards(rs) + if Hard(r) then 1 else 0
    ensures Errors(rs + [r]) == Errors(rs) + if r.SendError? then [r.errno] else []
  {
    assert (rs + [r])[..|rs|] == rs;
  }

  lemma EmittedOneMore(data: seq<char>, stray: int -> char, rs: seq<SendResult>, r: SendResult)
    ensures Emitted(data, stray, rs + [r])
      == Emitted(data, stray, rs) + Delivered(data, stray, ToWrite(|data|, rs), r)
  {
    assert (rs + [r])[..|rs|] == rs;
    hide Delivered, ToWrite;
  }

  lemma AdvancedTwice(d: Desc, v: seq<char>, w: seq<char>, n: nat, m: nat, t: nat, u: nat, h: nat, g: nat,
                      es: seq<Errno>, fs: seq<Errno>)
    ensures Advanced(Advanced(d, v, n, t, h, es), w, m, u, g, fs) == Advanced(d, v + w, n + m, t + u, h + g, es + fs)
  {
    assert d.out + (v + w) == d.out + v + w;
    assert d.errs + (es + fs) == d.errs + es + fs;
  }

  lemma ServedOneMore(d: Desc, data: seq<char>, stray: int -> char, rs: seq<SendResult>, r: SendResult)
    ensures Served(d, data, stray, rs + [r])
      == Told(Served(d, data, stray, rs), Delivered(data, stray, ToWrite(|data|, rs), r), r)
  {
    hide Delivered, ToWrite, Emitted, Transients, Hards, Errors, Advanced;
    var w := Delivered(data, stray, ToWrite(|data|, rs), r);
    var t, h := if Transient(r) then 1 else 0, if Hard(r) then 1 else 0;
    CountsOneMore(rs, r);
    EmittedOneMore(data, stray, rs, r);
    AdvancedTwice(d, Emitted(data, stray, rs), w, |rs|, 1, Transients(rs), t, Hards(rs), h,
                  Errors(rs), if r.SendError? then [r.errno] else []);
  }

  lemma TakenDelivers(e: Desc, data: seq<char>, stray: int -> char, toWrite: nat, written: int, errno: Errno)
    requires -1 <= written <= toWrite
    ensures var r := Result(written, errno);
      Taken(e, Window(data, stray, |data| - toWrite, toWrite), written, errno)
        == Told(e, Delivered(data, stray, toWrite, r), r)
  {
    hide Window;
    if written >= 0 {
      WindowPrefix(data, stray, |data| - toWrite, toWrite, written);
      assert e.errs + [] == e.errs;
    } else {
      assert e.out + [] == e.out;
    }
  }

  /** And seen from the connection. */
  lemma ServedOneCall(d: Desc, data: seq<char>, stray: int -> char, rs: seq<SendResult>, toWrite: nat, written: int,
                      errno: Errno)
    requires toWrite == ToWrite(|data|, rs) && -1 <= written <= toWrite
    ensures Served(d, data, stray, rs + [Result(written, errno)])
      == Taken(Served(d, data, stray, rs), Window(data, stray, |data| - toWrite, toWrite), written, errno)
  {
    ServedOneMore(d, data, stray, rs, Result(written, errno));
    TakenDelivers(Served(d, data, stray, rs), data, stray, toWrite, written, errno);
    hide *;
  }

  lemma NoSendYet(d: Desc, data: seq<char>, stray: int -> char)
    ensures Served(d, data, stray, []) == d && Legal(|data|, []) && !EndsHard([]) && ToWrite(|data|, []) == |data|
  {
    assert d.out + [] == d.out && d.errs + [] == d.errs;
  }
}
