/** The UDP demo around the AEAD interface: big-endian counter nonces, the packet layout, sender and receiver. */
module Datagram {
  import opened Bytes
  import opened Math
  import opened MockAead

  const COUNTERS := 0x1_0000_0000_0000_0000   // values of a uint64_t

  // ---- be64 ----

  /** The last `n` base-256 digits of `x`, most significant first. */
  function BigEndian(x: nat, n: nat): (s: seq<byte>)
    ensures |s| == n
  {
    if n == 0 then [] else BigEndian(x / 256, n - 1) + [Octet(x % 256)]
  }

  function FromBigEndian(s: seq<byte>): nat {
    if s == [] then 0 else FromBigEndian(s[..|s| - 1]) * 256 + Number(s[|s| - 1])
  }

  function Power256(n: nat): (p: nat)
    ensures p > 0
  {
    if n == 0 then 1 else 256 * Power256(n - 1)
  }

  method Be64(out: array<byte>, x: nat)
    requires out.Length >= 8
    modifies out
    ensures out[..8] == BigEndian(x, 8) && out[8..] == old(out[8..])
  {
    var rest := x;
    var i := 7;
    while i >= 0
      invariant -1 <= i <= 7
      invariant BigEndian(x, 8) == BigEndian(rest, i + 1) + out[i + 1..8]
      invariant out[8..] == old(out[8..])
    {
      ghost var done := out[i + 1..8];
      out[i] := Octet(rest % 256);
      assert out[i..8] == [out[i]] + done;
      rest := rest / 256;
      i := i - 1;
    }
  }

  lemma {:induction false} DecodeEncode(x: nat, n: nat)
    requires x < Power256(n)
    ensures FromBigEndian(BigEndian(x, n)) == x
  {
    NoDigits();
    hide *;
    if n > 0 {
      Power256Next(n - 1);
      QuotientBelow(x, Power256(n - 1));
      DecodeEncode(x / 256, n - 1);
      DecodeLast(BigEndian(x / 256, n - 1), Octet(x % 256));
      BigEndianLast(x, n);
    }
  }

  lemma QuotientBelow(x: nat, p: nat)
    requires x < 256 * p
    ensures x / 256 < p && x == x / 256 * 256 + x % 256
  {
  }

  lemma DecodeLast(s: seq<byte>, b: byte)
    ensures FromBigEndian(s + [b]) == FromBigEndian(s) * 256 + Number(b)
  {
    assert (s + [b])[..|s|] == s;
  }

  lemma BigEndianLast(x: nat, n: nat)
    requires n > 0
    ensures BigEndian(x, n) == BigEndian(x / 256, n - 1) + [Octet(x % 256)]
  {
  }

  lemma {:induction false} EncodeDecode(s: seq<byte>)
    ensures BigEndian(FromBigEndian(s), |s|) == s && FromBigEndian(s) < Power256(|s|)
  {
    NoDigits();
    hide *;
    if s != [] {
      var n := |s| - 1;
      var front, last := s[..n], s[n];
      var x := FromBigEndian(front);
      EncodeDecode(front);
      Power256Next(n);
      assert s == front + [last];
      DecodeLast(front, last);
      BigEndianLast(x * 256 + Number(last), n + 1);
      QuotientAndRest(x, Number(last));
      SameNumber(Octet(Number(last)), last);
    }
  }

  lemma NoDigits()
    ensures BigEndian(0, 0) == [] && FromBigEndian([]) == 0 && Power256(0) == 1
  {
  }

  /** The digits by their places: most significant first. */
  lemma {:induction false} DigitAt(x: nat, n: nat, i: nat)
    requires i < n
    ensures Number(BigEndian(x, n)[i]) == x / Power256(n - 1 - i) % 256
  {
    if i < n - 1 {
      DigitAt(x / 256, n - 1, i);
      BigEndianLast(x, n);
      Power256Next(n - 2 - i);
      hide BigEndian, Power256;
      DivideTwice(x, Power256(n - 2 - i));
    }
  }

  lemma DivideTwice(x: nat, p: nat)
    requires p > 0
    ensures x / 256 / p == x / (256 * p)
  {
    var y := x / 256;
    var q := y / p;
    var r := 256 * (y % p) + x % 256;
    assert 256 * (y % p) <= 256 * (p - 1);
    assert x == 256 * (p * q + y % p) + x % 256 == (256 * p) * q + r;
    QuotientIs(x, 256 * p, q, r);
  }

  lemma QuotientIs(x: nat, d: nat, q: nat, r: nat)
    requires x == d * q + r && r < d
    ensures x / d == q
  {
    var k := x / d;
    assert x == d * k + x % d;
    assert k < q ==> d * k <= d * (q - 1);
    assert k > q ==> d * k >= d * (q + 1);
  }

  lemma Power256Next(n: nat)
    ensures Power256(n + 1) == 256 * Power256(n)
  {
  }

  lemma QuotientAndRest(x: nat, r: nat)
    requires r < 256
    ensures (x * 256 + r) / 256 == x && (x * 256 + r) % 256 == r
  {
  }

  // ---- packets ----

  function Zeros(n: nat): seq<byte> { seq(n, _ => 0) }

  function Nonce(counter: nat): Block { BigEndian(counter, 8) + Zeros(8) }

  function Packet(m: seq<byte>, counter: nat, key: Block): seq<byte> {
    Nonce(counter) + Encrypt(m, BigEndian(counter, 8), Nonce(counter), key)
  }

  /** The sender's counter in iteration `i`: it starts at 1 and wraps at 2^64. */
  function Counter(i: nat): nat { (1 + i) % COUNTERS }

  datatype Received = TooShort | AuthFailure | Message(counter: nat, m: seq<byte>)

  function Receive(p: seq<byte>, key: Block): Received {
    if |p| < NONCE_LEN + TAG_LEN then TooShort
    else
      match Decrypt(p[NONCE_LEN..], p[..8], p[..NONCE_LEN], key)
      case Rejected => AuthFailure
      case Plain(m) => Message(FromBigEndian(p[..8]), m)
  }

  lemma CounterStep(i: nat)
    ensures COUNTERS == 0x1_0000_0000_0000_0000
    ensures Counter(0) == 1 && Counter(i + 1) == (Counter(i) + 1) % COUNTERS
  {
  }

  /** The sender's static buffers. */
  class Buffers {
    const nonce: array<byte>
    const aad: array<byte>
    const ctAndTag: array<byte>
    const clen: Length

    constructor ()
      ensures Valid() && fresh(nonce) && fresh(aad) && fresh(ctAndTag) && fresh(clen)
    {
      nonce := new byte[NONCE_LEN](_ => 0);
      aad := new byte[8](_ => 0);
      ctAndTag := new byte[512](_ => 0);
      clen := new Length(0);
      new;
      assert nonce[8..] == Zeros(8);
    }

    predicate Valid()
      reads nonce
    {
      && nonce.Length == NONCE_LEN && aad.Length == 8 && ctAndTag.Length == 512
      && nonce != aad && nonce != ctAndTag && aad != ctAndTag
      && nonce[8..] == Zeros(8)
    }

    /** The packet for `counter`: only the first half of the nonce is ever written. */
    method Build(m: seq<byte>, counter: nat, key: Block) returns (packet: seq<byte>)
      requires Valid() && |m| <= 496
      modifies nonce, aad, ctAndTag, clen
      ensures Valid() && packet == Packet(m, counter, key)
    {
      Be64(nonce, counter);
      Be64(aad, counter);
      assert aad[..] == aad[..8];
      assert nonce[..] == nonce[..8] + nonce[8..];
      clen.n := 0;
      var enc := AeadEncrypt(ctAndTag, clen, m, aad[..], nonce[..], key);
      DecryptEncrypt(m, aad[..], nonce[..], key);
      hide Encrypt, Decrypt;
      assert ctAndTag[..clen.n] == Encrypt(m, BigEndian(counter, 8), Nonce(counter), key);
      packet := nonce[..] + ctAndTag[..clen.n];
    }
  }

  /** The packets of the first iterations of a sender's run over `ms`. */
  ghost predicate SenderRun(ms: seq<seq<byte>>, key: Block, packets: seq<seq<byte>>) {
    |packets| <= |ms| && forall i :: 0 <= i < |packets| ==> packets[i] == Packet(ms[i], Counter(i), key)
  }

  lemma SenderRunNext(ms: seq<seq<byte>>, key: Block, packets: seq<seq<byte>>)
    requires SenderRun(ms, key, packets) && |packets| < |ms|
    ensures SenderRun(ms, key, packets + [Packet(ms[|packets|], Counter(|packets|), key)])
  {
  }

  lemma NothingSent(ms: seq<seq<byte>>, key: Block)
    ensures SenderRun(ms, key, [])
  {
  }

  /** The sender's loop, one iteration for each message. */
  method Send(ms: seq<seq<byte>>, key: Block) returns (packets: seq<seq<byte>>)
    requires forall i :: 0 <= i < |ms| ==> |ms[i]| <= 496
    ensures |packets| == |ms| && SenderRun(ms, key, packets)
  {
    hide *;
    packets := [];
    var buffers := new Buffers();
    var counter: nat := 1;
    CounterStep(0);
    NothingSent(ms, key);
    for i := 0 to |ms|
      invariant buffers.Valid() && counter == Counter(i)
      invariant |packets| == i && SenderRun(ms, key, packets)
    {
      SenderRunNext(ms, key, packets);
      CounterStep(i);
      var packet := buffers.Build(ms[i], counter, key);
      packets := packets + [packet];
      counter := (counter + 1) % COUNTERS;
    }
  }

  const PT_LEN := 1024

  /** The receiver writes position `i` of its plaintext buffer: the plaintext, and a terminator behind it or in the
      last place. */
  predicate Writes(p: seq<byte>, key: Block, i: nat) {
    Receive(p, key).Message? && var m := Receive(p, key).m; i < |m| || i == Min(|m|, PT_LEN - 1)
  }

  /** All of it lies inside the buffer. */
  ghost predicate StaysInside(p: seq<byte>, key: Block) { forall i: nat :: Writes(p, key, i) ==> i < PT_LEN }

  /** The buffer is large enough exactly for what is rejected and for datagrams of at most 1056 bytes. */
  lemma StaysInsideIff(p: seq<byte>, key: Block)
    ensures StaysInside(p, key) <==> !Receive(p, key).Message? || |p| <= NONCE_LEN + PT_LEN + TAG_LEN
  {
    if Receive(p, key).Message? {
      assert |Receive(p, key).m| == |p| - NONCE_LEN - TAG_LEN;
      hide Receive;
      if |p| > NONCE_LEN + PT_LEN + TAG_LEN {
        assert Writes(p, key, PT_LEN);
      }
    }
  }

  /** Of the packets a sender can build, those of messages of up to 1024 bytes fit. */
  lemma PacketFitsIff(m: seq<byte>, counter: nat, key: Block)
    requires counter < COUNTERS
    ensures var p := Packet(m, counter, key);
      |p| == NONCE_LEN + |m| + TAG_LEN && (StaysInside(p, key) <==> |m| <= PT_LEN)
  {
    PacketArrives(m, counter, key);
    StaysInsideIff(Packet(m, counter, key), key);
    hide Receive, StaysInside;
  }

  /** A datagram of 1057 bytes, which the 2048-byte receive buffer takes, that is accepted and does not fit. */
  lemma OverlongPacket(key: Block)
    ensures var p := Packet(Zeros(PT_LEN + 1), 1, key);
      |p| == 1057 && Receive(p, key) == Message(1, Zeros(PT_LEN + 1)) && Writes(p, key, PT_LEN)
  {
    var m := Zeros(PT_LEN + 1);
    PacketArrives(m, 1, key);
    PacketFitsIff(m, 1, key);
    hide Receive, Packet, Zeros;
  }

  /** The receiver's loop over the datagrams that arrive in its 2048-byte buffer. The model ends with the first one
      whose plaintext the receiver would write past the end of its buffer. */
  method ReceiveAll(datagrams: seq<seq<byte>>, key: Block) returns (results: seq<Received>)
    requires forall i :: 0 <= i < |datagrams| ==> |datagrams[i]| <= 2048
    ensures |results| <= |datagrams|
    ensures forall i :: 0 <= i < |results| ==>
      StaysInside(datagrams[i], key) && results[i] == Receive(datagrams[i], key)
    ensures |results| < |datagrams| ==> !StaysInside(datagrams[|results|], key)
  {
    results := [];
    var pt := new byte[PT_LEN](_ => 0);
    var ptlen := new Length(0);
    for i := 0 to |datagrams|
      invariant |results| == i
      invariant forall k :: 0 <= k < i ==> StaysInside(datagrams[k], key) && results[k] == Receive(datagrams[k], key)
    {
      var buf := datagrams[i];
      StaysInsideIff(buf, key);
      hide StaysInside;
      if |buf| > NONCE_LEN + PT_LEN + TAG_LEN && Receive(buf, key).Message? {
        return;
      }
      if |buf| < NONCE_LEN + TAG_LEN {
        results := results + [TooShort];
        continue;
      }
      var nonce := buf[..NONCE_LEN];
      var aad := nonce[..8];
      assert aad == buf[..8];
      ptlen.n := 0;
      var dec := AeadDecrypt(pt, ptlen, buf[NONCE_LEN..], aad, nonce, key);
      if dec == 0 {
        results := results + [Message(FromBigEndian(aad), pt[..ptlen.n])];
        var printLen := if ptlen.n < PT_LEN - 1 then ptlen.n else PT_LEN - 1;
        pt[printLen] := 0;
      } else {
        results := results + [AuthFailure];
      }
    }
  }

  // ---- end to end ----

  lemma CounterDigits(counter: nat)
    requires counter < COUNTERS
    ensures FromBigEndian(Nonce(counter)[..8]) == counter && Nonce(counter)[..8] == BigEndian(counter, 8)
  {
    assert Power256(8) == COUNTERS by {
      assert Power256(4) == 0x1_0000_0000;
    }
    DecodeEncode(counter, 8);
    assert Nonce(counter)[..8] == BigEndian(counter, 8);
  }

  lemma PacketArrives(m: seq<byte>, counter: nat, key: Block)
    requires counter < COUNTERS
    ensures Receive(Packet(m, counter, key), key) == Message(counter, m)
  {
    var p := Packet(m, counter, key);
    CounterDigits(counter);
    assert p[..NONCE_LEN] == Nonce(counter);
    assert p[..8] == Nonce(counter)[..8];
    assert p[NONCE_LEN..] == Encrypt(m, BigEndian(counter, 8), Nonce(counter), key);
    DecryptEncrypt(m, BigEndian(counter, 8), Nonce(counter), key);
  }

  /** A datagram that left in some iteration has been received as that iteration's message and counter. */
  ghost predicate Delivered(ms: seq<seq<byte>>, packets: seq<seq<byte>>, datagram: seq<byte>, result: Received)
    requires |packets| == |ms|
  {
    exists i :: 0 <= i < |ms| && datagram == packets[i] && result == Message(Counter(i), ms[i])
  }

  /** Whatever the channel loses, repeats or reorders, and however long the run: every packet that arrives is
      accepted and yields the message of the iteration it was sent in, with that iteration's counter. Until the
      counter wraps, the counter in the nonce says which message it is. */
  lemma EndToEnd(ms: seq<seq<byte>>, key: Block, packets: seq<seq<byte>>, arrived: seq<seq<byte>>,
                 results: seq<Received>)
    requires |packets| == |ms| && SenderRun(ms, key, packets)
    requires forall k :: 0 <= k < |arrived| ==> arrived[k] in packets
    requires |results| == |arrived| && forall k :: 0 <= k < |arrived| ==> results[k] == Receive(arrived[k], key)
    ensures forall k :: 0 <= k < |arrived| ==> Delivered(ms, packets, arrived[k], results[k])
    ensures |ms| < COUNTERS ==> forall k :: 0 <= k < |arrived| ==>
      && results[k].Message? && 1 <= results[k].counter <= |ms|
      && arrived[k] == packets[results[k].counter - 1]
      && results[k].m == ms[results[k].counter - 1]
  {
    hide Receive, Packet, Counter;
    forall k | 0 <= k < |arrived|
      ensures Delivered(ms, packets, arrived[k], results[k])
    {
      var i :| 0 <= i < |packets| && packets[i] == arrived[k];
      CounterInRange(i);
      PacketArrives(ms[i], Counter(i), key);
    }
    forall i | 0 <= i < |ms| && 1 + i < COUNTERS
      ensures Counter(i) == 1 + i
    {
      CounterBeforeWrap(i);
    }
  }

  lemma CounterInRange(i: nat)
    ensures Counter(i) < COUNTERS
  {
  }

  lemma CounterBeforeWrap(i: nat)
    requires 1 + i < COUNTERS
    ensures Counter(i) == 1 + i
  {
  }

  lemma RemainderUnique(a: nat, q: int, r: nat)
    requires a == COUNTERS * q + r && r < COUNTERS
    ensures a % COUNTERS == r
  {
  }

  /** Two iterations use the same nonce exactly when they are a multiple of 2^64 apart. */
  lemma NoncesRepeatExactlyOnWrap(i: nat, j: nat)
    ensures Nonce(Counter(i)) == Nonce(Counter(j)) <==> (j - i) % COUNTERS == 0
  {
    CounterInRange(i);
    CounterInRange(j);
    CounterDigits(Counter(i));
    CounterDigits(Counter(j));
    hide *;
    CountersRepeat(i, j);
  }

  lemma CountersRepeat(i: nat, j: nat)
    ensures Counter(i) == Counter(j) <==> (j - i) % COUNTERS == 0
  {
    if (j - i) % COUNTERS == 0 {
      SameRemainder(1 + i, 1 + j);
    } else if Counter(i) == Counter(j) {
      SameDifference(1 + i, 1 + j);
    }
  }

  lemma SameRemainder(a: nat, b: nat)
    requires (b - a) % COUNTERS == 0
    ensures a % COUNTERS == b % COUNTERS
  {
    RemainderUnique(b, (b - a) / COUNTERS + a / COUNTERS, a % COUNTERS);
  }

  lemma SameDifference(a: nat, b: nat)
    requires a % COUNTERS == b % COUNTERS
    ensures (b - a) % COUNTERS == 0
  {
    assert b - a == COUNTERS * (b / COUNTERS - a / COUNTERS);
  }

  // ---- what the receiver does and does not check about the nonce ----

  lemma {:induction false} ColumnOfShort(s: seq<byte>, j: nat)
    requires |s| <= TAG_LEN && j < TAG_LEN
    ensures Column(s, j) == if j < |s| then s[j] else 0
  {
    hide Xor;
    if s != [] {
      var n := |s| - 1;
      ColumnOfShort(s[..n], j);
      XorLaws(0, s[n], 0);
      XorLaws(s[n], 0, 0);
      XorLaws(Column(s[..n], j), 0, 0);
    }
  }

  /** The receiver takes the AAD from the nonce, and the two cancel in the first eight tag columns. An accepted
      packet stays accepted under another nonce if and only if the second half of the nonce is the same: the
      counter half is not bound. */
  lemma NonceBinding(nonce: Block, other: Block, c: seq<byte>, key: Block)
    requires Receive(nonce + c, key).Message?
    ensures Receive(other + c, key).Message? <==> other[8..] == nonce[8..]
  {
    var p, q := nonce + c, other + c;
    assert p[..NONCE_LEN] == nonce && p[..8] == nonce[..8] && p[NONCE_LEN..] == c;
    assert q[..NONCE_LEN] == other && q[..8] == other[..8] && q[NONCE_LEN..] == c;
    AcceptedIffTagBytes(c, nonce[..8], nonce, key);
    AcceptedIffTagBytes(c, other[..8], other, key);
    hide Decrypt, Xor, TagByte, Body, TagPart;
    forall j | 0 <= j < TAG_LEN
      ensures TagByte(Body(c), nonce[..8], nonce, key, j) == TagByte(Body(c), other[..8], other, key, j)
        <==> j < 8 || nonce[j] == other[j]
    {
      NonceColumn(Body(c), nonce, other, key, j);
    }
    if other[8..] == nonce[8..] {
      assert forall j :: 8 <= j < TAG_LEN ==> nonce[j] == nonce[8..][j - 8] == other[8..][j - 8] == other[j];
    } else {
      var k :| 0 <= k < 8 && other[8..][k] != nonce[8..][k];
      assert nonce[8 + k] != other[8 + k];
      assert TagPart(c)[8 + k] == TagByte(Body(c), nonce[..8], nonce, key, 8 + k);
    }
  }

  lemma NonceColumn(body: seq<byte>, nonce: Block, other: Block, key: Block, j: nat)
    requires j < TAG_LEN
    ensures TagByte(body, nonce[..8], nonce, key, j) == TagByte(body, other[..8], other, key, j)
      <==> j < 8 || nonce[j] == other[j]
  {
    ColumnOfShort(nonce[..8], j);
    ColumnOfShort(other[..8], j);
    hide Column, Xor;
    HalfCancels(key[j], nonce[j], Column(body, j));
    HalfCancels(key[j], other[j], Column(body, j));
    HalfInjective(key[j], nonce[j], other[j], Column(body, j));
  }

  lemma HalfCancels(k: byte, n: byte, x: byte)
    ensures Xor(Xor(Xor(k, n), x), n) == Xor(k, x)
  {
  }

  lemma HalfInjective(k: byte, n: byte, o: byte, x: byte)
    ensures Xor(Xor(Xor(k, n), x), 0) == Xor(Xor(Xor(k, o), x), 0) <==> n == o
  {
  }

  /** Concretely: the packet of one counter is accepted under any other counter, and then yields the message if
      and only if no message byte lies where the two nonces differ. */
  lemma CounterIsNotBound(m: seq<byte>, counter: nat, other: nat, key: Block)
    requires counter < COUNTERS && other < COUNTERS
    ensures var p := Nonce(other) + Packet(m, counter, key)[NONCE_LEN..];
      var r := Receive(p, key);
      && r.Message? && r.counter == other
      && (r.m == m <==> forall i :: 0 <= i < |m| ==> Nonce(other)[i % NONCE_LEN] == Nonce(counter)[i % NONCE_LEN])
  {
    var c := Packet(m, counter, key)[NONCE_LEN..];
    assert Packet(m, counter, key) == Nonce(counter) + c;
    PacketArrives(m, counter, key);
    assert Nonce(other)[8..] == Zeros(8) == Nonce(counter)[8..];
    NonceBinding(Nonce(counter), Nonce(other), c, key);
    CounterDigits(other);
    var p := Nonce(other) + c;
    assert p[..NONCE_LEN] == Nonce(other) && p[..8] == Nonce(other)[..8] && p[NONCE_LEN..] == c;
    assert Body(c) == Mask(m, Nonce(counter), key);
    MaskUnder(m, Nonce(counter), Nonce(other), key);
  }

  /** A packet byte by byte: the counter, most significant byte first; eight zeros; the message under key and nonce; and
      a tag of the key and the body alone, since nonce and AAD cancel. */
  lemma PacketBytes(m: seq<byte>, counter: nat, key: Block)
    ensures var p := Packet(m, counter, key);
      && |p| == 16 + |m| + 16
      && (forall i :: 0 <= i < 8 ==> Number(p[i]) == counter / Power256(7 - i) % 256)
      && (forall i :: 8 <= i < 16 ==> p[i] == 0)
      && (forall i :: 0 <= i < |m| ==> p[16 + i] == m[i] ^ key[i % 16] ^ p[i % 16])
      && (forall j :: 0 <= j < 16 ==> p[16 + |m| + j] == key[j] ^ Column(p[16..16 + |m|], j))
  {
    hide *;
    var p, n, aad := Packet(m, counter, key), Nonce(counter), BigEndian(counter, 8);
    var c := Encrypt(m, aad, n, key);
    PacketLayout(m, counter, key);
    forall i | 0 <= i < 8
      ensures Number(p[i]) == counter / Power256(7 - i) % 256
    {
      DigitAt(counter, 8, i);
    }
    forall i | 0 <= i < |m|
      ensures p[16 + i] == m[i] ^ key[i % 16] ^ p[i % 16]
    {
      BodyByte(m, aad, n, key, i);
    }
    forall j | 0 <= j < 16
      ensures p[16 + |m| + j] == key[j] ^ Column(p[16..16 + |m|], j)
    {
      TagOfPacket(c, aad, n, key, j);
    }
  }

  lemma PacketLayout(m: seq<byte>, counter: nat, key: Block)
    ensures var p, n, aad := Packet(m, counter, key), Nonce(counter), BigEndian(counter, 8);
      var c := Encrypt(m, aad, n, key);
      && |p| == 16 + |m| + 16 && |c| == |m| + 16 && Decrypt(c, aad, n, key).Plain?
      && (forall i :: 0 <= i < 8 ==> p[i] == aad[i]) && (forall i :: 8 <= i < 16 ==> p[i] == 0)
      && (forall i :: 0 <= i < 16 ==> n[i] == (if i < 8 then aad[i] else 0) && p[i] == n[i])
      && (forall i :: 0 <= i < |c| ==> p[16 + i] == c[i])
      && p[16..16 + |m|] == Body(c) && forall j :: 0 <= j < 16 ==> TagPart(c)[j] == p[16 + |m| + j]
  {
    var n, aad := Nonce(counter), BigEndian(counter, 8);
    DecryptEncrypt(m, aad, n, key);
    hide Encrypt, Decrypt, BigEndian;
    var p, c := Packet(m, counter, key), Encrypt(m, aad, n, key);
    assert p == n + c;
    assert p[16..16 + |m|] == c[..|m|];
  }

  /** Nonce and AAD cancel in the tag. */
  lemma TagOfPacket(c: seq<byte>, aad: seq<byte>, nonce: Block, key: Block, j: nat)
    requires Decrypt(c, aad, nonce, key).Plain? && |c| >= 16 && |aad| == 8 && j < 16
    requires nonce[j] == if j < 8 then aad[j] else 0
    ensures TagPart(c)[j] == key[j] ^ Column(Body(c), j)
  {
    hide Decrypt, Column;
    AcceptedIffColumns(c, aad, nonce, key);
    ColumnOfShort(aad, j);
    TagByteCancels(key[j], nonce[j], Column(Body(c), j));
  }

  lemma TagByteCancels(k: byte, n: byte, x: byte)
    ensures k ^ n ^ x ^ n == k ^ x
    ensures k ^ 0 ^ x ^ 0 == k ^ x
  {
  }

  lemma MaskUnder(m: seq<byte>, nonce: Block, other: Block, key: Block)
    ensures Mask(Mask(m, nonce, key), other, key) == m
      <==> forall i :: 0 <= i < |m| ==> other[i % NONCE_LEN] == nonce[i % NONCE_LEN]
  {
    hide Xor;
    var c := Mask(Mask(m, nonce, key), other, key);
    forall i | 0 <= i < |m|
      ensures c[i] == m[i] <==> other[i % NONCE_LEN] == nonce[i % NONCE_LEN]
    {
      MaskByte(m[i], key[i % KEY_LEN], nonce[i % NONCE_LEN], other[i % NONCE_LEN]);
    }
    if forall i :: 0 <= i < |m| ==> other[i % NONCE_LEN] == nonce[i % NONCE_LEN] {
      assert c == m;
    }
  }

  lemma MaskByte(a: byte, k: byte, n: byte, o: byte)
    ensures Xor(Xor(Xor(Xor(a, k), n), k), o) == a <==> o == n
  {
    hide Xor;
    XorTwice(a, k, n);
    XorInjective(Xor(Xor(Xor(a, k), n), k), n, o);
  }

  lemma XorInjective(x: byte, n: byte, o: byte)
    ensures Xor(x, n) == Xor(x, o) <==> n == o
  {
  }

  // ---- bytes_to_hex ----

  const HEX := "0123456789abcdef"

  function High(b: byte): char { HEX[Number(b) / 16] }

  function Low(b: byte): char { HEX[Number(b) % 16] }

  function Hex(s: seq<byte>): (h: string)
    ensures |h| == 2 * |s|
  {
    if s == [] then [] else Hex(s[..|s| - 1]) + [High(s[|s| - 1]), Low(s[|s| - 1])]
  }

  lemma {:induction false} HexAt(s: seq<byte>, i: nat)
    requires i < |s|
    ensures Hex(s)[2 * i] == High(s[i]) && Hex(s)[2 * i + 1] == Low(s[i])
  {
    hide High, Low;
    if i < |s| - 1 {
      HexAt(s[..|s| - 1], i);
    }
  }

  /** Writes the digits and a terminator, or nothing when they do not fit. */
  method BytesToHex(s: seq<byte>, out: array<char>)
    modifies out
    ensures out.Length < 2 * |s| + 1 ==> out[..] == old(out[..])
    ensures out.Length >= 2 * |s| + 1 ==> out[..] == Hex(s) + ['\0'] + old(out[..])[2 * |s| + 1..]
  {
    var need := |s| * 2 + 1;
    if out.Length < need {
      return;
    }
    ghost var was, text := out[..], Hex(s);
    hide *;
    for i := 0 to |s|
      invariant forall k :: 0 <= k < 2 * i ==> out[k] == text[k]
      invariant forall k :: 2 * i <= k < out.Length ==> out[k] == was[k]
    {
      HexAt(s, i);
      out[2 * i] := High(s[i]);
      out[2 * i + 1] := Low(s[i]);
    }
    out[2 * |s|] := '\0';
    assert out[..] == text + ['\0'] + was[2 * |s| + 1..];
  }

  /** The number a hexadecimal digit stands for. */
  function HexValue(c: char): int {
    if '0' <= c <= '9' then (c - '0') as int
    else if 'a' <= c <= 'f' then (c - 'a') as int + 10
    else -1
  }

  /** Reading the text two digits at a time gives the bytes back. */
  lemma HexReadsBack(s: seq<byte>, i: nat)
    requires i < |s|
    ensures HexValue(Hex(s)[2 * i]) >= 0 && HexValue(Hex(s)[2 * i + 1]) >= 0
    ensures 16 * HexValue(Hex(s)[2 * i]) + HexValue(Hex(s)[2 * i + 1]) == Number(s[i])
  {
    HexAt(s, i);
    HexValues(Number(s[i]) / 16);
    HexValues(Number(s[i]) % 16);
    hide HexValue, Hex;
  }

  lemma HexValues(d: nat)
    requires d < 16
    ensures HexValue(HEX[d]) == d
  {
  }

  /** Different byte strings have different hex texts. */
  lemma HexInjective(s: seq<byte>, t: seq<byte>)
    requires Hex(s) == Hex(t)
    ensures s == t
  {
    forall i | 0 <= i < |s|
      ensures s[i] == t[i]
    {
      HexAt(s, i);
      HexAt(t, i);
      HexPair(s[i], t[i]);
    }
  }

  lemma HexPair(a: byte, b: byte)
    requires High(a) == High(b) && Low(a) == Low(b)
    ensures a == b
  {
    HexNumber(Number(a), Number(b));
    SameNumber(a, b);
  }

  lemma HexNumber(x: nat, y: nat)
    requires x < 256 && y < 256 && HEX[x / 16] == HEX[y / 16] && HEX[x % 16] == HEX[y % 16]
    ensures x == y
  {
    HexDigit(x / 16, y / 16);
    HexDigit(x % 16, y % 16);
  }

  lemma HexDigit(a: nat, b: nat)
    requires a < 16 && b < 16
    ensures HEX[a] == HEX[b] ==> a == b
  {
  }
}
