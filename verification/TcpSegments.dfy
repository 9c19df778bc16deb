/** How the hand-made TCP server cuts a response into numbered segments, and what a receiver can rely on. */
module TcpSegments {
  import opened Math

  datatype Segment = Segment(seqno: int, data: string)

  /** 500, 500 and the rest, if there is one. */
  function ChunkSizes(length: nat): seq<nat> {
    [500, 500] + if length > 1000 then [length - 1000] else []
  }

  /** The segments sent from position `pos` on; byte 0 of the payload has number `base`. */
  function Segments(payload: string, sizes: seq<nat>, pos: nat, base: int): seq<Segment>
    requires pos <= |payload|
  {
    if sizes == [] || pos >= |payload| then []
    else
      var end := Min(pos + sizes[0], |payload|);
      [Segment(base + pos, payload[pos..end])] + Segments(payload, sizes[1..], end, base)
  }

  function Sum(sizes: seq<nat>): nat {
    if sizes == [] then 0 else sizes[0] + Sum(sizes[1..])
  }

  /** The segments tile `payload` from `pos` on: each starts where the one before it ended, carries the bytes that
      belong there and at least one of them, and the last ends at the payload's end. */
  ghost predicate Tiles(segs: seq<Segment>, payload: string, pos: nat, base: int)
    requires pos <= |payload|
    decreases |segs|
  {
    if segs == [] then pos == |payload|
    else
      && segs[0].seqno == base + pos
      && 0 < |segs[0].data| <= |payload| - pos
      && segs[0].data == payload[pos..pos + |segs[0].data|]
      && Tiles(segs[1..], payload, pos + |segs[0].data|, base)
  }

  lemma {:induction false} SegmentsTile(payload: string, sizes: seq<nat>, pos: nat, base: int)
    requires pos <= |payload| && pos + Sum(sizes) >= |payload|
    requires forall i :: 0 <= i < |sizes| ==> sizes[i] > 0
    ensures Tiles(Segments(payload, sizes, pos, base), payload, pos, base)
    decreases |sizes|
  {
    if sizes != [] && pos < |payload| {
      var end := Min(pos + sizes[0], |payload|);
      SegmentsTile(payload, sizes[1..], end, base);
      var segs := Segments(payload, sizes, pos, base);
      assert segs[1..] == Segments(payload, sizes[1..], end, base);
    }
  }

  /** The chunk sizes are positive and together at least the payload. */
  lemma ChunksCover(payload: string)
    ensures Sum(ChunkSizes(|payload|)) >= |payload| && |ChunkSizes(|payload|)| <= 3
    ensures forall i :: 0 <= i < |ChunkSizes(|payload|)| ==> ChunkSizes(|payload|)[i] > 0
  {
    var sizes := ChunkSizes(|payload|);
    assert Sum(sizes) == 500 + Sum(sizes[1..]);
    assert sizes[1..][0] == 500;
    assert Sum(sizes[1..]) == 500 + Sum(sizes[1..][1..]);
    assert sizes[1..][1..] == if |payload| > 1000 then [|payload| - 1000] else [];
    if |payload| > 1000 {
      assert Sum([|payload| - 1000]) == |payload| - 1000 + Sum([|payload| - 1000][1..]);
    }
  }

  /** For every payload the three chunk sizes cover it without gap or overlap. */
  lemma ResponseTiles(payload: string, base: int)
    ensures Tiles(Segments(payload, ChunkSizes(|payload|), 0, base), payload, 0, base)
  {
    ChunksCover(payload);
    SegmentsTile(payload, ChunkSizes(|payload|), 0, base);
  }

  /** Segment `s` carries the byte with number `q`. */
  predicate Carries(s: Segment, q: int) { s.seqno <= q < s.seqno + |s.data| }

  /** A carried byte is the payload's byte of that number. */
  lemma {:induction false} CarriedByte(segs: seq<Segment>, payload: string, pos: nat, base: int, i: nat, q: int)
    requires pos <= |payload| && Tiles(segs, payload, pos, base)
    requires i < |segs| && Carries(segs[i], q)
    ensures base + pos <= q < base + |payload| && segs[i].data[q - segs[i].seqno] == payload[q - base]
    decreases |segs|
  {
    if i > 0 {
      CarriedByte(segs[1..], payload, pos + |segs[0].data|, base, i - 1, q);
    }
  }

  /** Every number from `base + pos` to the payload's end is carried by exactly one segment. */
  lemma {:induction false} CarrierExists(segs: seq<Segment>, payload: string, pos: nat, base: int, q: int)
    returns (i: nat)
    requires pos <= |payload| && Tiles(segs, payload, pos, base)
    requires base + pos <= q < base + |payload|
    ensures i < |segs| && Carries(segs[i], q)
    ensures forall j :: 0 <= j < |segs| && Carries(segs[j], q) ==> j == i
    decreases |segs|
  {
    var next := pos + |segs[0].data|;
    if q < base + next {
      i := 0;
      forall j | 0 <= j < |segs| && Carries(segs[j], q)
        ensures j == 0
      {
        if j > 0 {
          CarriedByte(segs[1..], payload, next, base, j - 1, q);
        }
      }
    } else {
      i := CarrierExists(segs[1..], payload, next, base, q);
      i := i + 1;
      assert forall j :: 1 <= j < |segs| ==> segs[j] == segs[1..][j - 1];
    }
  }

  // ---- the receiving side ----

  datatype Byte = Lost | Got(c: char)

  /** The byte numbered `q` as the first delivered segment that carries it has it. */
  function ByteAt(delivered: seq<Segment>, q: int): Byte {
    if delivered == [] then Lost
    else if Carries(delivered[0], q) then Got(delivered[0].data[q - delivered[0].seqno])
    else ByteAt(delivered[1..], q)
  }

  /** Whatever is delivered, in whatever order and however often, no number ever shows a wrong byte, and a
      number shows nothing only if no segment carrying it was delivered. */
  lemma {:induction false} DeliveredByte(segs: seq<Segment>, payload: string, base: int, delivered: seq<Segment>,
                                         q: int)
    requires Tiles(segs, payload, 0, base)
    requires forall k :: 0 <= k < |delivered| ==> delivered[k] in segs
    ensures match ByteAt(delivered, q)
      case Got(c) => base <= q < base + |payload| && c == payload[q - base]
      case Lost => forall k :: 0 <= k < |delivered| ==> !Carries(delivered[k], q)
    decreases |delivered|
  {
    if delivered != [] {
      if Carries(delivered[0], q) {
        var i :| 0 <= i < |segs| && segs[i] == delivered[0];
        CarriedByte(segs, payload, 0, base, i, q);
      } else {
        DeliveredByte(segs, payload, base, delivered[1..], q);
      }
    }
  }

  /** A receiver that has got every segment of the response at least once reads the payload off the numbers. */
  lemma Reassembly(payload: string, base: int, delivered: seq<Segment>)
    requires forall s :: s in delivered <==> s in Segments(payload, ChunkSizes(|payload|), 0, base)
    ensures forall q :: base <= q < base + |payload| ==> ByteAt(delivered, q) == Got(payload[q - base])
    ensures forall q :: !(base <= q < base + |payload|) ==> ByteAt(delivered, q) == Lost
  {
    var segs := Segments(payload, ChunkSizes(|payload|), 0, base);
    ResponseTiles(payload, base);
    hide *;
    forall k | 0 <= k < |delivered|
      ensures delivered[k] in segs
    {
      assert delivered[k] in delivered;
    }
    forall q: int
      ensures ByteAt(delivered, q) == if base <= q < base + |payload| then Got(payload[q - base]) else Lost
    {
      DeliveredByte(segs, payload, base, delivered, q);
      if base <= q < base + |payload| {
        var i := CarrierExists(segs, payload, 0, base, q);
        assert segs[i] in segs;
        assert segs[i] in delivered;
      }
    }
  }

  /** Where the last segment of a response of this length starts. */
  function LastStart(length: nat): nat { if length <= 500 then 0 else if length <= 1000 then 500 else 1000 }

  lemma OneMoreSegment(payload: string, sizes: seq<nat>, size: nat, rest: seq<nat>, pos: nat, base: int)
    requires sizes == [size] + rest && pos < |payload|
    ensures var end := Min(pos + size, |payload|);
      Segments(payload, sizes, pos, base)
        == [Segment(base + pos, payload[pos..end])] + Segments(payload, rest, end, base)
  {
    assert sizes[1..] == rest;
  }

  lemma NoMoreSegments(payload: string, sizes: seq<nat>, base: int)
    ensures Segments(payload, sizes, |payload|, base) == []
  {
  }

  /** The segments of a response, written out. */
  lemma SegmentsAre(payload: string, base: int)
    ensures var n, segs := |payload|, Segments(payload, ChunkSizes(|payload|), 0, base);
      && |segs| == (if n == 0 then 0 else if n <= 500 then 1 else if n <= 1000 then 2 else 3)
      && (n > 0 ==> segs[0] == Segment(base, payload[..Min(500, n)]))
      && (n > 500 ==> segs[1] == Segment(base + 500, payload[500..Min(1000, n)]))
      && (n > 1000 ==> segs[2] == Segment(base + 1000, payload[1000..]))
  {
    var n, sizes := |payload|, ChunkSizes(|payload|);
    var third := if n > 1000 then [n - 1000] else [];
    assert sizes == [500] + ([500] + third);
    hide Segments;
    if n == 0 {
      NoMoreSegments(payload, sizes, base);
    } else {
      OneMoreSegment(payload, sizes, 500, [500] + third, 0, base);
      if n <= 500 {
        NoMoreSegments(payload, [500] + third, base);
      } else {
        OneMoreSegment(payload, [500] + third, 500, third, 500, base);
        if n <= 1000 {
          NoMoreSegments(payload, third, base);
        } else {
          OneMoreSegment(payload, third, n - 1000, [], 1000, base);
          NoMoreSegments(payload, [], base);
        }
      }
    }
  }

  /** The last segment has the greatest number. */
  lemma LastSegment(payload: string, base: int)
    ensures var segs := Segments(payload, ChunkSizes(|payload|), 0, base);
      && (payload == [] <==> segs == [])
      && (forall i :: 0 <= i < |segs| ==> base <= segs[i].seqno <= segs[|segs| - 1].seqno)
      && (segs != [] ==> segs[|segs| - 1].seqno == base + LastStart(|payload|))
  {
    SegmentsAre(payload, base);
    hide Segments, ChunkSizes;
  }
}
