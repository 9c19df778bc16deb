/** The sequential task both servers perform for one client: a header, then the file in 100-byte pieces.
    The loop of the pthread handler is proved against it here; the interleaved servers refine it elsewhere. */
module Chunking {
  import opened Math

  const CHUNK_SIZE := 100

  /** Length of the piece sent at `offset`, by the test both handlers use. */
  function ChunkLength(size: nat, offset: nat): (n: nat)
    requires offset < size
    ensures 1 <= n <= 100 && offset + n <= size
    ensures n < 100 ==> offset + n == size
  {
    if size - offset > CHUNK_SIZE then CHUNK_SIZE else size - offset
  }

  function ChunkAt(file: string, offset: nat): string
    requires offset < |file|
  {
    file[offset..offset + ChunkLength(|file|, offset)]
  }

  /** The pieces sent from `offset` on. */
  function Chunks(file: string, offset: nat): seq<string>
    decreases |file| - offset
  {
    if offset >= |file| then [] else [ChunkAt(file, offset)] + Chunks(file, offset + CHUNK_SIZE)
  }

  /** Number of pieces of a file of `size` bytes. */
  function Blocks(size: nat): nat { (size + CHUNK_SIZE - 1) / CHUNK_SIZE }

  function Concat(parts: seq<string>): string {
    if parts == [] then [] else Concat(parts[..|parts| - 1]) + parts[|parts| - 1]
  }

  /** Everything one client is to be sent, in order. */
  function Script(header: string, file: string): (s: seq<string>) {
    [header] + Chunks(file, 0)
  }

  lemma {:induction false} ChunkCount(file: string, offset: nat)
    ensures |Chunks(file, offset)| == if offset >= |file| then 0 else Blocks(|file| - offset)
    decreases |file| - offset
  {
    if offset < |file| {
      ChunkCount(file, offset + CHUNK_SIZE);
    }
  }

  lemma {:induction false} ChunkIndex(file: string, offset: nat, k: nat)
    requires k < |Chunks(file, offset)|
    ensures offset + CHUNK_SIZE * k < |file| && Chunks(file, offset)[k] == ChunkAt(file, offset + CHUNK_SIZE * k)
    decreases k
  {
    if k > 0 {
      ChunkIndex(file, offset + CHUNK_SIZE, k - 1);
    }
  }

  /** The pieces are consecutive, full but for the last, and there are ceil(size / 100) of them. */
  lemma ChunkPartition(file: string)
    ensures |Chunks(file, 0)| == Blocks(|file|) && 100 * (Blocks(|file|) - 1) < |file| <= 100 * Blocks(|file|)
    ensures forall k :: 0 <= k < Blocks(|file|) ==>
      100 * k < |file| && Chunks(file, 0)[k] == file[100 * k..Min(100 * (k + 1), |file|)]
  {
    ChunkCount(file, 0);
    forall k | 0 <= k < Blocks(|file|)
      ensures 100 * k < |file| && Chunks(file, 0)[k] == file[100 * k..Min(100 * (k + 1), |file|)]
    {
      ChunkIndex(file, 0, k);
    }
  }

  lemma ConcatSnoc(parts: seq<string>, p: string)
    ensures Concat(parts + [p]) == Concat(parts) + p
  {
    assert (parts + [p])[..|parts|] == parts;
  }

  lemma JoinSlices(header: string, file: string, a: nat, b: nat)
    requires a <= b <= |file|
    ensures header + file[..a] + file[a..b] == header + file[..b]
  {
  }

  lemma ScriptAt(header: string, file: string)
    ensures |Script(header, file)| == 1 + Blocks(|file|) && Script(header, file)[0] == header
    ensures forall k :: 0 <= k < Blocks(|file|) ==>
      CHUNK_SIZE * k < |file| && Script(header, file)[k + 1] == file[CHUNK_SIZE * k..Min(CHUNK_SIZE * (k + 1), |file|)]
  {
    ChunkPartition(file);
    hide Chunks;
  }

  /** After header and k pieces the client has been handed exactly header ++ file[..100k]. */
  lemma {:induction false} ScriptPrefix(header: string, file: string, k: nat)
    requires k <= Blocks(|file|)
    ensures |Script(header, file)| == 1 + Blocks(|file|)
    ensures Concat(Script(header, file)[..k + 1]) == header + file[..Min(100 * k, |file|)]
  {
    ScriptAt(header, file);
    var s := Script(header, file);
    assert Concat([]) == [];
    hide Script, Concat, Blocks;
    if k == 0 {
      assert s[..1] == [] + [header];
      ConcatSnoc([], header);
    } else {
      ScriptPrefix(header, file, k - 1);
      assert s[..k + 1] == s[..k] + [s[k]];
      ConcatSnoc(s[..k], s[k]);
      JoinSlices(header, file, CHUNK_SIZE * (k - 1), Min(CHUNK_SIZE * k, |file|));
    }
  }

  /** The complete script is header ++ file, for every file. */
  lemma ScriptComplete(header: string, file: string)
    ensures Concat(Script(header, file)) == header + file
  {
    ScriptPrefix(header, file, Blocks(|file|));
    var s := Script(header, file);
    assert s[..Blocks(|file|) + 1] == s;
    assert file[..|file|] == file;
  }

  /** One handler run to its end: the `for` loop over `offset`. */
  method SendFile(file: string) returns (sent: seq<string>)
    ensures sent == Chunks(file, 0)
  {
    sent := [];
    var offset := 0;
    while offset < |file|
      invariant sent + Chunks(file, offset) == Chunks(file, 0)
      decreases |file| - offset
    {
      var chunk := if |file| - offset > CHUNK_SIZE then CHUNK_SIZE else |file| - offset;
      sent := sent + [file[offset..offset + chunk]];
      offset := offset + CHUNK_SIZE;
    }
  }
}
