/** NUL-terminated strings in fixed buffers, with the library calls the parser uses. */
module CStrings {

  const NUL := '\0'

  /** `strchr`: the least position of `c`, or the length. */
  function Find(s: string, c: char): (i: nat)
    ensures i <= |s| && c !in s[..i]
    ensures i < |s| ==> s[i] == c
  {
    if s == [] || s[0] == c then 0
    else
      var i := 1 + Find(s[1..], c);
      assert s[..i] == [s[0]] + s[1..][..i - 1];
      i
  }

  lemma FindUnique(a: string, c: char, b: string)
    requires c !in a
    ensures Find(a + [c] + b, c) == Find(a, c) == |a|
  {
    var s := a + [c] + b;
    assert s[|a|] == c;
  }

  /** The text a buffer holds: up to its first NUL. */
  function Text(buf: seq<char>): string { buf[..Find(buf, NUL)] }

  lemma TextOf(s: string, rest: seq<char>)
    requires '\0' !in s
    ensures Text(s + ['\0'] + rest) == s
  {
    FindUnique(s, NUL, rest);
  }

  predicate OccursAt(s: string, needle: string, k: nat) {
    k + |needle| <= |s| && s[k..k + |needle|] == needle
  }

  /** `strstr` from position `from` on: the least position where `needle` occurs, or -1. */
  function FindText(s: string, needle: string, from: nat): (i: int)
    ensures i == -1 || (from <= i && OccursAt(s, needle, i))
    ensures forall k: nat :: from <= k && (i < 0 || k < i) ==> !OccursAt(s, needle, k)
    decreases |s| - from
  {
    if from + |needle| > |s| then -1
    else if OccursAt(s, needle, from) then from
    else FindText(s, needle, from + 1)
  }

  /** `strchr` in a buffer, from `from` to the terminator. */
  method StrChr(a: array<char>, from: nat, c: char) returns (i: int)
    requires from < a.Length && NUL in a[from..] && c != NUL
    ensures var s := Text(a[from..]); i == if Find(s, c) < |s| then from + Find(s, c) else -1
  {
    ghost var s := Text(a[from..]);
    i := from;
    while a[i] != c && a[i] != NUL
      invariant from <= i <= from + |s| < a.Length
      invariant c !in s[..i - from]
      decreases a.Length - i
    {
      assert a[from..][i - from] == a[i];
      assert i < from + |s|;
      assert s[..i - from + 1] == s[..i - from] + [a[i]];
      i := i + 1;
    }
    assert a[from..][i - from] == a[i];
    if a[i] == c {
      assert s == s[..i - from] + [c] + s[i - from + 1..];
      FindUnique(s[..i - from], c, s[i - from + 1..]);
    } else {
      assert s == s[..i - from];
      FindUnique(s, c, []);
      i := -1;
    }
  }

  /** Copies `s` and a terminator into `dst`; what lies beyond is left alone. */
  method StrCpy(dst: array<char>, s: string)
    requires |s| < dst.Length
    modifies dst
    ensures dst[..] == s + [NUL] + old(dst[..])[|s| + 1..]
  {
    ghost var was := dst[..];
    for i := 0 to |s|
      invariant dst[..i] == s[..i] && dst[i..] == was[i..]
    {
      dst[i] := s[i];
      assert dst[i + 1..] == was[i..][1..];
    }
    dst[|s|] := NUL;
    assert dst[|s| + 1..] == was[|s|..][1..];
    assert dst[..] == dst[..|s|] + [NUL] + dst[|s| + 1..];
  }

  /** `strcpy`, as seen by whoever reads the text. */
  method CopyText(dst: array<char>, s: string)
    requires NUL !in s && |s| < dst.Length
    modifies dst
    ensures Text(dst[..]) == s
  {
    StrCpy(dst, s);
    TextOf(s, old(dst[..])[|s| + 1..]);
  }
}
