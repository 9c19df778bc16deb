/** The mock AEAD provider: a keystream of key ^ nonce and a 16-byte tag of XORed columns. */
module MockAead {
  import opened Bytes

  const KEY_LEN := 16
  const NONCE_LEN := 16
  const TAG_LEN := 16

  type Block = b: seq<byte> | |b| == 16 witness seq(16, _ => 0)

  function Xor(a: byte, b: byte): byte { a ^ b }

  /** The XOR of the bytes of `s` at positions congruent to `j` modulo 16. */
  function Column(s: seq<byte>, j: nat): byte {
    if s == [] then 0
    else Xor(Column(s[..|s| - 1], j), if (|s| - 1) % TAG_LEN == j then s[|s| - 1] else 0)
  }

  function TagByte(c: seq<byte>, ad: seq<byte>, nonce: Block, key: Block, j: nat): byte
    requires j < TAG_LEN
  {
    Xor(Xor(Xor(key[j], nonce[j]), Column(c, j)), Column(ad, j))
  }

  function Tag(c: seq<byte>, ad: seq<byte>, nonce: Block, key: Block): (t: Block)
    ensures forall j :: 0 <= j < TAG_LEN ==> t[j] == TagByte(c, ad, nonce, key, j)
  {
    seq(TAG_LEN, j requires 0 <= j < TAG_LEN => TagByte(c, ad, nonce, key, j))
  }

  /** Encryption and decryption of the body are the same XOR with key and nonce. */
  function Mask(m: seq<byte>, nonce: Block, key: Block): (c: seq<byte>)
    ensures |c| == |m|
  {
    seq(|m|, i requires 0 <= i < |m| => Xor(Xor(m[i], key[i % KEY_LEN]), nonce[i % NONCE_LEN]))
  }

  function Encrypt(m: seq<byte>, ad: seq<byte>, nonce: Block, key: Block): seq<byte> {
    Mask(m, nonce, key) + Tag(Mask(m, nonce, key), ad, nonce, key)
  }

  /** A ciphertext of at least 16 bytes is its body followed by its tag. */
  function Body(c: seq<byte>): seq<byte>
    requires |c| >= TAG_LEN
  {
    c[..|c| - TAG_LEN]
  }

  function TagPart(c: seq<byte>): (t: Block)
    requires |c| >= TAG_LEN
  {
    c[|c| - TAG_LEN..]
  }

  datatype Opened = Plain(m: seq<byte>) | Rejected

  function Decrypt(c: seq<byte>, ad: seq<byte>, nonce: Block, key: Block): Opened {
    if |c| < TAG_LEN then Rejected
    else if Tag(Body(c), ad, nonce, key) != TagPart(c) then Rejected
    else Plain(Mask(Body(c), nonce, key))
  }

  // ---- the functions as they run ----

  lemma ColumnSnoc(s: seq<byte>, i: nat, j: nat)
    requires i < |s|
    ensures Column(s[..i + 1], j) == Xor(Column(s[..i], j), if i % TAG_LEN == j then s[i] else 0)
  {
    assert s[..i + 1][..i] == s[..i];
  }

  lemma XorLaws(a: byte, b: byte, c: byte)
    ensures Xor(Xor(a, b), c) == Xor(a, Xor(b, c))
    ensures Xor(a, b) == Xor(b, a)
    ensures Xor(a, 0) == a && Xor(a, a) == 0
  {
  }

  /** The two data loops of the tag: `s` is XORed into the accumulator, column by column. */
  method Absorb(acc: array<byte>, s: seq<byte>)
    requires acc.Length == TAG_LEN
    modifies acc
    ensures forall j :: 0 <= j < TAG_LEN ==> acc[j] == Xor(old(acc[j]), Column(s, j))
  {
    ghost var was := acc[..];
    assert s[..0] == [];
    forall j | 0 <= j < TAG_LEN
      ensures acc[j] == Xor(was[j], Column(s[..0], j))
    {
      XorLaws(was[j], 0, 0);
    }
    hide Column;
    for i := 0 to |s|
      invariant forall j :: 0 <= j < TAG_LEN ==> acc[j] == Xor(was[j], Column(s[..i], j))
    {
      acc[i % TAG_LEN] := acc[i % TAG_LEN] ^ s[i];
      hide Xor;
      forall j | 0 <= j < TAG_LEN
        ensures acc[j] == Xor(was[j], Column(s[..i + 1], j))
      {
        ColumnSnoc(s, i, j);
        XorLaws(was[j], Column(s[..i], j), s[i]);
        XorLaws(Column(s[..i], j), 0, 0);
      }
    }
    assert s[..|s|] == s;
  }

  method FakeTag(c: seq<byte>, ad: seq<byte>, nonce: Block, key: Block) returns (tag: seq<byte>)
    ensures tag == Tag(c, ad, nonce, key)
  {
    var acc := new byte[TAG_LEN];
    for i := 0 to TAG_LEN
      invariant forall j :: 0 <= j < i ==> acc[j] == Xor(key[j], nonce[j])
    {
      acc[i] := key[i % KEY_LEN] ^ nonce[i % NONCE_LEN];
    }
    hide Column, Xor;
    Absorb(acc, c);
    Absorb(acc, ad);
    tag := acc[..];
    assert forall j :: 0 <= j < TAG_LEN ==> tag[j] == TagByte(c, ad, nonce, key, j);
  }

  /** A caller's `size_t` variable. */
  class Length {
    var n: nat
    constructor (n: nat)
      ensures this.n == n
    {
      this.n := n;
    }
  }

  /** `c` has room for the message and the tag; what lies beyond them is left alone. */
  method AeadEncrypt(c: array<byte>, clen: Length?, m: seq<byte>, ad: seq<byte>, nonce: Block, key: Block)
    returns (res: int)
    requires |m| + TAG_LEN <= c.Length
    modifies c, clen
    ensures res == 0
    ensures c[..] == Encrypt(m, ad, nonce, key) + old(c[|m| + TAG_LEN..])
    ensures clen != null ==> clen.n == |m| + TAG_LEN
  {
    ghost var was, body := c[..], Mask(m, nonce, key);
    for i := 0 to |m|
      invariant forall k :: 0 <= k < i ==> c[k] == body[k]
      invariant forall k :: i <= k < c.Length ==> c[k] == was[k]
    {
      c[i] := m[i] ^ key[i % KEY_LEN] ^ nonce[i % NONCE_LEN];
    }
    assert c[..|m|] == body;
    var tag := FakeTag(c[..|m|], ad, nonce, key);
    hide Tag, Mask;
    for i := 0 to TAG_LEN
      invariant forall k :: 0 <= k < |m| ==> c[k] == body[k]
      invariant forall k :: |m| <= k < |m| + i ==> c[k] == tag[k - |m|]
      invariant forall k :: |m| + i <= k < c.Length ==> c[k] == was[k]
    {
      c[|m| + i] := tag[i];
    }
    assert c[..] == body + tag + was[|m| + TAG_LEN..];
    if clen != null {
      clen.n := |m| + TAG_LEN;
    }
    res := 0;
  }

  /** Writes the plaintext only when the tag is right: on failure neither `m` nor `*mlen` changes. */
  method AeadDecrypt(m: array<byte>, mlen: Length?, c: seq<byte>, ad: seq<byte>, nonce: Block, key: Block)
    returns (res: int)
    requires Decrypt(c, ad, nonce, key).Plain? ==> |c| <= m.Length + TAG_LEN
    modifies m, mlen
    ensures res == 0 || res == -1
    ensures res == 0 <==> Decrypt(c, ad, nonce, key).Plain?
    ensures res == 0 ==> m[..] == Decrypt(c, ad, nonce, key).m + old(m[|c| - TAG_LEN..])
    ensures res == 0 && mlen != null ==> mlen.n == |c| - TAG_LEN
    ensures res != 0 ==> m[..] == old(m[..]) && (mlen != null ==> mlen.n == old(mlen.n))
  {
    if |c| < TAG_LEN {
      return -1;
    }
    var n := |c| - TAG_LEN;
    var tag := FakeTag(c[..n], ad, nonce, key);
    if tag != c[n..] {
      return -1;
    }
    for i := 0 to n
      invariant m[..i] == Mask(c[..n], nonce, key)[..i]
      invariant m[i..] == old(m[i..])
    {
      m[i] := c[i] ^ key[i % KEY_LEN] ^ nonce[i % NONCE_LEN];
    }
    assert m[..] == m[..n] + m[n..];
    if mlen != null {
      mlen.n := n;
    }
    res := 0;
  }

  // ---- properties ----

  lemma MaskTwice(m: seq<byte>, nonce: Block, key: Block)
    ensures Mask(Mask(m, nonce, key), nonce, key) == m
  {
    hide Xor;
    var c := Mask(m, nonce, key);
    forall i | 0 <= i < |m|
      ensures Mask(c, nonce, key)[i] == m[i]
    {
      XorTwice(m[i], key[i % KEY_LEN], nonce[i % NONCE_LEN]);
    }
  }

  lemma XorTwice(a: byte, k: byte, n: byte)
    ensures Xor(Xor(Xor(Xor(a, k), n), k), n) == a
  {
  }

  /** Decrypting what was encrypted gives the message back, for every message, AAD, nonce and key. */
  lemma DecryptEncrypt(m: seq<byte>, ad: seq<byte>, nonce: Block, key: Block)
    ensures |Encrypt(m, ad, nonce, key)| == |m| + TAG_LEN
    ensures Decrypt(Encrypt(m, ad, nonce, key), ad, nonce, key) == Plain(m)
  {
    var c := Encrypt(m, ad, nonce, key);
    assert c[..|c| - TAG_LEN] == Mask(m, nonce, key);
    assert c[|c| - TAG_LEN..] == Tag(Mask(m, nonce, key), ad, nonce, key);
    MaskTwice(m, nonce, key);
  }

  /** Only what encryption produces is accepted: an accepted ciphertext is the encryption of its plaintext. */
  lemma AcceptedIsEncrypted(c: seq<byte>, ad: seq<byte>, nonce: Block, key: Block)
    requires Decrypt(c, ad, nonce, key).Plain?
    ensures Encrypt(Decrypt(c, ad, nonce, key).m, ad, nonce, key) == c
  {
    MaskTwice(c[..|c| - TAG_LEN], nonce, key);
    assert c == c[..|c| - TAG_LEN] + c[|c| - TAG_LEN..];
  }

  /** Exactly when decryption succeeds: every tag column is the key and nonce byte XORed with the XOR of all body
      and AAD bytes of that column. */
  lemma AcceptedIffColumns(c: seq<byte>, ad: seq<byte>, nonce: Block, key: Block)
    requires |c| >= TAG_LEN
    ensures Decrypt(c, ad, nonce, key).Plain? <==>
      forall j :: 0 <= j < TAG_LEN ==>
        TagPart(c)[j] == key[j] ^ nonce[j] ^ Column(Body(c), j) ^ Column(ad, j)
  {
    AcceptedIffTagBytes(c, ad, nonce, key);
    hide Column, Decrypt;
    forall j | 0 <= j < TAG_LEN
      ensures TagByte(Body(c), ad, nonce, key, j) == key[j] ^ nonce[j] ^ Column(Body(c), j) ^ Column(ad, j)
    {
    }
  }

  /** The columns themselves: the XOR of the bytes at positions congruent modulo 16, one byte after the other. */
  lemma ColumnOfAppend(s: seq<byte>, b: byte, j: nat)
    ensures Column([], j) == 0
    ensures Column(s + [b], j) == Column(s, j) ^ if |s| % 16 == j then b else 0
  {
    assert (s + [b])[..|s|] == s;
  }

  // ---- the body: a keystream of key and nonce ----

  /** The difference of any two ciphertexts, byte by byte: that of the messages, the keys and the nonces. */
  lemma CiphertextDifference(m: seq<byte>, ad: seq<byte>, nonce: Block, key: Block, m': seq<byte>, ad': seq<byte>,
                             nonce': Block, key': Block, i: nat)
    requires i < |m| && i < |m'|
    ensures Encrypt(m, ad, nonce, key)[i] ^ Encrypt(m', ad', nonce', key')[i]
      == (m[i] ^ m'[i]) ^ (key[i % 16] ^ key'[i % 16]) ^ (nonce[i % 16] ^ nonce'[i % 16])
  {
    hide *;
    BodyByte(m, ad, nonce, key, i);
    BodyByte(m', ad', nonce', key', i);
    Differences(m[i], key[i % 16], nonce[i % 16], m'[i], key'[i % 16], nonce'[i % 16]);
  }

  lemma BodyByte(m: seq<byte>, ad: seq<byte>, nonce: Block, key: Block, i: nat)
    requires i < |m|
    ensures i < |Encrypt(m, ad, nonce, key)| && Encrypt(m, ad, nonce, key)[i] == m[i] ^ key[i % 16] ^ nonce[i % 16]
  {
    hide Tag;
  }

  lemma Differences(a: byte, k: byte, n: byte, a': byte, k': byte, n': byte)
    ensures (a ^ k ^ n) ^ (a' ^ k' ^ n') == (a ^ a') ^ (k ^ k') ^ (n ^ n')
  {
  }

  /** And the origin: zeros under a zero key and nonce stay zeros. */
  lemma ZerosStayZeros(n: nat, ad: seq<byte>)
    ensures var zeros: Block := seq(16, _ => 0);
      Encrypt(seq(n, _ => 0), ad, zeros, zeros)[..n] == seq(n, _ => 0)
  {
    var m: seq<byte> := seq(n, _ => 0);
    var zeros: Block := seq(16, _ => 0);
    forall i | 0 <= i < n
      ensures Encrypt(m, ad, zeros, zeros)[i] == 0
    {
      BodyByte(m, ad, zeros, zeros, i);
    }
    hide Encrypt;
    DecryptEncrypt(m, ad, zeros, zeros);
  }

  /** Every byte of the ciphertext tells its byte of the key apart from every other. */
  lemma KeyReachesEveryByte(m: seq<byte>, ad: seq<byte>, nonce: Block, key: Block, other: Block, i: nat)
    requires i < |m|
    ensures Encrypt(m, ad, nonce, key)[i] == Encrypt(m, ad, nonce, other)[i] <==> key[i % 16] == other[i % 16]
  {
    hide *;
    MaskedByte(m, ad, nonce, key, i);
    MaskedByte(m, ad, nonce, other, i);
    OneKeyByte(m[i], nonce[i % 16], key[i % 16], other[i % 16]);
  }

  lemma MaskedByte(m: seq<byte>, ad: seq<byte>, nonce: Block, key: Block, i: nat)
    requires i < |m|
    ensures i < |Encrypt(m, ad, nonce, key)|
    ensures Encrypt(m, ad, nonce, key)[i] == Xor(Xor(m[i], key[i % 16]), nonce[i % 16])
  {
    hide Tag, Xor;
  }

  lemma OneKeyByte(a: byte, n: byte, k: byte, o: byte)
    ensures Xor(Xor(a, k), n) == Xor(Xor(a, o), n) <==> k == o
  {
  }

  lemma AcceptedIffTagBytes(c: seq<byte>, ad: seq<byte>, nonce: Block, key: Block)
    requires |c| >= TAG_LEN
    ensures Decrypt(c, ad, nonce, key).Plain? <==>
      forall j :: 0 <= j < TAG_LEN ==> TagPart(c)[j] == TagByte(Body(c), ad, nonce, key, j)
  {
    hide TagByte, Mask;
    var t := Tag(Body(c), ad, nonce, key);
    if forall j :: 0 <= j < TAG_LEN ==> TagPart(c)[j] == TagByte(Body(c), ad, nonce, key, j) {
      assert t == TagPart(c);
    }
  }

  lemma Interchange(a: byte, b: byte, c: byte, d: byte)
    ensures Xor(Xor(a, b), Xor(c, d)) == Xor(Xor(a, c), Xor(b, d))
    ensures Xor(a, 0) == a && Xor(b, 0) == b && Xor(Xor(a, b), 0) == Xor(a, b)
  {
  }

  /** The bytewise difference of two strings of one length. */
  function Difference(a: seq<byte>, b: seq<byte>): (d: seq<byte>)
    requires |a| == |b|
    ensures |d| == |a|
  {
    seq(|a|, i requires 0 <= i < |a| => Xor(a[i], b[i]))
  }

  lemma {:induction false} ColumnOfDifference(a: seq<byte>, b: seq<byte>, j: nat)
    requires |a| == |b|
    ensures Column(Difference(a, b), j) == Xor(Column(a, j), Column(b, j))
  {
    hide Xor;
    if a == [] {
      XorLaws(0, 0, 0);
    } else {
      var n := |a| - 1;
      ColumnOfDifference(a[..n], b[..n], j);
      Interchange(Column(a[..n], j), Column(b[..n], j), a[n], b[n]);
      assert Difference(a, b)[..n] == Difference(a[..n], b[..n]);
    }
  }

  /** The change in column `j`: it goes unnoticed there when it is nothing. */
  function ColumnChange(c: seq<byte>, ad: seq<byte>, c': seq<byte>, ad': seq<byte>, j: nat): byte
    requires |c'| == |c| >= TAG_LEN && |ad'| == |ad| && j < TAG_LEN
  {
    var body, aad := Column(Difference(Body(c), Body(c')), j), Column(Difference(ad, ad'), j);
    Xor(Xor(Xor(TagPart(c)[j], TagPart(c')[j]), body), aad)
  }

  lemma ColumnVerdict(c: seq<byte>, ad: seq<byte>, c': seq<byte>, ad': seq<byte>, nonce: Block, key: Block, j: nat)
    requires |c'| == |c| >= TAG_LEN && |ad'| == |ad| && j < TAG_LEN
    requires TagPart(c)[j] == TagByte(Body(c), ad, nonce, key, j)
    ensures TagPart(c')[j] == TagByte(Body(c'), ad', nonce, key, j) <==> ColumnChange(c, ad, c', ad', j) == 0
  {
    ColumnOfDifference(Body(c), Body(c'), j);
    ColumnOfDifference(ad, ad', j);
    hide Column, Difference, Body, TagPart, Xor;
    Cancel(TagPart(c)[j], TagPart(c')[j], Xor(key[j], nonce[j]), Column(Body(c), j), Column(Body(c'), j),
           Column(ad, j), Column(ad', j));
  }

  /** Exactly which changes an accepted ciphertext survives, lengths kept: in every column the changes of body,
      tag and AAD together must cancel out. */
  lemma UndetectedIffCancelling(c: seq<byte>, ad: seq<byte>, c': seq<byte>, ad': seq<byte>, nonce: Block, key: Block)
    requires Decrypt(c, ad, nonce, key).Plain? && |c'| == |c| && |ad'| == |ad|
    ensures Decrypt(c', ad', nonce, key).Plain? <==>
      forall j :: 0 <= j < TAG_LEN ==> ColumnChange(c, ad, c', ad', j) == 0
  {
    AcceptedIffTagBytes(c, ad, nonce, key);
    AcceptedIffTagBytes(c', ad', nonce, key);
    hide TagByte, ColumnChange, Decrypt, Xor;
    forall j | 0 <= j < TAG_LEN
      ensures TagPart(c')[j] == TagByte(Body(c'), ad', nonce, key, j) <==> ColumnChange(c, ad, c', ad', j) == 0
    {
      ColumnVerdict(c, ad, c', ad', nonce, key, j);
    }
  }

  lemma Cancel(t: byte, t': byte, k: byte, x: byte, x': byte, y: byte, y': byte)
    requires t == Xor(Xor(k, x), y)
    ensures t' == Xor(Xor(k, x'), y') <==> Xor(Xor(Xor(t, t'), Xor(x, x')), Xor(y, y')) == 0
  {
    hide Xor;
    Interchange(t, t', x, x');
    Interchange(Xor(t, x), Xor(t', x'), y, y');
    XorTwice(k, x, y);
    XorTwice(k, x', y');
    XorTwice(t', x', y');
    SameIffZero(k, Xor(Xor(t', x'), y'));
  }

  lemma SameIffZero(a: byte, b: byte)
    ensures Xor(a, b) == 0 <==> a == b
  {
  }

  lemma {:induction false} ColumnOfOneChange(a: seq<byte>, i: nat, x: byte, j: nat)
    requires i < |a| && j < TAG_LEN
    ensures Column(Difference(a, a[i := x]), j) == if i % TAG_LEN == j then Xor(a[i], x) else 0
  {
    hide Xor;
    var n := |a| - 1;
    var d := Difference(a, a[i := x]);
    XorLaws(a[n], 0, 0);
    XorLaws(0, Xor(a[n], x), 0);
    XorLaws(Xor(a[n], x), 0, 0);
    XorLaws(0, 0, 0);
    XorLaws(Column(d[..n], j), 0, 0);
    if i == n {
      assert d[..n] == Difference(a[..n], a[..n]);
      NoChange(a[..n], j);
    } else {
      ColumnOfOneChange(a[..n], i, x, j);
      assert a[i := x][..n] == a[..n][i := x];
      assert d[..n] == Difference(a[..n], a[..n][i := x]);
    }
  }

  lemma {:induction false} NoChange(a: seq<byte>, j: nat)
    ensures Column(Difference(a, a), j) == 0
  {
    ColumnOfDifference(a, a, j);
    XorLaws(Column(a, j), 0, 0);
  }

  /** Changing exactly one byte of body, tag or AAD is always detected. */
  lemma OneByteOfCiphertext(c: seq<byte>, ad: seq<byte>, i: nat, x: byte, nonce: Block, key: Block)
    requires Decrypt(c, ad, nonce, key).Plain? && i < |c| && x != c[i]
    ensures Decrypt(c[i := x], ad, nonce, key) == Rejected
  {
    var c' := c[i := x];
    UndetectedIffCancelling(c, ad, c', ad, nonce, key);
    var n := |c| - TAG_LEN;
    hide Decrypt, Column, Xor;
    var j := if i < n then i % TAG_LEN else i - n;
    NoChange(ad, j);
    if i < n {
      assert Body(c') == Body(c)[i := x] && TagPart(c') == TagPart(c);
      ColumnOfOneChange(Body(c), i, x, j);
      OneTerm(TagPart(c)[j], c[i], x);
    } else {
      assert Body(c') == Body(c) && TagPart(c')[j] == x && TagPart(c)[j] == c[i];
      NoChange(Body(c), j);
      OneTerm(0, c[i], x);
    }
    assert ColumnChange(c, ad, c', ad, j) != 0;
  }

  lemma OneByteOfAad(c: seq<byte>, ad: seq<byte>, i: nat, x: byte, nonce: Block, key: Block)
    requires Decrypt(c, ad, nonce, key).Plain? && i < |ad| && x != ad[i]
    ensures Decrypt(c, ad[i := x], nonce, key) == Rejected
  {
    UndetectedIffCancelling(c, ad, c, ad[i := x], nonce, key);
    var j := i % TAG_LEN;
    NoChange(Body(c), j);
    ColumnOfOneChange(ad, i, x, j);
    OneTerm(TagPart(c)[j], ad[i], x);
    hide Difference, Body, TagPart;
    assert ColumnChange(c, ad, c, ad[i := x], j) != 0;
  }

  lemma OneTerm(t: byte, a: byte, b: byte)
    requires a != b
    ensures Xor(Xor(Xor(t, t), Xor(a, b)), 0) != 0
    ensures Xor(Xor(Xor(t, t), 0), Xor(a, b)) != 0
    ensures Xor(Xor(Xor(a, b), 0), 0) != 0
  {
  }
}
