/**
 The CBC mode (section 6.2 of NIST SP 800-38A) over any block cipher e with
 inverse d: what a call makes of a buffer, that decrypting undoes encrypting,
 and that the vector left in the context joins one call to the next.  A tail
 shorter than a block is untouched.
 */
module AesChain {
  import opened AesField
  import opened AesCipher

  function Xor(a: Bytes, b: Bytes): (r: Bytes)
    requires |a| == |b|
    ensures |r| == |a|
  {
    seq(|a|, k requires 0 <= k < |a| => Add(a[k], b[k]))
  }

  lemma XorTwice(a: Bytes, b: Bytes)
    requires |a| == |b|
    ensures Xor(Xor(a, b), b) == a
  {
    forall k | 0 <= k < |a| ensures Xor(Xor(a, b), b)[k] == a[k] {
      AddTwice(a[k], b[k]);
    }
  }

  ghost predicate IsCipher(e: Bytes -> Bytes) {
    forall s {:trigger e(s)} :: IsBlock(s) ==> IsBlock(e(s))
  }

  ghost predicate Undoes(d: Bytes -> Bytes, e: Bytes -> Bytes) {
    forall s :: IsBlock(s) ==> d(e(s)) == s
  }

  ghost function Chained(iv: Bytes, s: Bytes, e: Bytes -> Bytes): (r: Bytes)
    requires IsBlock(iv) && IsCipher(e)
    ensures |r| == |s|
    decreases |s|
  {
    if |s| < 16 then s
    else
      var c := e(Xor(s[..16], iv));
      c + Chained(c, s[16..], e)
  }

  ghost function Unchained(iv: Bytes, s: Bytes, d: Bytes -> Bytes): (r: Bytes)
    requires IsBlock(iv) && IsCipher(d)
    ensures |r| == |s|
    decreases |s|
  {
    if |s| < 16 then s
    else Xor(d(s[..16]), iv) + Unchained(s[..16], s[16..], d)
  }

  /** Decrypting a buffer gives back what was encrypted. */
  lemma {:induction false} UnchainedChained(iv: Bytes, s: Bytes, e: Bytes -> Bytes, d: Bytes -> Bytes)
    requires IsBlock(iv) && IsCipher(e) && IsCipher(d) && Undoes(d, e)
    ensures Unchained(iv, Chained(iv, s, e), d) == s
    decreases |s|
  {
    if |s| >= 16 {
      var x := Xor(s[..16], iv);
      var c := e(x);
      var rest := Chained(c, s[16..], e);
      assert (c + rest)[..16] == c && (c + rest)[16..] == rest;
      assert d(c) == x;
      XorTwice(s[..16], iv);
      UnchainedChained(c, s[16..], e, d);
      assert s == s[..16] + s[16..];
    }
  }

  /** Block j of a buffer. */
  function Block(s: Bytes, j: nat): (r: Bytes)
    requires 16 * j + 16 <= |s|
    ensures IsBlock(r)
  {
    s[16 * j..16 * j + 16]
  }

  /** The block before block j, or the initialization vector. */
  function Before(iv: Bytes, s: Bytes, j: nat): (r: Bytes)
    requires IsBlock(iv) && 16 * j <= |s|
    ensures IsBlock(r)
  {
    if j == 0 then iv else Block(s, j - 1)
  }

  lemma BlockOfRest(s: Bytes, j: nat)
    requires 1 <= j && 16 * j + 16 <= |s|
    ensures Block(s, j) == Block(s[16..], j - 1)
  {
  }

  lemma BeforeInRest(iv: Bytes, s: Bytes, j: nat)
    requires IsBlock(iv) && 1 <= j && 16 * j <= |s|
    ensures Before(iv, s, j) == Before(s[..16], s[16..], j - 1)
  {
    if j > 1 {
      BlockOfRest(s, j - 1);
    }
  }

  /** C(j) is the encryption of P(j) plus C(j-1), and C(-1) is the vector. */
  lemma {:induction false} ChainedBlock(iv: Bytes, s: Bytes, e: Bytes -> Bytes, j: nat)
    requires IsBlock(iv) && IsCipher(e) && 16 * j + 16 <= |s|
    ensures Block(Chained(iv, s, e), j) == e(Xor(Block(s, j), Before(iv, Chained(iv, s, e), j)))
    decreases j
  {
    var c := e(Xor(s[..16], iv));
    var r := Chained(iv, s, e);
    assert r == c + Chained(c, s[16..], e);
    assert r[..16] == c && r[16..] == Chained(c, s[16..], e);
    if j == 0 {
      assert Block(s, 0) == s[..16] && Block(r, 0) == r[..16];
    } else {
      ChainedBlock(c, s[16..], e, j - 1);
      BlockOfRest(s, j);
      BlockOfRest(r, j);
      BeforeInRest(iv, r, j);
    }
  }

  /** P(j) is the decryption of C(j), plus C(j-1). */
  lemma {:induction false} UnchainedBlock(iv: Bytes, s: Bytes, d: Bytes -> Bytes, j: nat)
    requires IsBlock(iv) && IsCipher(d) && 16 * j + 16 <= |s|
    ensures Block(Unchained(iv, s, d), j) == Xor(d(Block(s, j)), Before(iv, s, j))
    decreases j
  {
    var c := Xor(d(s[..16]), iv);
    var r := Unchained(iv, s, d);
    assert r == c + Unchained(s[..16], s[16..], d);
    assert r[..16] == c && r[16..] == Unchained(s[..16], s[16..], d);
    if j == 0 {
      assert Block(s, 0) == s[..16] && Block(r, 0) == r[..16];
    } else {
      UnchainedBlock(s[..16], s[16..], d, j - 1);
      BlockOfRest(s, j);
      BlockOfRest(r, j);
      BeforeInRest(iv, s, j);
    }
  }

  /** Two calls on whole blocks are one call on both: the context carries the last block over. */
  lemma {:induction false} TwoCalls(iv: Bytes, a: Bytes, b: Bytes, e: Bytes -> Bytes)
    requires IsBlock(iv) && IsCipher(e) && |a| % 16 == 0
    ensures var c := Chained(iv, a, e);
            Chained(iv, a + b, e) == c + Chained(Before(iv, c, |a| / 16), b, e)
    decreases |a|
  {
    if |a| == 0 {
      assert a + b == b;
    } else {
      var c := e(Xor(a[..16], iv));
      ChainedOn(iv, a, b, e);
      TwoCalls(c, a[16..], b, e);
      OneBlockOn(iv, c, Chained(c, a[16..], e), |a| / 16, b, e);
    }
  }

  lemma {:induction false} ChainedOn(iv: Bytes, a: Bytes, b: Bytes, e: Bytes -> Bytes)
    requires IsBlock(iv) && IsCipher(e) && |a| >= 16
    ensures var c := e(Xor(a[..16], iv));
      Chained(iv, a, e) == c + Chained(c, a[16..], e) && Chained(iv, a + b, e) == c + Chained(c, a[16..] + b, e)
  {
    assert (a + b)[..16] == a[..16] && (a + b)[16..] == a[16..] + b;
  }

  lemma {:induction false} OneBlockOn(iv: Bytes, c: Bytes, d: Bytes, n: nat, b: Bytes, e: Bytes -> Bytes)
    requires IsBlock(iv) && IsBlock(c) && IsCipher(e) && n > 0 && 16 * n == 16 + |d|
    ensures c + (d + Chained(Before(c, d, n - 1), b, e)) == (c + d) + Chained(Before(iv, c + d, n), b, e)
  {
    assert (c + d)[..16] == c && (c + d)[16..] == d;
    BeforeInRest(iv, c + d, n);
  }
}
