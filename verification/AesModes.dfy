/**
 The buffer functions of the AES context, in place: CBC over the blocks that
 cover `length` bytes and CTR over exactly `length` bytes, each leaving in the
 context the vector that the next call starts from.
 */
module AesModes {
  import opened AesField
  import opened AesCipher
  import opened AesChain
  import opened AesCounter
  import opened AesSteps

  function CipherOf(rk: Bytes): Bytes -> Bytes
    requires IsSchedule(rk)
  {
    s => if IsBlock(s) then Encrypted(s, rk) else s
  }

  function InverseOf(rk: Bytes): Bytes -> Bytes
    requires IsSchedule(rk)
  {
    s => if IsBlock(s) then Decrypted(s, rk) else s
  }

  lemma CipherPair(rk: Bytes)
    requires IsSchedule(rk)
    ensures IsCipher(CipherOf(rk)) && IsCipher(InverseOf(rk)) && Undoes(InverseOf(rk), CipherOf(rk))
  {
    forall s | IsBlock(s) ensures InverseOf(rk)(CipherOf(rk)(s)) == s {
      DecryptedEncrypted(s, rk);
    }
  }

  /** On blocks, e is the cipher and d its inverse, under the schedule rk. */
  ghost predicate Agrees(e: Bytes -> Bytes, rk: Bytes)
    requires IsSchedule(rk)
  {
    forall s {:trigger Encrypted(s, rk)} :: IsBlock(s) ==> e(s) == Encrypted(s, rk)
  }

  ghost predicate AgreesInverse(d: Bytes -> Bytes, rk: Bytes)
    requires IsSchedule(rk)
  {
    forall s {:trigger Decrypted(s, rk)} :: IsBlock(s) ==> d(s) == Decrypted(s, rk)
  }

  /** e and d are the cipher and the inverse cipher under the schedule rk. */
  ghost predicate CiphersOf(e: Bytes -> Bytes, d: Bytes -> Bytes, rk: Bytes) {
    && IsSchedule(rk) && IsCipher(e) && IsCipher(d)
    && Undoes(d, e) && Agrees(e, rk) && AgreesInverse(d, rk)
  }

  lemma EverySchedule(rk: Bytes) returns (e: Bytes -> Bytes, d: Bytes -> Bytes)
    requires IsSchedule(rk)
    ensures CiphersOf(e, d, rk)
  {
    e, d := CipherOf(rk), InverseOf(rk);
    CipherPair(rk);
    forall s | IsBlock(s) ensures e(s) == Encrypted(s, rk) && d(s) == Decrypted(s, rk) {
    }
  }

  lemma SameCiphers(e: Bytes -> Bytes, d: Bytes -> Bytes, f: Bytes -> Bytes, g: Bytes -> Bytes, rk: Bytes)
    requires CiphersOf(e, d, rk) && CiphersOf(f, g, rk)
    ensures Undoes(g, e)
    ensures forall s {:trigger e(s)} :: IsBlock(s) ==> e(s) == f(s)
  {
    forall s | IsBlock(s) ensures e(s) == f(s) && g(e(s)) == s {
      var c := Encrypted(s, rk);
      assert e(s) == c && f(s) == c;
    }
  }

  /** What one context has encrypted in CBC mode, another with the same schedule and vector decrypts. */
  lemma {:induction false} CbcBetween(e: Bytes -> Bytes, d: Bytes -> Bytes, f: Bytes -> Bytes, g: Bytes -> Bytes, rk: Bytes,
                   iv: Bytes, s: Bytes)
    requires CiphersOf(e, d, rk) && CiphersOf(f, g, rk) && IsBlock(iv)
    ensures Unchained(iv, Chained(iv, s, e), g) == s
  {
    SameCiphers(e, d, f, g, rk);
    UnchainedChained(iv, s, e, g);
  }

  lemma MaskedSame(iv: Bytes, s: Bytes, e: Bytes -> Bytes, f: Bytes -> Bytes)
    requires IsBlock(iv) && IsCipher(e) && IsCipher(f)
    requires forall s {:trigger e(s)} :: IsBlock(s) ==> e(s) == f(s)
    ensures Masked(iv, s, e) == Masked(iv, s, f)
  {
    forall k | 0 <= k < |s| ensures Mask(iv, e, k) == Mask(iv, f, k) {
      var c := Counter(iv, k / 16);
      assert e(c) == f(c);
    }
  }

  /** The same in CTR mode, for every length. */
  lemma CtrBetween(e: Bytes -> Bytes, d: Bytes -> Bytes, f: Bytes -> Bytes, g: Bytes -> Bytes, rk: Bytes,
                   iv: Bytes, s: Bytes)
    requires CiphersOf(e, d, rk) && CiphersOf(f, g, rk) && IsBlock(iv)
    ensures Masked(iv, Masked(iv, s, e), f) == s
  {
    SameCiphers(e, d, f, g, rk);
    MaskedSame(iv, Masked(iv, s, e), e, f);
    MaskedTwice(iv, s, e);
  }

  /** The bytes of the blocks that cover n bytes. */
  function Whole(n: nat): nat { (n + 15) / 16 * 16 }

  lemma Covers(n: nat, j: nat)
    ensures 16 * j < n <==> 16 * j + 16 <= Whole(n)
    ensures n <= Whole(n) && Whole(n) / 16 * 16 == Whole(n)
    ensures n % 16 == 0 ==> Whole(n) == n
  {
  }

  // ---------------------------------------------------------------- steps of the loops

  method XorWithIv(b: array<bv8>, o: nat, v: array<bv8>, at: nat)
    requires HasBlock(b, o) && HasBlock(v, at) && (b == v ==> at + 16 <= o)
    modifies b
    ensures b[o..o + 16] == Xor(old(b[o..o + 16]), old(v[at..at + 16]))
    ensures Beside(b, o)
  {
    ghost var s, w := b[o..o + 16], v[at..at + 16];
    var i := 0;
    while i < 16
      invariant 0 <= i <= 16
      invariant forall p :: o <= p < o + i ==> b[p] == Add(s[p - o], w[p - o])
      invariant forall p :: o + i <= p < o + 16 ==> b[p] == s[p - o]
      invariant Beside(b, o)
      invariant v[at..at + 16] == w
    {
      assert v[at + i] == v[at..at + 16][i];
      b[o + i] := b[o + i] ^ v[at + i];
      i := i + 1;
    }
    forall k | 0 <= k < 16 ensures b[o..o + 16][k] == Xor(s, w)[k] {
      assert b[o + k] == Add(s[o + k - o], w[o + k - o]);
    }
  }

  /** memcpy of a block to the start of an array. */
  method CopyBlock(d: array<bv8>, v: array<bv8>, at: nat)
    requires d.Length == 16 && HasBlock(v, at) && (d == v ==> at == 0)
    modifies d
    ensures d[..] == old(v[at..at + 16])
  {
    ghost var w := v[at..at + 16];
    var i := 0;
    while i < 16
      invariant 0 <= i <= 16
      invariant forall p :: 0 <= p < i ==> d[p] == w[p]
      invariant v[at..at + 16] == w
    {
      assert v[at + i] == v[at..at + 16][i];
      d[i] := v[at + i];
      i := i + 1;
    }
  }

  method EncryptBlock(b: array<bv8>, o: nat, v: array<bv8>, at: nat, rk: array<bv8>, ghost e: Bytes -> Bytes)
    requires HasBlock(b, o) && HasBlock(v, at) && (b == v ==> at + 16 <= o)
    requires b != rk && rk.Length == KEYEXPSIZE && Agrees(e, rk[..])
    modifies b
    ensures b[o..o + 16] == e(Xor(old(b[o..o + 16]), old(v[at..at + 16])))
    ensures Beside(b, o)
  {
    XorWithIv(b, o, v, at);
    Cipher(b, o, rk);
  }

  method DecryptBlock(b: array<bv8>, o: nat, v: array<bv8>, rk: array<bv8>, ghost d: Bytes -> Bytes)
    requires HasBlock(b, o) && v.Length == 16 && b != v
    requires b != rk && rk.Length == KEYEXPSIZE && AgreesInverse(d, rk[..])
    modifies b
    ensures IsBlock(d(old(b[o..o + 16])))
    ensures b[o..o + 16] == Xor(d(old(b[o..o + 16])), v[..])
    ensures Beside(b, o)
  {
    InvCipher(b, o, rk);
    XorWithIv(b, o, v, 0);
    assert v[..] == v[0..0 + 16];
  }

  /** The bytes of b up to n are those of r, and from n those of s. */
  predicate Joined(b: Bytes, s: Bytes, r: Bytes, n: nat) {
    n <= |r| <= |b| == |s| && b[..n] == r[..n] && b[n..] == s[n..]
  }

  lemma JoinedNext(was: Bytes, b: Bytes, s: Bytes, r: Bytes, n: nat)
    requires Joined(was, s, r, n) && n + 16 <= |r| && |b| == |was|
    requires b[n..n + 16] == r[n..n + 16]
    requires forall p :: 0 <= p < |b| && !(n <= p < n + 16) ==> b[p] == was[p]
    ensures Joined(b, s, r, n + 16)
  {
    assert b[..n + 16] == r[..n + 16] by {
      forall p | 0 <= p < n + 16 ensures b[p] == r[p] {
        if p < n {
          assert was[p] == was[..n][p] == r[..n][p];
        } else {
          assert b[p] == b[n..n + 16][p - n] == r[n..n + 16][p - n];
        }
      }
    }
    forall p | n + 16 <= p < |b| ensures b[p] == s[p] {
      assert was[p] == was[n..][p - n] == s[n..][p - n];
    }
  }

  lemma JoinedBlock(b: Bytes, s: Bytes, r: Bytes, n: nat)
    requires Joined(b, s, r, n) && n + 16 <= |r|
    ensures b[n..n + 16] == s[n..n + 16]
  {
    assert b[n..n + 16] == b[n..][..16] && s[n..n + 16] == s[n..][..16];
  }

  lemma JoinedBefore(b: Bytes, s: Bytes, r: Bytes, n: nat)
    requires Joined(b, s, r, n) && n >= 16
    ensures b[n - 16..n] == r[n - 16..n]
  {
    assert b[n - 16..n] == b[..n][n - 16..] && r[n - 16..n] == r[..n][n - 16..];
  }

  lemma JoinedAll(b: Bytes, s: Bytes, r: Bytes)
    requires |r| <= |b| == |s|
    ensures Joined(b, s, r, |r|) <==> b[..|r|] == r && b[|r|..] == s[|r|..]
    ensures Joined(s, s, r, 0)
  {
    assert r[..|r|] == r;
  }

  // ---------------------------------------------------------------- the loops

  method EncryptNext(b: array<bv8>, i: nat, v: array<bv8>, at: nat, iv: array<bv8>, rk: array<bv8>,
                     ghost e: Bytes -> Bytes, ghost j: nat, ghost w: Bytes, ghost s: Bytes, ghost n: nat, ghost r: Bytes)
    requires b != iv && b != rk && rk.Length == KEYEXPSIZE && IsCipher(e) && Agrees(e, rk[..])
    requires i == 16 * j && i + 16 <= n <= |s| && IsBlock(w) && r == Chained(w, s[..n], e) && |r| == n
    requires Joined(b[..], s, r, i) && iv[..] == w
    requires if i == 0 then v == iv && at == 0 else v == b && at == i - 16
    modifies b
    ensures Joined(b[..], s, r, i + 16)
  {
    ghost var was := b[..];
    VectorAt(v, at, b, j, iv, w, s, r);
    EncryptBlock(b, i, v, at, rk, e);
    JoinedBlock(was, s, r, i);
    ChainedAt(w, s, n, e, j, r);
    JoinedNext(was, b[..], s, r, i);
  }

  /** The loop of AES_CBC_encrypt_buffer: the vector is read where the last block was written. */
  method CbcEncrypt(b: array<bv8>, length: nat, iv: array<bv8>, rk: array<bv8>, ghost e: Bytes -> Bytes)
    requires Whole(length) <= b.Length && iv.Length == 16 && rk.Length == KEYEXPSIZE
    requires b != iv && b != rk && iv != rk && IsCipher(e) && Agrees(e, rk[..])
    modifies b, iv
    ensures b[..Whole(length)] == Chained(old(iv[..]), old(b[..Whole(length)]), e)
    ensures b[Whole(length)..] == old(b[Whole(length)..])
    ensures iv[..] == Before(old(iv[..]), b[..Whole(length)], Whole(length) / 16)
  {
    ghost var n := Whole(length);
    ghost var w, s, keys := iv[..], b[..], rk[..];
    ghost var r := Chained(w, s[..n], e);
    JoinedAll(s, s, r);
    var i, v, at := 0, iv, 0;
    ghost var j := 0;
    while i < length
      invariant i == 16 * j <= n
      invariant Joined(b[..], s, r, i) && iv[..] == w && rk[..] == keys
      invariant if i == 0 then v == iv && at == 0 else v == b && at == i - 16
    {
      Covers(length, j);
      EncryptNext(b, i, v, at, iv, rk, e, j, w, s, n, r);
      v, at := b, i;
      i, j := i + 16, j + 1;
    }
    Covers(length, j);
    assert i == n && j == n / 16;
    JoinedAll(b[..], s, r);
    VectorAt(v, at, b, j, iv, w, s, r);
    CopyBlock(iv, v, at);
  }

  lemma BlockAt(s: Bytes, n: nat, j: nat)
    requires 16 * j + 16 <= n <= |s|
    ensures Block(s[..n], j) == s[16 * j..16 * j + 16]
  {
  }

  lemma {:induction false} ChainedAt(iv: Bytes, s: Bytes, n: nat, e: Bytes -> Bytes, j: nat, r: Bytes)
    requires IsBlock(iv) && IsCipher(e) && 16 * j + 16 <= n <= |s|
    requires r == Chained(iv, s[..n], e)
    ensures r[16 * j..16 * j + 16] == e(Xor(s[16 * j..16 * j + 16], Before(iv, r, j)))
  {
    ChainedBlock(iv, s[..n], e, j);
    BlockAt(s, n, j);
    assert Block(r, j) == r[16 * j..16 * j + 16];
  }

  /** The running pointer is at the block before block j. */
  lemma VectorAt(v: array<bv8>, at: nat, b: array<bv8>, j: nat, iv: array<bv8>, w: Bytes, s: Bytes, r: Bytes)
    requires iv[..] == w && IsBlock(w)
    requires Joined(b[..], s, r, 16 * j)
    requires if j == 0 then v == iv && at == 0 else v == b && at == 16 * j - 16
    ensures HasBlock(v, at) && v[at..at + 16] == Before(w, r, j)
  {
    if j > 0 {
      JoinedBefore(b[..], s, r, 16 * j);
      assert v[at..at + 16] == b[..][16 * j - 16..16 * j];
    }
  }

  method DecryptNext(b: array<bv8>, i: nat, next: array<bv8>, iv: array<bv8>, rk: array<bv8>,
                     ghost d: Bytes -> Bytes, ghost j: nat, ghost w: Bytes, ghost s: Bytes, ghost n: nat, ghost r: Bytes)
    requires b != iv && b != rk && iv != rk && next != b && next != iv && next != rk && next.Length == 16 && iv.Length == 16
    requires rk.Length == KEYEXPSIZE && IsCipher(d) && AgreesInverse(d, rk[..])
    requires i == 16 * j && i + 16 <= n <= |s| && IsBlock(w) && r == Unchained(w, s[..n], d) && |r| == n
    requires Joined(b[..], s, r, i) && iv[..] == Before(w, s[..n], j)
    modifies b, iv, next
    ensures Joined(b[..], s, r, i + 16) && iv[..] == Before(w, s[..n], j + 1)
  {
    ghost var was := b[..];
    JoinedBlock(was, s, r, i);
    CopyBlock(next, b, i);
    assert next[..] == s[i..i + 16];
    DecryptBlock(b, i, iv, rk, d);
    UnchainedAt(w, s, n, d, j, r);
    JoinedNext(was, b[..], s, r, i);
    CopyBlock(iv, next, 0);
    assert next[0..16] == next[..];
  }

  /** The loop of AES_CBC_decrypt_buffer: the block is saved before it is overwritten. */
  method CbcDecrypt(b: array<bv8>, length: nat, iv: array<bv8>, rk: array<bv8>, ghost d: Bytes -> Bytes)
    requires Whole(length) <= b.Length && iv.Length == 16 && rk.Length == KEYEXPSIZE
    requires b != iv && b != rk && iv != rk && IsCipher(d) && AgreesInverse(d, rk[..])
    modifies b, iv
    ensures b[..Whole(length)] == Unchained(old(iv[..]), old(b[..Whole(length)]), d)
    ensures b[Whole(length)..] == old(b[Whole(length)..])
    ensures iv[..] == Before(old(iv[..]), old(b[..Whole(length)]), Whole(length) / 16)
  {
    ghost var n := Whole(length);
    ghost var w, s, keys := iv[..], b[..], rk[..];
    ghost var r := Unchained(w, s[..n], d);
    JoinedAll(s, s, r);
    var storeNextIv := new bv8[16];
    var i := 0;
    ghost var j := 0;
    while i < length
      invariant i == 16 * j <= n
      invariant Joined(b[..], s, r, i) && rk[..] == keys
      invariant iv[..] == Before(w, s[..n], j)
    {
      Covers(length, j);
      DecryptNext(b, i, storeNextIv, iv, rk, d, j, w, s, n, r);
      i, j := i + 16, j + 1;
    }
    Covers(length, j);
    assert i == n && j == n / 16;
    JoinedAll(b[..], s, r);
  }

  lemma {:induction false} UnchainedAt(iv: Bytes, s: Bytes, n: nat, d: Bytes -> Bytes, j: nat, r: Bytes)
    requires IsBlock(iv) && IsCipher(d) && 16 * j + 16 <= n <= |s|
    requires r == Unchained(iv, s[..n], d)
    ensures r[16 * j..16 * j + 16] == Xor(d(s[16 * j..16 * j + 16]), Before(iv, s[..n], j))
    ensures Before(iv, s[..n], j + 1) == s[16 * j..16 * j + 16]
  {
    UnchainedBlock(iv, s[..n], d, j);
    BlockAt(s, n, j);
    assert Block(r, j) == r[16 * j..16 * j + 16];
  }

  // ---------------------------------------------------------------- the counter in place

  predicate All(v: Bytes, b: bv8) {
    forall k :: 0 <= k < |v| ==> v[k] == b
  }

  function Zeros(n: nat): (r: Bytes)
    ensures |r| == n
  {
    seq(n, _ => 0)
  }

  /** The carry passes through a tail of full bytes. */
  lemma {:induction false} Carry(v: Bytes, k: nat)
    requires k <= |v| && All(v[k..], 255)
    ensures Next(v) == Next(v[..k]) + Zeros(|v| - k)
    decreases |v|
  {
    if k == |v| {
      assert v[..k] == v;
    } else {
      var u := v[..|v| - 1];
      assert v[|v| - 1] == v[k..][|v| - 1 - k] == 255;
      assert u[k..] == v[k..][..|v| - 1 - k] && u[..k] == v[..k];
      Carry(u, k);
      assert Zeros(|u| - k) + [0] == Zeros(|v| - k);
    }
  }

  lemma {:induction false} NextLast(v: Bytes, b: bv8)
    requires b != 255
    ensures Next(v + [b]) == v + [b + 1]
  {
    assert (v + [b])[..|v|] == v;
  }

  lemma {:induction false} CarryStops(v: Bytes, k: nat, t: Bytes, b: bv8)
    requires k < |v| && All(v[k + 1..], 255) && v[..k + 1] == t + [b] && b != 255
    ensures Next(v) == t + [b + 1] + Zeros(|v| - k - 1)
  {
    Carry(v, k + 1);
    NextLast(t, b);
  }

  lemma AllFrom(v: Bytes, k: nat, b: bv8)
    requires k < |v| && v[k] == b && All(v[k + 1..], b)
    ensures All(v[k..], b)
  {
    assert v[k..] == [b] + v[k + 1..];
  }

  lemma {:induction false} CarryLost(v: Bytes)
    requires All(v, 255)
    ensures Next(v) == Zeros(|v|)
  {
    assert v[0..] == v;
    Carry(v, 0);
    assert v[..0] == [];
  }

  lemma Shorter(u: Bytes, v: Bytes, k: nat)
    requires k < |u| == |v| && u[..k + 1] == v[..k + 1]
    ensures u[k] == v[k] && u[..k] == v[..k] && v[..k + 1] == v[..k] + [v[k]]
  {
    assert u[k] == u[..k + 1][k];
    assert u[..k] == u[..k + 1][..k];
    assert v[..k] == v[..k + 1][..k];
  }

  /** The carry has passed through the bytes from k on: u is the vector so far, v the vector at the start. */
  predicate Carried(u: Bytes, v: Bytes, k: nat) {
    k <= |u| == |v| && u[..k] == v[..k] && All(v[k..], 255) && u[k..] == Zeros(|v| - k)
  }

  lemma CarryOn(u: Bytes, v: Bytes, k: nat)
    requires k < |u| && Carried(u, v, k + 1) && u[k] == 255
    ensures Carried(u[k := 0], v, k)
  {
    Shorter(u, v, k);
    AllFrom(v, k, 255);
    assert u[k := 0][k..] == [0] + u[k + 1..];
    assert u[k := 0][..k] == u[..k];
  }

  lemma {:induction false} CarryEnds(u: Bytes, v: Bytes, k: nat)
    requires k < |u| && Carried(u, v, k + 1) && u[k] != 255
    ensures u[k := u[k] + 1] == Next(v)
  {
    Shorter(u, v, k);
    CarryStops(v, k, v[..k], v[k]);
    assert u[k := u[k] + 1] == u[..k] + [u[k] + 1] + u[k + 1..];
  }

  method IncrementIv(iv: array<bv8>)
    requires iv.Length == 16
    modifies iv
    ensures iv[..] == Next(old(iv[..]))
  {
    ghost var v := iv[..];
    var bi := 15;
    while bi >= 0
      invariant -1 <= bi <= 15
      invariant Carried(iv[..], v, bi + 1)
    {
      ghost var u := iv[..];
      if iv[bi] == 255 {
        CarryOn(u, v, bi);
        iv[bi] := 0;
        assert iv[..] == u[bi := 0];
        bi := bi - 1;
        continue;
      }
      CarryEnds(u, v, bi);
      iv[bi] := iv[bi] + 1;
      assert iv[..] == u[bi := u[bi] + 1];
      return;
    }
    CarryLost(v);
    assert iv[..] == iv[..][0..] && v == v[0..];
  }

  // ---------------------------------------------------------------- CTR

  /** A fresh mask and the next counter. */
  method NextMask(buffer: array<bv8>, iv: array<bv8>, rk: array<bv8>, ghost e: Bytes -> Bytes, ghost w: Bytes, ghost j: nat)
    requires buffer.Length == 16 && iv.Length == 16 && rk.Length == KEYEXPSIZE && IsBlock(w)
    requires buffer != iv && buffer != rk && iv != rk && Agrees(e, rk[..]) && iv[..] == Counter(w, j)
    modifies buffer, iv
    ensures buffer[..] == e(Counter(w, j))
    ensures iv[..] == Counter(w, j + 1)
  {
    NextCounter(w, j);
    CopyBlock(buffer, iv, 0);
    assert buffer[0..16] == buffer[..] && iv[0..16] == iv[..];
    Cipher(buffer, 0, rk);
    assert buffer[0..16] == buffer[..];
    IncrementIv(iv);
  }

  lemma NextCounter(iv: Bytes, n: nat)
    requires IsBlock(iv)
    ensures Counter(iv, n + 1) == Next(Counter(iv, n))
  {
  }

  method MaskByte(b: array<bv8>, i: nat, buffer: array<bv8>, bi: nat, ghost e: Bytes -> Bytes, ghost j: nat,
                  ghost w: Bytes, ghost s: Bytes, ghost n: nat, ghost r: Bytes)
    requires b != buffer && IsBlock(w) && IsCipher(e) && i < n <= |s| && i == 16 * j + bi && bi < 16
    requires buffer[..] == e(Counter(w, j)) && r == Masked(w, s[..n], e) && |r| == n && Joined(b[..], s, r, i)
    modifies b
    ensures Joined(b[..], s, r, i + 1)
  {
    ghost var was := b[..];
    MaskAt(w, s, n, e, i, j, bi, buffer[..], r);
    assert b[i] == was[i..][0] == s[i..][0];
    b[i] := b[i] ^ buffer[bi];
    JoinedByte(was, b[..], s, r, i);
  }

  /** The loop of AES_CTR_xcrypt_buffer: bi is the next byte of the mask to use. */
  method CtrXcrypt(b: array<bv8>, length: nat, iv: array<bv8>, rk: array<bv8>, ghost e: Bytes -> Bytes)
    requires length <= b.Length && iv.Length == 16 && rk.Length == KEYEXPSIZE
    requires b != iv && b != rk && iv != rk && IsCipher(e) && Agrees(e, rk[..])
    modifies b, iv
    ensures b[..length] == Masked(old(iv[..]), old(b[..length]), e)
    ensures b[length..] == old(b[length..])
    ensures iv[..] == Counter(old(iv[..]), (length + 15) / 16)
  {
    ghost var w, s, keys := iv[..], b[..], rk[..];
    ghost var r := Masked(w, s[..length], e);
    JoinedAll(s, s, r);
    var buffer := new bv8[16];
    var i, bi := 0, 16;
    ghost var j := 0;
    while i < length
      invariant i <= length && bi <= 16 && i + 16 == 16 * j + bi && bi > 0
      invariant Joined(b[..], s, r, i) && rk[..] == keys
      invariant iv[..] == Counter(w, j)
      invariant j > 0 ==> buffer[..] == e(Counter(w, j - 1))
    {
      if bi == 16 {
        NextMask(buffer, iv, rk, e, w, j);
        j, bi := j + 1, 0;
      }
      MaskByte(b, i, buffer, bi, e, j - 1, w, s, length, r);
      i, bi := i + 1, bi + 1;
    }
    MasksUsed(length, j, bi);
    JoinedAll(b[..], s, r);
  }

  lemma MasksUsed(n: nat, j: nat, bi: nat)
    requires n + 16 == 16 * j + bi && 0 < bi <= 16
    ensures (n + 15) / 16 == j
  {
  }

  lemma MaskAt(iv: Bytes, s: Bytes, n: nat, e: Bytes -> Bytes, i: nat, j: nat, bi: nat, m: Bytes, r: Bytes)
    requires IsBlock(iv) && IsCipher(e) && i < n <= |s| && i == 16 * j + bi && bi < 16
    requires m == e(Counter(iv, j)) && r == Masked(iv, s[..n], e)
    ensures IsBlock(m) && r[i] == Add(s[i], m[bi])
  {
    assert i / 16 == j && i % 16 == bi;
    MaskedByte(iv, s[..n], e, i, m);
  }

  lemma JoinedByte(was: Bytes, b: Bytes, s: Bytes, r: Bytes, n: nat)
    requires Joined(was, s, r, n) && n < |r| && |b| == |was|
    requires b == was[n := r[n]]
    ensures Joined(b, s, r, n + 1)
  {
    assert b[..n + 1] == was[..n] + [r[n]] && r[..n + 1] == r[..n] + [r[n]];
    assert b[n + 1..] == was[n..][1..] && s[n + 1..] == s[n..][1..];
  }
}
