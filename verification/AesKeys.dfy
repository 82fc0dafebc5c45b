/**
 The key schedule of AES-128: section 5.2 of FIPS 197.  The expanded key is
 the recurrence on 4-byte words, and any four consecutive words of it determine
 the key.
 */
module AesKeys {
  import opened AesTables
  import opened AesField
  import opened AesCipher

  const Nk := 4

  function Rcon(k: nat): bv8
    requires k <= 10
  {
    [0x8d, 0x01, 0x02, 0x04, 0x08, 0x10, 0x20, 0x40, 0x80, 0x1b, 0x36][k]
  }

  /** The round constants are the powers of x. */
  lemma RconPowers(k: nat)
    requires k < 10
    ensures Rcon(1) == 1 && Rcon(k + 1) == Xtime(Rcon(k))
  {
    assert k == 0 || k == 1 || k == 2 || k == 3 || k == 4 || k == 5 || k == 6 || k == 7 || k == 8 || k == 9;
  }

  predicate IsWord(w: Bytes) { |w| == 4 }

  function Sum(v: Bytes, w: Bytes): (r: Bytes)
    requires IsWord(v) && IsWord(w)
    ensures IsWord(r)
  {
    [Add(v[0], w[0]), Add(v[1], w[1]), Add(v[2], w[2]), Add(v[3], w[3])]
  }

  /** What is added to word i-4 to give word i, from word i-1. */
  function Stirred(w: Bytes, i: nat): (r: Bytes)
    requires IsWord(w) && 4 <= i < 44
    ensures IsWord(r)
  {
    StirredBy(Sbox, w, i)
  }

  function StirredBy(table: bv8 -> bv8, w: Bytes, i: nat): (r: Bytes)
    requires IsWord(w) && 4 <= i < 44
    ensures IsWord(r)
  {
    if i % Nk == 0 then [Add(table(w[1]), Rcon(i / Nk)), table(w[2]), table(w[3]), table(w[0])] else w
  }

  function Word(key: Bytes, i: nat): (w: Bytes)
    requires IsBlock(key) && i < 44
    ensures IsWord(w)
    decreases i
  {
    if i < Nk then key[4 * i..4 * i + 4] else Sum(Word(key, i - Nk), Stirred(Word(key, i - 1), i))
  }

  // ---------------------------------------------------------------- the schedule loses nothing

  lemma Cancel(a: bv8, b: bv8, t: bv8)
    requires Add(a, t) == Add(b, t)
    ensures a == b
  {
    AddTwice(a, t);
    AddTwice(b, t);
  }

  lemma CancelWord(v: Bytes, w: Bytes, t: Bytes)
    requires IsWord(v) && IsWord(w) && IsWord(t) && Sum(v, t) == Sum(w, t)
    ensures v == w
  {
    assert Sum(v, t)[0] == Sum(w, t)[0] && Sum(v, t)[1] == Sum(w, t)[1];
    assert Sum(v, t)[2] == Sum(w, t)[2] && Sum(v, t)[3] == Sum(w, t)[3];
    Cancel(v[0], w[0], t[0]);
    Cancel(v[1], w[1], t[1]);
    Cancel(v[2], w[2], t[2]);
    Cancel(v[3], w[3], t[3]);
  }

  predicate AgreeAt(k: Bytes, l: Bytes, i: nat)
    requires IsBlock(k) && IsBlock(l) && i < 44
  {
    Word(k, i) == Word(l, i)
  }

  /** The schedules agree on words i to i+3. */
  predicate AgreeOnFour(k: Bytes, l: Bytes, i: nat)
    requires IsBlock(k) && IsBlock(l) && i + 3 < 44
  {
    forall m :: i <= m < i + 4 ==> AgreeAt(k, l, m)
  }

  lemma AgreeBefore(k: Bytes, l: Bytes, i: nat)
    requires IsBlock(k) && IsBlock(l) && 4 <= i < 44
    requires AgreeAt(k, l, i) && AgreeAt(k, l, i - 1)
    ensures AgreeAt(k, l, i - 4)
  {
    CancelWord(Word(k, i - 4), Word(l, i - 4), Stirred(Word(k, i - 1), i));
  }

  lemma FourBefore(k: Bytes, l: Bytes, i: nat)
    requires IsBlock(k) && IsBlock(l) && 1 <= i && i + 3 < 44 && AgreeOnFour(k, l, i)
    ensures AgreeOnFour(k, l, i - 1)
  {
    assert AgreeAt(k, l, i + 2) && AgreeAt(k, l, i + 3);
    AgreeBefore(k, l, i + 3);
  }

  lemma AgreeOnKey(k: Bytes, l: Bytes)
    requires IsBlock(k) && IsBlock(l) && AgreeOnFour(k, l, 0)
    ensures k == l
  {
    assert AgreeAt(k, l, 0) && AgreeAt(k, l, 1) && AgreeAt(k, l, 2) && AgreeAt(k, l, 3);
    WholeKey(k);
    WholeKey(l);
  }

  lemma {:induction false} WholeKey(k: Bytes)
    requires IsBlock(k)
    ensures k == Word(k, 0) + Word(k, 1) + Word(k, 2) + Word(k, 3)
  {
  }

  /** Two keys whose schedules agree on four consecutive words are the same. */
  lemma {:induction false} FourWordsTell(k: Bytes, l: Bytes, i: nat)
    requires IsBlock(k) && IsBlock(l) && i + 3 < 44 && AgreeOnFour(k, l, i)
    ensures k == l
    decreases i
  {
    if i == 0 {
      AgreeOnKey(k, l);
    } else {
      FourBefore(k, l, i);
      FourWordsTell(k, l, i - 1);
    }
  }

  // ---------------------------------------------------------------- in place

  predicate Holds(b: Bytes, i: nat, w: Bytes) {
    && IsWord(w) && 4 * i + 4 <= |b|
    && b[4 * i] == w[0] && b[4 * i + 1] == w[1] && b[4 * i + 2] == w[2] && b[4 * i + 3] == w[3]
  }

  /** The first n words of the schedule of k are in place. */
  predicate Expanded(b: Bytes, k: Bytes, n: nat)
    requires IsBlock(k) && n <= 44
  {
    forall m :: 0 <= m < n ==> Holds(b, m, Word(k, m))
  }

  lemma {:induction false} OneMore(was: Bytes, b: Bytes, k: Bytes, n: nat)
    requires IsBlock(k) && n < 44 && 4 * n <= |was| == |b|
    requires Expanded(was, k, n) && b[..4 * n] == was[..4 * n] && Holds(b, n, Word(k, n))
    ensures Expanded(b, k, n + 1)
  {
    forall m | 0 <= m < n ensures Holds(b, m, Word(k, m)) {
      assert Holds(was, m, Word(k, m));
      SamePrefix(was, b, 4 * n, m, Word(k, m));
    }
  }

  lemma SamePrefix(was: Bytes, b: Bytes, e: nat, m: nat, w: Bytes)
    requires 4 * m + 4 <= e <= |was| == |b| && b[..e] == was[..e] && Holds(was, m, w)
    ensures Holds(b, m, w)
  {
    assert b[..e][4 * m] == was[..e][4 * m] && b[..e][4 * m + 1] == was[..e][4 * m + 1];
    assert b[..e][4 * m + 2] == was[..e][4 * m + 2] && b[..e][4 * m + 3] == was[..e][4 * m + 3];
  }

  method KeyExpansion(rk: array<bv8>, key: array<bv8>)
    requires rk.Length == KEYEXPSIZE && key.Length == 16 && rk != key
    modifies rk
    ensures Expanded(rk[..], key[..], 44)
  {
    ghost var k := key[..];
    var i := 0;
    while i < Nk
      invariant 0 <= i <= Nk
      invariant key[..] == k
      invariant Expanded(rk[..], k, i)
    {
      ghost var was := rk[..];
      CopyWord(rk, key, i);
      OneMore(was, rk[..], k, i);
      i := i + 1;
    }
    while i < 4 * (Nr + 1)
      invariant Nk <= i <= 44
      invariant Expanded(rk[..], k, i)
    {
      ghost var was := rk[..];
      NextWord(rk, i, k);
      OneMore(was, rk[..], k, i);
      i := i + 1;
    }
  }

  method CopyWord(rk: array<bv8>, key: array<bv8>, i: nat)
    requires rk.Length == KEYEXPSIZE && key.Length == 16 && rk != key && i < Nk
    modifies rk
    ensures Holds(rk[..], i, Word(key[..], i))
    ensures rk[..4 * i] == old(rk[..4 * i])
  {
    rk[i * 4] := key[i * 4];
    rk[i * 4 + 1] := key[i * 4 + 1];
    rk[i * 4 + 2] := key[i * 4 + 2];
    rk[i * 4 + 3] := key[i * 4 + 3];
  }

  /** One round of the second loop. */
  method NextWord(rk: array<bv8>, i: nat, ghost k: Bytes)
    requires rk.Length == KEYEXPSIZE && Nk <= i < 44 && IsBlock(k)
    requires Expanded(rk[..], k, i)
    modifies rk
    ensures Holds(rk[..], i, Word(k, i))
    ensures rk[..4 * i] == old(rk[..4 * i])
  {
    ghost var v, w := Word(k, i - 4), Word(k, i - 1);
    assert Holds(rk[..], i - 4, v) && Holds(rk[..], i - 1, w);
    var t0, t1, t2, t3 := Stir(rk, i, w, Sbox);
    StoreWord(rk, i, t0, t1, t2, t3, v);
  }

  /** RotWord and SubWord. */
  method RotSub(table: bv8 -> bv8, s0: bv8, s1: bv8, s2: bv8, s3: bv8) returns (t0: bv8, t1: bv8, t2: bv8, t3: bv8)
    ensures t0 == table(s1) && t1 == table(s2) && t2 == table(s3) && t3 == table(s0)
  {
    t0, t1, t2, t3 := s1, s2, s3, s0;
    t0, t1, t2, t3 := table(t0), table(t1), table(t2), table(t3);
  }

  /** RotWord, SubWord and the round constant, on every fourth word. */
  method Stir(rk: array<bv8>, i: nat, ghost w: Bytes, table: bv8 -> bv8) returns (t0: bv8, t1: bv8, t2: bv8, t3: bv8)
    requires rk.Length == KEYEXPSIZE && Nk <= i < 44 && Holds(rk[..], i - 1, w)
    ensures [t0, t1, t2, t3] == StirredBy(table, w, i)
  {
    var p := (i - 1) * 4;
    t0, t1, t2, t3 := rk[p], rk[p + 1], rk[p + 2], rk[p + 3];
    if i % Nk == 0 {
      t0, t1, t2, t3 := RotSub(table, t0, t1, t2, t3);
      t0 := Add(t0, Rcon(i / Nk));
    }
  }

  method StoreWord(rk: array<bv8>, i: nat, t0: bv8, t1: bv8, t2: bv8, t3: bv8, ghost v: Bytes)
    requires rk.Length == KEYEXPSIZE && Nk <= i < 44 && Holds(rk[..], i - 4, v)
    modifies rk
    ensures Holds(rk[..], i, Sum(v, [t0, t1, t2, t3]))
    ensures rk[..4 * i] == old(rk[..4 * i])
  {
    var j, p := i * 4, (i - Nk) * 4;
    rk[j] := Add(rk[p], t0);
    rk[j + 1] := Add(rk[p + 1], t1);
    rk[j + 2] := Add(rk[p + 2], t2);
    rk[j + 3] := Add(rk[p + 3], t3);
  }
}
