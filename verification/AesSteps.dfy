/**
 The round steps, the cipher, its inverse and the key expansion as the source
 runs them: in place, on the 16 bytes of a buffer that start at an offset.
 */
module AesSteps {
  import opened AesTables
  import opened AesField
  import opened AesCipher

  predicate HasBlock(b: array<bv8>, o: nat) { o + 16 <= b.Length }

  /** Nothing outside the block has changed. */
  twostate predicate Beside(b: array<bv8>, o: nat)
    reads b
  {
    forall p :: 0 <= p < b.Length && !(o <= p < o + 16) ==> b[p] == old(b[p])
  }

  method AddRoundKey(round: nat, b: array<bv8>, o: nat, rk: array<bv8>)
    requires HasBlock(b, o) && b != rk && rk.Length == KEYEXPSIZE && round <= Nr
    modifies b
    ensures b[o..o + 16] == WithRoundKey(old(b[o..o + 16]), round, rk[..])
    ensures Beside(b, o)
  {
    ghost var s, keys := b[o..o + 16], rk[..];
    var i := 0;
    while i < 4
      invariant 0 <= i <= 4
      invariant forall p :: o <= p < o + 4 * i ==> b[p] == Add(s[p - o], keys[16 * round + (p - o)])
      invariant forall p :: o + 4 * i <= p < o + 16 ==> b[p] == s[p - o]
      invariant Beside(b, o)
    {
      var j := 0;
      while j < 4
        invariant 0 <= j <= 4
        invariant forall p :: o <= p < o + 4 * i + j ==> b[p] == Add(s[p - o], keys[16 * round + (p - o)])
        invariant forall p :: o + 4 * i + j <= p < o + 16 ==> b[p] == s[p - o]
        invariant Beside(b, o)
      {
        b[o + 4 * i + j] := b[o + 4 * i + j] ^ rk[round * 4 * 4 + i * 4 + j];
        j := j + 1;
      }
      i := i + 1;
    }
  }

  /** Byte k has been visited when the loops stand at row i, column j. */
  predicate Visited(k: nat, i: nat, j: nat) {
    k % 4 < i || (k % 4 == i && k / 4 < j)
  }

  method SubBytes(b: array<bv8>, o: nat)
    requires HasBlock(b, o)
    modifies b
    ensures b[o..o + 16] == Substituted(old(b[o..o + 16]))
    ensures Beside(b, o)
  {
    ghost var s := b[o..o + 16];
    var i := 0;
    while i < 4
      invariant 0 <= i <= 4
      invariant forall p :: o <= p < o + 16 ==> b[p] == if Visited(p - o, i, 0) then Sbox(s[p - o]) else s[p - o]
      invariant Beside(b, o)
    {
      var j := 0;
      while j < 4
        invariant 0 <= j <= 4
        invariant forall p :: o <= p < o + 16 ==> b[p] == if Visited(p - o, i, j) then Sbox(s[p - o]) else s[p - o]
        invariant Beside(b, o)
      {
        b[o + 4 * j + i] := Sbox(b[o + 4 * j + i]);
        j := j + 1;
      }
      i := i + 1;
    }
  }

  method InvSubBytes(b: array<bv8>, o: nat)
    requires HasBlock(b, o)
    modifies b
    ensures b[o..o + 16] == Unsubstituted(old(b[o..o + 16]))
    ensures Beside(b, o)
  {
    ghost var s := b[o..o + 16];
    var i := 0;
    while i < 4
      invariant 0 <= i <= 4
      invariant forall p :: o <= p < o + 16 ==> b[p] == if Visited(p - o, i, 0) then Rsbox(s[p - o]) else s[p - o]
      invariant Beside(b, o)
    {
      var j := 0;
      while j < 4
        invariant 0 <= j <= 4
        invariant forall p :: o <= p < o + 16 ==> b[p] == if Visited(p - o, i, j) then Rsbox(s[p - o]) else s[p - o]
        invariant Beside(b, o)
      {
        b[o + 4 * j + i] := Rsbox(b[o + 4 * j + i]);
        j := j + 1;
      }
      i := i + 1;
    }
  }

  /** Byte p takes the byte of q, q that of r, r that of t, and t that of p. */
  method Rotate(b: array<bv8>, p: nat, q: nat, r: nat, t: nat)
    requires p < b.Length && q < b.Length && r < b.Length && t < b.Length
    requires p != q && p != r && p != t && q != r && q != t && r != t
    modifies b
    ensures b[p] == old(b[q]) && b[q] == old(b[r]) && b[r] == old(b[t]) && b[t] == old(b[p])
    ensures forall k :: 0 <= k < b.Length && k != p && k != q && k != r && k != t ==> b[k] == old(b[k])
  {
    var temp := b[p];
    b[p] := b[q];
    b[q] := b[r];
    b[r] := b[t];
    b[t] := temp;
  }

  method Swap(b: array<bv8>, p: nat, q: nat)
    requires p < b.Length && q < b.Length && p != q
    modifies b
    ensures b[p] == old(b[q]) && b[q] == old(b[p])
    ensures forall k :: 0 <= k < b.Length && k != p && k != q ==> b[k] == old(b[k])
  {
    var temp := b[p];
    b[p] := b[q];
    b[q] := temp;
  }

  method ShiftRows(b: array<bv8>, o: nat)
    requires HasBlock(b, o)
    modifies b
    ensures b[o..o + 16] == Shifted(old(b[o..o + 16]))
    ensures Beside(b, o)
  {
    ghost var s := b[o..o + 16];
    Rotate(b, o + 1, o + 5, o + 9, o + 13);
    Swap(b, o + 2, o + 10);
    Swap(b, o + 6, o + 14);
    Rotate(b, o + 3, o + 15, o + 11, o + 7);
    ShiftedIs(s, b[o..o + 16]);
  }

  method InvShiftRows(b: array<bv8>, o: nat)
    requires HasBlock(b, o)
    modifies b
    ensures b[o..o + 16] == Unshifted(old(b[o..o + 16]))
    ensures Beside(b, o)
  {
    ghost var s := b[o..o + 16];
    Rotate(b, o + 13, o + 9, o + 5, o + 1);
    Swap(b, o + 2, o + 10);
    Swap(b, o + 6, o + 14);
    Rotate(b, o + 3, o + 7, o + 11, o + 15);
    UnshiftedIs(s, b[o..o + 16]);
  }

  // The source sums a column in one fixed order, whichever byte it computes.

  lemma SumTurned(a: bv8, b: bv8, c: bv8, d: bv8)
    ensures Add4(a, b, c, d) == Add4(b, c, d, a)
  {
    AddGrouped(a, b, c);
    AddGrouped(a, Add(b, c), d);
    AddTurned(a, Add(Add(b, c), d));
  }

  /** One round of the loop of MixColumns, on the column that starts at q. */
  method MixColumn(b: array<bv8>, q: nat)
    requires q + 4 <= b.Length
    modifies b
    ensures b[q..q + 4] == MixedColumn(old(b[..]), q)
    ensures forall p :: 0 <= p < b.Length && !(q <= p < q + 4) ==> b[p] == old(b[p])
  {
    ghost var s0, s1, s2, s3 := b[q], b[q + 1], b[q + 2], b[q + 3];
    SumTurned(s0, s1, s2, s3);
    SumTurned(s1, s2, s3, s0);
    SumTurned(s2, s3, s0, s1);
    var t := b[q];
    var tmp := Add4(b[q], b[q + 1], b[q + 2], b[q + 3]);
    var tm := Xtime(Add(b[q], b[q + 1]));
    b[q] := Add(b[q], Add(tm, tmp));
    tm := Xtime(Add(b[q + 1], b[q + 2]));
    b[q + 1] := Add(b[q + 1], Add(tm, tmp));
    tm := Xtime(Add(b[q + 2], b[q + 3]));
    b[q + 2] := Add(b[q + 2], Add(tm, tmp));
    tm := Xtime(Add(b[q + 3], t));
    b[q + 3] := Add(b[q + 3], Add(tm, tmp));
  }

  /** One round of the loop of InvMixColumns. */
  method InvMixColumn(b: array<bv8>, q: nat)
    requires q + 4 <= b.Length
    modifies b
    ensures b[q..q + 4] == UnmixedColumn(old(b[..]), q)
    ensures forall p :: 0 <= p < b.Length && !(q <= p < q + 4) ==> b[p] == old(b[p])
  {
    var a, b1, c, d := b[q], b[q + 1], b[q + 2], b[q + 3];
    InSourceOrder(a, b1, c, d);
    b[q] := Add4(Multiply(a, 0x0e), Multiply(b1, 0x0b), Multiply(c, 0x0d), Multiply(d, 0x09));
    b[q + 1] := Add4(Multiply(a, 0x09), Multiply(b1, 0x0e), Multiply(c, 0x0b), Multiply(d, 0x0d));
    b[q + 2] := Add4(Multiply(a, 0x0d), Multiply(b1, 0x09), Multiply(c, 0x0e), Multiply(d, 0x0b));
    b[q + 3] := Add4(Multiply(a, 0x0b), Multiply(b1, 0x0d), Multiply(c, 0x09), Multiply(d, 0x0e));
  }

  lemma InSourceOrder(a: bv8, b: bv8, c: bv8, d: bv8)
    ensures Unmixed(b, c, d, a) == Add4(Multiply(a, 0x09), Multiply(b, 0x0e), Multiply(c, 0x0b), Multiply(d, 0x0d))
    ensures Unmixed(c, d, a, b) == Add4(Multiply(a, 0x0d), Multiply(b, 0x09), Multiply(c, 0x0e), Multiply(d, 0x0b))
    ensures Unmixed(d, a, b, c) == Add4(Multiply(a, 0x0b), Multiply(b, 0x0d), Multiply(c, 0x09), Multiply(d, 0x0e))
  {
    SumTurned(Multiply(a, 0x09), Multiply(b, 0x0e), Multiply(c, 0x0b), Multiply(d, 0x0d));
    SumTurned(Multiply(a, 0x0d), Multiply(b, 0x09), Multiply(c, 0x0e), Multiply(d, 0x0b));
    SumTurned(Multiply(b, 0x09), Multiply(c, 0x0e), Multiply(d, 0x0b), Multiply(a, 0x0d));
    SumTurned(Multiply(a, 0x0b), Multiply(b, 0x0d), Multiply(c, 0x09), Multiply(d, 0x0e));
    SumTurned(Multiply(b, 0x0d), Multiply(c, 0x09), Multiply(d, 0x0e), Multiply(a, 0x0b));
    SumTurned(Multiply(c, 0x09), Multiply(d, 0x0e), Multiply(a, 0x0b), Multiply(b, 0x0d));
  }

  /** The first n bytes of the block are those of m, the others still those of s. */
  predicate DoneUpTo(b: Bytes, o: nat, s: Bytes, m: Bytes, n: nat)
    requires o + 16 <= |b| && IsBlock(s) && IsBlock(m) && n <= 16
  {
    && (forall p :: o <= p < o + n ==> b[p] == m[p - o])
    && (forall p :: o + n <= p < o + 16 ==> b[p] == s[p - o])
  }

  lemma NextColumn(s: Bytes, m: Bytes, was: Bytes, now: Bytes, o: nat, i: nat)
    requires IsBlock(s) && IsBlock(m) && i < 4 && o + 16 <= |was| == |now|
    requires DoneUpTo(was, o, s, m, 4 * i)
    requires now[o + 4 * i..o + 4 * i + 4] == m[4 * i..4 * i + 4]
    requires forall p :: 0 <= p < |now| && !(o + 4 * i <= p < o + 4 * i + 4) ==> now[p] == was[p]
    ensures DoneUpTo(now, o, s, m, 4 * (i + 1))
  {
    var q := o + 4 * i;
    forall p | q <= p < q + 4 ensures now[p] == m[p - o] {
      assert now[p] == now[q..q + 4][p - q] == m[4 * i..4 * i + 4][p - q];
    }
  }

  lemma AllDone(b: Bytes, o: nat, s: Bytes, m: Bytes)
    requires o + 16 <= |b| && IsBlock(s) && IsBlock(m) && DoneUpTo(b, o, s, m, 16)
    ensures b[o..o + 16] == m
  {
  }

  lemma SameMixed(b: Bytes, o: nat, s: Bytes, m: Bytes, i: nat)
    requires o + 16 <= |b| && IsBlock(s) && IsBlock(m) && i < 4 && DoneUpTo(b, o, s, m, 4 * i)
    ensures MixedColumn(b, o + 4 * i) == MixedColumn(s, 4 * i)
  {
    var q := o + 4 * i;
    assert b[q] == s[4 * i] && b[q + 1] == s[4 * i + 1] && b[q + 2] == s[4 * i + 2] && b[q + 3] == s[4 * i + 3];
  }

  lemma SameUnmixed(b: Bytes, o: nat, s: Bytes, m: Bytes, i: nat)
    requires o + 16 <= |b| && IsBlock(s) && IsBlock(m) && i < 4 && DoneUpTo(b, o, s, m, 4 * i)
    ensures UnmixedColumn(b, o + 4 * i) == UnmixedColumn(s, 4 * i)
  {
    var q := o + 4 * i;
    assert b[q] == s[4 * i] && b[q + 1] == s[4 * i + 1] && b[q + 2] == s[4 * i + 2] && b[q + 3] == s[4 * i + 3];
  }

  /** Column i of the block. */
  method MixNext(b: array<bv8>, o: nat, i: nat, ghost s: Bytes, ghost m: Bytes)
    requires HasBlock(b, o) && i < 4 && IsBlock(s) && m == MixedColumns(s)
    requires DoneUpTo(b[..], o, s, m, 4 * i)
    modifies b
    ensures DoneUpTo(b[..], o, s, m, 4 * (i + 1))
    ensures Beside(b, o)
  {
    ghost var was := b[..];
    MixColumn(b, o + 4 * i);
    ColumnOf(s, m, 4 * i);
    SameMixed(was, o, s, m, i);
    NextColumn(s, m, was, b[..], o, i);
  }

  method MixColumns(b: array<bv8>, o: nat)
    requires HasBlock(b, o)
    modifies b
    ensures b[o..o + 16] == MixedColumns(old(b[o..o + 16]))
    ensures Beside(b, o)
  {
    ghost var s := b[o..o + 16];
    ghost var m := MixedColumns(s);
    var i := 0;
    while i < 4
      invariant 0 <= i <= 4
      invariant DoneUpTo(b[..], o, s, m, 4 * i)
      invariant Beside(b, o)
    {
      MixNext(b, o, i, s, m);
      i := i + 1;
    }
    AllDone(b[..], o, s, m);
  }

  /** Column i of the block. */
  method InvMixNext(b: array<bv8>, o: nat, i: nat, ghost s: Bytes, ghost m: Bytes)
    requires HasBlock(b, o) && i < 4 && IsBlock(s) && m == UnmixedColumns(s)
    requires DoneUpTo(b[..], o, s, m, 4 * i)
    modifies b
    ensures DoneUpTo(b[..], o, s, m, 4 * (i + 1))
    ensures Beside(b, o)
  {
    ghost var was := b[..];
    InvMixColumn(b, o + 4 * i);
    InvColumnOf(s, m, 4 * i);
    SameUnmixed(was, o, s, m, i);
    NextColumn(s, m, was, b[..], o, i);
  }

  method InvMixColumns(b: array<bv8>, o: nat)
    requires HasBlock(b, o)
    modifies b
    ensures b[o..o + 16] == UnmixedColumns(old(b[o..o + 16]))
    ensures Beside(b, o)
  {
    ghost var s := b[o..o + 16];
    ghost var m := UnmixedColumns(s);
    var i := 0;
    while i < 4
      invariant 0 <= i <= 4
      invariant DoneUpTo(b[..], o, s, m, 4 * i)
      invariant Beside(b, o)
    {
      InvMixNext(b, o, i, s, m);
      i := i + 1;
    }
    AllDone(b[..], o, s, m);
  }

  // ---------------------------------------------------------------- the cipher

  method Cipher(b: array<bv8>, o: nat, rk: array<bv8>)
    requires HasBlock(b, o) && b != rk && rk.Length == KEYEXPSIZE
    modifies b
    ensures b[o..o + 16] == Encrypted(old(b[o..o + 16]), rk[..])
    ensures Beside(b, o)
  {
    ghost var s, keys := b[o..o + 16], rk[..];
    AddRoundKey(0, b, o, rk);
    var round := 1;
    while true
      invariant 1 <= round <= Nr
      invariant rk[..] == keys
      invariant b[o..o + 16] == Rounds(s, keys, round - 1)
      invariant Beside(b, o)
      decreases Nr - round
    {
      SubBytes(b, o);
      ShiftRows(b, o);
      if round == Nr {
        break;
      }
      MixColumns(b, o);
      AddRoundKey(round, b, o, rk);
      round := round + 1;
    }
    AddRoundKey(Nr, b, o, rk);
  }

  method InvCipher(b: array<bv8>, o: nat, rk: array<bv8>)
    requires HasBlock(b, o) && b != rk && rk.Length == KEYEXPSIZE
    modifies b
    ensures b[o..o + 16] == Decrypted(old(b[o..o + 16]), rk[..])
    ensures Beside(b, o)
  {
    ghost var s := b[o..o + 16];
    AddRoundKey(Nr, b, o, rk);
    var round := Nr - 1;
    while true
      invariant 0 <= round < Nr
      invariant InverseRounds(b[o..o + 16], rk[..], round) == Decrypted(s, rk[..])
      invariant Beside(b, o)
      decreases round
    {
      InvShiftRows(b, o);
      InvSubBytes(b, o);
      AddRoundKey(round, b, o, rk);
      if round == 0 {
        break;
      }
      InvMixColumns(b, o);
      round := round - 1;
    }
  }
}
