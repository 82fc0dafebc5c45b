/**
 The AES-128 block cipher on a 16-byte state (row j of column i is byte 4i+j):
 the steps of a round as functions, the proof that the inverse cipher undoes
 the cipher (sections 5.1 and 5.3 of FIPS 197), and the key schedule.
 */
module AesCipher {
  import opened AesTables
  import opened AesField

  const Nr := 10
  const BLOCKLEN := 16
  const KEYEXPSIZE := 176

  type Bytes = seq<bv8>

  predicate IsBlock(s: Bytes) { |s| == BLOCKLEN }
  predicate IsSchedule(rk: Bytes) { |rk| == KEYEXPSIZE }

  // ---------------------------------------------------------------- the steps of a round

  function WithRoundKey(s: Bytes, round: nat, rk: Bytes): (r: Bytes)
    requires IsBlock(s) && IsSchedule(rk) && round <= Nr
    ensures IsBlock(r)
  {
    seq(16, k requires 0 <= k < 16 => Add(s[k], rk[16 * round + k]))
  }

  function Substituted(s: Bytes): (r: Bytes)
    requires IsBlock(s)
    ensures IsBlock(r)
  {
    seq(16, k requires 0 <= k < 16 => Sbox(s[k]))
  }

  function Unsubstituted(s: Bytes): (r: Bytes)
    requires IsBlock(s)
    ensures IsBlock(r)
  {
    seq(16, k requires 0 <= k < 16 => Rsbox(s[k]))
  }

  /** Where byte k comes from when row j moves j columns to the left ... */
  function Left(k: nat): (m: nat)
    ensures m < 16
  {
    (k + 4 * (k % 4)) % 16
  }

  /** ... or to the right. */
  function Right(k: nat): (m: nat)
    ensures m < 16
  {
    (k + 12 * (k % 4)) % 16
  }

  /** Row j moves j columns to the left. */
  function Shifted(s: Bytes): (r: Bytes)
    requires IsBlock(s)
    ensures IsBlock(r)
  {
    seq(16, k requires 0 <= k < 16 => s[Left(k)])
  }

  /** Row j moves j columns to the right. */
  function Unshifted(s: Bytes): (r: Bytes)
    requires IsBlock(s)
    ensures IsBlock(r)
  {
    seq(16, k requires 0 <= k < 16 => s[Right(k)])
  }

  lemma LeftIs()
    ensures Left(0) == 0 && Left(1) == 5 && Left(2) == 10 && Left(3) == 15
    ensures Left(4) == 4 && Left(5) == 9 && Left(6) == 14 && Left(7) == 3
    ensures Left(8) == 8 && Left(9) == 13 && Left(10) == 2 && Left(11) == 7
    ensures Left(12) == 12 && Left(13) == 1 && Left(14) == 6 && Left(15) == 11
  {
  }

  lemma RightIs()
    ensures Right(0) == 0 && Right(1) == 13 && Right(2) == 10 && Right(3) == 7
    ensures Right(4) == 4 && Right(5) == 1 && Right(6) == 14 && Right(7) == 11
    ensures Right(8) == 8 && Right(9) == 5 && Right(10) == 2 && Right(11) == 15
    ensures Right(12) == 12 && Right(13) == 9 && Right(14) == 6 && Right(15) == 3
  {
  }

  lemma ShiftedIs(s: Bytes, t: Bytes)
    requires IsBlock(s) && IsBlock(t)
    requires t[0] == s[0] && t[1] == s[5] && t[2] == s[10] && t[3] == s[15]
    requires t[4] == s[4] && t[5] == s[9] && t[6] == s[14] && t[7] == s[3]
    requires t[8] == s[8] && t[9] == s[13] && t[10] == s[2] && t[11] == s[7]
    requires t[12] == s[12] && t[13] == s[1] && t[14] == s[6] && t[15] == s[11]
    ensures t == Shifted(s)
  {
    LeftIs();
    SameBlock(t, Shifted(s));
  }

  /** Row r moves r columns to the left: equation 5.3 of FIPS 197. */
  lemma RowsMove(s: Bytes, r: nat, c: nat)
    requires IsBlock(s) && r < 4 && c < 4
    ensures Shifted(s)[4 * c + r] == s[4 * ((c + r) % 4) + r]
    ensures Unshifted(s)[4 * ((c + r) % 4) + r] == s[4 * c + r]
  {
    LeftFrom(r, c);
    RightFrom(r, c);
    MovedByte(s, 4 * c + r);
    MovedByte(s, 4 * ((c + r) % 4) + r);
  }

  lemma LeftFrom(r: nat, c: nat)
    requires r < 4 && c < 4
    ensures Left(4 * c + r) == 4 * ((c + r) % 4) + r
  {
    LeftIs();
    assert c == 0 || c == 1 || c == 2 || c == 3;
  }

  lemma RightFrom(r: nat, c: nat)
    requires r < 4 && c < 4
    ensures Right(4 * ((c + r) % 4) + r) == 4 * c + r
  {
    RightIs();
    assert c == 0 || c == 1 || c == 2 || c == 3;
  }

  lemma MovedByte(s: Bytes, k: nat)
    requires IsBlock(s) && k < 16
    ensures Shifted(s)[k] == s[Left(k)] && Unshifted(s)[k] == s[Right(k)]
  {
  }

  lemma UnshiftedIs(s: Bytes, t: Bytes)
    requires IsBlock(s) && IsBlock(t)
    requires t[0] == s[0] && t[1] == s[13] && t[2] == s[10] && t[3] == s[7]
    requires t[4] == s[4] && t[5] == s[1] && t[6] == s[14] && t[7] == s[11]
    requires t[8] == s[8] && t[9] == s[5] && t[10] == s[2] && t[11] == s[15]
    requires t[12] == s[12] && t[13] == s[9] && t[14] == s[6] && t[15] == s[3]
    ensures t == Unshifted(s)
  {
    RightIs();
    SameBlock(t, Unshifted(s));
  }

  lemma SameBlock(t: Bytes, u: Bytes)
    requires IsBlock(t) && IsBlock(u) && t[0] == u[0] && t[1] == u[1] && t[2] == u[2] && t[3] == u[3]
    requires t[4] == u[4] && t[5] == u[5] && t[6] == u[6] && t[7] == u[7]
    requires t[8] == u[8] && t[9] == u[9] && t[10] == u[10] && t[11] == u[11]
    requires t[12] == u[12] && t[13] == u[13] && t[14] == u[14] && t[15] == u[15]
    ensures t == u
  {
  }

  function MixedColumn(s: Bytes, o: nat): (r: Bytes)
    requires o + 4 <= |s|
    ensures |r| == 4
  {
    [Mixed(s[o], s[o + 1], s[o + 2], s[o + 3]), Mixed(s[o + 1], s[o + 2], s[o + 3], s[o]),
     Mixed(s[o + 2], s[o + 3], s[o], s[o + 1]), Mixed(s[o + 3], s[o], s[o + 1], s[o + 2])]
  }

  function UnmixedColumn(s: Bytes, o: nat): (r: Bytes)
    requires o + 4 <= |s|
    ensures |r| == 4
  {
    [Unmixed(s[o], s[o + 1], s[o + 2], s[o + 3]), Unmixed(s[o + 1], s[o + 2], s[o + 3], s[o]),
     Unmixed(s[o + 2], s[o + 3], s[o], s[o + 1]), Unmixed(s[o + 3], s[o], s[o + 1], s[o + 2])]
  }

  function MixedColumns(s: Bytes): (r: Bytes)
    requires IsBlock(s)
    ensures IsBlock(r)
  {
    seq(16, k requires 0 <= k < 16 => MixedColumn(s, k - k % 4)[k % 4])
  }

  function UnmixedColumns(s: Bytes): (r: Bytes)
    requires IsBlock(s)
    ensures IsBlock(r)
  {
    seq(16, k requires 0 <= k < 16 => UnmixedColumn(s, k - k % 4)[k % 4])
  }

  // ---------------------------------------------------------------- each step is undone

  lemma AddTwice(a: bv8, b: bv8)
    ensures Add(Add(a, b), b) == a
  {
  }

  lemma RoundKeyTwice(s: Bytes, round: nat, rk: Bytes)
    requires IsBlock(s) && IsSchedule(rk) && round <= Nr
    ensures WithRoundKey(WithRoundKey(s, round, rk), round, rk) == s
  {
    forall k | 0 <= k < 16 ensures WithRoundKey(WithRoundKey(s, round, rk), round, rk)[k] == s[k] {
      AddTwice(s[k], rk[16 * round + k]);
    }
  }

  lemma UnsubstitutedSubstituted(s: Bytes)
    requires IsBlock(s)
    ensures Unsubstituted(Substituted(s)) == s
  {
    forall k | 0 <= k < 16 ensures Unsubstituted(Substituted(s))[k] == s[k] {
      SboxInverse(s[k]);
    }
  }

  lemma BackAgain(k: nat)
    requires k < 16
    ensures Left(Right(k)) == k
  {
    var j, q, m := k % 4, (k + 12 * (k % 4)) / 16, Right(k);
    assert m == 16 * (0 - q) + k + 12 * j;
    assert m % 4 == j by { assert m == 4 * (3 * j - 4 * q + k / 4) + j; }
    assert m + 4 * j == 16 * (j - q) + k;
  }

  lemma UnshiftedShifted(s: Bytes)
    requires IsBlock(s)
    ensures Unshifted(Shifted(s)) == s
  {
    var t := Shifted(s);
    forall k | 0 <= k < 16 ensures Unshifted(t)[k] == s[k] {
      BackAgain(k);
      assert Unshifted(t)[k] == t[Right(k)];
    }
  }

  lemma ColumnUndone(s: Bytes, m: Bytes, o: nat)
    requires o + 4 <= |s| == |m|
    requires m[o..o + 4] == MixedColumn(s, o)
    ensures UnmixedColumn(m, o) == s[o..o + 4]
  {
    var c := MixedColumn(s, o);
    assert m[o] == c[0] && m[o + 1] == c[1] && m[o + 2] == c[2] && m[o + 3] == c[3];
    UnmixMixed(s[o], s[o + 1], s[o + 2], s[o + 3]);
    UnmixMixed(s[o + 1], s[o + 2], s[o + 3], s[o]);
    UnmixMixed(s[o + 2], s[o + 3], s[o], s[o + 1]);
    UnmixMixed(s[o + 3], s[o], s[o + 1], s[o + 2]);
  }

  lemma InColumn(o: nat, j: nat)
    requires o % 4 == 0 && j < 4
    ensures (o + j) % 4 == j && (o + j) - (o + j) % 4 == o
  {
  }

  lemma ColumnOf(s: Bytes, m: Bytes, o: nat)
    requires IsBlock(s) && m == MixedColumns(s) && o % 4 == 0 && o < 16
    ensures m[o..o + 4] == MixedColumn(s, o)
  {
    forall j | 0 <= j < 4 ensures m[o + j] == MixedColumn(s, o)[j] {
      InColumn(o, j);
    }
  }

  lemma InvColumnOf(s: Bytes, m: Bytes, o: nat)
    requires IsBlock(s) && m == UnmixedColumns(s) && o % 4 == 0 && o < 16
    ensures m[o..o + 4] == UnmixedColumn(s, o)
  {
    forall j | 0 <= j < 4 ensures m[o + j] == UnmixedColumn(s, o)[j] {
      InColumn(o, j);
    }
  }

  lemma ByteUndone(s: Bytes, m: Bytes, o: nat, j: nat)
    requires IsBlock(s) && m == MixedColumns(s) && o % 4 == 0 && o < 16 && j < 4
    ensures UnmixedColumn(m, o)[j] == s[o + j]
  {
    ColumnOf(s, m, o);
    ColumnUndone(s, m, o);
    assert s[o..o + 4][j] == s[o + j];
  }

  lemma UnmixedMixed(s: Bytes)
    requires IsBlock(s)
    ensures UnmixedColumns(MixedColumns(s)) == s
  {
    forall k | 0 <= k < 16 ensures UnmixedColumns(MixedColumns(s))[k] == s[k] {
      UnmixedByte(s, MixedColumns(s), k);
    }
  }

  lemma UnmixedByte(s: Bytes, m: Bytes, k: nat)
    requires IsBlock(s) && m == MixedColumns(s) && k < 16
    ensures UnmixedColumns(m)[k] == s[k]
  {
    ByteUndone(s, m, k - k % 4, k % 4);
  }

  // ---------------------------------------------------------------- the cipher

  /** The state after the first AddRoundKey and r full rounds. */
  function Rounds(s: Bytes, rk: Bytes, r: nat): (t: Bytes)
    requires IsBlock(s) && IsSchedule(rk) && r < Nr
    ensures IsBlock(t)
    decreases r
  {
    if r == 0 then WithRoundKey(s, 0, rk)
    else WithRoundKey(MixedColumns(Shifted(Substituted(Rounds(s, rk, r - 1)))), r, rk)
  }

  /** Round nr, the last, is without MixColumns. */
  function EncryptedIn(s: Bytes, rk: Bytes, nr: nat): (t: Bytes)
    requires IsBlock(s) && IsSchedule(rk) && 1 <= nr <= Nr
    ensures IsBlock(t)
  {
    WithRoundKey(Shifted(Substituted(Rounds(s, rk, nr - 1))), nr, rk)
  }

  /** Section 5.1 of FIPS 197. */
  function Encrypted(s: Bytes, rk: Bytes): (t: Bytes)
    requires IsBlock(s) && IsSchedule(rk)
    ensures IsBlock(t)
  {
    EncryptedIn(s, rk, Nr)
  }

  /** The inverse rounds r, r-1, .. 0; only round 0 is without InvMixColumns. */
  function InverseRounds(s: Bytes, rk: Bytes, r: nat): (t: Bytes)
    requires IsBlock(s) && IsSchedule(rk) && r < Nr
    ensures IsBlock(t)
    decreases r
  {
    var u := WithRoundKey(Unsubstituted(Unshifted(s)), r, rk);
    if r == 0 then u else InverseRounds(UnmixedColumns(u), rk, r - 1)
  }

  function DecryptedIn(s: Bytes, rk: Bytes, nr: nat): (t: Bytes)
    requires IsBlock(s) && IsSchedule(rk) && 1 <= nr <= Nr
    ensures IsBlock(t)
  {
    InverseRounds(WithRoundKey(s, nr, rk), rk, nr - 1)
  }

  /** Section 5.3 of FIPS 197. */
  function Decrypted(s: Bytes, rk: Bytes): (t: Bytes)
    requires IsBlock(s) && IsSchedule(rk)
    ensures IsBlock(t)
  {
    DecryptedIn(s, rk, Nr)
  }

  lemma {:induction false} RoundsUndone(s: Bytes, rk: Bytes, r: nat)
    requires IsBlock(s) && IsSchedule(rk) && r < Nr
    ensures InverseRounds(Shifted(Substituted(Rounds(s, rk, r))), rk, r) == s
    decreases r
  {
    var x := Rounds(s, rk, r);
    UnshiftedShifted(Substituted(x));
    UnsubstitutedSubstituted(x);
    if r == 0 {
      RoundKeyTwice(s, 0, rk);
    } else {
      var y := Shifted(Substituted(Rounds(s, rk, r - 1)));
      RoundKeyTwice(MixedColumns(y), r, rk);
      UnmixedMixed(y);
      RoundsUndone(s, rk, r - 1);
    }
  }

  lemma DecryptedEncryptedIn(s: Bytes, rk: Bytes, nr: nat)
    requires IsBlock(s) && IsSchedule(rk) && 1 <= nr <= Nr
    ensures DecryptedIn(EncryptedIn(s, rk, nr), rk, nr) == s
  {
    RoundKeyTwice(Shifted(Substituted(Rounds(s, rk, nr - 1))), nr, rk);
    RoundsUndone(s, rk, nr - 1);
  }

  /** InvCipher undoes Cipher, whatever the 176 bytes of the schedule. */
  lemma DecryptedEncrypted(s: Bytes, rk: Bytes)
    requires IsBlock(s) && IsSchedule(rk)
    ensures Decrypted(Encrypted(s, rk), rk) == s
  {
    DecryptedEncryptedIn(s, rk, Nr);
  }
}
