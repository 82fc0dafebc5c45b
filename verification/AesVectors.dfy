/** The example of FIPS 197: the expanded key of appendix A.1, and the cipher of appendix B. */
module AesVectors {
  import opened AesField
  import opened AesTables
  import opened AesCipher
  import opened AesKeys

  /** Four words: a state by its columns, or a round key. */
  datatype Quad = Quad(a: Bytes, b: Bytes, c: Bytes, d: Bytes)

  predicate AreWords(q: Quad) { IsWord(q.a) && IsWord(q.b) && IsWord(q.c) && IsWord(q.d) }

  // the words of the round keys
  const K0 := Quad([0x2b, 0x7e, 0x15, 0x16], [0x28, 0xae, 0xd2, 0xa6], [0xab, 0xf7, 0x15, 0x88], [0x09, 0xcf, 0x4f, 0x3c])
  const K1 := Quad([0xa0, 0xfa, 0xfe, 0x17], [0x88, 0x54, 0x2c, 0xb1], [0x23, 0xa3, 0x39, 0x39], [0x2a, 0x6c, 0x76, 0x05])
  const K2 := Quad([0xf2, 0xc2, 0x95, 0xf2], [0x7a, 0x96, 0xb9, 0x43], [0x59, 0x35, 0x80, 0x7a], [0x73, 0x59, 0xf6, 0x7f])
  const K3 := Quad([0x3d, 0x80, 0x47, 0x7d], [0x47, 0x16, 0xfe, 0x3e], [0x1e, 0x23, 0x7e, 0x44], [0x6d, 0x7a, 0x88, 0x3b])
  const K4 := Quad([0xef, 0x44, 0xa5, 0x41], [0xa8, 0x52, 0x5b, 0x7f], [0xb6, 0x71, 0x25, 0x3b], [0xdb, 0x0b, 0xad, 0x00])
  const K5 := Quad([0xd4, 0xd1, 0xc6, 0xf8], [0x7c, 0x83, 0x9d, 0x87], [0xca, 0xf2, 0xb8, 0xbc], [0x11, 0xf9, 0x15, 0xbc])
  const K6 := Quad([0x6d, 0x88, 0xa3, 0x7a], [0x11, 0x0b, 0x3e, 0xfd], [0xdb, 0xf9, 0x86, 0x41], [0xca, 0x00, 0x93, 0xfd])
  const K7 := Quad([0x4e, 0x54, 0xf7, 0x0e], [0x5f, 0x5f, 0xc9, 0xf3], [0x84, 0xa6, 0x4f, 0xb2], [0x4e, 0xa6, 0xdc, 0x4f])
  const K8 := Quad([0xea, 0xd2, 0x73, 0x21], [0xb5, 0x8d, 0xba, 0xd2], [0x31, 0x2b, 0xf5, 0x60], [0x7f, 0x8d, 0x29, 0x2f])
  const K9 := Quad([0xac, 0x77, 0x66, 0xf3], [0x19, 0xfa, 0xdc, 0x21], [0x28, 0xd1, 0x29, 0x41], [0x57, 0x5c, 0x00, 0x6e])
  const K10 := Quad([0xd0, 0x14, 0xf9, 0xa8], [0xc9, 0xee, 0x25, 0x89], [0xe1, 0x3f, 0x0c, 0xc8], [0xb6, 0x63, 0x0c, 0xa6])

  // the input, the state before each round, and the output
  const PLAIN := Quad([0x32, 0x43, 0xf6, 0xa8], [0x88, 0x5a, 0x30, 0x8d], [0x31, 0x31, 0x98, 0xa2], [0xe0, 0x37, 0x07, 0x34])
  const S0 := Quad([0x19, 0x3d, 0xe3, 0xbe], [0xa0, 0xf4, 0xe2, 0x2b], [0x9a, 0xc6, 0x8d, 0x2a], [0xe9, 0xf8, 0x48, 0x08])
  const S1 := Quad([0xa4, 0x9c, 0x7f, 0xf2], [0x68, 0x9f, 0x35, 0x2b], [0x6b, 0x5b, 0xea, 0x43], [0x02, 0x6a, 0x50, 0x49])
  const S2 := Quad([0xaa, 0x8f, 0x5f, 0x03], [0x61, 0xdd, 0xe3, 0xef], [0x82, 0xd2, 0x4a, 0xd2], [0x68, 0x32, 0x46, 0x9a])
  const S3 := Quad([0x48, 0x6c, 0x4e, 0xee], [0x67, 0x1d, 0x9d, 0x0d], [0x4d, 0xe3, 0xb1, 0x38], [0xd6, 0x5f, 0x58, 0xe7])
  const S4 := Quad([0xe0, 0x92, 0x7f, 0xe8], [0xc8, 0x63, 0x63, 0xc0], [0xd9, 0xb1, 0x35, 0x50], [0x85, 0xb8, 0xbe, 0x01])
  const S5 := Quad([0xf1, 0x00, 0x6f, 0x55], [0xc1, 0x92, 0x4c, 0xef], [0x7c, 0xc8, 0x8b, 0x32], [0x5d, 0xb5, 0xd5, 0x0c])
  const S6 := Quad([0x26, 0x0e, 0x2e, 0x17], [0x3d, 0x41, 0xb7, 0x7d], [0xe8, 0x64, 0x72, 0xa9], [0xfd, 0xd2, 0x8b, 0x25])
  const S7 := Quad([0x5a, 0x41, 0x42, 0xb1], [0x19, 0x49, 0xdc, 0x1f], [0xa3, 0xe0, 0x19, 0x65], [0x7a, 0x8c, 0x04, 0x0c])
  const S8 := Quad([0xea, 0x83, 0x5c, 0xf0], [0x04, 0x45, 0x33, 0x2d], [0x65, 0x5d, 0x98, 0xad], [0x85, 0x96, 0xb0, 0xc5])
  const S9 := Quad([0xeb, 0x40, 0xf2, 0x1e], [0x59, 0x2e, 0x38, 0x84], [0x8b, 0xa1, 0x13, 0xe7], [0x1b, 0xc3, 0x42, 0xd2])
  const S10 := Quad([0x39, 0x25, 0x84, 0x1d], [0x02, 0xdc, 0x09, 0xfb], [0xdc, 0x11, 0x85, 0x97], [0x19, 0x6a, 0x0b, 0x32])

  // the state after ShiftRows in each round
  const U1 := Quad([0xd4, 0xbf, 0x5d, 0x30], [0xe0, 0xb4, 0x52, 0xae], [0xb8, 0x41, 0x11, 0xf1], [0x1e, 0x27, 0x98, 0xe5])
  const U2 := Quad([0x49, 0xdb, 0x87, 0x3b], [0x45, 0x39, 0x53, 0x89], [0x7f, 0x02, 0xd2, 0xf1], [0x77, 0xde, 0x96, 0x1a])
  const U3 := Quad([0xac, 0xc1, 0xd6, 0xb8], [0xef, 0xb5, 0x5a, 0x7b], [0x13, 0x23, 0xcf, 0xdf], [0x45, 0x73, 0x11, 0xb5])
  const U4 := Quad([0x52, 0xa4, 0xc8, 0x94], [0x85, 0x11, 0x6a, 0x28], [0xe3, 0xcf, 0x2f, 0xd7], [0xf6, 0x50, 0x5e, 0x07])
  const U5 := Quad([0xe1, 0xfb, 0x96, 0x7c], [0xe8, 0xc8, 0xae, 0x9b], [0x35, 0x6c, 0xd2, 0xba], [0x97, 0x4f, 0xfb, 0x53])
  const U6 := Quad([0xa1, 0x4f, 0x3d, 0xfe], [0x78, 0xe8, 0x03, 0xfc], [0x10, 0xd5, 0xa8, 0xdf], [0x4c, 0x63, 0x29, 0x23])
  const U7 := Quad([0xf7, 0x83, 0x40, 0x3f], [0x27, 0x43, 0x3d, 0xf0], [0x9b, 0xb5, 0x31, 0xff], [0x54, 0xab, 0xa9, 0xd3])
  const U8 := Quad([0xbe, 0x3b, 0xd4, 0xfe], [0xd4, 0xe1, 0xf2, 0xc8], [0x0a, 0x64, 0x2c, 0xc0], [0xda, 0x83, 0x86, 0x4d])
  const U9 := Quad([0x87, 0x6e, 0x46, 0xa6], [0xf2, 0x4c, 0xe7, 0x8c], [0x4d, 0x90, 0x4a, 0xd8], [0x97, 0xec, 0xc3, 0x95])
  const U10 := Quad([0xe9, 0x31, 0x7d, 0xb5], [0xcb, 0x32, 0x2c, 0x72], [0x3d, 0x2e, 0x89, 0x5f], [0xaf, 0x09, 0x07, 0x94])

  // ---------------------------------------------------------------- the tables as parameters

  type Table = bv8 -> bv8
  type Mixer = (bv8, bv8, bv8, bv8) -> bv8

  ghost predicate IsTable(f: Table) { forall x {:trigger Sbox(x)} :: f(x) == Sbox(x) }

  ghost predicate IsMixer(g: Mixer) { forall x, y, z, w {:trigger Mixed(x, y, z, w)} :: g(x, y, z, w) == Mixed(x, y, z, w) }

  lemma Tables() returns (f: Table, g: Mixer)
    ensures IsTable(f) && IsMixer(g)
  {
    f, g := Sbox, Mixed;
  }

  lemma TableAt(f: Table, w: Bytes)
    requires IsTable(f) && IsWord(w)
    ensures f(w[0]) == Sbox(w[0]) && f(w[1]) == Sbox(w[1]) && f(w[2]) == Sbox(w[2]) && f(w[3]) == Sbox(w[3])
  {
  }

  lemma TableOn(f: Table, q: Quad)
    requires IsTable(f) && AreWords(q)
    ensures f(q.a[0]) == Sbox(q.a[0]) && f(q.a[1]) == Sbox(q.a[1]) && f(q.a[2]) == Sbox(q.a[2]) && f(q.a[3]) == Sbox(q.a[3])
    ensures f(q.b[0]) == Sbox(q.b[0]) && f(q.b[1]) == Sbox(q.b[1]) && f(q.b[2]) == Sbox(q.b[2]) && f(q.b[3]) == Sbox(q.b[3])
    ensures f(q.c[0]) == Sbox(q.c[0]) && f(q.c[1]) == Sbox(q.c[1]) && f(q.c[2]) == Sbox(q.c[2]) && f(q.c[3]) == Sbox(q.c[3])
    ensures f(q.d[0]) == Sbox(q.d[0]) && f(q.d[1]) == Sbox(q.d[1]) && f(q.d[2]) == Sbox(q.d[2]) && f(q.d[3]) == Sbox(q.d[3])
  {
    TableAt(f, q.a);
    TableAt(f, q.b);
    TableAt(f, q.c);
    TableAt(f, q.d);
  }

  /** A column through MixColumns. */
  function ColumnBy(g: Mixer, u: Bytes): (r: Bytes)
    requires IsWord(u)
    ensures IsWord(r)
  {
    [g(u[0], u[1], u[2], u[3]), g(u[1], u[2], u[3], u[0]), g(u[2], u[3], u[0], u[1]), g(u[3], u[0], u[1], u[2])]
  }

  lemma MixerAt(g: Mixer, u: Bytes)
    requires IsMixer(g) && IsWord(u)
    ensures ColumnBy(g, u) == ColumnBy(Mixed, u)
  {
  }

  lemma MixerOn(g: Mixer, q: Quad)
    requires IsMixer(g) && AreWords(q)
    ensures ColumnBy(g, q.a) == ColumnBy(Mixed, q.a) && ColumnBy(g, q.b) == ColumnBy(Mixed, q.b)
    ensures ColumnBy(g, q.c) == ColumnBy(Mixed, q.c) && ColumnBy(g, q.d) == ColumnBy(Mixed, q.d)
  {
    MixerAt(g, q.a);
    MixerAt(g, q.b);
    MixerAt(g, q.c);
    MixerAt(g, q.d);
  }

  // ---------------------------------------------------------------- appendix A.1

  /** Words i to i+3. */
  predicate Four(w: seq<Bytes>, i: nat, q: Quad) {
    i + 3 < |w| && w[i] == q.a && w[i + 1] == q.b && w[i + 2] == q.c && w[i + 3] == q.d
  }

  ghost predicate Grows(f: Table, w: seq<Bytes>) {
    |w| == 44 && (forall i :: 0 <= i < 44 ==> IsWord(w[i])) && (forall i :: 4 <= i < 44 ==> Grown(f, w, i))
  }

  predicate Grown(f: Table, w: seq<Bytes>, i: nat)
    requires 4 <= i < |w| == 44 && IsWord(w[i - 4]) && IsWord(w[i - 1])
  {
    w[i] == Sum(w[i - 4], StirredBy(f, w[i - 1], i))
  }

  lemma StirredIs(f: Table, w: Bytes, i: nat)
    requires IsTable(f) && IsWord(w) && 4 <= i < 44
    ensures Stirred(w, i) == StirredBy(f, w, i)
  {
    TableAt(f, w);
  }

  lemma WordIs(key: Bytes, i: nat)
    requires IsBlock(key) && 4 <= i < 44
    ensures Word(key, i) == Sum(Word(key, i - 4), Stirred(Word(key, i - 1), i))
  {
  }

  /** All words of the expanded key. */
  ghost predicate IsExpansion(key: Bytes, w: seq<Bytes>) {
    IsBlock(key) && |w| == 44 && forall i :: 0 <= i < 44 ==> w[i] == Word(key, i)
  }

  lemma ExpansionGrows(f: Table, key: Bytes, w: seq<Bytes>)
    requires IsTable(f) && IsExpansion(key, w)
    ensures Grows(f, w)
  {
    forall i | 4 <= i < 44 ensures Grown(f, w, i) {
      WordIs(key, i);
      StirredIs(f, w[i - 1], i);
    }
  }

  predicate KeyFollows(f: Table, k: Quad, l: Quad, i: nat) {
    && AreWords(k) && AreWords(l) && 4 <= i < 44
    && l.a == Sum(k.a, StirredBy(f, k.d, i)) && l.b == Sum(k.b, l.a) && l.c == Sum(k.c, l.b) && l.d == Sum(k.d, l.c)
  }

  /** Words that are no multiple of four are only added. */
  lemma PlainGrown(f: Table, w: seq<Bytes>, i: nat)
    requires Grows(f, w) && 4 <= i < 44 && i % 4 != 0
    ensures w[i] == Sum(w[i - 4], w[i - 1])
  {
    assert Grown(f, w, i);
  }

  lemma NextKeys(f: Table, w: seq<Bytes>, i: nat, k: Quad, l: Quad)
    requires Grows(f, w) && Four(w, i, k) && i + 7 < 44 && i % 4 == 0 && KeyFollows(f, k, l, i + 4)
    ensures Four(w, i + 4, l)
  {
    assert Grown(f, w, i + 4);
    PlainGrown(f, w, i + 5);
    PlainGrown(f, w, i + 6);
    PlainGrown(f, w, i + 7);
  }

  lemma Key1(f: Table)
    requires IsTable(f)
    ensures KeyFollows(f, K0, K1, 4)
  {
    TableAt(f, K0.d);
  }

  lemma Key2(f: Table)
    requires IsTable(f)
    ensures KeyFollows(f, K1, K2, 8)
  {
    TableAt(f, K1.d);
  }

  lemma Key3(f: Table)
    requires IsTable(f)
    ensures KeyFollows(f, K2, K3, 12)
  {
    TableAt(f, K2.d);
  }

  lemma Key4(f: Table)
    requires IsTable(f)
    ensures KeyFollows(f, K3, K4, 16)
  {
    TableAt(f, K3.d);
  }

  lemma Key5(f: Table)
    requires IsTable(f)
    ensures KeyFollows(f, K4, K5, 20)
  {
    TableAt(f, K4.d);
  }

  lemma Key6(f: Table)
    requires IsTable(f)
    ensures KeyFollows(f, K5, K6, 24)
  {
    TableAt(f, K5.d);
  }

  lemma Key7(f: Table)
    requires IsTable(f)
    ensures KeyFollows(f, K6, K7, 28)
  {
    TableAt(f, K6.d);
  }

  lemma Key8(f: Table)
    requires IsTable(f)
    ensures KeyFollows(f, K7, K8, 32)
  {
    TableAt(f, K7.d);
  }

  lemma Key9(f: Table)
    requires IsTable(f)
    ensures KeyFollows(f, K8, K9, 36)
  {
    TableAt(f, K8.d);
  }

  lemma Key10(f: Table)
    requires IsTable(f)
    ensures KeyFollows(f, K9, K10, 40)
  {
    TableAt(f, K9.d);
  }

  // ---------------------------------------------------------------- appendix B

  /** A state as its four columns. */
  predicate Words(s: Bytes, q: Quad) {
    && |s| == 16 && AreWords(q)
    && forall j :: 0 <= j < 4 ==> s[j] == q.a[j] && s[4 + j] == q.b[j] && s[8 + j] == q.c[j] && s[12 + j] == q.d[j]
  }

  lemma AllBytes(t: Bytes, q: Quad)
    requires Words(t, q)
    ensures t[0] == q.a[0] && t[1] == q.a[1] && t[2] == q.a[2] && t[3] == q.a[3]
    ensures t[4] == q.b[0] && t[5] == q.b[1] && t[6] == q.b[2] && t[7] == q.b[3]
    ensures t[8] == q.c[0] && t[9] == q.c[1] && t[10] == q.c[2] && t[11] == q.c[3]
    ensures t[12] == q.d[0] && t[13] == q.d[1] && t[14] == q.d[2] && t[15] == q.d[3]
  {
    assert t[4 + 0] == q.b[0] && t[8 + 0] == q.c[0] && t[12 + 0] == q.d[0];
  }

  lemma FromBytes(t: Bytes, q: Quad)
    requires |t| == 16 && AreWords(q)
    requires t[0] == q.a[0] && t[1] == q.a[1] && t[2] == q.a[2] && t[3] == q.a[3]
    requires t[4] == q.b[0] && t[5] == q.b[1] && t[6] == q.b[2] && t[7] == q.b[3]
    requires t[8] == q.c[0] && t[9] == q.c[1] && t[10] == q.c[2] && t[11] == q.c[3]
    requires t[12] == q.d[0] && t[13] == q.d[1] && t[14] == q.d[2] && t[15] == q.d[3]
    ensures Words(t, q)
  {
  }

  /** The four words of round key r. */
  predicate Keys(rk: Bytes, r: nat, k: Quad) {
    Holds(rk, 4 * r, k.a) && Holds(rk, 4 * r + 1, k.b) && Holds(rk, 4 * r + 2, k.c) && Holds(rk, 4 * r + 3, k.d)
  }

  /** The sum of a state and a round key. */
  predicate SumFollows(s: Quad, k: Quad, t: Quad) {
    && AreWords(s) && AreWords(k)
    && t.a == Sum(s.a, k.a) && t.b == Sum(s.b, k.b) && t.c == Sum(s.c, k.c) && t.d == Sum(s.d, k.d)
  }

  lemma KeyedByte(s: Bytes, rk: Bytes, r: nat, c: nat, j: nat, k: Bytes)
    requires IsBlock(s) && IsSchedule(rk) && r <= Nr && c < 4 && j < 4 && Holds(rk, 4 * r + c, k)
    ensures WithRoundKey(s, r, rk)[4 * c + j] == Add(s[4 * c + j], k[j])
  {
    assert 4 * (4 * r + c) + j == 16 * r + (4 * c + j);
  }

  lemma KeyedColumn(s: Bytes, rk: Bytes, r: nat, c: nat, q: Bytes, k: Bytes, t: Bytes)
    requires IsBlock(s) && IsSchedule(rk) && r <= Nr && c < 4 && IsWord(q) && Holds(rk, 4 * r + c, k) && t == Sum(q, k)
    requires forall j :: 0 <= j < 4 ==> s[4 * c + j] == q[j]
    ensures forall j :: 0 <= j < 4 ==> WithRoundKey(s, r, rk)[4 * c + j] == t[j]
  {
    forall j | 0 <= j < 4 ensures WithRoundKey(s, r, rk)[4 * c + j] == t[j] {
      KeyedByte(s, rk, r, c, j, k);
    }
  }

  lemma Keyed(s: Bytes, rk: Bytes, r: nat, q: Quad, k: Quad, t: Quad)
    requires Words(s, q) && IsSchedule(rk) && r <= Nr && Keys(rk, r, k) && SumFollows(q, k, t)
    ensures Words(WithRoundKey(s, r, rk), t)
  {
    KeyedColumn(s, rk, r, 0, q.a, k.a, t.a);
    KeyedColumn(s, rk, r, 1, q.b, k.b, t.b);
    KeyedColumn(s, rk, r, 2, q.c, k.c, t.c);
    KeyedColumn(s, rk, r, 3, q.d, k.d, t.d);
  }

  /** u is s after SubBytes and ShiftRows. */
  predicate SubFollows(f: Table, s: Quad, u: Quad) {
    && AreWords(s)
    && u.a == [f(s.a[0]), f(s.b[1]), f(s.c[2]), f(s.d[3])] && u.b == [f(s.b[0]), f(s.c[1]), f(s.d[2]), f(s.a[3])]
    && u.c == [f(s.c[0]), f(s.d[1]), f(s.a[2]), f(s.b[3])] && u.d == [f(s.d[0]), f(s.a[1]), f(s.b[2]), f(s.c[3])]
  }

  function SubBy(f: Table, s: Bytes): (r: Bytes)
    requires IsBlock(s)
    ensures IsBlock(r)
  {
    seq(16, k requires 0 <= k < 16 => f(s[k]))
  }

  lemma SubIs(f: Table, s: Bytes)
    requires IsTable(f) && IsBlock(s)
    ensures Substituted(s) == SubBy(f, s)
  {
    forall k | 0 <= k < 16 ensures Substituted(s)[k] == SubBy(f, s)[k] {
      TableAt(f, [s[k], s[k], s[k], s[k]]);
    }
  }

  lemma ShiftedBytes(t: Bytes)
    requires IsBlock(t)
    ensures var u := Shifted(t);
      && u[0] == t[0] && u[1] == t[5] && u[2] == t[10] && u[3] == t[15]
      && u[4] == t[4] && u[5] == t[9] && u[6] == t[14] && u[7] == t[3]
      && u[8] == t[8] && u[9] == t[13] && u[10] == t[2] && u[11] == t[7]
      && u[12] == t[12] && u[13] == t[1] && u[14] == t[6] && u[15] == t[11]
  {
    LeftIs();
  }

  lemma SubShifted(f: Table, s: Bytes, q: Quad, u: Quad)
    requires Words(s, q) && SubFollows(f, q, u)
    ensures Words(Shifted(SubBy(f, s)), u)
  {
    AllBytes(s, q);
    ShiftedBytes(SubBy(f, s));
    FromBytes(Shifted(SubBy(f, s)), u);
  }

  function MixBy(g: Mixer, u: Quad): Quad
    requires AreWords(u)
  {
    Quad(ColumnBy(g, u.a), ColumnBy(g, u.b), ColumnBy(g, u.c), ColumnBy(g, u.d))
  }

  /** t is u after MixColumns and the round key k. */
  predicate MixFollows(g: Mixer, u: Quad, k: Quad, t: Quad) { AreWords(u) && SumFollows(MixBy(g, u), k, t) }

  lemma MixedByte(t: Bytes, c: nat, j: nat)
    requires IsBlock(t) && c < 4 && j < 4
    ensures MixedColumns(t)[4 * c + j] == MixedColumn(t, 4 * c)[j]
  {
    var k := 4 * c + j;
    assert k - k % 4 == 4 * c && k % 4 == j;
  }

  lemma MixedWord(g: Mixer, t: Bytes, c: nat, u: Bytes)
    requires IsMixer(g) && IsBlock(t) && c < 4 && IsWord(u) && (forall j :: 0 <= j < 4 ==> t[4 * c + j] == u[j])
    ensures forall j :: 0 <= j < 4 ==> MixedColumns(t)[4 * c + j] == ColumnBy(g, u)[j]
  {
    assert t[4 * c + 0] == u[0];
    MixerAt(g, u);
    forall j | 0 <= j < 4 ensures MixedColumns(t)[4 * c + j] == ColumnBy(g, u)[j] {
      MixedByte(t, c, j);
    }
  }

  lemma MixedWords(g: Mixer, t: Bytes, u: Quad)
    requires IsMixer(g) && Words(t, u)
    ensures Words(MixedColumns(t), MixBy(g, u))
  {
    MixedWord(g, t, 0, u.a);
    MixedWord(g, t, 1, u.b);
    MixedWord(g, t, 2, u.c);
    MixedWord(g, t, 3, u.d);
  }

  /** The state before each round but the first, which only adds the round key. */
  ghost predicate Runs(x: seq<Bytes>, rk: Bytes) {
    && IsSchedule(rk) && |x| == Nr && (forall r :: 0 <= r < Nr ==> IsBlock(x[r]))
    && forall r :: 0 <= r < Nr - 1 ==> Steps(x[r], x[r + 1], rk, r + 1)
  }

  predicate Steps(b: Bytes, c: Bytes, rk: Bytes, r: nat)
    requires IsBlock(b) && IsSchedule(rk) && r < Nr
  {
    c == WithRoundKey(MixedColumns(Shifted(Substituted(b))), r, rk)
  }

  lemma {:induction false} RoundsRun(s: Bytes, rk: Bytes, x: seq<Bytes>)
    requires IsBlock(s) && IsSchedule(rk) && |x| == Nr && forall r :: 0 <= r < Nr ==> x[r] == Rounds(s, rk, r)
    ensures Runs(x, rk)
  {
    forall r | 0 <= r < Nr - 1 ensures Steps(x[r], x[r + 1], rk, r + 1) {
      RoundIs(s, rk, r);
    }
  }

  lemma RoundIs(s: Bytes, rk: Bytes, r: nat)
    requires IsBlock(s) && IsSchedule(rk) && r + 1 < Nr
    ensures Steps(Rounds(s, rk, r), Rounds(s, rk, r + 1), rk, r + 1)
  {
  }

  /** What the example is about: the words of a key with its schedule, and the states of the rounds. */
  ghost predicate Base(f: Table, g: Mixer, w: seq<Bytes>, x: seq<Bytes>, rk: Bytes) {
    && IsTable(f) && IsMixer(g) && Grows(f, w) && Runs(x, rk)
    && forall m :: 0 <= m < 44 ==> Holds(rk, m, w[m])
  }

  /** The key k and the state q of round r. */
  predicate Reached(w: seq<Bytes>, x: seq<Bytes>, r: nat, k: Quad, q: Quad) { Four(w, 4 * r, k) && r < |x| && Words(x[r], q) }

  lemma NextKey(f: Table, g: Mixer, w: seq<Bytes>, x: seq<Bytes>, rk: Bytes, r: nat, k: Quad, l: Quad)
    requires Base(f, g, w, x, rk) && r < Nr && Four(w, 4 * r, k) && KeyFollows(f, k, l, 4 * r + 4)
    ensures Four(w, 4 * r + 4, l) && Keys(rk, r + 1, l)
  {
    var i := 4 * r + 4;
    NextKeys(f, w, 4 * r, k, l);
    assert Holds(rk, i, w[i]) && Holds(rk, i + 1, w[i + 1]) && Holds(rk, i + 2, w[i + 2]) && Holds(rk, i + 3, w[i + 3]);
  }

  lemma Substitution(f: Table, b: Bytes, q: Quad, u: Quad) returns (y: Bytes)
    requires IsTable(f) && Words(b, q) && SubFollows(f, q, u)
    ensures y == Shifted(Substituted(b)) && Words(y, u)
  {
    SubIs(f, b);
    SubShifted(f, b, q, u);
    y := Shifted(SubBy(f, b));
  }

  lemma Mixing(g: Mixer, y: Bytes, rk: Bytes, r: nat, u: Quad, l: Quad, t: Quad)
    requires IsMixer(g) && Words(y, u) && IsSchedule(rk) && r <= Nr && Keys(rk, r, l) && MixFollows(g, u, l, t)
    ensures Words(WithRoundKey(MixedColumns(y), r, rk), t)
  {
    MixedWords(g, y, u);
    Keyed(MixedColumns(y), rk, r, MixBy(g, u), l, t);
  }

  lemma NextState(f: Table, g: Mixer, b: Bytes, c: Bytes, rk: Bytes, r: nat, q: Quad, u: Quad, l: Quad, t: Quad)
    requires IsTable(f) && IsMixer(g) && IsSchedule(rk) && r < Nr && Words(b, q) && Steps(b, c, rk, r)
    requires SubFollows(f, q, u) && MixFollows(g, u, l, t) && Keys(rk, r, l)
    ensures Words(c, t)
  {
    var y := Substitution(f, b, q, u);
    Mixing(g, y, rk, r, u, l, t);
  }

  lemma NextRound(f: Table, g: Mixer, w: seq<Bytes>, x: seq<Bytes>, rk: Bytes, r: nat, k: Quad, l: Quad, q: Quad, u: Quad, t: Quad)
    requires Base(f, g, w, x, rk) && r + 1 < Nr && Reached(w, x, r, k, q)
    requires KeyFollows(f, k, l, 4 * r + 4) && SubFollows(f, q, u) && MixFollows(g, u, l, t)
    ensures Reached(w, x, r + 1, l, t)
  {
    NextKey(f, g, w, x, rk, r, k, l);
    NextState(f, g, x[r], x[r + 1], rk, r + 1, q, u, l, t);
  }

  lemma LastRound(f: Table, g: Mixer, w: seq<Bytes>, x: seq<Bytes>, rk: Bytes, r: nat, k: Quad, l: Quad, q: Quad, u: Quad, t: Quad)
    requires Base(f, g, w, x, rk) && r + 1 == Nr && Reached(w, x, r, k, q)
    requires KeyFollows(f, k, l, 4 * r + 4) && SubFollows(f, q, u) && SumFollows(u, l, t)
    ensures Four(w, 4 * r + 4, l) && Words(WithRoundKey(Shifted(Substituted(x[r])), r + 1, rk), t)
  {
    NextKey(f, g, w, x, rk, r, k, l);
    var y := Substitution(f, x[r], q, u);
    Keyed(y, rk, r + 1, u, l, t);
  }

  lemma Sub1(f: Table)
    requires IsTable(f)
    ensures SubFollows(f, S0, U1)
  {
    TableOn(f, S0);
  }

  lemma Sub2(f: Table)
    requires IsTable(f)
    ensures SubFollows(f, S1, U2)
  {
    TableOn(f, S1);
  }

  lemma Sub3(f: Table)
    requires IsTable(f)
    ensures SubFollows(f, S2, U3)
  {
    TableOn(f, S2);
  }

  lemma Sub4(f: Table)
    requires IsTable(f)
    ensures SubFollows(f, S3, U4)
  {
    TableOn(f, S3);
  }

  lemma Sub5(f: Table)
    requires IsTable(f)
    ensures SubFollows(f, S4, U5)
  {
    TableOn(f, S4);
  }

  lemma Sub6(f: Table)
    requires IsTable(f)
    ensures SubFollows(f, S5, U6)
  {
    TableOn(f, S5);
  }

  lemma Sub7(f: Table)
    requires IsTable(f)
    ensures SubFollows(f, S6, U7)
  {
    TableOn(f, S6);
  }

  lemma Sub8(f: Table)
    requires IsTable(f)
    ensures SubFollows(f, S7, U8)
  {
    TableOn(f, S7);
  }

  lemma Sub9(f: Table)
    requires IsTable(f)
    ensures SubFollows(f, S8, U9)
  {
    TableOn(f, S8);
  }

  lemma Sub10(f: Table)
    requires IsTable(f)
    ensures SubFollows(f, S9, U10)
  {
    TableOn(f, S9);
  }

  lemma Mix1(g: Mixer)
    requires IsMixer(g)
    ensures MixFollows(g, U1, K1, S1)
  {
    MixerOn(g, U1);
  }

  lemma Mix2(g: Mixer)
    requires IsMixer(g)
    ensures MixFollows(g, U2, K2, S2)
  {
    MixerOn(g, U2);
  }

  lemma Mix3(g: Mixer)
    requires IsMixer(g)
    ensures MixFollows(g, U3, K3, S3)
  {
    MixerOn(g, U3);
  }

  lemma Mix4(g: Mixer)
    requires IsMixer(g)
    ensures MixFollows(g, U4, K4, S4)
  {
    MixerOn(g, U4);
  }

  lemma Mix5(g: Mixer)
    requires IsMixer(g)
    ensures MixFollows(g, U5, K5, S5)
  {
    MixerOn(g, U5);
  }

  lemma Mix6(g: Mixer)
    requires IsMixer(g)
    ensures MixFollows(g, U6, K6, S6)
  {
    MixerOn(g, U6);
  }

  lemma Mix7(g: Mixer)
    requires IsMixer(g)
    ensures MixFollows(g, U7, K7, S7)
  {
    MixerOn(g, U7);
  }

  lemma Mix8(g: Mixer)
    requires IsMixer(g)
    ensures MixFollows(g, U8, K8, S8)
  {
    MixerOn(g, U8);
  }

  lemma Mix9(g: Mixer)
    requires IsMixer(g)
    ensures MixFollows(g, U9, K9, S9)
  {
    MixerOn(g, U9);
  }

  lemma Start()
    ensures SumFollows(PLAIN, K0, S0)
  {
  }

  lemma Finish()
    ensures SumFollows(U10, K10, S10)
  {
  }

  lemma Round1(f: Table, g: Mixer, w: seq<Bytes>, x: seq<Bytes>, rk: Bytes)
    requires Base(f, g, w, x, rk) && Reached(w, x, 0, K0, S0)
    ensures Reached(w, x, 1, K1, S1)
  {
    Key1(f);
    Sub1(f);
    Mix1(g);
    NextRound(f, g, w, x, rk, 0, K0, K1, S0, U1, S1);
  }

  lemma Round2(f: Table, g: Mixer, w: seq<Bytes>, x: seq<Bytes>, rk: Bytes)
    requires Base(f, g, w, x, rk) && Reached(w, x, 0, K0, S0)
    ensures Reached(w, x, 2, K2, S2)
  {
    Round1(f, g, w, x, rk);
    Key2(f);
    Sub2(f);
    Mix2(g);
    NextRound(f, g, w, x, rk, 1, K1, K2, S1, U2, S2);
  }

  lemma Round3(f: Table, g: Mixer, w: seq<Bytes>, x: seq<Bytes>, rk: Bytes)
    requires Base(f, g, w, x, rk) && Reached(w, x, 0, K0, S0)
    ensures Reached(w, x, 3, K3, S3)
  {
    Round2(f, g, w, x, rk);
    Key3(f);
    Sub3(f);
    Mix3(g);
    NextRound(f, g, w, x, rk, 2, K2, K3, S2, U3, S3);
  }

  lemma Round4(f: Table, g: Mixer, w: seq<Bytes>, x: seq<Bytes>, rk: Bytes)
    requires Base(f, g, w, x, rk) && Reached(w, x, 0, K0, S0)
    ensures Reached(w, x, 4, K4, S4)
  {
    Round3(f, g, w, x, rk);
    Key4(f);
    Sub4(f);
    Mix4(g);
    NextRound(f, g, w, x, rk, 3, K3, K4, S3, U4, S4);
  }

  lemma Round5(f: Table, g: Mixer, w: seq<Bytes>, x: seq<Bytes>, rk: Bytes)
    requires Base(f, g, w, x, rk) && Reached(w, x, 0, K0, S0)
    ensures Reached(w, x, 5, K5, S5)
  {
    Round4(f, g, w, x, rk);
    Key5(f);
    Sub5(f);
    Mix5(g);
    NextRound(f, g, w, x, rk, 4, K4, K5, S4, U5, S5);
  }

  lemma Round6(f: Table, g: Mixer, w: seq<Bytes>, x: seq<Bytes>, rk: Bytes)
    requires Base(f, g, w, x, rk) && Reached(w, x, 0, K0, S0)
    ensures Reached(w, x, 6, K6, S6)
  {
    Round5(f, g, w, x, rk);
    Key6(f);
    Sub6(f);
    Mix6(g);
    NextRound(f, g, w, x, rk, 5, K5, K6, S5, U6, S6);
  }

  lemma Round7(f: Table, g: Mixer, w: seq<Bytes>, x: seq<Bytes>, rk: Bytes)
    requires Base(f, g, w, x, rk) && Reached(w, x, 0, K0, S0)
    ensures Reached(w, x, 7, K7, S7)
  {
    Round6(f, g, w, x, rk);
    Key7(f);
    Sub7(f);
    Mix7(g);
    NextRound(f, g, w, x, rk, 6, K6, K7, S6, U7, S7);
  }

  lemma Round8(f: Table, g: Mixer, w: seq<Bytes>, x: seq<Bytes>, rk: Bytes)
    requires Base(f, g, w, x, rk) && Reached(w, x, 0, K0, S0)
    ensures Reached(w, x, 8, K8, S8)
  {
    Round7(f, g, w, x, rk);
    Key8(f);
    Sub8(f);
    Mix8(g);
    NextRound(f, g, w, x, rk, 7, K7, K8, S7, U8, S8);
  }

  lemma Round9(f: Table, g: Mixer, w: seq<Bytes>, x: seq<Bytes>, rk: Bytes)
    requires Base(f, g, w, x, rk) && Reached(w, x, 0, K0, S0)
    ensures Reached(w, x, 9, K9, S9)
  {
    Round8(f, g, w, x, rk);
    Key9(f);
    Sub9(f);
    Mix9(g);
    NextRound(f, g, w, x, rk, 8, K8, K9, S8, U9, S9);
  }

  lemma Round10(f: Table, g: Mixer, w: seq<Bytes>, x: seq<Bytes>, rk: Bytes)
    requires Base(f, g, w, x, rk) && Reached(w, x, 0, K0, S0)
    ensures Four(w, 40, K10) && Words(WithRoundKey(Shifted(Substituted(x[9])), 10, rk), S10)
  {
    Round9(f, g, w, x, rk);
    Key10(f);
    Sub10(f);
    Finish();
    LastRound(f, g, w, x, rk, 9, K9, K10, S9, U10, S10);
  }

  lemma ScheduleHolds(key: Bytes, w: seq<Bytes>, rk: Bytes)
    requires IsExpansion(key, w) && Expanded(rk, key, 44)
    ensures forall m :: 0 <= m < 44 ==> Holds(rk, m, w[m])
  {
  }

  lemma BaseHolds(key: Bytes, w: seq<Bytes>, s: Bytes, x: seq<Bytes>, rk: Bytes) returns (f: Table, g: Mixer)
    requires IsExpansion(key, w) && IsBlock(s) && IsSchedule(rk) && Expanded(rk, key, 44)
    requires |x| == Nr && forall r :: 0 <= r < Nr ==> x[r] == Rounds(s, rk, r)
    ensures Base(f, g, w, x, rk)
  {
    f, g := Tables();
    ExpansionGrows(f, key, w);
    ScheduleHolds(key, w, rk);
    RoundsRun(s, rk, x);
  }

  lemma StartHolds(w: seq<Bytes>, s: Bytes, x0: Bytes, rk: Bytes)
    requires |w| == 44 && IsSchedule(rk) && Four(w, 0, K0) && Words(s, PLAIN) && x0 == WithRoundKey(s, 0, rk)
    requires forall m :: 0 <= m < 44 ==> Holds(rk, m, w[m])
    ensures Words(x0, S0)
  {
    Start();
    assert Holds(rk, 0, w[0]) && Holds(rk, 1, w[1]) && Holds(rk, 2, w[2]) && Holds(rk, 3, w[3]);
    Keyed(s, rk, 0, PLAIN, K0, S0);
  }

  /** The cipher key of appendix A.1 gives its last round key, and the input of
      appendix B gives its output. */
  lemma {:induction false} Example(key: Bytes, w: seq<Bytes>, s: Bytes, x: seq<Bytes>, rk: Bytes)
    requires IsExpansion(key, w) && IsSchedule(rk) && Expanded(rk, key, 44) && Four(w, 0, K0) && Words(s, PLAIN)
    requires |x| == Nr && forall r :: 0 <= r < Nr ==> x[r] == Rounds(s, rk, r)
    ensures Four(w, 40, K10) && Words(Encrypted(s, rk), S10)
  {
    var f, g := BaseHolds(key, w, s, x, rk);
    StartHolds(w, s, x[0], rk);
    Round10(f, g, w, x, rk);
  }
}
