/**
 The CTR mode (section 6.5 of NIST SP 800-38A) over any block cipher: byte k is masked with byte
 k mod 16 of the encryption of counter k / 16, and the counters are
 consecutive 128-bit big-endian numbers (appendix B.1).
 */
module AesCounter {
  import opened AesField
  import opened AesCipher
  import opened AesChain

  // ---------------------------------------------------------------- the counter

  /** A byte string as a big-endian number. */
  function Value(v: Bytes): nat {
    if v == [] then 0 else Value(v[..|v| - 1]) * 256 + v[|v| - 1] as int
  }

  function Power(n: nat): (p: nat)
    ensures p > 0
  {
    if n == 0 then 1 else 256 * Power(n - 1)
  }

  /** The carry goes from the last byte to the left, and is lost at the first. */
  function Next(v: Bytes): (r: Bytes)
    ensures |r| == |v|
  {
    if v == [] then []
    else if v[|v| - 1] == 255 then Next(v[..|v| - 1]) + [0]
    else v[..|v| - 1] + [v[|v| - 1] + 1]
  }

  lemma ByteUp(b: bv8)
    requires b != 255
    ensures (b + 1) as int == b as int + 1
  {
  }

  lemma ByteFull(b: bv8)
    ensures b as int < 256
    ensures b == 255 <==> b as int == 255
  {
  }

  lemma {:induction false} ValueOf(v: Bytes, b: bv8)
    ensures Value(v + [b]) == Value(v) * 256 + b as int
  {
    assert (v + [b])[..|v|] == v;
  }

  lemma {:induction false} ValueBounds(v: Bytes)
    ensures Value(v) < Power(|v|)
  {
    if v != [] {
      ValueBounds(v[..|v| - 1]);
      ByteFull(v[|v| - 1]);
    }
  }

  /** Next adds one, modulo 256 to the number of bytes. */
  lemma {:induction false} NextValue(v: Bytes)
    ensures Value(Next(v)) == if Value(v) + 1 == Power(|v|) then 0 else Value(v) + 1
  {
    if v != [] {
      var init, last := v[..|v| - 1], v[|v| - 1];
      ByteFull(last);
      ValueBounds(init);
      if last == 255 {
        NextValue(init);
        ValueOf(Next(init), 0);
      } else {
        ByteUp(last);
        ValueOf(init, last + 1);
      }
    }
  }

  lemma {:induction false} ValueTells(v: Bytes, w: Bytes)
    requires |v| == |w| && Value(v) == Value(w)
    ensures v == w
  {
    if v != [] {
      LastTells(v, w);
      ValueTells(v[..|v| - 1], w[..|w| - 1]);
      Rejoined(v, w);
    }
  }

  lemma Rejoined(v: Bytes, w: Bytes)
    requires |v| == |w| > 0 && v[..|v| - 1] == w[..|w| - 1] && v[|v| - 1] == w[|w| - 1]
    ensures v == w
  {
    assert v == v[..|v| - 1] + [v[|v| - 1]] && w == w[..|w| - 1] + [w[|w| - 1]];
  }

  lemma {:induction false} LastTells(v: Bytes, w: Bytes)
    requires |v| == |w| > 0 && Value(v) == Value(w)
    ensures Value(v[..|v| - 1]) == Value(w[..|w| - 1]) && v[|v| - 1] == w[|w| - 1]
  {
    var p, a := Digits(v);
    var q, b := Digits(w);
    DigitsTell(p, q, a, b);
    SameByte(v[|v| - 1], w[|w| - 1]);
  }

  lemma {:induction false} Digits(v: Bytes) returns (p: nat, a: nat)
    requires v != []
    ensures p == Value(v[..|v| - 1]) && a == v[|v| - 1] as int && a < 256 && Value(v) == p * 256 + a
  {
    ByteFull(v[|v| - 1]);
    p, a := Value(v[..|v| - 1]), v[|v| - 1] as int;
  }

  lemma DigitsTell(p: nat, q: nat, a: nat, b: nat)
    requires p * 256 + a == q * 256 + b && a < 256 && b < 256
    ensures p == q && a == b
  {
  }

  lemma SameByte(a: bv8, b: bv8)
    requires a as int == b as int
    ensures a == b
  {
    assert (a as int) as bv8 == a && (b as int) as bv8 == b;
  }

  // ---------------------------------------------------------------- counters

  function Iterate(f: Bytes -> Bytes, v: Bytes, n: nat): Bytes {
    if n == 0 then v else f(Iterate(f, v, n - 1))
  }

  lemma {:induction false} IterateLength(f: Bytes -> Bytes, v: Bytes, n: nat)
    requires IsCipher(f) && IsBlock(v)
    ensures IsBlock(Iterate(f, v, n))
  {
    if n > 0 {
      IterateLength(f, v, n - 1);
    }
  }

  lemma {:induction false} IterateSum(f: Bytes -> Bytes, v: Bytes, m: nat, n: nat)
    ensures Iterate(f, Iterate(f, v, m), n) == Iterate(f, v, m + n)
  {
    if n > 0 {
      IterateSum(f, v, m, n - 1);
    }
  }

  /** The vector after n blocks. */
  function Counter(iv: Bytes, n: nat): (r: Bytes)
    requires IsBlock(iv)
    ensures IsBlock(r)
  {
    IterateLength(Next, iv, n);
    Iterate(Next, iv, n)
  }

  lemma CounterSum(iv: Bytes, m: nat, n: nat)
    requires IsBlock(iv)
    ensures Counter(Counter(iv, m), n) == Counter(iv, m + n)
  {
    IterateSum(Next, iv, m, n);
  }

  const TWO_TO_128: nat := 0x1_0000_0000_0000_0000_0000_0000_0000_0000

  lemma PowerOfBlock()
    ensures Power(16) == TWO_TO_128
  {
    assert Power(4) == 0x1_0000_0000;
    assert Power(8) == 0x1_0000_0000_0000_0000;
    assert Power(12) == 0x1_0000_0000_0000_0000_0000_0000;
  }

  /** One more, and back to 0 at p. */
  function Up(y: nat, p: nat): nat {
    if y + 1 == p then 0 else y + 1
  }

  lemma Multiple(d: int, p: int)
    requires p > 0
    ensures d >= 1 ==> d * p >= p
    ensures d <= -1 ==> d * p <= -p
  {
  }

  lemma Remainder(q: int, p: int, r: int)
    requires 0 <= r < p
    ensures (q * p + r) % p == r
  {
    var a := q * p + r;
    assert (a / p - q) * p == r - a % p by {
      assert a == a / p * p + a % p;
    }
    Multiple(a / p - q, p);
  }

  lemma UpModulo(x: nat, n: nat, p: nat)
    requires p > 0 && n > 0
    ensures (x + n) % p == Up((x + (n - 1)) % p, p)
  {
    var q, y := (x + (n - 1)) / p, (x + (n - 1)) % p;
    assert x + (n - 1) == q * p + y;
    if y + 1 == p {
      assert x + n == (q + 1) * p + 0;
      Remainder(q + 1, p, 0);
    } else {
      assert x + n == q * p + (y + 1);
      Remainder(q, p, y + 1);
    }
  }

  lemma {:induction false} NextBlock(v: Bytes)
    requires IsBlock(v)
    ensures Value(v) < Power(16)
    ensures Value(Next(v)) == Up(Value(v), Power(16))
  {
    ValueBounds(v);
    NextValue(v);
  }

  /** What f does to val at every block. */
  ghost predicate StepsUp(f: Bytes -> Bytes, val: Bytes -> nat, p: nat) {
    && IsCipher(f)
    && (forall v :: IsBlock(v) ==> val(v) < p)
    && (forall v {:trigger f(v)} :: IsBlock(v) ==> val(f(v)) == Up(val(v), p))
  }

  function Plus(y: nat, n: nat, p: nat): nat {
    if n == 0 then y else Up(Plus(y, n - 1, p), p)
  }

  lemma {:induction false} PlusModulo(y: nat, n: nat, p: nat)
    requires y < p
    ensures Plus(y, n, p) == (y + n) % p
  {
    if n == 0 {
      Remainder(0, p, y);
    } else {
      PlusModulo(y, n - 1, p);
      UpModulo(y, n, p);
    }
  }

  lemma {:induction false} StepsSum(f: Bytes -> Bytes, val: Bytes -> nat, p: nat, v: Bytes, n: nat)
    requires StepsUp(f, val, p) && IsBlock(v)
    ensures val(v) < p && val(Iterate(f, v, n)) == Plus(val(v), n, p)
  {
    if n > 0 {
      StepsSum(f, val, p, v, n - 1);
      IterateLength(f, v, n - 1);
      var w := Iterate(f, v, n - 1);
      assert val(f(w)) == Up(val(w), p);
    }
  }

  lemma BlocksStepUp(p: nat)
    requires p == Power(16)
    ensures StepsUp(Next, Value, p)
  {
    forall v | IsBlock(v) ensures Value(v) < p && Value(Next(v)) == Up(Value(v), p) {
      NextBlock(v);
    }
  }

  lemma BlocksStepUp128()
    ensures StepsUp(Next, Value, TWO_TO_128)
  {
    PowerOfBlock();
    BlocksStepUp(TWO_TO_128);
  }

  /** Block n is keyed by the vector plus n, where Plus counts modulo 2^128. */
  lemma {:induction false} CounterValue(iv: Bytes, n: nat)
    requires IsBlock(iv)
    ensures Value(iv) < TWO_TO_128
    ensures Value(Counter(iv, n)) == Plus(Value(iv), n, TWO_TO_128)
  {
    BlocksStepUp128();
    StepsSum(Next, Value, TWO_TO_128, iv, n);
  }

  lemma Distributes(a: int, b: int, p: int)
    ensures (b - a) * p == b * p - a * p
  {
  }

  lemma Apart(u: nat, w: nat, p: nat)
    requires u < w < u + p
    ensures u % p != w % p
  {
    var a, b := u / p, w / p;
    Distributes(a, b, p);
    Multiple(b - a, p);
  }

  lemma {:induction false} PlusDiffers(x: nat, i: nat, j: nat, p: nat)
    requires x < p && i < j < i + p
    ensures Plus(x, i, p) != Plus(x, j, p)
  {
    PlusModulo(x, i, p);
    PlusModulo(x, j, p);
    Apart(x + i, x + j, p);
  }

  /** No counter is used twice within 2^128 blocks. */
  lemma CountersDiffer(iv: Bytes, i: nat, j: nat)
    requires IsBlock(iv) && i < j < i + TWO_TO_128
    ensures Counter(iv, i) != Counter(iv, j)
  {
    CounterValue(iv, i);
    CounterValue(iv, j);
    PlusDiffers(Value(iv), i, j, TWO_TO_128);
  }

  // ---------------------------------------------------------------- the mask

  ghost function Mask(iv: Bytes, e: Bytes -> Bytes, k: nat): bv8
    requires IsBlock(iv) && IsCipher(e)
  {
    e(Counter(iv, k / 16))[k % 16]
  }

  ghost function Masked(iv: Bytes, s: Bytes, e: Bytes -> Bytes): (r: Bytes)
    requires IsBlock(iv) && IsCipher(e)
    ensures |r| == |s|
  {
    seq(|s|, k requires 0 <= k < |s| => Add(s[k], Mask(iv, e, k)))
  }

  lemma MaskedByte(iv: Bytes, s: Bytes, e: Bytes -> Bytes, k: nat, w: Bytes)
    requires IsBlock(iv) && IsCipher(e) && k < |s| && w == e(Counter(iv, k / 16))
    ensures IsBlock(w) && Masked(iv, s, e)[k] == Add(s[k], w[k % 16])
  {
  }

  /** The same call undoes itself, whatever the length. */
  lemma MaskedTwice(iv: Bytes, s: Bytes, e: Bytes -> Bytes)
    requires IsBlock(iv) && IsCipher(e)
    ensures Masked(iv, Masked(iv, s, e), e) == s
  {
    forall k | 0 <= k < |s| ensures Masked(iv, Masked(iv, s, e), e)[k] == s[k] {
      AddTwice(s[k], Mask(iv, e, k));
    }
  }

  lemma MaskLater(iv: Bytes, e: Bytes -> Bytes, m: nat, k: nat)
    requires IsBlock(iv) && IsCipher(e)
    ensures Mask(Counter(iv, m), e, k) == Mask(iv, e, 16 * m + k)
  {
    CounterSum(iv, m, k / 16);
    assert (16 * m + k) / 16 == m + k / 16 && (16 * m + k) % 16 == k % 16;
  }

  /** Two calls are one call when the first one ends on a whole block. */
  lemma TwoCalls(iv: Bytes, a: Bytes, b: Bytes, e: Bytes -> Bytes)
    requires IsBlock(iv) && IsCipher(e) && |a| % 16 == 0
    ensures Masked(iv, a + b, e) == Masked(iv, a, e) + Masked(Counter(iv, |a| / 16), b, e)
  {
    var l, r := Masked(iv, a + b, e), Masked(iv, a, e) + Masked(Counter(iv, |a| / 16), b, e);
    forall k | 0 <= k < |a| + |b| ensures l[k] == r[k] {
      if k >= |a| {
        MaskLater(iv, e, |a| / 16, k - |a|);
      }
    }
  }
}
