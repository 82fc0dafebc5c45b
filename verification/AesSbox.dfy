/**
 The S-box of section 5.1.1 of FIPS 197: the multiplicative inverse in the
 field of 256 elements, followed by an affine map.
 */
module AesSbox {
  import opened AesTables
  import opened AesField

  /** y times x^k, if bit k of the other factor is set. */
  function Term(bit: bv8, p: bv8): bv8 { if bit != 0 then p else 0 }

  /** Multiplication in the field, all eight bits of the second factor. */
  function Product(x: bv8, y: bv8): bv8 {
    var x1 := Xtime(x);
    var x2 := Xtime(x1);
    var x3 := Xtime(x2);
    var x4 := Xtime(x3);
    var x5 := Xtime(x4);
    var x6 := Xtime(x5);
    var x7 := Xtime(x6);
    Term(y & 0x01, x) ^ Term(y & 0x02, x1) ^ Term(y & 0x04, x2) ^ Term(y & 0x08, x3)
    ^ Term(y & 0x10, x4) ^ Term(y & 0x20, x5) ^ Term(y & 0x40, x6) ^ Term(y & 0x80, x7)
  }

  lemma Bit0(y: bv8, p: bv8)
    ensures (y & 1) * p == Term(y & 0x01, p)
  {
  }

  lemma Bit1(y: bv8, p: bv8)
    ensures ((y >> 1) & 1) * p == Term(y & 0x02, p)
  {
  }

  lemma Bit2(y: bv8, p: bv8)
    ensures ((y >> 2) & 1) * p == Term(y & 0x04, p)
  {
  }

  lemma Bit3(y: bv8, p: bv8)
    ensures ((y >> 3) & 1) * p == Term(y & 0x08, p)
  {
  }

  lemma Bit4(y: bv8, p: bv8)
    ensures ((y >> 4) & 1) * p == Term(y & 0x10, p)
  {
  }

  lemma HighBits(y: bv8)
    requires y < 32
    ensures y & 0x20 == 0 && y & 0x40 == 0 && y & 0x80 == 0
  {
  }

  lemma Xor0(a: bv8)
    ensures a ^ 0 ^ 0 ^ 0 == a
  {
  }

  lemma TermsAre(y: bv8, x: bv8, x1: bv8, x2: bv8, x3: bv8, x4: bv8, x5: bv8, x6: bv8, x7: bv8)
    requires y < 32
    ensures ((y & 1) * x) ^ (((y >> 1) & 1) * x1) ^ (((y >> 2) & 1) * x2) ^ (((y >> 3) & 1) * x3) ^ (((y >> 4) & 1) * x4)
         == Term(y & 0x01, x) ^ Term(y & 0x02, x1) ^ Term(y & 0x04, x2) ^ Term(y & 0x08, x3)
            ^ Term(y & 0x10, x4) ^ Term(y & 0x20, x5) ^ Term(y & 0x40, x6) ^ Term(y & 0x80, x7)
  {
    Bit0(y, x);
    Bit1(y, x1);
    Bit2(y, x2);
    Bit3(y, x3);
    Bit4(y, x4);
    HighBits(y);
    Xor0(Term(y & 0x01, x) ^ Term(y & 0x02, x1) ^ Term(y & 0x04, x2) ^ Term(y & 0x08, x3) ^ Term(y & 0x10, x4));
  }

  /** The Multiply macro is that product for factors of five bits. */
  lemma MultiplyIs(x: bv8, y: bv8)
    requires y < 32
    ensures Multiply(x, y) == Product(x, y)
  {
    var x4 := Xtime(Xtime(Xtime(Xtime(x))));
    var x6 := Xtime(Xtime(x4));
    TermsAre(y, x, Xtime(x), Xtime(Xtime(x)), Xtime(Xtime(Xtime(x))), x4, Xtime(x4), x6, Xtime(x6));
  }

  /** MixColumns in the field: the first row of its matrix, {02} {03} {01} {01}. */
  lemma MixedIs(a: bv8, b: bv8, c: bv8, d: bv8)
    ensures Mixed(a, b, c, d) == Product(a, 2) ^ Product(b, 3) ^ c ^ d
  {
    SmallProducts(a, b);
    MixedBy(a, b, c, d, Product(a, 2), Product(b, 3));
  }

  lemma MixedBy(a: bv8, b: bv8, c: bv8, d: bv8, x: bv8, y: bv8)
    requires x == Xtime(a) && y == Xtime(b) ^ b
    ensures Mixed(a, b, c, d) == x ^ y ^ c ^ d
  {
    XtimeAdd(a, b);
    Rearranged(a, b, c, d, Xtime(a), Xtime(b));
  }

  lemma SmallProducts(a: bv8, b: bv8)
    ensures Product(a, 2) == Xtime(a) && Product(b, 3) == Xtime(b) ^ b
  {
  }

  lemma Rearranged(a: bv8, b: bv8, c: bv8, d: bv8, p: bv8, q: bv8)
    ensures Add(a, Add(Add(p, q), Add4(a, b, c, d))) == p ^ (q ^ b) ^ c ^ d
  {
  }

  /** ... and that of InvMixColumns, {0e} {0b} {0d} {09}. */
  lemma UnmixedIs(a: bv8, b: bv8, c: bv8, d: bv8)
    ensures Unmixed(a, b, c, d) == Product(a, 0x0e) ^ Product(b, 0x0b) ^ Product(c, 0x0d) ^ Product(d, 0x09)
  {
    MultiplyIs(a, 0x0e);
    MultiplyIs(b, 0x0b);
    MultiplyIs(c, 0x0d);
    MultiplyIs(d, 0x09);
  }

  /** The affine map, and the one that undoes it. */
  function Affine(b: bv8): bv8 {
    b ^ ((b << 1) | (b >> 7)) ^ ((b << 2) | (b >> 6)) ^ ((b << 3) | (b >> 5)) ^ ((b << 4) | (b >> 4)) ^ 0x63
  }
  function Unaffine(s: bv8): bv8 {
    ((s << 1) | (s >> 7)) ^ ((s << 3) | (s >> 5)) ^ ((s << 6) | (s >> 2)) ^ 0x05
  }

  lemma AffineUnaffine(s: bv8)
    ensures Affine(Unaffine(s)) == s
  {
  }

  /** y is the inverse of x; 0 stands in for its own. */
  predicate IsInverse(x: bv8, y: bv8) { if x == 0 then y == 0 else Product(x, y) == 1 }

  lemma Row0(x: bv8)
    requires 0x00 <= x <= 0x0f
    ensures IsInverse(x, Unaffine(Sbox(x)))
  {
  }

  lemma Row1(x: bv8)
    requires 0x10 <= x <= 0x1f
    ensures IsInverse(x, Unaffine(Sbox(x)))
  {
  }

  lemma Row2(x: bv8)
    requires 0x20 <= x <= 0x2f
    ensures IsInverse(x, Unaffine(Sbox(x)))
  {
  }

  lemma Row3(x: bv8)
    requires 0x30 <= x <= 0x3f
    ensures IsInverse(x, Unaffine(Sbox(x)))
  {
  }

  lemma Row4(x: bv8)
    requires 0x40 <= x <= 0x4f
    ensures IsInverse(x, Unaffine(Sbox(x)))
  {
  }

  lemma Row5(x: bv8)
    requires 0x50 <= x <= 0x5f
    ensures IsInverse(x, Unaffine(Sbox(x)))
  {
  }

  lemma Row6(x: bv8)
    requires 0x60 <= x <= 0x6f
    ensures IsInverse(x, Unaffine(Sbox(x)))
  {
  }

  lemma Row7(x: bv8)
    requires 0x70 <= x <= 0x7f
    ensures IsInverse(x, Unaffine(Sbox(x)))
  {
  }

  lemma Row8(x: bv8)
    requires 0x80 <= x <= 0x8f
    ensures IsInverse(x, Unaffine(Sbox(x)))
  {
  }

  lemma Row9(x: bv8)
    requires 0x90 <= x <= 0x9f
    ensures IsInverse(x, Unaffine(Sbox(x)))
  {
  }

  lemma RowA(x: bv8)
    requires 0xa0 <= x <= 0xaf
    ensures IsInverse(x, Unaffine(Sbox(x)))
  {
  }

  lemma RowB(x: bv8)
    requires 0xb0 <= x <= 0xbf
    ensures IsInverse(x, Unaffine(Sbox(x)))
  {
  }

  lemma RowC(x: bv8)
    requires 0xc0 <= x <= 0xcf
    ensures IsInverse(x, Unaffine(Sbox(x)))
  {
  }

  lemma RowD(x: bv8)
    requires 0xd0 <= x <= 0xdf
    ensures IsInverse(x, Unaffine(Sbox(x)))
  {
  }

  lemma RowE(x: bv8)
    requires 0xe0 <= x <= 0xef
    ensures IsInverse(x, Unaffine(Sbox(x)))
  {
  }

  lemma RowF(x: bv8)
    requires 0xf0 <= x <= 0xff
    ensures IsInverse(x, Unaffine(Sbox(x)))
  {
  }

  /** The S-box, for every byte. */
  lemma SboxIs(x: bv8)
    ensures exists y :: IsInverse(x, y) && Sbox(x) == Affine(y)
  {
    AffineUnaffine(Sbox(x));
    if x < 0x10 {
      Row0(x);
    } else if x < 0x20 {
      Row1(x);
    } else if x < 0x30 {
      Row2(x);
    } else if x < 0x40 {
      Row3(x);
    } else if x < 0x50 {
      Row4(x);
    } else if x < 0x60 {
      Row5(x);
    } else if x < 0x70 {
      Row6(x);
    } else if x < 0x80 {
      Row7(x);
    } else if x < 0x90 {
      Row8(x);
    } else if x < 0xa0 {
      Row9(x);
    } else if x < 0xb0 {
      RowA(x);
    } else if x < 0xc0 {
      RowB(x);
    } else if x < 0xd0 {
      RowC(x);
    } else if x < 0xe0 {
      RowD(x);
    } else if x < 0xf0 {
      RowE(x);
    } else {
      RowF(x);
    }
    assert IsInverse(x, Unaffine(Sbox(x)));
  }
}
