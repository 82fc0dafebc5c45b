/**
 The field of 256 elements that AES computes in, and one column of the state:
 mixing a column (section 5.1.3 of FIPS 197) is linear, and InvMixColumns
 undoes it.
 */
module AesField {

  /** Multiplication by x modulo x^8 + x^4 + x^3 + x + 1. */
  function Xtime(x: bv8): bv8 { (x << 1) ^ (((x >> 7) & 1) * 0x1b) }

  /** The Multiply macro. */
  function Multiply(x: bv8, y: bv8): bv8 {
    ((y & 1) * x) ^ (((y >> 1) & 1) * Xtime(x)) ^ (((y >> 2) & 1) * Xtime(Xtime(x)))
    ^ (((y >> 3) & 1) * Xtime(Xtime(Xtime(x)))) ^ (((y >> 4) & 1) * Xtime(Xtime(Xtime(Xtime(x)))))
  }

  // Everything below is linear.  Addition in the field:

  function Add(a: bv8, b: bv8): bv8 { a ^ b }
  function Add3(a: bv8, b: bv8, c: bv8): bv8 { Add(Add(a, b), c) }
  function Add4(a: bv8, b: bv8, c: bv8, d: bv8): bv8 { Add(Add3(a, b, c), d) }

  lemma AddTurned(a: bv8, b: bv8)
    ensures Add(a, b) == Add(b, a)
  {
  }

  lemma AddGrouped(a: bv8, b: bv8, c: bv8)
    ensures Add(Add(a, b), c) == Add(a, Add(b, c))
  {
  }

  lemma Exchange(a: bv8, b: bv8, p: bv8, q: bv8)
    ensures Add(Add(a, p), Add(b, q)) == Add(Add(a, b), Add(p, q))
  {
    AddGrouped(Add(a, p), b, q);
    AddGrouped(a, p, b);
    AddTurned(p, b);
    AddGrouped(a, b, p);
    AddGrouped(Add(a, b), p, q);
  }

  lemma Exchange3(a: bv8, b: bv8, c: bv8, p: bv8, q: bv8, r: bv8)
    ensures Add3(Add(a, p), Add(b, q), Add(c, r)) == Add(Add3(a, b, c), Add3(p, q, r))
  {
    Exchange(a, b, p, q);
    Exchange(Add(a, b), c, Add(p, q), r);
  }

  lemma Exchange4(a: bv8, b: bv8, c: bv8, d: bv8, p: bv8, q: bv8, r: bv8, s: bv8)
    ensures Add4(Add(a, p), Add(b, q), Add(c, r), Add(d, s)) == Add(Add4(a, b, c, d), Add4(p, q, r, s))
  {
    Exchange3(a, b, c, p, q, r);
    Exchange(Add3(a, b, c), d, Add3(p, q, r), s);
  }

  lemma XtimeAdd(x: bv8, y: bv8)
    ensures Xtime(Add(x, y)) == Add(Xtime(x), Xtime(y))
  {
  }

  lemma PowersAdd(x: bv8, y: bv8)
    ensures Xtime(Add(x, y)) == Add(Xtime(x), Xtime(y))
    ensures Xtime(Xtime(Add(x, y))) == Add(Xtime(Xtime(x)), Xtime(Xtime(y)))
    ensures Xtime(Xtime(Xtime(Add(x, y)))) == Add(Xtime(Xtime(Xtime(x))), Xtime(Xtime(Xtime(y))))
  {
    XtimeAdd(x, y);
    XtimeAdd(Xtime(x), Xtime(y));
    XtimeAdd(Xtime(Xtime(x)), Xtime(Xtime(y)));
  }

  lemma Times(x: bv8)
    ensures Multiply(x, 0x09) == Add(Xtime(Xtime(Xtime(x))), x)
    ensures Multiply(x, 0x0b) == Add3(Xtime(Xtime(Xtime(x))), Xtime(x), x)
    ensures Multiply(x, 0x0d) == Add3(Xtime(Xtime(Xtime(x))), Xtime(Xtime(x)), x)
    ensures Multiply(x, 0x0e) == Add3(Xtime(Xtime(Xtime(x))), Xtime(Xtime(x)), Xtime(x))
  {
    Times9(x);
    TimesB(x);
    TimesD(x);
    TimesE(x);
  }

  lemma Times9(x: bv8)
    ensures Multiply(x, 0x09) == Add(Xtime(Xtime(Xtime(x))), x)
  {
  }

  lemma TimesB(x: bv8)
    ensures Multiply(x, 0x0b) == Add3(Xtime(Xtime(Xtime(x))), Xtime(x), x)
  {
  }

  lemma TimesD(x: bv8)
    ensures Multiply(x, 0x0d) == Add3(Xtime(Xtime(Xtime(x))), Xtime(Xtime(x)), x)
  {
  }

  lemma TimesE(x: bv8)
    ensures Multiply(x, 0x0e) == Add3(Xtime(Xtime(Xtime(x))), Xtime(Xtime(x)), Xtime(x))
  {
  }

  lemma MultiplyAdd(x: bv8, y: bv8)
    ensures Multiply(Add(x, y), 0x09) == Add(Multiply(x, 0x09), Multiply(y, 0x09))
    ensures Multiply(Add(x, y), 0x0b) == Add(Multiply(x, 0x0b), Multiply(y, 0x0b))
    ensures Multiply(Add(x, y), 0x0d) == Add(Multiply(x, 0x0d), Multiply(y, 0x0d))
    ensures Multiply(Add(x, y), 0x0e) == Add(Multiply(x, 0x0e), Multiply(y, 0x0e))
  {
    Times(x);
    Times(y);
    Times(Add(x, y));
    PowersAdd(x, y);
    var x1, x2, x3 := Xtime(x), Xtime(Xtime(x)), Xtime(Xtime(Xtime(x)));
    var y1, y2, y3 := Xtime(y), Xtime(Xtime(y)), Xtime(Xtime(Xtime(y)));
    Exchange(x3, x, y3, y);
    Exchange3(x3, x1, x, y3, y1, y);
    Exchange3(x3, x2, x, y3, y2, y);
    Exchange3(x3, x2, x1, y3, y2, y1);
  }

  // ---------------------------------------------------------------- columns

  /** A byte of a mixed column, {02}a + {03}b + c + d, as the source computes it. */
  function Mixed(a: bv8, b: bv8, c: bv8, d: bv8): bv8 {
    Add(a, Add(Xtime(Add(a, b)), Add4(a, b, c, d)))
  }

  function Unmixed(a: bv8, b: bv8, c: bv8, d: bv8): bv8 {
    Add4(Multiply(a, 0x0e), Multiply(b, 0x0b), Multiply(c, 0x0d), Multiply(d, 0x09))
  }

  /** The first byte of a column that has been mixed and unmixed. */
  function Through(a: bv8, b: bv8, c: bv8, d: bv8): bv8 {
    Unmixed(Mixed(a, b, c, d), Mixed(b, c, d, a), Mixed(c, d, a, b), Mixed(d, a, b, c))
  }

  lemma MixedAdd(a: bv8, b: bv8, c: bv8, d: bv8, p: bv8, q: bv8, r: bv8, s: bv8)
    ensures Mixed(Add(a, p), Add(b, q), Add(c, r), Add(d, s)) == Add(Mixed(a, b, c, d), Mixed(p, q, r, s))
  {
    Exchange(a, b, p, q);
    XtimeAdd(Add(a, b), Add(p, q));
    Exchange4(a, b, c, d, p, q, r, s);
    Exchange(Xtime(Add(a, b)), Add4(a, b, c, d), Xtime(Add(p, q)), Add4(p, q, r, s));
    Exchange(a, Add(Xtime(Add(a, b)), Add4(a, b, c, d)), p, Add(Xtime(Add(p, q)), Add4(p, q, r, s)));
  }

  lemma UnmixedAdd(a: bv8, b: bv8, c: bv8, d: bv8, p: bv8, q: bv8, r: bv8, s: bv8)
    ensures Unmixed(Add(a, p), Add(b, q), Add(c, r), Add(d, s)) == Add(Unmixed(a, b, c, d), Unmixed(p, q, r, s))
  {
    MultiplyAdd(a, p);
    MultiplyAdd(b, q);
    MultiplyAdd(c, r);
    MultiplyAdd(d, s);
    Exchange4(Multiply(a, 0x0e), Multiply(b, 0x0b), Multiply(c, 0x0d), Multiply(d, 0x09),
              Multiply(p, 0x0e), Multiply(q, 0x0b), Multiply(r, 0x0d), Multiply(s, 0x09));
  }

  lemma ThroughAdd(a: bv8, b: bv8, c: bv8, d: bv8, p: bv8, q: bv8, r: bv8, s: bv8)
    ensures Through(Add(a, p), Add(b, q), Add(c, r), Add(d, s)) == Add(Through(a, b, c, d), Through(p, q, r, s))
  {
    MixedAdd(a, b, c, d, p, q, r, s);
    MixedAdd(b, c, d, a, q, r, s, p);
    MixedAdd(c, d, a, b, r, s, p, q);
    MixedAdd(d, a, b, c, s, p, q, r);
    UnmixedAdd(Mixed(a, b, c, d), Mixed(b, c, d, a), Mixed(c, d, a, b), Mixed(d, a, b, c),
               Mixed(p, q, r, s), Mixed(q, r, s, p), Mixed(r, s, p, q), Mixed(s, p, q, r));
  }

  // Columns with one byte: the first goes through, the others vanish.

  lemma ThroughFirst(a: bv8)
    ensures Through(a, 0, 0, 0) == a
  {
  }

  lemma ThroughSecond(b: bv8)
    ensures Through(0, b, 0, 0) == 0
  {
  }

  lemma ThroughThird(c: bv8)
    ensures Through(0, 0, c, 0) == 0
  {
  }

  lemma ThroughFourth(d: bv8)
    ensures Through(0, 0, 0, d) == 0
  {
  }

  lemma Zero(x: bv8)
    ensures Add(x, 0) == x && Add(0, x) == x
  {
  }

  /** InvMixColumns undoes MixColumns, byte by byte. */
  lemma UnmixMixed(a: bv8, b: bv8, c: bv8, d: bv8)
    ensures Through(a, b, c, d) == a
  {
    Zero(a);
    Zero(b);
    Zero(c);
    Zero(d);
    Zero(0);
    ThroughFirst(a);
    ThroughSecond(b);
    ThroughThird(c);
    ThroughFourth(d);
    ThroughAdd(0, 0, c, 0, 0, 0, 0, d);
    ThroughAdd(0, b, 0, 0, 0, 0, c, d);
    ThroughAdd(a, 0, 0, 0, 0, b, c, d);
  }
}
