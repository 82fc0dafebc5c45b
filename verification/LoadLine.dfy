/**
 readline of mdb_load: the line is read into a buffer that doubles until the
 newline is there, and decoded in the buffer, the write pointer behind the
 read pointer.  The input is text: it holds no 0 byte.
 */
module LoadLine {
  import opened DumpFormat
  import opened Wrappers

  predicate NoZero(s: Bytes) {
    forall k :: 0 <= k < |s| ==> s[k] != 0
  }

  // ---------------------------------------------------------------- decoding in place

  /** What the whole line decodes to, when its start has decoded to pre and the rest decodes to r. */
  function After(pre: Bytes, r: Option<Bytes>): Option<Bytes> {
    if r.None? then None else Some(pre + r.value)
  }

  lemma AfterOne(pre: Bytes, c: bv8, r: Option<Bytes>)
    ensures After(pre, Prepend(c, r)) == After(pre + [c], r)
  {
    if r.Some? {
      assert pre + ([c] + r.value) == (pre + [c]) + r.value;
    }
  }

  lemma AfterEnds(pre: Bytes, r: Option<Bytes>)
    ensures After([], r) == r
    ensures After(pre, Some([])) == Some(pre)
  {
    if r.Some? {
      assert [] + r.value == r.value;
    }
    assert pre + [] == pre;
  }

  /** One round of the loop on l: how many bytes it reads, and what it writes; 0 when it gives up. */
  function TextStep(l: Bytes): (nat, bv8)
    requires l != []
  {
    if l[0] != BACKSLASH then (1, l[0])
    else if |l| >= 2 && l[1] == BACKSLASH then (2, BACKSLASH)
    else if |l| < 3 || !IsDigit(l[1]) || !IsDigit(l[2]) then (0, 0)
    else (3, Unhex(l[1], l[2]))
  }

  lemma {:induction false} TextStepIs(l: Bytes)
    requires l != []
    ensures TextStep(l).0 <= |l|
    ensures DecodeText(l) == if TextStep(l).0 == 0 then None else Prepend(TextStep(l).1, DecodeText(l[TextStep(l).0..]))
  {
  }

  /** The next bytes of the line, and the 0 after them. */
  lemma Peek(b: array<bv8>, c: nat, len: nat, s: Bytes)
    requires c < len < b.Length && b[c..len] == s && b[len] == 0
    ensures |s| == len - c && b[c] == s[0]
    ensures |s| >= 2 ==> b[c + 1] == s[1]
    ensures |s| == 1 ==> b[c + 1] == 0
    ensures |s| >= 3 ==> b[c + 2] == s[2]
  {
  }

  lemma Stepped(was: Bytes, b: Bytes, l: Bytes, c1: nat, c2: nat, k: nat, x: bv8, len: nat)
    requires c1 <= c2 < c2 + k <= len == |l| && len < |was| && k > 0
    requires was[c2..len] == l[c2..] && b == was[c1 := x]
    ensures b[c2 + k..len] == l[c2 + k..] && b[len] == was[len]
    ensures b[..c1 + 1] == was[..c1] + [x]
    ensures l[c2..][k..] == l[c2 + k..]
  {
    assert was[c2 + k..len] == was[c2..len][k..];
  }

  /** The line l has been read up to c2 and written up to c1, in b. */
  predicate Decoding(b: Bytes, l: Bytes, c1: nat, c2: nat) {
    && c1 <= c2 <= |l| < |b| && b[c2..|l|] == l[c2..] && b[|l|] == 0
    && DecodeText(l) == After(b[..c1], DecodeText(l[c2..]))
  }

  lemma DecodingStarts(b: Bytes, l: Bytes)
    requires |l| < |b| && b[..|l|] == l && b[|l|] == 0
    ensures Decoding(b, l, 0, 0)
  {
    assert b[0..|l|] == l[0..] && l[0..] == l && b[..0] == [];
    AfterEnds([], DecodeText(l));
  }

  lemma {:induction false} DecodingEnds(b: Bytes, l: Bytes, c1: nat)
    requires Decoding(b, l, c1, |l|)
    ensures DecodeText(l) == Some(b[..c1])
  {
    assert l[|l|..] == [];
    AfterEnds(b[..c1], None);
  }

  lemma {:induction false} DecodingStep(b: Bytes, l: Bytes, c1: nat, c2: nat, k: nat, x: bv8)
    requires c1 <= c2 < c2 + k <= |l| < |b| && b[c2..|l|] == l[c2..] && b[|l|] == 0
    requires DecodeText(l) == After(b[..c1], Prepend(x, DecodeText(l[c2 + k..])))
    ensures Decoding(b[c1 := x], l, c1 + 1, c2 + k)
  {
    AfterOne(b[..c1], x, DecodeText(l[c2 + k..]));
    Stepped(b, b[c1 := x], l, c1, c2, k, x, |l|);
  }

  lemma {:induction false} DecodingGoesOn(b: Bytes, l: Bytes, c1: nat, c2: nat, s: Bytes)
    requires Decoding(b, l, c1, c2) && c2 < |l| && s == l[c2..]
    ensures TextStep(s).0 <= |s|
    ensures TextStep(s).0 == 0 ==> DecodeText(l).None?
    ensures TextStep(s).0 > 0 ==> Decoding(b[c1 := TextStep(s).1], l, c1 + 1, c2 + TextStep(s).0)
  {
    var (k, x) := TextStep(s);
    TextStepIs(s);
    if k > 0 {
      assert s[k..] == l[c2 + k..];
      DecodingStep(b, l, c1, c2, k, x);
    }
  }

  /** The loop for the print format: b[..len] is the line, and b[len] is 0. */
  method UnescapeText(b: array<bv8>, len: nat) returns (ok: bool, n: nat)
    requires len < b.Length && b[len] == 0
    modifies b
    ensures ok == DecodeText(old(b[..len])).Some?
    ensures ok ==> n <= len && DecodeText(old(b[..len])) == Some(b[..n])
  {
    ghost var l := b[..len];
    var c1, c2 := 0, 0;
    DecodingStarts(b[..], l);
    while c2 < len
      invariant c1 <= c2 <= len
      invariant Decoding(b[..], l, c1, c2)
    {
      ghost var s, was := l[c2..], b[..];
      DecodingGoesOn(was, l, c1, c2, s);
      Peek(b, c2, len, s);
      if b[c2] == BACKSLASH {
        if b[c2 + 1] == BACKSLASH {
          b[c1] := b[c2];
        } else {
          if c2 + 3 > len || !IsDigit(b[c2 + 1]) || !IsDigit(b[c2 + 2]) {
            return false, 0;
          }
          c2 := c2 + 1;
          b[c1] := Unhex(b[c2], b[c2 + 1]);
        }
        c1 := c1 + 1;
        c2 := c2 + 2;
      } else {
        b[c1] := b[c2];
        c1, c2 := c1 + 1, c2 + 1;
      }
      assert b[..] == was[c1 - 1 := TextStep(s).1];
    }
    DecodingEnds(b[..], l, c1);
    assert b[..][..c1] == b[..c1];
    ok, n := true, c1;
  }

  /** The loop for the bytevalue format. */
  method UnescapeHex(b: array<bv8>, len: nat) returns (ok: bool, n: nat)
    requires len < b.Length && b[len] == 0
    modifies b
    ensures ok == DecodeHex(old(b[..len])).Some?
    ensures ok ==> n <= len && DecodeHex(old(b[..len])) == Some(b[..n])
  {
    ghost var l := b[..len];
    OddLength(l);
    if len % 2 == 1 {
      return false, 0;
    }
    var c1, c2 := 0, 0;
    assert b[0..len] == l == l[0..] && b[..0] == [];
    AfterEnds([], DecodeHex(l));
    while c2 < len
      invariant c1 <= c2 <= len && (len - c2) % 2 == 0
      invariant b[c2..len] == l[c2..] && b[len] == 0
      invariant DecodeHex(l) == After(b[..c1], DecodeHex(l[c2..]))
    {
      ghost var s := l[c2..];
      ghost var was := b[..];
      Peek(b, c2, len, s);
      if !IsDigit(b[c2]) || !IsDigit(b[c2 + 1]) {
        return false, 0;
      }
      AfterOne(b[..c1], Unhex(s[0], s[1]), DecodeHex(s[2..]));
      b[c1] := Unhex(b[c2], b[c2 + 1]);
      Stepped(was, b[..], l, c1, c2, 2, Unhex(s[0], s[1]), len);
      c1, c2 := c1 + 1, c2 + 2;
    }
    assert l[c2..] == [];
    AfterEnds(b[..c1], None);
    ok, n := true, c1;
  }

  lemma {:induction false} OddLength(l: Bytes)
    ensures |l| % 2 == 1 ==> DecodeHex(l).None?
  {
    if |l| >= 2 {
      OddLength(l[2..]);
    }
  }
}
