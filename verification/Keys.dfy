/**
 Keys are byte strings in the default order of the store (mdb_cmp_memn):
 bytewise, a proper prefix first.
 */
module Keys {

  type Byte = x: int | 0 <= x < 256
  type Bytes = seq<Byte>
  type Key = Bytes

  const MAXKEYSIZE := 511

  predicate ValidKey(k: Key) { 1 <= |k| <= MAXKEYSIZE }

  predicate Lt(a: Key, b: Key) {
    if b == [] then false
    else if a == [] then true
    else if a[0] != b[0] then a[0] < b[0]
    else Lt(a[1..], b[1..])
  }

  predicate Le(a: Key, b: Key) { !Lt(b, a) }

  /** The two keys agree before index i; there a ends or has the smaller byte. */
  predicate FirstDifference(a: Key, b: Key, i: nat) {
    i <= |a| && i < |b| && (forall j :: 0 <= j < i ==> a[j] == b[j]) && (i < |a| ==> a[i] < b[i])
  }

  /** The order by the first byte in which two keys differ, a proper prefix first. */
  lemma {:induction false} LtIs(a: Key, b: Key)
    ensures Lt(a, b) <==> exists i: nat :: FirstDifference(a, b, i)
  {
    if Lt(a, b) {
      var i := DifferAt(a, b);
    }
    if i: nat :| FirstDifference(a, b, i) {
      DifferLt(a, b, i);
    }
  }

  lemma {:induction false} DifferAt(a: Key, b: Key) returns (i: nat)
    requires Lt(a, b)
    ensures FirstDifference(a, b, i)
  {
    if a == [] || a[0] != b[0] {
      i := 0;
    } else {
      var k := DifferAt(a[1..], b[1..]);
      i := k + 1;
      forall j | 0 <= j < i ensures a[j] == b[j] { if j > 0 { assert a[1..][j - 1] == b[1..][j - 1]; } }
    }
  }

  lemma {:induction false} DifferLt(a: Key, b: Key, i: nat)
    requires FirstDifference(a, b, i)
    ensures Lt(a, b)
  {
    if i > 0 {
      assert forall j :: 0 <= j < i - 1 ==> a[1..][j] == a[j + 1] && b[1..][j] == b[j + 1];
      DifferLt(a[1..], b[1..], i - 1);
    }
  }

  lemma {:induction false} LtTotal(a: Key, b: Key)
    ensures Lt(a, b) || a == b || Lt(b, a)
    ensures !(Lt(a, b) && Lt(b, a))
    ensures Lt(a, b) ==> a != b
  {
    if a != [] && b != [] && a[0] == b[0] {
      LtTotal(a[1..], b[1..]);
      if a[1..] == b[1..] {
        assert a == [a[0]] + a[1..] == b;
      }
    }
  }

  lemma {:induction false} LtTrans(a: Key, b: Key, c: Key)
    requires Le(a, b) && Le(b, c)
    ensures Le(a, c)
    ensures Lt(a, b) || Lt(b, c) ==> Lt(a, c)
  {
    LtTotal(a, b);
    LtTotal(b, c);
    LtTotal(a, c);
    if a != [] && b != [] && c != [] && a[0] == b[0] == c[0] {
      LtTrans(a[1..], b[1..], c[1..]);
    }
  }

  /** mdb_cmp_memn: memcmp over the common length, then the shorter one. */
  method CmpMemn(a: Key, b: Key) returns (c: int)
    ensures c < 0 <==> Lt(a, b)
    ensures c == 0 <==> a == b
    ensures c > 0 <==> Lt(b, a)
  {
    var n := if |a| < |b| then |a| else |b|;
    var i := 0;
    while i < n
      invariant 0 <= i <= n
      invariant a[..i] == b[..i]
      invariant Lt(a, b) == Lt(a[i..], b[i..]) && Lt(b, a) == Lt(b[i..], a[i..])
    {
      if a[i] != b[i] {
        assert a[i..][0] != b[i..][0];
        var x: int, y: int := a[i], b[i];
        return x - y;
      }
      assert a[i..][1..] == a[i + 1..] && b[i..][1..] == b[i + 1..];
      i := i + 1;
    }
    assert a == a[..n] + a[n..] && b == b[..n] + b[n..];
    c := |a| - |b|;
  }
}
