/**
 The reference: a database is a strictly sorted sequence of entries, read as a
 finite map from keys to data.
 */
module Items {
  import opened Keys

  /** A key/data pair; ov is the number of overflow pages holding the data, 0
      if the data is in the leaf node. */
  datatype Entry = Entry(key: Key, data: Bytes, ov: nat)

  predicate Below(es: seq<Entry>, k: Key) { forall i :: 0 <= i < |es| ==> Lt(es[i].key, k) }
  predicate NotBelow(es: seq<Entry>, k: Key) { forall i :: 0 <= i < |es| ==> Le(k, es[i].key) }
  predicate Above(es: seq<Entry>, k: Key) { forall i :: 0 <= i < |es| ==> Lt(k, es[i].key) }
  predicate Sorted(es: seq<Entry>) { forall i, j :: 0 <= i < j < |es| ==> Lt(es[i].key, es[j].key) }

  /** The index of the first entry whose key is not less than k. */
  function LowerBound(es: seq<Entry>, k: Key): (i: nat)
    ensures i <= |es|
    ensures i < |es| ==> Le(k, es[i].key)
    ensures forall j :: 0 <= j < i ==> Lt(es[j].key, k)
  {
    if es == [] || Le(k, es[0].key) then 0 else
      var i := LowerBound(es[1..], k);
      assert forall j :: 0 < j <= i ==> es[j] == es[1..][j - 1];
      i + 1
  }

  predicate Found(es: seq<Entry>, k: Key) {
    var i := LowerBound(es, k);
    i < |es| && es[i].key == k
  }

  function Upsert(es: seq<Entry>, e: Entry): seq<Entry> {
    var i := LowerBound(es, e.key);
    if Found(es, e.key) then es[i := e] else es[..i] + [e] + es[i..]
  }

  function Remove(es: seq<Entry>, k: Key): seq<Entry> {
    var i := LowerBound(es, k);
    if Found(es, k) then es[..i] + es[i + 1..] else es
  }

  function Lookup(es: seq<Entry>, k: Key): (r: seq<Entry>) {
    var i := LowerBound(es, k);
    if Found(es, k) then [es[i]] else []
  }

  /** In a sorted sequence every entry from the lower bound on but the first is above k. */
  lemma {:induction false} AfterBound(es: seq<Entry>, k: Key)
    requires Sorted(es)
    ensures var i := LowerBound(es, k);
      && NotBelow(es[i..], k)
      && (Found(es, k) ==> Above(es[i + 1..], k))
      && (!Found(es, k) ==> Above(es[i..], k))
  {
    var i := LowerBound(es, k);
    forall j | i <= j < |es| ensures Le(k, es[j].key) && ((i < j || !Found(es, k)) ==> Lt(k, es[j].key)) {
      LtTotal(k, es[i].key);
      LtTotal(k, es[j].key);
      if i < j {
        LtTotal(es[i].key, es[j].key);
        LtTrans(k, es[i].key, es[j].key);
      }
    }
  }

  /** The lower bound is the only index with the two properties. */
  lemma {:induction false} BoundUnique(es: seq<Entry>, k: Key, i: nat)
    requires i <= |es| && (forall j :: 0 <= j < i ==> Lt(es[j].key, k)) && (i < |es| ==> Le(k, es[i].key))
    ensures LowerBound(es, k) == i
  {
  }

  lemma {:induction false} BoundConcat(a: seq<Entry>, m: seq<Entry>, b: seq<Entry>, k: Key)
    requires Below(a, k) && Above(b, k)
    ensures LowerBound(a + m + b, k) == |a| + LowerBound(m, k)
    ensures Found(a + m + b, k) <==> Found(m, k)
  {
    var es := a + m + b;
    var i := LowerBound(m, k);
    if |b| > 0 { LtTotal(k, b[0].key); }
    assert forall j :: 0 <= j < |a| + i ==> Lt(es[j].key, k);
    BoundUnique(es, k, |a| + i);
  }

  lemma UpsertConcat(a: seq<Entry>, m: seq<Entry>, b: seq<Entry>, e: Entry)
    requires Below(a, e.key) && Above(b, e.key)
    ensures Upsert(a + m + b, e) == a + Upsert(m, e) + b
  {
    BoundConcat(a, m, b, e.key);
    PutAround(a, m, b, LowerBound(m, e.key), e);
  }

  lemma PutAround(a: seq<Entry>, m: seq<Entry>, b: seq<Entry>, i: nat, e: Entry)
    requires i <= |m|
    ensures var es := a + m + b;
      && es[..|a| + i] + [e] + es[|a| + i..] == a + (m[..i] + [e] + m[i..]) + b
      && (i < |m| ==> es[|a| + i := e] == a + m[i := e] + b)
  {
  }

  lemma RemoveConcat(a: seq<Entry>, m: seq<Entry>, b: seq<Entry>, k: Key)
    requires Below(a, k) && Above(b, k)
    ensures Remove(a + m + b, k) == a + Remove(m, k) + b
    ensures Found(a + m + b, k) <==> Found(m, k)
  {
    BoundConcat(a, m, b, k);
    if Found(m, k) {
      CutAround(a, m, b, LowerBound(m, k));
    }
  }

  lemma CutAround(a: seq<Entry>, m: seq<Entry>, b: seq<Entry>, i: nat)
    requires i < |m|
    ensures var es := a + m + b;
      es[..|a| + i] + es[|a| + i + 1..] == a + (m[..i] + m[i + 1..]) + b
  {
  }

  lemma UpsertSorted(es: seq<Entry>, e: Entry)
    requires Sorted(es)
    ensures Sorted(Upsert(es, e))
  {
    AfterBound(es, e.key);
    var i := LowerBound(es, e.key);
    if !Found(es, e.key) {
      var r := Upsert(es, e);
      forall x, y | 0 <= x < y < |r| ensures Lt(r[x].key, r[y].key) {
        if x == i { assert r[y] == es[i..][y - 1 - i]; }
      }
    }
  }

  lemma RemoveSorted(es: seq<Entry>, k: Key)
    requires Sorted(es)
    ensures Sorted(Remove(es, k))
  {
  }

  // ---------------------------------------------------------------- as a map

  function ToMap(es: seq<Entry>): map<Key, Bytes> {
    if es == [] then map[] else ToMap(es[..|es| - 1])[es[|es| - 1].key := es[|es| - 1].data]
  }

  lemma {:induction false} ToMapConcat(a: seq<Entry>, b: seq<Entry>)
    ensures ToMap(a + b) == ToMap(a) + ToMap(b)
  {
    if b == [] {
      assert a + b == a;
    } else {
      var n := |b| - 1;
      assert (a + b)[..|a + b| - 1] == a + b[..n];
      ToMapConcat(a, b[..n]);
    }
  }

  lemma {:induction false} ToMapKeys(es: seq<Entry>, k: Key)
    requires k in ToMap(es)
    ensures exists i :: 0 <= i < |es| && es[i].key == k
  {
    var n := |es| - 1;
    if es[n].key != k {
      ToMapKeys(es[..n], k);
      var i :| 0 <= i < n && es[..n][i].key == k;
      assert es[i].key == k;
    } else {
      assert es[n].key == k;
    }
  }

  lemma {:induction false} NotAmong(es: seq<Entry>, k: Key)
    requires Below(es, k) || Above(es, k)
    ensures k !in ToMap(es)
  {
    if k in ToMap(es) {
      ToMapKeys(es, k);
      LtTotal(k, k);
    }
  }

  lemma ToMapOne(e: Entry)
    ensures ToMap([e]) == map[e.key := e.data]
  {
    assert [e][..0] == [];
  }

  lemma MergeFacts(a: map<Key, Bytes>, b: map<Key, Bytes>, k: Key, d: Bytes)
    requires k !in a && k !in b
    ensures a + map[k := d] + b == (a + b)[k := d]
    ensures (a + b)[k := d] - {k} == a + b
  {
  }

  /** A sequence around the place of a key. */
  lemma {:induction false} MapWith(a: seq<Entry>, e: Entry, b: seq<Entry>)
    requires Below(a, e.key) && Above(b, e.key)
    ensures e.key !in ToMap(a + b)
    ensures ToMap(a + [e] + b) == ToMap(a + b)[e.key := e.data]
    ensures ToMap(a + [e] + b) - {e.key} == ToMap(a + b)
  {
    NotAmong(a, e.key);
    NotAmong(b, e.key);
    ToMapConcat(a + [e], b);
    ToMapConcat(a, b);
    ToMapConcat(a, [e]);
    ToMapOne(e);
    MergeFacts(ToMap(a), ToMap(b), e.key, e.data);
  }

  lemma Around(es: seq<Entry>, k: Key) returns (a: seq<Entry>, m: seq<Entry>, b: seq<Entry>)
    requires Sorted(es)
    ensures Below(a, k) && Above(b, k) && es == a + m + b && a == es[..LowerBound(es, k)]
    ensures if Found(es, k) then m == [es[LowerBound(es, k)]] && b == es[LowerBound(es, k) + 1..]
            else m == [] && b == es[LowerBound(es, k)..]
  {
    AfterBound(es, k);
    var i := LowerBound(es, k);
    a := es[..i];
    if Found(es, k) {
      m, b := [es[i]], es[i + 1..];
    } else {
      m, b := [], es[i..];
    }
  }

  /** Searching the sequence is looking a key up in the map. */
  lemma {:induction false} LookupIsMap(es: seq<Entry>, k: Key)
    requires Sorted(es)
    ensures Found(es, k) <==> k in ToMap(es)
    ensures Found(es, k) ==> ToMap(es)[k] == Lookup(es, k)[0].data
  {
    var a, m, b := Around(es, k);
    MapWith(a, if m == [] then Entry(k, [], 0) else m[0], b);
    assert m == [] ==> es == a + b;
  }

  /** Upsert is map update. */
  lemma {:induction false} UpsertIsUpdate(es: seq<Entry>, e: Entry)
    requires Sorted(es)
    ensures ToMap(Upsert(es, e)) == ToMap(es)[e.key := e.data]
  {
    var a, m, b := Around(es, e.key);
    UpsertAround(es, e, a, m, b);
    MapWith(a, e, b);
    if m == [] {
      assert es == a + b;
    } else {
      MapWith(a, m[0], b);
    }
  }

  lemma {:induction false} UpsertAround(es: seq<Entry>, e: Entry, a: seq<Entry>, m: seq<Entry>, b: seq<Entry>)
    requires a == es[..LowerBound(es, e.key)]
    requires b == if Found(es, e.key) then es[LowerBound(es, e.key) + 1..] else es[LowerBound(es, e.key)..]
    ensures Upsert(es, e) == a + [e] + b
  {
  }

  /** Remove is map removal. */
  lemma {:induction false} RemoveIsRemoval(es: seq<Entry>, k: Key)
    requires Sorted(es)
    ensures ToMap(Remove(es, k)) == ToMap(es) - {k}
  {
    var a, m, b := Around(es, k);
    MapWith(a, if m == [] then Entry(k, [], 0) else m[0], b);
    if m == [] {
      assert es == a + b;
    } else {
      assert Remove(es, k) == a + b;
    }
  }
}
