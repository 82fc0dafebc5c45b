/**
 Searching the tree: binary search in a page, the descent, and mdb_get.
 */
module TreeSearch {
  import opened Keys
  import opened Items
  import opened Tree

  lemma {:induction false} AllSorted(t: Tree, d: nat)
    requires Ordered(t) && Solid(t, d)
    ensures Sorted(All(t))
    decreases t, 0
  {
    if t.Branch? {
      forall i | 0 <= i < |t.kids| ensures All(t.kids[i].sub) != [] && Sorted(All(t.kids[i].sub)) {
        NonEmpty(t.kids[i].sub, d - 1);
        AllSorted(t.kids[i].sub, d - 1);
      }
      FlatSorted(t.kids, |t.kids|);
      assert t.kids[..|t.kids|] == t.kids;
    }
  }

  lemma {:induction false} FlatSorted(kids: seq<Kid>, n: nat)
    requires n <= |kids| && KidsOrdered(kids) && KidsNonEmpty(kids)
    requires forall i :: 0 <= i < |kids| ==> Sorted(All(kids[i].sub))
    ensures Sorted(Flat(kids[..n]))
  {
    if n == 1 {
      FlatOne(kids[0]);
      assert kids[..1] == [kids[0]];
    } else if n > 1 {
      FlatSorted(kids, n - 1);
      FlatFront(kids, n - 1);
      LeftOfSep(kids, n - 1);
      assert Separates(kids, n - 1);
      SortedConcat(Flat(kids[..n - 1]), All(kids[n - 1].sub), kids[n - 1].sep);
    }
  }

  lemma SortedConcat(a: seq<Entry>, b: seq<Entry>, k: Key)
    requires Sorted(a) && Sorted(b) && Below(a, k) && NotBelow(b, k)
    ensures Sorted(a + b)
  {
    forall i, j | 0 <= i < |a| && 0 <= j < |b| ensures Lt(a[i].key, b[j].key) {
      LtTotal(a[i].key, k);
      LtTrans(a[i].key, k, b[j].key);
    }
  }

  // ---------------------------------------------------------------- in a page

  /** Strictly increasing from index lo on. */
  predicate Increasing(keys: seq<Key>, lo: nat) {
    forall i, j :: lo <= i < j < |keys| ==> Lt(keys[i], keys[j])
  }

  /** mdb_node_search: the first index from lo on whose key is not less than
      key, by binary search; exact tells whether it is equal.  Branch pages are
      searched from index 1. */
  method NodeSearch(keys: seq<Key>, lo: nat, key: Key) returns (i: nat, exact: bool)
    requires lo <= 1 && Increasing(keys, lo) && (lo == 1 ==> 2 <= |keys|)
    ensures lo <= i <= |keys|
    ensures forall j :: lo <= j < i ==> Lt(keys[j], key)
    ensures forall j :: i <= j < |keys| ==> Le(key, keys[j])
    ensures exact <==> i < |keys| && keys[i] == key
    ensures forall j :: lo <= j < |keys| && j != i ==> keys[j] != key
  {
    var nkeys := |keys|;
    var low: int, high: int := lo, nkeys - 1;
    var rc := 0;
    i := 0;
    while low <= high
      invariant lo <= low <= high + 1 <= nkeys
      invariant forall j :: lo <= j < low ==> Lt(keys[j], key)
      invariant forall j :: high < j < nkeys ==> Lt(key, keys[j])
      invariant (low == lo && high == nkeys - 1 && i == 0 && rc == 0) ||
                (rc > 0 && low == i + 1) || (rc < 0 && high == i - 1)
      decreases high + 1 - low
    {
      i := (low + high) / 2;
      rc := CmpMemn(key, keys[i]);
      forall j | lo <= j < nkeys && j != i ensures Lt(keys[j], keys[i]) || Lt(keys[i], keys[j]) {}
      LtTotal(key, keys[i]);
      forall j | lo <= j < nkeys
        ensures (j < i && rc >= 0 ==> Lt(keys[j], key)) && (j > i && rc <= 0 ==> Lt(key, keys[j]))
      {
        if j != i {
          LtTotal(keys[j], keys[i]);
          if j < i && rc >= 0 { LtTrans(keys[j], keys[i], key); }
          if j > i && rc <= 0 { LtTrans(key, keys[i], keys[j]); }
        }
      }
      if rc == 0 {
        break;
      }
      if rc > 0 {
        low := i + 1;
      } else {
        high := i - 1;
      }
    }
    if rc > 0 {
      i := i + 1;
    }
    exact := rc == 0 && nkeys > 0;
    forall j | 0 <= j < nkeys ensures (Lt(key, keys[j]) || Lt(keys[j], key) ==> keys[j] != key) && (Lt(key, keys[j]) ==> Le(key, keys[j])) {
      LtTotal(key, keys[j]);
    }
    LtTotal(key, key);
  }

  /** The child mdb_page_search_root follows: the last one whose separator is
      not greater than key, or the first. */
  function ChildIndex(kids: seq<Kid>, key: Key): (i: nat)
    requires kids != []
    ensures i < |kids|
    ensures i > 0 ==> Le(kids[i].sep, key)
    ensures forall j :: i < j < |kids| ==> Lt(key, kids[j].sep)
  {
    var n := |kids| - 1;
    if n == 0 || Le(kids[n].sep, key) then n else ChildIndex(kids[..n], key)
  }

  lemma SepsIncrease(kids: seq<Kid>, i: nat, j: nat)
    requires KidsOrdered(kids) && KidsNonEmpty(kids) && 1 <= i < j < |kids|
    ensures Lt(kids[i].sep, kids[j].sep)
    decreases j - i
  {
    assert Separates(kids, i) && Separates(kids, i + 1);
    var x := All(kids[i].sub)[0].key;
    LtTotal(x, kids[i + 1].sep);
    LtTrans(kids[i].sep, x, kids[i + 1].sep);
    if i + 1 < j {
      SepsIncrease(kids, i + 1, j);
      LtTotal(kids[i + 1].sep, kids[j].sep);
      LtTrans(kids[i].sep, kids[i + 1].sep, kids[j].sep);
    }
  }

  /** Following index i for a key, with the tests of mdb_page_search_root. */
  method FindChild(kids: seq<Kid>, key: Key) returns (i: nat)
    requires 2 <= |kids| && KidsOrdered(kids) && KidsNonEmpty(kids)
    ensures i == ChildIndex(kids, key)
  {
    var keys := seq(|kids|, i requires 0 <= i < |kids| => kids[i].sep);
    assert Increasing(keys, 1) by {
      forall a, b | 1 <= a < b < |kids| ensures Lt(keys[a], keys[b]) { SepsIncrease(kids, a, b); }
    }
    var k, exact := NodeSearch(keys, 1, key);
    if k >= |keys| {
      i := |keys| - 1;
    } else {
      i := if exact then k else k - 1;
    }
    LtTotal(key, key);
    ghost var c := ChildIndex(kids, key);
    if c < i {
      assert Lt(key, keys[i]);
      LtTotal(keys[i], key);
    } else if i < c {
      assert Le(key, keys[c]) && keys[c] != key;
      LtTotal(keys[c], key);
    }
  }

  /** Everything left of the child is below the key, everything right above. */
  lemma {:induction false} AroundChild(kids: seq<Kid>, key: Key)
    requires 2 <= |kids| && KidsOrdered(kids) && KidsNonEmpty(kids)
    ensures var i := ChildIndex(kids, key);
      && Flat(kids) == Flat(kids[..i]) + All(kids[i].sub) + Flat(kids[i + 1..])
      && Below(Flat(kids[..i]), key) && Above(Flat(kids[i + 1..]), key)
  {
    var i := ChildIndex(kids, key);
    FlatAt(kids, i);
    if i > 0 {
      LeftOfSep(kids, i);
      BelowTrans(Flat(kids[..i]), kids[i].sep, key);
    }
    if i + 1 < |kids| {
      RightOfSep(kids, i + 1);
      LtTotal(key, kids[i + 1].sep);
      NotBelowTrans(Flat(kids[i + 1..]), key, kids[i + 1].sep);
    }
  }

  lemma {:induction false} SolidKids(kids: seq<Kid>, d: nat)
    requires Solid(Branch(kids), d)
    ensures KidsNonEmpty(kids)
  {
    forall i | 0 <= i < |kids| ensures All(kids[i].sub) != [] { NonEmpty(kids[i].sub, d - 1); }
  }

  lemma {:induction false} LookupDescends(kids: seq<Kid>, d: nat, key: Key)
    requires Ordered(Branch(kids)) && Solid(Branch(kids), d)
    ensures Lookup(All(Branch(kids)), key) == Lookup(All(kids[ChildIndex(kids, key)].sub), key)
  {
    SolidKids(kids, d);
    AroundChild(kids, key);
    var i := ChildIndex(kids, key);
    LookupConcat(Flat(kids[..i]), All(kids[i].sub), Flat(kids[i + 1..]), key);
  }

  lemma LookupConcat(a: seq<Entry>, m: seq<Entry>, b: seq<Entry>, k: Key)
    requires Below(a, k) && Above(b, k)
    ensures Lookup(a + m + b, k) == Lookup(m, k)
  {
    BoundConcat(a, m, b, k);
  }

  /** mdb_get: descends to a leaf and searches it.  It finds exactly what a
      search through all entries in order would find. */
  method Get(t: Tree, ghost d: nat, key: Key) returns (r: seq<Entry>)
    requires Ordered(t) && Solid(t, d)
    ensures r == Lookup(All(t), key)
  {
    var cur := t;
    ghost var depth := d;
    while cur.Branch?
      invariant Ordered(cur) && Solid(cur, depth)
      invariant Lookup(All(t), key) == Lookup(All(cur), key)
      decreases cur
    {
      SolidKids(cur.kids, depth);
      LookupDescends(cur.kids, depth, key);
      var i := FindChild(cur.kids, key);
      cur := cur.kids[i].sub;
      depth := depth - 1;
    }
    var keys := seq(|cur.es|, i requires 0 <= i < |cur.es| => cur.es[i].key);
    var i, exact := NodeSearch(keys, 0, key);
    forall j | 0 <= j < i ensures Lt(cur.es[j].key, key) { assert Lt(keys[j], key); }
    BoundUnique(cur.es, key, i);
    r := if exact then [cur.es[i]] else [];
  }
}
