/**
 Dirty lists (MDB_ID2L): (page number, pointer) pairs in ascending order,
 element 0 holding the length; and their merge when a child commits.
 */
module DirtyList {
  import opened IdList

  datatype Id2 = Id2(mid: int, mptr: int)

  predicate Ascending(s: seq<Id2>) { forall p, q :: 0 <= p < q < |s| ==> s[p].mid < s[q].mid }
  predicate Positive(s: seq<Id2>) { forall p :: 0 <= p < |s| ==> s[p].mid > 0 }

  predicate ValidList(dl: array<Id2>)
    reads dl
  {
    0 < dl.Length && 0 <= dl[0].mid < dl.Length
  }

  function Items(dl: array<Id2>): seq<Id2>
    requires ValidList(dl)
    reads dl
  {
    dl[1..dl[0].mid + 1]
  }

  function AsMap(s: seq<Id2>): map<int, int> {
    if s == [] then map[] else AsMap(Front(s))[Last(s).mid := Last(s).mptr]
  }

  function Front(s: seq<Id2>): seq<Id2>
    requires s != []
  {
    s[..|s| - 1]
  }

  function Last(s: seq<Id2>): Id2
    requires s != []
  {
    s[|s| - 1]
  }

  lemma {:induction false} InMap(s: seq<Id2>, x: int)
    ensures x in AsMap(s) <==> exists p :: 0 <= p < |s| && s[p].mid == x
  {
    if s != [] {
      InMap(Front(s), x);
      assert forall p :: 0 <= p < |s| - 1 ==> Front(s)[p] == s[p];
    }
  }

  // ---------------------------------------------------------------- search and insert

  /** mdb_mid2l_search */
  method Search2(ids: array<Id2>, id: int) returns (x: int)
    requires ValidList(ids) && Ascending(Items(ids))
    ensures 1 <= x <= |Items(ids)| + 1
    ensures forall p :: 0 <= p < x - 1 ==> Items(ids)[p].mid < id
    ensures forall p :: x - 1 < p < |Items(ids)| ==> Items(ids)[p].mid > id
    ensures x <= |Items(ids)| ==> Items(ids)[x - 1].mid >= id && Items(ids)[x - 1] == ids[x]
  {
    var base, cursor, val, n := 0, 1, 0, ids[0].mid;
    ghost var s := Items(ids);
    assert forall k :: 1 <= k <= |s| ==> ids[k] == s[k - 1];
    while 0 < n
      invariant 0 <= base && 0 <= n && base + n <= |s|
      invariant forall p :: 0 <= p < base ==> s[p].mid < id
      invariant forall p :: base + n <= p < |s| ==> s[p].mid > id
      invariant (val == 0 && cursor == 1 && base == 0 && n == |s|)
             || (val < 0 && cursor == base + n + 1) || (val > 0 && cursor == base && 1 <= cursor)
      decreases n
    {
      var pivot := n / 2;
      cursor := base + pivot + 1;
      val := if id < ids[cursor].mid then -1 else if id > ids[cursor].mid then 1 else 0;
      if val < 0 {
        n := pivot;
      } else if val > 0 {
        base := cursor;
        n := n - (pivot + 1);
      } else {
        return cursor;
      }
    }
    if val > 0 {
      cursor := cursor + 1;
    }
    return cursor;
  }

  lemma {:induction false} PlaceTells(s: seq<Id2>, x: int, id: int)
    requires 0 <= x <= |s|
    requires forall p :: 0 <= p < x ==> s[p].mid < id
    requires forall p :: x < p < |s| ==> s[p].mid > id
    ensures id in AsMap(s) <==> x < |s| && s[x].mid == id
  {
    InMap(s, id);
  }

  /** mdb_mid2l_insert */
  method Insert2(ids: array<Id2>, id: Id2) returns (rc: int)
    requires ValidList(ids) && Ascending(Items(ids)) && ids.Length > UM_MAX
    modifies ids
    ensures ValidList(ids) && Ascending(Items(ids))
    ensures rc == if id.mid in AsMap(old(Items(ids))) then -1 else if |old(Items(ids))| >= UM_MAX then -2 else 0
    ensures rc != 0 ==> Items(ids) == old(Items(ids))
    ensures rc == 0 ==> |Items(ids)| == |old(Items(ids))| + 1 && forall k :: k in Items(ids) <==> k == id || k in old(Items(ids))
  {
    ghost var s := Items(ids);
    var x := Search2(ids, id.mid);
    PlaceTells(s, x - 1, id.mid);
    if x <= ids[0].mid && ids[x].mid == id.mid {
      return -1;
    }
    if ids[0].mid >= UM_MAX {
      return -2;
    }
    InsertAt(ids, x, id);
    Inserted2(s, x - 1, id, Items(ids));
    rc := 0;
  }

  method InsertAt(ids: array<Id2>, x: int, id: Id2)
    requires ValidList(ids) && 1 <= x <= ids[0].mid + 1 < ids.Length
    modifies ids
    ensures ValidList(ids) && Items(ids) == old(Items(ids)[..x - 1] + [id] + Items(ids)[x - 1..])
  {
    ghost var s := Items(ids);
    OpenSlot(ids, x);
    ids[x] := id;
    ghost var t, u := Items(ids), s[..x - 1] + [id] + s[x - 1..];
    forall k | 0 <= k < |u| ensures t[k] == u[k] {
      assert t[k] == ids[k + 1];
    }
    assert t == u;
  }

  /** The entries from index x on move up by one. */
  method OpenSlot(ids: array<Id2>, x: int)
    requires ValidList(ids) && 1 <= x <= ids[0].mid + 1 < ids.Length
    modifies ids
    ensures ids[0].mid == old(ids[0].mid) + 1
    ensures forall k :: 1 <= k < x ==> ids[k] == old(ids[k])
    ensures forall k :: x < k <= ids[0].mid ==> ids[k] == old(ids[k - 1])
  {
    var n := ids[0].mid + 1;
    ids[0] := ids[0].(mid := n);
    var i := n;
    while i > x
      invariant x <= i <= n && ids[0].mid == n
      invariant forall k :: 1 <= k < i ==> ids[k] == old(ids[k])
      invariant forall k :: i < k <= n ==> ids[k] == old(ids[k - 1])
    {
      ids[i] := ids[i - 1];
      i := i - 1;
    }
  }

  lemma Inserted2(s: seq<Id2>, x: int, id: Id2, t: seq<Id2>)
    requires Ascending(s) && 0 <= x <= |s| && |t| == |s| + 1
    requires t == s[..x] + [id] + s[x..]
    requires (forall p :: 0 <= p < x ==> s[p].mid < id.mid) && (forall p :: x <= p < |s| ==> s[p].mid > id.mid)
    ensures Ascending(t) && forall k :: k in t <==> k == id || k in s
  {
    assert s == s[..x] + s[x..];
    forall p, q | 0 <= p < q < |t| ensures t[p].mid < t[q].mid {
      var a, b := if p <= x then p else p - 1, if q <= x then q else q - 1;
      if p != x && q != x { assert s[a].mid < s[b].mid; }
    }
  }

  // ---------------------------------------------------------------- the merge

  /** The union of two lists, the second winning, taken from the end. */
  function Merge(a: seq<Id2>, b: seq<Id2>): (m: seq<Id2>)
    ensures |a| <= |m| <= |a| + |b| && |b| <= |m|
    decreases |a| + |b|
  {
    if b == [] then a
    else if a != [] && Last(b).mid < Last(a).mid then Merge(Front(a), b) + [Last(a)]
    else if a != [] && Last(b).mid == Last(a).mid then Merge(Front(a), Front(b)) + [Last(b)]
    else Merge(a, Front(b)) + [Last(b)]
  }

  lemma {:induction false} MergeBound(a: seq<Id2>, b: seq<Id2>, x: int)
    requires forall p :: 0 <= p < |a| ==> a[p].mid < x
    requires forall p :: 0 <= p < |b| ==> b[p].mid < x
    ensures forall p :: 0 <= p < |Merge(a, b)| ==> Merge(a, b)[p].mid < x
    decreases |a| + |b|
  {
    if b != [] {
      if a != [] && Last(b).mid < Last(a).mid {
        MergeBound(Front(a), b, x);
      } else if a != [] && Last(b).mid == Last(a).mid {
        MergeBound(Front(a), Front(b), x);
      } else {
        MergeBound(a, Front(b), x);
      }
    }
  }

  /** The merged list is strictly ascending. */
  lemma AscendingSnoc(s: seq<Id2>, e: Id2)
    requires Ascending(s) && forall p :: 0 <= p < |s| ==> s[p].mid < e.mid
    ensures Ascending(s + [e])
  {
  }

  lemma {:induction false} MergeAscending(a: seq<Id2>, b: seq<Id2>)
    requires Ascending(a) && Ascending(b)
    ensures Ascending(Merge(a, b))
    decreases |a| + |b|
  {
    if b != [] {
      if a != [] && Last(b).mid < Last(a).mid {
        MergeAscending(Front(a), b);
        MergeBound(Front(a), b, Last(a).mid);
        AscendingSnoc(Merge(Front(a), b), Last(a));
      } else if a != [] && Last(b).mid == Last(a).mid {
        MergeAscending(Front(a), Front(b));
        MergeBound(Front(a), Front(b), Last(b).mid);
        AscendingSnoc(Merge(Front(a), Front(b)), Last(b));
      } else {
        MergeAscending(a, Front(b));
        MergeBound(a, Front(b), Last(b).mid);
        AscendingSnoc(Merge(a, Front(b)), Last(b));
      }
    }
  }

  lemma {:induction false} SnocMap(s: seq<Id2>, e: Id2)
    ensures AsMap(s + [e]) == AsMap(s)[e.mid := e.mptr]
  {
    assert Front(s + [e]) == s;
  }

  lemma Override(m: map<int, int>, n: map<int, int>, k: int, u: int, v: int)
    ensures k !in n ==> (m + n)[k := u] == m[k := u] + n
    ensures (m + n)[k := v] == m[k := u] + n[k := v]
    ensures (m + n)[k := v] == m + n[k := v]
  {
  }

  /** It is the parent's list overridden by the child's. */
  lemma {:induction false} MergeIsOverride(a: seq<Id2>, b: seq<Id2>)
    requires Ascending(a) && Ascending(b)
    ensures AsMap(Merge(a, b)) == AsMap(a) + AsMap(b)
    decreases |a| + |b|
  {
    if b != [] {
      if a != [] && Last(b).mid < Last(a).mid {
        MergeIsOverride(Front(a), b);
        SnocMap(Merge(Front(a), b), Last(a));
        InMap(b, Last(a).mid);
        Override(AsMap(Front(a)), AsMap(b), Last(a).mid, Last(a).mptr, 0);
      } else if a != [] && Last(b).mid == Last(a).mid {
        MergeIsOverride(Front(a), Front(b));
        SnocMap(Merge(Front(a), Front(b)), Last(b));
        Override(AsMap(Front(a)), AsMap(Front(b)), Last(b).mid, Last(a).mptr, Last(b).mptr);
      } else {
        MergeIsOverride(a, Front(b));
        SnocMap(Merge(a, Front(b)), Last(b));
        Override(AsMap(a), AsMap(Front(b)), Last(b).mid, 0, Last(b).mptr);
      }
    }
  }

  lemma {:induction false} MapSize(s: seq<Id2>)
    requires Ascending(s)
    ensures |AsMap(s)| == |AsMap(s).Keys| == |s|
  {
    if s != [] {
      MapSize(Front(s));
      InMap(Front(s), Last(s).mid);
      assert AsMap(s).Keys == AsMap(Front(s)).Keys + {Last(s).mid};
    }
  }

  /** The array while it is being merged into m: the parent's first x entries
      are still to be read, behind index i sits the end of the result. */
  predicate Merging2(dst: array<Id2>, a: seq<Id2>, b: seq<Id2>, m: seq<Id2>, x: int, y: int, i: int)
    reads dst
  {
    && 0 <= x <= |a| && 0 <= y <= |b| && x <= i <= |m| < dst.Length && dst[0].mid == 0
    && Merge(a[..x], b[..y]) == m[..i]
    && (forall k :: 1 <= k <= x ==> dst[k] == a[k - 1])
    && (forall k :: i < k <= |m| ==> dst[k] == m[k - 1])
  }

  lemma Snoc<T>(m: seq<T>, e: T, all: seq<T>, i: int)
    requires 0 <= i <= |all| && m + [e] == all[..i]
    ensures i > 0 && all[i - 1] == e && m == all[..i - 1] && |m| == i - 1
  {
    assert m == (m + [e])[..|m|];
  }

  /** One entry of the parent moves up. */
  lemma MoveOne(a: seq<Id2>, b: seq<Id2>, m: seq<Id2>, x: int, y: int, i: int)
    requires 0 < x <= |a| && 0 < y <= |b| && 0 <= i <= |m| && Merge(a[..x], b[..y]) == m[..i]
    requires b[y - 1].mid < a[x - 1].mid
    ensures i > 0 && m[i - 1] == a[x - 1] && Merge(a[..x - 1], b[..y]) == m[..i - 1]
    ensures x - 1 <= i - 1
  {
    assert Front(a[..x]) == a[..x - 1];
    Snoc(Merge(a[..x - 1], b[..y]), a[x - 1], m, i);
  }

  lemma {:induction false} MergePut(a: seq<Id2>, b: seq<Id2>, a': seq<Id2>)
    requires b != [] && (a != [] ==> Last(b).mid >= Last(a).mid)
    requires a' == if a != [] && Last(b).mid == Last(a).mid then Front(a) else a
    ensures Merge(a, b) == Merge(a', Front(b)) + [Last(b)]
  {
  }

  /** One entry of the child goes in; an equal one of the parent is dropped. */
  lemma PutOne(a: seq<Id2>, b: seq<Id2>, m: seq<Id2>, x: int, y: int, i: int, x': int)
    requires 0 <= x <= |a| && 0 < y <= |b| && 0 <= i <= |m| && Merge(a[..x], b[..y]) == m[..i]
    requires x > 0 ==> b[y - 1].mid >= a[x - 1].mid
    requires x' == if x > 0 && a[x - 1].mid == b[y - 1].mid then x - 1 else x
    ensures i > 0 && m[i - 1] == b[y - 1] && Merge(a[..x'], b[..y - 1]) == m[..i - 1]
    ensures x' <= i - 1
  {
    var p, q, p', q' := a[..x], b[..y], a[..x'], b[..y - 1];
    assert Front(q) == q' && Last(q) == b[y - 1];
    assert x' < x ==> Front(p) == p' && Last(p) == a[x - 1];
    MergePut(p, q, p');
    Snoc(Merge(p', q'), b[y - 1], m, i);
  }

  /** The parent's entries above yp move to the end of the result.  The zero
      in element 0 stops the scan. */
  method MoveUp(dst: array<Id2>, yp: int, x0: int, y: int, i0: int, ghost a: seq<Id2>, ghost b: seq<Id2>, ghost m: seq<Id2>)
    returns (x: int, i: int)
    requires Merging2(dst, a, b, m, x0, y, i0) && y > 0 && yp == b[y - 1].mid > 0
    modifies dst
    ensures Merging2(dst, a, b, m, x, y, i) && dst[x].mid <= yp
  {
    x, i := x0, i0;
    while yp < dst[x].mid
      invariant Merging2(dst, a, b, m, x, y, i)
      decreases x
    {
      MoveSlot(dst, x, y, i, a, b, m);
      i, x := i - 1, x - 1;
    }
  }

  method MoveSlot(dst: array<Id2>, x: int, ghost y: int, i: int, ghost a: seq<Id2>, ghost b: seq<Id2>, ghost m: seq<Id2>)
    requires Merging2(dst, a, b, m, x, y, i) && x > 0 && y > 0 && b[y - 1].mid < a[x - 1].mid
    modifies dst
    ensures Merging2(dst, a, b, m, x - 1, y, i - 1)
  {
    MoveOne(a, b, m, x, y, i);
    dst[i] := dst[x];
  }

  method TakeOne(dst: array<Id2>, e: Id2, x0: int, y: int, i: int, ghost a: seq<Id2>, ghost b: seq<Id2>, ghost m: seq<Id2>)
    returns (x: int)
    requires Merging2(dst, a, b, m, x0, y, i) && y > 0 && e == b[y - 1] && dst[x0].mid <= e.mid && e.mid > 0
    modifies dst
    ensures Merging2(dst, a, b, m, x, y - 1, i - 1)
  {
    x := x0;
    if e.mid == dst[x].mid {
      x := x - 1;
    }
    PutOne(a, b, m, x0, y, i, x);
    dst[i] := e;
  }

  method MergeAll(dst: array<Id2>, src: array<Id2>, x0: int, y0: int, i0: int,
                  ghost a: seq<Id2>, ghost b: seq<Id2>, ghost m: seq<Id2>)
    returns (x: int, i: int)
    requires dst != src && Merging2(dst, a, b, m, x0, y0, i0)
    requires y0 < src.Length && forall k :: 1 <= k <= y0 ==> src[k] == b[k - 1] && src[k].mid > 0
    modifies dst
    ensures Merging2(dst, a, b, m, x, 0, i)
  {
    var y := y0;
    x, i := x0, i0;
    while y > 0
      invariant y <= y0 && Merging2(dst, a, b, m, x, y, i)
      decreases y
    {
      x, i := MoveUp(dst, src[y].mid, x, y, i, a, b, m);
      x := TakeOne(dst, src[y], x, y, i, a, b, m);
      i, y := i - 1, y - 1;
    }
  }

  /** The backward merge of a committing child's dirty list into its parent's.
      It needs len to be the size of the union; then it never overwrites an
      entry it has still to read, and ends with i == x. */
  method MergeDirty(dst: array<Id2>, src: array<Id2>, x0: int, len: int, ghost a: seq<Id2>)
    requires dst != src && ValidList(src) && 0 <= x0 < dst.Length && dst[0].mid == 0 && a == dst[1..x0 + 1]
    requires Positive(a) && Positive(Items(src)) && len == |Merge(a, Items(src))| < dst.Length
    modifies dst
    ensures ValidList(dst) && Items(dst) == Merge(a, Items(src))
  {
    ghost var b := Items(src);
    ghost var m := Merge(a, b);
    assert a[..x0] == a && b[..|b|] == b && m[..len] == m;
    var x, i := MergeAll(dst, src, x0, src[0].mid, len, a, b, m);
    assert b[..0] == [];
    assert i == x;
    dst[0] := dst[0].(mid := len);
    Assembled(Items(dst), m, a, b, x, i);
  }

  lemma Assembled(t: seq<Id2>, m: seq<Id2>, a: seq<Id2>, b: seq<Id2>, x: int, i: int)
    requires 0 <= x == i <= |a| && i <= |m| == |t| && m[..i] == Merge(a[..x], [])
    requires forall k :: 0 <= k < x ==> t[k] == a[k]
    requires forall k :: i <= k < |m| ==> t[k] == m[k]
    ensures t == m
  {
    forall k | 0 <= k < |m| ensures t[k] == m[k] {
      if k < i { assert m[..i][k] == a[..x][k]; }
    }
  }
}
