/**
 What a committing child does to its parent's lists: the spill list loses the
 child's dirty pages, the dirty list loses its spilled ones and takes its dirty
 ones, in place.
 */
module DirtyCommit {
  import opened IdList
  import opened DirtyList
  import Nested

  // ---------------------------------------------------------------- counting the union

  /** Entries both lists have. */
  function Common(a: seq<Id2>, b: seq<Id2>): int { |a| + |b| - |Merge(a, b)| }

  lemma CommonSteps(a: seq<Id2>, b: seq<Id2>, x: int, y: int)
    requires 0 <= x <= |a| && 0 < y <= |b|
    ensures x > 0 && b[y - 1].mid < a[x - 1].mid ==> Common(a[..x], b[..y]) == Common(a[..x - 1], b[..y])
    ensures x > 0 && b[y - 1].mid == a[x - 1].mid ==> Common(a[..x], b[..y]) == Common(a[..x - 1], b[..y - 1]) + 1
    ensures x == 0 || b[y - 1].mid > a[x - 1].mid ==> Common(a[..x], b[..y]) == Common(a[..x], b[..y - 1])
  {
    var p, q := a[..x], b[..y];
    assert Front(q) == b[..y - 1] && Last(q) == b[y - 1];
    if x > 0 { assert Front(p) == a[..x - 1] && Last(p) == a[x - 1]; }
    CommonUnfold(p, q);
  }

  lemma CommonUnfold(p: seq<Id2>, q: seq<Id2>)
    requires q != []
    ensures p != [] && Last(q).mid < Last(p).mid ==> Common(p, q) == Common(Front(p), q)
    ensures p != [] && Last(q).mid == Last(p).mid ==> Common(p, q) == Common(Front(p), Front(q)) + 1
    ensures p == [] || Last(q).mid > Last(p).mid ==> Common(p, q) == Common(p, Front(q))
  {
  }

  lemma {:induction false} CommonWithNothing(b: seq<Id2>)
    ensures Common([], b) == 0
    decreases |b|
  {
    if b != [] { CommonWithNothing(Front(b)); }
  }

  /** Child entries beyond the parent's last one are not common. */
  lemma {:induction false} CommonBelow(a: seq<Id2>, b: seq<Id2>, y: int)
    requires 0 <= y <= |b| && forall p :: y <= p < |b| ==> a == [] || b[p].mid > Last(a).mid
    ensures Common(a, b) == Common(a, b[..y])
    decreases |b|
  {
    if y == |b| {
      assert b[..y] == b;
    } else {
      CommonUnfold(a, b);
      CommonBelow(a, Front(b), y);
      assert Front(b)[..y] == b[..y];
    }
  }

  method SkipAbove(dst: array<Id2>, yp: int, i0: int, ghost y: int, ghost a: seq<Id2>, ghost b: seq<Id2>) returns (i: int)
    requires 0 <= i0 <= |a| && i0 < dst.Length && dst[0].mid == 0 && forall k :: 1 <= k <= i0 ==> dst[k] == a[k - 1]
    requires 0 < y <= |b| && yp == b[y - 1].mid > 0
    ensures 0 <= i <= i0 && Common(a[..i], b[..y]) == Common(a[..i0], b[..y]) && dst[i].mid <= yp
  {
    i := i0;
    while yp < dst[i].mid
      invariant 0 <= i <= i0 && Common(a[..i], b[..y]) == Common(a[..i0], b[..y])
      decreases i
    {
      CommonSteps(a, b, i, y);
      i := i - 1;
    }
  }

  lemma CommonTake(a: seq<Id2>, b: seq<Id2>, i: int, y: int, i': int, d: int)
    requires 0 <= i <= |a| && 0 < y <= |b| && (i > 0 ==> a[i - 1].mid <= b[y - 1].mid)
    requires if i > 0 && a[i - 1].mid == b[y - 1].mid then i' == i - 1 && d == 1 else i' == i && d == 0
    ensures Common(a[..i], b[..y]) == Common(a[..i'], b[..y - 1]) + d
  {
    CommonSteps(a, b, i, y);
  }

  /** The general counting loop: the length of the union. */
  method CountUnion(dst: array<Id2>, src: array<Id2>, x: int, ghost a: seq<Id2>) returns (len: int)
    requires ValidList(src) && 0 <= x < dst.Length && dst[0].mid == 0 && a == dst[1..x + 1]
    requires Ascending(a) && Positive(a) && Ascending(Items(src)) && Positive(Items(src))
    ensures len == |Merge(a, Items(src))|
  {
    ghost var b := Items(src);
    var y := Search2(src, dst[x].mid + 1);
    y := y - 1;
    assert x > 0 ==> dst[x] == Last(a);
    CommonBelow(a, b, y);
    assert a[..x] == a;
    assert forall k :: 1 <= k <= |b| ==> src[k] == b[k - 1];
    len := CountDown(dst, src, x, y, a, b);
  }

  method CountDown(dst: array<Id2>, src: array<Id2>, x: int, y0: int, ghost a: seq<Id2>, ghost b: seq<Id2>) returns (len: int)
    requires 0 <= x == |a| && x < dst.Length && dst[0].mid == 0 && forall k :: 1 <= k <= x ==> dst[k] == a[k - 1]
    requires 0 <= y0 <= |b| < src.Length && src[0].mid == |b|
    requires forall k :: 1 <= k <= |b| ==> src[k] == b[k - 1] && src[k].mid > 0
    ensures len == |a| + |b| - Common(a[..x], b[..y0])
  {
    len := x + src[0].mid;
    var i, y := x, y0;
    while y > 0 && i > 0
      invariant 0 <= i <= x && 0 <= y <= y0
      invariant len - Common(a[..i], b[..y]) == |a| + |b| - Common(a[..x], b[..y0])
      decreases y
    {
      var yp := src[y].mid;
      i := SkipAbove(dst, yp, i, y, a, b);
      ghost var was := i;
      if yp == dst[i].mid {
        i, len := i - 1, len - 1;
      }
      CommonTake(a, b, was, y, i, was - i);
      y := y - 1;
    }
    if i == 0 {
      CommonWithNothing(b[..y]);
      assert a[..i] == [];
    } else {
      assert b[..y] == [];
    }
  }

  // ---------------------------------------------------------------- the parent's spill list

  predicate Even(v: int) { v % 2 == 0 }

  /** Spill lists are descending; only deleted slots may repeat. */
  ghost predicate Tidy(s: seq<int>) {
    forall p, q :: 0 <= p < q < |s| ==> s[p] >= s[q] && (Even(s[p]) ==> s[p] > s[q])
  }

  /** They hold page numbers times two; an odd one is a deleted slot. */
  ghost predicate OnList(s: seq<int>, p: int) { 2 * p in s }

  ghost predicate InDirty(b: seq<Id2>, p: int) { exists k :: 0 <= k < |b| && b[k].mid == p }

  /** How the marking loop stands: the first y0 of b are done; slots behind x
      are passed, those of b's pages hold 1, and the slots up to y are clean. */
  ghost predicate Marking(t: seq<int>, s: seq<int>, b: seq<Id2>, n: int, x: int, y: int) {
    && |t| == |s| && 0 <= n <= |b| && 0 <= x <= y <= |s|
    && (forall k :: 0 <= k < x ==> t[k] == s[k] && (n > 0 ==> s[k] > 2 * b[n - 1].mid))
    && (forall k :: x <= k < |s| ==> n > 0 && s[k] <= 2 * b[n - 1].mid)
    && (forall k :: x <= k < |s| ==> t[k] == if Marked(s[k], b, n) then 1 else s[k])
    && (forall k :: x <= k < y ==> !Marked(s[k], b, n))
  }

  ghost predicate Marked(v: int, b: seq<Id2>, n: int)
    requires 0 <= n <= |b|
  {
    exists k :: 0 <= k < n && 2 * b[k].mid == v
  }

  /** The next page to mark lies left of everything passed. */
  lemma MarkNext(t: seq<int>, s: seq<int>, b: seq<Id2>, n: int, x0: int, x: int, y: int)
    requires Marking(t, s, b, n, x0, y) && Tidy(s) && Ascending(b) && n < |b| && 0 <= x <= x0
    requires forall k :: x <= k < x0 ==> s[k] < 2 * b[n].mid
    requires x > 0 ==> s[x - 1] >= 2 * b[n].mid
    ensures if x > 0 && s[x - 1] == 2 * b[n].mid then Marking(t[x - 1 := 1], s, b, n + 1, x - 1, x - 1)
            else Marking(t, s, b, n + 1, x, y)
  {
    var pn := 2 * b[n].mid;
    forall v ensures Marked(v, b, n + 1) <==> Marked(v, b, n) || v == pn {}
    assert forall k :: 0 <= k < n ==> b[k].mid <= b[n - 1].mid < b[n].mid;
    var found := x > 0 && s[x - 1] == pn;
    var x' := if found then x - 1 else x;
    forall k | 0 <= k < x' ensures s[k] > pn {}
    forall k | x' <= k < |s| ensures s[k] <= pn && (Marked(s[k], b, n) ==> k >= x0) {
      if k < x0 { assert forall j :: 0 <= j < n ==> 2 * b[j].mid <= 2 * b[n - 1].mid < s[k]; }
    }
  }

  /** Marks, from the end, the slots of the child's dirty pages.  The largest
      id in element 0 stops the scan. */
  method MarkDirtied(sl: array<int>, src: array<Id2>, psLen: int, ghost s: seq<int>, ghost b: seq<Id2>)
    returns (y: int, ghost x: int, ghost t: seq<int>)
    requires 0 <= psLen == |s| < sl.Length && sl[0] == SENTINEL && Tidy(s)
    requires forall k :: 1 <= k <= psLen ==> sl[k] == s[k - 1]
    requires ValidList(src) && |b| == src[0].mid && Ascending(b)
    requires forall k :: 1 <= k <= |b| ==> src[k] == b[k - 1] && 2 * src[k].mid < SENTINEL
    modifies sl
    ensures Marking(t, s, b, |b|, x, y) && forall k :: 1 <= k <= psLen ==> sl[k] == t[k - 1]
  {
    var len, u, i := src[0].mid, psLen, 0;
    t, x, y := s, psLen, psLen;
    while i < len
      invariant 0 <= i <= len && x == u && sl[0] == SENTINEL
      invariant Marking(t, s, b, i, x, y) && forall k :: 1 <= k <= psLen ==> sl[k] == t[k - 1]
    {
      i := i + 1;
      var pn := 2 * src[i].mid;
      while pn > sl[u]
        invariant 0 <= u <= x && forall k :: u <= k < x ==> s[k] < pn
        decreases u
      {
        u := u - 1;
      }
      MarkNext(t, s, b, i - 1, x, u, y);
      if pn == sl[u] {
        sl[u] := 1;
        t := t[u - 1 := 1];
        u := u - 1;
        y := u;
      }
      x := u;
    }
  }

  function Evens(t: seq<int>): seq<int> {
    if t == [] then [] else Evens(t[..|t| - 1]) + if Even(t[|t| - 1]) then [t[|t| - 1]] else []
  }

  /** Squashes the deleted slots behind y. */
  method Squash(sl: array<int>, psLen: int, y0: int, ghost t: seq<int>)
    requires 0 <= y0 <= psLen == |t| < sl.Length && forall k :: 1 <= k <= psLen ==> sl[k] == t[k - 1]
    modifies sl
    ensures 0 <= sl[0] <= psLen && Held(sl) == t[..y0] + Evens(t[y0..])
  {
    var x, y := y0 + 1, y0;
    ghost var done := t[..y0];
    assert t[y0..y0] == [];
    while x <= psLen
      invariant y0 < x <= psLen + 1 && y0 <= y < x
      invariant done == t[..y0] + Evens(t[y0..x - 1]) && |done| == y
      invariant forall k :: 1 <= k <= y ==> sl[k] == done[k - 1]
      invariant forall k :: x <= k <= psLen ==> sl[k] == t[k - 1]
    {
      assert t[y0..x][..x - y0 - 1] == t[y0..x - 1];
      if Even(sl[x]) {
        y := y + 1;
        done := done + [sl[x]];
        sl[y] := sl[x];
      }
      x := x + 1;
    }
    sl[0] := y;
    assert t[y0..psLen] == t[y0..];
    assert Held(sl) == done;
  }

  lemma {:induction false} EvensIn(t: seq<int>, v: int)
    ensures v in Evens(t) <==> v in t && Even(v)
  {
    if t != [] {
      var n := |t| - 1;
      EvensIn(t[..n], v);
      assert t == t[..n] + [t[n]];
    }
  }

  lemma {:induction false} EvensStrict(t: seq<int>, s: seq<int>)
    requires |t| == |s| && Tidy(s) && forall k :: 0 <= k < |t| && Even(t[k]) ==> t[k] == s[k]
    ensures Strict(Evens(t)) && forall k :: 0 <= k < |Evens(t)| ==> Even(Evens(t)[k]) && Evens(t)[k] in s
  {
    if t != [] {
      var n := |t| - 1;
      EvensStrict(t[..n], s[..n]);
      var e := Evens(t[..n]);
      forall k | 0 <= k < |e| ensures e[k] in s && e[k] > s[n] {
        var j :| 0 <= j < n && s[..n][j] == e[k];
        assert s[j] == e[k];
      }
    }
  }

  /** The squashed list: the old one without the slots of the child's pages. */
  lemma Purged(t: seq<int>, s: seq<int>, b: seq<Id2>, x: int, y: int)
    requires Marking(t, s, b, |b|, x, y) && Tidy(s) && Ascending(b)
    ensures Tidy(t[..y] + Evens(t[y..]))
    ensures forall p :: OnList(t[..y] + Evens(t[y..]), p) <==> OnList(s, p) && !InDirty(b, p)
  {
    var e := Evens(t[y..]);
    PurgedTidy(t, s, y, e);
    forall p ensures OnList(t[..y] + e, p) <==> OnList(s, p) && !InDirty(b, p) {
      EvensIn(t[y..], 2 * p);
      PurgedOne(t, s, b, x, y, p);
    }
  }

  lemma PurgedTidy(t: seq<int>, s: seq<int>, y: int, e: seq<int>)
    requires Tidy(s) && |t| == |s| && 0 <= y <= |s| && e == Evens(t[y..])
    requires forall k :: 0 <= k < y ==> t[k] == s[k]
    requires forall k :: y <= k < |s| && Even(t[k]) ==> t[k] == s[k]
    ensures Tidy(t[..y] + e)
  {
    EvensStrict(t[y..], s[y..]);
    forall k, j | 0 <= k < y && 0 <= j < |e| ensures t[k] > e[j] {
      var i :| 0 <= i < |s| - y && s[y..][i] == e[j];
      assert s[k] >= s[y + i] && Even(s[y + i]);
    }
    var r := t[..y] + e;
    forall p, q | 0 <= p < q < |r| ensures r[p] >= r[q] && (Even(r[p]) ==> r[p] > r[q]) {
      if q < y { assert s[p] >= s[q]; }
    }
  }

  lemma PurgedOne(t: seq<int>, s: seq<int>, b: seq<Id2>, x: int, y: int, p: int)
    requires Marking(t, s, b, |b|, x, y) && Tidy(s) && Ascending(b)
    ensures (2 * p in t[..y] || 2 * p in t[y..]) <==> OnList(s, p) && !InDirty(b, p)
  {
    assert Marked(2 * p, b, |b|) <==> InDirty(b, p);
    if 2 * p in s {
      var k :| 0 <= k < |s| && s[k] == 2 * p;
      assert k < x ==> forall j :: 0 <= j < |b| ==> 2 * b[j].mid <= 2 * b[|b| - 1].mid < s[k];
      if !Marked(2 * p, b, |b|) {
        assert t[k] == 2 * p;
        assert k < y ==> t[..y][k] == 2 * p;
        assert k >= y ==> t[y..][k - y] == 2 * p;
      }
    }
    if 2 * p in t {
      var k :| 0 <= k < |t| && t[k] == 2 * p;
      assert s[k] == 2 * p;
    }
    assert t == t[..y] + t[y..];
  }

  /** The pages dirty in the child leave the parent's spill list. */
  method PurgeDirtied(sl: array<int>, src: array<Id2>)
    requires 0 < sl.Length && 0 <= sl[0] < sl.Length && Tidy(Held(sl))
    requires ValidList(src) && Ascending(Items(src))
    requires forall k :: 0 <= k < |Items(src)| ==> 2 * Items(src)[k].mid < SENTINEL
    modifies sl
    ensures 0 <= sl[0] < sl.Length && Tidy(Held(sl))
    ensures forall p :: OnList(Held(sl), p) <==> OnList(old(Held(sl)), p) && !InDirty(Items(src), p)
    ensures sl[0] <= old(sl[0])
  {
    ghost var s, b := Held(sl), Items(src);
    var psLen := sl[0];
    assert forall k :: 1 <= k <= |b| ==> src[k] == b[k - 1];
    if psLen > 0 {
      sl[0] := SENTINEL;
      ghost var x, t;
      var y;
      y, x, t := MarkDirtied(sl, src, psLen, s, b);
      Squash(sl, psLen, y, t);
      Purged(t, s, b, x, y);
    }
  }

  // ---------------------------------------------------------------- the parent's dirty list

  /** The pages spilled by the child leave the parent's dirty list. */
  method RemoveSpilled(dst: array<Id2>, spill: array<int>)
    requires ValidList(dst) && Ascending(Items(dst)) && 0 < spill.Length && 0 <= spill[0] < spill.Length
    modifies dst
    ensures ValidList(dst) && Ascending(Items(dst))
    ensures forall k :: k in Items(dst) <==> k in old(Items(dst)) && !OnList(Held(spill), k.mid)
  {
    var i := 1;
    ghost var s := Held(spill);
    while i <= spill[0]
      invariant 1 <= i <= |s| + 1
      invariant ValidList(dst) && Ascending(Items(dst))
      invariant forall k :: k in Items(dst) <==> k in old(Items(dst)) && !OnList(s[..i - 1], k.mid)
    {
      var pn := spill[i];
      OneMore(s, i, pn);
      if Even(pn) {
        RemovePage(dst, pn / 2);
      }
      i := i + 1;
    }
    assert s[..i - 1] == s;
  }

  lemma OneMore(s: seq<int>, i: int, pn: int)
    requires 0 < i <= |s| && pn == s[i - 1]
    ensures forall p :: OnList(s[..i], p) <==> OnList(s[..i - 1], p) || 2 * p == pn
  {
    assert s[..i] == s[..i - 1] + [pn];
  }

  /** One page leaves the dirty list, if it is there. */
  method RemovePage(dst: array<Id2>, pn: int)
    requires ValidList(dst) && Ascending(Items(dst))
    modifies dst
    ensures ValidList(dst) && Ascending(Items(dst))
    ensures forall k :: k in Items(dst) <==> k in old(Items(dst)) && k.mid != pn
  {
    ghost var was := Items(dst);
    var y := Search2(dst, pn);
    if y <= dst[0].mid && dst[y].mid == pn {
      CloseSlot(dst, y);
      Removed(was, y - 1, Items(dst));
    } else {
      NotThere(was, y - 1, pn);
    }
  }

  lemma NotThere(s: seq<Id2>, y: int, pn: int)
    requires Ascending(s) && 0 <= y <= |s|
    requires (forall k :: 0 <= k < y ==> s[k].mid < pn) && (forall k :: y <= k < |s| ==> s[k].mid > pn)
    ensures forall k :: k in s ==> k.mid != pn
  {
  }


  method CloseSlot(dst: array<Id2>, y0: int)
    requires ValidList(dst) && 1 <= y0 <= dst[0].mid
    modifies dst
    ensures ValidList(dst) && Items(dst) == old(Items(dst)[..y0 - 1] + Items(dst)[y0..])
  {
    ghost var s := Items(dst);
    ShiftSlots(dst, y0, s);
    dst[0] := dst[0].(mid := dst[0].mid - 1);
    ghost var t := Items(dst);
    forall k | 0 <= k < |t| ensures t[k] == s[if k < y0 - 1 then k else k + 1] {
      assert t[k] == dst[k + 1];
    }
    WithoutOne(s, y0 - 1, t);
  }

  method ShiftSlots(dst: array<Id2>, y0: int, ghost s: seq<Id2>)
    requires ValidList(dst) && 1 <= y0 <= dst[0].mid && s == Items(dst)
    modifies dst
    ensures dst[0] == old(dst[0])
    ensures forall k :: 1 <= k < |s| ==> dst[k] == s[if k < y0 then k - 1 else k]
  {
    var y := y0;
    while y < dst[0].mid
      invariant y0 <= y <= |s| == dst[0].mid < dst.Length && dst[0] == old(dst[0])
      invariant forall k :: 1 <= k < y ==> dst[k] == s[if k < y0 then k - 1 else k]
      invariant forall k :: y < k <= |s| ==> dst[k] == s[k - 1]
    {
      dst[y] := dst[y + 1];
      y := y + 1;
    }
  }

  lemma WithoutOne(s: seq<Id2>, y: int, t: seq<Id2>)
    requires 0 <= y < |s| && |t| == |s| - 1 && forall k :: 0 <= k < |t| ==> t[k] == s[if k < y then k else k + 1]
    ensures t == s[..y] + s[y + 1..]
  {
  }

  lemma RemovedAt(s: seq<Id2>, y: int, t: seq<Id2>)
    requires 0 <= y < |s| && t == s[..y] + s[y + 1..]
    ensures |t| == |s| - 1 && forall i :: 0 <= i < |t| ==> t[i] == s[if i < y then i else i + 1]
  {
  }

  lemma RemovedIn(s: seq<Id2>, y: int, t: seq<Id2>, k: Id2)
    requires Ascending(s) && 0 <= y < |s| && |t| == |s| - 1
    requires forall i :: 0 <= i < |t| ==> t[i] == s[if i < y then i else i + 1]
    ensures k in t <==> k in s && k.mid != s[y].mid
  {
    if k in t {
      var i :| 0 <= i < |t| && t[i] == k;
    }
    if k in s && k.mid != s[y].mid {
      var j :| 0 <= j < |s| && s[j] == k;
      assert t[if j < y then j else j - 1] == k;
    }
  }

  lemma Removed(s: seq<Id2>, y: int, t: seq<Id2>)
    requires Ascending(s) && 0 <= y < |s| && t == s[..y] + s[y + 1..]
    ensures Ascending(t) && forall k :: k in t <==> k in s && k.mid != s[y].mid
  {
    RemovedAt(s, y, t);
    forall k { RemovedIn(s, y, t, k); }
  }

  // ---------------------------------------------------------------- the commit

  lemma {:induction false} InAsMap(s: seq<Id2>, k: Id2)
    requires Ascending(s)
    ensures k in s <==> k.mid in AsMap(s) && AsMap(s)[k.mid] == k.mptr
  {
    if s != [] {
      InAsMap(Front(s), k);
      InMap(Front(s), Last(s).mid);
      assert s == Front(s) + [Last(s)];
    }
  }

  lemma {:induction false} RemovedMap(s: seq<Id2>, t: seq<Id2>, gone: set<int>)
    requires Ascending(s) && Ascending(t) && forall k :: k in t <==> k in s && k.mid !in gone
    ensures AsMap(t) == AsMap(s) - gone
  {
    var m := AsMap(s) - gone;
    forall x | x in AsMap(t) ensures x in m && m[x] == AsMap(t)[x] {
      InAsMap(t, Id2(x, AsMap(t)[x]));
      InAsMap(s, Id2(x, AsMap(t)[x]));
    }
    forall x | x in m ensures x in AsMap(t) {
      InAsMap(s, Id2(x, m[x]));
      InAsMap(t, Id2(x, m[x]));
    }
  }

  lemma {:induction false} DirtyIs(s: seq<Id2>, p: int)
    ensures InDirty(s, p) <==> p in AsMap(s)
  {
    InMap(s, p);
  }

  function Pages(s: seq<int>): set<int> { set v | v in s && Even(v) :: v / 2 }

  lemma PagesAre(s: seq<int>, p: int)
    ensures p in Pages(s) <==> OnList(s, p)
  {
    assert 2 * p / 2 == p;
  }

  /** Two spill lists appended and sorted. */
  lemma SortedSpill(s: seq<int>, c: seq<int>, t: seq<int>)
    requires Tidy(s) && Tidy(c) && Loose(t) && multiset(t) == multiset(s + c)
    requires forall p :: !(OnList(s, p) && OnList(c, p))
    ensures Tidy(t) && forall v :: v in t <==> v in s || v in c
  {
    forall v ensures v in t <==> v in s || v in c {
      assert v in t <==> v in multiset(t);
    }
    forall p, q | 0 <= p < q < |t| && Even(t[p]) ensures t[p] > t[q] {
      EvenOnce(s, t[p]);
      EvenOnce(c, t[p]);
      assert 2 * (t[p] / 2) == t[p];
      assert !(OnList(s, t[p] / 2) && OnList(c, t[p] / 2));
      assert multiset(t)[t[p]] == multiset(s)[t[p]] + multiset(c)[t[p]];
      NotTwice(t, p, q);
    }
  }

  lemma {:induction false} EvenOnce(s: seq<int>, v: int)
    requires Tidy(s) && Even(v)
    ensures multiset(s)[v] == if v in s then 1 else 0
  {
    if s != [] {
      assert s == [s[0]] + s[1..];
      EvenOnce(s[1..], v);
    }
  }

  /** Page numbers: positive, and small enough to be doubled. */
  predicate Numbers(s: seq<Id2>) { forall k :: 0 <= k < |s| ==> 0 < 2 * s[k].mid < SENTINEL }

  lemma NumbersIn(s: seq<Id2>, t: seq<Id2>)
    requires Numbers(s) && forall k :: k in t ==> k in s
    ensures Numbers(t) && Positive(t)
  {
    forall k | 0 <= k < |t| ensures 0 < 2 * t[k].mid < SENTINEL { assert t[k] in t; }
  }

  lemma {:induction false} MergeNumbers(a: seq<Id2>, b: seq<Id2>)
    requires Ascending(a) && Ascending(b) && Numbers(a) && Numbers(b)
    ensures Numbers(Merge(a, b))
  {
    var m := Merge(a, b);
    MergeAscending(a, b);
    MergeIsOverride(a, b);
    forall k | 0 <= k < |m| ensures 0 < 2 * m[k].mid < SENTINEL {
      InAsMap(m, m[k]);
      InMap(a, m[k].mid);
      InMap(b, m[k].mid);
    }
  }

  /** The dirty list: without the child's spilled pages, and with its dirty ones. */
  method CommitDirty(dst: array<Id2>, src: array<Id2>, spill: array<int>, single: bool, room: int)
    requires dst != src && dst.Length == UM_MAX + 1 && ValidList(dst) && Ascending(Items(dst)) && Numbers(Items(dst))
    requires ValidList(src) && Ascending(Items(src)) && Numbers(Items(src))
    requires 0 < spill.Length && 0 <= spill[0] < spill.Length
    requires var m := (AsMap(Items(dst)) - Pages(Held(spill))) + AsMap(Items(src));
      |m| <= UM_MAX && (single ==> |m| == UM_MAX - room)
    modifies dst
    ensures ValidList(dst) && Ascending(Items(dst)) && Numbers(Items(dst))
    ensures AsMap(Items(dst)) == (old(AsMap(Items(dst))) - Pages(Held(spill))) + AsMap(Items(src))
  {
    ghost var was, gone := Items(dst), Held(spill);
    if spill[0] > 0 {
      RemoveSpilled(dst, spill);
    }
    WithoutSpilled(was, Items(dst), gone);
    MergeCounted(dst, src, single, room);
  }

  lemma {:induction false} WithoutSpilled(was: seq<Id2>, a: seq<Id2>, gone: seq<int>)
    requires Ascending(was) && Ascending(a) && Numbers(was)
    requires forall k :: k in a <==> k in was && !OnList(gone, k.mid)
    ensures AsMap(a) == AsMap(was) - Pages(gone) && Numbers(a)
  {
    forall k ensures k in a <==> k in was && k.mid !in Pages(gone) { PagesAre(gone, k.mid); }
    RemovedMap(was, a, Pages(gone));
    NumbersIn(was, a);
  }

  method MergeCounted(dst: array<Id2>, src: array<Id2>, single: bool, room: int)
    requires dst != src && dst.Length == UM_MAX + 1 && ValidList(dst) && Ascending(Items(dst)) && Numbers(Items(dst))
    requires ValidList(src) && Ascending(Items(src)) && Numbers(Items(src))
    requires var m := AsMap(Items(dst)) + AsMap(Items(src)); |m| <= UM_MAX && (single ==> |m| == UM_MAX - room)
    modifies dst
    ensures ValidList(dst) && Ascending(Items(dst)) && Numbers(Items(dst))
    ensures AsMap(Items(dst)) == old(AsMap(Items(dst))) + AsMap(Items(src))
  {
    ghost var a, b := Items(dst), Items(src);
    MergeSize(a, b);
    MergeNumbers(a, b);
    var x := dst[0].mid;
    dst[0] := dst[0].(mid := 0);
    var len;
    if single {
      len := UM_MAX - room;
    } else {
      len := CountUnion(dst, src, x, a);
    }
    MergeDirty(dst, src, x, len, a);
  }

  lemma {:induction false} MergeSize(a: seq<Id2>, b: seq<Id2>)
    requires Ascending(a) && Ascending(b)
    ensures Ascending(Merge(a, b)) && AsMap(Merge(a, b)) == AsMap(a) + AsMap(b) && |Merge(a, b)| == |AsMap(a) + AsMap(b)|
  {
    MergeAscending(a, b);
    MergeIsOverride(a, b);
    MapSize(Merge(a, b));
  }

  predicate DirtyOk(dl: array<Id2>)
    reads dl
  {
    dl.Length == UM_MAX + 1 && ValidList(dl) && Ascending(Items(dl)) && Numbers(Items(dl))
  }

  ghost predicate SpillOk(sl: IdList)
    reads sl, sl.ids
  {
    sl.Valid() && Tidy(sl.Ids())
  }

  /** What Nested keeps of a transaction's two lists and of mt_dirty_room. */
  ghost function Lists(d: seq<Id2>, s: seq<int>, room: int): Nested.PageLists {
    Nested.PageLists(AsMap(d), Pages(s), room)
  }

  /** mdb_txn_commit of a child, as far as pages are concerned: the parent's
      lists become the merge that Nested.MergedLists describes.  A single ancestor
      takes the list's length from mt_dirty_room, others count it. */
  method CommitChild(pd: array<Id2>, ps: IdList, cd: array<Id2>, cs: IdList, single: bool,
                     parentRoom: int, childRoom: int)
    returns (room: int)
    requires DirtyOk(pd) && SpillOk(ps) && DirtyOk(cd) && SpillOk(cs) && pd != cd && ps != cs && ps.ids != cs.ids
    requires Pages(ps.Ids()) !! Pages(cs.Ids()) && |ps.Ids()| + |cs.Ids()| < COUNT_LIMIT
    requires var m := (AsMap(Items(pd)) - Pages(cs.Ids())) + AsMap(Items(cd));
      |m| <= UM_MAX && (single ==> |m| == UM_MAX - childRoom)
    modifies pd, ps, ps.ids
    ensures DirtyOk(pd) && SpillOk(ps)
    ensures Lists(Items(pd), ps.Ids(), room) ==
      Nested.MergedLists(old(Lists(Items(pd), ps.Ids(), parentRoom)), Lists(Items(cd), cs.Ids(), childRoom))
  {
    ghost var s, c, a, b := ps.Ids(), cs.Ids(), Items(pd), Items(cd);
    CommitLists(pd, ps, cd, cs, single, childRoom);
    room := childRoom;
    ListsMerged(a, s, b, c, parentRoom, childRoom, Items(pd), ps.Ids());
  }

  lemma {:induction false} ListsMerged(a: seq<Id2>, s: seq<int>, b: seq<Id2>, c: seq<int>, was: int, room: int,
                                       d: seq<Id2>, t: seq<int>)
    requires AsMap(d) == (AsMap(a) - Pages(c)) + AsMap(b) && Pages(t) == (Pages(s) - AsMap(b).Keys) + Pages(c)
    ensures Lists(d, t, room) == Nested.MergedLists(Lists(a, s, was), Lists(b, c, room))
  {
  }

  /** Both lists. */
  method CommitLists(pd: array<Id2>, ps: IdList, cd: array<Id2>, cs: IdList, single: bool, childRoom: int)
    requires DirtyOk(pd) && SpillOk(ps) && DirtyOk(cd) && SpillOk(cs) && pd != cd && ps != cs && ps.ids != cs.ids
    requires Pages(ps.Ids()) !! Pages(cs.Ids()) && |ps.Ids()| + |cs.Ids()| < COUNT_LIMIT
    requires var m := (AsMap(Items(pd)) - Pages(cs.Ids())) + AsMap(Items(cd));
      |m| <= UM_MAX && (single ==> |m| == UM_MAX - childRoom)
    modifies pd, ps, ps.ids
    ensures DirtyOk(pd) && SpillOk(ps) && Items(cd) == old(Items(cd)) && cs.Valid() && cs.Ids() == old(cs.Ids())
    ensures AsMap(Items(pd)) == (old(AsMap(Items(pd))) - Pages(cs.Ids())) + AsMap(Items(cd))
    ensures Pages(ps.Ids()) == (old(Pages(ps.Ids())) - AsMap(Items(cd)).Keys) + Pages(cs.Ids())
  {
    PurgeSpill(ps, cd, cs, pd);
    CommitPages(pd, cd, cs, ps, single, childRoom);
    CommitSpill(ps, cs, pd, cd);
  }

  method PurgeSpill(ps: IdList, cd: array<Id2>, ghost cs: IdList, ghost pd: array<Id2>)
    requires SpillOk(ps) && DirtyOk(cd) && SpillOk(cs) && DirtyOk(pd) && ps != cs && ps.ids != cs.ids
    modifies ps.ids
    ensures SpillOk(ps) && |ps.Ids()| <= old(|ps.Ids()|)
    ensures SpillOk(cs) && cs.Ids() == old(cs.Ids()) && DirtyOk(pd) && Items(pd) == old(Items(pd))
    ensures DirtyOk(cd) && Items(cd) == old(Items(cd))
    ensures Pages(ps.Ids()) == old(Pages(ps.Ids())) - AsMap(Items(cd)).Keys
  {
    ghost var s := ps.Ids();
    assert Held(ps.ids) == s;
    PurgeDirtied(ps.ids, cd);
    assert Held(ps.ids) == ps.Ids();
    SpillPurged(s, ps.Ids(), Items(cd));
  }

  lemma {:induction false} SpillPurged(s: seq<int>, left: seq<int>, b: seq<Id2>)
    requires forall p :: OnList(left, p) <==> OnList(s, p) && !InDirty(b, p)
    ensures Pages(left) == Pages(s) - AsMap(b).Keys
  {
    forall p ensures p in Pages(left) <==> p in Pages(s) - AsMap(b).Keys {
      PagesAre(left, p);
      PagesAre(s, p);
      DirtyIs(b, p);
    }
  }

  method CommitPages(pd: array<Id2>, cd: array<Id2>, cs: IdList, ghost ps: IdList, single: bool, childRoom: int)
    requires DirtyOk(pd) && DirtyOk(cd) && SpillOk(cs) && pd != cd && SpillOk(ps)
    requires var m := (AsMap(Items(pd)) - Pages(cs.Ids())) + AsMap(Items(cd));
      |m| <= UM_MAX && (single ==> |m| == UM_MAX - childRoom)
    modifies pd
    ensures DirtyOk(pd) && AsMap(Items(pd)) == (old(AsMap(Items(pd))) - Pages(cs.Ids())) + AsMap(Items(cd))
    ensures SpillOk(ps) && ps.Ids() == old(ps.Ids()) && SpillOk(cs) && cs.Ids() == old(cs.Ids())
    ensures DirtyOk(cd) && Items(cd) == old(Items(cd))
  {
    ghost var s, c, b := ps.Ids(), cs.Ids(), Items(cd);
    assert Held(cs.ids) == c;
    ghost var o: object, o1: object, o2: object := pd, ps.ids, cs.ids;
    assert o != o1 && o != o2 && o != ps && o != cs;
    CommitDirty(pd, cd, cs.ids, single, childRoom);
    assert ps.Ids() == s && cs.Ids() == c && Items(cd) == b;
  }

  /** The spill lists appended and sorted. */
  method CommitSpill(ps: IdList, cs: IdList, ghost pd: array<Id2>, ghost cd: array<Id2>)
    requires SpillOk(ps) && SpillOk(cs) && ps != cs && ps.ids != cs.ids && |ps.Ids()| + |cs.Ids()| < COUNT_LIMIT
    requires Pages(ps.Ids()) !! Pages(cs.Ids()) && DirtyOk(pd) && DirtyOk(cd)
    modifies ps, ps.ids
    ensures SpillOk(ps) && cs.Valid() && cs.Ids() == old(cs.Ids())
    ensures DirtyOk(pd) && Items(pd) == old(Items(pd)) && Items(cd) == old(Items(cd))
    ensures Pages(ps.Ids()) == old(Pages(ps.Ids())) + Pages(cs.Ids())
  {
    ghost var s, c := ps.Ids(), cs.Ids();
    ps.AppendList(cs);
    ps.Sort();
    SpillMerged(s, c, ps.Ids());
  }

  lemma {:induction false} SpillMerged(s: seq<int>, c: seq<int>, t: seq<int>)
    requires Tidy(s) && Tidy(c) && Loose(t) && multiset(t) == multiset(s + c) && Pages(s) !! Pages(c)
    ensures Tidy(t) && Pages(t) == Pages(s) + Pages(c)
  {
    forall p ensures !(OnList(s, p) && OnList(c, p)) {
      PagesAre(s, p);
      PagesAre(c, p);
    }
    SortedSpill(s, c, t);
    forall p ensures p in Pages(t) <==> p in Pages(s) + Pages(c) {
      PagesAre(t, p);
      PagesAre(s, p);
      PagesAre(c, p);
    }
  }
}
