/**
 mdb_midl_sort: quicksort with an explicit stack, insertion sort for small
 segments, descending order.  Index 0 of the array holds the length.
 */
module IdSort {

  const SMALL := 8
  /** sizeof(int)*CHAR_BIT * 2 slots; slot 0 is never used. */
  const STACK_SLOTS := 64

  predicate Descending(s: seq<int>, lo: int, hi: int)
    requires 0 <= lo <= hi + 1 <= |s|
  {
    forall p, q :: lo <= p < q <= hi ==> s[p] >= s[q]
  }

  // ---------------------------------------------------------------- permutations of a segment

  /** t rearranges s within lo..hi and agrees with it elsewhere. */
  ghost predicate Rearranged(s: seq<int>, t: seq<int>, lo: int, hi: int) {
    && |s| == |t| && multiset(s) == multiset(t)
    && forall k :: 0 <= k < |s| && !(lo <= k <= hi) ==> t[k] == s[k]
  }

  lemma SwapRearranges(s: seq<int>, x: int, y: int, lo: int, hi: int)
    requires 0 <= lo <= x <= hi < |s| && lo <= y <= hi
    ensures Rearranged(s, s[x := s[y]][y := s[x]], lo, hi)
  {
  }

  lemma RearrangedTrans(s: seq<int>, t: seq<int>, u: seq<int>, lo: int, hi: int)
    requires Rearranged(s, t, lo, hi) && Rearranged(t, u, lo, hi)
    ensures Rearranged(s, u, lo, hi)
  {
  }

  lemma Cancel(a: multiset<int>, m: multiset<int>, n: multiset<int>, b: multiset<int>)
    requires a + m + b == a + n + b
    ensures m == n
  {
    forall x ensures m[x] == n[x] {
      assert (a + m + b)[x] == (a + n + b)[x];
    }
  }

  /** A rearranged segment holds the same values, so bounds on them stay. */
  lemma SameValues(s: seq<int>, t: seq<int>, lo: int, hi: int)
    requires Rearranged(s, t, lo, hi) && 0 <= lo <= hi + 1 <= |s|
    ensures multiset(s[lo..hi + 1]) == multiset(t[lo..hi + 1])
    ensures forall q :: lo <= q <= hi ==> exists p :: lo <= p <= hi && s[p] == t[q]
  {
    var a, m, n, b := s[..lo], s[lo..hi + 1], t[lo..hi + 1], s[hi + 1..];
    assert s == (a + m) + b && t == (a + n) + b;
    assert multiset((a + m) + b) == multiset(a + m) + multiset(b) && multiset((a + n) + b) == multiset(a + n) + multiset(b);
    assert multiset(a + m) == multiset(a) + multiset(m) && multiset(a + n) == multiset(a) + multiset(n);
    Cancel(multiset(a), multiset(m), multiset(n), multiset(b));
    forall q | lo <= q <= hi ensures exists p :: lo <= p <= hi && s[p] == t[q] {
      assert t[lo..hi + 1][q - lo] in multiset(s[lo..hi + 1]);
      var p :| 0 <= p < hi + 1 - lo && s[lo..hi + 1][p] == t[q];
      assert s[lo + p] == t[q];
    }
  }

  lemma BoundStays(s: seq<int>, t: seq<int>, lo: int, hi: int, x: int)
    requires Rearranged(s, t, lo, hi) && 0 <= lo <= hi + 1 <= |s|
    requires forall q :: lo <= q <= hi ==> x >= s[q]
    ensures forall q :: lo <= q <= hi ==> x >= t[q]
  {
    SameValues(s, t, lo, hi);
  }

  method Swap(ids: array<int>, x: int, y: int, ghost lo: int, ghost hi: int)
    requires 0 <= lo <= x <= hi < ids.Length && lo <= y <= hi
    modifies ids
    ensures ids[..] == old(ids[..])[x := old(ids[y])][y := old(ids[x])]
    ensures Rearranged(old(ids[..]), ids[..], lo, hi)
  {
    SwapRearranges(ids[..], x, y, lo, hi);
    ids[x], ids[y] := ids[y], ids[x];
  }

  // ---------------------------------------------------------------- small segments

  /** The insertion loop of one element stops at index 1, not at the segment's
      start; what lies left of the segment keeps it from going further. */
  method InsertOne(ids: array<int>, l: int, j: int)
    requires 1 <= l < j < ids.Length
    requires Descending(ids[..], l, j - 1)
    requires l > 1 ==> forall q :: l <= q <= j ==> ids[l - 1] >= ids[q]
    modifies ids
    ensures Descending(ids[..], l, j) && Rearranged(old(ids[..]), ids[..], l, j)
  {
    ghost var was, t := ids[..], ids[..];
    var a, i := ids[j], j - 1;
    while i >= 1 && ids[i] < a
      invariant l - 1 <= i < j && (i == l - 1 > 0 ==> ids[i] >= a)
      invariant Hole(was, t, l, i, j, a)
      invariant ButOne(ids[..], t, i + 1)
    {
      MoveHole(ids, was, t, l, i, j, a);
      t := t[i := a][i + 1 := t[i]];
      i := i - 1;
    }
    ids[i + 1] := a;
    HoleFilled(was, t, l, i, j, a);
    assert ids[..] == t;
  }

  /** While an element is being inserted: t is the array as it would be if the
      element were put at i+1. */
  ghost predicate Hole(was: seq<int>, t: seq<int>, l: int, i: int, j: int, a: int) {
    && 0 <= i + 1 <= j < |t| && t[i + 1] == a && Rearranged(was, t, l, j)
    && (forall k :: 0 <= k <= i ==> t[k] == was[k])
    && (forall k :: i + 1 < k <= j ==> t[k] == was[k - 1] && t[k] < a)
  }

  predicate ButOne(s: seq<int>, t: seq<int>, i: int) { |s| == |t| && forall k :: 0 <= k < |t| && k != i ==> s[k] == t[k] }

  method MoveHole(ids: array<int>, ghost was: seq<int>, ghost t: seq<int>, ghost l: int, i: int, ghost j: int, ghost a: int)
    requires Hole(was, t, l, i, j, a) && ButOne(ids[..], t, i + 1) && 0 <= l <= i < j && t[i] < a
    modifies ids
    ensures var u := t[i := a][i + 1 := t[i]]; Hole(was, u, l, i - 1, j, a) && ButOne(ids[..], u, i)
    ensures i > 0 ==> ids[i - 1] == old(ids[i - 1])
  {
    HoleStep(was, t, l, i, j, a);
    assert ids[i] == ids[..][i] == t[i];
    ids[i + 1] := ids[i];
  }

  lemma HoleStep(was: seq<int>, t: seq<int>, l: int, i: int, j: int, a: int)
    requires Hole(was, t, l, i, j, a) && 0 <= l <= i < j && t[i] < a
    ensures Hole(was, t[i := a][i + 1 := t[i]], l, i - 1, j, a)
  {
    SwapRearranges(t, i, i + 1, l, j);
    RearrangedTrans(was, t, t[i := a][i + 1 := t[i]], l, j);
  }

  lemma HoleFilled(was: seq<int>, t: seq<int>, l: int, i: int, j: int, a: int)
    requires Hole(was, t, l, i, j, a) && 0 <= l <= i + 1 && Descending(was, l, j - 1)
    requires i >= l ==> t[i] >= a
    ensures Descending(t, l, j) && Rearranged(was, t, l, j)
  {
    InsertedOrder(was, t, l, i + 1, j);
  }

  lemma InsertedOrder(was: seq<int>, t: seq<int>, l: int, x: int, j: int)
    requires 0 <= l <= x <= j < |was| && |t| == |was| && Descending(was, l, j - 1)
    requires forall k :: l <= k < x ==> t[k] == was[k]
    requires forall k :: x < k <= j ==> t[k] == was[k - 1] && t[k] < t[x]
    requires x > l ==> t[x - 1] >= t[x]
    ensures Descending(t, l, j)
  {
    forall p, q | l <= p < q <= j ensures t[p] >= t[q] {
      if p < x < q { assert was[p] >= was[q - 1]; }
      if p < x && q == x && p < x - 1 { assert was[p] >= was[x - 1]; }
    }
  }

  method InsertionSort(ids: array<int>, l: int, ir: int)
    requires 1 <= l <= ir + 1 <= ids.Length
    requires l > 1 ==> forall q :: l <= q <= ir ==> ids[l - 1] >= ids[q]
    modifies ids
    ensures Descending(ids[..], l, ir) && Rearranged(old(ids[..]), ids[..], l, ir)
  {
    ghost var was := ids[..];
    var j := l + 1;
    while j <= ir
      invariant l + 1 <= j && (j <= ir + 1 || j == l + 1)
      invariant Rearranged(was, ids[..], l, ir)
      invariant l <= ir ==> Descending(ids[..], l, j - 1)
    {
      ghost var t := ids[..];
      if l > 1 { BoundStays(was, t, l, ir, ids[l - 1]); }
      InsertOne(ids, l, j);
      assert Rearranged(t, ids[..], l, ir);
      RearrangedTrans(was, t, ids[..], l, ir);
      j := j + 1;
    }
  }

  // ---------------------------------------------------------------- partitioning

  /** Swaps two elements if the first is smaller. */
  method SwapIfLess(ids: array<int>, x: int, y: int, ghost was: seq<int>, ghost lo: int, ghost hi: int)
    requires 0 <= lo <= x < y <= hi < ids.Length && Rearranged(was, ids[..], lo, hi)
    modifies ids
    ensures Rearranged(was, ids[..], lo, hi)
    ensures forall k :: 0 <= k < ids.Length && k != x && k != y ==> ids[k] == old(ids[k])
    ensures if old(ids[x] < ids[y]) then ids[x] == old(ids[y]) && ids[y] == old(ids[x])
            else ids[x] == old(ids[x]) && ids[y] == old(ids[y])
  {
    if ids[x] < ids[y] {
      ghost var t := ids[..];
      Swap(ids, x, y, lo, hi);
      RearrangedTrans(was, t, ids[..], lo, hi);
    }
  }

  /** The median of the left, centre and right element goes to l+1, the other
      two around it. */
  method MedianOfThree(ids: array<int>, l: int, ir: int)
    requires 1 <= l && l + SMALL <= ir < ids.Length
    modifies ids
    ensures Rearranged(old(ids[..]), ids[..], l, ir)
    ensures ids[l] >= ids[l + 1] >= ids[ir]
  {
    ghost var was := ids[..];
    Swap(ids, (l + ir) / 2, l + 1, l, ir);
    SwapIfLess(ids, l, ir, was, l, ir);
    SwapIfLess(ids, l + 1, ir, was, l, ir);
    SwapIfLess(ids, l, l + 1, was, l, ir);
  }

  /** l..j-1 is at least a, j..i-1 is a, i..ir at most a. */
  predicate Parted(s: seq<int>, l: int, j: int, i: int, ir: int, a: int)
    requires 0 <= l <= j < i <= ir < |s|
  {
    && (forall p :: l <= p < j ==> s[p] >= a)
    && (forall p :: j <= p < i ==> s[p] == a)
    && (forall p :: i <= p <= ir ==> s[p] <= a)
  }

  /** Everything up to i is at least a, everything from j on at most a. */
  predicate Narrowed(s: seq<int>, l: int, i: int, j: int, ir: int, a: int) {
    && 0 <= l && l + 1 <= i <= ir < |s| && l + 1 <= j <= ir && s[l + 1] == a
    && (forall p :: l <= p < i ==> s[p] >= a)
    && (forall p :: j < p <= ir ==> s[p] <= a)
  }

  /** The two scans stop inside the segment, each at an element the other side
      has left behind. */
  method Scan(ids: array<int>, l: int, i0: int, j0: int, ir: int, a: int) returns (i: int, j: int)
    requires Narrowed(ids[..], l, i0, j0, ir, a) && ids[i0] >= a >= ids[j0]
    requires i0 < j0 || l + 1 < i0 == j0 < ir
    ensures i0 < i && j < j0 && Narrowed(ids[..], l, i, j, ir, a) && ids[j] >= a >= ids[i]
    ensures j < i ==> i <= j + 2
  {
    i := i0 + 1;
    while ids[i] > a
      invariant i0 < i <= ir
      invariant i <= j0 || i == j0 + 1
      invariant forall p :: l <= p < i ==> ids[p] >= a
      decreases ir - i
    {
      i := i + 1;
    }
    j := j0 - 1;
    while ids[j] < a
      invariant l + 1 <= j < j0
      invariant i - 2 <= j
      invariant forall p :: j < p <= ir ==> ids[p] <= a
      decreases j
    {
      j := j - 1;
    }
  }

  method Partition(ids: array<int>, l: int, ir: int) returns (j: int, i: int)
    requires 1 <= l && l + SMALL <= ir < ids.Length
    modifies ids
    ensures Rearranged(old(ids[..]), ids[..], l, ir)
    ensures l < j < i <= ir && i <= j + 2 && Parted(ids[..], l, j, i, ir, ids[j])
  {
    ghost var was := ids[..];
    MedianOfThree(ids, l, ir);
    var a := ids[l + 1];
    i, j := l + 1, ir;
    i, j := Scan(ids, l, i, j, ir, a);
    while i <= j
      invariant Rearranged(was, ids[..], l, ir)
      invariant l + 1 < i && j < ir
      invariant Narrowed(ids[..], l, i, j, ir, a) && ids[j] >= a >= ids[i]
      invariant j < i ==> i <= j + 2
      decreases j
    {
      ghost var t := ids[..];
      Swap(ids, i, j, l, ir);
      StillNarrowed(was, t, ids[..], l, i, j, ir, a);
      i, j := Scan(ids, l, i, j, ir, a);
    }
    ghost var t := ids[..];
    Swap(ids, l + 1, j, l, ir);
    PivotPlaced(was, t, ids[..], l, i, j, ir, a);
  }

  lemma StillNarrowed(was: seq<int>, s: seq<int>, t: seq<int>, l: int, i: int, j: int, ir: int, a: int)
    requires Rearranged(was, s, l, ir) && Narrowed(s, l, i, j, ir, a) && l + 1 < i <= j && s[j] >= a >= s[i]
    requires t == s[i := s[j]][j := s[i]]
    ensures Rearranged(was, t, l, ir) && Narrowed(t, l, i, j, ir, a) && t[i] >= a >= t[j]
  {
    SwapRearranges(s, i, j, l, ir);
    RearrangedTrans(was, s, t, l, ir);
  }

  lemma PivotPlaced(was: seq<int>, s: seq<int>, t: seq<int>, l: int, i: int, j: int, ir: int, a: int)
    requires Rearranged(was, s, l, ir) && Narrowed(s, l, i, j, ir, a) && j < i && s[j] >= a >= s[i]
    requires t == s[l + 1 := s[j]][j := s[l + 1]]
    ensures Rearranged(was, t, l, ir) && Parted(t, l, j, i, ir, t[j])
  {
    SwapRearranges(s, l + 1, j, l, ir);
    RearrangedTrans(was, s, t, l, ir);
  }

  // ---------------------------------------------------------------- the stack

  datatype Segment = Segment(l: int, ir: int)

  predicate Within(g: Segment, p: int) { g.l <= p <= g.ir }

  /** Indices p and q are still waiting to be sorted against each other. */
  predicate Pending(segs: seq<Segment>, p: int, q: int) {
    exists f :: 0 <= f < |segs| && Within(segs[f], p) && Within(segs[f], q)
  }

  predicate Apart(g: Segment, h: Segment) { g.ir < h.l || h.ir < g.l }

  ghost predicate Disjoint(segs: seq<Segment>, n: int) {
    && (forall f :: 0 <= f < |segs| ==> 1 <= segs[f].l <= segs[f].ir + 1 && segs[f].ir <= n)
    && (forall f, g :: 0 <= f < g < |segs| ==> Apart(segs[f], segs[g]))
  }

  /** Any two elements not in one pending segment are in order. */
  ghost predicate Progress(s: seq<int>, n: int, segs: seq<Segment>) {
    && 0 <= n < |s| && Disjoint(segs, n)
    && forall p, q :: 1 <= p < q <= n ==> s[p] >= s[q] || Pending(segs, p, q)
  }

  function Drop(segs: seq<Segment>): seq<Segment>
    requires segs != []
  {
    segs[..|segs| - 1]
  }

  function Top(segs: seq<Segment>): Segment
    requires segs != []
  {
    segs[|segs| - 1]
  }

  /** Elements outside the top segment keep their order with those inside. */
  lemma OutsideStays(s: seq<int>, t: seq<int>, n: int, segs: seq<Segment>, p: int, q: int)
    requires segs != [] && Progress(s, n, segs) && Rearranged(s, t, Top(segs).l, Top(segs).ir)
    requires 1 <= p < q <= n && !(Within(Top(segs), p) && Within(Top(segs), q)) && !Pending(Drop(segs), p, q)
    ensures t[p] >= t[q]
  {
    var g := Top(segs);
    SameValues(s, t, g.l, g.ir);
    if Within(g, p) {
      var x :| g.l <= x <= g.ir && s[x] == t[p];
      NotPending(segs, n, x, q);
    } else if Within(g, q) {
      var x :| g.l <= x <= g.ir && s[x] == t[q];
      NotPending(segs, n, p, x);
    } else {
      BelowTop(segs, p, q);
    }
  }

  lemma BelowTop(segs: seq<Segment>, p: int, q: int)
    requires segs != []
    ensures Pending(segs, p, q) <==> Pending(Drop(segs), p, q) || (Within(Top(segs), p) && Within(Top(segs), q))
  {
    assert forall f :: 0 <= f < |segs| - 1 ==> Drop(segs)[f] == segs[f];
  }

  lemma NotPending(segs: seq<Segment>, n: int, p: int, q: int)
    requires segs != [] && Disjoint(segs, n) && Within(Top(segs), p) != Within(Top(segs), q)
    ensures !Pending(segs, p, q)
  {
    forall f | 0 <= f < |segs| ensures !(Within(segs[f], p) && Within(segs[f], q)) {
      assert f == |segs| - 1 || Apart(segs[f], Top(segs));
    }
  }

  lemma SortedTop(s: seq<int>, t: seq<int>, n: int, segs: seq<Segment>)
    requires segs != [] && Progress(s, n, segs) && Rearranged(s, t, Top(segs).l, Top(segs).ir)
    requires Descending(t, Top(segs).l, Top(segs).ir)
    ensures Progress(t, n, Drop(segs))
  {
    forall p, q | 1 <= p < q <= n && !Pending(Drop(segs), p, q) ensures t[p] >= t[q] {
      if !(Within(Top(segs), p) && Within(Top(segs), q)) {
        OutsideStays(s, t, n, segs, p, q);
      }
    }
  }

  lemma PartedTop(s: seq<int>, t: seq<int>, n: int, segs: seq<Segment>, j: int, i: int, a: int, next: seq<Segment>)
    requires segs != [] && Progress(s, n, segs) && Rearranged(s, t, Top(segs).l, Top(segs).ir)
    requires var g := Top(segs);
      && 1 <= g.l < j < i <= g.ir < |t| && Parted(t, g.l, j, i, g.ir, a)
      && (next == Drop(segs) + [Segment(g.l, j - 1), Segment(i, g.ir)] || next == Drop(segs) + [Segment(i, g.ir), Segment(g.l, j - 1)])
    ensures Progress(t, n, next)
  {
    var g, m := Top(segs), |segs| - 1;
    forall x, y | 0 <= x < y < |next| ensures Apart(next[x], next[y]) {
      if x < m {
        assert next[x] == segs[x];
        assert Apart(segs[x], if y < m then segs[y] else g);
        if y < m { assert next[y] == segs[y]; }
      }
    }
    forall p, q | 1 <= p < q <= n && !Pending(next, p, q) ensures t[p] >= t[q] {
      BelowTop(next, p, q);
      BelowTop(Drop(next), p, q);
      assert Drop(Drop(next)) == Drop(segs);
      if !(Within(g, p) && Within(g, q)) {
        OutsideStays(s, t, n, segs, p, q);
      }
    }
  }

  function Pow2(d: nat): nat { if d == 0 then 1 else 2 * Pow2(d - 1) }

  lemma {:induction false} Pow2Grows(c: nat, d: nat)
    requires c <= d
    ensures Pow2(c) <= Pow2(d)
  {
    if c < d { Pow2Grows(c, d - 1); }
  }

  /** A segment that is pushed at depth d has size at most n / 2^d. */
  predicate Shallow(segs: seq<Segment>, n: int) {
    forall f {:trigger segs[f]} :: 0 <= f < |segs| ==> (segs[f].ir - segs[f].l + 1) * Pow2(f) <= n
  }

  /** Segments of at least SMALL+1 elements are at depth 27 at most. */
  lemma {:induction false} DepthBound(size: int, d: nat, n: int)
    requires size > SMALL && size * Pow2(d) <= n < 0x8000_0000
    ensures d <= 27
  {
    if d >= 28 {
      Pow2Grows(28, d);
      Pow28();
      Smaller(9, size, d, n);
    }
  }

  lemma Pow28()
    ensures Pow2(28) == 0x1000_0000
  {
    assert Pow2(10) == 1024;
    assert Pow2(20) == 0x10_0000;
  }

  lemma HalfAgain(small: int, size: int, d: nat, n: int)
    requires 2 * small <= size && size * Pow2(d) <= n
    ensures small * Pow2(d + 1) <= n
  {
    var x := Pow2(d);
    assert small * (2 * x) == (2 * small) * x;
    assert (2 * small) * x <= size * x;
  }

  lemma {:induction false} Smaller(small: int, size: int, d: nat, n: int)
    requires small <= size && size * Pow2(d) <= n
    ensures small * Pow2(d) <= n
  {
  }

  /** The stack slots hold the segments below the current one. */
  predicate Stacked(stack: seq<int>, segs: seq<Segment>) {
    && 2 * |segs| < |stack|
    && forall f {:trigger segs[f]} :: 0 <= f < |segs| ==> stack[2 * f + 1] == segs[f].l && stack[2 * f + 2] == segs[f].ir
  }

  function Total(segs: seq<Segment>): int {
    if segs == [] then 0 else Total(Drop(segs)) + Top(segs).ir - Top(segs).l + 1
  }

  lemma {:induction false} TotalOne(segs: seq<Segment>, g: Segment)
    ensures Total(segs + [g]) == Total(segs) + g.ir - g.l + 1
  {
    assert Drop(segs + [g]) == segs;
  }

  lemma {:induction false} TotalNat(segs: seq<Segment>, n: int)
    requires Disjoint(segs, n)
    ensures Total(segs) >= 0
  {
    if segs != [] { TotalNat(Drop(segs), n); }
  }

  /** What holds whenever the loop of mdb_midl_sort starts over. */
  ghost predicate Sorting(was: seq<int>, s: seq<int>, stack: seq<int>, segs: seq<Segment>, n: int) {
    && segs != [] && Progress(s, n, segs) && Shallow(segs, n) && Rearranged(was, s, 1, n)
    && |stack| == STACK_SLOTS && Stacked(stack, Drop(segs))
  }

  lemma Inside(s: seq<int>, t: seq<int>, l: int, ir: int, n: int)
    requires Rearranged(s, t, l, ir) && 1 <= l && ir <= n
    ensures Rearranged(s, t, 1, n)
  {
  }

  lemma {:induction false} StillSorting(was: seq<int>, s: seq<int>, t: seq<int>, stack: seq<int>, segs: seq<Segment>, n: int)
    requires Sorting(was, s, stack, segs, n) && Rearranged(s, t, Top(segs).l, Top(segs).ir)
    requires Descending(t, Top(segs).l, Top(segs).ir)
    ensures Progress(t, n, Drop(segs)) && Rearranged(was, t, 1, n)
    ensures Drop(segs) != [] ==> Sorting(was, t, stack, Drop(segs), n)
    ensures Total(Drop(segs)) <= Total(segs)
  {
    SortedTop(s, t, n, segs);
    Inside(s, t, Top(segs).l, Top(segs).ir, n);
    RearrangedTrans(was, s, t, 1, n);
    var r := Drop(segs);
    if r != [] {
      forall f {:trigger Drop(r)[f]} | 0 <= f < |Drop(r)| ensures stack[2 * f + 1] == Drop(r)[f].l && stack[2 * f + 2] == Drop(r)[f].ir {
        assert Drop(r)[f] == r[f];
      }
      forall f {:trigger r[f]} | 0 <= f < |r| ensures (r[f].ir - r[f].l + 1) * Pow2(f) <= n {
        assert r[f] == segs[f];
      }
    }
  }

  /** The larger part is pushed, the smaller one is next. */
  lemma {:induction false} PushedSorting(was: seq<int>, s: seq<int>, t: seq<int>, stack: seq<int>, stack': seq<int>,
                                         segs: seq<Segment>, n: int,
                      j: int, i: int, big: Segment, small: Segment)
    requires Sorting(was, s, stack, segs, n) && Rearranged(s, t, Top(segs).l, Top(segs).ir) && n < 0x8000_0000
    requires var g := Top(segs);
      && g.l + SMALL <= g.ir && g.l < j < i <= g.ir && i <= j + 2 && Parted(t, g.l, j, i, g.ir, t[j])
      && (if g.ir - i + 1 >= j - g.l then big == Segment(i, g.ir) && small == Segment(g.l, j - 1)
          else big == Segment(g.l, j - 1) && small == Segment(i, g.ir))
    requires var m := 2 * (|segs| - 1);
      m + 2 < STACK_SLOTS && stack' == stack[m + 2 := big.ir][m + 1 := big.l]
    ensures Sorting(was, t, stack', Drop(segs) + [big, small], n)
    ensures Total(Drop(segs) + [big, small]) < Total(segs)
  {
    var g := Top(segs);
    var next := Drop(segs) + [big, small];
    PartedTop(s, t, n, segs, j, i, t[j], next);
    Inside(s, t, g.l, g.ir, n);
    RearrangedTrans(was, s, t, 1, n);
    PushedShallow(segs, n, big, small);
    PushedStack(stack, stack', segs, big, small);
    PushedTotal(segs, big, small);
  }

  lemma PushedShallow(segs: seq<Segment>, n: int, big: Segment, small: Segment)
    requires segs != [] && Shallow(segs, n)
    requires big.ir - big.l <= Top(segs).ir - Top(segs).l && 2 * (small.ir - small.l + 1) <= Top(segs).ir - Top(segs).l + 1
    ensures Shallow(Drop(segs) + [big, small], n)
  {
    var g, d := Top(segs), |segs| - 1;
    var next := Drop(segs) + [big, small];
    assert segs[d] == g;
    Smaller(big.ir - big.l + 1, g.ir - g.l + 1, d, n);
    HalfAgain(small.ir - small.l + 1, g.ir - g.l + 1, d, n);
    forall f {:trigger next[f]} | 0 <= f < |next| ensures (next[f].ir - next[f].l + 1) * Pow2(f) <= n {
      if f < d { assert next[f] == segs[f]; }
    }
  }

  lemma PushedStack(stack: seq<int>, stack': seq<int>, segs: seq<Segment>, big: Segment, small: Segment)
    requires segs != [] && Stacked(stack, Drop(segs)) && 2 * |segs| < |stack|
    requires var m := 2 * (|segs| - 1); stack' == stack[m + 2 := big.ir][m + 1 := big.l]
    ensures Stacked(stack', Drop(Drop(segs) + [big, small]))
  {
    var r := Drop(segs) + [big];
    assert Drop(Drop(segs) + [big, small]) == r;
    forall f {:trigger r[f]} | 0 <= f < |r| ensures stack'[2 * f + 1] == r[f].l && stack'[2 * f + 2] == r[f].ir {
      if f < |segs| - 1 { assert r[f] == Drop(segs)[f]; }
    }
  }

  lemma {:induction false} PushedTotal(segs: seq<Segment>, big: Segment, small: Segment)
    requires segs != [] && big.ir - big.l + small.ir - small.l + 2 < Top(segs).ir - Top(segs).l + 1
    ensures Total(Drop(segs) + [big, small]) < Total(segs)
  {
    assert Drop(segs) + [big, small] == (Drop(segs) + [big]) + [small];
    TotalOne(Drop(segs) + [big], small);
    TotalOne(Drop(segs), big);
  }

  /** A small segment is sorted and is no longer pending. */
  method SortSegment(ids: array<int>, l: int, ir: int, ghost was: seq<int>, ghost stack: seq<int>,
                     ghost segs: seq<Segment>, ghost n: int)
    requires Sorting(was, ids[..], stack, segs, n) && Top(segs) == Segment(l, ir)
    modifies ids
    ensures Progress(ids[..], n, Drop(segs)) && Rearranged(was, ids[..], 1, n)
    ensures Drop(segs) != [] ==> Sorting(was, ids[..], stack, Drop(segs), n)
    ensures Total(Drop(segs)) <= Total(segs)
  {
    ghost var s := ids[..];
    LeftNeighbour(s, n, segs);
    InsertionSort(ids, l, ir);
    StillSorting(was, s, ids[..], stack, segs, n);
  }

  /** mdb_midl_sort.  That every slot of the stack it uses exists is part of
      what is verified here: the index of each access is below STACK_SLOTS. */
  method Sort(ids: array<int>)
    requires 0 < ids.Length && 0 <= ids[0] < ids.Length && ids[0] < 0x8000_0000
    modifies ids
    ensures ids[0] == old(ids[0])
    ensures Descending(ids[..], 1, ids[0]) && Rearranged(old(ids[..]), ids[..], 1, ids[0])
  {
    ghost var was := ids[..];
    var n := ids[0];
    var istack := new int[STACK_SLOTS];
    var l, ir, jstack := 1, n, 0;
    ghost var segs := [Segment(l, ir)];
    InitiallySorting(was, istack[..], n);
    while true
      invariant Sorting(was, ids[..], istack[..], segs, n)
      invariant Top(segs) == Segment(l, ir) && jstack == 2 * (|segs| - 1)
      decreases Total(segs), |segs|
    {
      TotalNat(segs, n);
      ghost var stack := istack[..];
      if ir - l < SMALL {
        SortSegment(ids, l, ir, was, stack, segs, n);
        segs := Drop(segs);
        if jstack == 0 {
          break;
        }
        assert stack[2 * (|segs| - 1) + 1] == segs[|segs| - 1].l;
        ir := istack[jstack];
        jstack := jstack - 1;
        l := istack[jstack];
        jstack := jstack - 1;
      } else {
        l, ir, jstack, segs := Divide(ids, istack, l, ir, jstack, was, segs, n);
      }
    }
    assert forall p, q :: !Pending(segs, p, q);
  }

  /** Partitions the current segment, pushes the larger part, and goes on with
      the smaller one. */
  method Divide(ids: array<int>, istack: array<int>, l0: int, ir0: int, jstack0: int,
                ghost was: seq<int>, ghost segs: seq<Segment>, ghost n: int)
    returns (l: int, ir: int, jstack: int, ghost next: seq<Segment>)
    requires ids != istack && n < 0x8000_0000 && l0 + SMALL <= ir0
    requires Sorting(was, ids[..], istack[..], segs, n) && Top(segs) == Segment(l0, ir0) && jstack0 == 2 * (|segs| - 1)
    modifies ids, istack
    ensures Sorting(was, ids[..], istack[..], next, n) && Top(next) == Segment(l, ir) && jstack == 2 * (|next| - 1)
    ensures Total(next) < Total(segs)
  {
    ghost var s, stack := ids[..], istack[..];
    assert segs[|segs| - 1] == Segment(l0, ir0);
    DepthBound(ir0 - l0 + 1, |segs| - 1, n);
    var j, i := Partition(ids, l0, ir0);
    l, ir, jstack := l0, ir0, jstack0 + 2;
    ghost var left, right := Segment(l, j - 1), Segment(i, ir);
    ghost var big, small;
    if ir - i + 1 >= j - l {
      istack[jstack] := ir;
      istack[jstack - 1] := i;
      ir := j - 1;
      big, small := right, left;
    } else {
      istack[jstack] := j - 1;
      istack[jstack - 1] := l;
      l := i;
      big, small := left, right;
    }
    PushedSorting(was, s, ids[..], stack, istack[..], segs, n, j, i, big, small);
    next := Drop(segs) + [big, small];
  }

  lemma InitiallySorting(was: seq<int>, stack: seq<int>, n: int)
    requires 0 <= n < |was| && |stack| == STACK_SLOTS
    ensures Sorting(was, was, stack, [Segment(1, n)], n)
  {
    var segs := [Segment(1, n)];
    forall p, q | 1 <= p < q <= n ensures Pending(segs, p, q) {
      assert Within(segs[0], p) && Within(segs[0], q);
    }
    assert Pow2(0) == 1;
  }

  /** What lies left of the current segment is not smaller than anything in it. */
  lemma LeftNeighbour(s: seq<int>, n: int, segs: seq<Segment>)
    requires segs != [] && Progress(s, n, segs)
    ensures var g := Top(segs); g.l > 1 ==> forall q :: g.l <= q <= g.ir ==> s[g.l - 1] >= s[q]
  {
    var g := Top(segs);
    if g.l > 1 {
      forall q | g.l <= q <= g.ir ensures s[g.l - 1] >= s[q] {
        NotPending(segs, n, g.l - 1, q);
      }
    }
  }
}
