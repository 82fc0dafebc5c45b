/**
 ID lists (MDB_IDL): a growable array whose element 0 is the length; the word
 before it, the capacity, is one less than the array's length here.
 */
module IdList {
  import IdSort

  /** (MDB_ID)-1 ends the scan of mdb_midl_xmerge; no page or transaction has this id. */
  const SENTINEL := 0xffff_ffff_ffff_ffff
  const UM_MAX := 0x1ffff
  /** Lists stay below this length, so that counts fit an int. */
  const COUNT_LIMIT := 0x8000_0000

  // ---------------------------------------------------------------- descending lists

  predicate Strict(s: seq<int>) { forall p, q :: 0 <= p < q < |s| ==> s[p] > s[q] }
  predicate Loose(s: seq<int>) { forall p, q :: 0 <= p < q < |s| ==> s[p] >= s[q] }
  predicate AreIds(s: seq<int>) { forall p :: 0 <= p < |s| ==> 0 <= s[p] < SENTINEL }

  /** A strictly descending list is determined by what it contains. */
  lemma {:induction false} StrictUnique(s: seq<int>, t: seq<int>)
    requires Strict(s) && Strict(t) && forall x :: x in s <==> x in t
    ensures s == t
  {
    assert t != [] ==> t[0] in t && t[0] in s;
    if s != [] {
      assert s[0] in s && s[0] in t;
      assert t[0] in t && t[0] in s;
      forall x ensures x in s[1..] <==> x in t[1..] {
        assert x in s <==> x == s[0] || x in s[1..];
        assert x in t <==> x == t[0] || x in t[1..];
        if x == s[0] { assert x !in s[1..] && x !in t[1..]; }
      }
      StrictUnique(s[1..], t[1..]);
      assert s == [s[0]] + s[1..] && t == [t[0]] + t[1..];
    }
  }

  /** The lowest ids of one or the other list: what xmerge has placed so far. */
  ghost predicate Merging(j: int, i: int, a: seq<int>, b: seq<int>, done: seq<int>) {
    && 0 <= j <= |a| && 0 <= i <= |b| && Loose(done)
    && multiset(a[..j]) + multiset(b[..i]) + multiset(done) == multiset(a) + multiset(b)
    && (forall p :: 0 <= p < |done| ==> (j > 0 ==> a[j - 1] >= done[p]) && (i > 0 ==> b[i - 1] >= done[p]))
  }

  lemma TakeLast(a: seq<int>, b: seq<int>, done: seq<int>, j: int, i: int)
    requires Merging(j, i, a, b, done) && Loose(a) && Loose(b) && j > 0 && (i > 0 ==> b[i - 1] >= a[j - 1])
    ensures Merging(j - 1, i, a, b, [a[j - 1]] + done)
  {
    assert a[..j] == a[..j - 1] + [a[j - 1]];
    assert multiset(a[..j]) == multiset(a[..j - 1]) + multiset([a[j - 1]]);
    assert multiset([a[j - 1]] + done) == multiset([a[j - 1]]) + multiset(done);
  }

  lemma TakeOther(a: seq<int>, b: seq<int>, done: seq<int>, j: int, i: int)
    requires Merging(j, i, a, b, done) && Loose(a) && Loose(b) && i > 0 && (j > 0 ==> a[j - 1] >= b[i - 1])
    ensures Merging(j, i - 1, a, b, [b[i - 1]] + done)
  {
    assert b[..i] == b[..i - 1] + [b[i - 1]];
    assert multiset(b[..i]) == multiset(b[..i - 1]) + multiset([b[i - 1]]);
    assert multiset([b[i - 1]] + done) == multiset([b[i - 1]]) + multiset(done);
  }

  lemma MergeDone(a: seq<int>, b: seq<int>, done: seq<int>, j: int)
    requires Merging(j, 0, a, b, done) && Loose(a)
    ensures Loose(a[..j] + done) && multiset(a[..j] + done) == multiset(a) + multiset(b)
  {
    assert b[..0] == [];
    forall p, q | 0 <= p < j && 0 <= q < |done| ensures a[p] >= done[q] {
      assert a[p] >= a[j - 1] >= done[q];
    }
  }

  /** Lists with no common id merge into a strictly descending one. */
  lemma DisjointStrict(a: seq<int>, b: seq<int>, m: seq<int>)
    requires Strict(a) && Strict(b) && Loose(m) && multiset(m) == multiset(a) + multiset(b)
    requires forall x :: !(x in a && x in b)
    ensures Strict(m) && forall x :: x in m <==> x in a || x in b
  {
    forall x ensures x in m <==> x in a || x in b {
      assert x in m <==> x in multiset(m);
    }
    forall p, q | 0 <= p < q < |m| ensures m[p] > m[q] {
      assert multiset(m)[m[p]] <= 1 by {
        assert multiset(m)[m[p]] == multiset(a)[m[p]] + multiset(b)[m[p]];
        assert !(m[p] in a && m[p] in b);
        CountOnce(a, m[p]);
        CountOnce(b, m[p]);
      }
      NotTwice(m, p, q);
    }
  }

  lemma {:induction false} CountOnce(s: seq<int>, x: int)
    requires Strict(s)
    ensures multiset(s)[x] == if x in s then 1 else 0
  {
    if s != [] {
      assert s == [s[0]] + s[1..];
      CountOnce(s[1..], x);
    }
  }

  lemma NotTwice(m: seq<int>, p: int, q: int)
    requires 0 <= p < q < |m| && multiset(m)[m[p]] <= 1
    ensures m[p] != m[q]
  {
    var a, b := m[..q], m[q..];
    assert m == a + b;
    assert a[p] in multiset(a) && b[0] in multiset(b);
  }

  // ---------------------------------------------------------------- on the arrays

  /** The list an array holds. */
  function Held(ids: array<int>): seq<int>
    requires 0 < ids.Length && 0 <= ids[0] < ids.Length
    reads ids
  {
    ids[1..ids[0] + 1]
  }

  method CopyTo(ids: array<int>, app: array<int>)
    requires 0 < ids.Length && 0 < app.Length && ids != app
    requires 0 <= ids[0] && 0 <= app[0] < app.Length && ids[0] + app[0] < ids.Length
    modifies ids
    ensures ids[0] == old(ids[0]) + app[0] && Held(ids) == old(Held(ids)) + Held(app)
  {
    var n, m := ids[0], app[0];
    forall k | n < k <= n + m {
      ids[k] := app[k - n];
    }
    ids[0] := n + m;
    assert ids[n + 1..n + m + 1] == app[1..m + 1];
  }

  method FillTo(ids: array<int>, id: int, n: nat)
    requires 0 < ids.Length && 0 <= ids[0] && ids[0] + n < ids.Length
    modifies ids
    ensures ids[0] == old(ids[0]) + n && Held(ids) == old(Held(ids)) + Run(id, n)
  {
    ghost var was := Held(ids);
    var len := ids[0];
    var last := len + n;
    ids[0] := last;
    var k, x := last, id;
    while k > len
      invariant len <= k <= last && x == id + (last - k) && ids[0] == last
      invariant forall p :: 1 <= p <= len ==> ids[p] == was[p - 1]
      invariant forall p :: k < p <= last ==> ids[p] == id + last - p
    {
      ids[k] := x;
      k, x := k - 1, x + 1;
    }
    Filled(ids[1..last + 1], was, id, n);
  }

  lemma {:induction false} Filled(s: seq<int>, was: seq<int>, id: int, n: nat)
    requires |s| == |was| + n && forall p :: 0 <= p < |was| ==> s[p] == was[p]
    requires forall p :: |was| <= p < |s| ==> s[p] == id + |s| - 1 - p
    ensures s == was + Run(id, n)
  {
    forall p | 0 <= p < n ensures Run(id, n)[p] == id + n - 1 - p { RunAt(id, n, p); }
  }

  lemma {:induction false} RunAt(id: int, n: nat, p: nat)
    requires p < n
    ensures Run(id, n)[p] == id + n - 1 - p
  {
    if p > 0 { RunAt(id, n - 1, p - 1); }
  }

  /** The list that starts at element off of an array. */
  function HeldAt(ids: array<int>, off: int): seq<int>
    requires 0 <= off < ids.Length && 0 <= ids[off] < ids.Length - off
    reads ids
  {
    ids[off + 1..off + ids[off] + 1]
  }

  /** The list merged in may lie in the same array, behind where the result ends. */
  method MergeTo(ids: array<int>, merge: array<int>, off: int)
    requires 0 < ids.Length && 0 <= off < merge.Length && 0 <= merge[off] < merge.Length - off
    requires 0 <= ids[0] && ids[0] + merge[off] < ids.Length
    requires ids == merge ==> ids[0] + merge[off] < off
    requires Loose(Held(ids)) && Loose(HeldAt(merge, off)) && AreIds(Held(ids)) && AreIds(HeldAt(merge, off))
    modifies ids
    ensures ids[0] == old(ids[0]) + old(merge[off])
    ensures Loose(Held(ids)) && multiset(Held(ids)) == multiset(old(Held(ids))) + multiset(old(HeldAt(merge, off)))
    ensures forall k :: ids[0] < k < ids.Length ==> ids[k] == old(ids[k])
  {
    ghost var a, b := Held(ids), HeldAt(merge, off);
    var i, j := merge[off], ids[0];
    var total := i + j;
    assert a[..j] == a && b[..i] == b;
    assert forall p :: off < p <= off + i ==> merge[p] == b[p - off - 1];
    ids[0] := SENTINEL;
    ghost var j', done := MergeLoop(ids, merge, off, i, j, total, a, b);
    ids[0] := total;
    MergeDone(a, b, done, j');
    ghost var s, t := Held(ids), a[..j'] + done;
    forall p | 0 <= p < total ensures s[p] == t[p] {
      assert s[p] == ids[p + 1];
    }
    assert s == t;
  }

  method MergeLoop(ids: array<int>, merge: array<int>, off: int, i0: int, j0: int, ghost total: int,
                   ghost a: seq<int>, ghost b: seq<int>)
    returns (ghost left: int, ghost done: seq<int>)
    requires total == i0 + j0 && Merging(j0, i0, a, b, []) && Unread(ids, j0, total, total, a, [])
    requires 0 <= off && off + i0 < merge.Length && (ids == merge ==> total < off)
    requires Loose(a) && Loose(b) && AreIds(a) && AreIds(b)
    requires forall p :: off < p <= off + i0 ==> merge[p] == b[p - off - 1]
    modifies ids
    ensures Merging(left, 0, a, b, done) && Unread(ids, left, left, total, a, done)
    ensures forall k :: total < k < ids.Length ==> ids[k] == old(ids[k])
  {
    var i, j, k := i0, j0, i0 + j0;
    done := [];
    while i > 0
      invariant i <= i0 && k == i + j && Merging(j, i, a, b, done) && Unread(ids, j, k, total, a, done)
      invariant forall k :: total < k < ids.Length ==> ids[k] == old(ids[k])
      invariant forall p :: off < p <= off + i0 ==> merge[p] == b[p - off - 1]
    {
      j, k, done := MergeNext(ids, merge[off + i], i, j, total, a, b, done);
      i := i - 1;
    }
    left := j;
  }

  /** The ids that go behind one of the other list, and that one. */
  method MergeNext(ids: array<int>, mergeId: int, i: int, j0: int, ghost total: int,
                   ghost a: seq<int>, ghost b: seq<int>, ghost done0: seq<int>)
    returns (j: int, k: int, ghost done: seq<int>)
    requires i > 0 && Merging(j0, i, a, b, done0) && Unread(ids, j0, i + j0, total, a, done0)
    requires Loose(a) && Loose(b) && AreIds(a) && AreIds(b) && mergeId == b[i - 1]
    modifies ids
    ensures k == i - 1 + j && Merging(j, i - 1, a, b, done) && Unread(ids, j, k, total, a, done)
    ensures forall k :: total < k < ids.Length ==> ids[k] == old(ids[k])
  {
    j, k, done := Shift(ids, mergeId, i, j0, total, a, b, done0);
    PlaceOther(ids, mergeId, j, k, total, i, a, b, done);
    done := [mergeId] + done;
    k := k - 1;
  }

  /** ids[1..j] is still as it was, what is done sits behind index k. */
  ghost predicate Unread(ids: array<int>, j: int, k: int, total: int, a: seq<int>, done: seq<int>)
    reads ids
  {
    && 0 <= j <= k <= total < ids.Length && j <= |a| && |done| == total - k && ids[0] == SENTINEL
    && (forall p :: 1 <= p <= j ==> ids[p] == a[p - 1])
    && (forall p :: k < p <= total ==> ids[p] == done[p - k - 1])
  }

  method Place(ids: array<int>, x: int, ghost j: int, k: int, ghost total: int, ghost a: seq<int>, ghost done: seq<int>)
    requires Unread(ids, j, k, total, a, done) && j < k
    modifies ids
    ensures Unread(ids, j, k - 1, total, a, [x] + done)
    ensures forall k :: total < k < ids.Length ==> ids[k] == old(ids[k])
  {
    ids[k] := x;
  }

  /** An id of the list itself moves up ... */
  method PlaceOwn(ids: array<int>, oldId: int, ghost j: int, k: int, ghost total: int, ghost i: int,
                  ghost a: seq<int>, ghost b: seq<int>, ghost done: seq<int>)
    requires 0 < j < k && Merging(j, i, a, b, done) && Unread(ids, j, k, total, a, done) && Loose(a) && Loose(b)
    requires oldId == a[j - 1] && (i > 0 ==> b[i - 1] >= oldId)
    modifies ids
    ensures Merging(j - 1, i, a, b, [oldId] + done) && Unread(ids, j - 1, k - 1, total, a, [oldId] + done)
    ensures forall k :: total < k < ids.Length ==> ids[k] == old(ids[k])
  {
    TakeLast(a, b, done, j, i);
    Place(ids, oldId, j, k, total, a, done);
  }

  /** ... or one of the other list goes in. */
  method PlaceOther(ids: array<int>, mergeId: int, ghost j: int, k: int, ghost total: int, ghost i: int,
                    ghost a: seq<int>, ghost b: seq<int>, ghost done: seq<int>)
    requires 0 < i && j < k && Merging(j, i, a, b, done) && Unread(ids, j, k, total, a, done) && Loose(a) && Loose(b)
    requires mergeId == b[i - 1] && (j > 0 ==> a[j - 1] >= mergeId)
    modifies ids
    ensures Merging(j, i - 1, a, b, [mergeId] + done) && Unread(ids, j, k - 1, total, a, [mergeId] + done)
    ensures forall k :: total < k < ids.Length ==> ids[k] == old(ids[k])
  {
    TakeOther(a, b, done, j, i);
    Place(ids, mergeId, j, k, total, a, done);
  }

  /** The inner loop of mdb_midl_xmerge: larger merge ids wait while the list's
      smaller ones move up.  The sentinel at index 0 stops it. */
  method Shift(ids: array<int>, mergeId: int, i: int, j0: int, ghost total: int,
               ghost a: seq<int>, ghost b: seq<int>, ghost done0: seq<int>)
    returns (j: int, k: int, ghost done: seq<int>)
    requires i > 0 && Merging(j0, i, a, b, done0) && Unread(ids, j0, i + j0, total, a, done0)
    requires Loose(a) && Loose(b) && AreIds(a) && AreIds(b) && mergeId == b[i - 1]
    modifies ids
    ensures k == i + j && Merging(j, i, a, b, done) && Unread(ids, j, k, total, a, done)
    ensures j > 0 ==> a[j - 1] >= mergeId
    ensures forall k :: total < k < ids.Length ==> ids[k] == old(ids[k])
  {
    j, k, done := j0, i + j0, done0;
    var oldId := ids[j];
    while oldId < mergeId
      invariant k == i + j && Merging(j, i, a, b, done) && Unread(ids, j, k, total, a, done)
      invariant oldId == if j > 0 then a[j - 1] else SENTINEL
      invariant forall k :: total < k < ids.Length ==> ids[k] == old(ids[k])
      decreases j
    {
      PlaceOwn(ids, oldId, j, k, total, i, a, b, done);
      done := [oldId] + done;
      k, j := k - 1, j - 1;
      oldId := ids[j];
    }
  }

  lemma SortedList(was: seq<int>, s: seq<int>, n: int)
    requires 0 <= n < |was| && IdSort.Rearranged(was, s, 1, n) && IdSort.Descending(s, 1, n)
    ensures Loose(s[1..n + 1]) && multiset(s[1..n + 1]) == multiset(was[1..n + 1])
  {
    IdSort.SameValues(was, s, 1, n);
    var t := s[1..n + 1];
    forall p, q | 0 <= p < q < n ensures t[p] >= t[q] {
      assert s[p + 1] >= s[q + 1];
    }
  }

  // ---------------------------------------------------------------- the list

  class IdList {
    var ids: array<int>

    ghost predicate Valid()
      reads this, ids
    {
      0 < ids.Length && 0 <= ids[0] < ids.Length && ids[0] < COUNT_LIMIT
    }

    /** ids[-1] */
    function Capacity(): int
      reads this
    {
      ids.Length - 1
    }

    function Ids(): seq<int>
      requires Valid()
      reads this, ids
    {
      ids[1..ids[0] + 1]
    }

    /** mdb_midl_alloc */
    constructor (num: nat)
      ensures Valid() && fresh(ids) && Capacity() == num && Ids() == []
    {
      ids := new int[num + 1];
      new;
      ids[0] := 0;
    }

    /** realloc to the given number of words, the capacity word included. */
    method Realloc(words: int)
      requires Valid() && ids[0] + 2 <= words
      modifies this
      ensures Valid() && fresh(ids) && Capacity() == words - 2 && Ids() == old(Ids())
    {
      var next := new int[words - 1];
      var n := ids[0] + 1;
      forall k | 0 <= k < n {
        next[k] := ids[k];
      }
      ids := next;
    }

    /** mdb_midl_grow */
    method Grow(num: nat)
      requires Valid()
      modifies this
      ensures Valid() && fresh(ids) && Capacity() == old(Capacity()) + num && Ids() == old(Ids())
    {
      Realloc(Capacity() + num + 2);
    }

    /** mdb_midl_need: room for num more ids, in blocks of 256 words. */
    method Need(num: nat)
      requires Valid()
      modifies this
      ensures Valid() && (ids == old(ids) || fresh(ids)) && Ids() == old(Ids())
      ensures |Ids()| + num <= Capacity()
      ensures old(|Ids()| + num <= Capacity()) <==> ids == old(ids)
      ensures fresh(ids) ==> (Capacity() + 2) % 256 == 0
    {
      var n := num + ids[0];
      if n > Capacity() {
        var words := n + n / 4 + 258;
        words := words - words % 256;
        Realloc(words);
      }
    }

    /** mdb_midl_append */
    method Append(id: int)
      requires Valid() && |Ids()| + 1 < COUNT_LIMIT
      modifies this, ids
      ensures Valid() && (ids == old(ids) || fresh(ids)) && Ids() == old(Ids()) + [id]
    {
      if ids[0] >= Capacity() {
        Grow(UM_MAX);
      }
      var n := ids[0] + 1;
      ids[0] := n;
      ids[n] := id;
    }

    /** mdb_midl_append_list */
    method AppendList(app: IdList)
      requires Valid() && app.Valid() && app.ids != ids && app != this
      requires |Ids()| + |app.Ids()| < COUNT_LIMIT
      modifies this, ids
      ensures Valid() && (ids == old(ids) || fresh(ids)) && Ids() == old(Ids()) + app.Ids()
    {
      var m := app.ids[0];
      if ids[0] + m >= Capacity() {
        Grow(m);
      }
      CopyTo(ids, app.ids);
    }

    /** mdb_midl_append_range: the ids are written from the end, so that the
        list keeps descending. */
    method AppendRange(id: int, n: nat)
      requires Valid() && |Ids()| + n < COUNT_LIMIT
      modifies this, ids
      ensures Valid() && (ids == old(ids) || fresh(ids)) && Ids() == old(Ids()) + Run(id, n)
    {
      var len := ids[0];
      if len + n > Capacity() {
        Grow(n - n % (UM_MAX + 1) + UM_MAX);
      }
      FillTo(ids, id, n);
    }

    /** mdb_midl_search: where the id is, or else where it belongs. */
    method Search(id: int) returns (x: int)
      requires Valid() && Loose(Ids())
      ensures 1 <= x <= |Ids()| + 1
      ensures id in Ids() <==> x <= |Ids()| && ids[x] == id
      ensures id !in Ids() ==> forall p :: 0 <= p < x - 1 ==> Ids()[p] > id
      ensures id !in Ids() ==> forall p :: x - 1 <= p < |Ids()| ==> Ids()[p] < id
    {
      var base, cursor, val, n := 0, 1, 0, ids[0];
      ghost var s := Ids();
      assert forall k :: 1 <= k <= |s| ==> ids[k] == s[k - 1];
      while 0 < n
        invariant 0 <= base && 0 <= n && base + n <= |s|
        invariant forall p :: 0 <= p < base ==> s[p] > id
        invariant forall p :: base + n <= p < |s| ==> s[p] < id
        invariant (val == 0 && cursor == 1 && base == 0 && n == |s|)
               || (val < 0 && cursor == base + n + 1) || (val > 0 && cursor == base && 1 <= cursor)
        decreases n
      {
        var pivot := n / 2;
        cursor := base + pivot + 1;
        val := if ids[cursor] < id then -1 else if ids[cursor] > id then 1 else 0;
        if val < 0 {
          n := pivot;
        } else if val > 0 {
          base := cursor;
          n := n - (pivot + 1);
        } else {
          return cursor;
        }
      }
      if val > 0 {
        cursor := cursor + 1;
      }
      return cursor;
    }

    /** mdb_midl_sort */
    method Sort()
      requires Valid()
      modifies ids
      ensures Valid() && Loose(Ids()) && multiset(Ids()) == multiset(old(Ids()))
    {
      ghost var was, n := ids[..], ids[0];
      assert was[1..n + 1] == Ids();
      IdSort.Sort(ids);
      SortedList(was, ids[..], n);
      assert ids[..][1..n + 1] == Ids();
    }

    /** mdb_midl_xmerge: merges from the ends backwards, in place. */
    method Xmerge(merge: IdList)
      requires Valid() && merge.Valid() && merge.ids != ids && merge != this
      requires |Ids()| + |merge.Ids()| <= Capacity() && |Ids()| + |merge.Ids()| < COUNT_LIMIT
      requires Loose(Ids()) && Loose(merge.Ids()) && AreIds(Ids()) && AreIds(merge.Ids())
      modifies ids
      ensures Valid() && Loose(Ids()) && multiset(Ids()) == multiset(old(Ids())) + multiset(merge.Ids())
    {
      MergeTo(ids, merge.ids, 0);
    }
  }

  /** n consecutive ids in descending order, the lowest being id. */
  function Run(id: int, n: nat): (r: seq<int>)
    ensures |r| == n && Strict(r) && forall x :: x in r <==> id <= x < id + n
  {
    if n == 0 then [] else
      var rest := Run(id, n - 1);
      assert forall p :: 0 <= p < n - 1 ==> rest[p] in rest;
      [id + n - 1] + rest
  }
}
