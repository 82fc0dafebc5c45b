/**
 Runs of consecutive pages in the environment's list of reclaimed pages
 (me_pghead): found and taken by mdb_page_alloc, given back by mdb_ovpage_free.
 */
module PageRuns {
  import opened IdList

  predicate HasRun(s: seq<int>, pgno: int, num: nat) { forall x :: pgno <= x < pgno + num ==> x in s }

  predicate LowestRun(s: seq<int>, pgno: int, num: nat) {
    HasRun(s, pgno, num) && forall x :: x in s && x < pgno ==> !HasRun(s, x, num)
  }

  // ---------------------------------------------------------------- the test of the search

  lemma {:induction false} Spread(s: seq<int>, p: int, k: int)
    requires Strict(s) && 0 <= k <= p < |s|
    ensures s[p - k] >= s[p] + k
  {
    if k > 0 { Spread(s, p, k - 1); }
  }

  /** mop[i-n2] == mop[i]+n2 exactly if the n2 ids above mop[i] are all there. */
  lemma RunTest(s: seq<int>, p: int, num: nat)
    requires Strict(s) && num > 0 && 0 <= p < |s|
    ensures (p >= num - 1 && s[p - (num - 1)] == s[p] + num - 1) <==> HasRun(s, s[p], num)
  {
    if p >= num - 1 && s[p - (num - 1)] == s[p] + num - 1 {
      forall x | s[p] <= x < s[p] + num ensures x in s {
        var k := x - s[p];
        Spread(s, p, k);
        Spread(s, p - k, num - 1 - k);
        assert s[p - k] == x;
      }
    } else if HasRun(s, s[p], num) {
      RunPlace(s, p, num - 1, num);
      assert false;
    }
  }

  lemma {:induction false} RunPlace(s: seq<int>, p: int, k: nat, num: nat)
    requires Strict(s) && k < num && 0 <= p < |s| && HasRun(s, s[p], num)
    ensures k <= p && s[p - k] == s[p] + k
  {
    if k > 0 {
      RunPlace(s, p, k - 1, num);
      assert s[p] + k in s;
      var q :| 0 <= q < |s| && s[q] == s[p] + k;
      assert q <= p - k;
      assert s[q] >= s[p - k] > s[p - k + 1];
    }
  }

  /** The search of mdb_page_alloc, from the tail: the index of the run's
      lowest page, or 0. */
  method FindRun(mop: array<int>, num: nat) returns (i: int)
    requires 0 < mop.Length && 0 <= mop[0] < mop.Length && Strict(Held(mop)) && num > 0
    ensures 0 <= i <= mop[0]
    ensures i > 0 ==> num <= i && LowestRun(Held(mop), mop[i], num)
    ensures i == 0 ==> forall x :: !HasRun(Held(mop), x, num)
  {
    ghost var s := Held(mop);
    var len, n2 := mop[0], num - 1;
    i := 0;
    if len > n2 {
      i := len;
      while true
        invariant n2 < i <= len
        invariant forall p :: i <= p < len ==> !HasRun(s, s[p], num)
        decreases i
      {
        assert mop[i] == s[i - 1] && mop[i - n2] == s[i - 1 - n2];
        RunTest(s, i - 1, num);
        if mop[i - n2] == mop[i] + n2 {
          Lowest(s, i - 1, num);
          return;
        }
        i := i - 1;
        if !(i > n2) {
          break;
        }
      }
    }
    NoRun(s, if len > n2 then n2 else 0, num);
    i := 0;
  }

  lemma Lowest(s: seq<int>, p: int, num: nat)
    requires Strict(s) && 0 <= p < |s| && HasRun(s, s[p], num)
    requires forall q :: p < q < |s| ==> !HasRun(s, s[q], num)
    ensures LowestRun(s, s[p], num)
  {
    forall x | x in s && x < s[p] ensures !HasRun(s, x, num) {
      var q :| 0 <= q < |s| && s[q] == x;
      assert q > p;
    }
  }

  /** No run ends below index n2. */
  lemma NoRun(s: seq<int>, from: int, num: nat)
    requires Strict(s) && num > 0 && 0 <= from <= |s| && (from == num - 1 || |s| < num)
    requires |s| >= num ==> forall p :: from <= p < |s| ==> !HasRun(s, s[p], num)
    ensures forall x :: !HasRun(s, x, num)
  {
    forall x ensures !HasRun(s, x, num) {
      if x in s {
        var p :| 0 <= p < |s| && s[p] == x;
        RunTest(s, p, num);
      } else {
        assert x <= x < x + num;
      }
    }
  }

  // ---------------------------------------------------------------- taking a run

  predicate IsCut(s: seq<int>, p: int, num: nat, t: seq<int>) {
    num <= p <= |s| && t == s[..p - num] + s[p..]
  }

  /** Removing the run leaves every other page, in order. */
  lemma CutRun(s: seq<int>, p: int, num: nat, t: seq<int>)
    requires Strict(s) && num > 0 && IsCut(s, p, num, t) && HasRun(s, s[p - 1], num)
    ensures Strict(t) && forall x :: x in t <==> x in s && !(s[p - 1] <= x < s[p - 1] + num)
  {
    var pgno := s[p - 1];
    CutAt(s, p, num, t);
    forall q | 0 <= q < |s| ensures p - num <= q < p <==> pgno <= s[q] < pgno + num {
      RunPlace(s, p - 1, num - 1, num);
      if q < p - num { assert s[q] > s[p - num]; }
    }
    forall x { CutOne(s, p, num, t, x); }
  }

  lemma CutAt(s: seq<int>, p: int, num: nat, t: seq<int>)
    requires Strict(s) && IsCut(s, p, num, t)
    ensures |t| == |s| - num && Strict(t) && forall k :: 0 <= k < |t| ==> t[k] == s[if k < p - num then k else k + num]
  {
  }

  lemma CutOne(s: seq<int>, p: int, num: nat, t: seq<int>, x: int)
    requires 0 < num <= p <= |s| && |t| == |s| - num && forall k :: 0 <= k < |t| ==> t[k] == s[if k < p - num then k else k + num]
    requires forall q :: 0 <= q < |s| ==> (p - num <= q < p <==> s[p - 1] <= s[q] < s[p - 1] + num)
    ensures x in t <==> x in s && !(s[p - 1] <= x < s[p - 1] + num)
  {
    if x in s && !(s[p - 1] <= x < s[p - 1] + num) {
      var q :| 0 <= q < |s| && s[q] == x;
      assert t[if q < p then q else q - num] == x;
    }
    if x in t {
      var r :| 0 <= r < |t| && t[r] == x;
      assert s[if r < p - num then r else r + num] == x;
    }
  }

  /** The stragglers above index i move down. */
  method TakeRun(mop: array<int>, i0: int, num: nat)
    requires 0 < mop.Length && 0 <= mop[0] < mop.Length && 0 < num <= i0 <= mop[0]
    modifies mop
    ensures 0 <= mop[0] < mop.Length && IsCut(old(Held(mop)), i0, num, Held(mop))
  {
    ghost var s := Held(mop);
    var len := mop[0] - num;
    mop[0] := len;
    var i, j := i0, i0 - num;
    while j < len
      invariant i0 - num <= j <= len && i == j + num && mop[0] == len
      invariant forall k :: 1 <= k <= i0 - num ==> mop[k] == s[k - 1]
      invariant forall k :: i0 - num < k <= j ==> mop[k] == s[k + num - 1]
      invariant forall k :: i < k <= |s| ==> mop[k] == s[k - 1]
    {
      j, i := j + 1, i + 1;
      mop[j] := mop[i];
    }
    assert Held(mop) == s[..i0 - num] + s[i0..];
  }

  /** Reclaimed pages for an allocation of num pages: the lowest run there is,
      and exactly that run leaves the list; otherwise the list stays. */
  method Reclaim(mop: array<int>, num: nat) returns (found: bool, pgno: int)
    requires 0 < mop.Length && 0 <= mop[0] < mop.Length && Strict(Held(mop)) && num > 0
    modifies mop
    ensures 0 <= mop[0] < mop.Length && Strict(Held(mop))
    ensures found <==> exists x :: HasRun(old(Held(mop)), x, num)
    ensures found ==> LowestRun(old(Held(mop)), pgno, num)
    ensures found ==> forall x :: x in Held(mop) <==> x in old(Held(mop)) && !(pgno <= x < pgno + num)
    ensures !found ==> Held(mop) == old(Held(mop))
  {
    ghost var s := Held(mop);
    var i := FindRun(mop, num);
    if i == 0 {
      return false, 0;
    }
    pgno := mop[i];
    assert s[i - 1] == pgno;
    assert HasRun(s, pgno, num);
    TakeRun(mop, i, num);
    CutRun(s, i, num, Held(mop));
    found := true;
  }

  // ---------------------------------------------------------------- giving a run back

  /** The pages of a freed overflow page go in at their place. */
  method GiveBack(mop: array<int>, pg0: int, num: nat)
    requires 0 < mop.Length && 0 <= mop[0] && mop[0] + num < mop.Length && Strict(Held(mop))
    requires forall x :: pg0 <= x < pg0 + num ==> x !in Held(mop)
    modifies mop
    ensures 0 <= mop[0] < mop.Length && Strict(Held(mop))
    ensures forall x :: x in Held(mop) <==> x in old(Held(mop)) || pg0 <= x < pg0 + num
  {
    ghost var s := Held(mop);
    var len := mop[0];
    var i := MakeRoom(mop, pg0, num, s);
    WriteRun(mop, i, pg0, num, s);
    mop[0] := len + num;
    Inserted(s, i, pg0, num, Held(mop));
  }

  /** The pages below the run move behind its place. */
  method MakeRoom(mop: array<int>, pg: int, num: nat, ghost s: seq<int>) returns (i: int)
    requires 0 < mop.Length && 0 <= mop[0] && mop[0] + num < mop.Length && s == Held(mop)
    modifies mop
    ensures 0 <= i <= |s| && mop[0] == |s|
    ensures forall k :: 1 <= k <= i ==> mop[k] == s[k - 1]
    ensures forall k :: i + num < k <= |s| + num ==> mop[k] == s[k - num - 1]
    ensures (i > 0 ==> s[i - 1] >= pg) && (i < |s| ==> s[i] < pg)
  {
    var len := mop[0];
    var j := len + num;
    i := len;
    while i > 0 && mop[i] < pg
      invariant 0 <= i <= len && j == i + num
      invariant mop[0] == len && forall k :: 1 <= k <= i ==> mop[k] == s[k - 1]
      invariant forall k :: j < k <= len + num ==> mop[k] == s[k - num - 1] && mop[k] < pg
    {
      mop[j] := mop[i];
      j, i := j - 1, i - 1;
    }
    assert i < len ==> s[i] == mop[j + 1];
  }

  method WriteRun(mop: array<int>, i: int, pg0: int, num: nat, ghost s: seq<int>)
    requires 0 <= i <= |s| && |s| + num < mop.Length && mop[0] == |s|
    requires forall k :: 1 <= k <= i ==> mop[k] == s[k - 1]
    requires forall k :: i + num < k <= |s| + num ==> mop[k] == s[k - num - 1]
    modifies mop
    ensures mop[0] == |s| && forall k :: 1 <= k <= i ==> mop[k] == s[k - 1]
    ensures forall k :: i + num < k <= |s| + num ==> mop[k] == s[k - num - 1]
    ensures forall k :: i < k <= i + num ==> mop[k] == pg0 + i + num - k
  {
    var pg, j := pg0, i + num;
    while j > i
      invariant i <= j <= i + num && pg == pg0 + (i + num - j)
      invariant mop[0] == |s| && forall k :: 1 <= k <= i ==> mop[k] == s[k - 1]
      invariant forall k :: i + num < k <= |s| + num ==> mop[k] == s[k - num - 1]
      invariant forall k :: j < k <= i + num ==> mop[k] == pg0 + i + num - k
    {
      mop[j] := pg;
      j, pg := j - 1, pg + 1;
    }
  }

  /** The run stands in the new list from index i on. */
  predicate RunIn(s: seq<int>, i: int, pg: int, num: nat, t: seq<int>) {
    && 0 <= i <= |s| && |t| == |s| + num
    && (forall k :: 0 <= k < i ==> t[k] == s[k])
    && (forall k :: i <= k < i + num ==> t[k] == pg + i + num - 1 - k)
    && (forall k :: i + num <= k < |t| ==> t[k] == s[k - num])
  }

  lemma InsertedOne(s: seq<int>, i: int, pg: int, num: nat, t: seq<int>, x: int)
    requires RunIn(s, i, pg, num, t)
    ensures x in t <==> x in s || pg <= x < pg + num
  {
    if x in s {
      var k :| 0 <= k < |s| && s[k] == x;
      assert t[if k < i then k else k + num] == x;
    }
    if pg <= x < pg + num {
      assert t[i + num - 1 - (x - pg)] == x;
    }
    if x in t {
      var k :| 0 <= k < |t| && t[k] == x;
      assert k < i ==> s[k] == x;
      assert k >= i + num ==> s[k - num] == x;
    }
  }

  lemma Inserted(s: seq<int>, i: int, pg: int, num: nat, t: seq<int>)
    requires Strict(s) && RunIn(s, i, pg, num, t)
    requires (i > 0 ==> s[i - 1] >= pg) && (i < |s| ==> s[i] < pg)
    requires forall x :: pg <= x < pg + num ==> x !in s
    ensures Strict(t) && forall x :: x in t <==> x in s || pg <= x < pg + num
  {
    if i > 0 && num > 0 {
      assert s[i - 1] in s;
      assert s[i - 1] >= pg + num;
    }
    forall x { InsertedOne(s, i, pg, num, t, x); }
  }
}
