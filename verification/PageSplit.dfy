/**
 Where mdb_page_split cuts a page.  A page is seen as the sequence of the
 sizes of its nodes, each with its two-byte pointer, in units of bytes.
 */
module PageSplit {
  import opened PageFormat

  /** A branch node with no key, with its pointer. */
  const EMPTYNODE := 10

  predicate ValidPsize(psize: nat) { 4096 <= psize <= 32768 && psize % 16 == 0 }

  function Pmax(psize: nat): nat
    requires ValidPsize(psize)
  {
    psize - PAGEHDRSZ
  }

  /** me_nodemax */
  function NodeMax(psize: nat): nat
    requires ValidPsize(psize)
  {
    Pmax(psize) / 2 / 2 * 2 - 2
  }

  function Sum(s: seq<nat>): nat {
    if s == [] then 0 else s[0] + Sum(s[1..])
  }

  lemma {:induction false} SumConcat(a: seq<nat>, b: seq<nat>)
    ensures Sum(a + b) == Sum(a) + Sum(b)
  {
    if a == [] {
      assert a + b == b;
    } else {
      assert (a + b)[1..] == a[1..] + b;
      SumConcat(a[1..], b);
    }
  }

  lemma {:induction false} SumCut(s: seq<nat>, i: nat)
    requires i <= |s|
    ensures Sum(s) == Sum(s[..i]) + Sum(s[i..])
    ensures i < |s| ==> Sum(s[..i + 1]) == Sum(s[..i]) + s[i] && Sum(s[i..]) == s[i] + Sum(s[i + 1..])
  {
    assert s == s[..i] + s[i..];
    SumConcat(s[..i], s[i..]);
    if i < |s| {
      SumFront(s, i);
      assert s[i..][1..] == s[i + 1..];
    }
  }

  lemma SumFront(s: seq<nat>, i: nat)
    requires i < |s|
    ensures Sum(s[..i + 1]) == Sum(s[..i]) + s[i]
  {
    assert s[..i + 1] == s[..i] + [s[i]];
    SumConcat(s[..i], [s[i]]);
    assert Sum([s[i]]) == s[i];
  }

  lemma {:induction false} SumInsert(s: seq<nat>, i: nat, x: nat)
    requires i <= |s|
    ensures Sum(Insert(s, i, x)) == Sum(s) + x
  {
    SumCut(s, i);
    SumConcat(s[..i] + [x], s[i..]);
    SumConcat(s[..i], [x]);
  }

  // ---------------------------------------------------------------- the cut

  predicate ScanRuns(psize: nat, nkeys: nat, newindx: nat, nsize: nat)
    requires ValidPsize(psize)
  {
    nkeys < psize / 128 || nsize > Pmax(psize) / 16 || newindx >= nkeys
  }

  /** First index at or after i at which the nodes from 0 on outgrow a page, at most k-1. */
  function ScanUp(sz: seq<nat>, pmax: nat, i: nat, k: nat, acc: nat): nat
    requires i < k <= |sz|
    decreases k - i
  {
    if acc + sz[i] > pmax || i == k - 1 then i else ScanUp(sz, pmax, i + 1, k, acc + sz[i])
  }

  /** One past the last index at or below i at which the nodes from the end outgrow a page. */
  function ScanDown(sz: seq<nat>, pmax: nat, i: nat, k: nat, acc: nat): nat
    requires k <= i < |sz|
    decreases i
  {
    if acc + sz[i] > pmax || i == k then i + 1 else ScanDown(sz, pmax, i - 1, k, acc + sz[i])
  }

  /** The split index for a page with node sizes was and a new node of size
      nsize at newindx: nodes from it on, counting the new one, move right. */
  function SplitIndex(psize: nat, was: seq<nat>, newindx: nat, nsize: nat, leaf: bool): nat
    requires ValidPsize(psize) && newindx <= |was| && 2 <= |was|
  {
    var nkeys := |was|;
    var half := (nkeys + 1) / 2;
    var sz := Insert(was, newindx, nsize);
    if !ScanRuns(psize, nkeys, newindx, nsize) then half
    else if newindx >= nkeys then ScanUp(sz, Pmax(psize), 0, nkeys, 0)
    else if newindx <= half then ScanUp(sz, Pmax(psize), 0, half + 1 + (if leaf then 1 else 0), 0)
    else ScanDown(sz, Pmax(psize), nkeys, half, 0)
  }

  /** The scan as the source writes it. */
  method FindSplit(psize: nat, was: seq<nat>, newindx: nat, nsize: nat, leaf: bool) returns (split: nat)
    requires ValidPsize(psize) && newindx <= |was| && 2 <= |was|
    ensures split == SplitIndex(psize, was, newindx, nsize, leaf)
  {
    var pmax := psize - PAGEHDRSZ;
    var keythresh := psize / 128;
    var nkeys := |was|;
    var sz := Insert(was, newindx, nsize);
    split := (nkeys + 1) / 2;
    if nkeys < keythresh || nsize > pmax / 16 || newindx >= nkeys {
      var acc: nat := 0;
      if newindx <= split || newindx >= nkeys {
        var i := 0;
        var k := if newindx >= nkeys then nkeys else split + 1 + (if leaf then 1 else 0);
        while i != k
          invariant 0 <= i < k
          invariant ScanUp(sz, pmax, 0, k, 0) == ScanUp(sz, pmax, i, k, acc)
          decreases k - i
        {
          acc := acc + sz[i];
          if acc > pmax || i == k - 1 {
            split := i;
            break;
          }
          i := i + 1;
        }
      } else {
        var i := nkeys;
        var k := split - 1;
        while i != k
          invariant k < i <= nkeys
          invariant ScanDown(sz, pmax, nkeys, k + 1, 0) == ScanDown(sz, pmax, i, k + 1, acc)
          decreases i - k
        {
          acc := acc + sz[i];
          if acc > pmax || i == k + 1 {
            split := i + 1;
            break;
          }
          i := i - 1;
        }
      }
    }
  }

  lemma {:induction false} ScanUpMeaning(sz: seq<nat>, pmax: nat, i: nat, k: nat)
    requires i < k <= |sz| && Sum(sz[..i]) <= pmax
    ensures var s := ScanUp(sz, pmax, i, k, Sum(sz[..i]));
      i <= s < k && Sum(sz[..s]) <= pmax && (s < k - 1 ==> Sum(sz[..s + 1]) > pmax)
    decreases k - i
  {
    SumCut(sz, i);
    if Sum(sz[..i]) + sz[i] <= pmax && i < k - 1 {
      ScanUpMeaning(sz, pmax, i + 1, k);
    }
  }

  lemma {:induction false} ScanDownMeaning(sz: seq<nat>, pmax: nat, i: nat, k: nat)
    requires k <= i < |sz| && Sum(sz[i + 1..]) <= pmax
    ensures var s := ScanDown(sz, pmax, i, k, Sum(sz[i + 1..]));
      k < s <= i + 1 && Sum(sz[s..]) <= pmax && (s > k + 1 ==> Sum(sz[s - 1..]) > pmax)
    decreases i
  {
    SumCut(sz, i);
    if Sum(sz[i + 1..]) + sz[i] <= pmax && i > k {
      ScanDownMeaning(sz, pmax, i - 1, k);
    }
  }

  /** Where a page is cut, in bytes; sz are the node sizes with the new one at
      index `at`.  With many nodes and a small new one it is in the middle, unless
      the new one is the last.  Otherwise as many nodes stay as fit, at most all
      old ones but one, or half of them (on a leaf one more) if the new node is
      in the first half; if it is in the second, as many nodes go right as fit. */
  predicate SplitPoint(psize: nat, sz: seq<nat>, at: nat, leaf: bool, s: nat)
    requires at < |sz| && 3 <= |sz|
  {
    var n, half, room := |sz| - 1, |sz| / 2, psize - PAGEHDRSZ;
    if ManySmall(psize, n, at, sz[at]) then s == half
    else if at == n then MostLeft(sz, room, s, n - 1)
    else if at <= half then MostLeft(sz, room, s, if leaf then half + 1 else half)
    else MostRight(sz, room, s, half + 1)
  }

  predicate ManySmall(psize: nat, nkeys: nat, at: nat, size: nat) {
    psize < 128 * (nkeys + 1) && 16 * size <= psize - PAGEHDRSZ && at < nkeys
  }

  predicate MostLeft(sz: seq<nat>, room: int, s: nat, last: nat) {
    s <= last < |sz| && Sum(sz[..s]) <= room && (s < last ==> Sum(sz[..s + 1]) > room)
  }

  predicate MostRight(sz: seq<nat>, room: int, s: nat, first: nat) {
    0 < first <= s <= |sz| && Sum(sz[s..]) <= room && (s > first ==> Sum(sz[s - 1..]) > room)
  }

  lemma {:induction false} SplitPointIs(psize: nat, was: seq<nat>, newindx: nat, nsize: nat, leaf: bool)
    requires ValidPsize(psize) && newindx <= |was| && 2 <= |was|
    ensures SplitPoint(psize, Insert(was, newindx, nsize), newindx, leaf, SplitIndex(psize, was, newindx, nsize, leaf))
  {
    var n, half, sz := |was|, (|was| + 1) / 2, Insert(was, newindx, nsize);
    var s := SplitIndex(psize, was, newindx, nsize, leaf);
    ScanRunsIs(psize, n, newindx, nsize);
    if !ScanRuns(psize, n, newindx, nsize) {
      PointIs(psize, sz, n, half, newindx, leaf, s);
    } else if newindx >= n {
      CutUp(sz, Pmax(psize), n);
      PointIs(psize, sz, n, half, newindx, leaf, s);
    } else if newindx <= half {
      CutUp(sz, Pmax(psize), half + 1 + (if leaf then 1 else 0));
      PointIs(psize, sz, n, half, newindx, leaf, s);
    } else {
      CutDown(sz, Pmax(psize), half);
      PointIs(psize, sz, n, half, newindx, leaf, s);
    }
  }

  lemma PointIs(psize: nat, sz: seq<nat>, n: nat, half: nat, at: nat, leaf: bool, s: nat)
    requires |sz| == n + 1 && at <= n && n >= 2 && half == (n + 1) / 2
    requires if ManySmall(psize, n, at, sz[at]) then s == half
      else if at == n then MostLeft(sz, psize - PAGEHDRSZ, s, n - 1)
      else if at <= half then MostLeft(sz, psize - PAGEHDRSZ, s, half + (if leaf then 1 else 0))
      else MostRight(sz, psize - PAGEHDRSZ, s, half + 1)
    ensures SplitPoint(psize, sz, at, leaf, s)
  {
  }

  lemma {:induction false} CutUp(sz: seq<nat>, pmax: nat, k: nat)
    requires 0 < k <= |sz|
    ensures MostLeft(sz, pmax, ScanUp(sz, pmax, 0, k, 0), k - 1)
  {
    assert sz[..0] == [];
    ScanUpMeaning(sz, pmax, 0, k);
  }

  lemma {:induction false} CutDown(sz: seq<nat>, pmax: nat, k: nat)
    requires k < |sz|
    ensures MostRight(sz, pmax, ScanDown(sz, pmax, |sz| - 1, k, 0), k + 1)
  {
    assert sz[|sz|..] == [];
    ScanDownMeaning(sz, pmax, |sz| - 1, k);
  }

  /** The thresholds without a division. */
  lemma ScanRunsIs(psize: nat, nkeys: nat, newindx: nat, nsize: nat)
    requires ValidPsize(psize)
    ensures ScanRuns(psize, nkeys, newindx, nsize) <==> !ManySmall(psize, nkeys, newindx, nsize)
  {
  }

  /** Bytes the right page needs: a branch page drops its first key. */
  function RightSize(sz: seq<nat>, s: nat, leaf: bool): nat
    requires s < |sz|
  {
    if leaf then Sum(sz[s..]) else EMPTYNODE + Sum(sz[s + 1..])
  }

  predicate HalvesFit(psize: nat, was: seq<nat>, newindx: nat, nsize: nat, leaf: bool)
    requires ValidPsize(psize) && newindx <= |was| && 2 <= |was|
  {
    var sz := Insert(was, newindx, nsize);
    var s := SplitIndex(psize, was, newindx, nsize, leaf);
    1 <= s <= |was| && Sum(sz[..s]) <= Pmax(psize) && RightSize(sz, s, leaf) <= Pmax(psize)
  }

  /** A page as it can be: nothing is larger than half a page, and it is at worst full. */
  predicate Splittable(psize: nat, was: seq<nat>, nsize: nat)
    requires ValidPsize(psize)
  {
    && 2 <= |was|
    && (forall i :: 0 <= i < |was| ==> EMPTYNODE <= was[i] <= Pmax(psize) / 2)
    && EMPTYNODE <= nsize <= Pmax(psize) / 2
    && Sum(was) <= Pmax(psize)
  }

  lemma InsertedAfter(was: seq<nat>, newindx: nat, nsize: nat, s: nat)
    requires s <= newindx <= |was|
    ensures var sz := Insert(was, newindx, nsize);
      && sz[..s] == was[..s] && sz[s..] == Insert(was[s..], newindx - s, nsize)
      && Sum(sz[s..]) == Sum(was[s..]) + nsize
  {
    var a, b := Insert(was, newindx, nsize)[s..], Insert(was[s..], newindx - s, nsize);
    forall k | 0 <= k < |b| ensures a[k] == b[k] {}
    assert a == b;
    SumInsert(was[s..], newindx - s, nsize);
  }

  lemma InsertedBefore(was: seq<nat>, newindx: nat, nsize: nat, s: nat)
    requires newindx < s <= |was|
    ensures var sz := Insert(was, newindx, nsize);
      Sum(sz[..s]) == Sum(was[..s - 1]) + nsize && sz[s..] == was[s - 1..]
  {
    var a, b := Insert(was, newindx, nsize)[..s], Insert(was[..s - 1], newindx, nsize);
    forall k | 0 <= k < |b| ensures a[k] == b[k] {}
    assert a == b;
    SumInsert(was[..s - 1], newindx, nsize);
  }

  /** Sums of a sequence with one node inserted, on either side of a cut. */
  lemma InsertedCut(was: seq<nat>, newindx: nat, nsize: nat, s: nat)
    requires newindx <= |was| && s <= |was|
    ensures var sz := Insert(was, newindx, nsize);
      && (newindx < s ==> Sum(sz[..s]) == Sum(was[..s - 1]) + nsize && sz[s..] == was[s - 1..])
      && (newindx >= s ==> sz[..s] == was[..s] && Sum(sz[s..]) == Sum(was[s..]) + nsize)
  {
    if newindx < s {
      InsertedBefore(was, newindx, nsize, s);
    } else {
      InsertedAfter(was, newindx, nsize, s);
    }
  }

  lemma RightAtMost(sz: seq<nat>, s: nat, leaf: bool)
    requires s < |sz| && EMPTYNODE <= sz[s]
    ensures RightSize(sz, s, leaf) <= Sum(sz[s..])
  {
    SumCut(sz, s);
  }

  /** A cut where adding one more node would have outgrown a page leaves at
      most two half-page nodes' worth on the other side. */
  lemma {:induction false} OutgrownUp(sz: seq<nat>, pmax: nat, s: nat)
    requires s < |sz| && sz[s] <= pmax / 2 && Sum(sz) <= pmax + pmax / 2 && Sum(sz[..s + 1]) > pmax
    ensures Sum(sz[s..]) <= pmax
  {
    SumCut(sz, s);
  }

  lemma {:induction false} OutgrownDown(sz: seq<nat>, pmax: nat, s: nat)
    requires 1 <= s <= |sz| && sz[s - 1] <= pmax / 2 && Sum(sz) <= pmax + pmax / 2 && Sum(sz[s - 1..]) > pmax
    ensures Sum(sz[..s]) <= pmax
  {
    SumCut(sz, s - 1);
  }

  /** Two nodes never outgrow a page, so a cut upwards is never at 0. */
  lemma AtLeastOne(sz: seq<nat>, pmax: nat, s: nat, k: nat)
    requires 2 <= k <= |sz| && s < k
    requires sz[0] <= pmax / 2
    requires s < k - 1 ==> Sum(sz[..s + 1]) > pmax
    ensures 1 <= s
  {
    assert sz[..1] == [sz[0]];
    assert Sum([sz[0]]) == sz[0];
  }

  lemma Inserted(psize: nat, was: seq<nat>, newindx: nat, nsize: nat)
    requires ValidPsize(psize) && newindx <= |was| && Splittable(psize, was, nsize)
    ensures var sz := Insert(was, newindx, nsize);
      && |sz| == |was| + 1 && Sum(sz) <= Pmax(psize) + Pmax(psize) / 2
      && forall i :: 0 <= i < |sz| ==> EMPTYNODE <= sz[i] <= Pmax(psize) / 2
  {
    SumInsert(was, newindx, nsize);
  }

  lemma ScanUpFits(psize: nat, was: seq<nat>, newindx: nat, nsize: nat, leaf: bool)
    requires ValidPsize(psize) && newindx <= |was| && Splittable(psize, was, nsize)
    requires ScanRuns(psize, |was|, newindx, nsize)
    requires newindx >= |was| || newindx <= (|was| + 1) / 2
    ensures HalvesFit(psize, was, newindx, nsize, leaf)
  {
    var nkeys, half := |was|, (|was| + 1) / 2;
    var k := if newindx >= nkeys then nkeys else half + 1 + (if leaf then 1 else 0);
    var s := SplitIndex(psize, was, newindx, nsize, leaf);
    Inserted(psize, was, newindx, nsize);
    UpFits(psize, was, newindx, nsize, leaf, s, k);
  }

  lemma {:induction false} UpFits(psize: nat, was: seq<nat>, newindx: nat, nsize: nat, leaf: bool, s: nat, k: nat)
    requires ValidPsize(psize) && newindx <= |was| && Splittable(psize, was, nsize) && 2 <= k <= |was| + 1
    requires if newindx >= |was| then k == |was| else newindx < k - 1 || (newindx == k - 1 && !leaf)
    requires s == ScanUp(Insert(was, newindx, nsize), Pmax(psize), 0, k, 0)
    requires var sz := Insert(was, newindx, nsize);
      Sum(sz) <= Pmax(psize) + Pmax(psize) / 2 && forall i :: 0 <= i < |sz| ==> EMPTYNODE <= sz[i] <= Pmax(psize) / 2
    ensures var sz := Insert(was, newindx, nsize);
      1 <= s < k && Sum(sz[..s]) <= Pmax(psize) && RightSize(sz, s, leaf) <= Pmax(psize)
  {
    var sz, pmax := Insert(was, newindx, nsize), Pmax(psize);
    assert sz[..0] == [];
    ScanUpMeaning(sz, pmax, 0, k);
    AtLeastOne(sz, pmax, s, k);
    RightAtMost(sz, s, leaf);
    if s < k - 1 {
      OutgrownUp(sz, pmax, s);
    } else if newindx >= |was| {
      assert sz[s..] == [was[k - 1], nsize];
      assert Sum([nsize]) == nsize;
    } else {
      ReachedMiddle(was, newindx, nsize, s, pmax, leaf);
    }
  }

  /** The cut is past the new node, or right at it on a branch page. */
  lemma {:induction false} ReachedMiddle(was: seq<nat>, newindx: nat, nsize: nat, s: nat, pmax: nat, leaf: bool)
    requires newindx < |was| && 1 <= s <= |was| && (newindx < s || (newindx == s && !leaf))
    requires Sum(was) <= pmax && (forall i :: 0 <= i < |was| ==> EMPTYNODE <= was[i]) && EMPTYNODE <= nsize
    ensures RightSize(Insert(was, newindx, nsize), s, leaf) <= pmax
  {
    var sz := Insert(was, newindx, nsize);
    InsertedCut(was, newindx, nsize, s);
    if newindx < s {
      SumCut(was, s - 1);
      RightAtMost(sz, s, leaf);
    } else {
      assert sz[s + 1..] == was[s..];
      SumCut(was, s);
      SumCut(was[..s], 0);
    }
  }

  lemma ScanDownFits(psize: nat, was: seq<nat>, newindx: nat, nsize: nat, leaf: bool)
    requires ValidPsize(psize) && newindx < |was| && Splittable(psize, was, nsize)
    requires ScanRuns(psize, |was|, newindx, nsize)
    requires newindx > (|was| + 1) / 2
    ensures HalvesFit(psize, was, newindx, nsize, leaf)
  {
    var pmax, nkeys, half := Pmax(psize), |was|, (|was| + 1) / 2;
    var sz := Insert(was, newindx, nsize);
    var s := SplitIndex(psize, was, newindx, nsize, leaf);
    Inserted(psize, was, newindx, nsize);
    assert sz[nkeys + 1..] == [];
    ScanDownMeaning(sz, pmax, nkeys, half);
    SumCut(sz, nkeys);
    RightAtMost(sz, s, leaf);
    if s > half + 1 {
      OutgrownDown(sz, pmax, s);
    } else {
      InsertedCut(was, newindx, nsize, s);
      SumCut(was, s);
    }
  }

  /** Whenever the scan runs, the cut leaves both pages with at least one node
      and neither overfull, so no later mdb_node_add fails. */
  lemma ScanSplitFits(psize: nat, was: seq<nat>, newindx: nat, nsize: nat, leaf: bool)
    requires ValidPsize(psize) && newindx <= |was| && Splittable(psize, was, nsize)
    requires ScanRuns(psize, |was|, newindx, nsize)
    ensures HalvesFit(psize, was, newindx, nsize, leaf)
  {
    if newindx >= |was| || newindx <= (|was| + 1) / 2 {
      ScanUpFits(psize, was, newindx, nsize, leaf);
    } else {
      ScanDownFits(psize, was, newindx, nsize, leaf);
    }
  }

  /** When the scan is skipped the page is cut in the middle, and the pages fit
      exactly if the half that receives the new node has room for it. */
  predicate ReceivingHalfHasRoom(psize: nat, was: seq<nat>, newindx: nat, nsize: nat, leaf: bool)
    requires ValidPsize(psize) && newindx <= |was| && 2 <= |was|
  {
    var half := (|was| + 1) / 2;
    if newindx < half then Sum(was[..half - 1]) + nsize <= Pmax(psize)
    else if leaf then Sum(was[half..]) + nsize <= Pmax(psize)
    else newindx == half || EMPTYNODE + Sum(was[half + 1..]) + nsize <= Pmax(psize)
  }

  lemma MiddleCut(psize: nat, was: seq<nat>, newindx: nat, nsize: nat, leaf: bool)
    requires ValidPsize(psize) && newindx < |was| && Splittable(psize, was, nsize)
    ensures var half := (|was| + 1) / 2;
      var sz := Insert(was, newindx, nsize);
      (Sum(sz[..half]) <= Pmax(psize) && RightSize(sz, half, leaf) <= Pmax(psize)) <==>
      ReceivingHalfHasRoom(psize, was, newindx, nsize, leaf)
  {
    if newindx < (|was| + 1) / 2 {
      MiddleLeft(psize, was, newindx, nsize, leaf, (|was| + 1) / 2);
    } else {
      MiddleRight(psize, was, newindx, nsize, leaf, (|was| + 1) / 2);
    }
  }

  lemma MiddleLeft(psize: nat, was: seq<nat>, newindx: nat, nsize: nat, leaf: bool, half: nat)
    requires ValidPsize(psize) && newindx < half < |was| && Splittable(psize, was, nsize)
    ensures var sz := Insert(was, newindx, nsize);
      (Sum(sz[..half]) <= Pmax(psize) && RightSize(sz, half, leaf) <= Pmax(psize)) <==>
      Sum(was[..half - 1]) + nsize <= Pmax(psize)
  {
    InsertedBefore(was, newindx, nsize, half);
    ReachedMiddle(was, newindx, nsize, half, Pmax(psize), leaf);
  }

  lemma MiddleRight(psize: nat, was: seq<nat>, newindx: nat, nsize: nat, leaf: bool, half: nat)
    requires ValidPsize(psize) && 1 <= half <= newindx < |was| && Splittable(psize, was, nsize)
    ensures var sz := Insert(was, newindx, nsize);
      (Sum(sz[..half]) <= Pmax(psize) && RightSize(sz, half, leaf) <= Pmax(psize)) <==>
      if leaf then Sum(was[half..]) + nsize <= Pmax(psize)
      else newindx == half || EMPTYNODE + Sum(was[half + 1..]) + nsize <= Pmax(psize)
  {
    SumCut(was, half);
    InsertedAfter(was, newindx, nsize, half);
    if !leaf && newindx == half {
      ReachedMiddle(was, newindx, nsize, half, Pmax(psize), leaf);
    } else if !leaf {
      InsertedAfter(was, newindx, nsize, half + 1);
    }
  }

  lemma SplitFitsExactly(psize: nat, was: seq<nat>, newindx: nat, nsize: nat, leaf: bool)
    requires ValidPsize(psize) && newindx <= |was| && Splittable(psize, was, nsize)
    ensures HalvesFit(psize, was, newindx, nsize, leaf) <==>
      ScanRuns(psize, |was|, newindx, nsize) || ReceivingHalfHasRoom(psize, was, newindx, nsize, leaf)
  {
    if ScanRuns(psize, |was|, newindx, nsize) {
      ScanSplitFits(psize, was, newindx, nsize, leaf);
    } else {
      MiddleCut(psize, was, newindx, nsize, leaf);
    }
  }

  lemma {:induction false} SumConst(n: nat, x: nat)
    ensures Sum(seq(n, _ => x)) == n * x
  {
    if n > 0 {
      assert seq(n, _ => x)[1..] == seq(n - 1, _ => x);
      SumConst(n - 1, x);
    }
  }

  /** The skipped scan can overflow: on 4096-byte pages, a full leaf of 16
      nodes of 12 bytes and 16 of 242 bytes, and a new node of 254 bytes that
      belongs among the large ones. */
  lemma SkippedScanOverflows()
    ensures var was := seq(16, _ => 12) + seq(16, _ => 242);
      && Splittable(4096, was, 254) && Sum(was) + 254 > Pmax(4096)
      && !HalvesFit(4096, was, 20, 254, true)
  {
    var a, b := seq(16, _ => 12), seq(16, _ => 242);
    var was := a + b;
    SumConst(16, 12);
    SumConst(16, 242);
    SumConcat(a, b);
    assert was[16..] == b;
    SplitFitsExactly(4096, was, 20, 254, true);
  }

  /** ... and on a branch page: nodes of 12 and of 256 bytes after the first
      one, and a new node of 254 bytes among the large ones. */
  function CrowdedSizes(): seq<nat> { [EMPTYNODE] + seq(16, _ => 12) + seq(15, _ => 256) }

  lemma CrowdedSum()
    ensures Sum(CrowdedSizes()) == 4042 && Sum(CrowdedSizes()[17..]) == 3840
  {
    var a, b, c := [EMPTYNODE], seq(16, _ => 12), seq(15, _ => 256);
    SumConst(16, 12);
    SumConst(15, 256);
    SumConcat(a + b, c);
    SumConcat(a, b);
    assert Sum(a) == EMPTYNODE;
    assert CrowdedSizes()[17..] == c;
  }

  lemma CrowdedRefuses(psize: nat, was: seq<nat>, newindx: nat, nsize: nat)
    requires psize == 4096 && |was| == 32 && newindx == 20 && nsize == 254 && Splittable(psize, was, nsize)
    requires Sum(was[17..]) == 3840
    ensures !HalvesFit(psize, was, newindx, nsize, false)
  {
    SplitFitsExactly(psize, was, newindx, nsize, false);
  }

  lemma SkippedScanOverflowsBranch()
    ensures Splittable(4096, CrowdedSizes(), 254) && !HalvesFit(4096, CrowdedSizes(), 20, 254, false)
  {
    CrowdedSum();
    CrowdedRefuses(4096, CrowdedSizes(), 20, 254);
  }
}
