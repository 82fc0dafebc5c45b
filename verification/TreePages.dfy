/**
 The page counters of MDB_db: what mdb_page_new, splits and merges add up to.
 */
module TreePages {
  import opened Keys
  import opened PageFormat
  import opened Items
  import opened PageSplit
  import opened Tree
  import opened TreeSearch
  import opened TreePut
  import opened TreePutProof
  import opened TreeDel
  import opened TreeDelProof
  import opened TreeDelete

  // ---------------------------------------------------------------- counting pages

  /** Leaf pages or branch pages of a tree. */
  function Count(t: Tree, leaf: bool): int
    decreases t
  {
    match t
    case Leaf(es) => if leaf then 1 else 0
    case Branch(kids) => KidCount(kids, leaf) + if leaf then 0 else 1
  }

  function KidCount(kids: seq<Kid>, leaf: bool): int
    decreases kids
  {
    if kids == [] then 0 else Count(kids[0].sub, leaf) + KidCount(kids[1..], leaf)
  }

  lemma {:induction false} CountConcat(a: seq<Kid>, b: seq<Kid>, leaf: bool)
    ensures KidCount(a + b, leaf) == KidCount(a, leaf) + KidCount(b, leaf)
  {
    if a == [] {
      assert a + b == b;
    } else {
      assert (a + b)[1..] == a[1..] + b;
      CountConcat(a[1..], b, leaf);
    }
  }

  lemma {:induction false} CountOne(k: Kid, leaf: bool)
    ensures KidCount([k], leaf) == Count(k.sub, leaf)
  {
  }

  lemma {:induction false} CountCut(kids: seq<Kid>, i: nat, leaf: bool)
    requires i <= |kids|
    ensures KidCount(kids, leaf) == KidCount(kids[..i], leaf) + KidCount(kids[i..], leaf)
    ensures i < |kids| ==> KidCount(kids[i..], leaf) == Count(kids[i].sub, leaf) + KidCount(kids[i + 1..], leaf)
  {
    assert kids == kids[..i] + kids[i..];
    CountConcat(kids[..i], kids[i..], leaf);
    if i < |kids| { assert kids[i..][1..] == kids[i + 1..]; }
  }

  lemma CountSet(kids: seq<Kid>, i: nat, kid: Kid, leaf: bool)
    requires i < |kids|
    ensures KidCount(kids[i := kid], leaf) == KidCount(kids, leaf) - Count(kids[i].sub, leaf) + Count(kid.sub, leaf)
  {
    CountCut(kids, i, leaf);
    CountCut(kids[i := kid], i, leaf);
    assert kids[i := kid][..i] == kids[..i] && kids[i := kid][i + 1..] == kids[i + 1..];
  }

  lemma {:induction false} CountInsert(kids: seq<Kid>, i: nat, kid: Kid, leaf: bool)
    requires i <= |kids|
    ensures KidCount(Insert(kids, i, kid), leaf) == KidCount(kids, leaf) + Count(kid.sub, leaf)
  {
    CountCut(kids, i, leaf);
    CountConcat(kids[..i] + [kid], kids[i..], leaf);
    CountConcat(kids[..i], [kid], leaf);
    CountOne(kid, leaf);
  }

  function InsCount(r: Ins, leaf: bool): int
    requires !r.Full?
  {
    match r
    case Grew(t) => Count(t, leaf)
    case Halves(l, _, r) => Count(l, leaf) + Count(r, leaf)
  }

  function DelCount(r: Del, leaf: bool): int
    requires !r.Jammed?
  {
    match r
    case Settled(t) => Count(t, leaf)
    case Shrunk(t) => Count(t, leaf)
    case Broke(l, _, r) => Count(l, leaf) + Count(r, leaf)
  }

  /** A branch page cut in two holds the same pages and is one page more. */
  lemma {:induction false} SplitCount(psize: nat, kids: seq<Kid>, i: nat, kid: Kid, leaf: bool)
    requires ValidPsize(psize) && i <= |kids| && 2 <= |kids|
    ensures var r := SplitKids(psize, kids, i, kid);
      !r.Full? ==> InsCount(r, leaf) == KidCount(Insert(kids, i, kid), leaf) + (if leaf then 0 else 2)
  {
    var r := SplitKids(psize, kids, i, kid);
    if r.Halves? {
      var s := SplitIndex(psize, KidSizes(kids), i, BranchNode(kid.sep), false);
      var all := Insert(kids, i, kid);
      CountCut(all, s, leaf);
      CountConcat([Kid([], all[s].sub)], all[s + 1..], leaf);
      CountOne(Kid([], all[s].sub), leaf);
    }
  }

  lemma {:induction false} AddKidCount(psize: nat, kids: seq<Kid>, i: nat, kid: Kid, leaf: bool)
    requires ValidPsize(psize) && i <= |kids| && |kid.sep| <= MAXKEYSIZE && Used(Branch(kids)) <= Pmax(psize)
    requires forall i :: 0 <= i < |kids| ==> |kids[i].sep| <= MAXKEYSIZE
    ensures var r := AddKid(psize, kids, i, kid);
      var own := if leaf then 0 else if r.Halves? then 2 else 1;
      !r.Full? ==> InsCount(r, leaf) == KidCount(kids, leaf) + Count(kid.sub, leaf) + own
  {
    CountInsert(kids, i, kid, leaf);
    if Used(Branch(kids)) + BranchNode(kid.sep) > Pmax(psize) {
      KidsSplittable(psize, kids, kid.sep);
      SplitCount(psize, kids, i, kid, leaf);
    }
  }

  lemma BrokeCounts(psize: nat, kids: seq<Kid>, i: nat, l: Tree, sep: Key, r: Tree, leaf: bool) returns (x: Ins)
    requires ValidPsize(psize) && i < |kids| && |sep| <= MAXKEYSIZE && Used(Branch(kids)) <= Pmax(psize)
    requires forall i :: 0 <= i < |kids| ==> |kids[i].sep| <= MAXKEYSIZE
    ensures Used(Branch(SetSub(kids, i, l))) <= Pmax(psize)
    ensures x == AddKid(psize, SetSub(kids, i, l), i + 1, Kid(sep, r))
    ensures !x.Full? ==> InsCount(x, leaf) == KidCount(kids, leaf) - Count(kids[i].sub, leaf) + Count(l, leaf) + Count(r, leaf)
                                              + (if leaf then 0 else if x.Halves? then 2 else 1)
  {
    var kids' := SetSub(kids, i, l);
    x := AddKid(psize, kids', i + 1, Kid(sep, r));
    CountSet(kids, i, kids[i].(sub := l), leaf);
    AddKidCount(psize, kids', i + 1, Kid(sep, r), leaf);
  }

  /** Pages mdb_page_new adds during a put: one for each page split. */
  function PutDelta(psize: nat, t: Tree, ghost d: nat, key: Key, data: Bytes, reuse: bool, leaf: bool): int
    requires ValidPsize(psize) && WF(t, d, psize) && ValidKey(key)
    decreases t
  {
    match t
    case Leaf(es) => if leaf && PutLeaf(psize, es, key, data, reuse).Halves? then 1 else 0
    case Branch(kids) =>
      var i := ChildIndex(kids, key);
      PutDelta(psize, kids[i].sub, d - 1, key, data, reuse, leaf) +
      if !leaf && PutTree(psize, t, d, key, data, reuse).Halves? then 1 else 0
  }

  lemma PutStep(psize: nat, kids: seq<Kid>, d: nat, key: Key, data: Bytes, reuse: bool, leaf: bool)
    returns (i: nat, x: Ins, r: Ins)
    requires ValidPsize(psize) && WF(Branch(kids), d, psize) && ValidKey(key)
    ensures i == ChildIndex(kids, key) && x == PutTree(psize, kids[i].sub, d - 1, key, data, reuse)
    ensures r == PutTree(psize, Branch(kids), d, key, data, reuse)
    ensures x.Full? ==> r.Full?
    ensures !r.Full? ==> InsCount(r, leaf) == KidCount(kids, leaf) - Count(kids[i].sub, leaf) + InsCount(x, leaf)
                                              + (if leaf then 0 else if r.Halves? then 2 else 1)
  {
    i := ChildIndex(kids, key);
    x := PutTree(psize, kids[i].sub, d - 1, key, data, reuse);
    r := PutTree(psize, Branch(kids), d, key, data, reuse);
    match x {
      case Full =>
      case Grew(sub) => CountSet(kids, i, kids[i].(sub := sub), leaf);
      case Halves(l, sep, h) => var y := BrokeCounts(psize, kids, i, l, sep, h, leaf);
    }
  }

  lemma {:induction false} PutCounts(psize: nat, t: Tree, d: nat, key: Key, data: Bytes, reuse: bool, leaf: bool)
    requires ValidPsize(psize) && WF(t, d, psize) && ValidKey(key)
    ensures var r := PutTree(psize, t, d, key, data, reuse);
      !r.Full? ==> InsCount(r, leaf) == Count(t, leaf) + PutDelta(psize, t, d, key, data, reuse, leaf)
    decreases t
  {
    if t.Branch? {
      var i, x, r := PutStep(psize, t.kids, d, key, data, reuse, leaf);
      PutCounts(psize, t.kids[i].sub, d - 1, key, data, reuse, leaf);
    }
  }

  // ---------------------------------------------------------------- rebalancing

  lemma {:induction false} UpdateKeyCount(psize: nat, kids: seq<Kid>, j: nat, key: Key, leaf: bool)
    requires ValidPsize(psize) && j < |kids| && |key| <= MAXKEYSIZE && Used(Branch(kids)) <= Pmax(psize)
    requires forall i :: 0 <= i < |kids| ==> |kids[i].sep| <= MAXKEYSIZE
    ensures var r := UpdateKey(psize, kids, j, key);
      !r.Jammed? ==> DelCount(r, leaf) == KidCount(kids, leaf) + (if leaf then 0 else if r.Broke? then 2 else 1)
  {
    var rest := kids[..j] + kids[j + 1..];
    var kid := Kid(key, kids[j].sub);
    RemovedKidUsed(kids, j);
    CountSet(kids, j, kid, leaf);
    assert Insert(rest, j, kid) == kids[j := kid];
    if Used(Branch(rest)) + BranchNode(key) > Pmax(psize) {
      KidsSplittable(psize, rest, key);
      SplitCount(psize, rest, j, kid, leaf);
    }
  }

  lemma {:induction false} MergeCount(a: Tree, b: Tree, leaf: bool)
    requires a.Leaf? == b.Leaf? && (b.Branch? ==> b.kids != [] && All(b) != [])
    ensures Count(MergePages(a, b), leaf) == Count(a, leaf) + Count(b, leaf) - (if a.Leaf? == leaf then 1 else 0)
  {
    if a.Branch? {
      var k := Kid(Lowest(b), b.kids[0].sub);
      CountConcat(a.kids + [k], b.kids[1..], leaf);
      CountConcat(a.kids, [k], leaf);
      CountOne(k, leaf);
    }
  }

  lemma {:induction false} CountPair(x: Kid, y: Kid, rest: seq<Kid>, leaf: bool)
    ensures KidCount([x, y] + rest, leaf) == Count(x.sub, leaf) + Count(y.sub, leaf) + KidCount(rest, leaf)
    ensures KidCount([x] + rest, leaf) == Count(x.sub, leaf) + KidCount(rest, leaf)
  {
    assert ([x] + rest)[1..] == rest;
    assert ([x, y] + rest)[1..] == [y] + rest;
    assert ([y] + rest)[1..] == rest;
  }

  lemma {:induction false} CountEnds(kids: seq<Kid>, leaf: bool)
    requires kids != []
    ensures KidCount(kids, leaf) == KidCount(kids[..|kids| - 1], leaf) + Count(kids[|kids| - 1].sub, leaf)
    ensures KidCount(kids, leaf) == Count(kids[0].sub, leaf) + KidCount(kids[1..], leaf)
  {
    var n := |kids| - 1;
    CountCut(kids, n, leaf);
    assert kids[n..] == [kids[n]];
    CountOne(kids[n], leaf);
  }

  lemma {:induction false} LastToFront(a: seq<Kid>, b: seq<Kid>, k: Key, leaf: bool)
    requires a != [] && b != []
    ensures var n := |a| - 1;
      KidCount(a[..n], leaf) + KidCount([Kid([], a[n].sub), Kid(k, b[0].sub)] + b[1..], leaf) == KidCount(a, leaf) + KidCount(b, leaf)
  {
    var n := |a| - 1;
    CountEnds(a, leaf);
    CountEnds(b, leaf);
    CountPair(Kid([], a[n].sub), Kid(k, b[0].sub), b[1..], leaf);
  }

  lemma {:induction false} FirstToBack(a: seq<Kid>, b: seq<Kid>, k: Key, leaf: bool)
    requires 2 <= |a|
    ensures KidCount(b + [Kid(k, a[0].sub)], leaf) + KidCount([Kid([], a[1].sub)] + a[2..], leaf) == KidCount(a, leaf) + KidCount(b, leaf)
  {
    CountEnds(a, leaf);
    CountEnds(a[1..], leaf);
    assert a[1..][1..] == a[2..];
    CountPair(Kid([], a[1].sub), Kid(k, a[0].sub), a[2..], leaf);
    CountConcat(b, [Kid(k, a[0].sub)], leaf);
    CountOne(Kid(k, a[0].sub), leaf);
  }

  lemma {:induction false} MoveLeftCount(src: Tree, dst: Tree, leaf: bool)
    requires src.Branch? && dst.Branch? && 1 < |src.kids| && dst.kids != [] && All(dst) != []
    ensures var (l, r, _) := MoveFromLeft(src, dst);
      Count(l, leaf) + Count(r, leaf) == Count(src, leaf) + Count(dst, leaf)
  {
    LastToFront(src.kids, dst.kids, Lowest(dst), leaf);
  }

  lemma {:induction false} MoveRightCount(src: Tree, dst: Tree, leaf: bool)
    requires src.Branch? && dst.Branch? && 1 < |src.kids| && All(src) != []
    ensures var (l, r, _) := MoveFromRight(src, dst);
      Count(l, leaf) + Count(r, leaf) == Count(src, leaf) + Count(dst, leaf)
  {
    FirstToBack(src.kids, dst.kids, Lowest(src), leaf);
  }

  lemma MovedCount(kids: seq<Kid>, i: nat, leaf: bool)
    requires i < |kids| && 2 <= |kids|
    requires var n := if i == 0 then 1 else i - 1;
      && kids[n].sub.Leaf? == kids[i].sub.Leaf? && 1 < NumKeys(kids[n].sub)
      && (kids[i].sub.Branch? ==> kids[i].sub.kids != [] && All(kids[i].sub) != [] && All(kids[n].sub) != [])
    ensures var a := if i == 0 then 0 else i - 1;
      var (l, r, _) := Moved(kids, i);
      Count(l, leaf) + Count(r, leaf) == Count(kids[a].sub, leaf) + Count(kids[a + 1].sub, leaf)
  {
    if kids[i].sub.Branch? {
      if i == 0 {
        MoveRightCount(kids[1].sub, kids[0].sub, leaf);
      } else {
        MoveLeftCount(kids[i - 1].sub, kids[i].sub, leaf);
      }
    }
  }

  /** Page counter changes of mdb_rebalance: one page less for a merge, one
      more if the parent had to be split. */
  function RebalanceDelta(psize: nat, kids: seq<Kid>, i: nat, ghost d: nat, leaf: bool): int
    requires ValidPsize(psize) && Rebalancing(kids, i, d, psize)
  {
    var r := Rebalance(psize, kids, i, d);
    if r.Shrunk? then (if kids[i].sub.Leaf? == leaf then -1 else 0)
    else if r.Broke? && !leaf then 1 else 0
  }

  lemma SetPairCount(kids: seq<Kid>, a: nat, l: Tree, r: Tree, leaf: bool)
    requires a + 1 < |kids|
    ensures KidCount(SetPair(kids, a, l, r), leaf) ==
      KidCount(kids, leaf) - Count(kids[a].sub, leaf) - Count(kids[a + 1].sub, leaf) + Count(l, leaf) + Count(r, leaf)
  {
    CountSet(kids, a, Kid(kids[a].sep, l), leaf);
    CountSet(kids[a := Kid(kids[a].sep, l)], a + 1, Kid(kids[a + 1].sep, r), leaf);
  }

  lemma {:induction false} MergedCount(kids: seq<Kid>, a: nat, m: Kid, leaf: bool)
    requires a + 1 < |kids|
    ensures KidCount(kids[..a] + [m] + kids[a + 2..], leaf) ==
      KidCount(kids, leaf) - Count(kids[a].sub, leaf) - Count(kids[a + 1].sub, leaf) + Count(m.sub, leaf)
  {
    CountConcat(kids[..a] + [m], kids[a + 2..], leaf);
    CountConcat(kids[..a], [m], leaf);
    CountOne(m, leaf);
    CountCut(kids, a, leaf);
    CountCut(kids, a + 1, leaf);
    CountCut(kids[..a + 1], a, leaf);
  }

  lemma {:induction false} MovingCounts(psize: nat, kids: seq<Kid>, i: nat, d: nat, leaf: bool)
    requires ValidPsize(psize) && Rebalancing(kids, i, d, psize)
    requires !Balanced(kids[i].sub, psize) && Lends(kids[if i == 0 then 1 else i - 1].sub, kids[i].sub, psize)
    ensures var r := Rebalance(psize, kids, i, d);
      !r.Jammed? ==> DelCount(r, leaf) == Count(Branch(kids), leaf) + RebalanceDelta(psize, kids, i, d, leaf)
  {
    var a, l, r, sep := MovingIs(psize, kids, i, d);
    MovedCount(kids, i, leaf);
    MovedKeyCount(psize, kids, a, l, r, sep, leaf);
  }

  lemma MovedKeyCount(psize: nat, kids: seq<Kid>, a: nat, l: Tree, r: Tree, sep: Key, leaf: bool)
    requires ValidPsize(psize) && a + 1 < |kids| && |sep| <= MAXKEYSIZE && Used(Branch(kids)) <= Pmax(psize)
    requires forall j :: 0 <= j < |kids| ==> |kids[j].sep| <= MAXKEYSIZE
    requires Count(l, leaf) + Count(r, leaf) == Count(kids[a].sub, leaf) + Count(kids[a + 1].sub, leaf)
    ensures var x := UpdateKey(psize, SetPair(kids, a, l, r), a + 1, sep);
      !x.Jammed? ==> !x.Shrunk? && DelCount(x, leaf) == KidCount(kids, leaf) + (if leaf then 0 else if x.Broke? then 2 else 1)
  {
    SetPairCount(kids, a, l, r, leaf);
    UpdateKeyCount(psize, SetPair(kids, a, l, r), a + 1, sep, leaf);
  }

  lemma {:induction false} RebalanceCounts(psize: nat, kids: seq<Kid>, i: nat, d: nat, leaf: bool)
    requires ValidPsize(psize) && Rebalancing(kids, i, d, psize)
    ensures var r := Rebalance(psize, kids, i, d);
      !r.Jammed? ==> DelCount(r, leaf) == Count(Branch(kids), leaf) + RebalanceDelta(psize, kids, i, d, leaf)
  {
    SameKind(kids, i, d, psize);
    var a := if i == 0 then 0 else i - 1;
    if Balanced(kids[i].sub, psize) {
    } else if Lends(kids[if i == 0 then 1 else a].sub, kids[i].sub, psize) {
      MovingCounts(psize, kids, i, d, leaf);
    } else {
      MergeCount(kids[a].sub, kids[a + 1].sub, leaf);
      MergedCount(kids, a, Kid(kids[a].sep, MergePages(kids[a].sub, kids[a + 1].sub)), leaf);
    }
  }

  function UpwardDelta(psize: nat, kids: seq<Kid>, i: nat, x: Del, ghost d: nat, leaf: bool): int
    requires ValidPsize(psize) && i < |kids| && Used(Branch(kids)) <= Pmax(psize)
    requires forall i :: 0 <= i < |kids| ==> |kids[i].sep| <= MAXKEYSIZE
    requires x.Broke? ==> |x.sep| <= MAXKEYSIZE
    requires x.Shrunk? ==> Rebalancing(SetSub(kids, i, x.t), i, d, psize)
  {
    match x
    case Settled(sub) => 0
    case Broke(l, sep, r) => if !leaf && Upward(psize, kids, i, x, d).Broke? then 1 else 0
    case Shrunk(sub) => RebalanceDelta(psize, SetSub(kids, i, sub), i, d, leaf)
    case Jammed => 0
  }

  lemma {:induction false} UpwardCounts(psize: nat, kids: seq<Kid>, i: nat, x: Del, d: nat, leaf: bool)
    requires ValidPsize(psize) && i < |kids| && Used(Branch(kids)) <= Pmax(psize)
    requires forall i :: 0 <= i < |kids| ==> |kids[i].sep| <= MAXKEYSIZE
    requires x.Broke? ==> |x.sep| <= MAXKEYSIZE
    requires x.Shrunk? ==> Rebalancing(SetSub(kids, i, x.t), i, d, psize)
    ensures var r := Upward(psize, kids, i, x, d);
      var rest := Count(Branch(kids), leaf) - Count(kids[i].sub, leaf);
      !r.Jammed? ==> !x.Jammed? && DelCount(r, leaf) == rest + DelCount(x, leaf) + UpwardDelta(psize, kids, i, x, d, leaf)
  {
    match x {
      case Settled(sub) => CountSet(kids, i, kids[i].(sub := sub), leaf);
      case Broke(l, sep, r) => var y := BrokeCounts(psize, kids, i, l, sep, r, leaf);
      case Shrunk(sub) =>
        CountSet(kids, i, kids[i].(sub := sub), leaf);
        RebalanceCounts(psize, SetSub(kids, i, sub), i, d, leaf);
      case Jammed =>
    }
  }

  function DelDelta(psize: nat, t: Tree, ghost d: nat, key: Key, leaf: bool): int
    requires ValidPsize(psize) && WF(t, d, psize) && Found(All(t), key)
    decreases t
  {
    match t
    case Leaf(es) => 0
    case Branch(kids) =>
      var i := ChildIndex(kids, key);
      FoundDescends(kids, d, key);
      var x := DelTree(psize, kids[i].sub, d - 1, key);
      KidDone(psize, kids, i, x, key, d);
      DelDelta(psize, kids[i].sub, d - 1, key, leaf) + UpwardDelta(psize, kids, i, x, d, leaf)
  }

  lemma {:induction false} DeltaUnfold(psize: nat, kids: seq<Kid>, d: nat, key: Key, i: nat, x: Del, leaf: bool)
    requires ValidPsize(psize) && WF(Branch(kids), d, psize) && Found(Flat(kids), key) && KidResult(psize, kids, d, key, i, x)
    ensures DelDelta(psize, Branch(kids), d, key, leaf) ==
      DelDelta(psize, kids[i].sub, d - 1, key, leaf) + UpwardDelta(psize, kids, i, x, d, leaf)
  {
  }

  /** Across a deletion the pages reachable from the root change by exactly
      what its merges and splits take from and add to the page counters. */
  lemma {:induction false} DelCounts(psize: nat, t: Tree, d: nat, key: Key, leaf: bool)
    requires ValidPsize(psize) && WF(t, d, psize) && Found(All(t), key)
    ensures var r := DelTree(psize, t, d, key);
      !r.Jammed? ==> DelCount(r, leaf) == Count(t, leaf) + DelDelta(psize, t, d, key, leaf)
    decreases t
  {
    if t.Branch? {
      var i, x := KidResultIs(psize, t.kids, d, key);
      DelCounts(psize, t.kids[i].sub, d - 1, key, leaf);
      BranchDelCounts(psize, t.kids, d, key, i, x, leaf);
    }
  }

  lemma {:induction false} BranchDelCounts(psize: nat, kids: seq<Kid>, d: nat, key: Key, i: nat, x: Del, leaf: bool)
    requires ValidPsize(psize) && WF(Branch(kids), d, psize) && Found(Flat(kids), key) && KidResult(psize, kids, d, key, i, x)
    requires !x.Jammed? ==> DelCount(x, leaf) == Count(kids[i].sub, leaf) + DelDelta(psize, kids[i].sub, d - 1, key, leaf)
    ensures var r := DelTree(psize, Branch(kids), d, key);
      !r.Jammed? ==> DelCount(r, leaf) == Count(Branch(kids), leaf) + DelDelta(psize, Branch(kids), d, key, leaf)
  {
    DelUnfold(psize, kids, d, key, i, x);
    DeltaUnfold(psize, kids, d, key, i, x, leaf);
    UpwardCounts(psize, kids, i, x, d, leaf);
  }
}
