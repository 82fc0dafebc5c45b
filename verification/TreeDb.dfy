/**
 A named database (MDB_db) and its operations: the tree, its depth, and the
 page and entry counters that mdb_stat reports.
 */
module TreeDb {
  import opened Keys
  import opened PageFormat
  import opened Items
  import opened PageSplit
  import opened Tree
  import opened TreeSearch
  import opened TreePut
  import opened TreePutProof
  import opened TreeDel
  import opened TreeDelProof
  import opened TreeDelete
  import opened TreeLeaves
  import opened TreeDelLeaves
  import opened TreePages

  datatype Root = NoRoot | At(t: Tree)
  datatype Rc = Success | NotFound | KeyExist | BadValSize | PageFull | BadTxn

  const MAXDATASIZE := 0xffffffff

  // ---------------------------------------------------------------- what the counters count

  function Entries(root: Root): seq<Entry> { if root.NoRoot? then [] else All(root.t) }
  function Pages(root: Root, leaf: bool): int { if root.NoRoot? then 0 else Count(root.t, leaf) }

  /** Overflow pages of all entries. */
  function Overflow(es: seq<Entry>): int {
    if es == [] then 0 else es[0].ov + Overflow(es[1..])
  }

  lemma {:induction false} OverflowConcat(a: seq<Entry>, b: seq<Entry>)
    ensures Overflow(a + b) == Overflow(a) + Overflow(b)
  {
    if a == [] {
      assert a + b == b;
    } else {
      assert (a + b)[1..] == a[1..] + b;
      OverflowConcat(a[1..], b);
    }
  }

  lemma {:induction false} OverflowAround(a: seq<Entry>, e: Entry, b: seq<Entry>)
    ensures Overflow(a + [e] + b) == Overflow(a + b) + e.ov
  {
    OverflowConcat(a + [e], b);
    OverflowConcat(a, [e]);
    OverflowConcat(a, b);
  }

  function OvOf(was: seq<Entry>): nat { if was == [] then 0 else was[0].ov }

  lemma {:induction false} UpsertOverflow(es: seq<Entry>, e: Entry)
    ensures Overflow(Upsert(es, e)) == Overflow(es) - OvOf(Lookup(es, e.key)) + e.ov
    ensures |Upsert(es, e)| == |es| + (if Found(es, e.key) then 0 else 1)
  {
    if Found(es, e.key) {
      OverflowSet(es, LowerBound(es, e.key), e);
    } else {
      OverflowAdd(es, LowerBound(es, e.key), e);
    }
  }

  lemma OverflowSet(es: seq<Entry>, i: nat, e: Entry)
    requires i < |es|
    ensures Overflow(es[i := e]) == Overflow(es) - es[i].ov + e.ov
  {
    OverflowAround(es[..i], es[i], es[i + 1..]);
    OverflowAround(es[..i], e, es[i + 1..]);
    assert es == es[..i] + [es[i]] + es[i + 1..] && es[i := e] == es[..i] + [e] + es[i + 1..];
  }

  lemma {:induction false} OverflowAdd(es: seq<Entry>, i: nat, e: Entry)
    requires i <= |es|
    ensures Overflow(es[..i] + [e] + es[i..]) == Overflow(es) + e.ov
  {
    OverflowAround(es[..i], e, es[i..]);
    assert es == es[..i] + es[i..];
  }

  lemma {:induction false} RemoveOverflow(es: seq<Entry>, k: Key)
    requires Found(es, k)
    ensures Overflow(Remove(es, k)) == Overflow(es) - Lookup(es, k)[0].ov
    ensures |Remove(es, k)| == |es| - 1
  {
    var i := LowerBound(es, k);
    OverflowAround(es[..i], es[i], es[i + 1..]);
    assert es == es[..i] + [es[i]] + es[i + 1..];
  }

  predicate RootOk(root: Root, depth: nat, psize: nat)
    requires ValidPsize(psize)
  {
    if root.NoRoot? then depth == 0 else WF(root.t, depth, psize)
  }

  lemma RootSorted(root: Root, depth: nat, psize: nat)
    requires ValidPsize(psize) && RootOk(root, depth, psize)
    ensures Sorted(Entries(root))
  {
    if root.At? { AllSorted(root.t, depth); }
  }

  // ---------------------------------------------------------------- roots

  function Fork(l: Tree, sep: Key, r: Tree): Tree { Branch([Kid([], l), Kid(sep, r)]) }

  /** The new root of a split one. */
  lemma ForkHolds(l: Tree, sep: Key, r: Tree, d: nat, psize: nat, items: seq<Entry>)
    requires ValidPsize(psize) && Holds(Halves(l, sep, r), d, psize, items)
    ensures WF(Fork(l, sep, r), d + 1, psize) && All(Fork(l, sep, r)) == items
  {
    var a, b := Kid([], l), Kid(sep, r);
    OneOrTwo(a, b);
    FlatTwo(a, b);
    assert d > 0;
    FewKids([a, b], 2);
    NodesMakeBranch([a, b], d + 1, psize);
  }

  lemma {:induction false} ForkCount(l: Tree, sep: Key, r: Tree, leaf: bool)
    ensures Count(Fork(l, sep, r), leaf) == Count(l, leaf) + Count(r, leaf) + (if leaf then 0 else 1)
  {
    CountPair(Kid([], l), Kid(sep, r), [], leaf);
    assert [Kid([], l), Kid(sep, r)] + [] == [Kid([], l), Kid(sep, r)];
  }

  /** The root after its page has shrunk: none, its only child, or itself. */
  lemma {:induction false} ShrunkRoot(t: Tree, d: nat, psize: nat)
    requires ValidPsize(psize) && Short(t, d, psize)
    ensures NumKeys(t) == 0 ==> t.Leaf? && All(t) == []
    ensures t.Leaf? && NumKeys(t) > 0 ==> WF(t, d, psize)
    ensures t.Branch? && NumKeys(t) == 1 ==> WF(t.kids[0].sub, d - 1, psize) && All(t.kids[0].sub) == All(t)
    ensures t.Branch? && NumKeys(t) > 1 ==> WF(t, d, psize)
  {
    match t
    case Leaf(es) => if es != [] { LeafWF(es, psize); }
    case Branch(kids) =>
      if |kids| == 1 {
        FlatOne(kids[0]);
        assert kids == [kids[0]];
      } else {
        NodesMakeBranch(kids, d, psize);
      }
  }

  lemma {:induction false} OnlyChildCount(kids: seq<Kid>, leaf: bool)
    requires |kids| == 1
    ensures Count(Branch(kids), leaf) == Count(kids[0].sub, leaf) + (if leaf then 0 else 1)
  {
    assert kids == [kids[0]];
    CountOne(kids[0], leaf);
  }

  lemma FirstLeaf(e: Entry, psize: nat)
    requires ValidPsize(psize) && EntryOk(e, psize)
    ensures WF(Leaf([e]), 1, psize) && All(Leaf([e])) == [e]
  {
    HalfPageEntry(e, psize);
    UsedOneEntry(e);
    LeafWF([e], psize);
  }

  // ---------------------------------------------------------------- MDB_PAGE_FULL

  predicate SplitJams(psize: nat, was: seq<nat>, newindx: nat, nsize: nat, leaf: bool)
    requires ValidPsize(psize) && newindx <= |was|
  {
    && Sum(was) + nsize > Pmax(psize) && 2 <= |was|
    && !ScanRuns(psize, |was|, newindx, nsize) && !ReceivingHalfHasRoom(psize, was, newindx, nsize, leaf)
  }

  /** Some page on the way to the key is split, its scan is skipped, and the
      half that receives the new node has no room. */
  predicate PutJams(psize: nat, t: Tree, ghost d: nat, key: Key, data: Bytes, reuse: bool)
    requires ValidPsize(psize) && WF(t, d, psize) && ValidKey(key)
    decreases t
  {
    match t
    case Leaf(es) => LeafJams(psize, es, key, data, reuse)
    case Branch(kids) =>
      var i := ChildIndex(kids, key);
      || PutJams(psize, kids[i].sub, d - 1, key, data, reuse)
      || (var r := PutTree(psize, kids[i].sub, d - 1, key, data, reuse);
          r.Halves? && SplitJams(psize, KidSizes(kids), i + 1, BranchNode(r.sep), false))
  }

  predicate LeafJams(psize: nat, es: seq<Entry>, key: Key, data: Bytes, reuse: bool)
    requires ValidPsize(psize) && ValidKey(key)
  {
    var i := LowerBound(es, key);
    var rest := if Found(es, key) then es[..i] + es[i + 1..] else es;
    && !(Found(es, key) && InPlace(psize, es[i], data, reuse))
    && SplitJams(psize, LeafSizes(rest), i, LeafNode(NewEntry(psize, key, data)), true)
  }

  lemma AddEntryFull(psize: nat, es: seq<Entry>, i: nat, e: Entry)
    requires ValidPsize(psize) && i <= |es| && EntriesOk(es, psize) && EntryOk(e, psize)
    requires Used(Leaf(es)) <= Pmax(psize)
    ensures AddEntry(psize, es, i, e).Full? <==> SplitJams(psize, LeafSizes(es), i, LeafNode(e), true)
  {
    if Used(Leaf(es)) + LeafNode(e) > Pmax(psize) {
      LeafSplittable(psize, es, e);
      SplitFitsExactly(psize, LeafSizes(es), i, LeafNode(e), true);
    }
  }

  lemma AddKidFull(psize: nat, kids: seq<Kid>, i: nat, kid: Kid)
    requires ValidPsize(psize) && i <= |kids| && |kid.sep| <= MAXKEYSIZE
    requires forall i :: 0 <= i < |kids| ==> |kids[i].sep| <= MAXKEYSIZE
    requires Used(Branch(kids)) <= Pmax(psize)
    ensures AddKid(psize, kids, i, kid).Full? <==> SplitJams(psize, KidSizes(kids), i, BranchNode(kid.sep), false)
  {
    if Used(Branch(kids)) + BranchNode(kid.sep) > Pmax(psize) {
      KidsSplittable(psize, kids, kid.sep);
      SplitFitsExactly(psize, KidSizes(kids), i, BranchNode(kid.sep), false);
    }
  }

  lemma LeafFull(psize: nat, es: seq<Entry>, key: Key, data: Bytes, reuse: bool)
    requires ValidPsize(psize) && EntriesOk(es, psize) && ValidKey(key) && Used(Leaf(es)) <= Pmax(psize)
    ensures PutLeaf(psize, es, key, data, reuse).Full? <==> LeafJams(psize, es, key, data, reuse)
  {
    var i := LowerBound(es, key);
    if Found(es, key) {
      RemovedUsed(es, i);
      AddEntryFull(psize, es[..i] + es[i + 1..], i, NewEntry(psize, key, data));
    } else {
      AddEntryFull(psize, es, i, NewEntry(psize, key, data));
    }
  }

  lemma KidFull(psize: nat, kids: seq<Kid>, i: nat, l: Tree, sep: Key, r: Tree)
    requires ValidPsize(psize) && i < |kids| && |sep| <= MAXKEYSIZE && Used(Branch(kids)) <= Pmax(psize)
    requires forall i :: 0 <= i < |kids| ==> |kids[i].sep| <= MAXKEYSIZE
    ensures var kids' := kids[i := kids[i].(sub := l)];
      && Used(Branch(kids')) <= Pmax(psize)
      && (AddKid(psize, kids', i + 1, Kid(sep, r)).Full? <==> SplitJams(psize, KidSizes(kids), i + 1, BranchNode(sep), false))
  {
    var kids' := kids[i := kids[i].(sub := l)];
    assert KidSizes(kids') == KidSizes(kids);
    AddKidFull(psize, kids', i + 1, Kid(sep, r));
  }

  lemma PutUnfold(psize: nat, kids: seq<Kid>, d: nat, key: Key, data: Bytes, reuse: bool) returns (i: nat, x: Ins)
    requires ValidPsize(psize) && WF(Branch(kids), d, psize) && ValidKey(key)
    ensures i == ChildIndex(kids, key) && x == PutTree(psize, kids[i].sub, d - 1, key, data, reuse)
    ensures PutTree(psize, Branch(kids), d, key, data, reuse).Full? <==>
      x.Full? || (x.Halves? && SplitJams(psize, KidSizes(kids), i + 1, BranchNode(x.sep), false))
  {
    i := ChildIndex(kids, key);
    x := PutTree(psize, kids[i].sub, d - 1, key, data, reuse);
    if x.Halves? {
      KidFull(psize, kids, i, x.l, x.sep, x.r);
    }
  }

  lemma {:induction false} JamsUnfold(psize: nat, kids: seq<Kid>, d: nat, key: Key, data: Bytes, reuse: bool, i: nat, x: Ins)
    requires ValidPsize(psize) && WF(Branch(kids), d, psize) && ValidKey(key)
    requires i == ChildIndex(kids, key) && x == PutTree(psize, kids[i].sub, d - 1, key, data, reuse)
    ensures PutJams(psize, Branch(kids), d, key, data, reuse) <==>
      || PutJams(psize, kids[i].sub, d - 1, key, data, reuse)
      || (x.Halves? && SplitJams(psize, KidSizes(kids), i + 1, BranchNode(x.sep), false))
  {
  }

  /** A put fails exactly when a skipped scan leaves a half without room. */
  lemma {:induction false} PutFullExactly(psize: nat, t: Tree, d: nat, key: Key, data: Bytes, reuse: bool)
    requires ValidPsize(psize) && WF(t, d, psize) && ValidKey(key)
    ensures PutTree(psize, t, d, key, data, reuse).Full? <==> PutJams(psize, t, d, key, data, reuse)
    decreases t
  {
    match t
    case Leaf(es) => LeafFull(psize, es, key, data, reuse);
    case Branch(kids) =>
      var i, x := PutUnfold(psize, kids, d, key, data, reuse);
      PutFullExactly(psize, kids[i].sub, d - 1, key, data, reuse);
      JamsUnfold(psize, kids, d, key, data, reuse, i, x);
  }

  lemma PairRest(kids: seq<Kid>, a: nat, l: Tree, r: Tree)
    requires a + 1 < |kids|
    ensures var kids' := SetPair(kids, a, l, r);
      KidSizes(kids'[..a + 1] + kids'[a + 2..]) == KidSizes(kids[..a + 1] + kids[a + 2..])
  {
    var kids' := SetPair(kids, a, l, r);
    var x, y := kids'[..a + 1] + kids'[a + 2..], kids[..a + 1] + kids[a + 2..];
    forall j | 0 <= j < |y| ensures x[j].sep == y[j].sep {
      assert x[j] == kids'[if j <= a then j else j + 1] && y[j] == kids[if j <= a then j else j + 1];
    }
  }

  /** The separator mdb_node_move writes into the parent. */
  function NewSeparator(psize: nat, kids: seq<Kid>, i: nat, ghost d: nat): (sep: Key)
    requires ValidPsize(psize) && Rebalancing(kids, i, d, psize)
    requires 1 < NumKeys(kids[if i == 0 then 1 else i - 1].sub)
    ensures ValidKey(sep)
  {
    MovedKey(psize, kids, i, d);
    Moved(kids, i).2
  }

  predicate SeparatorJams(psize: nat, kids: seq<Kid>, a: nat, sep: Key)
    requires ValidPsize(psize) && a + 1 < |kids|
  {
    SplitJams(psize, KidSizes(kids[..a + 1] + kids[a + 2..]), a + 1, BranchNode(sep), false)
  }

  lemma MovingJams(psize: nat, kids: seq<Kid>, i: nat, d: nat) returns (a: nat, sep: Key)
    requires ValidPsize(psize) && Rebalancing(kids, i, d, psize)
    requires !Balanced(kids[i].sub, psize) && Lends(kids[if i == 0 then 1 else i - 1].sub, kids[i].sub, psize)
    ensures a == (if i == 0 then 0 else i - 1) && sep == NewSeparator(psize, kids, i, d)
    ensures Rebalance(psize, kids, i, d).Jammed? <==> SeparatorJams(psize, kids, a, sep)
  {
    var l, r;
    a, l, r, sep := MovingIs(psize, kids, i, d);
    SetPairJams(psize, kids, a, l, r, sep);
  }

  lemma SetPairJams(psize: nat, kids: seq<Kid>, a: nat, l: Tree, r: Tree, sep: Key)
    requires ValidPsize(psize) && a + 1 < |kids| && |sep| <= MAXKEYSIZE && Used(Branch(kids)) <= Pmax(psize)
    requires forall j :: 0 <= j < |kids| ==> |kids[j].sep| <= MAXKEYSIZE
    ensures UpdateKey(psize, SetPair(kids, a, l, r), a + 1, sep).Jammed? <==> SeparatorJams(psize, kids, a, sep)
  {
    UpdateKeyJams(psize, SetPair(kids, a, l, r), a + 1, sep);
    PairRest(kids, a, l, r);
  }

  /** A node is moved, and its new separator forces a split of the parent that skips its scan. */
  predicate RebalanceJams(psize: nat, kids: seq<Kid>, i: nat, ghost d: nat)
    requires ValidPsize(psize) && Rebalancing(kids, i, d, psize)
  {
    && !Balanced(kids[i].sub, psize) && Lends(kids[if i == 0 then 1 else i - 1].sub, kids[i].sub, psize)
    && SeparatorJams(psize, kids, if i == 0 then 0 else i - 1, NewSeparator(psize, kids, i, d))
  }

  /** Rebalancing itself fails only so: neither a merge nor the receiving page
      of a move ever lacks room. */
  lemma RebalanceJamsExactly(psize: nat, kids: seq<Kid>, i: nat, d: nat)
    requires ValidPsize(psize) && Rebalancing(kids, i, d, psize)
    ensures Rebalance(psize, kids, i, d).Jammed? <==> RebalanceJams(psize, kids, i, d)
  {
    if Balanced(kids[i].sub, psize) {
    } else if Lends(kids[if i == 0 then 1 else i - 1].sub, kids[i].sub, psize) {
      var a, sep := MovingJams(psize, kids, i, d);
    } else {
      MergingHolds(psize, kids, i, d);
    }
  }

  /** What can go wrong in a page, given what its kid i has become. */
  predicate UpwardJams(psize: nat, kids: seq<Kid>, i: nat, x: Del, ghost d: nat)
    requires ValidPsize(psize) && i < |kids|
    requires x.Shrunk? ==> Rebalancing(SetSub(kids, i, x.t), i, d, psize)
  {
    match x
    case Settled(_) => false
    case Broke(_, sep, _) => SplitJams(psize, KidSizes(kids), i + 1, BranchNode(sep), false)
    case Shrunk(sub) => RebalanceJams(psize, SetSub(kids, i, sub), i, d)
    case Jammed => false
  }

  lemma UpwardFull(psize: nat, kids: seq<Kid>, i: nat, x: Del, d: nat)
    requires ValidPsize(psize) && i < |kids| && Used(Branch(kids)) <= Pmax(psize)
    requires forall i :: 0 <= i < |kids| ==> |kids[i].sep| <= MAXKEYSIZE
    requires x.Broke? ==> |x.sep| <= MAXKEYSIZE
    requires x.Shrunk? ==> Rebalancing(SetSub(kids, i, x.t), i, d, psize)
    ensures Upward(psize, kids, i, x, d).Jammed? <==> x.Jammed? || UpwardJams(psize, kids, i, x, d)
  {
    match x
    case Broke(l, sep, r) => AddKidFull(psize, SetSub(kids, i, l), i + 1, Kid(sep, r));
    case Shrunk(sub) => RebalanceJamsExactly(psize, SetSub(kids, i, sub), i, d);
    case _ =>
  }

  /** Some page on the way back from the leaf is split, its scan is skipped,
      and the half that receives the new separator has no room. */
  predicate DelJams(psize: nat, t: Tree, ghost d: nat, key: Key)
    requires ValidPsize(psize) && WF(t, d, psize) && Found(All(t), key)
    decreases t
  {
    match t
    case Leaf(_) => false
    case Branch(kids) =>
      var i := ChildIndex(kids, key);
      FoundDescends(kids, d, key);
      var x := DelTree(psize, kids[i].sub, d - 1, key);
      KidDone(psize, kids, i, x, key, d);
      DelJams(psize, kids[i].sub, d - 1, key) || UpwardJams(psize, kids, i, x, d)
  }

  lemma {:induction false} DelJamsUnfold(psize: nat, kids: seq<Kid>, d: nat, key: Key, i: nat, x: Del)
    requires ValidPsize(psize) && WF(Branch(kids), d, psize) && Found(Flat(kids), key)
    requires KidResult(psize, kids, d, key, i, x)
    ensures DelJams(psize, Branch(kids), d, key) <==>
      DelJams(psize, kids[i].sub, d - 1, key) || UpwardJams(psize, kids, i, x, d)
  {
  }

  /** A deletion fails exactly when a skipped scan leaves a half without room. */
  lemma {:induction false} DelJamsExactly(psize: nat, t: Tree, d: nat, key: Key)
    requires ValidPsize(psize) && WF(t, d, psize) && Found(All(t), key)
    ensures DelTree(psize, t, d, key).Jammed? <==> DelJams(psize, t, d, key)
    decreases t
  {
    match t
    case Leaf(_) =>
    case Branch(kids) =>
      var i, x := KidResultIs(psize, kids, d, key);
      DelUnfold(psize, kids, d, key, i, x);
      UpwardFull(psize, kids, i, x, d);
      DelJamsExactly(psize, kids[i].sub, d - 1, key);
      DelJamsUnfold(psize, kids, d, key, i, x);
  }

  lemma UpdateKeyJams(psize: nat, kids: seq<Kid>, j: nat, key: Key)
    requires ValidPsize(psize) && j < |kids| && |key| <= MAXKEYSIZE && Used(Branch(kids)) <= Pmax(psize)
    requires forall i :: 0 <= i < |kids| ==> |kids[i].sep| <= MAXKEYSIZE
    ensures UpdateKey(psize, kids, j, key).Jammed? <==>
      SplitJams(psize, KidSizes(kids[..j] + kids[j + 1..]), j, BranchNode(key), false)
  {
    var rest := kids[..j] + kids[j + 1..];
    RemovedKidUsed(kids, j);
    if Used(Branch(rest)) + BranchNode(key) > Pmax(psize) {
      KidsSplittable(psize, rest, key);
      SplitFitsExactly(psize, KidSizes(rest), j, BranchNode(key), false);
    }
  }

  // ---------------------------------------------------------------- the new root

  /** The root page after a put: a new one above the halves of a split one. */
  method PutRoot(r: Ins, ghost d: nat, ghost psize: nat, ghost items: seq<Entry>) returns (root: Root, grown: nat)
    requires ValidPsize(psize) && Holds(r, d, psize, items) && !r.Full?
    ensures grown == if r.Halves? then 1 else 0
    ensures RootOk(root, d + grown, psize) && Entries(root) == items && RootLeaves(root) == InsLeaves(r)
    ensures Pages(root, true) == InsCount(r, true) && Pages(root, false) == InsCount(r, false) + grown
  {
    match r
    case Grew(t) =>
      return At(t), 0;
    case Halves(l, sep, r) =>
      ForkHolds(l, sep, r, d, psize, items);
      ForkCount(l, sep, r, true);
      ForkCount(l, sep, r, false);
      ForkLeaves(l, [], r, sep);
      return At(Fork(l, sep, r)), 1;
  }

  /** What a put makes of all entries. */
  lemma {:induction false} PutItems(t: Tree, d: nat, key: Key, data: Bytes, e: Entry, items: seq<Entry>)
    requires Ordered(t) && Solid(t, d) && e.key == key && e.data == data && items == Upsert(All(t), e)
    ensures Overflow(items) == Overflow(All(t)) - OvOf(Lookup(All(t), key)) + e.ov
    ensures |items| == |All(t)| + (if Lookup(All(t), key) == [] then 1 else 0)
    ensures ToMap(items) == ToMap(All(t))[key := data]
  {
    UpsertOverflow(All(t), e);
    AllSorted(t, d);
    UpsertIsUpdate(All(t), e);
  }

  /** The root page after a deletion: freed if it has no node, replaced by its
      only child if it is a branch with one. */
  function DelRoot(r: Del): Root
    requires !r.Jammed?
  {
    match r
    case Settled(t) => At(t)
    case Shrunk(t) =>
      if NumKeys(t) == 0 then NoRoot else if t.Branch? && |t.kids| == 1 then At(t.kids[0].sub) else At(t)
    case Broke(l, sep, r) => At(Fork(l, sep, r))
  }

  function DelDepth(r: Del, d: nat): int
    requires !r.Jammed?
  {
    if DelRoot(r).NoRoot? then 0
    else if r.Shrunk? && r.t.Branch? && |r.t.kids| == 1 then d - 1
    else if r.Broke? then d + 1 else d
  }

  /** What replacing the root does to a page counter. */
  function RootDelta(r: Del, leaf: bool): int
    requires !r.Jammed?
  {
    if DelRoot(r).NoRoot? then (if leaf then -1 else 0)
    else if r.Shrunk? && r.t.Branch? && |r.t.kids| == 1 then (if leaf then 0 else -1)
    else if r.Broke? && !leaf then 1 else 0
  }

  lemma DelRootTree(r: Del, d: nat, psize: nat, items: seq<Entry>, leaf: bool)
    requires ValidPsize(psize) && DelHolds(r, d, psize, items) && !r.Jammed?
    ensures DelDepth(r, d) >= 0 && RootOk(DelRoot(r), DelDepth(r, d), psize) && Entries(DelRoot(r)) == items
    ensures Pages(DelRoot(r), leaf) == DelCount(r, leaf) + RootDelta(r, leaf)
  {
    match r
    case Settled(t) =>
    case Shrunk(t) =>
      ShrunkRoot(t, d, psize);
      if t.Branch? && |t.kids| == 1 { OnlyChildCount(t.kids, leaf); }
    case Broke(l, sep, r) =>
      ForkHolds(l, sep, r, d, psize, items);
      ForkCount(l, sep, r, leaf);
  }

  /** A root that is freed, replaced by its only child or split keeps the leaf pages. */
  lemma {:induction false} DelRootLeaves(r: Del, d: nat, psize: nat, items: seq<Entry>)
    requires ValidPsize(psize) && DelHolds(r, d, psize, items) && !r.Jammed?
    ensures RootLeaves(DelRoot(r)) == DelLeaves(r)
  {
    match r
    case Settled(t) =>
    case Shrunk(t) =>
      if t.Branch? && |t.kids| == 1 {
        assert t.kids == [t.kids[0]];
        LeavesOne(t.kids[0]);
      }
    case Broke(l, sep, r) => ForkLeaves(l, [], r, sep);
  }

  lemma {:induction false} DelRootHolds(psize: nat, t: Tree, d: nat, key: Key)
    requires ValidPsize(psize) && WF(t, d, psize) && Found(All(t), key) && !DelTree(psize, t, d, key).Jammed?
    ensures var r := DelTree(psize, t, d, key);
      var root := DelRoot(r);
      && DelDepth(r, d) >= 0 && RootOk(root, DelDepth(r, d), psize)
      && Pages(root, true) == Count(t, true) + DelDelta(psize, t, d, key, true) + RootDelta(r, true)
      && Pages(root, false) == Count(t, false) + DelDelta(psize, t, d, key, false) + RootDelta(r, false)
      && Overflow(Entries(root)) == Overflow(All(t)) - Lookup(All(t), key)[0].ov
      && |Entries(root)| == |All(t)| - 1
      && ToMap(Entries(root)) == ToMap(All(t)) - {key}
  {
    var r := DelTree(psize, t, d, key);
    DelRootTree(r, d, psize, Remove(All(t), key), true);
    DelRootTree(r, d, psize, Remove(All(t), key), false);
    DelCounts(psize, t, d, key, true);
    DelCounts(psize, t, d, key, false);
    RemoveOverflow(All(t), key);
    AllSorted(t, d);
    RemoveIsRemoval(All(t), key);
  }

  // ---------------------------------------------------------------- operations

  /** The four counters mdb_stat reports. */
  datatype Counters = Counters(branch: int, leaf: int, overflow: int, entries: int)

  ghost predicate Exact(root: Root, depth: nat, psize: nat, c: Counters)
    requires ValidPsize(psize)
  {
    && RootOk(root, depth, psize)
    && c == Counters(Pages(root, false), Pages(root, true), Overflow(Entries(root)), |Entries(root)|)
  }

  function Plus(c: Counters, branch: int, leaf: int, overflow: int, entries: int): Counters {
    Counters(c.branch + branch, c.leaf + leaf, c.overflow + overflow, c.entries + entries)
  }

  lemma ExactPlus(root: Root, d: nat, psize: nat, c: Counters, branch: int, leaf: int, overflow: int, entries: int)
    requires ValidPsize(psize) && RootOk(root, d, psize)
    requires Pages(root, false) == c.branch + branch && Pages(root, true) == c.leaf + leaf
    requires Overflow(Entries(root)) == c.overflow + overflow && |Entries(root)| == c.entries + entries
    ensures Exact(root, d, psize, Plus(c, branch, leaf, overflow, entries))
  {
  }

  lemma {:induction false} ExactMeans(t: Tree, d: nat, psize: nat, c: Counters)
    requires ValidPsize(psize) && Exact(At(t), d, psize, c)
    ensures WF(t, d, psize) && c == Counters(Count(t, false), Count(t, true), Overflow(All(t)), |All(t)|)
  {
  }

  /** The leaf pages; a database without a root counts as one empty page. */
  function RootLeaves(root: Root): seq<seq<Entry>> { if root.NoRoot? then [[]] else Leaves(root.t) }

  /** What a put changes: the entry under the key is e, whose data is kept as
      Stored says, the others stay; and leaf page j has taken it. */
  ghost predicate PutDone(was: Root, now: Root, key: Key, data: Bytes, reuse: bool, psize: nat, e: Entry, j: nat) {
    && e.key == key && e.data == data && Entries(now) == Upsert(Entries(was), e)
    && Stored(psize, Lookup(Entries(was), key), e, reuse) && LeafPut(RootLeaves(was), RootLeaves(now), j, e, psize)
  }

  /** What a deletion changes: a leaf page has lost the key, and has been refilled
      from a neighbour if it then had too little; the other pages stay. */
  ghost predicate DelDone(was: Root, now: Root, key: Key, psize: nat, c: Change) {
    && Changes(RootLeaves(was), RootLeaves(now), c)
    && Local(c.core, c.now, key, was.At? && was.t.Leaf?, psize)
  }

  /** Root, depth and counters after a put that does not fail. */
  method AfterPut(psize: nat, t: Tree, d: nat, key: Key, data: Bytes, reuse: bool, was: seq<Entry>, c: Counters)
    returns (root: Root, depth: nat, stat: Counters)
    requires ValidPsize(psize) && Exact(At(t), d, psize, c) && ValidKey(key) && was == Lookup(All(t), key)
    requires !PutTree(psize, t, d, key, data, reuse).Full?
    ensures Exact(root, depth, psize, stat) && ToMap(Entries(root)) == ToMap(All(t))[key := data]
    ensures exists e, j :: PutDone(At(t), root, key, data, reuse, psize, e, j)
  {
    ExactMeans(t, d, psize, c);
    var e := PutEntry(psize, was, key, data, reuse);
    TreeStored(psize, t, d, key, data, reuse);
    ghost var j := PutLeaves(psize, t, d, key, data, reuse, e);
    var branch, leaf;
    root, depth, branch, leaf := NewRoot(psize, t, d, key, data, reuse, e);
    stat := PutStat(c, branch, leaf, e, was);
    PutExact(t, e, was, root, depth, psize, c, branch, leaf);
    assert PutDone(At(t), root, key, data, reuse, psize, e, j);
  }

  /** The root after a put, and how many pages there are more. */
  method NewRoot(psize: nat, t: Tree, d: nat, key: Key, data: Bytes, reuse: bool, ghost e: Entry)
    returns (root: Root, depth: nat, branch: int, leaf: int)
    requires ValidPsize(psize) && WF(t, d, psize) && ValidKey(key) && !PutTree(psize, t, d, key, data, reuse).Full?
    requires e == PutEntry(psize, Lookup(All(t), key), key, data, reuse)
    ensures RootOk(root, depth, psize) && Entries(root) == Upsert(All(t), e) && ToMap(Entries(root)) == ToMap(All(t))[key := data]
    ensures RootLeaves(root) == InsLeaves(PutTree(psize, t, d, key, data, reuse))
    ensures Pages(root, true) == Count(t, true) + leaf && Pages(root, false) == Count(t, false) + branch
    ensures Overflow(Entries(root)) == Overflow(All(t)) - OvOf(Lookup(All(t), key)) + e.ov
    ensures |Entries(root)| == |All(t)| + (if Lookup(All(t), key) == [] then 1 else 0)
  {
    var r, more;
    r, more, leaf := PutCounted(psize, t, d, key, data, reuse, e);
    PutEntryItems(psize, t, d, key, data, reuse, e);
    root, depth, branch := PlaceRoot(r, d, psize, Upsert(All(t), e), more);
  }

  method PlaceRoot(r: Ins, d: nat, ghost psize: nat, ghost items: seq<Entry>, more: int) returns (root: Root, depth: nat, branch: int)
    requires ValidPsize(psize) && Holds(r, d, psize, items) && !r.Full?
    ensures RootOk(root, depth, psize) && Entries(root) == items && RootLeaves(root) == InsLeaves(r)
    ensures Pages(root, true) == InsCount(r, true) && Pages(root, false) == InsCount(r, false) + branch - more
  {
    var grown;
    root, grown := PutRoot(r, d, psize, items);
    depth, branch := d + grown, more + grown;
  }

  lemma {:induction false} PutEntryItems(psize: nat, t: Tree, d: nat, key: Key, data: Bytes, reuse: bool, e: Entry)
    requires ValidPsize(psize) && WF(t, d, psize) && ValidKey(key) && e == PutEntry(psize, Lookup(All(t), key), key, data, reuse)
    ensures var items := Upsert(All(t), e);
      && Overflow(items) == Overflow(All(t)) - OvOf(Lookup(All(t), key)) + e.ov
      && |items| == |All(t)| + (if Lookup(All(t), key) == [] then 1 else 0)
      && ToMap(items) == ToMap(All(t))[key := data]
  {
    PutItems(t, d, key, data, e, Upsert(All(t), e));
  }

  method PutCounted(psize: nat, t: Tree, d: nat, key: Key, data: Bytes, reuse: bool, ghost e: Entry)
    returns (r: Ins, branch: int, leaf: int)
    requires ValidPsize(psize) && WF(t, d, psize) && ValidKey(key) && !PutTree(psize, t, d, key, data, reuse).Full?
    requires e == PutEntry(psize, Lookup(All(t), key), key, data, reuse)
    ensures r == PutTree(psize, t, d, key, data, reuse) && Holds(r, d, psize, Upsert(All(t), e))
    ensures InsCount(r, true) == Count(t, true) + leaf && InsCount(r, false) == Count(t, false) + branch
  {
    PutTreeHolds(psize, t, d, key, data, reuse);
    PutCounts(psize, t, d, key, data, reuse, true);
    PutCounts(psize, t, d, key, data, reuse, false);
    r := PutTree(psize, t, d, key, data, reuse);
    branch, leaf := PutDelta(psize, t, d, key, data, reuse, false), PutDelta(psize, t, d, key, data, reuse, true);
  }

  function PutStat(c: Counters, branch: int, leaf: int, e: Entry, was: seq<Entry>): Counters {
    Plus(c, branch, leaf, e.ov - OvOf(was), if was == [] then 1 else 0)
  }

  lemma {:induction false} PutExact(t: Tree, e: Entry, was: seq<Entry>, root: Root, depth: nat, psize: nat,
                                    c: Counters, branch: int, leaf: int)
    requires ValidPsize(psize) && RootOk(root, depth, psize)
    requires c == Counters(Count(t, false), Count(t, true), Overflow(All(t)), |All(t)|)
    requires Pages(root, true) == Count(t, true) + leaf && Pages(root, false) == Count(t, false) + branch
    requires Overflow(Entries(root)) == Overflow(All(t)) - OvOf(was) + e.ov
    requires |Entries(root)| == |All(t)| + (if was == [] then 1 else 0)
    ensures Exact(root, depth, psize, PutStat(c, branch, leaf, e, was))
  {
    ExactPlus(root, depth, psize, c, branch, leaf, e.ov - OvOf(was), if was == [] then 1 else 0);
  }

  /** The same after a deletion. */
  method AfterDel(psize: nat, t: Tree, d: nat, key: Key, was: Entry, c: Counters)
    returns (root: Root, depth: nat, stat: Counters)
    requires ValidPsize(psize) && Exact(At(t), d, psize, c) && Found(All(t), key) && [was] == Lookup(All(t), key)
    requires !DelTree(psize, t, d, key).Jammed?
    ensures Exact(root, depth, psize, stat) && ToMap(Entries(root)) == ToMap(All(t)) - {key}
    ensures exists c :: DelDone(At(t), root, key, psize, c)
  {
    ExactMeans(t, d, psize, c);
    var r := DelTree(psize, t, d, key);
    DelRootHolds(psize, t, d, key);
    var branch, leaf := DelDelta(psize, t, d, key, false) + RootDelta(r, false), DelDelta(psize, t, d, key, true) + RootDelta(r, true);
    var overflow: int := 0 - was.ov;
    root, depth, stat := DelRoot(r), DelDepth(r, d), Plus(c, branch, leaf, overflow, -1);
    ghost var change := DelTreeLeaves(psize, t, d, key);
    DelRootLeaves(r, d, psize, Remove(All(t), key));
    ExactPlus(root, depth, psize, c, branch, leaf, overflow, -1);
    assert DelDone(At(t), root, key, psize, change);
  }

  /** The first page of a database. */
  lemma Started(e: Entry, psize: nat, reuse: bool)
    requires ValidPsize(psize) && ValidKey(e.key) && e == NewEntry(psize, e.key, e.data)
    ensures PutDone(NoRoot, At(Leaf([e])), e.key, e.data, reuse, psize, e, 0)
  {
    NewEntryStored(psize, e.key, e.data);
    StartPages(e, psize);
  }

  lemma {:induction false} StartPages(e: Entry, psize: nat)
    requires ValidPsize(psize) && EntryOk(e, psize)
    ensures Upsert([], e) == [e] && Lookup([], e.key) == [] && LeafPut([[]], [[e]], 0, e, psize)
  {
    HalfPageEntry(e, psize);
    assert LeafSizes([e]) == [LeafNode(e)] && Sum([LeafNode(e)]) == LeafNode(e);
    RunAlone<seq<Entry>>([], [[e]]);
  }

  /** MDB_db, with the error flag of the write transaction that owns it. */
  class Database {
    const psize: nat
    var root: Root
    var depth: nat
    var stat: Counters
    var error: bool

    ghost predicate Valid()
      reads this
    {
      ValidPsize(psize) && (!error ==> Exact(root, depth, psize, stat))
    }

    ghost function Contents(): map<Key, Bytes>
      reads this
    {
      ToMap(Entries(root))
    }

    /** A put of this key fails for want of room in a page. */
    ghost predicate PutStuck(key: Key, data: Bytes, reuse: bool)
      reads this
    {
      && ValidPsize(psize) && ValidKey(key) && root.At? && WF(root.t, depth, psize)
      && PutJams(psize, root.t, depth, key, data, reuse)
    }

    ghost predicate DelStuck(key: Key)
      reads this
    {
      && ValidPsize(psize) && root.At? && WF(root.t, depth, psize) && Found(All(root.t), key)
      && DelJams(psize, root.t, depth, key)
    }

    constructor (pageSize: nat)
      requires ValidPsize(pageSize)
      ensures Valid() && !error && Contents() == map[]
    {
      psize := pageSize;
      root, depth, stat, error := NoRoot, 0, Counters(0, 0, 0, 0), false;
    }

    /** mdb_get */
    method Find(key: Key) returns (rc: Rc, data: Bytes)
      requires Valid()
      ensures rc == if error then BadTxn else if key == [] then BadValSize
                    else if key in Contents() then Success else NotFound
      ensures rc == Success ==> data == Contents()[key]
    {
      data := [];
      if error {
        return BadTxn, data;
      }
      if key == [] {
        return BadValSize, data;
      }
      RootSorted(root, depth, psize);
      LookupIsMap(Entries(root), key);
      if root.NoRoot? {
        return NotFound, data;
      }
      var r := Get(root.t, depth, key);
      if r == [] {
        return NotFound, data;
      }
      return Success, r[0].data;
    }

    /** mdb_put; reuse says whether the overflow pages of an old value are
        dirty in this transaction. */
    method Put(key: Key, data: Bytes, noOverwrite: bool, reuse: bool) returns (rc: Rc)
      requires Valid()
      modifies this
      ensures Valid()
      ensures rc == BadTxn <==> old(error)
      ensures rc == BadValSize <==> !old(error) && (!ValidKey(key) || |data| > MAXDATASIZE)
      ensures rc == KeyExist <==> !old(error) && ValidKey(key) && |data| <= MAXDATASIZE && noOverwrite && key in old(Contents())
      ensures rc in {Success, KeyExist, BadValSize, PageFull, BadTxn}
      ensures rc == PageFull ==> error
      ensures rc == PageFull <==>
        && !old(error) && ValidKey(key) && |data| <= MAXDATASIZE
        && !(noOverwrite && key in old(Contents())) && old(PutStuck(key, data, reuse))
      ensures rc == Success ==> !error && Contents() == old(Contents())[key := data]
      ensures rc == Success ==> exists e, j :: PutDone(old(root), root, key, data, reuse, psize, e, j)
      ensures rc !in {Success, PageFull} ==> unchanged(this)
    {
      if error {
        return BadTxn;
      }
      if !ValidKey(key) || |data| > MAXDATASIZE {
        return BadValSize;
      }
      RootSorted(root, depth, psize);
      LookupIsMap(Entries(root), key);
      if root.NoRoot? {
        Start(NewEntry(psize, key, data), reuse);
        return Success;
      }
      var was := Get(root.t, depth, key);
      if was != [] && noOverwrite {
        return KeyExist;
      }
      rc := Write(root.t, was, key, data, reuse);
    }

    /** The first entry: mdb_page_new allocates a root leaf. */
    method Start(e: Entry, ghost reuse: bool)
      requires Valid() && !error && root.NoRoot? && ValidKey(e.key) && e == NewEntry(psize, e.key, e.data)
      modifies this
      ensures Valid() && !error && Contents() == map[e.key := e.data]
      ensures PutDone(old(root), root, e.key, e.data, reuse, psize, e, 0)
    {
      Started(e, psize, reuse);
      FirstLeaf(e, psize);
      ToMapOne(e);
      OverflowAround([], e, []);
      root, depth, stat := At(Leaf([e])), depth + 1, Plus(stat, 0, 1, e.ov, 1);
    }

    method Install(newRoot: Root, newDepth: nat, newStat: Counters)
      modifies this`root, this`depth, this`stat
      ensures root == newRoot && depth == newDepth && stat == newStat
    {
      root, depth, stat := newRoot, newDepth, newStat;
    }

    method Write(t: Tree, was: seq<Entry>, key: Key, data: Bytes, reuse: bool) returns (rc: Rc)
      requires Valid() && !error && root == At(t) && ValidKey(key) && was == Lookup(All(t), key)
      modifies this
      ensures Valid()
      ensures rc == if PutJams(psize, t, old(depth), key, data, reuse) then PageFull else Success
      ensures rc == PageFull ==> error
      ensures rc == Success ==> !error && Contents() == old(Contents())[key := data]
      ensures rc == Success ==> exists e, j :: PutDone(At(t), root, key, data, reuse, psize, e, j)
    {
      var r := PutTree(psize, t, depth, key, data, reuse);
      PutFullExactly(psize, t, depth, key, data, reuse);
      if r.Full? {
        error := true;
        return PageFull;
      }
      Replace(t, was, key, data, reuse);
      return Success;
    }

    method Replace(t: Tree, was: seq<Entry>, key: Key, data: Bytes, reuse: bool)
      requires Valid() && !error && root == At(t) && ValidKey(key) && was == Lookup(All(t), key)
      requires !PutTree(psize, t, depth, key, data, reuse).Full?
      modifies this
      ensures Valid() && !error && Contents() == old(Contents())[key := data]
      ensures exists e, j :: PutDone(At(t), root, key, data, reuse, psize, e, j)
    {
      var root', depth', stat' := AfterPut(psize, t, depth, key, data, reuse, was, stat);
      Install(root', depth', stat');
    }

    /** mdb_del */
    method Delete(key: Key) returns (rc: Rc)
      requires Valid()
      modifies this
      ensures Valid()
      ensures rc == BadTxn <==> old(error)
      ensures rc == BadValSize <==> !old(error) && key == []
      ensures rc == NotFound <==> !old(error) && key != [] && key !in old(Contents())
      ensures rc in {Success, NotFound, BadValSize, PageFull, BadTxn}
      ensures rc == PageFull ==> error
      ensures rc == PageFull <==> !old(error) && key != [] && key in old(Contents()) && old(DelStuck(key))
      ensures rc == Success ==> !error && Contents() == old(Contents()) - {key}
      ensures rc == Success ==> exists c :: DelDone(old(root), root, key, psize, c)
      ensures rc !in {Success, PageFull} ==> unchanged(this)
    {
      if error {
        return BadTxn;
      }
      if key == [] {
        return BadValSize;
      }
      RootSorted(root, depth, psize);
      LookupIsMap(Entries(root), key);
      if root.NoRoot? {
        return NotFound;
      }
      var was := Get(root.t, depth, key);
      if was == [] {
        return NotFound;
      }
      rc := Erase(root.t, was[0], key);
    }

    method Erase(t: Tree, was: Entry, key: Key) returns (rc: Rc)
      requires Valid() && !error && root == At(t) && Found(All(t), key) && Lookup(All(t), key) == [was]
      modifies this
      ensures Valid()
      ensures rc == if DelJams(psize, t, old(depth), key) then PageFull else Success
      ensures rc == PageFull ==> error
      ensures rc == Success ==> !error && Contents() == old(Contents()) - {key}
      ensures rc == Success ==> exists c :: DelDone(At(t), root, key, psize, c)
    {
      var r := DelTree(psize, t, depth, key);
      DelJamsExactly(psize, t, depth, key);
      if r.Jammed? {
        error := true;
        return PageFull;
      }
      Drop(t, was, key);
      return Success;
    }

    method Drop(t: Tree, was: Entry, key: Key)
      requires Valid() && !error && root == At(t) && Found(All(t), key) && Lookup(All(t), key) == [was]
      requires !DelTree(psize, t, depth, key).Jammed?
      modifies this
      ensures Valid() && !error && Contents() == old(Contents()) - {key}
      ensures exists c :: DelDone(At(t), root, key, psize, c)
    {
      var root', depth', stat' := AfterDel(psize, t, depth, key, was, stat);
      Install(root', depth', stat');
    }
  }
}
