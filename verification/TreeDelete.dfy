/**
 mdb_del from the root down, with its contract.
 */
module TreeDelete {
  import opened Keys
  import opened PageFormat
  import opened Items
  import opened PageSplit
  import opened Tree
  import opened TreeSearch
  import opened TreePut
  import opened TreePutProof
  import opened TreeDel
  import opened TreeDelProof

  lemma {:induction false} FoundDescends(kids: seq<Kid>, d: nat, key: Key)
    requires Ordered(Branch(kids)) && Solid(Branch(kids), d)
    ensures var i := ChildIndex(kids, key);
      && (Found(Flat(kids), key) <==> Found(All(kids[i].sub), key))
      && Remove(Flat(kids), key) == Flat(kids[..i]) + Remove(All(kids[i].sub), key) + Flat(kids[i + 1..])
  {
    SolidKids(kids, d);
    AroundChild(kids, key);
    var i := ChildIndex(kids, key);
    RemoveConcat(Flat(kids[..i]), All(kids[i].sub), Flat(kids[i + 1..]), key);
  }

  lemma RemoveBetween(es: seq<Entry>, key: Key, k: Key)
    ensures Below(es, k) ==> Below(Remove(es, key), k)
    ensures NotBelow(es, k) ==> NotBelow(Remove(es, key), k)
  {
    var r := Remove(es, key);
    var x := LowerBound(es, key);
    forall i | 0 <= i < |r| ensures exists j :: 0 <= j < |es| && es[j] == r[i] {
      var j := if i < x || !Found(es, key) then i else i + 1;
      assert es[j] == r[i];
    }
  }

  /** A kid replaced by a run within the same separators. */
  lemma {:induction false} KidOrdered(kids: seq<Kid>, i: nat, mid: seq<Kid>)
    requires KidsOrdered(kids) && i < |kids| && mid != [] && mid[0].sep == kids[i].sep && KidsOrdered(mid)
    requires i > 0 ==> NotBelow(Flat(mid), kids[i].sep)
    requires i + 1 < |kids| ==> Below(Flat(mid), kids[i + 1].sep)
    ensures KidsOrdered(kids[..i] + mid + kids[i + 1..])
  {
    if i > 0 { FlatEnds(mid, kids[i].sep); }
    if i + 1 < |kids| { FlatEnds(mid, kids[i + 1].sep); }
    ReplaceOrdered(kids, i, i + 1, mid);
  }

  lemma {:induction false} KidReplaced(kids: seq<Kid>, i: nat, mid: seq<Kid>, d: nat, psize: nat)
    requires ValidPsize(psize) && NodesOk(kids, d, psize) && i < |kids|
    requires mid != [] && mid[0].sep == kids[i].sep && KidsOrdered(mid)
    requires i > 0 ==> NotBelow(Flat(mid), kids[i].sep)
    requires i + 1 < |kids| ==> Below(Flat(mid), kids[i + 1].sep)
    requires forall j :: 0 <= j < |mid| ==> WF(mid[j].sub, d - 1, psize) && (j > 0 ==> ValidKey(mid[j].sep))
    ensures NodesOk(kids[..i] + mid + kids[i + 1..], d, psize)
    ensures Flat(kids[..i] + mid + kids[i + 1..]) == Flat(kids[..i]) + Flat(mid) + Flat(kids[i + 1..])
  {
    KidOrdered(kids, i, mid);
    ReplaceNodes(kids, i, i + 1, mid, d, psize);
    ReplaceFlat(kids, i, i + 1, mid);
  }

  lemma KidBounds(kids: seq<Kid>, i: nat, key: Key)
    requires KidsOrdered(kids) && i < |kids|
    ensures i > 0 ==> NotBelow(Remove(All(kids[i].sub), key), kids[i].sep)
    ensures i + 1 < |kids| ==> Below(Remove(All(kids[i].sub), key), kids[i + 1].sep)
  {
    if i > 0 {
      assert Separates(kids, i);
      RemoveBetween(All(kids[i].sub), key, kids[i].sep);
    }
    if i + 1 < |kids| {
      assert Separates(kids, i + 1);
      RemoveBetween(All(kids[i].sub), key, kids[i + 1].sep);
    }
  }

  function SetSub(kids: seq<Kid>, i: nat, sub: Tree): (r: seq<Kid>)
    requires i < |kids|
    ensures |r| == |kids| && KidSizes(r) == KidSizes(kids)
  {
    var r := kids[i := kids[i].(sub := sub)];
    assert KidSizes(r) == KidSizes(kids);
    r
  }

  lemma {:induction false} KidSettled(psize: nat, kids: seq<Kid>, i: nat, sub: Tree, key: Key, d: nat)
    requires ValidPsize(psize) && WF(Branch(kids), d, psize) && i == ChildIndex(kids, key)
    requires WF(sub, d - 1, psize) && All(sub) == Remove(All(kids[i].sub), key)
    ensures WF(Branch(SetSub(kids, i, sub)), d, psize)
    ensures Flat(SetSub(kids, i, sub)) == Remove(Flat(kids), key)
  {
    var kid := kids[i].(sub := sub);
    BranchHasNodes(kids, d, psize);
    KidBounds(kids, i, key);
    FlatOne(kid);
    KidReplaced(kids, i, [kid], d, psize);
    SetSubRun(kids, i, sub);
    NodesMakeBranch(SetSub(kids, i, sub), d, psize);
    FoundDescends(kids, d, key);
  }

  lemma {:induction false} KidBroke(psize: nat, kids: seq<Kid>, i: nat, l: Tree, sep: Key, r: Tree, key: Key, d: nat)
    requires ValidPsize(psize) && WF(Branch(kids), d, psize) && i == ChildIndex(kids, key)
    requires Holds(Halves(l, sep, r), d - 1, psize, Remove(All(kids[i].sub), key))
    ensures Holds(AddKid(psize, SetSub(kids, i, l), i + 1, Kid(sep, r)), d, psize, Remove(Flat(kids), key))
  {
    BrokeNodes(psize, kids, i, l, sep, r, key, d);
    AddKidHolds(psize, SetSub(kids, i, l), i + 1, Kid(sep, r), d);
  }

  lemma {:induction false} BrokeNodes(psize: nat, kids: seq<Kid>, i: nat, l: Tree, sep: Key, r: Tree, key: Key, d: nat)
    requires ValidPsize(psize) && WF(Branch(kids), d, psize) && i == ChildIndex(kids, key)
    requires Holds(Halves(l, sep, r), d - 1, psize, Remove(All(kids[i].sub), key))
    ensures var all := Insert(SetSub(kids, i, l), i + 1, Kid(sep, r));
      NodesOk(all, d, psize) && Flat(all) == Remove(Flat(kids), key)
  {
    var mid := [kids[i].(sub := l), Kid(sep, r)];
    BranchHasNodes(kids, d, psize);
    KidBounds(kids, i, key);
    FlatTwo(mid[0], mid[1]);
    OneOrTwo(mid[0], mid[1]);
    KidReplaced(kids, i, mid, d, psize);
    BrokeRun(kids, i, l, Kid(sep, r));
    FoundDescends(kids, d, key);
  }

  lemma BrokeRun(kids: seq<Kid>, i: nat, l: Tree, kid: Kid)
    requires i < |kids|
    ensures Insert(SetSub(kids, i, l), i + 1, kid) == kids[..i] + [kids[i].(sub := l), kid] + kids[i + 1..]
  {
  }

  lemma {:induction false} KidShrunk(psize: nat, kids: seq<Kid>, i: nat, sub: Tree, key: Key, d: nat)
    requires ValidPsize(psize) && WF(Branch(kids), d, psize) && i == ChildIndex(kids, key)
    requires Short(sub, d - 1, psize) && All(sub) == Remove(All(kids[i].sub), key)
    ensures Rebalancing(SetSub(kids, i, sub), i, d, psize)
    ensures Flat(SetSub(kids, i, sub)) == Remove(Flat(kids), key)
  {
    ShrunkFlat(kids, i, sub);
    FoundDescends(kids, d, key);
    ShrunkOrder(kids, i, sub, key, d);
    ShrunkRest(psize, kids, i, sub, d);
  }

  lemma {:induction false} ShrunkFlat(kids: seq<Kid>, i: nat, sub: Tree)
    requires i < |kids|
    ensures Flat(SetSub(kids, i, sub)) == Flat(kids[..i]) + All(sub) + Flat(kids[i + 1..])
  {
    var kid := kids[i].(sub := sub);
    SetSubRun(kids, i, sub);
    FlatOne(kid);
    ReplaceFlat(kids, i, i + 1, [kid]);
  }

  lemma ShrunkRest(psize: nat, kids: seq<Kid>, i: nat, sub: Tree, d: nat)
    requires ValidPsize(psize) && WF(Branch(kids), d, psize) && i < |kids| && Short(sub, d - 1, psize)
    requires KidsOrdered(SetSub(kids, i, sub))
    ensures Rebalancing(SetSub(kids, i, sub), i, d, psize)
  {
    SolidKids(kids, d);
    if 0 < i < |kids| - 1 { SepsIncrease(kids, i, i + 1); }
  }

  lemma SetSubRun(kids: seq<Kid>, i: nat, sub: Tree)
    requires i < |kids|
    ensures SetSub(kids, i, sub) == kids[..i] + [kids[i].(sub := sub)] + kids[i + 1..]
  {
  }

  lemma {:induction false} ShrunkOrder(kids: seq<Kid>, i: nat, sub: Tree, key: Key, d: nat)
    requires KidsOrdered(kids) && i < |kids| && All(sub) == Remove(All(kids[i].sub), key)
    ensures KidsOrdered(SetSub(kids, i, sub))
  {
    var kid := kids[i].(sub := sub);
    KidBounds(kids, i, key);
    SetSubRun(kids, i, sub);
    assert KidsOrdered([kid]);
    ReplaceOrdered(kids, i, i + 1, [kid]);
  }

  lemma LeafShrunk(es: seq<Entry>, key: Key, psize: nat)
    requires ValidPsize(psize) && WF(Leaf(es), 1, psize) && Found(es, key)
    ensures Short(Leaf(Remove(es, key)), 1, psize)
  {
    RemoveSorted(es, key);
    RemovedUsed(es, LowerBound(es, key));
  }

  function FromIns(r: Ins): Del {
    match r
    case Grew(t) => Settled(t)
    case Halves(l, sep, r) => Broke(l, sep, r)
    case Full => Jammed
  }

  /** What a page becomes once its kid i has become x. */
  function Upward(psize: nat, kids: seq<Kid>, i: nat, x: Del, ghost d: nat): Del
    requires ValidPsize(psize) && i < |kids| && Used(Branch(kids)) <= Pmax(psize)
    requires forall i :: 0 <= i < |kids| ==> |kids[i].sep| <= MAXKEYSIZE
    requires x.Broke? ==> |x.sep| <= MAXKEYSIZE
    requires x.Shrunk? ==> Rebalancing(SetSub(kids, i, x.t), i, d, psize)
  {
    match x
    case Settled(sub) => Settled(Branch(SetSub(kids, i, sub)))
    case Broke(l, sep, r) => FromIns(AddKid(psize, SetSub(kids, i, l), i + 1, Kid(sep, r)))
    case Shrunk(sub) => Rebalance(psize, SetSub(kids, i, sub), i, d)
    case Jammed => Jammed
  }

  lemma InsIsDel(x: Ins, psize: nat, d: nat, es: seq<Entry>)
    requires ValidPsize(psize) && Holds(x, d, psize, es)
    ensures DelHolds(FromIns(x), d, psize, es)
  {
  }

  lemma {:induction false} KidBrokeDone(psize: nat, kids: seq<Kid>, i: nat, x: Del, key: Key, d: nat)
    requires ValidPsize(psize) && WF(Branch(kids), d, psize) && i == ChildIndex(kids, key)
    requires x.Broke? && Holds(Halves(x.l, x.sep, x.r), d - 1, psize, Remove(All(kids[i].sub), key))
    ensures |x.sep| <= MAXKEYSIZE && DelHolds(Upward(psize, kids, i, x, d), d, psize, Remove(Flat(kids), key))
  {
    KidBroke(psize, kids, i, x.l, x.sep, x.r, key, d);
    InsIsDel(AddKid(psize, SetSub(kids, i, x.l), i + 1, Kid(x.sep, x.r)), psize, d, Remove(Flat(kids), key));
  }

  lemma {:induction false} KidShrunkDone(psize: nat, kids: seq<Kid>, i: nat, x: Del, key: Key, d: nat)
    requires ValidPsize(psize) && WF(Branch(kids), d, psize) && i == ChildIndex(kids, key)
    requires x.Shrunk? && Short(x.t, d - 1, psize) && All(x.t) == Remove(All(kids[i].sub), key)
    ensures Rebalancing(SetSub(kids, i, x.t), i, d, psize)
    ensures DelHolds(Upward(psize, kids, i, x, d), d, psize, Remove(Flat(kids), key))
  {
    KidShrunk(psize, kids, i, x.t, key, d);
    RebalanceHolds(psize, SetSub(kids, i, x.t), i, d);
  }

  lemma {:induction false} KidDone(psize: nat, kids: seq<Kid>, i: nat, x: Del, key: Key, d: nat)
    requires ValidPsize(psize) && WF(Branch(kids), d, psize) && i == ChildIndex(kids, key)
    requires DelHolds(x, d - 1, psize, Remove(All(kids[i].sub), key))
    ensures x.Broke? ==> |x.sep| <= MAXKEYSIZE
    ensures x.Shrunk? ==> Rebalancing(SetSub(kids, i, x.t), i, d, psize)
    ensures DelHolds(Upward(psize, kids, i, x, d), d, psize, Remove(Flat(kids), key))
  {
    match x {
      case Settled(sub) => KidSettled(psize, kids, i, sub, key, d);
      case Broke(l, sep, r) => KidBrokeDone(psize, kids, i, x, key, d);
      case Shrunk(sub) => KidShrunkDone(psize, kids, i, x, key, d);
      case Jammed =>
    }
  }

  /** Deletion of a key that is there: the entries afterwards are those before
      without it, and every page but possibly this one is well-formed again. */
  function DelTree(psize: nat, t: Tree, ghost d: nat, key: Key): (r: Del)
    requires ValidPsize(psize) && WF(t, d, psize) && Found(All(t), key)
    ensures DelHolds(r, d, psize, Remove(All(t), key))
    decreases t
  {
    match t
    case Leaf(es) =>
      LeafShrunk(es, key, psize);
      Shrunk(Leaf(Remove(es, key)))
    case Branch(kids) =>
      var i := ChildIndex(kids, key);
      FoundDescends(kids, d, key);
      var x := DelTree(psize, kids[i].sub, d - 1, key);
      KidDone(psize, kids, i, x, key, d);
      Upward(psize, kids, i, x, d)
  }

  /** What has become of the child on the way to a key. */
  predicate KidResult(psize: nat, kids: seq<Kid>, d: nat, key: Key, i: nat, x: Del)
    requires ValidPsize(psize) && WF(Branch(kids), d, psize)
  {
    && i == ChildIndex(kids, key) && WF(kids[i].sub, d - 1, psize) && Found(All(kids[i].sub), key)
    && x == DelTree(psize, kids[i].sub, d - 1, key)
    && (x.Broke? ==> |x.sep| <= MAXKEYSIZE)
    && (x.Shrunk? ==> Rebalancing(SetSub(kids, i, x.t), i, d, psize))
  }

  lemma KidResultIs(psize: nat, kids: seq<Kid>, d: nat, key: Key) returns (i: nat, x: Del)
    requires ValidPsize(psize) && WF(Branch(kids), d, psize) && Found(Flat(kids), key)
    ensures KidResult(psize, kids, d, key, i, x)
  {
    i := ChildIndex(kids, key);
    FoundDescends(kids, d, key);
    x := DelTree(psize, kids[i].sub, d - 1, key);
    KidDone(psize, kids, i, x, key, d);
  }

  lemma {:induction false} DelUnfold(psize: nat, kids: seq<Kid>, d: nat, key: Key, i: nat, x: Del)
    requires ValidPsize(psize) && WF(Branch(kids), d, psize) && Found(Flat(kids), key)
    requires KidResult(psize, kids, d, key, i, x)
    ensures DelTree(psize, Branch(kids), d, key) == Upward(psize, kids, i, x, d)
  {
  }
}
