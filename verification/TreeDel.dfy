/**
 mdb_del on the tree: removal from the leaf, then rebalancing from the leaf
 towards the root by moving a node from a neighbour or merging with it.
 */
module TreeDel {
  import opened Keys
  import opened PageFormat
  import opened Items
  import opened PageSplit
  import opened Tree
  import opened TreeSearch
  import opened TreePut
  import opened TreePutProof

  /** What a deletion makes of a page: done with, done with but for a check by
      the parent (mdb_rebalance is called on it), split, or MDB_PAGE_FULL. */
  datatype Del = Settled(t: Tree) | Shrunk(t: Tree) | Broke(l: Tree, sep: Key, r: Tree) | Jammed

  const FILL_THRESHOLD := 250

  function NumKeys(t: Tree): nat { if t.Leaf? then |t.es| else |t.kids| }
  function MinKeys(t: Tree): nat { if t.Leaf? then 1 else 2 }
  function Threshold(t: Tree): nat { if t.Leaf? then FILL_THRESHOLD else 1 }

  /** PAGEFILL, in tenths of a percent. */
  function PageFill(t: Tree, psize: nat): nat
    requires ValidPsize(psize)
  {
    DivNat(1000 * Used(t), Pmax(psize));
    1000 * Used(t) / Pmax(psize)
  }

  predicate Balanced(t: Tree, psize: nat)
    requires ValidPsize(psize)
  {
    PageFill(t, psize) >= Threshold(t) && NumKeys(t) >= MinKeys(t)
  }

  /** Whether a node is taken from neighbour n of page t, rather than merging. */
  predicate Lends(n: Tree, t: Tree, psize: nat)
    requires ValidPsize(psize)
  {
    PageFill(n, psize) >= Threshold(t) && NumKeys(n) > MinKeys(t)
  }

  /** A page after a deletion: possibly too small, otherwise as it should be. */
  predicate Short(t: Tree, d: nat, psize: nat)
    requires ValidPsize(psize)
  {
    match t
    case Leaf(es) => d == 1 && Sorted(es) && EntriesOk(es, psize) && Used(t) <= Pmax(psize)
    case Branch(kids) => NodesOk(kids, d, psize) && kids != [] && Used(t) <= Pmax(psize)
  }

  /** The kids of a page whose kid i has just lost something. */
  predicate Rebalancing(kids: seq<Kid>, i: nat, d: nat, psize: nat)
    requires ValidPsize(psize)
  {
    && i < |kids| && 2 <= |kids| && d > 1
    && KidsOrdered(kids) && SepKeys(kids) && Used(Branch(kids)) <= Pmax(psize)
    && (forall j :: 0 <= j < |kids| && j != i ==> WF(kids[j].sub, d - 1, psize))
    && Short(kids[i].sub, d - 1, psize)
    && (0 < i < |kids| - 1 ==> Lt(kids[i].sep, kids[i + 1].sep))
  }

  /** mdb_page_search_lowest: the key of the first entry below a page. */
  function Lowest(t: Tree): Key
    requires All(t) != []
  {
    All(t)[0].key
  }

  lemma {:induction false} BranchNotEmpty(t: Tree, d: nat, psize: nat)
    requires ValidPsize(psize) && t.Branch? && Short(t, d, psize)
    ensures All(t) != [] && All(t.kids[0].sub) != [] && Lowest(t) == Lowest(t.kids[0].sub)
  {
    NonEmpty(t.kids[0].sub, d - 1);
  }

  // ---------------------------------------------------------------- moving and merging

  /** mdb_update_key on node j of a page: in place if there is room, else the
      node is deleted and inserted again by a split. */
  function UpdateKey(psize: nat, kids: seq<Kid>, j: nat, key: Key): Del
    requires ValidPsize(psize) && j < |kids| && |key| <= MAXKEYSIZE && Used(Branch(kids)) <= Pmax(psize)
    requires forall i :: 0 <= i < |kids| ==> |kids[i].sep| <= MAXKEYSIZE
  {
    var rest := kids[..j] + kids[j + 1..];
    RemovedKidUsed(kids, j);
    if Used(Branch(rest)) + BranchNode(key) <= Pmax(psize) then Settled(Branch(kids[j := Kid(key, kids[j].sub)]))
    else
      KidsSplittable(psize, rest, key);
      match SplitKids(psize, rest, j, Kid(key, kids[j].sub))
      case Halves(l, sep, r) => Broke(l, sep, r)
      case _ => Jammed
  }

  lemma RemovedKidUsed(kids: seq<Kid>, i: nat)
    requires i < |kids|
    ensures Used(Branch(kids[..i] + kids[i + 1..])) + BranchNode(kids[i].sep) == Used(Branch(kids))
  {
    var rest := kids[..i] + kids[i + 1..];
    assert KidSizes(kids) == Insert(KidSizes(rest), i, BranchNode(kids[i].sep));
    SumInsert(KidSizes(rest), i, BranchNode(kids[i].sep));
  }

  /** The last node of src goes to the front of its right neighbour dst; the
      two pages from left to right, and the new separator between them. */
  function MoveFromLeft(src: Tree, dst: Tree): (Tree, Tree, Key)
    requires src.Leaf? == dst.Leaf? && 1 < NumKeys(src)
    requires dst.Branch? ==> dst.kids != [] && All(dst) != []
  {
    if src.Leaf? then
      var n := |src.es| - 1;
      (Leaf(src.es[..n]), Leaf([src.es[n]] + dst.es), src.es[n].key)
    else
      var n := |src.kids| - 1;
      (Branch(src.kids[..n]),
       Branch([Kid([], src.kids[n].sub), Kid(Lowest(dst), dst.kids[0].sub)] + dst.kids[1..]),
       src.kids[n].sep)
  }

  /** The first node of src goes to the end of its left neighbour dst. */
  function MoveFromRight(src: Tree, dst: Tree): (Tree, Tree, Key)
    requires src.Leaf? == dst.Leaf? && 1 < NumKeys(src)
    requires src.Branch? ==> All(src) != []
  {
    if src.Leaf? then
      (Leaf(dst.es + [src.es[0]]), Leaf(src.es[1..]), src.es[1].key)
    else
      (Branch(dst.kids + [Kid(Lowest(src), src.kids[0].sub)]),
       Branch([Kid([], src.kids[1].sub)] + src.kids[2..]),
       src.kids[1].sep)
  }

  /** mdb_page_merge: all nodes of b appended to a, the first one of a branch
      under the real lowest key below it. */
  function MergePages(a: Tree, b: Tree): Tree
    requires a.Leaf? == b.Leaf?
    requires b.Branch? ==> b.kids != [] && All(b) != []
  {
    if a.Leaf? then Leaf(a.es + b.es)
    else Branch(a.kids + [Kid(Lowest(b), b.kids[0].sub)] + b.kids[1..])
  }

  lemma SameKind(kids: seq<Kid>, i: nat, d: nat, psize: nat)
    requires ValidPsize(psize) && Rebalancing(kids, i, d, psize)
    ensures forall j :: 0 <= j < |kids| ==> kids[j].sub.Leaf? == (d == 2)
    ensures forall j :: 0 <= j < |kids| && d > 2 ==> All(kids[j].sub) != [] && kids[j].sub.kids != []
  {
    forall j | 0 <= j < |kids| && d > 2 ensures kids[j].sub.Branch? && All(kids[j].sub) != [] && kids[j].sub.kids != [] {
      if j == i { BranchNotEmpty(kids[j].sub, d - 1, psize); } else { NonEmpty(kids[j].sub, d - 1); }
    }
  }

  /** The pages left and right of the changed separator after a move to kid i. */
  function Moved(kids: seq<Kid>, i: nat): (Tree, Tree, Key)
    requires i < |kids| && 2 <= |kids|
    requires var n := if i == 0 then 1 else i - 1;
      && kids[n].sub.Leaf? == kids[i].sub.Leaf? && 1 < NumKeys(kids[n].sub)
      && (kids[i].sub.Branch? ==> kids[i].sub.kids != [] && All(kids[i].sub) != [] && All(kids[n].sub) != [])
  {
    if i == 0 then MoveFromRight(kids[1].sub, kids[0].sub) else MoveFromLeft(kids[i - 1].sub, kids[i].sub)
  }

  lemma MovedKey(psize: nat, kids: seq<Kid>, i: nat, d: nat)
    requires ValidPsize(psize) && Rebalancing(kids, i, d, psize)
    requires var n := if i == 0 then 1 else i - 1; 1 < NumKeys(kids[n].sub)
    ensures forall j :: 0 <= j < |kids| ==> kids[j].sub.Leaf? == (d == 2)
    ensures forall j :: 0 <= j < |kids| && d > 2 ==> All(kids[j].sub) != [] && kids[j].sub.kids != []
    ensures ValidKey(Moved(kids, i).2)
  {
    SameKind(kids, i, d, psize);
  }

  /** Nodes a and a+1 with new pages, under the separators they had. */
  function SetPair(kids: seq<Kid>, a: nat, l: Tree, r: Tree): (kids': seq<Kid>)
    requires a + 1 < |kids|
    ensures KidSizes(kids') == KidSizes(kids)
    ensures |kids'| == |kids| && forall i :: 0 <= i < |kids| ==> kids'[i].sep == kids[i].sep
  {
    var kids' := kids[a := Kid(kids[a].sep, l)][a + 1 := Kid(kids[a + 1].sep, r)];
    assert forall i :: 0 <= i < |kids| ==> KidSizes(kids')[i] == KidSizes(kids)[i];
    kids'
  }

  /** mdb_rebalance of kid i within its parent. */
  function Rebalance(psize: nat, kids: seq<Kid>, i: nat, ghost d: nat): Del
    requires ValidPsize(psize) && Rebalancing(kids, i, d, psize)
  {
    SameKind(kids, i, d, psize);
    var t := kids[i].sub;
    var a := if i == 0 then 0 else i - 1;
    if Balanced(t, psize) then Settled(Branch(kids))
    else if Lends(kids[if i == 0 then 1 else a].sub, t, psize) then
      MovedKey(psize, kids, i, d);
      var (l, r, sep) := Moved(kids, i);
      if Used(if i == 0 then l else r) > Pmax(psize) then Jammed
      else UpdateKey(psize, SetPair(kids, a, l, r), a + 1, sep)
    else
      var m := MergePages(kids[a].sub, kids[a + 1].sub);
      if Used(m) > Pmax(psize) then Jammed
      else Shrunk(Branch(kids[..a] + [Kid(kids[a].sep, m)] + kids[a + 2..]))
  }
}
