/**
 mdb_del refines removal from the map, keeps the tree's invariant, and never
 finds a destination page without room.
 */
module TreeDelProof {
  import opened Keys
  import opened PageFormat
  import opened Items
  import opened PageSplit
  import opened Tree
  import opened TreeSearch
  import opened TreePut
  import opened TreePutProof
  import opened TreeDel

  // ---------------------------------------------------------------- room

  lemma DivLess(a: nat, b: nat, c: nat)
    requires 0 < b && a / b < c
    ensures a < c * b
  {
    var q := a / b;
    assert a == b * q + a % b;
    MulMono(q + 1, c, b);
  }

  lemma MulMono(x: int, y: int, b: nat)
    requires x <= y
    ensures x * b <= y * b
  {
  }

  /** A leaf that is not balanced is less than a quarter full. */
  lemma SmallLeaf(es: seq<Entry>, psize: nat)
    requires ValidPsize(psize) && !Balanced(Leaf(es), psize)
    ensures 4 * Used(Leaf(es)) < Pmax(psize)
  {
    if PageFill(Leaf(es), psize) < FILL_THRESHOLD {
      DivLess(1000 * Used(Leaf(es)), Pmax(psize), FILL_THRESHOLD);
    }
  }

  /** A leaf that does not lend is at most half full. */
  lemma NeighbourLeaf(es: seq<Entry>, t: Tree, psize: nat)
    requires ValidPsize(psize) && EntriesOk(es, psize) && t.Leaf? && !Lends(Leaf(es), t, psize)
    ensures 2 * Used(Leaf(es)) <= Pmax(psize)
  {
    if PageFill(Leaf(es), psize) < FILL_THRESHOLD {
      DivLess(1000 * Used(Leaf(es)), Pmax(psize), FILL_THRESHOLD);
    } else if |es| == 1 {
      HalfPageEntry(es[0], psize);
      assert LeafSizes(es) == [LeafNode(es[0])];
      assert Sum([LeafNode(es[0])]) == LeafNode(es[0]);
    }
  }

  /** A branch page below the thresholds is nearly empty: at most n nodes, or a thousandth full. */
  lemma SmallBranch(kids: seq<Kid>, n: nat, psize: nat)
    requires ValidPsize(psize) && SepKeys(kids) && 1 <= n <= 2
    requires PageFill(Branch(kids), psize) < 1 || |kids| <= n
    ensures Used(Branch(kids)) <= 10 + 522 * (n - 1) || 1000 * Used(Branch(kids)) < Pmax(psize)
  {
    if PageFill(Branch(kids), psize) < 1 {
      DivLess(1000 * Used(Branch(kids)), Pmax(psize), 1);
    } else {
      FewKids(kids, n);
    }
  }

  lemma FewKids(kids: seq<Kid>, n: nat)
    requires SepKeys(kids) && |kids| <= n && 1 <= n <= 2
    ensures Used(Branch(kids)) <= 10 + 522 * (n - 1)
  {
    if |kids| == 1 {
      assert kids == [kids[0]];
      UsedOneKid(kids[0]);
    } else if |kids| == 2 {
      assert kids == [kids[0]] + [kids[1]];
      UsedConcat([kids[0]], [kids[1]]);
      UsedOneKid(kids[0]);
      UsedOneKid(kids[1]);
      HalfPageKid(kids[1].sep, 4096);
    }
  }

  lemma UsedConcat(a: seq<Kid>, b: seq<Kid>)
    ensures Used(Branch(a + b)) == Used(Branch(a)) + Used(Branch(b))
  {
    assert KidSizes(a + b) == KidSizes(a) + KidSizes(b);
    SumConcat(KidSizes(a), KidSizes(b));
  }

  lemma UsedLeafConcat(a: seq<Entry>, b: seq<Entry>)
    ensures Used(Leaf(a + b)) == Used(Leaf(a)) + Used(Leaf(b))
  {
    assert LeafSizes(a + b) == LeafSizes(a) + LeafSizes(b);
    SumConcat(LeafSizes(a), LeafSizes(b));
  }

  lemma UsedOneKid(k: Kid)
    ensures Used(Branch([k])) == BranchNode(k.sep)
  {
    assert KidSizes([k]) == [BranchNode(k.sep)];
    assert Sum([BranchNode(k.sep)]) == BranchNode(k.sep);
  }

  lemma UsedOneEntry(e: Entry)
    ensures Used(Leaf([e])) == LeafNode(e)
  {
    assert LeafSizes([e]) == [LeafNode(e)];
    assert Sum([LeafNode(e)]) == LeafNode(e);
  }

  /** Giving the first node its real key adds at most one key's worth. */
  lemma UsedExpanded(kids: seq<Kid>, k: Key)
    requires kids != [] && SepKeys(kids) && |k| <= MAXKEYSIZE
    ensures Used(Branch([Kid(k, kids[0].sub)] + kids[1..])) <= Used(Branch(kids)) + 512
  {
    assert kids == [kids[0]] + kids[1..];
    UsedConcat([kids[0]], kids[1..]);
    UsedConcat([Kid(k, kids[0].sub)], kids[1..]);
    UsedOneKid(kids[0]);
    UsedOneKid(Kid(k, kids[0].sub));
  }

  /** The lowest key below a page of a well-formed tree is a legal key. */
  lemma {:induction false} LowestValid(t: Tree, d: nat, psize: nat)
    requires ValidPsize(psize) && WF(t, d, psize)
    ensures All(t) != [] && ValidKey(Lowest(t))
    decreases t
  {
    NonEmpty(t, d);
    match t
    case Leaf(es) => assert EntryOk(es[0], psize);
    case Branch(kids) => LowestValid(kids[0].sub, d - 1, psize);
  }

  lemma {:induction false} ShortLowestValid(t: Tree, d: nat, psize: nat)
    requires ValidPsize(psize) && t.Branch? && Short(t, d, psize)
    ensures All(t) != [] && ValidKey(Lowest(t))
  {
    BranchNotEmpty(t, d, psize);
    LowestValid(t.kids[0].sub, d - 1, psize);
  }

  /** Merging never overfills the destination page, also with the empty first
      key of a branch expanded to the real lowest key. */
  lemma {:induction false} RoomToMerge(a: Tree, b: Tree, d: nat, psize: nat)
    requires ValidPsize(psize) && a.Leaf? == b.Leaf? && Short(a, d, psize) && Short(b, d, psize)
    requires (!Balanced(a, psize) && !Lends(b, a, psize)) || (!Balanced(b, psize) && !Lends(a, b, psize))
    requires b.Branch? ==> All(b) != []
    ensures Used(MergePages(a, b)) <= Pmax(psize)
  {
    if a.Leaf? {
      UsedLeafConcat(a.es, b.es);
      if !Balanced(a, psize) && !Lends(b, a, psize) {
        SmallLeaf(a.es, psize);
        NeighbourLeaf(b.es, a, psize);
      } else {
        SmallLeaf(b.es, psize);
        NeighbourLeaf(a.es, b, psize);
      }
    } else {
      ShortLowestValid(b, d, psize);
      UsedExpanded(b.kids, Lowest(b));
      var b' := [Kid(Lowest(b), b.kids[0].sub)] + b.kids[1..];
      UsedConcat(a.kids, b');
      assert MergePages(a, b).kids == a.kids + b';
      SmallBranch(a.kids, if Balanced(a, psize) || Lends(b, a, psize) then 2 else 1, psize);
      SmallBranch(b.kids, if Balanced(a, psize) || Lends(b, a, psize) then 1 else 2, psize);
    }
  }

  /** Moving a node never overfills the destination page. */
  lemma {:induction false} RoomToMoveLeft(src: Tree, dst: Tree, d: nat, psize: nat)
    requires ValidPsize(psize) && src.Leaf? == dst.Leaf? && WF(src, d, psize) && Short(dst, d, psize)
    requires !Balanced(dst, psize) && Lends(src, dst, psize)
    requires dst.Branch? ==> All(dst) != []
    ensures Used(MoveFromLeft(src, dst).1) <= Pmax(psize)
  {
    if dst.Leaf? {
      var e := src.es[|src.es| - 1];
      SmallLeaf(dst.es, psize);
      UsedLeafConcat([e], dst.es);
      UsedOneEntry(e);
      HalfPageEntry(e, psize);
    } else {
      ShortLowestValid(dst, d, psize);
      SmallBranch(dst.kids, 1, psize);
      UsedInFront(src.kids[|src.kids| - 1].sub, dst.kids, Lowest(dst));
    }
  }

  /** A node more in front, and the first key expanded. */
  lemma UsedInFront(sub: Tree, kids: seq<Kid>, k: Key)
    requires kids != [] && SepKeys(kids) && |k| <= MAXKEYSIZE
    ensures Used(Branch([Kid([], sub), Kid(k, kids[0].sub)] + kids[1..])) <= Used(Branch(kids)) + 522
  {
    var rest := [Kid(k, kids[0].sub)] + kids[1..];
    UsedExpanded(kids, k);
    UsedConcat([Kid([], sub)], rest);
    UsedOneKid(Kid([], sub));
    assert [Kid([], sub), Kid(k, kids[0].sub)] + kids[1..] == [Kid([], sub)] + rest;
  }

  lemma {:induction false} RoomToMoveRight(src: Tree, dst: Tree, d: nat, psize: nat)
    requires ValidPsize(psize) && src.Leaf? == dst.Leaf? && WF(src, d, psize) && Short(dst, d, psize)
    requires !Balanced(dst, psize) && Lends(src, dst, psize)
    requires src.Branch? ==> All(src) != []
    ensures Used(MoveFromRight(src, dst).0) <= Pmax(psize)
  {
    if dst.Leaf? {
      SmallLeaf(dst.es, psize);
      UsedLeafConcat(dst.es, [src.es[0]]);
      UsedOneEntry(src.es[0]);
      HalfPageEntry(src.es[0], psize);
    } else {
      LowestValid(src, d, psize);
      var k := Kid(Lowest(src), src.kids[0].sub);
      UsedConcat(dst.kids, [k]);
      UsedOneKid(k);
      HalfPageKid(k.sep, psize);
      SmallBranch(dst.kids, 1, psize);
    }
  }

  // ---------------------------------------------------------------- order

  ghost predicate DelHolds(r: Del, d: nat, psize: nat, items: seq<Entry>)
    requires ValidPsize(psize)
  {
    match r
    case Settled(t) => WF(t, d, psize) && All(t) == items
    case Shrunk(t) => Short(t, d, psize) && All(t) == items
    case Broke(l, sep, r) => Holds(Halves(l, sep, r), d, psize, items)
    case Jammed => true
  }

  /** Nodes a and a+1 together stay within the separators around them. */
  lemma PairBounds(kids: seq<Kid>, i: nat, d: nat, psize: nat, a: nat)
    requires ValidPsize(psize) && Rebalancing(kids, i, d, psize) && a == if i == 0 then 0 else i - 1
    ensures var pair := All(kids[a].sub) + All(kids[a + 1].sub);
      && (a > 0 ==> NotBelow(pair, kids[a].sep))
      && (a + 2 < |kids| ==> Below(pair, kids[a + 2].sep))
  {
    if a > 0 {
      assert Separates(kids, a) && Separates(kids, a + 1);
      NonEmpty(kids[a].sub, d - 1);
      Between(kids[a].sep, All(kids[a].sub)[0].key, kids[a + 1].sep);
      NotBelowTrans(All(kids[a + 1].sub), kids[a].sep, kids[a + 1].sep);
    }
    if a + 2 < |kids| {
      assert Separates(kids, a + 1) && Separates(kids, a + 2);
      if i == 0 {
        NonEmpty(kids[a + 1].sub, d - 1);
        Between(kids[a + 1].sep, All(kids[a + 1].sub)[0].key, kids[a + 2].sep);
      }
      LtTotal(kids[a + 1].sep, kids[a + 2].sep);
      BelowTrans(All(kids[a].sub), kids[a + 1].sep, kids[a + 2].sep);
    }
  }

  lemma {:induction false} Between(a: Key, x: Key, b: Key)
    requires Le(a, x) && Lt(x, b)
    ensures Lt(a, b) && Le(a, b)
  {
    LtTotal(x, b);
    LtTrans(a, x, b);
    LtTotal(a, b);
  }

  /** Nodes a and a+1 replaced by a run with the same entries. */
  lemma {:induction false} PairReplaced(kids: seq<Kid>, i: nat, d: nat, psize: nat, a: nat, mid: seq<Kid>)
    requires ValidPsize(psize) && Rebalancing(kids, i, d, psize) && a == if i == 0 then 0 else i - 1
    requires mid != [] && mid[0].sep == kids[a].sep && KidsOrdered(mid)
    requires Flat(mid) == All(kids[a].sub) + All(kids[a + 1].sub)
    requires forall j :: 0 <= j < |mid| ==> WF(mid[j].sub, d - 1, psize) && (j > 0 ==> ValidKey(mid[j].sep))
    ensures NodesOk(kids[..a] + mid + kids[a + 2..], d, psize)
    ensures Flat(kids[..a] + mid + kids[a + 2..]) == Flat(kids)
  {
    PairOrdered(kids, i, d, psize, a, mid);
    ReplaceNodes(kids, a, a + 2, mid, d, psize);
    FlatPair(kids, a, mid);
  }

  lemma {:induction false} PairOrdered(kids: seq<Kid>, i: nat, d: nat, psize: nat, a: nat, mid: seq<Kid>)
    requires ValidPsize(psize) && Rebalancing(kids, i, d, psize) && a == if i == 0 then 0 else i - 1
    requires mid != [] && mid[0].sep == kids[a].sep && KidsOrdered(mid)
    requires Flat(mid) == All(kids[a].sub) + All(kids[a + 1].sub)
    ensures KidsOrdered(kids[..a] + mid + kids[a + 2..])
  {
    PairBounds(kids, i, d, psize, a);
    if a > 0 { FlatEnds(mid, kids[a].sep); }
    if a + 2 < |kids| { FlatEnds(mid, kids[a + 2].sep); }
    ReplaceOrdered(kids, a, a + 2, mid);
  }

  lemma {:induction false} FlatPair(kids: seq<Kid>, a: nat, mid: seq<Kid>)
    requires a + 1 < |kids| && Flat(mid) == All(kids[a].sub) + All(kids[a + 1].sub)
    ensures Flat(kids[..a] + mid + kids[a + 2..]) == Flat(kids)
  {
    ReplaceFlat(kids, a, a + 2, mid);
    FlatFront(kids, a);
    FlatAt(kids, a + 1);
  }

  // ---------------------------------------------------------------- merging

  lemma {:induction false} MergeContents(a: Tree, b: Tree)
    requires a.Leaf? == b.Leaf? && (b.Branch? ==> b.kids != [] && All(b) != [])
    ensures All(MergePages(a, b)) == All(a) + All(b)
  {
    if a.Branch? {
      var b' := [Kid(Lowest(b), b.kids[0].sub)] + b.kids[1..];
      assert MergePages(a, b).kids == a.kids + b';
      FlatConcat(a.kids, b');
      assert b'[1..] == b.kids[1..];
    }
  }

  /** A branch page with its first key expanded to the lowest key below it. */
  lemma {:induction false} Expanded(t: Tree, d: nat, psize: nat)
    requires ValidPsize(psize) && t.Branch? && Short(t, d, psize)
    ensures All(t) != [] && ValidKey(Lowest(t))
    ensures var kids := [Kid(Lowest(t), t.kids[0].sub)] + t.kids[1..];
      KidsOrdered(kids) && NotBelow(All(kids[0].sub), Lowest(t)) && Flat(kids) == All(t)
  {
    ShortLowestValid(t, d, psize);
    BranchNotEmpty(t, d, psize);
    var kids := [Kid(Lowest(t), t.kids[0].sub)] + t.kids[1..];
    forall k {:trigger Separates(kids, k)} | 1 <= k < |kids| ensures Separates(kids, k) {
      assert Separates(t.kids, k);
    }
    assert kids[1..] == t.kids[1..];
    AllSorted(t.kids[0].sub, d - 1);
    FirstIsLowest(All(t.kids[0].sub));
  }

  lemma FirstIsLowest(es: seq<Entry>)
    requires Sorted(es) && es != []
    ensures NotBelow(es, es[0].key)
  {
    forall i | 0 <= i < |es| ensures Le(es[0].key, es[i].key) { LtTotal(es[0].key, es[i].key); }
  }

  lemma {:induction false} MergeHolds(a: Tree, b: Tree, sep: Key, d: nat, psize: nat)
    requires ValidPsize(psize) && a.Leaf? == b.Leaf? && Short(a, d, psize) && Short(b, d, psize)
    requires Below(All(a), sep) && NotBelow(All(b), sep)
    requires a.Leaf? ==> 0 < |a.es| + |b.es|
    requires a.Branch? ==> All(b) != [] && 2 <= |a.kids| + |b.kids|
    requires Used(MergePages(a, b)) <= Pmax(psize)
    ensures WF(MergePages(a, b), d, psize) && All(MergePages(a, b)) == All(a) + All(b)
  {
    MergeContents(a, b);
    if a.Leaf? {
      SortedConcat(a.es, b.es, sep);
      LeafWF(a.es + b.es, psize);
    } else {
      MergeNodesOk(a, b, sep, d, psize);
      NodesMakeBranch(MergePages(a, b).kids, d, psize);
    }
  }

  // ---------------------------------------------------------------- moving

  /** Two neighbouring pages of depth d that hold these entries around sep. */
  ghost predicate Neighbours(l: Tree, sep: Key, r: Tree, d: nat, psize: nat, items: seq<Entry>)
    requires ValidPsize(psize)
  {
    && WF(l, d, psize) && WF(r, d, psize) && ValidKey(sep)
    && Below(All(l), sep) && NotBelow(All(r), sep) && All(l) + All(r) == items
  }

  lemma CutEntries(es: seq<Entry>, s: nat, psize: nat)
    requires ValidPsize(psize) && Sorted(es) && EntriesOk(es, psize) && 1 <= s < |es|
    requires Used(Leaf(es[..s])) <= Pmax(psize) && Used(Leaf(es[s..])) <= Pmax(psize)
    ensures Neighbours(Leaf(es[..s]), es[s].key, Leaf(es[s..]), 1, psize, es)
  {
    CutSorted(es, s);
    LeafWF(es[..s], psize);
    LeafWF(es[s..], psize);
    assert es == es[..s] + es[s..];
    assert EntryOk(es[s], psize);
  }

  lemma {:induction false} CutKids(kids: seq<Kid>, s: nat, d: nat, psize: nat)
    requires ValidPsize(psize) && NodesOk(kids, d, psize) && 2 <= s < |kids| - 1
    requires Used(Branch(kids[..s])) <= Pmax(psize)
    requires Used(Branch([Kid([], kids[s].sub)] + kids[s + 1..])) <= Pmax(psize)
    ensures Neighbours(Branch(kids[..s]), kids[s].sep, Branch([Kid([], kids[s].sub)] + kids[s + 1..]), d, psize, Flat(kids))
  {
    CutNodes(kids, s, d, psize);
    NodesMakeBranch(kids[..s], d, psize);
    NodesMakeBranch([Kid([], kids[s].sub)] + kids[s + 1..], d, psize);
  }

  lemma UsedPrefix(kids: seq<Kid>, s: nat)
    requires s <= |kids|
    ensures Used(Branch(kids[..s])) <= Used(Branch(kids)) && Used(Branch(kids[s..])) <= Used(Branch(kids))
  {
    assert kids == kids[..s] + kids[s..];
    UsedConcat(kids[..s], kids[s..]);
  }

  lemma UsedLeafPrefix(es: seq<Entry>, s: nat)
    requires s <= |es|
    ensures Used(Leaf(es[..s])) <= Used(Leaf(es)) && Used(Leaf(es[s..])) <= Used(Leaf(es))
  {
    assert es == es[..s] + es[s..];
    UsedLeafConcat(es[..s], es[s..]);
  }

  /** Moving a node is merging the two pages and cutting one node elsewhere. */
  lemma {:induction false} MoveLeftHolds(src: Tree, sep: Key, dst: Tree, d: nat, psize: nat)
    requires ValidPsize(psize) && src.Leaf? == dst.Leaf? && WF(src, d, psize) && Short(dst, d, psize)
    requires Below(All(src), sep) && NotBelow(All(dst), sep) && MinKeys(dst) < NumKeys(src)
    requires dst.Branch? ==> All(dst) != []
    requires Used(MoveFromLeft(src, dst).1) <= Pmax(psize)
    ensures var (l, r, k) := MoveFromLeft(src, dst);
      Neighbours(l, k, r, d, psize, All(src) + All(dst))
  {
    var (l, r, k) := MoveFromLeft(src, dst);
    if src.Leaf? {
      var all, s := src.es + dst.es, |src.es| - 1;
      SortedConcat(src.es, dst.es, sep);
      UsedLeafPrefix(src.es, s);
      assert all[..s] == l.es && all[s..] == r.es;
      CutEntries(all, s, psize);
    } else {
      MoveLeftBranch(src, sep, dst, d, psize);
    }
  }

  lemma {:induction false} MoveLeftBranch(src: Tree, sep: Key, dst: Tree, d: nat, psize: nat)
    requires ValidPsize(psize) && src.Branch? && dst.Branch? && WF(src, d, psize) && Short(dst, d, psize)
    requires Below(All(src), sep) && NotBelow(All(dst), sep) && 2 < |src.kids| && All(dst) != []
    requires Used(MoveFromLeft(src, dst).1) <= Pmax(psize)
    ensures var (l, r, k) := MoveFromLeft(src, dst);
      Neighbours(l, k, r, d, psize, All(src) + All(dst))
  {
    var (l, r, k) := MoveFromLeft(src, dst);
    var s := |src.kids| - 1;
    var all := MergePages(src, dst).kids;
    MergeContents(src, dst);
    MergeNodesOk(src, dst, sep, d, psize);
    UsedPrefix(src.kids, s);
    assert all[..s] == l.kids && [Kid([], all[s].sub)] + all[s + 1..] == r.kids;
    CutKids(all, s, d, psize);
  }

  lemma {:induction false} MergeNodesOk(a: Tree, b: Tree, sep: Key, d: nat, psize: nat)
    requires ValidPsize(psize) && a.Branch? && b.Branch? && Short(a, d, psize) && Short(b, d, psize)
    requires Below(All(a), sep) && NotBelow(All(b), sep) && All(b) != []
    ensures NodesOk(MergePages(a, b).kids, d, psize)
  {
    var b' := [Kid(Lowest(b), b.kids[0].sub)] + b.kids[1..];
    var kids := a.kids + b';
    assert MergePages(a, b).kids == kids;
    Expanded(b, d, psize);
    BelowTrans(All(a), sep, Lowest(b));
    FlatEnds(a.kids, Lowest(b));
    OrderedJoin(a.kids, b');
    forall j | 0 <= j < |kids| ensures WF(kids[j].sub, d - 1, psize) && (if j == 0 then kids[j].sep == [] else ValidKey(kids[j].sep)) {
      if j > |a.kids| { assert kids[j] == b.kids[j - |a.kids|]; }
    }
  }

  lemma {:induction false} MoveRightHolds(dst: Tree, sep: Key, src: Tree, d: nat, psize: nat)
    requires ValidPsize(psize) && src.Leaf? == dst.Leaf? && WF(src, d, psize) && Short(dst, d, psize)
    requires Below(All(dst), sep) && NotBelow(All(src), sep) && MinKeys(dst) < NumKeys(src)
    requires src.Branch? ==> All(src) != []
    requires Used(MoveFromRight(src, dst).0) <= Pmax(psize)
    ensures var (l, r, k) := MoveFromRight(src, dst);
      Neighbours(l, k, r, d, psize, All(dst) + All(src))
  {
    if src.Leaf? {
      var all, s := dst.es + src.es, |dst.es| + 1;
      SortedConcat(dst.es, src.es, sep);
      UsedLeafPrefix(src.es, 1);
      assert all[..s] == MoveFromRight(src, dst).0.es && all[s..] == src.es[1..];
      CutEntries(all, s, psize);
    } else {
      MoveRightBranch(dst, sep, src, d, psize);
    }
  }

  lemma {:induction false} MoveRightBranch(dst: Tree, sep: Key, src: Tree, d: nat, psize: nat)
    requires ValidPsize(psize) && src.Branch? && dst.Branch? && WF(src, d, psize) && Short(dst, d, psize)
    requires Below(All(dst), sep) && NotBelow(All(src), sep) && 2 < |src.kids| && All(src) != []
    requires Used(MoveFromRight(src, dst).0) <= Pmax(psize)
    ensures var (l, r, k) := MoveFromRight(src, dst);
      Neighbours(l, k, r, d, psize, All(dst) + All(src))
  {
    var (l, r, k) := MoveFromRight(src, dst);
    var s := |dst.kids| + 1;
    var all := MergePages(dst, src).kids;
    MergeContents(dst, src);
    MergeNodesOk(dst, src, sep, d, psize);
    assert all[..s] == l.kids && all[s].sub == src.kids[1].sub && all[s].sep == src.kids[1].sep;
    assert all[s + 1..] == src.kids[2..];
    DroppedFirst(src.kids);
    UsedPrefix(src.kids, 1);
    assert r.kids == [Kid([], all[s].sub)] + all[s + 1..];
    CutKids(all, s, d, psize);
  }

  lemma DroppedFirst(kids: seq<Kid>)
    requires 2 <= |kids|
    ensures Used(Branch([Kid([], kids[1].sub)] + kids[2..])) <= Used(Branch(kids[1..]))
  {
    assert kids[1..] == [kids[1]] + kids[2..];
    UsedConcat([kids[1]], kids[2..]);
    UsedConcat([Kid([], kids[1].sub)], kids[2..]);
    UsedOneKid(kids[1]);
    UsedOneKid(Kid([], kids[1].sub));
  }

  // ---------------------------------------------------------------- rebalancing

  lemma UpdateKeyHolds(psize: nat, kids: seq<Kid>, j: nat, key: Key, d: nat)
    requires ValidPsize(psize) && 1 <= j < |kids| && ValidKey(key) && Used(Branch(kids)) <= Pmax(psize)
    requires forall i :: 0 <= i < |kids| ==> |kids[i].sep| <= MAXKEYSIZE
    requires NodesOk(kids[j := Kid(key, kids[j].sub)], d, psize)
    ensures DelHolds(UpdateKey(psize, kids, j, key), d, psize, Flat(kids[j := Kid(key, kids[j].sub)]))
  {
    var rest := kids[..j] + kids[j + 1..];
    var kid := Kid(key, kids[j].sub);
    var kids' := kids[j := kid];
    RemovedKidUsed(kids, j);
    RemovedKidUsed(kids', j);
    assert kids'[..j] + kids'[j + 1..] == rest;
    assert Insert(rest, j, kid) == kids';
    if Used(Branch(rest)) + BranchNode(key) <= Pmax(psize) {
      NodesMakeBranch(kids', d, psize);
    } else {
      KidsSplittable(psize, rest, key);
      SplitHolds(psize, rest, j, kid, d);
    }
  }

  lemma BalancedHolds(psize: nat, kids: seq<Kid>, i: nat, d: nat)
    requires ValidPsize(psize) && Rebalancing(kids, i, d, psize) && Balanced(kids[i].sub, psize)
    ensures WF(Branch(kids), d, psize)
  {
    var t := kids[i].sub;
    assert WF(t, d - 1, psize) by {
      if t.Leaf? { LeafWF(t.es, psize); } else { NodesMakeBranch(t.kids, d - 1, psize); }
    }
    NodesMakeBranch(kids, d, psize);
  }

  /** What it does when it merges. */
  lemma MergingIs(psize: nat, kids: seq<Kid>, i: nat, d: nat) returns (a: nat, m: Tree)
    requires ValidPsize(psize) && Rebalancing(kids, i, d, psize)
    requires !Balanced(kids[i].sub, psize) && !Lends(kids[if i == 0 then 1 else i - 1].sub, kids[i].sub, psize)
    ensures a == (if i == 0 then 0 else i - 1)
    ensures WF(m, d - 1, psize) && All(m) == All(kids[a].sub) + All(kids[a + 1].sub)
    ensures Rebalance(psize, kids, i, d) == Shrunk(Branch(kids[..a] + [Kid(kids[a].sep, m)] + kids[a + 2..]))
    ensures forall j :: 0 <= j < |kids| ==> kids[j].sub.Leaf? == (d == 2)
    ensures forall j :: 0 <= j < |kids| && d > 2 ==> All(kids[j].sub) != [] && kids[j].sub.kids != []
    ensures m == MergePages(kids[a].sub, kids[a + 1].sub)
  {
    SameKind(kids, i, d, psize);
    a := if i == 0 then 0 else i - 1;
    m := MergePages(kids[a].sub, kids[a + 1].sub);
    Merged(psize, kids, i, d, a);
  }

  lemma Merged(psize: nat, kids: seq<Kid>, i: nat, d: nat, a: nat)
    requires ValidPsize(psize) && Rebalancing(kids, i, d, psize) && a == if i == 0 then 0 else i - 1
    requires !Balanced(kids[i].sub, psize) && !Lends(kids[if i == 0 then 1 else i - 1].sub, kids[i].sub, psize)
    requires kids[a].sub.Leaf? == kids[a + 1].sub.Leaf?
    requires kids[a + 1].sub.Branch? ==> kids[a + 1].sub.kids != [] && All(kids[a + 1].sub) != []
    ensures var m := MergePages(kids[a].sub, kids[a + 1].sub);
      Used(m) <= Pmax(psize) && WF(m, d - 1, psize) && All(m) == All(kids[a].sub) + All(kids[a + 1].sub)
  {
    var l, r := kids[a].sub, kids[a + 1].sub;
    assert Separates(kids, a + 1);
    WFIsShort(if i == 0 then r else l, d - 1, psize);
    RoomToMerge(l, r, d - 1, psize);
    MergeHolds(l, r, kids[a + 1].sep, d - 1, psize);
  }

  lemma {:induction false} MergingHolds(psize: nat, kids: seq<Kid>, i: nat, d: nat)
    requires ValidPsize(psize) && Rebalancing(kids, i, d, psize)
    requires !Balanced(kids[i].sub, psize) && !Lends(kids[if i == 0 then 1 else i - 1].sub, kids[i].sub, psize)
    ensures var r := Rebalance(psize, kids, i, d); r.Shrunk? && DelHolds(r, d, psize, Flat(kids))
  {
    var a, m := MergingIs(psize, kids, i, d);
    var mid := [Kid(kids[a].sep, m)];
    FlatOne(mid[0]);
    PairReplaced(kids, i, d, psize, a, mid);
    MergedUsed(kids, a, m);
  }

  lemma WFIsShort(t: Tree, d: nat, psize: nat)
    requires ValidPsize(psize) && WF(t, d, psize)
    ensures Short(t, d, psize) && (t.Leaf? ==> t.es != []) && (t.Branch? ==> 2 <= |t.kids|)
  {
    if t.Branch? { BranchHasNodes(t.kids, d, psize); }
  }

  lemma MergedUsed(kids: seq<Kid>, j: nat, m: Tree)
    requires j + 1 < |kids|
    ensures Used(Branch(kids[..j] + [Kid(kids[j].sep, m)] + kids[j + 2..])) <= Used(Branch(kids))
  {
    var l, r := kids[..j], kids[j + 2..];
    UsedConcat(l + [Kid(kids[j].sep, m)], r);
    UsedConcat(l, [Kid(kids[j].sep, m)]);
    assert kids == l + [kids[j]] + ([kids[j + 1]] + r);
    UsedConcat(l + [kids[j]], [kids[j + 1]] + r);
    UsedConcat(l, [kids[j]]);
    UsedConcat([kids[j + 1]], r);
    UsedOneKid(kids[j]);
    UsedOneKid(Kid(kids[j].sep, m));
  }

  /** A move to kid i leaves two well-formed pages with the same entries. */
  lemma MovedNeighbours(psize: nat, kids: seq<Kid>, i: nat, d: nat)
    requires ValidPsize(psize) && Rebalancing(kids, i, d, psize)
    requires !Balanced(kids[i].sub, psize) && Lends(kids[if i == 0 then 1 else i - 1].sub, kids[i].sub, psize)
    requires forall j :: 0 <= j < |kids| ==> kids[j].sub.Leaf? == (d == 2)
    requires forall j :: 0 <= j < |kids| && d > 2 ==> All(kids[j].sub) != [] && kids[j].sub.kids != []
    ensures var a := if i == 0 then 0 else i - 1;
      var (l, r, sep) := Moved(kids, i);
      && Used(if i == 0 then l else r) <= Pmax(psize)
      && Neighbours(l, sep, r, d - 1, psize, All(kids[a].sub) + All(kids[a + 1].sub))
  {
    var a := if i == 0 then 0 else i - 1;
    assert Separates(kids, a + 1);
    if i == 0 {
      RoomToMoveRight(kids[1].sub, kids[0].sub, d - 1, psize);
      MoveRightHolds(kids[0].sub, kids[1].sep, kids[1].sub, d - 1, psize);
    } else {
      RoomToMoveLeft(kids[a].sub, kids[i].sub, d - 1, psize);
      MoveLeftHolds(kids[a].sub, kids[i].sep, kids[i].sub, d - 1, psize);
    }
  }

  /** What mdb_rebalance does when it moves a node. */
  lemma MovingIs(psize: nat, kids: seq<Kid>, i: nat, d: nat) returns (a: nat, l: Tree, r: Tree, sep: Key)
    requires ValidPsize(psize) && Rebalancing(kids, i, d, psize)
    requires !Balanced(kids[i].sub, psize) && Lends(kids[if i == 0 then 1 else i - 1].sub, kids[i].sub, psize)
    ensures a == (if i == 0 then 0 else i - 1) && |sep| <= MAXKEYSIZE
    ensures Neighbours(l, sep, r, d - 1, psize, All(kids[a].sub) + All(kids[a + 1].sub))
    ensures Rebalance(psize, kids, i, d) == UpdateKey(psize, SetPair(kids, a, l, r), a + 1, sep)
    ensures forall j :: 0 <= j < |kids| ==> kids[j].sub.Leaf? == (d == 2)
    ensures forall j :: 0 <= j < |kids| && d > 2 ==> All(kids[j].sub) != [] && kids[j].sub.kids != []
    ensures Moved(kids, i) == (l, r, sep)
  {
    SameKind(kids, i, d, psize);
    MovedKey(psize, kids, i, d);
    MovedNeighbours(psize, kids, i, d);
    a, l, r, sep := if i == 0 then 0 else i - 1, Moved(kids, i).0, Moved(kids, i).1, Moved(kids, i).2;
    RebalanceMoves(psize, kids, i, d, a, l, r, sep);
  }

  lemma RebalanceMoves(psize: nat, kids: seq<Kid>, i: nat, d: nat, a: nat, l: Tree, r: Tree, sep: Key)
    requires ValidPsize(psize) && Rebalancing(kids, i, d, psize) && a == if i == 0 then 0 else i - 1
    requires !Balanced(kids[i].sub, psize) && Lends(kids[if i == 0 then 1 else i - 1].sub, kids[i].sub, psize)
    requires forall j :: 0 <= j < |kids| ==> kids[j].sub.Leaf? == (d == 2)
    requires forall j :: 0 <= j < |kids| && d > 2 ==> All(kids[j].sub) != [] && kids[j].sub.kids != []
    requires Moved(kids, i) == (l, r, sep) && |sep| <= MAXKEYSIZE && Used(if i == 0 then l else r) <= Pmax(psize)
    ensures Rebalance(psize, kids, i, d) == UpdateKey(psize, SetPair(kids, a, l, r), a + 1, sep)
  {
  }

  lemma {:induction false} MovingHolds(psize: nat, kids: seq<Kid>, i: nat, d: nat)
    requires ValidPsize(psize) && Rebalancing(kids, i, d, psize)
    requires !Balanced(kids[i].sub, psize) && Lends(kids[if i == 0 then 1 else i - 1].sub, kids[i].sub, psize)
    ensures DelHolds(Rebalance(psize, kids, i, d), d, psize, Flat(kids))
  {
    var a, l, r, sep := MovingIs(psize, kids, i, d);
    MovedHolds(psize, kids, i, d, a, l, r, sep);
  }

  lemma {:induction false} MovedHolds(psize: nat, kids: seq<Kid>, i: nat, d: nat, a: nat, l: Tree, r: Tree, sep: Key)
    requires ValidPsize(psize) && Rebalancing(kids, i, d, psize) && a == if i == 0 then 0 else i - 1
    requires Neighbours(l, sep, r, d - 1, psize, All(kids[a].sub) + All(kids[a + 1].sub))
    ensures DelHolds(UpdateKey(psize, SetPair(kids, a, l, r), a + 1, sep), d, psize, Flat(kids))
  {
    var kids' := SetPair(kids, a, l, r);
    MovedNodes(psize, kids, i, d, a, l, r, sep, kids');
    UpdateKeyHolds(psize, kids', a + 1, sep, d);
  }

  lemma {:induction false} MovedNodes(psize: nat, kids: seq<Kid>, i: nat, d: nat, a: nat, l: Tree, r: Tree, sep: Key,
                                      kids': seq<Kid>)
    requires ValidPsize(psize) && Rebalancing(kids, i, d, psize) && a == if i == 0 then 0 else i - 1
    requires Neighbours(l, sep, r, d - 1, psize, All(kids[a].sub) + All(kids[a + 1].sub)) && kids' == SetPair(kids, a, l, r)
    ensures NodesOk(kids'[a + 1 := Kid(sep, kids'[a + 1].sub)], d, psize)
    ensures Flat(kids'[a + 1 := Kid(sep, kids'[a + 1].sub)]) == Flat(kids) && ValidKey(sep)
    ensures Used(Branch(kids')) <= Pmax(psize) && forall j :: 0 <= j < |kids'| ==> |kids'[j].sep| <= MAXKEYSIZE
  {
    var mid := [Kid(kids[a].sep, l), Kid(sep, r)];
    OneOrTwo(mid[0], mid[1]);
    FlatTwo(mid[0], mid[1]);
    PairReplaced(kids, i, d, psize, a, mid);
    PairSet(kids, a, l, r, sep);
  }

  lemma PairSet(kids: seq<Kid>, a: nat, l: Tree, r: Tree, sep: Key)
    requires a + 1 < |kids|
    ensures SetPair(kids, a, l, r)[a + 1 := Kid(sep, r)] == kids[..a] + [Kid(kids[a].sep, l), Kid(sep, r)] + kids[a + 2..]
  {
  }

  /** mdb_rebalance preserves the entries and restores the page's invariant. */
  lemma {:induction false} RebalanceHolds(psize: nat, kids: seq<Kid>, i: nat, d: nat)
    requires ValidPsize(psize) && Rebalancing(kids, i, d, psize)
    ensures DelHolds(Rebalance(psize, kids, i, d), d, psize, Flat(kids))
  {
    if Balanced(kids[i].sub, psize) {
      BalancedHolds(psize, kids, i, d);
    } else if Lends(kids[if i == 0 then 1 else i - 1].sub, kids[i].sub, psize) {
      MovingHolds(psize, kids, i, d);
    } else {
      MergingHolds(psize, kids, i, d);
    }
  }
}
