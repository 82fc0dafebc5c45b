/**
 Compacting copy: every page of a snapshot is written once, in post-order, with
 new page numbers that leave no gaps.
 */
module Compact {
  import opened Keys
  import opened PageFormat

  // ---------------------------------------------------------------- snapshots

  /** Overflow data takes one page at least. */
  type PageCount = n: nat | 1 <= n witness 1

  /** A database as its pages are numbered: an item's data may be on overflow
      pages, or be a database of its own with its other MDB_db fields. */
  datatype PTree = PLeaf(pgno: int, items: seq<Item>) | PBranch(pgno: int, kids: seq<PKid>)
  datatype PKid = PKid(key: Bytes, sub: PTree)
  datatype Item =
    | Inline(key: Bytes, data: Bytes)
    | Big(key: Bytes, pgno: int, pages: PageCount, data: Bytes)
    | SubDb(key: Bytes, root: Root, stat: Bytes)
  datatype Root = Empty | At(t: PTree)

  /** What is written to the file: a page's number and contents, where other
      pages appear by number only. */
  datatype Out =
    | OutLeaf(pgno: int, nodes: seq<OutNode>)
    | OutBranch(pgno: int, refs: seq<(Bytes, int)>)
    | OutOverflow(pgno: int, pages: PageCount, data: Bytes)
  datatype OutNode =
    | OutInline(key: Bytes, data: Bytes)
    | OutBig(key: Bytes, pgno: int, size: int)
    | OutSub(key: Bytes, root: int, stat: Bytes)

  const P_INVALID := -1

  function RootPage(r: Root): int { if r.Empty? then P_INVALID else r.t.pgno }

  function Node(i: Item): OutNode {
    match i
    case Inline(k, d) => OutInline(k, d)
    case Big(k, p, n, d) => OutBig(k, p, |d|)
    case SubDb(k, r, s) => OutSub(k, RootPage(r), s)
  }

  function Nodes(items: seq<Item>): (r: seq<OutNode>)
    ensures |r| == |items|
  {
    seq(|items|, i requires 0 <= i < |items| => Node(items[i]))
  }

  function Refs(kids: seq<PKid>): (r: seq<(Bytes, int)>)
    ensures |r| == |kids|
  {
    seq(|kids|, i requires 0 <= i < |kids| => (kids[i].key, kids[i].sub.pgno))
  }

  // ---------------------------------------------------------------- the copy, recursively

  datatype Copied<X> = Copied(x: X, next: int, out: seq<Out>)

  function CopyTree(t: PTree, next: int): Copied<PTree>
    decreases t, 1
  {
    match t
    case PLeaf(_, items) => LeafDone(CopyItems(items, next))
    case PBranch(_, kids) => BranchDone(CopyKids(kids, next))
  }

  function LeafDone(c: Copied<seq<Item>>): Copied<PTree> {
    Copied(PLeaf(c.next, c.x), c.next + 1, c.out + [OutLeaf(c.next, Nodes(c.x))])
  }

  function BranchDone(c: Copied<seq<PKid>>): Copied<PTree> {
    Copied(PBranch(c.next, c.x), c.next + 1, c.out + [OutBranch(c.next, Refs(c.x))])
  }

  function CopyItem(i: Item, next: int): Copied<Item>
    decreases i, 0
  {
    match i
    case Inline(_, _) => Copied(i, next, [])
    case Big(k, _, n, d) => Copied(Big(k, next, n, d), next + n, [OutOverflow(next, n, d)])
    case SubDb(k, r, s) => var c := CopyRoot(r, next); Copied(SubDb(k, c.x, s), c.next, c.out)
  }

  function CopyRoot(r: Root, next: int): Copied<Root>
    decreases r, 2
  {
    match r
    case Empty => Copied(Empty, next, [])
    case At(t) => var c := CopyTree(t, next); Copied(At(c.x), c.next, c.out)
  }

  function CopyItems(items: seq<Item>, next: int): (r: Copied<seq<Item>>)
    ensures |r.x| == |items|
    decreases items, 0
  {
    if items == [] then Copied([], next, [])
    else
      var c := CopyItem(items[0], next);
      var d := CopyItems(items[1..], c.next);
      Copied([c.x] + d.x, d.next, c.out + d.out)
  }

  function CopyKids(kids: seq<PKid>, next: int): (r: Copied<seq<PKid>>)
    ensures |r.x| == |kids|
    decreases kids, 0
  {
    if kids == [] then Copied([], next, [])
    else
      var c := CopyTree(kids[0].sub, next);
      var d := CopyKids(kids[1..], c.next);
      Copied([PKid(kids[0].key, c.x)] + d.x, d.next, c.out + d.out)
  }

  // ---------------------------------------------------------------- what it means

  /** The same database with the page numbers forgotten: keys, data and shape. */
  function Strip(t: PTree): PTree
    decreases t, 0
  {
    match t
    case PLeaf(_, items) => PLeaf(0, StripItems(items))
    case PBranch(_, kids) => PBranch(0, StripKids(kids))
  }

  function StripItem(i: Item): Item
    decreases i, 0
  {
    match i
    case Inline(_, _) => i
    case Big(k, _, n, d) => Big(k, 0, n, d)
    case SubDb(k, r, s) => SubDb(k, StripRoot(r), s)
  }

  function StripRoot(r: Root): Root
    decreases r, 0
  {
    if r.Empty? then Empty else At(Strip(r.t))
  }

  function StripItems(items: seq<Item>): seq<Item>
    decreases items, 0
  {
    if items == [] then [] else [StripItem(items[0])] + StripItems(items[1..])
  }

  function StripKids(kids: seq<PKid>): seq<PKid>
    decreases kids, 0
  {
    if kids == [] then [] else [PKid(kids[0].key, Strip(kids[0].sub))] + StripKids(kids[1..])
  }

  /** The pages of a database, each after the pages it refers to. */
  function PagesOf(t: PTree): seq<Out>
    decreases t, 0
  {
    match t
    case PLeaf(p, items) => PagesOfItems(items) + [OutLeaf(p, Nodes(items))]
    case PBranch(p, kids) => PagesOfKids(kids) + [OutBranch(p, Refs(kids))]
  }

  function PagesOfItem(i: Item): seq<Out>
    decreases i, 0
  {
    match i
    case Inline(_, _) => []
    case Big(_, p, n, d) => [OutOverflow(p, n, d)]
    case SubDb(_, r, _) => PagesOfRoot(r)
  }

  function PagesOfRoot(r: Root): seq<Out>
    decreases r, 0
  {
    if r.Empty? then [] else PagesOf(r.t)
  }

  function PagesOfItems(items: seq<Item>): seq<Out>
    decreases items, 0
  {
    if items == [] then [] else PagesOfItem(items[0]) + PagesOfItems(items[1..])
  }

  function PagesOfKids(kids: seq<PKid>): seq<Out>
    decreases kids, 0
  {
    if kids == [] then [] else PagesOf(kids[0].sub) + PagesOfKids(kids[1..])
  }

  function Width(o: Out): nat { if o.OutOverflow? then o.pages else 1 }

  /** Pages of the file that a sequence of pages takes. */
  function Extent(out: seq<Out>): nat { if out == [] then 0 else Width(out[0]) + Extent(out[1..]) }

  /** Every page is written where its number says, the first at start. */
  predicate InPlace(out: seq<Out>, start: int) {
    out == [] || (out[0].pgno == start && InPlace(out[1..], start + Width(out[0])))
  }

  lemma {:induction false} ExtentConcat(a: seq<Out>, b: seq<Out>)
    ensures Extent(a + b) == Extent(a) + Extent(b)
  {
    if a == [] {
      assert a + b == b;
    } else {
      assert (a + b)[1..] == a[1..] + b;
      ExtentConcat(a[1..], b);
    }
  }

  lemma {:induction false} InPlaceConcat(a: seq<Out>, b: seq<Out>, start: int)
    requires InPlace(a, start) && InPlace(b, start + Extent(a))
    ensures InPlace(a + b, start)
  {
    if a == [] {
      assert a + b == b;
    } else {
      assert (a + b)[1..] == a[1..] + b;
      InPlaceConcat(a[1..], b, start + Width(a[0]));
    }
  }

  /** What a copy must be: every page in place, and as many as there are. */
  predicate Placed(out: seq<Out>, from: int, next: int) { InPlace(out, from) && next == from + Extent(out) }

  lemma PlacedConcat(a: seq<Out>, b: seq<Out>, from: int, mid: int, next: int)
    requires Placed(a, from, mid) && Placed(b, mid, next)
    ensures Placed(a + b, from, next)
  {
    InPlaceConcat(a, b, from);
    ExtentConcat(a, b);
  }

  lemma PlacedOne(o: Out, from: int)
    requires o.pgno == from
    ensures Placed([o], from, from + Width(o))
  {
    assert [o][1..] == [];
  }

  /** The copy has the same keys, data and shape; the pages written are exactly
      its pages; each is written at its own number, without gaps; and its root
      is the last of them. */
  lemma {:induction false} CopyTreeIs(t: PTree, next: int)
    ensures var c := CopyTree(t, next);
      Strip(c.x) == Strip(t) && c.out == PagesOf(c.x) && Placed(c.out, next, c.next) && c.x.pgno == c.next - 1
    decreases t, 1
  {
    match t
    case PLeaf(_, items) =>
      var c := CopyItems(items, next);
      CopyItemsIs(items, next);
      PlacedOne(OutLeaf(c.next, Nodes(c.x)), c.next);
      PlacedConcat(c.out, [OutLeaf(c.next, Nodes(c.x))], next, c.next, c.next + 1);
    case PBranch(_, kids) =>
      var c := CopyKids(kids, next);
      CopyKidsIs(kids, next);
      PlacedOne(OutBranch(c.next, Refs(c.x)), c.next);
      PlacedConcat(c.out, [OutBranch(c.next, Refs(c.x))], next, c.next, c.next + 1);
  }

  lemma {:induction false} CopyItemIs(i: Item, next: int)
    ensures var c := CopyItem(i, next);
      StripItem(c.x) == StripItem(i) && c.out == PagesOfItem(c.x) && Placed(c.out, next, c.next)
    decreases i, 0
  {
    match i
    case Inline(_, _) =>
    case Big(k, _, n, d) => PlacedOne(OutOverflow(next, n, d), next);
    case SubDb(k, r, s) => CopyRootIs(r, next);
  }

  lemma {:induction false} CopyRootIs(r: Root, next: int)
    ensures var c := CopyRoot(r, next);
      StripRoot(c.x) == StripRoot(r) && c.out == PagesOfRoot(c.x) && Placed(c.out, next, c.next)
    decreases r, 2
  {
    if r.At? { CopyTreeIs(r.t, next); }
  }

  lemma {:induction false} CopyItemsIs(items: seq<Item>, next: int)
    ensures var c := CopyItems(items, next);
      StripItems(c.x) == StripItems(items) && c.out == PagesOfItems(c.x) && Placed(c.out, next, c.next)
    decreases items, 0
  {
    if items != [] {
      var c := CopyItem(items[0], next);
      var d := CopyItems(items[1..], c.next);
      CopyItemIs(items[0], next);
      CopyItemsIs(items[1..], c.next);
      PlacedConcat(c.out, d.out, next, c.next, d.next);
      assert ([c.x] + d.x)[1..] == d.x;
    }
  }

  lemma {:induction false} CopyKidsIs(kids: seq<PKid>, next: int)
    ensures var c := CopyKids(kids, next);
      StripKids(c.x) == StripKids(kids) && c.out == PagesOfKids(c.x) && Placed(c.out, next, c.next)
    decreases kids, 0
  {
    if kids != [] {
      var c := CopyTree(kids[0].sub, next);
      var d := CopyKids(kids[1..], c.next);
      CopyTreeIs(kids[0].sub, next);
      CopyKidsIs(kids[1..], c.next);
      PlacedConcat(c.out, d.out, next, c.next, d.next);
      assert ([PKid(kids[0].key, c.x)] + d.x)[1..] == d.x;
    }
  }

  // ---------------------------------------------------------------- page numbers

  predicate Covers(o: Out, p: int) { o.pgno <= p < o.pgno + Width(o) }

  /** The numbers from start on are each taken by exactly one page. */
  lemma {:induction false} EachNumberOnce(out: seq<Out>, start: int, p: int)
    requires InPlace(out, start)
    ensures start <= p < start + Extent(out) <==> exists i :: 0 <= i < |out| && Covers(out[i], p)
    ensures forall i, j :: 0 <= i < j < |out| ==> !(Covers(out[i], p) && Covers(out[j], p))
  {
    if out != [] {
      var rest, w := out[1..], Width(out[0]);
      EachNumberOnce(rest, start + w, p);
      forall i | 1 <= i < |out| ensures out[i] == rest[i - 1] {}
      if exists i :: 0 <= i < |out| && Covers(out[i], p) {
        var i :| 0 <= i < |out| && Covers(out[i], p);
        assert i > 0 ==> Covers(rest[i - 1], p);
      }
      if start <= p < start + w {
        assert Covers(out[0], p);
      } else if start + w <= p < start + Extent(out) {
        var i :| 0 <= i < |rest| && Covers(rest[i], p);
        assert Covers(out[i + 1], p);
      }
      forall i, j | 0 <= i < j < |out| ensures !(Covers(out[i], p) && Covers(out[j], p)) {
        assert Covers(out[j], p) ==> Covers(rest[j - 1], p);
        assert i > 0 ==> out[i] == rest[i - 1];
      }
    }
  }

  /** Copying keeps the number of pages. */
  lemma {:induction false} SameExtent(t: PTree, u: PTree)
    requires Strip(t) == Strip(u)
    ensures Extent(PagesOf(t)) == Extent(PagesOf(u))
  {
    StripExtent(t);
    StripExtent(u);
  }

  lemma {:induction false} StripExtent(t: PTree)
    ensures Extent(PagesOf(t)) == Extent(PagesOf(Strip(t)))
    decreases t, 1
  {
    match t
    case PLeaf(p, items) =>
      StripItemsExtent(items);
      ExtentConcat(PagesOfItems(items), [OutLeaf(p, Nodes(items))]);
      ExtentConcat(PagesOfItems(StripItems(items)), [OutLeaf(0, Nodes(StripItems(items)))]);
      ExtentOne(OutLeaf(p, Nodes(items)));
      ExtentOne(OutLeaf(0, Nodes(StripItems(items))));
    case PBranch(p, kids) =>
      StripKidsExtent(kids);
      ExtentConcat(PagesOfKids(kids), [OutBranch(p, Refs(kids))]);
      ExtentConcat(PagesOfKids(StripKids(kids)), [OutBranch(0, Refs(StripKids(kids)))]);
      ExtentOne(OutBranch(p, Refs(kids)));
      ExtentOne(OutBranch(0, Refs(StripKids(kids))));
  }

  lemma ExtentOne(o: Out)
    ensures Extent([o]) == Width(o)
  {
    assert [o][1..] == [];
  }

  lemma {:induction false} StripItemsExtent(items: seq<Item>)
    ensures Extent(PagesOfItems(items)) == Extent(PagesOfItems(StripItems(items)))
    decreases items, 0
  {
    if items != [] {
      var i, j := items[0], StripItem(items[0]);
      assert StripItems(items)[0] == j && StripItems(items)[1..] == StripItems(items[1..]);
      StripItemsExtent(items[1..]);
      StripItemExtent(i);
      ExtentConcat(PagesOfItem(i), PagesOfItems(items[1..]));
      ExtentConcat(PagesOfItem(j), PagesOfItems(StripItems(items[1..])));
    }
  }

  lemma {:induction false} StripItemExtent(i: Item)
    ensures Extent(PagesOfItem(i)) == Extent(PagesOfItem(StripItem(i)))
    decreases i, 0
  {
    match i
    case Inline(_, _) =>
    case Big(_, p, n, d) =>
      ExtentOne(OutOverflow(p, n, d));
      ExtentOne(OutOverflow(0, n, d));
    case SubDb(_, r, _) => if r.At? { StripExtent(r.t); }
  }

  lemma {:induction false} StripKidsExtent(kids: seq<PKid>)
    ensures Extent(PagesOfKids(kids)) == Extent(PagesOfKids(StripKids(kids)))
    decreases kids, 0
  {
    if kids != [] {
      var rest := StripKids(kids[1..]);
      assert StripKids(kids)[0].sub == Strip(kids[0].sub) && StripKids(kids)[1..] == rest;
      StripExtent(kids[0].sub);
      StripKidsExtent(kids[1..]);
      ExtentConcat(PagesOf(kids[0].sub), PagesOfKids(kids[1..]));
      ExtentConcat(PagesOf(Strip(kids[0].sub)), PagesOfKids(rest));
    }
  }

  // ---------------------------------------------------------------- the whole copy

  /** The root mdb_env_copyfd1 writes into the meta page before it starts: the
      last page there will be, if the snapshot leaks no pages. */
  function PredictedRoot(nextPgno: int, freeCount: int): int { nextPgno - 1 - freeCount }

  /** The copy reports MDB_INCOMPATIBLE exactly if the pages of the main
      database, the free ones, and the freeDB's own do not add up to the file. */
  lemma {:induction false} RootAsPredicted(t: PTree, nextPgno: int, freeCount: int)
    ensures CopyTree(t, NUM_METAS).x.pgno == PredictedRoot(nextPgno, freeCount) <==>
      nextPgno == NUM_METAS + Extent(PagesOf(t)) + freeCount
    ensures CopyTree(t, NUM_METAS).next == NUM_METAS + Extent(PagesOf(t))
  {
    CopyTreeIs(t, NUM_METAS);
    SameExtent(t, CopyTree(t, NUM_METAS).x);
  }
}
