/**
 Reading a copied file back: from the number of its root, each page is looked
 up by its number and each number on it is followed in turn.
 */
module CompactRead {
  import opened Keys
  import opened PageFormat
  import opened Compact
  import opened Wrappers

  /** The page of the file that has a number. */
  function PageAt(out: seq<Out>, p: int): Option<Out> {
    if out == [] then None else if out[0].pgno == p then Some(out[0]) else PageAt(out[1..], p)
  }

  /** The database at page p.  A page refers to earlier ones only. */
  function ReadTree(out: seq<Out>, p: int): Option<PTree>
    decreases if p < 0 then 0 else p, 2
  {
    match PageAt(out, p)
    case None => None
    case Some(OutOverflow(_, _, _)) => None
    case Some(OutLeaf(_, nodes)) =>
      if p < 0 then None else
        var items := ReadNodes(out, nodes, p);
        if items.None? then None else Some(PLeaf(p, items.value))
    case Some(OutBranch(_, refs)) =>
      if p < 0 then None else
        var kids := ReadRefs(out, refs, p);
        if kids.None? then None else Some(PBranch(p, kids.value))
  }

  function ReadRefs(out: seq<Out>, refs: seq<(Bytes, int)>, p: nat): Option<seq<PKid>>
    decreases p, 1, |refs|
  {
    if refs == [] then Some([])
    else if !(0 <= refs[0].1 < p) then None
    else
      var sub, rest := ReadTree(out, refs[0].1), ReadRefs(out, refs[1..], p);
      if sub.None? || rest.None? then None else Some([PKid(refs[0].0, sub.value)] + rest.value)
  }

  function ReadNodes(out: seq<Out>, nodes: seq<OutNode>, p: nat): Option<seq<Item>>
    decreases p, 1, |nodes|
  {
    if nodes == [] then Some([])
    else
      var item, rest := ReadNode(out, nodes[0], p), ReadNodes(out, nodes[1..], p);
      if item.None? || rest.None? then None else Some([item.value] + rest.value)
  }

  /** An item: its data is in the node, on the overflow pages from a number on,
      or a database whose root has a number. */
  function ReadNode(out: seq<Out>, n: OutNode, p: nat): Option<Item>
    decreases p, 0, 0
  {
    match n
    case OutInline(k, d) => Some(Inline(k, d))
    case OutBig(k, q, size) =>
      (match PageAt(out, q)
       case Some(OutOverflow(_, pages, d)) => if |d| == size then Some(Big(k, q, pages, d)) else None
       case _ => None)
    case OutSub(k, q, stat) =>
      if q == P_INVALID then Some(SubDb(k, Empty, stat))
      else if !(0 <= q < p) then None
      else
        var t := ReadTree(out, q);
        if t.None? then None else Some(SubDb(k, At(t.value), stat))
  }

  function ReadRoot(out: seq<Out>, p: int): Option<Root> {
    if p == P_INVALID then Some(Empty)
    else
      var t := ReadTree(out, p);
      if t.None? then None else Some(At(t.value))
  }

  // ---------------------------------------------------------------- every page is found

  lemma {:induction false} AtOrAfter(out: seq<Out>, start: int, o: Out)
    requires InPlace(out, start) && o in out
    ensures o.pgno >= start
  {
    if o != out[0] {
      assert o in out[1..];
      AtOrAfter(out[1..], start + Width(out[0]), o);
    }
  }

  lemma {:induction false} Found(out: seq<Out>, start: int, o: Out)
    requires InPlace(out, start) && o in out
    ensures PageAt(out, o.pgno) == Some(o)
  {
    if o != out[0] {
      assert o in out[1..];
      AtOrAfter(out[1..], start + Width(out[0]), o);
      Found(out[1..], start + Width(out[0]), o);
    }
  }

  predicate Holds(out: seq<Out>, pages: seq<Out>) { forall o :: o in pages ==> PageAt(out, o.pgno) == Some(o) }

  lemma {:induction false} AllFound(out: seq<Out>, start: int)
    requires InPlace(out, start)
    ensures Holds(out, out)
  {
    forall o | o in out ensures PageAt(out, o.pgno) == Some(o) { Found(out, start, o); }
  }

  lemma HoldsParts(out: seq<Out>, a: seq<Out>, b: seq<Out>)
    requires Holds(out, a + b)
    ensures Holds(out, a) && Holds(out, b)
  {
    assert forall o :: o in a || o in b ==> o in a + b;
  }

  // ---------------------------------------------------------------- pages refer to earlier ones

  /** Every number under a page is not negative and below its own. */
  predicate Falls(t: PTree)
    decreases t, 0
  {
    match t
    case PLeaf(p, items) => 0 <= p && ItemsFall(items, p)
    case PBranch(p, kids) => 0 <= p && KidsFall(kids, p)
  }

  predicate KidsFall(kids: seq<PKid>, p: int)
    decreases kids, 0
  {
    kids == [] || (0 <= kids[0].sub.pgno < p && Falls(kids[0].sub) && KidsFall(kids[1..], p))
  }

  predicate ItemFalls(i: Item, p: int)
    decreases i, 0
  {
    i.SubDb? && i.root.At? ==> 0 <= i.root.t.pgno < p && Falls(i.root.t)
  }

  predicate ItemsFall(items: seq<Item>, p: int)
    decreases items, 0
  {
    items == [] || (ItemFalls(items[0], p) && ItemsFall(items[1..], p))
  }

  lemma {:induction false} KidsFallMore(kids: seq<PKid>, p: int, q: int)
    requires KidsFall(kids, p) && p <= q
    ensures KidsFall(kids, q)
  {
    if kids != [] { KidsFallMore(kids[1..], p, q); }
  }

  lemma {:induction false} ItemsFallMore(items: seq<Item>, p: int, q: int)
    requires ItemsFall(items, p) && p <= q
    ensures ItemsFall(items, q)
  {
    if items != [] { ItemsFallMore(items[1..], p, q); }
  }

  /** The numbers a copy gives out lie between those before and after it. */
  lemma {:induction false} CopyFalls(t: PTree, next: int)
    requires 0 <= next
    ensures var c := CopyTree(t, next); next <= c.x.pgno < c.next && Falls(c.x)
    decreases t, 1
  {
    match t
    case PLeaf(_, items) => CopyItemsFall(items, next);
    case PBranch(_, kids) => CopyKidsFall(kids, next);
  }

  lemma {:induction false} CopyItemFalls(i: Item, next: int)
    requires 0 <= next
    ensures var c := CopyItem(i, next); next <= c.next && ItemFalls(c.x, c.next)
    decreases i, 0
  {
    if i.SubDb? && i.root.At? { CopyFalls(i.root.t, next); }
  }

  lemma {:induction false} CopyItemsFall(items: seq<Item>, next: int)
    requires 0 <= next
    ensures var c := CopyItems(items, next); next <= c.next && ItemsFall(c.x, c.next)
    decreases items, 0
  {
    if items != [] {
      var c := CopyItem(items[0], next);
      var d := CopyItems(items[1..], c.next);
      CopyItemFalls(items[0], next);
      CopyItemsFall(items[1..], c.next);
      assert ([c.x] + d.x)[1..] == d.x;
    }
  }

  lemma {:induction false} CopyKidsFall(kids: seq<PKid>, next: int)
    requires 0 <= next
    ensures var c := CopyKids(kids, next); next <= c.next && KidsFall(c.x, c.next)
    decreases kids, 0
  {
    if kids != [] {
      var c := CopyTree(kids[0].sub, next);
      var d := CopyKids(kids[1..], c.next);
      CopyFalls(kids[0].sub, next);
      CopyKidsFall(kids[1..], c.next);
      assert ([PKid(kids[0].key, c.x)] + d.x)[1..] == d.x;
    }
  }

  // ---------------------------------------------------------------- reading gives the database back

  /** A file that holds the pages of a database reads as that database. */
  lemma {:induction false} ReadsBack(out: seq<Out>, t: PTree)
    requires Holds(out, PagesOf(t)) && Falls(t)
    ensures ReadTree(out, t.pgno) == Some(t)
    decreases t, 1
  {
    match t
    case PLeaf(p, items) =>
      HoldsParts(out, PagesOfItems(items), [OutLeaf(p, Nodes(items))]);
      assert PageAt(out, p) == Some(OutLeaf(p, Nodes(items))) by { assert OutLeaf(p, Nodes(items)) in [OutLeaf(p, Nodes(items))]; }
      ItemsReadBack(out, items, p);
    case PBranch(p, kids) =>
      HoldsParts(out, PagesOfKids(kids), [OutBranch(p, Refs(kids))]);
      assert PageAt(out, p) == Some(OutBranch(p, Refs(kids))) by { assert OutBranch(p, Refs(kids)) in [OutBranch(p, Refs(kids))]; }
      KidsReadBack(out, kids, p);
  }

  lemma {:induction false} ItemReadsBack(out: seq<Out>, i: Item, p: nat)
    requires Holds(out, PagesOfItem(i)) && ItemFalls(i, p)
    ensures ReadNode(out, Node(i), p) == Some(i)
    decreases i, 0
  {
    match i
    case Inline(_, _) =>
    case Big(_, q, n, d) => assert OutOverflow(q, n, d) in PagesOfItem(i);
    case SubDb(_, r, _) =>
      if r.At? {
        assert PagesOfItem(i) == PagesOfRoot(r) == PagesOf(r.t);
        ReadsBack(out, r.t);
      }
  }

  lemma {:induction false} ItemsReadBack(out: seq<Out>, items: seq<Item>, p: nat)
    requires Holds(out, PagesOfItems(items)) && ItemsFall(items, p)
    ensures ReadNodes(out, Nodes(items), p) == Some(items)
    decreases items, 0
  {
    if items != [] {
      HoldsParts(out, PagesOfItem(items[0]), PagesOfItems(items[1..]));
      ItemReadsBack(out, items[0], p);
      ItemsReadBack(out, items[1..], p);
      assert Nodes(items)[1..] == Nodes(items[1..]);
      assert [items[0]] + items[1..] == items;
    }
  }

  lemma {:induction false} KidsReadBack(out: seq<Out>, kids: seq<PKid>, p: nat)
    requires Holds(out, PagesOfKids(kids)) && KidsFall(kids, p)
    ensures ReadRefs(out, Refs(kids), p) == Some(kids)
    decreases kids, 0
  {
    if kids != [] {
      HoldsParts(out, PagesOf(kids[0].sub), PagesOfKids(kids[1..]));
      ReadsBack(out, kids[0].sub);
      KidsReadBack(out, kids[1..], p);
      assert Refs(kids)[1..] == Refs(kids[1..]);
      assert [kids[0]] + kids[1..] == kids;
    }
  }

  /** The file of a copy, read from the number of its root, is the source
      database: the same keys, data and shape. */
  lemma {:induction false} CopyReadsBack(r: Root)
    ensures var c := CopyRoot(r, NUM_METAS);
      var back := ReadRoot(c.out, RootPage(c.x));
      back == Some(c.x) && StripRoot(back.value) == StripRoot(r)
  {
    var c := CopyRoot(r, NUM_METAS);
    CopyRootIs(r, NUM_METAS);
    if r.At? {
      CopyFalls(r.t, NUM_METAS);
      AllFound(c.out, NUM_METAS);
      ReadsBack(c.out, c.x.t);
    }
  }
}
