/**
 mdb_put on the tree: in-place replacement, insertion, page splits, and the
 root split.
 */
module TreePut {
  import opened Keys
  import opened PageFormat
  import opened Items
  import opened PageSplit
  import opened Tree
  import opened TreeSearch

  /** What an insertion makes of a page: one page, or two and the separator
      for the parent, or MDB_PAGE_FULL. */
  datatype Ins = Grew(t: Tree) | Halves(l: Tree, sep: Key, r: Tree) | Full

  // ---------------------------------------------------------------- pages

  /** The entry mdb_node_add makes: large data goes to overflow pages. */
  function NewEntry(psize: nat, key: Key, data: Bytes): (e: Entry)
    requires ValidPsize(psize) && ValidKey(key)
    ensures e.key == key && e.data == data && EntryOk(e, psize)
  {
    var pages := OvPages(|data|, psize);
    OvPagesLeast(|data|, pages, psize);
    Entry(key, data, if NODESIZE + |key| + |data| > NodeMax(psize) then pages else 0)
  }

  predicate EntriesOk(es: seq<Entry>, psize: nat)
    requires ValidPsize(psize)
  {
    forall i :: 0 <= i < |es| ==> EntryOk(es[i], psize)
  }

  lemma LeafSplittable(psize: nat, es: seq<Entry>, e: Entry)
    requires ValidPsize(psize) && EntriesOk(es, psize) && EntryOk(e, psize)
    requires Used(Leaf(es)) <= Pmax(psize) < Used(Leaf(es)) + LeafNode(e)
    ensures Splittable(psize, LeafSizes(es), LeafNode(e))
  {
    forall i | 0 <= i < |es| ensures EMPTYNODE <= LeafNode(es[i]) <= Pmax(psize) / 2 { HalfPageEntry(es[i], psize); }
    HalfPageEntry(e, psize);
    FewNodes(LeafSizes(es), Pmax(psize) / 2);
  }

  lemma KidsSplittable(psize: nat, kids: seq<Kid>, sep: Key)
    requires ValidPsize(psize) && |sep| <= MAXKEYSIZE
    requires forall i :: 0 <= i < |kids| ==> |kids[i].sep| <= MAXKEYSIZE
    requires Used(Branch(kids)) <= Pmax(psize) < Used(Branch(kids)) + BranchNode(sep)
    ensures Splittable(psize, KidSizes(kids), BranchNode(sep))
  {
    forall i | 0 <= i < |kids| ensures EMPTYNODE <= BranchNode(kids[i].sep) <= Pmax(psize) / 2 { HalfPageKid(kids[i].sep, psize); }
    HalfPageKid(sep, psize);
    FewNodes(KidSizes(kids), Pmax(psize) / 2);
  }

  lemma {:induction false} FewNodes(s: seq<nat>, half: nat)
    requires forall i :: 0 <= i < |s| ==> s[i] <= half
    ensures |s| <= 1 ==> Sum(s) <= half
  {
  }

  /** mdb_page_split of a leaf. */
  function SplitLeaf(psize: nat, es: seq<Entry>, i: nat, e: Entry): Ins
    requires ValidPsize(psize) && i <= |es| && 2 <= |es|
  {
    var s := SplitIndex(psize, LeafSizes(es), i, LeafNode(e), true);
    var all := Insert(es, i, e);
    if HalvesFit(psize, LeafSizes(es), i, LeafNode(e), true) then
      Halves(Leaf(all[..s]), all[s].key, Leaf(all[s..]))
    else Full
  }

  /** mdb_page_split of a branch: the right page's first key is dropped. */
  function SplitKids(psize: nat, kids: seq<Kid>, i: nat, kid: Kid): Ins
    requires ValidPsize(psize) && i <= |kids| && 2 <= |kids|
  {
    var s := SplitIndex(psize, KidSizes(kids), i, BranchNode(kid.sep), false);
    var all := Insert(kids, i, kid);
    if HalvesFit(psize, KidSizes(kids), i, BranchNode(kid.sep), false) then
      Halves(Branch(all[..s]), all[s].sep, Branch([Kid([], all[s].sub)] + all[s + 1..]))
    else Full
  }

  /** A node goes in if the page has room, else the page is split. */
  function AddEntry(psize: nat, es: seq<Entry>, i: nat, e: Entry): Ins
    requires ValidPsize(psize) && i <= |es| && EntriesOk(es, psize) && EntryOk(e, psize)
    requires Used(Leaf(es)) <= Pmax(psize)
  {
    if Used(Leaf(es)) + LeafNode(e) <= Pmax(psize) then Grew(Leaf(Insert(es, i, e)))
    else
      LeafSplittable(psize, es, e);
      SplitLeaf(psize, es, i, e)
  }

  function AddKid(psize: nat, kids: seq<Kid>, i: nat, kid: Kid): (r: Ins)
    requires ValidPsize(psize) && i <= |kids| && |kid.sep| <= MAXKEYSIZE
    requires forall i :: 0 <= i < |kids| ==> |kids[i].sep| <= MAXKEYSIZE
    requires Used(Branch(kids)) <= Pmax(psize)
  {
    if Used(Branch(kids)) + BranchNode(kid.sep) <= Pmax(psize) then Grew(Branch(Insert(kids, i, kid)))
    else
      KidsSplittable(psize, kids, kid.sep);
      SplitKids(psize, kids, i, kid)
  }

  // ---------------------------------------------------------------- put

  /** An entry is rewritten where it is if its overflow pages are large enough
      and writable (reuse says whether they are dirty in this transaction), or
      if it is in the node and the data has the same size. */
  predicate InPlace(psize: nat, was: Entry, data: Bytes, reuse: bool)
    requires ValidPsize(psize)
  {
    if was.ov > 0 then reuse && OvPages(|data|, psize) <= was.ov else |data| == |was.data|
  }

  function PutLeaf(psize: nat, es: seq<Entry>, key: Key, data: Bytes, reuse: bool): Ins
    requires ValidPsize(psize) && EntriesOk(es, psize) && ValidKey(key) && Used(Leaf(es)) <= Pmax(psize)
  {
    var i := LowerBound(es, key);
    if !Found(es, key) then AddEntry(psize, es, i, NewEntry(psize, key, data))
    else if InPlace(psize, es[i], data, reuse) then Grew(Leaf(es[i := Entry(key, data, es[i].ov)]))
    else
      RemovedUsed(es, i);
      AddEntry(psize, es[..i] + es[i + 1..], i, NewEntry(psize, key, data))
  }

  lemma RemovedUsed(es: seq<Entry>, i: nat)
    requires i < |es|
    ensures Used(Leaf(es[..i] + es[i + 1..])) + LeafNode(es[i]) == Used(Leaf(es))
  {
    var rest := es[..i] + es[i + 1..];
    assert LeafSizes(es) == Insert(LeafSizes(rest), i, LeafNode(es[i]));
    SumInsert(LeafSizes(rest), i, LeafNode(es[i]));
  }

  lemma SplitKey(psize: nat, es: seq<Entry>, key: Key, data: Bytes, reuse: bool)
    requires ValidPsize(psize) && EntriesOk(es, psize) && ValidKey(key) && Used(Leaf(es)) <= Pmax(psize)
    ensures var r := PutLeaf(psize, es, key, data, reuse); r.Halves? ==> ValidKey(r.sep)
  {
  }

  function PutTree(psize: nat, t: Tree, ghost d: nat, key: Key, data: Bytes, reuse: bool): (r: Ins)
    requires ValidPsize(psize) && WF(t, d, psize) && ValidKey(key)
    ensures r.Halves? ==> ValidKey(r.sep)
    decreases t
  {
    match t
    case Leaf(es) =>
      SplitKey(psize, es, key, data, reuse);
      PutLeaf(psize, es, key, data, reuse)
    case Branch(kids) =>
      var i := ChildIndex(kids, key);
      Raised(psize, kids, i, PutTree(psize, kids[i].sub, d - 1, key, data, reuse))
  }

  /** What a page becomes once its kid i has become x. */
  function Raised(psize: nat, kids: seq<Kid>, i: nat, x: Ins): (r: Ins)
    requires ValidPsize(psize) && i < |kids| && Fits(Branch(kids), psize) && SepKeys(kids) && (x.Halves? ==> ValidKey(x.sep))
    ensures r.Halves? ==> ValidKey(r.sep)
  {
    match x
    case Full => Full
    case Grew(sub) => Grew(Branch(kids[i := kids[i].(sub := sub)]))
    case Halves(l, sep, r) =>
      KidSet(psize, kids, i, l);
      AddKid(psize, kids[i := kids[i].(sub := l)], i + 1, Kid(sep, r))
  }

  lemma {:induction false} KidSet(psize: nat, kids: seq<Kid>, i: nat, l: Tree)
    requires ValidPsize(psize) && i < |kids| && Fits(Branch(kids), psize)
    ensures var kids' := kids[i := kids[i].(sub := l)];
      Used(Branch(kids')) <= Pmax(psize) && forall j :: 0 <= j < |kids'| ==> |kids'[j].sep| <= MAXKEYSIZE
  {
    assert KidSizes(kids[i := kids[i].(sub := l)]) == KidSizes(kids);
  }

  /** The entry a put leaves under its key, given the entry there before, if any. */
  function PutEntry(psize: nat, was: seq<Entry>, key: Key, data: Bytes, reuse: bool): Entry
    requires ValidPsize(psize) && ValidKey(key)
  {
    if was != [] && InPlace(psize, was[0], data, reuse) then Entry(key, data, was[0].ov)
    else NewEntry(psize, key, data)
  }

  /** How the data of a put is kept, in bytes.  Overflow pages that are writable
      and have room are kept, however many.  Otherwise the data is in the node
      exactly if two such nodes, each with its pointer, have room on a page, and
      else on the fewest overflow pages that hold the page header and the data. */
  predicate Stored(psize: nat, was: seq<Entry>, e: Entry, reuse: bool) {
    var n := |e.data|;
    if was != [] && was[0].ov > 0 && reuse && PAGEHDRSZ + n <= was[0].ov * psize then e.ov == was[0].ov
    else if 2 * (Even(NODESIZE + |e.key| + n) + 2) <= psize - PAGEHDRSZ then e.ov == 0
    else e.ov > 0 && (e.ov - 1) * psize < PAGEHDRSZ + n <= e.ov * psize
  }

  lemma InNodeIs(psize: nat, n: nat)
    requires ValidPsize(psize)
    ensures n <= NodeMax(psize) <==> 2 * (Even(n) + 2) <= psize - PAGEHDRSZ
  {
  }

  lemma NewEntryStored(psize: nat, key: Key, data: Bytes)
    requires ValidPsize(psize) && ValidKey(key)
    ensures Stored(psize, [], NewEntry(psize, key, data), false)
  {
    var ov := OvPages(|data|, psize);
    InNodeIs(psize, NODESIZE + |key| + |data|);
    OvPagesLeast(|data|, ov, psize);
    OvPagesLeast(|data|, ov - 1, psize);
  }

  lemma PutEntryStored(psize: nat, was: seq<Entry>, key: Key, data: Bytes, reuse: bool)
    requires ValidPsize(psize) && ValidKey(key) && (was != [] ==> was[0].key == key && EntryOk(was[0], psize))
    ensures Stored(psize, was, PutEntry(psize, was, key, data, reuse), reuse)
  {
    NewEntryStored(psize, key, data);
    if was != [] {
      OvPagesLeast(|data|, was[0].ov, psize);
      InNodeIs(psize, NODESIZE + |key| + |data|);
    }
  }
}
