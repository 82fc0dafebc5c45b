/**
 The pages of the tree model and the pages as bytes: a byte page that holds a
 page's nodes has exactly the room that the tree model counts, so adding a node
 to the bytes fails exactly where the tree model splits.
 */
module TreeBytes {
  import opened Keys
  import opened PageFormat
  import Items
  import PageSplit
  import Tree
  import TreeDel
  import TreePut
  import opened SlottedPage
  import opened PageOps

  type Entry = Items.Entry
  type Kid = Tree.Kid

  // ---------------------------------------------------------------- leaf pages

  /** The node of an entry; the data of one with overflow pages is elsewhere. */
  predicate Encodes(n: Node, e: Entry) {
    && NodeOk(n, true) && n.key == e.key && DataSize(n) == |e.data|
    && (BigData(n) <==> e.ov > 0) && (e.ov == 0 ==> n.rest == e.data)
  }

  predicate EncodeAll(ns: seq<Node>, es: seq<Entry>) {
    |ns| == |es| && forall i :: 0 <= i < |ns| ==> Encodes(ns[i], es[i])
  }

  /** mdb_leaf_size is the size of the node written, and its pointer. */
  lemma EntrySize(n: Node, e: Entry)
    requires Encodes(n, e)
    ensures Size(n) + 2 == Tree.LeafNode(e)
  {
  }

  lemma {:induction false} LeafBytes(slots: seq<Slot>, es: seq<Entry>)
    requires EncodeAll(NodesOf(slots), es)
    ensures Total(slots) + 2 * |slots| == Tree.Used(Tree.Leaf(es))
  {
    var sizes := Tree.LeafSizes(es);
    if slots != [] {
      EntrySize(NodesOf(slots)[0], es[0]);
      assert NodesOf(slots[1..]) == NodesOf(slots)[1..];
      LeafBytes(slots[1..], es[1..]);
      assert sizes[1..] == Tree.LeafSizes(es[1..]);
    }
  }

  /** The room on a leaf page. */
  lemma LeafRoom(p: Page, es: seq<Entry>, psize: nat)
    requires p.Valid() && EncodeAll(p.Nodes(), es)
    requires PageSplit.ValidPsize(psize) && psize == p.buf.Length
    ensures p.SizeLeft() == PageSplit.Pmax(psize) - Tree.Used(Tree.Leaf(es))
  {
    LeafBytes(p.slots, es);
  }

  lemma NewNode(psize: nat, key: Key, data: Bytes, ovPage: Bytes)
    requires PageSplit.ValidPsize(psize) && ValidKey(key) && |data| < 0x1_0000_0000 && |ovPage| == 8
    ensures Encodes(LeafNode(key, data, |data|, 0, PageSplit.NodeMax(psize), ovPage), TreePut.NewEntry(psize, key, data))
  {
  }

  lemma InsertEncoded(ns: seq<Node>, es: seq<Entry>, x: nat, n: Node, e: Entry)
    requires EncodeAll(ns, es) && x <= |es| && Encodes(n, e)
    ensures EncodeAll(Insert(ns, x, n), Insert(es, x, e))
  {
    var r := Insert(es, x, e);
    forall i | 0 <= i < |r| ensures Encodes(Insert(ns, x, n)[i], r[i]) {
    }
  }

  /** mdb_node_add on the bytes of a leaf does what the tree model says: it fails
      exactly when the entry does not fit, and otherwise inserts it. */
  method AddEntryNode(p: Page, x: nat, key: Key, data: Bytes, ovPage: Bytes, ghost es: seq<Entry>) returns (rc: Rc)
    requires p.Valid() && p.leaf && EncodeAll(p.Nodes(), es) && x <= |es|
    requires PageSplit.ValidPsize(p.buf.Length) && ValidKey(key) && |data| < 0x1_0000_0000 && |ovPage| == 8
    modifies p`lower, p`upper, p`slots, p.buf
    ensures p.Valid()
    ensures var psize, e := p.buf.Length, TreePut.NewEntry(p.buf.Length, key, data);
            if Tree.Used(Tree.Leaf(es)) + Tree.LeafNode(e) > PageSplit.Pmax(psize)
            then rc == PageFull && EncodeAll(p.Nodes(), es)
            else rc == Success && EncodeAll(p.Nodes(), Insert(es, x, e))
  {
    var psize := p.buf.Length;
    var nodemax := PageSplit.NodeMax(psize);
    ghost var n, e := LeafNode(key, data, |data|, 0, nodemax, ovPage), TreePut.NewEntry(psize, key, data);
    NewNode(psize, key, data, ovPage);
    EntrySize(n, e);
    LeafRoom(p, es, psize);
    InsertEncoded(p.Nodes(), es, x, n, e);
    rc := p.NodeAddLeaf(x, key, data, |data|, 0, nodemax, ovPage);
  }

  lemma DeleteEncoded(ns: seq<Node>, es: seq<Entry>, x: nat)
    requires EncodeAll(ns, es) && x < |es|
    ensures EncodeAll(Without(ns, x), es[..x] + es[x + 1..])
  {
    var r := es[..x] + es[x + 1..];
    forall i | 0 <= i < |r| ensures Encodes(Without(ns, x)[i], r[i]) {
      assert r[i] == es[if i < x then i else i + 1];
    }
  }

  /** mdb_node_del on the bytes of a leaf removes the entry. */
  method DelEntryNode(p: Page, x: nat, ghost es: seq<Entry>)
    requires p.Valid() && p.leaf && EncodeAll(p.Nodes(), es) && x < |es|
    modifies p`lower, p`upper, p`slots, p.buf
    ensures p.Valid() && EncodeAll(p.Nodes(), es[..x] + es[x + 1..])
  {
    DeleteEncoded(p.Nodes(), es, x);
    p.NodeDel(x);
  }

  // ---------------------------------------------------------------- branch pages

  predicate EncodeKids(ns: seq<Node>, kids: seq<Kid>) {
    |ns| == |kids| && forall i :: 0 <= i < |ns| ==> NodeOk(ns[i], false) && ns[i].key == kids[i].sep
  }

  lemma {:induction false} BranchBytes(slots: seq<Slot>, kids: seq<Kid>)
    requires EncodeKids(NodesOf(slots), kids)
    ensures Total(slots) + 2 * |slots| == Tree.Used(Tree.Branch(kids))
  {
    var sizes := Tree.KidSizes(kids);
    if slots != [] {
      var n := NodesOf(slots)[0];
      assert Size(n) + 2 == Tree.BranchNode(kids[0].sep);
      assert NodesOf(slots[1..]) == NodesOf(slots)[1..];
      BranchBytes(slots[1..], kids[1..]);
      assert sizes[1..] == Tree.KidSizes(kids[1..]);
    }
  }

  lemma BranchRoom(p: Page, kids: seq<Kid>, psize: nat)
    requires p.Valid() && EncodeKids(p.Nodes(), kids)
    requires PageSplit.ValidPsize(psize) && psize == p.buf.Length
    ensures p.SizeLeft() == PageSplit.Pmax(psize) - Tree.Used(Tree.Branch(kids))
  {
    BranchBytes(p.slots, kids);
  }

  lemma InsertKid(ns: seq<Node>, kids: seq<Kid>, x: nat, n: Node, kid: Kid)
    requires EncodeKids(ns, kids) && x <= |kids| && NodeOk(n, false) && n.key == kid.sep
    ensures EncodeKids(Insert(ns, x, n), Insert(kids, x, kid))
  {
    var r := Insert(kids, x, kid);
    forall i | 0 <= i < |r| ensures NodeOk(Insert(ns, x, n)[i], false) && Insert(ns, x, n)[i].key == r[i].sep {
    }
  }

  /** mdb_node_add on the bytes of a branch. */
  method AddKidNode(p: Page, x: nat, pgno: int, kid: Kid, ghost kids: seq<Kid>) returns (rc: Rc)
    requires p.Valid() && !p.leaf && EncodeKids(p.Nodes(), kids) && x <= |kids|
    requires PageSplit.ValidPsize(p.buf.Length) && |kid.sep| <= MAXKEYSIZE && 0 <= pgno < 0x1_0000_0000_0000
    modifies p`lower, p`upper, p`slots, p.buf
    ensures p.Valid()
    ensures if Tree.Used(Tree.Branch(kids)) + Tree.BranchNode(kid.sep) > PageSplit.Pmax(p.buf.Length)
            then rc == PageFull && EncodeKids(p.Nodes(), kids)
            else rc == Success && EncodeKids(p.Nodes(), Insert(kids, x, kid))
  {
    BranchRoom(p, kids, p.buf.Length);
    KidNodeSize(kid.sep, pgno);
    InsertKid(p.Nodes(), kids, x, BranchNode(kid.sep, pgno), kid);
    rc := p.NodeAddBranch(x, kid.sep, pgno);
  }

  lemma RekeyKid(ns: seq<Node>, kids: seq<Kid>, x: nat, key: Key)
    requires EncodeKids(ns, kids) && x < |kids| && Word(|key|)
    ensures EncodeKids(ns[x := ns[x].(key := key)], kids[x := Tree.Kid(key, kids[x].sub)])
  {
  }

  lemma KeyDelta(key: Key, was: Key)
    ensures Tree.BranchNode(key) - Tree.BranchNode(was) == Even(|key|) as int - Even(|was|) as int
  {
  }

  lemma KidNodeSize(key: Key, pgno: int)
    requires 0 <= pgno < 0x1_0000_0000_0000
    ensures Size(BranchNode(key, pgno)) + 2 == Tree.BranchNode(key)
  {
  }

  /** The test of mdb_update_key is the test of the tree model. */
  lemma KeyFits(kids: seq<Kid>, x: nat, key: Key, left: nat, pmax: nat)
    requires x < |kids| && left == pmax - Tree.Used(Tree.Branch(kids))
    ensures var delta := Even(|key|) as int - Even(|kids[x].sep|) as int;
            (delta > 0 && left < delta) <==>
            Tree.Used(Tree.Branch(kids[..x] + kids[x + 1..])) + Tree.BranchNode(key) > pmax
  {
    KeyDelta(key, kids[x].sep);
    TreeDel.RemovedKidUsed(kids, x);
  }

  /** mdb_update_key on the bytes: it falls back to deletion and split exactly
      where the tree model does. */
  method UpdateKidNode(p: Page, x: nat, key: Key, ghost kids: seq<Kid>) returns (ok: bool)
    requires p.Valid() && !p.leaf && EncodeKids(p.Nodes(), kids) && x < |kids|
    requires PageSplit.ValidPsize(p.buf.Length) && |key| <= MAXKEYSIZE
    modifies p`lower, p`upper, p`slots, p.buf
    ensures p.Valid()
    ensures ok <==> Tree.Used(Tree.Branch(kids[..x] + kids[x + 1..])) + Tree.BranchNode(key) <= PageSplit.Pmax(p.buf.Length)
    ensures EncodeKids(p.Nodes(), if ok then kids[x := Tree.Kid(key, kids[x].sub)] else kids)
  {
    BranchRoom(p, kids, p.buf.Length);
    KeyFits(kids, x, key, p.SizeLeft(), PageSplit.Pmax(p.buf.Length));
    RekeyKid(p.Nodes(), kids, x, key);
    ok := p.UpdateKey(x, key);
  }
}
