/**
 The B+tree: its pages, its invariant, and search.

 A leaf page is the sequence of its entries, a branch page the sequence of its
 (separator, child) nodes; the separator of node 0 is the empty key.
 */
module Tree {
  import opened Keys
  import opened PageFormat
  import opened Items
  import opened PageSplit

  datatype Kid = Kid(sep: Key, sub: Tree)
  datatype Tree = Leaf(es: seq<Entry>) | Branch(kids: seq<Kid>)

  // ---------------------------------------------------------------- contents

  /** All entries in order. */
  function All(t: Tree): seq<Entry>
    decreases t
  {
    match t
    case Leaf(es) => es
    case Branch(kids) => Flat(kids)
  }

  function Flat(kids: seq<Kid>): seq<Entry>
    decreases kids
  {
    if kids == [] then [] else All(kids[0].sub) + Flat(kids[1..])
  }

  lemma {:induction false} FlatConcat(a: seq<Kid>, b: seq<Kid>)
    ensures Flat(a + b) == Flat(a) + Flat(b)
  {
    if a == [] {
      assert a + b == b;
    } else {
      assert (a + b)[1..] == a[1..] + b;
      FlatConcat(a[1..], b);
    }
  }

  lemma FlatOne(k: Kid)
    ensures Flat([k]) == All(k.sub)
  {
    assert [k][1..] == [];
  }

  lemma FlatTwo(k: Kid, l: Kid)
    ensures Flat([k, l]) == All(k.sub) + All(l.sub)
  {
    assert [k, l] == [k] + [l];
    FlatConcat([k], [l]);
    FlatOne(k);
    FlatOne(l);
  }

  lemma {:induction false} FlatAt(kids: seq<Kid>, i: nat)
    requires i < |kids|
    ensures Flat(kids) == Flat(kids[..i]) + All(kids[i].sub) + Flat(kids[i + 1..])
    ensures Flat(kids[i..]) == All(kids[i].sub) + Flat(kids[i + 1..])
    ensures Flat(kids[..i + 1]) == Flat(kids[..i]) + All(kids[i].sub)
  {
    FlatFront(kids, i);
    FlatBack(kids, i);
    FlatCut(kids, i + 1);
  }

  lemma {:induction false} FlatCut(kids: seq<Kid>, i: nat)
    requires i <= |kids|
    ensures Flat(kids) == Flat(kids[..i]) + Flat(kids[i..])
  {
    assert kids == kids[..i] + kids[i..];
    FlatConcat(kids[..i], kids[i..]);
  }

  lemma FlatBack(kids: seq<Kid>, i: nat)
    requires i < |kids|
    ensures Flat(kids[i..]) == All(kids[i].sub) + Flat(kids[i + 1..])
  {
    assert kids[i..][1..] == kids[i + 1..];
  }

  lemma FlatFront(kids: seq<Kid>, i: nat)
    requires i < |kids|
    ensures Flat(kids[..i + 1]) == Flat(kids[..i]) + All(kids[i].sub)
  {
    assert kids[..i + 1] == kids[..i] + [kids[i]];
    FlatConcat(kids[..i], [kids[i]]);
    FlatOne(kids[i]);
  }

  // ---------------------------------------------------------------- invariant

  /** Separator i is above everything left of it and not above anything from child i on. */
  predicate Separates(kids: seq<Kid>, i: nat)
    requires 1 <= i < |kids|
  {
    Below(All(kids[i - 1].sub), kids[i].sep) && NotBelow(All(kids[i].sub), kids[i].sep)
  }

  predicate Ordered(t: Tree) {
    match t
    case Leaf(es) => Sorted(es)
    case Branch(kids) => KidsOrdered(kids) && forall i :: 0 <= i < |kids| ==> Ordered(kids[i].sub)
  }

  predicate KidsOrdered(kids: seq<Kid>) {
    forall i {:trigger Separates(kids, i)} :: 1 <= i < |kids| ==> Separates(kids, i)
  }

  /** Uniform depth d, no empty leaf, at least two children per branch. */
  predicate Solid(t: Tree, d: nat) {
    match t
    case Leaf(es) => d == 1 && es != []
    case Branch(kids) => d > 1 && 2 <= |kids| && SepKeys(kids) && forall i :: 0 <= i < |kids| ==> Solid(kids[i].sub, d - 1)
  }

  predicate SepKeys(kids: seq<Kid>) {
    (forall i :: 0 <= i < |kids| ==> if i == 0 then kids[i].sep == [] else ValidKey(kids[i].sep))
  }

  /** Size of the node of an entry with its pointer (mdb_leaf_size). */
  function LeafNode(e: Entry): nat {
    Even(NODESIZE + |e.key| + (if e.ov > 0 then 8 else |e.data|)) + 2
  }

  /** Size of a branch node with its pointer (mdb_branch_size). */
  function BranchNode(k: Key): nat { Even(NODESIZE + |k|) + 2 }

  function LeafSizes(es: seq<Entry>): (s: seq<nat>)
    ensures |s| == |es|
  {
    seq(|es|, i requires 0 <= i < |es| => LeafNode(es[i]))
  }

  function KidSizes(kids: seq<Kid>): (s: seq<nat>)
    ensures |s| == |kids|
  {
    seq(|kids|, i requires 0 <= i < |kids| => BranchNode(kids[i].sep))
  }

  /** Bytes used on a page, besides its header. */
  function Used(t: Tree): nat {
    match t
    case Leaf(es) => Sum(LeafSizes(es))
    case Branch(kids) => Sum(KidSizes(kids))
  }

  function OvPages(size: nat, psize: nat): nat
    requires ValidPsize(psize)
  {
    DivNat(PAGEHDRSZ - 1 + size, psize);
    (PAGEHDRSZ - 1 + size) / psize + 1
  }

  lemma DivNat(a: nat, b: nat)
    requires b > 0
    ensures a / b >= 0
  {
  }

  /** An overflow page run of ov pages has room for its page header and the data. */
  predicate OvRoom(size: nat, ov: nat, psize: nat) { PAGEHDRSZ + size <= ov * psize }

  /** OVPAGES is the least number of pages with room. */
  lemma OvPagesLeast(size: nat, ov: nat, psize: nat)
    requires ValidPsize(psize)
    ensures OvRoom(size, ov, psize) <==> OvPages(size, psize) <= ov
  {
    var n := PAGEHDRSZ - 1 + size;
    var q := n / psize;
    DivNat(n, psize);
    DivBounds(n, psize);
    if q + 1 <= ov { Times(q + 1, ov, psize); }
    if ov <= q { Times(ov, q, psize); }
  }

  lemma DivBounds(a: nat, b: nat)
    requires b > 0
    ensures a / b * b <= a < (a / b + 1) * b
  {
    assert a == b * (a / b) + a % b;
  }

  lemma Times(a: nat, b: nat, c: nat)
    requires a <= b
    ensures a * c <= b * c
  {
  }

  /** An entry as the store keeps it: a legal key, data in the node only if the
      node stays within me_nodemax, and otherwise overflow pages with room for it. */
  predicate EntryOk(e: Entry, psize: nat)
    requires ValidPsize(psize)
  {
    && ValidKey(e.key)
    && (if e.ov == 0 then NODESIZE + |e.key| + |e.data| <= NodeMax(psize)
        else OvRoom(|e.data|, e.ov, psize))
  }

  predicate Fits(t: Tree, psize: nat)
    requires ValidPsize(psize)
  {
    && Used(t) <= Pmax(psize)
    && match t
       case Leaf(es) => forall i :: 0 <= i < |es| ==> EntryOk(es[i], psize)
       case Branch(kids) => forall i :: 0 <= i < |kids| ==> |kids[i].sep| <= MAXKEYSIZE && Fits(kids[i].sub, psize)
  }

  predicate WF(t: Tree, d: nat, psize: nat)
    requires ValidPsize(psize)
  {
    Ordered(t) && Solid(t, d) && Fits(t, psize)
  }

  lemma HalfPageEntry(e: Entry, psize: nat)
    requires ValidPsize(psize) && EntryOk(e, psize)
    ensures EMPTYNODE <= LeafNode(e) <= Pmax(psize) / 2
  {
    HalfPageNode(NODESIZE + |e.key| + (if e.ov > 0 then 8 else |e.data|), psize);
  }

  lemma HalfPageNode(n: nat, psize: nat)
    requires ValidPsize(psize) && NODESIZE <= n && (n <= NodeMax(psize) || n <= NODESIZE + MAXKEYSIZE + 8)
    ensures EMPTYNODE <= Even(n) + 2 <= Pmax(psize) / 2
  {
    NodeMaxIs(psize);
    UnderEven(n, if n <= NodeMax(psize) then NodeMax(psize) else NODESIZE + MAXKEYSIZE + 9);
  }

  lemma NodeMaxIs(psize: nat)
    requires ValidPsize(psize)
    ensures NodeMax(psize) % 2 == 0 && NODESIZE + MAXKEYSIZE + 9 <= NodeMax(psize) && NodeMax(psize) + 2 <= Pmax(psize) / 2
  {
  }

  lemma UnderEven(n: nat, m: nat)
    requires n <= m && m % 2 == 0 && NODESIZE <= n
    ensures NODESIZE <= Even(n) <= m
  {
  }

  lemma HalfPageKid(k: Key, psize: nat)
    requires ValidPsize(psize) && |k| <= MAXKEYSIZE
    ensures EMPTYNODE <= BranchNode(k) <= 522 <= Pmax(psize) / 2
    ensures k == [] ==> BranchNode(k) == EMPTYNODE
  {
  }

  // ---------------------------------------------------------------- order

  lemma {:induction false} NonEmpty(t: Tree, d: nat)
    requires Solid(t, d)
    ensures All(t) != []
    decreases t
  {
    if t.Branch? {
      NonEmpty(t.kids[0].sub, d - 1);
    }
  }

  predicate KidsNonEmpty(kids: seq<Kid>) { forall i :: 0 <= i < |kids| ==> All(kids[i].sub) != [] }

  lemma BelowTrans(es: seq<Entry>, a: Key, b: Key)
    requires Below(es, a) && Le(a, b)
    ensures Below(es, b)
  {
    forall j | 0 <= j < |es| ensures Lt(es[j].key, b) {
      LtTotal(es[j].key, a);
      LtTrans(es[j].key, a, b);
    }
  }

  lemma {:induction false} NotBelowTrans(es: seq<Entry>, a: Key, b: Key)
    requires Le(a, b) && NotBelow(es, b)
    ensures NotBelow(es, a)
    ensures Lt(a, b) ==> Above(es, a)
  {
    forall j | 0 <= j < |es| ensures Le(a, es[j].key) && (Lt(a, b) ==> Lt(a, es[j].key)) {
      LtTrans(a, b, es[j].key);
    }
  }

  lemma {:induction false} LeftOfSep(kids: seq<Kid>, i: nat)
    requires KidsOrdered(kids) && KidsNonEmpty(kids) && 1 <= i < |kids|
    ensures Below(Flat(kids[..i]), kids[i].sep)
  {
    FlatAt(kids, i - 1);
    assert Separates(kids, i);
    if i > 1 {
      LeftOfSep(kids, i - 1);
      assert Separates(kids, i - 1);
      var x := All(kids[i - 1].sub)[0].key;
      LtTrans(kids[i - 1].sep, x, kids[i].sep) by { LtTotal(x, kids[i].sep); }
      BelowTrans(Flat(kids[..i - 1]), kids[i - 1].sep, kids[i].sep);
    }
  }

  lemma {:induction false} RightOfSep(kids: seq<Kid>, i: nat)
    requires KidsOrdered(kids) && KidsNonEmpty(kids) && 1 <= i < |kids|
    ensures NotBelow(Flat(kids[i..]), kids[i].sep)
    decreases |kids| - i
  {
    FlatAt(kids, i);
    assert Separates(kids, i);
    if i + 1 < |kids| {
      RightOfSep(kids, i + 1);
      assert Separates(kids, i + 1);
      var x := All(kids[i].sub)[0].key;
      LtTotal(x, kids[i + 1].sep);
      LtTrans(kids[i].sep, x, kids[i + 1].sep);
      NotBelowTrans(Flat(kids[i + 1..]), kids[i].sep, kids[i + 1].sep);
    }
  }
}
