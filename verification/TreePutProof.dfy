/**
 mdb_put refines map update and keeps the tree's invariant.
 */
module TreePutProof {
  import opened Keys
  import opened PageFormat
  import opened Items
  import opened PageSplit
  import opened Tree
  import opened TreeSearch
  import opened TreePut

  /** One or two pages of depth d that hold exactly these entries. */
  ghost predicate Holds(r: Ins, d: nat, psize: nat, items: seq<Entry>)
    requires ValidPsize(psize)
  {
    match r
    case Grew(t) => WF(t, d, psize) && All(t) == items
    case Halves(l, sep, r) =>
      && WF(l, d, psize) && WF(r, d, psize) && All(l) + All(r) == items
      && Below(All(l), sep) && NotBelow(All(r), sep) && ValidKey(sep)
    case Full => true
  }

  // ---------------------------------------------------------------- leaves

  lemma LeafSizesSlice(es: seq<Entry>, i: nat)
    requires i <= |es|
    ensures LeafSizes(es[..i]) == LeafSizes(es)[..i] && LeafSizes(es[i..]) == LeafSizes(es)[i..]
  {
  }

  lemma LeafSizesInsert(es: seq<Entry>, i: nat, e: Entry)
    requires i <= |es|
    ensures LeafSizes(Insert(es, i, e)) == Insert(LeafSizes(es), i, LeafNode(e))
  {
  }

  lemma CutSorted(es: seq<Entry>, s: nat)
    requires Sorted(es) && s < |es|
    ensures Below(es[..s], es[s].key) && NotBelow(es[s..], es[s].key)
  {
    forall i | s <= i < |es| ensures Le(es[s].key, es[i].key) {
      LtTotal(es[s].key, es[i].key);
    }
  }

  lemma LeafWF(es: seq<Entry>, psize: nat)
    requires ValidPsize(psize) && Sorted(es) && EntriesOk(es, psize) && es != [] && Sum(LeafSizes(es)) <= Pmax(psize)
    ensures WF(Leaf(es), 1, psize)
  {
  }

  lemma CutLeaf(all: seq<Entry>, s: nat, psize: nat)
    requires ValidPsize(psize) && Sorted(all) && EntriesOk(all, psize) && 1 <= s < |all|
    requires Sum(LeafSizes(all)[..s]) <= Pmax(psize) && Sum(LeafSizes(all)[s..]) <= Pmax(psize)
    ensures WF(Leaf(all[..s]), 1, psize) && WF(Leaf(all[s..]), 1, psize)
    ensures all[..s] + all[s..] == all
  {
    LeafSizesSlice(all, s);
    LeafWF(all[..s], psize);
    LeafWF(all[s..], psize);
  }

  lemma InsertOk(es: seq<Entry>, i: nat, e: Entry, psize: nat)
    requires ValidPsize(psize) && i <= |es| && EntriesOk(es, psize) && EntryOk(e, psize)
    ensures EntriesOk(Insert(es, i, e), psize)
  {
  }

  lemma AddEntryHolds(psize: nat, es: seq<Entry>, i: nat, e: Entry)
    requires ValidPsize(psize) && i <= |es| && EntriesOk(es, psize) && EntryOk(e, psize)
    requires Used(Leaf(es)) <= Pmax(psize) && Sorted(Insert(es, i, e))
    ensures Holds(AddEntry(psize, es, i, e), 1, psize, Insert(es, i, e))
  {
    var all := Insert(es, i, e);
    InsertOk(es, i, e, psize);
    LeafSizesInsert(es, i, e);
    SumInsert(LeafSizes(es), i, LeafNode(e));
    if Used(Leaf(es)) + LeafNode(e) <= Pmax(psize) {
      LeafWF(all, psize);
    } else {
      LeafSplittable(psize, es, e);
      SplitLeafHolds(psize, es, i, e, all);
    }
  }

  lemma SplitLeafHolds(psize: nat, es: seq<Entry>, i: nat, e: Entry, all: seq<Entry>)
    requires ValidPsize(psize) && i <= |es| && 2 <= |es| && all == Insert(es, i, e) && Sorted(all) && EntriesOk(all, psize)
    requires LeafSizes(all) == Insert(LeafSizes(es), i, LeafNode(e))
    ensures Holds(SplitLeaf(psize, es, i, e), 1, psize, all)
  {
    if HalvesFit(psize, LeafSizes(es), i, LeafNode(e), true) {
      var s := SplitIndex(psize, LeafSizes(es), i, LeafNode(e), true);
      CutLeaf(all, s, psize);
      CutSorted(all, s);
    }
  }

  lemma PutLeafHolds(psize: nat, es: seq<Entry>, key: Key, data: Bytes, reuse: bool)
    requires ValidPsize(psize) && WF(Leaf(es), 1, psize) && ValidKey(key)
    ensures Holds(PutLeaf(psize, es, key, data, reuse), 1, psize,
                  Upsert(es, PutEntry(psize, Lookup(es, key), key, data, reuse)))
  {
    var i := LowerBound(es, key);
    var e := PutEntry(psize, Lookup(es, key), key, data, reuse);
    UpsertSorted(es, e);
    if Found(es, key) {
      ReplaceHolds(psize, es, key, data, reuse, e);
    } else {
      AddEntryHolds(psize, es, i, e);
    }
  }

  lemma InPlaceOk(psize: nat, es: seq<Entry>, i: nat, e: Entry)
    requires ValidPsize(psize) && WF(Leaf(es), 1, psize) && i < |es| && Sorted(es[i := e])
    requires EntryOk(e, psize) && LeafNode(e) == LeafNode(es[i])
    ensures WF(Leaf(es[i := e]), 1, psize)
  {
    assert LeafSizes(es[i := e]) == LeafSizes(es);
    LeafWF(es[i := e], psize);
  }

  lemma Reinsert(psize: nat, es: seq<Entry>, i: nat, e: Entry)
    requires ValidPsize(psize) && WF(Leaf(es), 1, psize) && i < |es| && Sorted(es[i := e]) && EntryOk(e, psize)
    ensures var rest := es[..i] + es[i + 1..];
      && EntriesOk(rest, psize) && Used(Leaf(rest)) <= Pmax(psize)
      && Holds(AddEntry(psize, rest, i, e), 1, psize, es[i := e])
  {
    var rest := es[..i] + es[i + 1..];
    RemovedUsed(es, i);
    assert Insert(rest, i, e) == es[i := e];
    AddEntryHolds(psize, rest, i, e);
  }

  lemma SameSize(psize: nat, was: Entry, e: Entry, data: Bytes, reuse: bool)
    requires ValidPsize(psize) && EntryOk(was, psize) && InPlace(psize, was, data, reuse)
    requires e == Entry(was.key, data, was.ov)
    ensures EntryOk(e, psize) && LeafNode(e) == LeafNode(was)
  {
    OvPagesLeast(|data|, was.ov, psize);
  }

  lemma {:induction false} ReplaceHolds(psize: nat, es: seq<Entry>, key: Key, data: Bytes, reuse: bool, e: Entry)
    requires ValidPsize(psize) && WF(Leaf(es), 1, psize) && ValidKey(key) && Found(es, key)
    requires e == PutEntry(psize, [es[LowerBound(es, key)]], key, data, reuse)
    requires Sorted(es[LowerBound(es, key) := e])
    ensures Holds(PutLeaf(psize, es, key, data, reuse), 1, psize, es[LowerBound(es, key) := e])
  {
    var i := LowerBound(es, key);
    if InPlace(psize, es[i], data, reuse) {
      ReplacedInPlace(psize, es, key, data, reuse);
    } else {
      Replaced(psize, es, key, data, reuse);
      Reinsert(psize, es, i, e);
    }
  }

  lemma ReplacedInPlace(psize: nat, es: seq<Entry>, key: Key, data: Bytes, reuse: bool)
    requires ValidPsize(psize) && WF(Leaf(es), 1, psize) && ValidKey(key) && Found(es, key)
    requires InPlace(psize, es[LowerBound(es, key)], data, reuse)
    requires Sorted(es[LowerBound(es, key) := Entry(key, data, es[LowerBound(es, key)].ov)])
    ensures var i := LowerBound(es, key);
      var e := Entry(key, data, es[i].ov);
      && PutEntry(psize, [es[i]], key, data, reuse) == e
      && PutLeaf(psize, es, key, data, reuse) == Grew(Leaf(es[i := e])) && WF(Leaf(es[i := e]), 1, psize)
  {
    var i := LowerBound(es, key);
    var e := Entry(key, data, es[i].ov);
    SameSize(psize, es[i], e, data, reuse);
    InPlaceOk(psize, es, i, e);
  }

  lemma Replaced(psize: nat, es: seq<Entry>, key: Key, data: Bytes, reuse: bool)
    requires ValidPsize(psize) && WF(Leaf(es), 1, psize) && ValidKey(key) && Found(es, key)
    requires !InPlace(psize, es[LowerBound(es, key)], data, reuse)
    ensures var i := LowerBound(es, key);
      var rest := es[..i] + es[i + 1..];
      && EntriesOk(rest, psize) && Used(Leaf(rest)) <= Pmax(psize)
      && PutLeaf(psize, es, key, data, reuse) == AddEntry(psize, rest, i, NewEntry(psize, key, data))
  {
    RemovedUsed(es, LowerBound(es, key));
  }

  // ---------------------------------------------------------------- branches

  predicate NodesOk(kids: seq<Kid>, d: nat, psize: nat)
    requires ValidPsize(psize)
  {
    KidsOrdered(kids) && SepKeys(kids) && d > 1 && forall i :: 0 <= i < |kids| ==> WF(kids[i].sub, d - 1, psize)
  }

  lemma NodesMakeBranch(kids: seq<Kid>, d: nat, psize: nat)
    requires ValidPsize(psize) && NodesOk(kids, d, psize) && 2 <= |kids| && Used(Branch(kids)) <= Pmax(psize)
    ensures WF(Branch(kids), d, psize)
  {
  }

  lemma BranchHasNodes(kids: seq<Kid>, d: nat, psize: nat)
    requires ValidPsize(psize) && WF(Branch(kids), d, psize)
    ensures NodesOk(kids, d, psize)
  {
  }

  lemma KidSizesSlice(kids: seq<Kid>, i: nat)
    requires i <= |kids|
    ensures KidSizes(kids[..i]) == KidSizes(kids)[..i] && KidSizes(kids[i..]) == KidSizes(kids)[i..]
  {
  }

  lemma KidSizesInsert(kids: seq<Kid>, i: nat, kid: Kid)
    requires i <= |kids|
    ensures KidSizes(Insert(kids, i, kid)) == Insert(KidSizes(kids), i, BranchNode(kid.sep))
  {
  }

  /** A run of nodes stays ordered, also when its first key is dropped. */
  lemma OrderedRun(kids: seq<Kid>, i: nat, j: nat)
    requires KidsOrdered(kids) && i <= j <= |kids|
    ensures KidsOrdered(kids[i..j])
  {
    forall k {:trigger Separates(kids[i..j], k)} | 1 <= k < j - i ensures Separates(kids[i..j], k) {
      assert Separates(kids, i + k);
    }
  }

  lemma {:induction false} OrderedDropFirst(kids: seq<Kid>)
    requires KidsOrdered(kids) && kids != []
    ensures KidsOrdered([Kid([], kids[0].sub)] + kids[1..])
    ensures Flat([Kid([], kids[0].sub)] + kids[1..]) == Flat(kids)
  {
    var r := [Kid([], kids[0].sub)] + kids[1..];
    forall k {:trigger Separates(r, k)} | 1 <= k < |r| ensures Separates(r, k) {
      assert Separates(kids, k);
    }
    assert r[1..] == kids[1..];
  }

  /** Joining two runs of nodes. */
  lemma OrderedJoin(a: seq<Kid>, b: seq<Kid>)
    requires KidsOrdered(a) && KidsOrdered(b)
    requires a != [] && b != [] ==> Below(All(a[|a| - 1].sub), b[0].sep) && NotBelow(All(b[0].sub), b[0].sep)
    ensures KidsOrdered(a + b)
  {
    forall k {:trigger Separates(a + b, k)} | 1 <= k < |a + b| ensures Separates(a + b, k) {
      if k < |a| { assert Separates(a, k); }
      if k > |a| { assert Separates(b, k - |a|); }
    }
  }

  /** Cutting a branch page anywhere inside gives two ordered pages around the separator. */
  lemma CutNodes(all: seq<Kid>, s: nat, d: nat, psize: nat)
    requires ValidPsize(psize) && NodesOk(all, d, psize) && 1 <= s < |all|
    ensures var right := [Kid([], all[s].sub)] + all[s + 1..];
      && NodesOk(all[..s], d, psize) && NodesOk(right, d, psize)
      && Flat(all[..s]) + Flat(right) == Flat(all)
      && Below(Flat(all[..s]), all[s].sep) && NotBelow(Flat(right), all[s].sep)
  {
    forall i | 0 <= i < |all| ensures All(all[i].sub) != [] { NonEmpty(all[i].sub, d - 1); }
    OrderedRun(all, 0, s);
    OrderedRun(all, s, |all|);
    assert all[..s] == all[0..s] && all[s..] == all[s..|all|];
    assert all[s..][1..] == all[s + 1..];
    OrderedDropFirst(all[s..]);
    FlatCut(all, s);
    LeftOfSep(all, s);
    RightOfSep(all, s);
  }

  /** A branch page is full only with many nodes, so a split leaves both
      halves at least two. */
  lemma {:induction false} SplitKeepsTwo(psize: nat, was: seq<nat>, newindx: nat, nsize: nat)
    requires ValidPsize(psize) && newindx <= |was| && Splittable(psize, was, nsize)
    requires nsize <= 522 && forall i :: 0 <= i < |was| ==> was[i] <= 522
    requires Sum(was) + nsize > Pmax(psize)
    ensures var s := SplitIndex(psize, was, newindx, nsize, false); 2 <= s < |was|
  {
    SumInsert(was, newindx, nsize);
    AtMost(Insert(was, newindx, nsize), 5);
    ManyKeepTwo(psize, was, newindx, nsize);
  }

  lemma ManyKeepTwo(psize: nat, was: seq<nat>, newindx: nat, nsize: nat)
    requires ValidPsize(psize) && newindx <= |was| && 5 <= |was|
    requires nsize <= 522 && forall i :: 0 <= i < |was| ==> was[i] <= 522
    ensures var s := SplitIndex(psize, was, newindx, nsize, false); 2 <= s < |was|
  {
    var nkeys, half := |was|, (|was| + 1) / 2;
    var sz := Insert(was, newindx, nsize);
    assert |sz| == nkeys + 1 && 3 <= half < nkeys - 1;
    if ScanRuns(psize, nkeys, newindx, nsize) {
      if newindx >= nkeys {
        UpKeepsTwo(sz, Pmax(psize), nkeys);
      } else if newindx <= half {
        UpKeepsTwo(sz, Pmax(psize), half + 1);
      } else {
        DownKeepsTwo(sz, Pmax(psize), half);
      }
    }
  }

  lemma {:induction false} UpKeepsTwo(sz: seq<nat>, pmax: nat, k: nat)
    requires 3 <= k < |sz| && 4080 <= pmax && forall i :: 0 <= i < |sz| ==> sz[i] <= 522
    ensures var s := ScanUp(sz, pmax, 0, k, 0); 2 <= s < k
  {
    assert sz[..0] == [];
    ScanUpMeaning(sz, pmax, 0, k);
    var s := ScanUp(sz, pmax, 0, k, 0);
    AtMost(sz[..s + 1], 5);
  }

  lemma DownKeepsTwo(sz: seq<nat>, pmax: nat, k: nat)
    requires 2 <= k < |sz| - 2 && 4080 <= pmax && forall i :: 0 <= i < |sz| ==> sz[i] <= 522
    ensures var s := ScanDown(sz, pmax, |sz| - 1, k, 0); 2 <= s < |sz| - 1
  {
    assert sz[|sz|..] == [];
    ScanDownMeaning(sz, pmax, |sz| - 1, k);
    var s := ScanDown(sz, pmax, |sz| - 1, k, 0);
    AtMost(sz[s - 1..], 5);
  }

  lemma {:induction false} AtMost(s: seq<nat>, n: nat)
    requires n <= 5 && forall i :: 0 <= i < |s| ==> s[i] <= 522
    ensures |s| <= n ==> Sum(s) <= 2610
    decreases |s|
  {
    if 0 < |s| <= n {
      SumAtMost(s);
    }
  }

  lemma {:induction false} SumAtMost(s: seq<nat>)
    requires forall i :: 0 <= i < |s| ==> s[i] <= 522
    ensures Sum(s) <= 522 * |s|
  {
    if s != [] { SumAtMost(s[1..]); }
  }

  lemma AddKidHolds(psize: nat, kids: seq<Kid>, i: nat, kid: Kid, d: nat)
    requires ValidPsize(psize) && 1 <= i <= |kids| && 1 < |kids|
    requires NodesOk(Insert(kids, i, kid), d, psize) && Used(Branch(kids)) <= Pmax(psize)
    requires ValidKey(kid.sep) && forall i :: 0 <= i < |kids| ==> |kids[i].sep| <= MAXKEYSIZE
    ensures Holds(AddKid(psize, kids, i, kid), d, psize, Flat(Insert(kids, i, kid)))
  {
    var all := Insert(kids, i, kid);
    var sz, n := KidSizes(kids), BranchNode(kid.sep);
    KidSizesInsert(kids, i, kid);
    SumInsert(sz, i, n);
    if Sum(sz) + n <= Pmax(psize) {
      NodesMakeBranch(all, d, psize);
    } else if HalvesFit(psize, sz, i, n, false) {
      SplitHolds(psize, kids, i, kid, d);
    }
  }

  lemma SplitHolds(psize: nat, kids: seq<Kid>, i: nat, kid: Kid, d: nat)
    requires ValidPsize(psize) && i <= |kids| && 2 <= |kids| && |kid.sep| <= MAXKEYSIZE
    requires NodesOk(Insert(kids, i, kid), d, psize)
    requires forall i :: 0 <= i < |kids| ==> |kids[i].sep| <= MAXKEYSIZE
    requires Used(Branch(kids)) <= Pmax(psize) < Used(Branch(kids)) + BranchNode(kid.sep)
    ensures Holds(SplitKids(psize, kids, i, kid), d, psize, Flat(Insert(kids, i, kid)))
  {
    var sz, n := KidSizes(kids), BranchNode(kid.sep);
    if HalvesFit(psize, sz, i, n, false) {
      KidsSplittable(psize, kids, kid.sep);
      SmallNodes(psize, kids, kid.sep);
      SplitKeepsTwo(psize, sz, i, n);
      KidSizesInsert(kids, i, kid);
      SplitApart(psize, kids, i, kid, d, Insert(kids, i, kid), SplitIndex(psize, sz, i, n, false));
    }
  }

  lemma {:induction false} SplitApart(psize: nat, kids: seq<Kid>, i: nat, kid: Kid, d: nat, all: seq<Kid>, s: int)
    requires ValidPsize(psize) && i <= |kids| && 2 <= |kids| && all == Insert(kids, i, kid) && NodesOk(all, d, psize)
    requires HalvesFit(psize, KidSizes(kids), i, BranchNode(kid.sep), false)
    requires s == SplitIndex(psize, KidSizes(kids), i, BranchNode(kid.sep), false) && 2 <= s < |all| - 1
    requires Sum(KidSizes(all)[..s]) <= Pmax(psize) && RightSize(KidSizes(all), s, false) <= Pmax(psize)
    ensures Holds(SplitKids(psize, kids, i, kid), d, psize, Flat(all))
  {
    HalvesHold(psize, all, s, d);
  }

  lemma SmallNodes(psize: nat, kids: seq<Kid>, sep: Key)
    requires ValidPsize(psize) && |sep| <= MAXKEYSIZE && forall i :: 0 <= i < |kids| ==> |kids[i].sep| <= MAXKEYSIZE
    ensures BranchNode(sep) <= 522 && forall i :: 0 <= i < |kids| ==> KidSizes(kids)[i] <= 522
  {
    HalfPageKid(sep, psize);
    forall i | 0 <= i < |kids| ensures KidSizes(kids)[i] <= 522 { HalfPageKid(kids[i].sep, psize); }
  }

  /** The two halves of a branch page, if they fit. */
  lemma {:induction false} HalvesHold(psize: nat, all: seq<Kid>, s: nat, d: nat)
    requires ValidPsize(psize) && NodesOk(all, d, psize) && 2 <= s < |all| - 1
    requires Sum(KidSizes(all)[..s]) <= Pmax(psize) && RightSize(KidSizes(all), s, false) <= Pmax(psize)
    ensures Holds(Halves(Branch(all[..s]), all[s].sep, Branch([Kid([], all[s].sub)] + all[s + 1..])), d, psize, Flat(all))
  {
    KidSizesSlice(all, s);
    RightKids(all, s);
    CutNodes(all, s, d, psize);
    NodesMakeBranch(all[..s], d, psize);
    NodesMakeBranch([Kid([], all[s].sub)] + all[s + 1..], d, psize);
  }

  lemma RightKids(all: seq<Kid>, s: nat)
    requires s < |all|
    ensures Used(Branch([Kid([], all[s].sub)] + all[s + 1..])) == RightSize(KidSizes(all), s, false)
  {
    var right := [Kid([], all[s].sub)] + all[s + 1..];
    var sizes := [EMPTYNODE] + KidSizes(all)[s + 1..];
    assert KidSizes(right) == sizes;
    assert sizes[1..] == KidSizes(all)[s + 1..];
  }

  // ---------------------------------------------------------------- the tree

  lemma {:induction false} UpsertBetween(es: seq<Entry>, e: Entry, k: Key)
    ensures Below(es, k) && Lt(e.key, k) ==> Below(Upsert(es, e), k)
    ensures NotBelow(es, k) && Le(k, e.key) ==> NotBelow(Upsert(es, e), k)
  {
    var r := Upsert(es, e);
    forall i | 0 <= i < |r| ensures r[i] == e || exists j :: 0 <= j < |es| && es[j] == r[i] {
      var x := LowerBound(es, e.key);
      if r[i] != e {
        var j := if i < x || Found(es, e.key) then i else i - 1;
        assert es[j] == r[i];
      }
    }
  }

  /** Node i's neighbours, with node i replaced by a run that holds the same
      entries and e. */
  lemma {:induction false} Regrown(kids: seq<Kid>, i: nat, mid: seq<Kid>, e: Entry, d: nat, psize: nat)
    requires ValidPsize(psize) && NodesOk(kids, d, psize) && 2 <= |kids| && i == ChildIndex(kids, e.key)
    requires mid != [] && mid[0].sep == kids[i].sep && KidsOrdered(mid)
    requires forall j :: 0 <= j < |mid| ==> WF(mid[j].sub, d - 1, psize) && (j > 0 ==> ValidKey(mid[j].sep))
    requires Flat(mid) == Upsert(All(kids[i].sub), e)
    ensures NodesOk(kids[..i] + mid + kids[i + 1..], d, psize)
    ensures Flat(kids[..i] + mid + kids[i + 1..]) == Upsert(Flat(kids), e)
  {
    SubsNonEmpty(kids, d, psize);
    AroundChild(kids, e.key);
    UpsertConcat(Flat(kids[..i]), All(kids[i].sub), Flat(kids[i + 1..]), e);
    ReplaceFlat(kids, i, i + 1, mid);
    RegrownBounds(kids, i, mid, e);
    ReplaceOrdered(kids, i, i + 1, mid);
    ReplaceNodes(kids, i, i + 1, mid, d, psize);
  }

  lemma SubsNonEmpty(kids: seq<Kid>, d: nat, psize: nat)
    requires ValidPsize(psize) && NodesOk(kids, d, psize)
    ensures KidsNonEmpty(kids)
  {
    forall i | 0 <= i < |kids| ensures All(kids[i].sub) != [] { NonEmpty(kids[i].sub, d - 1); }
  }

  /** The first and the last of a run's kids hold a part of its entries. */
  lemma {:induction false} FlatEnds(kids: seq<Kid>, k: Key)
    requires kids != []
    ensures NotBelow(Flat(kids), k) ==> NotBelow(All(kids[0].sub), k)
    ensures Below(Flat(kids), k) ==> Below(All(kids[|kids| - 1].sub), k)
  {
    var n := |kids| - 1;
    FlatAt(kids, 0);
    FlatAt(kids, n);
    var a, b := Flat(kids[..n]), All(kids[n].sub);
    assert kids[n + 1..] == [] && kids[..0] == [];
    assert Flat(kids) == a + b;
    assert forall i :: 0 <= i < |b| ==> b[i] == Flat(kids)[|a| + i];
    var c := All(kids[0].sub);
    assert forall i :: 0 <= i < |c| ==> c[i] == Flat(kids)[i];
  }

  /** The run keeps to the separators of the node it replaces. */
  lemma {:induction false} RegrownBounds(kids: seq<Kid>, i: nat, mid: seq<Kid>, e: Entry)
    requires KidsOrdered(kids) && i < |kids| && i == ChildIndex(kids, e.key) && mid != []
    requires Flat(mid) == Upsert(All(kids[i].sub), e)
    ensures i > 0 ==> NotBelow(All(mid[0].sub), kids[i].sep)
    ensures i + 1 < |kids| ==> Below(All(mid[|mid| - 1].sub), kids[i + 1].sep)
  {
    if i > 0 {
      assert Separates(kids, i);
      UpsertBetween(All(kids[i].sub), e, kids[i].sep);
      FlatEnds(mid, kids[i].sep);
    }
    if i + 1 < |kids| {
      assert Separates(kids, i + 1);
      UpsertBetween(All(kids[i].sub), e, kids[i + 1].sep);
      FlatEnds(mid, kids[i + 1].sep);
    }
  }

  /** Nodes i..j of a page replaced by another ordered run with the same first separator. */
  lemma ReplaceOrdered(kids: seq<Kid>, i: nat, j: nat, mid: seq<Kid>)
    requires KidsOrdered(kids) && KidsOrdered(mid) && i < j <= |kids| && mid != [] && mid[0].sep == kids[i].sep
    requires i > 0 ==> NotBelow(All(mid[0].sub), kids[i].sep)
    requires j < |kids| ==> Below(All(mid[|mid| - 1].sub), kids[j].sep)
    ensures KidsOrdered(kids[..i] + mid + kids[j..])
  {
    OrderedRun(kids, 0, i);
    OrderedRun(kids, j, |kids|);
    assert kids[..i] == kids[0..i] && kids[j..] == kids[j..|kids|];
    if i > 0 { assert Separates(kids, i); }
    OrderedJoin(kids[..i], mid);
    if j < |kids| { assert Separates(kids, j); }
    OrderedJoin(kids[..i] + mid, kids[j..]);
  }

  lemma OneOrTwo(l: Kid, r: Kid)
    requires Below(All(l.sub), r.sep) && NotBelow(All(r.sub), r.sep)
    ensures KidsOrdered([l]) && KidsOrdered([l, r])
  {
    assert Separates([l, r], 1);
  }

  /** A put on the tree refines the put on the sequence of all entries: the
      entries afterwards are those before with the one for key set, wherever
      pages were split, and the tree is well-formed again. */
  /** One level of the way back up. */
  lemma {:induction false} KidPut(psize: nat, kids: seq<Kid>, i: nat, x: Ins, e: Entry, d: nat)
    requires ValidPsize(psize) && WF(Branch(kids), d, psize) && i == ChildIndex(kids, e.key)
    requires Holds(x, d - 1, psize, Upsert(All(kids[i].sub), e))
    ensures x.Grew? ==> Holds(Grew(Branch(kids[i := kids[i].(sub := x.t)])), d, psize, Upsert(Flat(kids), e))
    ensures x.Halves? ==>
      && KidSizes(kids[i := kids[i].(sub := x.l)]) == KidSizes(kids)
      && Holds(AddKid(psize, kids[i := kids[i].(sub := x.l)], i + 1, Kid(x.sep, x.r)), d, psize, Upsert(Flat(kids), e))
  {
    match x
    case Full =>
    case Grew(sub) => KidGrew(psize, kids, i, sub, e, d);
    case Halves(l, sep, r) => KidHalved(psize, kids, i, l, sep, r, e, d);
  }

  lemma {:induction false} PutTreeHolds(psize: nat, t: Tree, d: nat, key: Key, data: Bytes, reuse: bool)
    requires ValidPsize(psize) && WF(t, d, psize) && ValidKey(key)
    ensures Holds(PutTree(psize, t, d, key, data, reuse), d, psize,
                  Upsert(All(t), PutEntry(psize, Lookup(All(t), key), key, data, reuse)))
    decreases t
  {
    match t
    case Leaf(es) => PutLeafHolds(psize, es, key, data, reuse);
    case Branch(kids) =>
      var i := ChildIndex(kids, key);
      var e := PutEntry(psize, Lookup(All(t), key), key, data, reuse);
      PutTreeHolds(psize, kids[i].sub, d - 1, key, data, reuse);
      LookupDescends(kids, d, key);
      KidPut(psize, kids, i, PutTree(psize, kids[i].sub, d - 1, key, data, reuse), e, d);
  }

  lemma KidGrew(psize: nat, kids: seq<Kid>, i: nat, sub: Tree, e: Entry, d: nat)
    requires ValidPsize(psize) && WF(Branch(kids), d, psize) && i == ChildIndex(kids, e.key)
    requires WF(sub, d - 1, psize) && All(sub) == Upsert(All(kids[i].sub), e)
    ensures var t := Branch(kids[i := kids[i].(sub := sub)]);
      WF(t, d, psize) && All(t) == Upsert(Flat(kids), e)
  {
    var kid := kids[i].(sub := sub);
    var kids' := kids[i := kid];
    assert KidSizes(kids') == KidSizes(kids);
    assert kids' == kids[..i] + [kid] + kids[i + 1..];
    FlatOne(kid);
    Regrown(kids, i, [kid], e, d, psize);
    NodesMakeBranch(kids', d, psize);
  }

  lemma KidHalved(psize: nat, kids: seq<Kid>, i: nat, l: Tree, sep: Key, r: Tree, e: Entry, d: nat)
    requires ValidPsize(psize) && WF(Branch(kids), d, psize) && i == ChildIndex(kids, e.key)
    requires Holds(Halves(l, sep, r), d - 1, psize, Upsert(All(kids[i].sub), e))
    ensures var kids' := kids[i := kids[i].(sub := l)];
      && KidSizes(kids') == KidSizes(kids)
      && Holds(AddKid(psize, kids', i + 1, Kid(sep, r)), d, psize, Upsert(Flat(kids), e))
  {
    var kids' := kids[i := kids[i].(sub := l)];
    assert KidSizes(kids') == KidSizes(kids);
    HalvedNodes(psize, kids, i, l, sep, r, e, d, kids');
    AddKidHolds(psize, kids', i + 1, Kid(sep, r), d);
  }

  lemma {:induction false} HalvedNodes(psize: nat, kids: seq<Kid>, i: nat, l: Tree, sep: Key, r: Tree, e: Entry,
                                       d: nat, kids': seq<Kid>)
    requires ValidPsize(psize) && WF(Branch(kids), d, psize) && i == ChildIndex(kids, e.key)
    requires Holds(Halves(l, sep, r), d - 1, psize, Upsert(All(kids[i].sub), e)) && kids' == kids[i := kids[i].(sub := l)]
    ensures NodesOk(Insert(kids', i + 1, Kid(sep, r)), d, psize)
    ensures Flat(Insert(kids', i + 1, Kid(sep, r))) == Upsert(Flat(kids), e)
  {
    var mid := [kids[i].(sub := l), Kid(sep, r)];
    HalvedRun(kids, i, l, Kid(sep, r), kids');
    FlatTwo(mid[0], mid[1]);
    OneOrTwo(mid[0], mid[1]);
    BranchHasNodes(kids, d, psize);
    Regrown(kids, i, mid, e, d, psize);
  }

  lemma HalvedRun(kids: seq<Kid>, i: nat, l: Tree, kid: Kid, kids': seq<Kid>)
    requires i < |kids| && kids' == kids[i := kids[i].(sub := l)]
    ensures Insert(kids', i + 1, kid) == kids[..i] + [kids[i].(sub := l), kid] + kids[i + 1..]
  {
  }

  /** ... and the other properties of the page's nodes, and its entries. */
  lemma ReplaceNodes(kids: seq<Kid>, i: nat, j: nat, mid: seq<Kid>, d: nat, psize: nat)
    requires d > 0 && ValidPsize(psize) && SepKeys(kids) && i < j <= |kids| && mid != [] && mid[0].sep == kids[i].sep
    requires forall k :: 0 <= k < |kids| && (k < i || j <= k) ==> WF(kids[k].sub, d - 1, psize)
    requires forall k :: 0 <= k < |mid| ==> WF(mid[k].sub, d - 1, psize) && (k > 0 ==> ValidKey(mid[k].sep))
    ensures var r := kids[..i] + mid + kids[j..];
      SepKeys(r) && forall k :: 0 <= k < |r| ==> WF(r[k].sub, d - 1, psize)
  {
    var r := kids[..i] + mid + kids[j..];
    forall k | 0 <= k < |r|
      ensures WF(r[k].sub, d - 1, psize) && (if k == 0 then r[k].sep == [] else ValidKey(r[k].sep))
    {
      if k < i {
        assert r[k] == kids[k];
      } else if k < i + |mid| {
        assert r[k] == mid[k - i];
      } else {
        assert r[k] == kids[k - |mid| - i + j];
      }
    }
  }

  lemma {:induction false} ReplaceFlat(kids: seq<Kid>, i: nat, j: nat, mid: seq<Kid>)
    requires i <= j <= |kids|
    ensures Flat(kids[..i] + mid + kids[j..]) == Flat(kids[..i]) + Flat(mid) + Flat(kids[j..])
  {
    FlatConcat(kids[..i] + mid, kids[j..]);
    FlatConcat(kids[..i], mid);
  }
}
