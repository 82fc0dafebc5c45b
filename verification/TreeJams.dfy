/**
 Puts and deletions that fail with MDB_PAGE_FULL: that there are some, and a
 condition on the pages of the path under which there are none.
 */
module TreeJams {
  import opened Keys
  import opened PageFormat
  import opened Items
  import opened PageSplit
  import opened Tree
  import opened TreeSearch
  import opened TreePut
  import opened TreePutProof
  import opened TreeDel
  import opened TreeDelProof
  import opened TreeDelete
  import opened TreeLeaves
  import opened TreeDb

  // ---------------------------------------------------------------- no failure

  /** The largest branch node. */
  const MAXBRANCH := 522

  /** Fewer nodes than make the split skip its scan, or room for one more node of n bytes. */
  predicate Roomy(psize: nat, t: Tree, n: nat)
    requires ValidPsize(psize)
  {
    NumKeys(t) < psize / 128 || Used(t) + n <= Pmax(psize)
  }

  /** A key whose node takes more than a sixteenth of a page. */
  predicate LongKey(psize: nat, k: Key) { psize - PAGEHDRSZ < 16 * BranchNode(k) }

  predicate LongSeps(psize: nat, kids: seq<Kid>) { forall i :: 1 <= i < |kids| ==> LongKey(psize, kids[i].sep) }

  predicate LongEntries(psize: nat, es: seq<Entry>) { forall i :: 0 <= i < |es| ==> LongKey(psize, es[i].key) }

  /** All keys under a page are long. */
  predicate LongKeys(psize: nat, t: Tree)
    decreases t
  {
    match t
    case Leaf(es) => LongEntries(psize, es)
    case Branch(kids) => LongSeps(psize, kids) && forall i :: 0 <= i < |kids| ==> LongKeys(psize, kids[i].sub)
  }

  /** On the way to a key each branch is roomy, or has long keys only, the key
      included; the leaf is roomy for a node of n bytes, or n is more than a
      sixteenth of a page. */
  predicate RoomyPath(psize: nat, t: Tree, key: Key, n: nat)
    requires ValidPsize(psize)
    decreases t
  {
    match t
    case Leaf(_) => Roomy(psize, t, n) || psize - PAGEHDRSZ < 16 * n
    case Branch(kids) =>
      && kids != [] && (Roomy(psize, t, MAXBRANCH) || (LongKeys(psize, t) && LongKey(psize, key)))
      && RoomyPath(psize, kids[ChildIndex(kids, key)].sub, key, n)
  }

  /** A large node never meets the skipped scan. */
  lemma LargeNode(psize: nat, was: seq<nat>, i: nat, n: nat, leaf: bool)
    requires ValidPsize(psize) && i <= |was| && psize - PAGEHDRSZ < 16 * n
    ensures !SplitJams(psize, was, i, n, leaf)
  {
    ScanRunsIs(psize, |was|, i, n);
  }

  lemma {:induction false} RoomyLeaf(psize: nat, es: seq<Entry>, key: Key, data: Bytes, reuse: bool)
    requires ValidPsize(psize) && ValidKey(key) && RoomyPath(psize, Leaf(es), key, LeafNode(NewEntry(psize, key, data)))
    ensures !LeafJams(psize, es, key, data, reuse)
  {
    var i, n := LowerBound(es, key), LeafNode(NewEntry(psize, key, data));
    var rest := if Found(es, key) then es[..i] + es[i + 1..] else es;
    if psize - PAGEHDRSZ < 16 * n {
      LargeNode(psize, LeafSizes(rest), i, n, true);
    } else if Found(es, key) {
      RemovedUsed(es, i);
    }
  }

  lemma RoomyKids(psize: nat, kids: seq<Kid>, i: nat, sep: Key)
    requires ValidPsize(psize) && i <= |kids| && |sep| <= MAXKEYSIZE
    requires Roomy(psize, Branch(kids), MAXBRANCH) || LongKey(psize, sep)
    ensures !SplitJams(psize, KidSizes(kids), i, BranchNode(sep), false)
  {
    HalfPageKid(sep, psize);
    if LongKey(psize, sep) { LargeNode(psize, KidSizes(kids), i, BranchNode(sep), false); }
  }

  lemma RoomyRest(psize: nat, kids: seq<Kid>, i: nat)
    requires ValidPsize(psize) && i < |kids| && Roomy(psize, Branch(kids), MAXBRANCH)
    ensures Roomy(psize, Branch(kids[..i] + kids[i + 1..]), MAXBRANCH)
  {
    RemovedKidUsed(kids, i);
  }

  // ---------------------------------------------------------------- separators that are long

  lemma {:induction false} SplitSepLong(psize: nat, kids: seq<Kid>, i: nat, kid: Kid)
    requires ValidPsize(psize) && 1 <= i <= |kids| && 2 <= |kids| && LongSeps(psize, kids) && LongKey(psize, kid.sep)
    ensures var r := SplitKids(psize, kids, i, kid); r.Halves? ==> LongKey(psize, r.sep)
  {
    var all := Insert(kids, i, kid);
    assert forall j :: 1 <= j < |all| ==> LongKey(psize, all[j].sep);
  }

  lemma {:induction false} AddSepLong(psize: nat, kids: seq<Kid>, i: nat, kid: Kid)
    requires ValidPsize(psize) && 1 <= i <= |kids| && |kid.sep| <= MAXKEYSIZE && Used(Branch(kids)) <= Pmax(psize)
    requires forall i :: 0 <= i < |kids| ==> |kids[i].sep| <= MAXKEYSIZE
    requires LongSeps(psize, kids) && LongKey(psize, kid.sep)
    ensures var r := AddKid(psize, kids, i, kid); r.Halves? ==> LongKey(psize, r.sep)
  {
    if Used(Branch(kids)) + BranchNode(kid.sep) > Pmax(psize) {
      KidsSplittable(psize, kids, kid.sep);
      SplitSepLong(psize, kids, i, kid);
    }
  }

  lemma {:induction false} EntrySepLong(psize: nat, es: seq<Entry>, i: nat, e: Entry)
    requires ValidPsize(psize) && i <= |es| && EntriesOk(es, psize) && EntryOk(e, psize) && Used(Leaf(es)) <= Pmax(psize)
    requires LongEntries(psize, es) && LongKey(psize, e.key)
    ensures var r := AddEntry(psize, es, i, e); r.Halves? ==> LongKey(psize, r.sep)
  {
    if Used(Leaf(es)) + LeafNode(e) > Pmax(psize) {
      LeafSplittable(psize, es, e);
      assert LongEntries(psize, Insert(es, i, e));
    }
  }

  lemma {:induction false} LeafSepLong(psize: nat, es: seq<Entry>, key: Key, data: Bytes, reuse: bool)
    requires ValidPsize(psize) && EntriesOk(es, psize) && Used(Leaf(es)) <= Pmax(psize) && ValidKey(key)
    requires LongEntries(psize, es) && LongKey(psize, key)
    ensures var r := PutLeaf(psize, es, key, data, reuse); r.Halves? ==> LongKey(psize, r.sep)
  {
    var i, e := LowerBound(es, key), NewEntry(psize, key, data);
    if Found(es, key) {
      RemovedUsed(es, i);
      EntrySepLong(psize, es[..i] + es[i + 1..], i, e);
    } else {
      EntrySepLong(psize, es, i, e);
    }
  }

  /** A separator that a put sends up is one of the keys there are. */
  lemma {:induction false} PutSepLong(psize: nat, t: Tree, d: nat, key: Key, data: Bytes, reuse: bool)
    requires ValidPsize(psize) && WF(t, d, psize) && ValidKey(key) && LongKeys(psize, t) && LongKey(psize, key)
    ensures var r := PutTree(psize, t, d, key, data, reuse); r.Halves? ==> LongKey(psize, r.sep)
    decreases t
  {
    match t
    case Leaf(es) => LeafSepLong(psize, es, key, data, reuse);
    case Branch(kids) =>
      var i := ChildIndex(kids, key);
      var x, r := PutTree(psize, kids[i].sub, d - 1, key, data, reuse), PutTree(psize, t, d, key, data, reuse);
      TreeLeaves.PutStep(psize, kids, d, key, data, reuse, i, x, r);
      PutSepLong(psize, kids[i].sub, d - 1, key, data, reuse);
      if x.Halves? { AddSepLong(psize, kids[i := kids[i].(sub := x.l)], i + 1, Kid(x.sep, x.r)); }
  }

  lemma {:induction false} MovedLong(psize: nat, kids: seq<Kid>, i: nat)
    requires i < |kids| && 2 <= |kids|
    requires var n := if i == 0 then 1 else i - 1;
      && kids[n].sub.Leaf? == kids[i].sub.Leaf? && 1 < NumKeys(kids[n].sub) && LongKeys(psize, kids[n].sub)
      && (kids[i].sub.Branch? ==> kids[i].sub.kids != [] && All(kids[i].sub) != [] && All(kids[n].sub) != [])
    ensures LongKey(psize, Moved(kids, i).2)
  {
  }

  lemma {:induction false} NewSeparatorLong(psize: nat, kids: seq<Kid>, i: nat, d: nat)
    requires ValidPsize(psize) && Rebalancing(kids, i, d, psize)
    requires var n := if i == 0 then 1 else i - 1; 1 < NumKeys(kids[n].sub) && LongKeys(psize, kids[n].sub)
    ensures LongKey(psize, NewSeparator(psize, kids, i, d))
  {
    MovedKey(psize, kids, i, d);
    MovedLong(psize, kids, i);
  }

  lemma {:induction false} UpdateSepLong(psize: nat, kids: seq<Kid>, j: nat, key: Key)
    requires ValidPsize(psize) && 1 <= j < |kids| && |key| <= MAXKEYSIZE && Used(Branch(kids)) <= Pmax(psize)
    requires forall i :: 0 <= i < |kids| ==> |kids[i].sep| <= MAXKEYSIZE
    requires LongSeps(psize, kids) && LongKey(psize, key)
    ensures var r := UpdateKey(psize, kids, j, key); r.Broke? ==> LongKey(psize, r.sep)
  {
    var rest := kids[..j] + kids[j + 1..];
    RemovedKidUsed(kids, j);
    if Used(Branch(rest)) + BranchNode(key) > Pmax(psize) {
      KidsSplittable(psize, rest, key);
      assert LongSeps(psize, rest) by {
        forall i | 1 <= i < |rest| ensures LongKey(psize, rest[i].sep) { assert rest[i] == kids[if i < j then i else i + 1]; }
      }
      SplitSepLong(psize, rest, j, Kid(key, kids[j].sub));
    }
  }

  lemma {:induction false} RebalanceSepLong(psize: nat, kids: seq<Kid>, i: nat, d: nat)
    requires ValidPsize(psize) && Rebalancing(kids, i, d, psize) && LongSeps(psize, kids)
    requires LongKeys(psize, kids[if i == 0 then 1 else i - 1].sub)
    ensures var r := Rebalance(psize, kids, i, d); r.Broke? ==> LongKey(psize, r.sep)
  {
    var n := if i == 0 then 1 else i - 1;
    if !Balanced(kids[i].sub, psize) && Lends(kids[n].sub, kids[i].sub, psize) {
      var a, l, r, sep := MovingIs(psize, kids, i, d);
      MovedLong(psize, kids, i);
      PairSepLong(psize, kids, a, l, r, sep);
    }
  }

  lemma {:induction false} PairSepLong(psize: nat, kids: seq<Kid>, a: nat, l: Tree, r: Tree, sep: Key)
    requires ValidPsize(psize) && a + 1 < |kids| && |sep| <= MAXKEYSIZE && Used(Branch(kids)) <= Pmax(psize)
    requires forall i :: 0 <= i < |kids| ==> |kids[i].sep| <= MAXKEYSIZE
    requires LongSeps(psize, kids) && LongKey(psize, sep)
    ensures var r := UpdateKey(psize, SetPair(kids, a, l, r), a + 1, sep); r.Broke? ==> LongKey(psize, r.sep)
  {
    UpdateSepLong(psize, SetPair(kids, a, l, r), a + 1, sep);
  }

  lemma {:induction false} UpwardSepLong(psize: nat, kids: seq<Kid>, i: nat, x: Del, d: nat)
    requires ValidPsize(psize) && i < |kids| && Used(Branch(kids)) <= Pmax(psize) && LongKeys(psize, Branch(kids))
    requires forall i :: 0 <= i < |kids| ==> |kids[i].sep| <= MAXKEYSIZE
    requires x.Broke? ==> |x.sep| <= MAXKEYSIZE && LongKey(psize, x.sep)
    requires x.Shrunk? ==> Rebalancing(SetSub(kids, i, x.t), i, d, psize)
    ensures var r := Upward(psize, kids, i, x, d); r.Broke? ==> LongKey(psize, r.sep)
  {
    match x
    case Broke(l, sep, r) => AddSepLong(psize, SetSub(kids, i, l), i + 1, Kid(sep, r));
    case Shrunk(sub) => RebalanceSepLong(psize, SetSub(kids, i, sub), i, d);
    case _ =>
  }

  lemma {:induction false} LongKid(psize: nat, kids: seq<Kid>, i: nat)
    requires i < |kids|
    ensures LongKeys(psize, Branch(kids)) ==> LongKeys(psize, kids[i].sub)
  {
  }

  lemma {:induction false} DelSepLong(psize: nat, t: Tree, d: nat, key: Key)
    requires ValidPsize(psize) && WF(t, d, psize) && Found(All(t), key) && LongKeys(psize, t)
    ensures var r := DelTree(psize, t, d, key); r.Broke? ==> LongKey(psize, r.sep)
    decreases t
  {
    if t.Branch? {
      var i, x := KidResultIs(psize, t.kids, d, key);
      LongKid(psize, t.kids, i);
      DelSepLong(psize, t.kids[i].sub, d - 1, key);
      BranchDelSepLong(psize, t.kids, d, key, i, x);
    }
  }

  lemma {:induction false} BranchDelSepLong(psize: nat, kids: seq<Kid>, d: nat, key: Key, i: nat, x: Del)
    requires ValidPsize(psize) && WF(Branch(kids), d, psize) && Found(Flat(kids), key) && LongKeys(psize, Branch(kids))
    requires KidResult(psize, kids, d, key, i, x) && (x.Broke? ==> LongKey(psize, x.sep))
    ensures var r := DelTree(psize, Branch(kids), d, key); r.Broke? ==> LongKey(psize, r.sep)
  {
    DelUnfold(psize, kids, d, key, i, x);
    UpwardSepLong(psize, kids, i, x, d);
  }

  // ---------------------------------------------------------------- no failure on a roomy path

  lemma {:induction false} RoomyKidPut(psize: nat, kids: seq<Kid>, d: nat, key: Key, data: Bytes, reuse: bool, i: nat, x: Ins,
                                       roomy: bool)
    requires ValidPsize(psize) && i < |kids| && d > 0 && WF(kids[i].sub, d - 1, psize) && ValidKey(key)
    requires x == PutTree(psize, kids[i].sub, d - 1, key, data, reuse) && (x.Halves? ==> |x.sep| <= MAXKEYSIZE)
    requires if roomy then Roomy(psize, Branch(kids), MAXBRANCH) else LongKeys(psize, kids[i].sub) && LongKey(psize, key)
    ensures x.Halves? ==> !SplitJams(psize, KidSizes(kids), i + 1, BranchNode(x.sep), false)
  {
    if x.Halves? {
      if !roomy { PutSepLong(psize, kids[i].sub, d - 1, key, data, reuse); }
      RoomyKids(psize, kids, i + 1, x.sep);
    }
  }

  lemma {:induction false} RoomyKidDelete(psize: nat, kids: seq<Kid>, d: nat, key: Key, i: nat, x: Del, roomy: bool)
    requires ValidPsize(psize) && i < |kids| && d > 0 && WF(kids[i].sub, d - 1, psize) && Found(All(kids[i].sub), key)
    requires x == DelTree(psize, kids[i].sub, d - 1, key) && (x.Broke? ==> |x.sep| <= MAXKEYSIZE)
    requires x.Shrunk? ==> Rebalancing(SetSub(kids, i, x.t), i, d, psize)
    requires if roomy then Roomy(psize, Branch(kids), MAXBRANCH) else LongKeys(psize, Branch(kids))
    ensures !UpwardJams(psize, kids, i, x, d)
  {
    if !roomy {
      LongKid(psize, kids, i);
      DelSepLong(psize, kids[i].sub, d - 1, key);
    }
    RoomyUpward(psize, kids, i, x, d, roomy);
  }

  lemma {:induction false} RoomyBranchDelete(psize: nat, kids: seq<Kid>, d: nat, key: Key, i: nat, x: Del, roomy: bool)
    requires ValidPsize(psize) && WF(Branch(kids), d, psize) && Found(Flat(kids), key) && KidResult(psize, kids, d, key, i, x)
    requires if roomy then Roomy(psize, Branch(kids), MAXBRANCH) else LongKeys(psize, Branch(kids))
    requires !DelJams(psize, kids[i].sub, d - 1, key)
    ensures !DelJams(psize, Branch(kids), d, key)
  {
    RoomyKidDelete(psize, kids, d, key, i, x, roomy);
    DelJamsUnfold(psize, kids, d, key, i, x);
  }

  /** On a roomy path a put does not fail. */
  lemma {:induction false} RoomyPut(psize: nat, t: Tree, d: nat, key: Key, data: Bytes, reuse: bool)
    requires ValidPsize(psize) && WF(t, d, psize) && ValidKey(key)
    requires RoomyPath(psize, t, key, LeafNode(NewEntry(psize, key, data)))
    ensures !PutTree(psize, t, d, key, data, reuse).Full? && !PutJams(psize, t, d, key, data, reuse)
    decreases t
  {
    match t
    case Leaf(es) =>
      RoomyLeaf(psize, es, key, data, reuse);
      PutFullExactly(psize, t, d, key, data, reuse);
    case Branch(kids) =>
      var i, x := PutUnfold(psize, kids, d, key, data, reuse);
      RoomyPut(psize, kids[i].sub, d - 1, key, data, reuse);
      LongKid(psize, kids, i);
      RoomyKidPut(psize, kids, d, key, data, reuse, i, x, Roomy(psize, t, MAXBRANCH));
      PutFullExactly(psize, t, d, key, data, reuse);
  }

  lemma {:induction false} RoomyRebalance(psize: nat, kids: seq<Kid>, i: nat, d: nat, roomy: bool)
    requires ValidPsize(psize) && Rebalancing(kids, i, d, psize)
    requires if roomy then Roomy(psize, Branch(kids), MAXBRANCH) else LongKeys(psize, kids[if i == 0 then 1 else i - 1].sub)
    ensures !RebalanceJams(psize, kids, i, d)
  {
    if RebalanceJams(psize, kids, i, d) {
      var a := if i == 0 then 0 else i - 1;
      if roomy { RoomyRest(psize, kids, a + 1); }
      else { NewSeparatorLong(psize, kids, i, d); }
      RoomyKids(psize, kids[..a + 1] + kids[a + 2..], a + 1, NewSeparator(psize, kids, i, d));
    }
  }

  lemma {:induction false} RoomyUpward(psize: nat, kids: seq<Kid>, i: nat, x: Del, d: nat, roomy: bool)
    requires ValidPsize(psize) && i < |kids|
    requires if roomy then Roomy(psize, Branch(kids), MAXBRANCH)
      else LongKeys(psize, Branch(kids)) && (x.Broke? ==> LongKey(psize, x.sep))
    requires x.Broke? ==> |x.sep| <= MAXKEYSIZE
    requires x.Shrunk? ==> Rebalancing(SetSub(kids, i, x.t), i, d, psize)
    ensures !UpwardJams(psize, kids, i, x, d)
  {
    match x
    case Broke(_, sep, _) => RoomyKids(psize, kids, i + 1, sep);
    case Shrunk(sub) =>
      var n := if i == 0 then 1 else i - 1;
      if !roomy { LongKid(psize, kids, n); }
      RoomyRebalance(psize, SetSub(kids, i, sub), i, d, roomy);
    case _ =>
  }

  /** On a roomy path a deletion does not fail. */
  lemma {:induction false} RoomyDelete(psize: nat, t: Tree, d: nat, key: Key)
    requires ValidPsize(psize) && WF(t, d, psize) && Found(All(t), key) && RoomyPath(psize, t, key, 0)
    ensures !DelTree(psize, t, d, key).Jammed? && !DelJams(psize, t, d, key)
    decreases t
  {
    DelJamsExactly(psize, t, d, key);
    match t
    case Leaf(_) =>
    case Branch(kids) =>
      var i, x := KidResultIs(psize, kids, d, key);
      RoomyDelete(psize, kids[i].sub, d - 1, key);
      RoomyBranchDelete(psize, kids, d, key, i, x, Roomy(psize, t, MAXBRANCH));
  }

  // ---------------------------------------------------------------- failures

  function Zeros(n: nat): (r: Bytes)
    ensures |r| == n
  {
    seq(n, _ => 0)
  }

  function SmallOrLarge(i: Byte): Entry { Entry([i], if i < 16 then [] else Zeros(231), 0) }

  /** A leaf of 16 small and 16 large entries. */
  function FullLeaf(): (es: seq<Entry>)
    ensures |es| == 32
  {
    seq(32, i requires 0 <= i < 32 => SmallOrLarge(i))
  }

  lemma FullLeafSizes()
    ensures LeafSizes(FullLeaf()) == seq(16, _ => 12) + seq(16, _ => 242)
    ensures Sum(LeafSizes(FullLeaf())) == 4064 && Sum(LeafSizes(FullLeaf())[16..]) == 3872
  {
    var a, b := seq(16, _ => 12), seq(16, _ => 242);
    assert LeafSizes(FullLeaf()) == a + b;
    SumConst(16, 12);
    SumConst(16, 242);
    SumConcat(a, b);
    assert (a + b)[16..] == b;
  }

  lemma {:induction false} FirstByte(a: Key, b: Key)
    requires a != [] && b != [] && a[0] < b[0]
    ensures Lt(a, b) && Le(a, b)
  {
    LtTotal(a, b);
  }

  /** Keys of one byte, ascending. */
  lemma OneByteKeys(es: seq<Entry>)
    requires forall i :: 0 <= i < |es| ==> |es[i].key| == 1 && es[i].key[0] == i
    ensures Sorted(es)
  {
    forall i, j | 0 <= i < j < |es| ensures Lt(es[i].key, es[j].key) { FirstByte(es[i].key, es[j].key); }
  }

  lemma FullLeafEntries(psize: nat, es: seq<Entry>)
    requires psize == 4096 && es == FullLeaf()
    ensures Sorted(es) && EntriesOk(es, psize)
  {
    OneByteKeys(es);
  }

  lemma FullLeafWF()
    ensures WF(Leaf(FullLeaf()), 1, 4096)
  {
    FullLeafSizes();
    FullLeafEntries(4096, FullLeaf());
    LeafWF(FullLeaf(), 4096);
  }

  lemma FullLeafPlace()
    ensures LowerBound(FullLeaf(), [19, 5]) == 20 && !Found(FullLeaf(), [19, 5])
  {
    var es := FullLeaf();
    forall j | 0 <= j < 20 ensures Lt(es[j].key, [19, 5]) {
      if j < 19 { FirstByte(es[j].key, [19, 5]); }
    }
    FirstByte([19, 5], es[20].key);
    BoundUnique(es, [19, 5], 20);
  }

  lemma NewEntrySize(psize: nat, key: Key, data: Bytes)
    requires ValidPsize(psize) && ValidKey(key) && NODESIZE + |key| + |data| <= NodeMax(psize)
    ensures LeafNode(NewEntry(psize, key, data)) == Even(NODESIZE + |key| + |data|) + 2
  {
  }

  lemma {:induction false} NewKeyJams(psize: nat, es: seq<Entry>, i: nat, n: nat, key: Key, data: Bytes, reuse: bool)
    requires ValidPsize(psize) && WF(Leaf(es), 1, psize) && ValidKey(key)
    requires i == LowerBound(es, key) && !Found(es, key) && n == LeafNode(NewEntry(psize, key, data))
    requires SplitJams(psize, LeafSizes(es), i, n, true)
    ensures PutTree(psize, Leaf(es), 1, key, data, reuse).Full?
  {
    PutFullExactly(psize, Leaf(es), 1, key, data, reuse);
  }

  /** No room for a node of 254 bytes among the large ones. */
  lemma {:induction false} FullLeafRefuses(psize: nat, es: seq<Entry>, key: Key, data: Bytes, reuse: bool)
    requires psize == 4096 && WF(Leaf(es), 1, psize) && ValidKey(key) && |key| + |data| == 244
    requires |es| == 32 && LowerBound(es, key) == 20 && !Found(es, key)
    requires Sum(LeafSizes(es)) == 4064 && Sum(LeafSizes(es)[16..]) == 3872
    ensures PutTree(psize, Leaf(es), 1, key, data, reuse).Full?
  {
    NewEntrySize(psize, key, data);
    NewKeyJams(psize, es, 20, 254, key, data, reuse);
  }

  /** A put into a full leaf that fails. */
  lemma {:induction false} PutFailsInLeaf(reuse: bool)
    ensures WF(Leaf(FullLeaf()), 1, 4096)
    ensures PutTree(4096, Leaf(FullLeaf()), 1, [19, 5], Zeros(242), reuse).Full?
  {
    FullLeafWF();
    FullLeafPlace();
    FullLeafSizes();
    FullLeafRefuses(4096, FullLeaf(), [19, 5], Zeros(242), reuse);
  }

  // ---------------------------------------------------------------- a crowded branch

  function Long(b: Byte): Key { [b] + Zeros(245) }
  function SepOf(b: Byte): Key { if b == 0 then [] else if b <= 16 || b == 20 then [b] else Long(b) }
  function Middle(): Key { [19, 1] + Zeros(242) }

  /** The leaf whose keys begin with byte b. */
  function LeafOf(b: Byte): seq<Entry> {
    if b == 19 then [Entry(Long(19), Zeros(1700), 0), Entry(Middle(), Zeros(1700), 0)]
    else [Entry(if b == 0 then [0] else SepOf(b), [], 0)]
  }

  function KidOf(b: Byte): Kid { Kid(SepOf(b), Leaf(LeafOf(b))) }

  /** First bytes 0 to 19 and 21 to 32. */
  function ByteAt(j: nat): Byte
    requires j < 32
  {
    if j < 20 then j else j + 1
  }

  function Crowded(): (kids: seq<Kid>)
    ensures |kids| == 32
  {
    seq(32, j requires 0 <= j < 32 => KidOf(ByteAt(j)))
  }

  /** ... and 20 as well. */
  function Crowded20(): (kids: seq<Kid>)
    ensures |kids| == 33
  {
    seq(33, j requires 0 <= j < 33 => KidOf(j))
  }

  lemma KidSize(b: Byte)
    ensures BranchNode(SepOf(b)) == if b == 0 then EMPTYNODE else if b <= 16 || b == 20 then 12 else 256
  {
  }

  lemma CrowdedKidSizes()
    ensures KidSizes(Crowded()) == CrowdedSizes()
  {
    var s := KidSizes(Crowded());
    forall j | 0 <= j < 32 ensures s[j] == CrowdedSizes()[j] {
      KidSize(ByteAt(j));
    }
  }

  lemma CrowdedInsert()
    ensures Crowded20() == Insert(Crowded(), 20, KidOf(20))
  {
    var a, b := Crowded20(), Insert(Crowded(), 20, KidOf(20));
    forall j | 0 <= j < 33 ensures a[j] == b[j] {}
  }

  lemma CrowdedAre()
    ensures Used(Branch(Crowded())) == 4042 && Used(Branch(Crowded20())) == 4054
  {
    CrowdedKidSizes();
    CrowdedSum();
    CrowdedInsert();
    KidSize(20);
    KidSizesInsert(Crowded(), 20, KidOf(20));
    SumInsert(CrowdedSizes(), 20, 12);
  }

  lemma LongBelowMiddle()
    ensures Lt(Long(19), Middle()) && Le(Long(19), Middle())
  {
    var a, b := Long(19), Middle();
    assert a[1..] == Zeros(245) && b[1..] == [1] + Zeros(242);
    FirstByte(a[1..], b[1..]);
    LtTotal(a, b);
  }

  lemma LeafOfHolds(b: Byte)
    ensures WF(Leaf(LeafOf(b)), 1, 4096) && NotBelow(LeafOf(b), SepOf(b)) && LeafOf(b) != []
    ensures forall i :: 0 <= i < |LeafOf(b)| ==> LeafOf(b)[i].key != [] && LeafOf(b)[i].key[0] == b
  {
    var es := LeafOf(b);
    LtTotal(es[0].key, es[0].key);
    if b == 19 {
      LongBelowMiddle();
      UsedLeaf19();
    } else {
      UsedOneEntry(es[0]);
    }
    LeafWF(es, 4096);
  }

  lemma UsedLeaf19()
    ensures LeafSizes(LeafOf(19)) == [1956, 1954] && Used(Leaf(LeafOf(19))) == 3910
  {
    assert LeafSizes(LeafOf(19)) == [1956, 1954];
    assert [1956, 1954][1..] == [1954];
    assert Sum([1954]) == 1954;
  }

  /** Kids with ascending first bytes are well-formed. */
  lemma KidsOfBytes(kids: seq<Kid>, bytes: seq<Byte>)
    requires 2 <= |kids| == |bytes| && bytes[0] == 0 && Used(Branch(kids)) <= 4080
    requires forall i :: 0 <= i < |kids| ==> kids[i] == KidOf(bytes[i])
    requires forall i, j :: 0 <= i < j < |kids| ==> bytes[i] < bytes[j]
    ensures WF(Branch(kids), 2, 4096)
  {
    forall i | 0 <= i < |kids| ensures WF(kids[i].sub, 1, 4096) { LeafOfHolds(bytes[i]); }
    forall i {:trigger Separates(kids, i)} | 1 <= i < |kids| ensures Separates(kids, i) {
      LeafOfHolds(bytes[i - 1]);
      LeafOfHolds(bytes[i]);
      Apart(bytes[i - 1], bytes[i]);
    }
    NodesMakeBranch(kids, 2, 4096);
  }

  lemma Apart(a: Byte, b: Byte)
    requires a < b
    ensures Below(LeafOf(a), SepOf(b))
  {
    LeafOfHolds(a);
    forall i | 0 <= i < |LeafOf(a)| ensures Lt(LeafOf(a)[i].key, SepOf(b)) { FirstByte(LeafOf(a)[i].key, SepOf(b)); }
  }

  lemma CrowdedWF()
    ensures WF(Branch(Crowded()), 2, 4096)
  {
    CrowdedAre();
    KidsOfBytes(Crowded(), seq(32, j requires 0 <= j < 32 => ByteAt(j)));
  }

  lemma Crowded20WF()
    ensures WF(Branch(Crowded20()), 2, 4096)
  {
    CrowdedAre();
    KidsOfBytes(Crowded20(), seq(33, j requires 0 <= j < 33 => j));
  }

  lemma {:induction false} ChildIs(kids: seq<Kid>, key: Key, i: nat)
    requires i < |kids| && (i > 0 ==> Le(kids[i].sep, key)) && forall j :: i < j < |kids| ==> Lt(key, kids[j].sep)
    ensures ChildIndex(kids, key) == i
  {
    var c := ChildIndex(kids, key);
    assert !(c < i) && !(i < c);
  }

  lemma CrowdedChild()
    ensures ChildIndex(Crowded(), [19, 2]) == 19
  {
    var kids := Crowded();
    assert Long(19)[1..] == Zeros(245) && [19, 2][1..] == [2];
    FirstByte(Zeros(245), [2]);
    LtTotal(Long(19), [19, 2]);
    forall j | 19 < j < 32 ensures Lt([19, 2], kids[j].sep) { FirstByte([19, 2], kids[j].sep); }
    ChildIs(kids, [19, 2], 19);
  }

  lemma Crowded20Child()
    ensures ChildIndex(Crowded20(), [20]) == 20
  {
    var kids := Crowded20();
    LtTotal([20], [20]);
    forall j | 20 < j < 33 ensures Lt([20], kids[j].sep) { FirstByte([20], kids[j].sep); }
    ChildIs(kids, [20], 20);
  }

  /** The split of leaf 19 by a third large entry. */
  lemma {:induction false} Leaf19Splits(reuse: bool)
    ensures WF(Leaf(LeafOf(19)), 1, 4096)
    ensures PutTree(4096, Leaf(LeafOf(19)), 1, [19, 2], Zeros(1000), reuse).Halves?
    ensures PutTree(4096, Leaf(LeafOf(19)), 1, [19, 2], Zeros(1000), reuse).sep == Middle()
  {
    var es, key := LeafOf(19), [19, 2];
    var e := NewEntry(4096, key, Zeros(1000));
    LeafOfHolds(19);
    UsedLeaf19();
    Leaf19Place();
    var sz := Insert(LeafSizes(es), 2, LeafNode(e));
    assert sz == [1956, 1954, 1012];
    assert ScanUp(sz, 4080, 1, 2, 1956) == 1;
    assert SplitIndex(4096, LeafSizes(es), 2, LeafNode(e), true) == 1;
    LeafSplittable(4096, es, e);
    ScanSplitFits(4096, LeafSizes(es), 2, LeafNode(e), true);
  }

  lemma Leaf19Place()
    ensures LowerBound(LeafOf(19), [19, 2]) == 2
  {
    var es := LeafOf(19);
    assert Long(19)[1..] == Zeros(245) && Middle()[1..] == [1] + Zeros(242) && [19, 2][1..] == [2];
    FirstByte(Zeros(245), [2]);
    FirstByte([1] + Zeros(242), [2]);
    BoundUnique(es, [19, 2], 2);
  }

  lemma MiddleJams()
    ensures SplitJams(4096, CrowdedSizes(), 20, BranchNode(Middle()), false)
  {
    CrowdedSum();
  }

  /** A put that splits a leaf and fails in the branch page above it. */
  lemma {:induction false} PutFailsInBranch(reuse: bool)
    ensures WF(Branch(Crowded()), 2, 4096)
    ensures PutTree(4096, Branch(Crowded()), 2, [19, 2], Zeros(1000), reuse).Full?
  {
    CrowdedWF();
    CrowdedKidSizes();
    CrowdedChild();
    Leaf19Splits(reuse);
    MiddleJams();
    assert Crowded()[19].sub == Leaf(LeafOf(19));
    var i, x := PutUnfold(4096, Crowded(), 2, [19, 2], Zeros(1000), reuse);
  }

  lemma Leaf20Empties()
    ensures Found(LeafOf(20), [20]) && Remove(LeafOf(20), [20]) == []
  {
    LtTotal([20], [20]);
    BoundUnique(LeafOf(20), [20], 0);
  }

  lemma WithoutTwenty()
    ensures var kids := SetSub(Crowded20(), 20, Leaf([]));
      kids[..20] + kids[21..] == Crowded()
  {
    CrowdedInsert();
  }

  lemma Leaf19CanLend(psize: nat, src: Tree, dst: Tree)
    requires psize == 4096 && src == Leaf(LeafOf(19)) && dst == Leaf([])
    ensures !Balanced(dst, psize) && Lends(src, dst, psize)
  {
    UsedLeaf19();
  }

  /** The separator does not go in where that of leaf 20 was. */
  lemma SeparatorRefused(psize: nat, kids: seq<Kid>, sep: Key)
    requires psize == 4096 && |kids| == 33 && KidSizes(kids[..20] + kids[21..]) == CrowdedSizes() && sep == Middle()
    ensures SeparatorJams(psize, kids, 19, sep)
  {
    MiddleJams();
  }

  /** The empty leaf takes the last entry of its neighbour, whose key becomes the separator. */
  lemma Leaf19Lends(psize: nat, kids: seq<Kid>)
    requires psize == 4096 && kids == SetSub(Crowded20(), 20, Leaf([])) && Rebalancing(kids, 20, 2, psize)
    ensures RebalanceJams(psize, kids, 20, 2)
  {
    CrowdedKidSizes();
    WithoutTwenty();
    Leaf19CanLend(psize, kids[19].sub, kids[20].sub);
    var sep := NewSeparator(psize, kids, 20, 2);
    assert sep == Middle();
    SeparatorRefused(psize, kids, sep);
  }

  /** Deleting the only entry of a leaf, when rebalancing fails. */
  lemma {:induction false} OnlyEntryJams(psize: nat, kids: seq<Kid>, i: nat, key: Key)
    requires ValidPsize(psize) && WF(Branch(kids), 2, psize) && i == ChildIndex(kids, key) && kids[i].sub.Leaf?
    requires Found(kids[i].sub.es, key) && Remove(kids[i].sub.es, key) == []
    ensures Rebalancing(SetSub(kids, i, Leaf([])), i, 2, psize) && Found(All(Branch(kids)), key)
    ensures RebalanceJams(psize, SetSub(kids, i, Leaf([])), i, 2) ==> DelTree(psize, Branch(kids), 2, key).Jammed?
  {
    FoundDescends(kids, 2, key);
    var i, x := KidResultIs(psize, kids, 2, key);
    assert x == Shrunk(Leaf([]));
    DelJamsUnfold(psize, kids, 2, key, i, x);
    DelJamsExactly(psize, Branch(kids), 2, key);
  }

  /** A deletion that fails: the tree is as it should be, the key is there. */
  lemma DeleteFails()
    ensures WF(Branch(Crowded20()), 2, 4096) && Found(All(Branch(Crowded20())), [20])
    ensures DelTree(4096, Branch(Crowded20()), 2, [20]).Jammed?
  {
    var kids := Crowded20();
    Crowded20WF();
    Crowded20Child();
    Leaf20Empties();
    assert kids[20].sub == Leaf(LeafOf(20));
    OnlyEntryJams(4096, kids, 20, [20]);
    Leaf19Lends(4096, SetSub(kids, 20, Leaf([])));
  }
}
