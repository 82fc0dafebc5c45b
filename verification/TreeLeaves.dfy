/**
 What puts and deletions do to the leaf pages, from left to right: which page
 changes, when one is split, and when one is topped up from a neighbour or
 merged with it.
 */
module TreeLeaves {
  import opened Keys
  import opened PageFormat
  import opened Items
  import opened PageSplit
  import opened Tree
  import opened TreeSearch
  import opened TreePut
  import opened TreePutProof
  import opened TreeDel
  import opened TreeDelProof
  import opened TreeDelete

  /** The leaf pages under a page. */
  function Leaves(t: Tree): seq<seq<Entry>>
    decreases t
  {
    match t
    case Leaf(es) => [es]
    case Branch(kids) => KidLeaves(kids)
  }

  function KidLeaves(kids: seq<Kid>): seq<seq<Entry>>
    decreases kids
  {
    if kids == [] then [] else Leaves(kids[0].sub) + KidLeaves(kids[1..])
  }

  lemma {:induction false} LeavesConcat(a: seq<Kid>, b: seq<Kid>)
    ensures KidLeaves(a + b) == KidLeaves(a) + KidLeaves(b)
  {
    if a == [] {
      assert a + b == b;
    } else {
      assert (a + b)[1..] == a[1..] + b;
      LeavesConcat(a[1..], b);
    }
  }

  lemma LeavesOne(k: Kid)
    ensures KidLeaves([k]) == Leaves(k.sub)
  {
    assert [k][1..] == [];
  }

  lemma LeavesTwo(k: Kid, l: Kid)
    ensures KidLeaves([k, l]) == Leaves(k.sub) + Leaves(l.sub)
  {
    assert [k, l] == [k] + [l];
    LeavesConcat([k], [l]);
    LeavesOne(k);
    LeavesOne(l);
  }

  lemma {:induction false} LeavesRun(kids: seq<Kid>, a: nat, b: nat, mid: seq<Kid>)
    requires a <= b <= |kids|
    ensures KidLeaves(kids[..a] + mid + kids[b..]) == KidLeaves(kids[..a]) + KidLeaves(mid) + KidLeaves(kids[b..])
  {
    LeavesConcat(kids[..a] + mid, kids[b..]);
    LeavesConcat(kids[..a], mid);
  }

  lemma {:induction false} LeavesAt(kids: seq<Kid>, i: nat)
    requires i < |kids|
    ensures KidLeaves(kids) == KidLeaves(kids[..i]) + Leaves(kids[i].sub) + KidLeaves(kids[i + 1..])
  {
    assert kids == kids[..i] + [kids[i]] + kids[i + 1..];
    LeavesRun(kids, i, i + 1, [kids[i]]);
    LeavesOne(kids[i]);
  }

  /** The children of a page. */
  function Subs(kids: seq<Kid>): (r: seq<Tree>)
    ensures |r| == |kids| && forall i :: 0 <= i < |kids| ==> r[i] == kids[i].sub
  {
    seq(|kids|, i requires 0 <= i < |kids| => kids[i].sub)
  }

  /** Leaf pages do not depend on the separators. */
  lemma {:induction false} SameLeaves(a: seq<Kid>, b: seq<Kid>)
    requires Subs(a) == Subs(b)
    ensures KidLeaves(a) == KidLeaves(b)
  {
    assert |Subs(a)| == |a| && |Subs(b)| == |b|;
    if a != [] {
      assert Subs(a)[0] == a[0].sub && Subs(b)[0] == b[0].sub;
      assert Subs(a[1..]) == Subs(a)[1..] && Subs(b[1..]) == Subs(b)[1..];
      SameLeaves(a[1..], b[1..]);
    }
  }

  // ---------------------------------------------------------------- put

  function InsLeaves(r: Ins): seq<seq<Entry>> {
    match r
    case Grew(t) => Leaves(t)
    case Halves(l, _, r) => Leaves(l) + Leaves(r)
    case Full => []
  }

  /** A branch split keeps the leaf pages. */
  lemma {:induction false} SplitLeaves(all: seq<Kid>, s: nat)
    requires s < |all|
    ensures KidLeaves(all[..s]) + KidLeaves([Kid([], all[s].sub)] + all[s + 1..]) == KidLeaves(all)
  {
    var right := [Kid([], all[s].sub)] + all[s + 1..];
    assert Subs(right) == Subs(all[s..]);
    SameLeaves(right, all[s..]);
    assert all == all[..s] + all[s..];
    LeavesConcat(all[..s], all[s..]);
  }

  lemma {:induction false} AddKidLeaves(psize: nat, kids: seq<Kid>, i: nat, kid: Kid)
    requires ValidPsize(psize) && i <= |kids| && |kid.sep| <= MAXKEYSIZE
    requires forall i :: 0 <= i < |kids| ==> |kids[i].sep| <= MAXKEYSIZE
    requires Used(Branch(kids)) <= Pmax(psize) && !AddKid(psize, kids, i, kid).Full?
    ensures InsLeaves(AddKid(psize, kids, i, kid)) == KidLeaves(Insert(kids, i, kid))
  {
    if Used(Branch(kids)) + BranchNode(kid.sep) > Pmax(psize) {
      KidsSplittable(psize, kids, kid.sep);
      SplitKidLeaves(psize, kids, i, kid);
    }
  }

  lemma {:induction false} SplitKidLeaves(psize: nat, kids: seq<Kid>, i: nat, kid: Kid)
    requires ValidPsize(psize) && i <= |kids| && 2 <= |kids| && !SplitKids(psize, kids, i, kid).Full?
    ensures InsLeaves(SplitKids(psize, kids, i, kid)) == KidLeaves(Insert(kids, i, kid))
  {
    SplitLeaves(Insert(kids, i, kid), SplitIndex(psize, KidSizes(kids), i, BranchNode(kid.sep), false));
  }

  /** How a put changes the leaf pages: page j gets the new entry, and is cut in
      two, where PageSplit.SplitPoint says, exactly when it then has no room. */
  ghost predicate LeafPut(was: seq<seq<Entry>>, now: seq<seq<Entry>>, j: nat, e: Entry, psize: nat) {
    && j < |was|
    && var es := Upsert(was[j], e);
       if Sum(LeafSizes(es)) <= psize - PAGEHDRSZ then now == was[..j] + [es] + was[j + 1..]
       else exists s: nat {:trigger es[..s]} ::
         IsCut(psize, es, LowerBound(was[j], e.key), s) && now == was[..j] + [es[..s], es[s..]] + was[j + 1..]
  }

  predicate IsCut(psize: nat, es: seq<Entry>, at: nat, s: nat) {
    0 < s < |es| && at < |es| && 3 <= |es| && SplitPoint(psize, LeafSizes(es), at, true, s)
  }

  /** The same within a run of leaf pages. */
  lemma LeafPutWithin(a: seq<seq<Entry>>, was: seq<seq<Entry>>, now: seq<seq<Entry>>, b: seq<seq<Entry>>, j: nat, e: Entry,
                      psize: nat)
    requires LeafPut(was, now, j, e, psize)
    ensures LeafPut(a + was + b, a + now + b, |a| + j, e, psize)
  {
    var w, es := a + was + b, Upsert(was[j], e);
    assert w[|a| + j] == was[j];
    if Sum(LeafSizes(es)) <= psize - PAGEHDRSZ {
      RunWithin(a, was, now, b, j, [es], j + 1);
    } else {
      var s: nat :| IsCut(psize, es, LowerBound(was[j], e.key), s) && now == was[..j] + [es[..s], es[s..]] + was[j + 1..];
      RunWithin(a, was, now, b, j, [es[..s], es[s..]], j + 1);
    }
  }

  lemma RunWithin<T>(a: seq<T>, was: seq<T>, now: seq<T>, b: seq<T>, i: nat, mid: seq<T>, j: nat)
    requires i <= j <= |was| && now == was[..i] + mid + was[j..]
    ensures var w := a + was + b; a + now + b == w[..|a| + i] + mid + w[|a| + j..]
  {
    var w := a + was + b;
    assert w[..|a| + i] == a + was[..i] && w[|a| + j..] == was[j..] + b;
  }

  lemma RunAlone<T>(x: T, mid: seq<T>)
    ensures [x][..0] + mid + [x][1..] == mid
  {
    assert [x][..0] == [] && [x][1..] == [];
  }

  lemma {:induction false} AddEntryLeaves(psize: nat, es: seq<Entry>, i: nat, e: Entry, all: seq<Entry>, r: Ins)
    requires ValidPsize(psize) && i <= |es| && EntriesOk(es, psize) && EntryOk(e, psize) && Used(Leaf(es)) <= Pmax(psize)
    requires all == Insert(es, i, e) && r == AddEntry(psize, es, i, e) && !r.Full?
    ensures if Sum(LeafSizes(all)) <= psize - PAGEHDRSZ then InsLeaves(r) == [all]
      else exists s: nat {:trigger all[..s]} :: IsCut(psize, all, i, s) && InsLeaves(r) == [all[..s], all[s..]]
  {
    LeafSizesInsert(es, i, e);
    SumInsert(LeafSizes(es), i, LeafNode(e));
    if Used(Leaf(es)) + LeafNode(e) > Pmax(psize) {
      LeafSplittable(psize, es, e);
      SplitPointIs(psize, LeafSizes(es), i, LeafNode(e), true);
      var s := SplitIndex(psize, LeafSizes(es), i, LeafNode(e), true);
      assert IsCut(psize, all, i, s) && InsLeaves(r) == [all[..s], all[s..]];
    }
  }

  lemma {:induction false} ReplacedLeaves(psize: nat, es: seq<Entry>, i: nat, e: Entry, all: seq<Entry>, r: Ins)
    requires ValidPsize(psize) && i < |es| && EntriesOk(es, psize) && EntryOk(e, psize) && Used(Leaf(es)) <= Pmax(psize)
    requires var rest := es[..i] + es[i + 1..];
      EntriesOk(rest, psize) && Used(Leaf(rest)) <= Pmax(psize) && r == AddEntry(psize, rest, i, e)
    requires all == es[i := e] && !r.Full?
    ensures if Sum(LeafSizes(all)) <= psize - PAGEHDRSZ then InsLeaves(r) == [all]
      else exists s: nat {:trigger all[..s]} :: IsCut(psize, all, i, s) && InsLeaves(r) == [all[..s], all[s..]]
  {
    var rest := es[..i] + es[i + 1..];
    assert Insert(rest, i, e) == all;
    AddEntryLeaves(psize, rest, i, e, all, r);
  }

  lemma {:induction false} PutLeafLeaves(psize: nat, es: seq<Entry>, key: Key, data: Bytes, reuse: bool, e: Entry)
    requires ValidPsize(psize) && WF(Leaf(es), 1, psize) && ValidKey(key) && !PutLeaf(psize, es, key, data, reuse).Full?
    requires e == PutEntry(psize, Lookup(es, key), key, data, reuse)
    ensures LeafPut([es], InsLeaves(PutLeaf(psize, es, key, data, reuse)), 0, e, psize)
  {
    var i, all, r := LowerBound(es, key), Upsert(es, e), PutLeaf(psize, es, key, data, reuse);
    if !Found(es, key) {
      AddEntryLeaves(psize, es, i, e, all, r);
    } else if InPlace(psize, es[i], data, reuse) {
      SameSize(psize, es[i], e, data, reuse);
      assert LeafSizes(all) == LeafSizes(es);
    } else {
      Replaced(psize, es, key, data, reuse);
      ReplacedLeaves(psize, es, i, e, all, r);
    }
    LeafPutAlone(es, InsLeaves(r), e, psize);
  }

  lemma {:induction false} LeafPutAlone(es: seq<Entry>, now: seq<seq<Entry>>, e: Entry, psize: nat)
    requires var all := Upsert(es, e);
      if Sum(LeafSizes(all)) <= psize - PAGEHDRSZ then now == [all]
      else exists s: nat {:trigger all[..s]} :: IsCut(psize, all, LowerBound(es, e.key), s) && now == [all[..s], all[s..]]
    ensures LeafPut([es], now, 0, e, psize)
  {
    var all := Upsert(es, e);
    if Sum(LeafSizes(all)) <= psize - PAGEHDRSZ {
      RunAlone(es, [all]);
    } else {
      var s: nat :| IsCut(psize, all, LowerBound(es, e.key), s) && now == [all[..s], all[s..]];
      RunAlone(es, [all[..s], all[s..]]);
    }
  }

  /** One level of the way back up: kid i has become x. */
  lemma {:induction false} KidPutLeaves(psize: nat, kids: seq<Kid>, i: nat, x: Ins, r: Ins)
    requires ValidPsize(psize) && i < |kids| && Fits(Branch(kids), psize) && !x.Full? && !r.Full?
    requires x.Halves? ==> |x.sep| <= MAXKEYSIZE && Used(Branch(kids[i := kids[i].(sub := x.l)])) <= Pmax(psize)
    requires x.Grew? ==> r == Grew(Branch(kids[i := kids[i].(sub := x.t)]))
    requires x.Halves? ==> r == AddKid(psize, kids[i := kids[i].(sub := x.l)], i + 1, Kid(x.sep, x.r))
    ensures InsLeaves(r) == KidLeaves(kids[..i]) + InsLeaves(x) + KidLeaves(kids[i + 1..])
  {
    match x
    case Grew(t) =>
      var kid := kids[i].(sub := t);
      assert kids[i := kid] == kids[..i] + [kid] + kids[i + 1..];
      LeavesRun(kids, i, i + 1, [kid]);
      LeavesOne(kid);
    case Halves(l, sep, t) =>
      var kid := kids[i].(sub := l);
      var kids' := kids[i := kid];
      AddKidLeaves(psize, kids', i + 1, Kid(sep, t));
      HalvedRun(kids, i, l, Kid(sep, t), kids');
      LeavesRun(kids, i, i + 1, [kid, Kid(sep, t)]);
      LeavesTwo(kid, Kid(sep, t));
  }

  lemma {:induction false} LeafPutUp(psize: nat, kids: seq<Kid>, i: nat, x: Ins, r: Ins, k: nat, e: Entry) returns (j: nat)
    requires ValidPsize(psize) && i < |kids| && Fits(Branch(kids), psize) && !x.Full? && !r.Full?
    requires x.Halves? ==> |x.sep| <= MAXKEYSIZE && Used(Branch(kids[i := kids[i].(sub := x.l)])) <= Pmax(psize)
    requires x.Grew? ==> r == Grew(Branch(kids[i := kids[i].(sub := x.t)]))
    requires x.Halves? ==> r == AddKid(psize, kids[i := kids[i].(sub := x.l)], i + 1, Kid(x.sep, x.r))
    requires LeafPut(Leaves(kids[i].sub), InsLeaves(x), k, e, psize)
    ensures LeafPut(KidLeaves(kids), InsLeaves(r), j, e, psize)
  {
    KidPutLeaves(psize, kids, i, x, r);
    LeavesAt(kids, i);
    var a, b := KidLeaves(kids[..i]), KidLeaves(kids[i + 1..]);
    j := |a| + k;
    LeafPutLift(a, Leaves(kids[i].sub), InsLeaves(x), b, KidLeaves(kids), InsLeaves(r), k, e, psize);
  }

  lemma LeafPutLift(a: seq<seq<Entry>>, was: seq<seq<Entry>>, now: seq<seq<Entry>>, b: seq<seq<Entry>>,
                    w: seq<seq<Entry>>, v: seq<seq<Entry>>, j: nat, e: Entry, psize: nat)
    requires LeafPut(was, now, j, e, psize) && w == a + was + b && v == a + now + b
    ensures LeafPut(w, v, |a| + j, e, psize)
  {
    LeafPutWithin(a, was, now, b, j, e, psize);
  }

  /** What PutTree makes of a branch. */
  lemma {:induction false} PutStep(psize: nat, kids: seq<Kid>, d: nat, key: Key, data: Bytes, reuse: bool, i: nat, x: Ins, r: Ins)
    requires ValidPsize(psize) && WF(Branch(kids), d, psize) && ValidKey(key) && i == ChildIndex(kids, key)
    requires x == PutTree(psize, kids[i].sub, d - 1, key, data, reuse) && r == PutTree(psize, Branch(kids), d, key, data, reuse)
    ensures x.Full? ==> r.Full?
    ensures x.Grew? ==> r == Grew(Branch(kids[i := kids[i].(sub := x.t)]))
    ensures x.Halves? ==> |x.sep| <= MAXKEYSIZE && Used(Branch(kids[i := kids[i].(sub := x.l)])) <= Pmax(psize)
    ensures x.Halves? ==> r == AddKid(psize, kids[i := kids[i].(sub := x.l)], i + 1, Kid(x.sep, x.r))
  {
    if x.Halves? { KidSet(psize, kids, i, x.l); }
  }

  lemma {:induction false} KidPutsLeaves(psize: nat, kids: seq<Kid>, d: nat, key: Key, data: Bytes, reuse: bool, e: Entry,
                                         i: nat, x: Ins, r: Ins) returns (j: nat)
    requires ValidPsize(psize) && i < |kids| && d > 0 && WF(kids[i].sub, d - 1, psize) && ValidKey(key)
    requires Fits(Branch(kids), psize) && !x.Full? && !r.Full?
    requires x == PutTree(psize, kids[i].sub, d - 1, key, data, reuse)
    requires e == PutEntry(psize, Lookup(All(kids[i].sub), key), key, data, reuse)
    requires x.Halves? ==> |x.sep| <= MAXKEYSIZE && Used(Branch(kids[i := kids[i].(sub := x.l)])) <= Pmax(psize)
    requires x.Grew? ==> r == Grew(Branch(kids[i := kids[i].(sub := x.t)]))
    requires x.Halves? ==> r == AddKid(psize, kids[i := kids[i].(sub := x.l)], i + 1, Kid(x.sep, x.r))
    ensures LeafPut(KidLeaves(kids), InsLeaves(r), j, e, psize)
    decreases kids, 0
  {
    j := PutLeaves(psize, kids[i].sub, d - 1, key, data, reuse, e);
    j := LeafPutUp(psize, kids, i, x, r, j, e);
  }

  /** A put changes exactly one leaf page. */
  lemma {:induction false} PutLeaves(psize: nat, t: Tree, d: nat, key: Key, data: Bytes, reuse: bool, e: Entry) returns (j: nat)
    requires ValidPsize(psize) && WF(t, d, psize) && ValidKey(key) && !PutTree(psize, t, d, key, data, reuse).Full?
    requires e == PutEntry(psize, Lookup(All(t), key), key, data, reuse)
    ensures LeafPut(Leaves(t), InsLeaves(PutTree(psize, t, d, key, data, reuse)), j, e, psize)
    decreases t, 1
  {
    match t
    case Leaf(es) =>
      PutLeafLeaves(psize, es, key, data, reuse, e);
      j := 0;
    case Branch(kids) =>
      var i := ChildIndex(kids, key);
      var x, r := PutTree(psize, kids[i].sub, d - 1, key, data, reuse), PutTree(psize, t, d, key, data, reuse);
      LookupDescends(kids, d, key);
      PutStep(psize, kids, d, key, data, reuse, i, x, r);
      j := KidPutsLeaves(psize, kids, d, key, data, reuse, e, i, x, r);
  }

  // ---------------------------------------------------------------- the entries there are

  lemma {:induction false} FlatOk(kids: seq<Kid>, psize: nat)
    requires ValidPsize(psize) && forall i :: 0 <= i < |kids| ==> Fits(kids[i].sub, psize)
    ensures EntriesOk(Flat(kids), psize)
    decreases kids
  {
    if kids != [] {
      FitsOk(kids[0].sub, psize);
      FlatOk(kids[1..], psize);
    }
  }

  /** Every entry of a tree is kept as the store keeps entries. */
  lemma {:induction false} FitsOk(t: Tree, psize: nat)
    requires ValidPsize(psize) && Fits(t, psize)
    ensures EntriesOk(All(t), psize)
    decreases t
  {
    if t.Branch? { FlatOk(t.kids, psize); }
  }

  /** What a put leaves under its key, given the tree before. */
  lemma {:induction false} TreeStored(psize: nat, t: Tree, d: nat, key: Key, data: Bytes, reuse: bool)
    requires ValidPsize(psize) && WF(t, d, psize) && ValidKey(key)
    ensures Stored(psize, Lookup(All(t), key), PutEntry(psize, Lookup(All(t), key), key, data, reuse), reuse)
  {
    FitsOk(t, psize);
    PutEntryStored(psize, Lookup(All(t), key), key, data, reuse);
  }

  lemma {:induction false} ForkLeaves(l: Tree, a: Key, r: Tree, b: Key)
    ensures Leaves(Branch([Kid(a, l), Kid(b, r)])) == Leaves(l) + Leaves(r)
  {
    LeavesTwo(Kid(a, l), Kid(b, r));
  }
}
