/**
 When mdb_rebalance leaves a page alone, takes a node from a neighbour, or
 merges, in bytes and node counts.
 */
module TreeFill {
  import opened Keys
  import opened PageFormat
  import opened Items
  import opened PageSplit
  import opened Tree
  import opened TreeSearch
  import opened TreePut
  import opened TreePutProof
  import opened TreeDel
  import opened TreeDelProof
  import opened TreeLeaves

  /** A leaf is not to be empty and at least a quarter full, a branch is to have
      two nodes and to be full by a thousandth. */
  predicate WellFilled(t: Tree, psize: nat) {
    match t
    case Leaf(es) => 1 <= |es| && psize - PAGEHDRSZ <= 4 * Sum(LeafSizes(es))
    case Branch(kids) => 2 <= |kids| && psize - PAGEHDRSZ <= 1000 * Sum(KidSizes(kids))
  }

  /** A neighbour that is well filled and has a node to spare. */
  predicate CanLend(t: Tree, psize: nat) { WellFilled(t, psize) && (if t.Leaf? then 1 < |t.es| else 2 < |t.kids|) }

  lemma DivAtLeast(a: nat, b: nat, c: nat)
    requires b > 0
    ensures a / b >= c <==> a >= c * b
  {
    var q := a / b;
    DivBounds(a, b);
    if q >= c { Times(c, q, b); }
    if q < c { Times(q + 1, c, b); }
  }

  lemma FillIs(t: Tree, psize: nat)
    requires ValidPsize(psize)
    ensures Balanced(t, psize) <==> WellFilled(t, psize)
    ensures Lends(t, t, psize) <==> CanLend(t, psize)
  {
    DivNat(1000 * Used(t), Pmax(psize));
    DivAtLeast(1000 * Used(t), Pmax(psize), Threshold(t));
  }

  // ---------------------------------------------------------------- the children of the result

  /** The children of a branch page. */
  function BranchSubs(t: Tree): seq<Tree> { if t.Branch? then Subs(t.kids) else [] }

  /** ... or of the two it has been split into. */
  function DelSubs(r: Del): seq<Tree> {
    match r
    case Settled(t) => BranchSubs(t)
    case Shrunk(t) => BranchSubs(t)
    case Broke(l, _, r) => BranchSubs(l) + BranchSubs(r)
    case Jammed => []
  }

  lemma SplitSubs(all: seq<Kid>, s: nat)
    requires s < |all|
    ensures Subs(all[..s]) + Subs([Kid([], all[s].sub)] + all[s + 1..]) == Subs(all)
  {
  }

  lemma {:induction false} SplitKidsSubs(psize: nat, kids: seq<Kid>, i: nat, kid: Kid)
    requires ValidPsize(psize) && i <= |kids| && 2 <= |kids| && |kid.sep| <= MAXKEYSIZE
    requires Splittable(psize, KidSizes(kids), BranchNode(kid.sep))
    ensures match SplitKids(psize, kids, i, kid)
      case Halves(l, _, r) => BranchSubs(l) + BranchSubs(r) == Subs(Insert(kids, i, kid))
      case Grew(_) => false
      case Full => true
  {
    if HalvesFit(psize, KidSizes(kids), i, BranchNode(kid.sep), false) {
      SplitSubs(Insert(kids, i, kid), SplitIndex(psize, KidSizes(kids), i, BranchNode(kid.sep), false));
    }
  }

  lemma RekeyedSubs(kids: seq<Kid>, j: nat, key: Key, rest: seq<Kid>)
    requires j < |kids| && rest == kids[..j] + kids[j + 1..]
    ensures Insert(rest, j, Kid(key, kids[j].sub)) == kids[j := Kid(key, kids[j].sub)]
    ensures Subs(kids[j := Kid(key, kids[j].sub)]) == Subs(kids)
  {
  }

  /** mdb_update_key keeps the children. */
  lemma {:induction false} UpdateKeySubs(psize: nat, kids: seq<Kid>, j: nat, key: Key)
    requires ValidPsize(psize) && j < |kids| && |key| <= MAXKEYSIZE && Used(Branch(kids)) <= Pmax(psize)
    requires forall i :: 0 <= i < |kids| ==> |kids[i].sep| <= MAXKEYSIZE
    ensures var r := UpdateKey(psize, kids, j, key);
      !r.Jammed? ==> DelSubs(r) == Subs(kids) && !r.Shrunk?
  {
    var rest := kids[..j] + kids[j + 1..];
    RekeyedSubs(kids, j, key, rest);
    if Used(Branch(rest)) + BranchNode(key) > Pmax(psize) { RekeyedBySplit(psize, kids, j, key, rest); }
  }

  lemma {:induction false} RekeyedBySplit(psize: nat, kids: seq<Kid>, j: nat, key: Key, rest: seq<Kid>)
    requires ValidPsize(psize) && j < |kids| && |key| <= MAXKEYSIZE && Used(Branch(kids)) <= Pmax(psize)
    requires forall i :: 0 <= i < |kids| ==> |kids[i].sep| <= MAXKEYSIZE
    requires rest == kids[..j] + kids[j + 1..] && Used(Branch(rest)) + BranchNode(key) > Pmax(psize)
    ensures var r := UpdateKey(psize, kids, j, key); !r.Jammed? ==> r.Broke? && DelSubs(r) == Subs(kids)
  {
    RemovedKidUsed(kids, j);
    RekeyedSubs(kids, j, key, rest);
    KidsSplittable(psize, rest, key);
    SplitKidsSubs(psize, rest, j, Kid(key, kids[j].sub));
  }

  // ---------------------------------------------------------------- a node from the neighbour

  /** The node of nb nearest to own has gone over to it. */
  predicate Passed<T(==)>(own: seq<T>, own': seq<T>, nb: seq<T>, nb': seq<T>, left: bool) {
    && nb != []
    && (if left then nb' == nb[..|nb| - 1] && own' == [nb[|nb| - 1]] + own
        else nb' == nb[1..] && own' == own + [nb[0]])
  }

  predicate Took(t: Tree, t': Tree, nb: Tree, nb': Tree, left: bool) {
    if t.Leaf? then t'.Leaf? && nb.Leaf? && nb'.Leaf? && Passed(t.es, t'.es, nb.es, nb'.es, left)
    else t'.Branch? && nb.Branch? && nb'.Branch? && Passed(Subs(t.kids), Subs(t'.kids), Subs(nb.kids), Subs(nb'.kids), left)
  }

  /** The pages a and b, with all nodes of both on one page. */
  predicate Joins(m: Tree, a: Tree, b: Tree) {
    if a.Leaf? then m.Leaf? && b.Leaf? && m.es == a.es + b.es
    else m.Branch? && b.Branch? && Subs(m.kids) == Subs(a.kids) + Subs(b.kids)
  }

  lemma {:induction false} LeftTook(src: Tree, dst: Tree)
    requires src.Leaf? == dst.Leaf? && 1 < NumKeys(src) && (dst.Branch? ==> dst.kids != [] && All(dst) != [])
    ensures var (l, r, _) := MoveFromLeft(src, dst); Took(dst, r, src, l, true)
  {
    if src.Branch? {
      var (l, r, _) := MoveFromLeft(src, dst);
      assert Subs(l.kids) == Subs(src.kids)[..|src.kids| - 1];
      assert Subs(r.kids) == [Subs(src.kids)[|src.kids| - 1]] + Subs(dst.kids);
    }
  }

  lemma {:induction false} RightTook(src: Tree, dst: Tree)
    requires src.Leaf? == dst.Leaf? && 1 < NumKeys(src) && (src.Branch? ==> All(src) != [])
    ensures var (l, r, _) := MoveFromRight(src, dst); Took(dst, l, src, r, false)
  {
    if src.Branch? {
      var (l, r, _) := MoveFromRight(src, dst);
      assert Subs(r.kids) == Subs(src.kids)[1..];
      assert Subs(l.kids) == Subs(dst.kids) + [Subs(src.kids)[0]];
    }
  }

  lemma {:induction false} MergeJoins(a: Tree, b: Tree)
    requires a.Leaf? == b.Leaf? && (b.Branch? ==> b.kids != [] && All(b) != [])
    ensures Joins(MergePages(a, b), a, b)
  {
    if a.Branch? {
      assert Subs(MergePages(a, b).kids) == Subs(a.kids) + Subs(b.kids);
    }
  }

  // ---------------------------------------------------------------- rebalancing

  /** The children after the lender n has passed a node to i. */
  predicate Lent(was: seq<Tree>, now: seq<Tree>, i: nat, n: nat) {
    && i < |was| == |now| && n < |was| && i != n
    && Took(was[i], now[i], was[n], now[n], n < i)
    && forall k :: 0 <= k < |was| && k != i && k != n ==> now[k] == was[k]
  }

  /** The children after a and a+1 have become one. */
  predicate Joined(was: seq<Tree>, now: seq<Tree>, a: nat) {
    && a + 1 < |was| == |now| + 1 && Joins(now[a], was[a], was[a + 1])
    && now == was[..a] + [now[a]] + was[a + 2..]
  }

  lemma {:induction false} LentIs(psize: nat, kids: seq<Kid>, i: nat, d: nat)
    requires ValidPsize(psize) && Rebalancing(kids, i, d, psize)
    requires !Balanced(kids[i].sub, psize) && Lends(kids[if i == 0 then 1 else i - 1].sub, kids[i].sub, psize)
    ensures var r := Rebalance(psize, kids, i, d);
      !r.Jammed? ==> !r.Shrunk? && Lent(Subs(kids), DelSubs(r), i, if i == 0 then 1 else i - 1)
  {
    var a, l, r, sep := MovingIs(psize, kids, i, d);
    LentStep(psize, kids, i, a, l, r, sep, Rebalance(psize, kids, i, d));
  }

  lemma {:induction false} LentStep(psize: nat, kids: seq<Kid>, i: nat, a: nat, l: Tree, r: Tree, sep: Key, x: Del)
    requires ValidPsize(psize) && i < |kids| && 2 <= |kids| && a == (if i == 0 then 0 else i - 1)
    requires var n := if i == 0 then 1 else i - 1;
      && kids[n].sub.Leaf? == kids[i].sub.Leaf? && 1 < NumKeys(kids[n].sub)
      && (kids[i].sub.Branch? ==> kids[i].sub.kids != [] && All(kids[i].sub) != [] && All(kids[n].sub) != [])
    requires Moved(kids, i) == (l, r, sep) && |sep| <= MAXKEYSIZE && Used(Branch(kids)) <= Pmax(psize)
    requires forall j :: 0 <= j < |kids| ==> |kids[j].sep| <= MAXKEYSIZE
    requires x == UpdateKey(psize, SetPair(kids, a, l, r), a + 1, sep)
    ensures !x.Jammed? ==> !x.Shrunk? && Lent(Subs(kids), DelSubs(x), i, if i == 0 then 1 else i - 1)
  {
    var kids' := SetPair(kids, a, l, r);
    LentKids(kids, i, a, l, r, sep, kids');
    UpdateKeySubs(psize, kids', a + 1, sep);
  }

  lemma {:induction false} LentKids(kids: seq<Kid>, i: nat, a: nat, l: Tree, r: Tree, sep: Key, kids': seq<Kid>)
    requires i < |kids| && 2 <= |kids| && a == (if i == 0 then 0 else i - 1)
    requires var n := if i == 0 then 1 else i - 1;
      && kids[n].sub.Leaf? == kids[i].sub.Leaf? && 1 < NumKeys(kids[n].sub)
      && (kids[i].sub.Branch? ==> kids[i].sub.kids != [] && All(kids[i].sub) != [] && All(kids[n].sub) != [])
    requires Moved(kids, i) == (l, r, sep) && kids' == SetPair(kids, a, l, r)
    ensures Lent(Subs(kids), Subs(kids'), i, if i == 0 then 1 else i - 1)
  {
    if i == 0 { RightTook(kids[1].sub, kids[0].sub); } else { LeftTook(kids[i - 1].sub, kids[i].sub); }
    assert Subs(kids')[a] == l && Subs(kids')[a + 1] == r;
    assert forall k :: 0 <= k < |kids| && k != a && k != a + 1 ==> Subs(kids')[k] == Subs(kids)[k];
  }

  lemma {:induction false} JoinedIs(psize: nat, kids: seq<Kid>, i: nat, d: nat)
    requires ValidPsize(psize) && Rebalancing(kids, i, d, psize)
    requires !Balanced(kids[i].sub, psize) && !Lends(kids[if i == 0 then 1 else i - 1].sub, kids[i].sub, psize)
    ensures var r := Rebalance(psize, kids, i, d);
      r.Shrunk? && r.t.Branch? && Joined(Subs(kids), DelSubs(r), if i == 0 then 0 else i - 1)
  {
    var a, m := MergingIs(psize, kids, i, d);
    JoinedKids(kids, a, m);
  }

  lemma {:induction false} JoinedKids(kids: seq<Kid>, a: nat, m: Tree)
    requires a + 1 < |kids|
    requires kids[a].sub.Leaf? == kids[a + 1].sub.Leaf?
    requires kids[a + 1].sub.Branch? ==> kids[a + 1].sub.kids != [] && All(kids[a + 1].sub) != []
    requires m == MergePages(kids[a].sub, kids[a + 1].sub)
    ensures Joined(Subs(kids), Subs(kids[..a] + [Kid(kids[a].sep, m)] + kids[a + 2..]), a)
  {
    MergeJoins(kids[a].sub, kids[a + 1].sub);
    JoinedSubs(kids, a, Kid(kids[a].sep, m));
  }

  lemma JoinedSubs(kids: seq<Kid>, a: nat, kid: Kid)
    requires a + 1 < |kids|
    ensures Subs(kids[..a] + [kid] + kids[a + 2..]) == Subs(kids)[..a] + [kid.sub] + Subs(kids)[a + 2..]
  {
  }

  /** mdb_rebalance of a child, in numbers.  It is left alone if it is well
      filled; otherwise it takes a node from its left neighbour (the leftmost
      child from its right one) if that can lend one, and is joined with it if
      not.  Then, and only then, the parent has one child fewer. */
  lemma {:induction false} RebalanceTells(psize: nat, kids: seq<Kid>, i: nat, d: nat)
    requires ValidPsize(psize) && Rebalancing(kids, i, d, psize)
    ensures var r, n := Rebalance(psize, kids, i, d), if i == 0 then 1 else i - 1;
      if WellFilled(kids[i].sub, psize) then r == Settled(Branch(kids))
      else if CanLend(kids[n].sub, psize) then !r.Shrunk? && (!r.Jammed? ==> Lent(Subs(kids), DelSubs(r), i, n))
      else r.Shrunk? && r.t.Branch? && Joined(Subs(kids), DelSubs(r), if i == 0 then 0 else i - 1)
  {
    var n := if i == 0 then 1 else i - 1;
    SameKind(kids, i, d, psize);
    FillIs(kids[i].sub, psize);
    FillIs(kids[n].sub, psize);
    if !WellFilled(kids[i].sub, psize) {
      if CanLend(kids[n].sub, psize) { LentIs(psize, kids, i, d); } else { JoinedIs(psize, kids, i, d); }
    }
  }
}
