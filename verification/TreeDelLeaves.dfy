/** What a deletion does to the leaf pages of the whole tree. */
module TreeDelLeaves {
  import opened Keys
  import opened PageFormat
  import opened Items
  import opened PageSplit
  import opened Tree
  import opened TreeSearch
  import opened TreePut
  import opened TreePutProof
  import opened TreeDel
  import opened TreeDelProof
  import opened TreeDelete
  import opened TreeLeaves
  import opened TreeFill

  function DelLeaves(r: Del): seq<seq<Entry>> {
    match r
    case Settled(t) => Leaves(t)
    case Shrunk(t) => Leaves(t)
    case Broke(l, _, r) => Leaves(l) + Leaves(r)
    case Jammed => []
  }

  /** The leaf pages under some pages. */
  function SubLeaves(ts: seq<Tree>): seq<seq<Entry>> {
    if ts == [] then [] else Leaves(ts[0]) + SubLeaves(ts[1..])
  }

  lemma {:induction false} SubLeavesAre(kids: seq<Kid>)
    ensures KidLeaves(kids) == SubLeaves(Subs(kids))
  {
    if kids != [] {
      assert Subs(kids)[1..] == Subs(kids[1..]);
      SubLeavesAre(kids[1..]);
    }
  }

  lemma {:induction false} SubLeavesConcat(a: seq<Tree>, b: seq<Tree>)
    ensures SubLeaves(a + b) == SubLeaves(a) + SubLeaves(b)
  {
    if a == [] {
      assert a + b == b;
    } else {
      assert (a + b)[1..] == a[1..] + b;
      SubLeavesConcat(a[1..], b);
    }
  }

  lemma {:induction false} SubLeavesOne(t: Tree)
    ensures SubLeaves([t]) == Leaves(t)
  {
    assert [t][1..] == [];
  }

  lemma {:induction false} SubLeavesTwo(t: Tree, u: Tree)
    ensures SubLeaves([t, u]) == Leaves(t) + Leaves(u)
  {
    assert [t, u] == [t] + [u];
    SubLeavesConcat([t], [u]);
    SubLeavesOne(t);
    SubLeavesOne(u);
  }

  lemma {:induction false} SubLeavesRun(ts: seq<Tree>, a: nat, b: nat, mid: seq<Tree>)
    requires a <= b <= |ts|
    ensures SubLeaves(ts[..a] + mid + ts[b..]) == SubLeaves(ts[..a]) + SubLeaves(mid) + SubLeaves(ts[b..])
  {
    SubLeavesConcat(ts[..a] + mid, ts[b..]);
    SubLeavesConcat(ts[..a], mid);
  }

  /** Two neighbouring pages replaced by others with the same leaf pages. */
  lemma {:induction false} SubLeavesSwap(ts: seq<Tree>, a: nat, mid: seq<Tree>)
    requires a + 1 < |ts| && SubLeaves(mid) == Leaves(ts[a]) + Leaves(ts[a + 1])
    ensures SubLeaves(ts[..a] + mid + ts[a + 2..]) == SubLeaves(ts)
  {
    SubLeavesRun(ts, a, a + 2, mid);
    SubLeavesRun(ts, a, a + 2, [ts[a], ts[a + 1]]);
    SubLeavesTwo(ts[a], ts[a + 1]);
    assert ts == ts[..a] + [ts[a], ts[a + 1]] + ts[a + 2..];
  }

  // ---------------------------------------------------------------- above the leaves

  lemma {:induction false} TookLeaves(t: Tree, t': Tree, nb: Tree, nb': Tree, left: bool)
    requires t.Branch? && Took(t, t', nb, nb', left)
    ensures if left then Leaves(nb') + Leaves(t') == Leaves(nb) + Leaves(t) else Leaves(t') + Leaves(nb') == Leaves(t) + Leaves(nb)
  {
    var own, lent := Subs(t.kids), Subs(nb.kids);
    SubLeavesAre(t.kids);
    SubLeavesAre(t'.kids);
    SubLeavesAre(nb.kids);
    SubLeavesAre(nb'.kids);
    if left {
      var x := lent[|lent| - 1];
      assert lent == lent[..|lent| - 1] + [x];
      SubLeavesConcat(lent[..|lent| - 1], [x]);
      SubLeavesConcat([x], own);
    } else {
      var x := lent[0];
      assert lent == [x] + lent[1..];
      SubLeavesConcat([x], lent[1..]);
      SubLeavesConcat(own, [x]);
    }
  }

  lemma {:induction false} LentLeaves(was: seq<Tree>, now: seq<Tree>, i: nat, n: nat)
    requires Lent(was, now, i, n) && (n == i + 1 || n + 1 == i) && was[i].Branch?
    ensures SubLeaves(now) == SubLeaves(was)
  {
    var a := if n < i then n else i;
    TookLeaves(was[i], now[i], was[n], now[n], n < i);
    SubLeavesTwo(now[a], now[a + 1]);
    assert now == was[..a] + [now[a], now[a + 1]] + was[a + 2..];
    SubLeavesSwap(was, a, [now[a], now[a + 1]]);
  }

  lemma {:induction false} JoinedLeaves(was: seq<Tree>, now: seq<Tree>, a: nat)
    requires Joined(was, now, a) && was[a].Branch?
    ensures SubLeaves(now) == SubLeaves(was)
  {
    SubLeavesAre(now[a].kids);
    SubLeavesAre(was[a].kids);
    SubLeavesAre(was[a + 1].kids);
    SubLeavesConcat(Subs(was[a].kids), Subs(was[a + 1].kids));
    SubLeavesOne(now[a]);
    SubLeavesSwap(was, a, [now[a]]);
  }

  /** The leaf pages under the result are those under its children. */
  lemma {:induction false} DelLeavesAre(r: Del)
    requires match r
      case Settled(t) => t.Branch?
      case Shrunk(t) => t.Branch?
      case Broke(l, _, r) => l.Branch? && r.Branch?
      case Jammed => false
    ensures DelLeaves(r) == SubLeaves(DelSubs(r))
  {
    match r
    case Settled(t) => SubLeavesAre(t.kids);
    case Shrunk(t) => SubLeavesAre(t.kids);
    case Broke(l, _, r) =>
      SubLeavesAre(l.kids);
      SubLeavesAre(r.kids);
      SubLeavesConcat(Subs(l.kids), Subs(r.kids));
  }

  lemma RebalanceBranch(psize: nat, kids: seq<Kid>, i: nat, d: nat)
    requires ValidPsize(psize) && Rebalancing(kids, i, d, psize) && !Rebalance(psize, kids, i, d).Jammed?
    ensures match Rebalance(psize, kids, i, d)
      case Settled(t) => t.Branch?
      case Shrunk(t) => t.Branch?
      case Broke(l, _, r) => l.Branch? && r.Branch?
      case Jammed => false
  {
  }

  /** The children of the result. */
  lemma {:induction false} RebalanceSubs(psize: nat, kids: seq<Kid>, i: nat, d: nat) returns (now: seq<Tree>)
    requires ValidPsize(psize) && Rebalancing(kids, i, d, psize) && !Rebalance(psize, kids, i, d).Jammed?
    ensures DelLeaves(Rebalance(psize, kids, i, d)) == SubLeaves(now)
    ensures var n := if i == 0 then 1 else i - 1;
      if WellFilled(kids[i].sub, psize) then now == Subs(kids)
      else if CanLend(kids[n].sub, psize) then Lent(Subs(kids), now, i, n)
      else Joined(Subs(kids), now, if i == 0 then 0 else i - 1)
  {
    RebalanceTells(psize, kids, i, d);
    RebalanceBranch(psize, kids, i, d);
    DelLeavesAre(Rebalance(psize, kids, i, d));
    now := DelSubs(Rebalance(psize, kids, i, d));
  }

  /** Rebalancing a branch page does not touch the leaf pages. */
  lemma {:induction false} RebalanceLeaves(psize: nat, kids: seq<Kid>, i: nat, d: nat)
    requires ValidPsize(psize) && Rebalancing(kids, i, d, psize) && d > 2 && !Rebalance(psize, kids, i, d).Jammed?
    ensures DelLeaves(Rebalance(psize, kids, i, d)) == KidLeaves(kids)
  {
    var n := if i == 0 then 1 else i - 1;
    var now := RebalanceSubs(psize, kids, i, d);
    SameKind(kids, i, d, psize);
    SubLeavesAre(kids);
    if !WellFilled(kids[i].sub, psize) {
      if CanLend(kids[n].sub, psize) { LentLeaves(Subs(kids), now, i, n); }
      else { JoinedLeaves(Subs(kids), now, if i == 0 then 0 else i - 1); }
    }
  }

  lemma {:induction false} SetSubLeaves(kids: seq<Kid>, i: nat, sub: Tree)
    requires i < |kids|
    ensures KidLeaves(SetSub(kids, i, sub)) == KidLeaves(kids[..i]) + Leaves(sub) + KidLeaves(kids[i + 1..])
  {
    var kid := kids[i].(sub := sub);
    SetSubRun(kids, i, sub);
    LeavesRun(kids, i, i + 1, [kid]);
    LeavesOne(kid);
  }

  /** One level of the way back up, above the parents of leaves. */
  lemma {:induction false} UpwardLeaves(psize: nat, kids: seq<Kid>, i: nat, x: Del, d: nat)
    requires ValidPsize(psize) && i < |kids| && Used(Branch(kids)) <= Pmax(psize) && d > 2
    requires forall i :: 0 <= i < |kids| ==> |kids[i].sep| <= MAXKEYSIZE
    requires x.Broke? ==> |x.sep| <= MAXKEYSIZE
    requires x.Shrunk? ==> Rebalancing(SetSub(kids, i, x.t), i, d, psize)
    requires !Upward(psize, kids, i, x, d).Jammed?
    ensures DelLeaves(Upward(psize, kids, i, x, d)) == KidLeaves(kids[..i]) + DelLeaves(x) + KidLeaves(kids[i + 1..])
  {
    match x
    case Settled(sub) => SetSubLeaves(kids, i, sub);
    case Shrunk(sub) =>
      SetSubLeaves(kids, i, sub);
      RebalanceLeaves(psize, SetSub(kids, i, sub), i, d);
    case Broke(l, sep, r) =>
      var kid, all := Kid(sep, r), Insert(SetSub(kids, i, l), i + 1, Kid(sep, r));
      AddKidLeaves(psize, SetSub(kids, i, l), i + 1, kid);
      BrokeRun(kids, i, l, kid);
      LeavesRun(kids, i, i + 1, [kids[i].(sub := l), kid]);
      LeavesTwo(kids[i].(sub := l), kid);
    case Jammed =>
  }

  // ---------------------------------------------------------------- the leaf and its neighbour

  /** A leaf that is left alone: not empty, and a quarter full. */
  predicate Enough(es: seq<Entry>, psize: nat) { es != [] && psize - PAGEHDRSZ <= 4 * Sum(LeafSizes(es)) }

  /** A leaf with too little and its neighbour, from left to right, after one
      entry of the neighbour has moved or the two have become one page. */
  function Refilled(nb: seq<Entry>, rest: seq<Entry>, left: bool, psize: nat): seq<seq<Entry>> {
    if Enough(nb, psize) && 1 < |nb| then
      if left then [nb[..|nb| - 1], [nb[|nb| - 1]] + rest] else [rest + [nb[0]], nb[1..]]
    else if left then [nb + rest] else [rest + nb]
  }

  /** How a deletion changes the leaf pages around the key: the page that has it
      loses it, and if it then has too little and is not the only page there is,
      it is refilled from its neighbour on one side. */
  ghost predicate Local(core: seq<seq<Entry>>, now: seq<seq<Entry>>, key: Key, alone: bool, psize: nat) {
    || (|core| == 1 && LosesAlone(core[0], now, key, alone, psize))
    || (|core| == 2 && LosesBeside(core[1], core[0], true, now, key, psize))
    || (|core| == 2 && LosesBeside(core[0], core[1], false, now, key, psize))
  }

  predicate LosesAlone(es: seq<Entry>, now: seq<seq<Entry>>, key: Key, alone: bool, psize: nat) {
    Found(es, key) && now == [Remove(es, key)] && (alone || Enough(Remove(es, key), psize))
  }

  predicate LosesBeside(es: seq<Entry>, nb: seq<Entry>, left: bool, now: seq<seq<Entry>>, key: Key, psize: nat) {
    Found(es, key) && !Enough(Remove(es, key), psize) && now == Refilled(nb, Remove(es, key), left, psize)
  }

  /** The pages from a to b-1 have become those of mid, the others are as they were. */
  predicate Becomes(was: seq<seq<Entry>>, now: seq<seq<Entry>>, a: nat, b: nat, mid: seq<seq<Entry>>) {
    a <= b <= |was| && now == was[..a] + mid + was[b..]
  }

  predicate AllLeaves(ts: seq<Tree>) { forall k :: 0 <= k < |ts| ==> ts[k].Leaf? }

  lemma {:induction false} LeafPages(ts: seq<Tree>)
    requires AllLeaves(ts)
    ensures |SubLeaves(ts)| == |ts| && forall k :: 0 <= k < |ts| ==> SubLeaves(ts)[k] == ts[k].es
  {
    if ts != [] { LeafPages(ts[1..]); }
  }

  /** A run of leaf pages from the pages themselves. */
  lemma PageRun(ts: seq<Tree>, ps: seq<seq<Entry>>, us: seq<Tree>, qs: seq<seq<Entry>>, a: nat, b: nat, mid: seq<seq<Entry>>)
    requires AllLeaves(ts) && |ps| == |ts| && forall k :: 0 <= k < |ts| ==> ps[k] == ts[k].es
    requires AllLeaves(us) && |qs| == |us| && forall k :: 0 <= k < |us| ==> qs[k] == us[k].es
    requires a <= b <= |ts| && |us| == a + |mid| + (|ts| - b)
    requires forall k :: 0 <= k < a ==> us[k] == ts[k]
    requires forall k :: 0 <= k < |mid| ==> us[a + k].es == mid[k]
    requires forall k :: b <= k < |ts| ==> us[k - b + a + |mid|] == ts[k]
    ensures Becomes(ps, qs, a, b, mid)
  {
    var r := ps[..a] + mid + ps[b..];
    forall k | 0 <= k < |qs| ensures qs[k] == r[k] {
      if a <= k < a + |mid| {
        assert us[a + (k - a)].es == mid[k - a];
      } else if a + |mid| <= k {
        var m := k - a - |mid| + b;
        assert us[m - b + a + |mid|] == ts[m];
      }
    }
  }

  /** The lender and the page that has taken an entry. */
  lemma LentPages(was: seq<Tree>, now: seq<Tree>, ps: seq<seq<Entry>>, qs: seq<seq<Entry>>, i: nat, n: nat, psize: nat)
    requires AllLeaves(was) && |ps| == |was| && forall k :: 0 <= k < |was| ==> ps[k] == was[k].es
    requires AllLeaves(now) && |qs| == |now| && forall k :: 0 <= k < |now| ==> qs[k] == now[k].es
    requires Lent(was, now, i, n) && (n == i + 1 || n + 1 == i) && Enough(ps[n], psize) && 1 < |ps[n]|
    ensures var a := if n < i then n else i; Becomes(ps, qs, a, a + 2, Refilled(ps[n], ps[i], n < i, psize))
  {
    var a := if n < i then n else i;
    PageRun(was, ps, now, qs, a, a + 2, Refilled(ps[n], ps[i], n < i, psize));
  }

  lemma JoinedPages(was: seq<Tree>, now: seq<Tree>, ps: seq<seq<Entry>>, qs: seq<seq<Entry>>, i: nat, n: nat, psize: nat)
    requires AllLeaves(was) && |ps| == |was| && forall k :: 0 <= k < |was| ==> ps[k] == was[k].es
    requires AllLeaves(now) && |qs| == |now| && forall k :: 0 <= k < |now| ==> qs[k] == now[k].es
    requires i < |was| && n < |was| && (n == i + 1 || n + 1 == i) && !(Enough(ps[n], psize) && 1 < |ps[n]|)
    requires Joined(was, now, if n < i then n else i)
    ensures var a := if n < i then n else i; Becomes(ps, qs, a, a + 2, Refilled(ps[n], ps[i], n < i, psize))
  {
    var a := if n < i then n else i;
    var r := was[..a] + [now[a]] + was[a + 2..];
    assert now == r;
    assert forall k :: a + 2 <= k < |was| ==> r[k - 1] == was[k];
    PageRun(was, ps, now, qs, a, a + 2, Refilled(ps[n], ps[i], n < i, psize));
  }

  lemma NowLeaves(was: seq<Tree>, now: seq<Tree>, i: nat, n: nat)
    requires AllLeaves(was) && i < |was| && n < |was| && (n == i + 1 || n + 1 == i)
    requires Lent(was, now, i, n) || Joined(was, now, if n < i then n else i)
    ensures AllLeaves(now)
  {
    if Lent(was, now, i, n) {
      forall k | 0 <= k < |now| ensures now[k].Leaf? { if k != i && k != n { assert now[k] == was[k]; } }
    } else {
      var a := if n < i then n else i;
      var r := was[..a] + [now[a]] + was[a + 2..];
      forall k | 0 <= k < |now| ensures now[k].Leaf? {
        assert now[k] == r[k];
        if k > a { assert r[k] == was[k + 1]; }
      }
    }
  }

  /** Rebalancing a leaf among its neighbours. */
  lemma {:induction false} RebalancePages(psize: nat, kids: seq<Kid>, i: nat, d: nat, ps: seq<seq<Entry>>)
    requires ValidPsize(psize) && Rebalancing(kids, i, d, psize) && !Rebalance(psize, kids, i, d).Jammed?
    requires AllLeaves(Subs(kids)) && ps == SubLeaves(Subs(kids)) && |ps| == |kids|
    requires forall k :: 0 <= k < |kids| ==> ps[k] == kids[k].sub.es
    ensures var now, n := DelLeaves(Rebalance(psize, kids, i, d)), if i == 0 then 1 else i - 1;
      if Enough(ps[i], psize) then now == ps
      else var a := if n < i then n else i;
           Becomes(ps, now, a, a + 2, Refilled(ps[n], ps[i], n < i, psize))
  {
    var n := if i == 0 then 1 else i - 1;
    var now := RebalanceSubs(psize, kids, i, d);
    if !WellFilled(kids[i].sub, psize) {
      RefilledPages(Subs(kids), now, ps, i, n, psize);
    }
  }

  lemma {:induction false} RefilledPages(was: seq<Tree>, now: seq<Tree>, ps: seq<seq<Entry>>, i: nat, n: nat, psize: nat)
    requires AllLeaves(was) && |ps| == |was| && forall k :: 0 <= k < |was| ==> ps[k] == was[k].es
    requires i < |was| && n < |was| && (n == i + 1 || n + 1 == i)
    requires if CanLend(was[n], psize) then Lent(was, now, i, n) else Joined(was, now, if n < i then n else i)
    ensures var a := if n < i then n else i; Becomes(ps, SubLeaves(now), a, a + 2, Refilled(ps[n], ps[i], n < i, psize))
  {
    NowLeaves(was, now, i, n);
    LeafPages(now);
    if CanLend(was[n], psize) { LentPages(was, now, ps, SubLeaves(now), i, n, psize); }
    else { JoinedPages(was, now, ps, SubLeaves(now), i, n, psize); }
  }

  /** A change of some leaf pages between others. */
  datatype Change = Change(before: seq<seq<Entry>>, core: seq<seq<Entry>>, now: seq<seq<Entry>>, after: seq<seq<Entry>>)

  predicate Changes(was: seq<seq<Entry>>, now: seq<seq<Entry>>, c: Change) {
    was == c.before + c.core + c.after && now == c.before + c.now + c.after
  }

  /** The same change within a longer run. */
  lemma ChangesWithin(x: seq<seq<Entry>>, was: seq<seq<Entry>>, now: seq<seq<Entry>>, y: seq<seq<Entry>>, c: Change)
    returns (e: Change)
    requires Changes(was, now, c)
    ensures Changes(x + was + y, x + now + y, e) && e.core == c.core && e.now == c.now
  {
    e := c.(before := x + c.before, after := c.after + y);
    assert x + was + y == e.before + e.core + e.after;
    assert x + now + y == e.before + e.now + e.after;
  }

  /** ... of a leaf that has lost a key. */
  lemma {:induction false} ParentDel(psize: nat, kids: seq<Kid>, i: nat, d: nat, key: Key, rest: seq<Entry>, kids': seq<Kid>)
    returns (c: Change)
    requires ValidPsize(psize) && i < |kids| && AllLeaves(Subs(kids)) && Found(kids[i].sub.es, key)
    requires rest == Remove(kids[i].sub.es, key) && kids' == SetSub(kids, i, Leaf(rest))
    requires Rebalancing(kids', i, d, psize) && !Rebalance(psize, kids', i, d).Jammed?
    ensures Changes(KidLeaves(kids), DelLeaves(Rebalance(psize, kids', i, d)), c) && Local(c.core, c.now, key, false, psize)
  {
    SubLeavesAre(kids);
    LeafPages(Subs(kids));
    SubLeavesAre(kids');
    assert AllLeaves(Subs(kids'));
    LeafPages(Subs(kids'));
    RebalancePages(psize, kids', i, d, KidLeaves(kids'));
    c := PagesDel(KidLeaves(kids), KidLeaves(kids'), DelLeaves(Rebalance(psize, kids', i, d)), i, rest, key, psize);
  }

  lemma PagesDel(was: seq<seq<Entry>>, ps: seq<seq<Entry>>, now: seq<seq<Entry>>, i: nat, rest: seq<Entry>, key: Key, psize: nat)
    returns (c: Change)
    requires 2 <= |was| == |ps| && i < |was| && Found(was[i], key) && rest == Remove(was[i], key)
    requires ps[i] == rest && forall k :: 0 <= k < |was| && k != i ==> ps[k] == was[k]
    requires if Enough(ps[i], psize) then now == ps
      else var n := if i == 0 then 1 else i - 1;
           var a := if n < i then n else i;
           Becomes(ps, now, a, a + 2, Refilled(ps[n], ps[i], n < i, psize))
    ensures Changes(was, now, c) && Local(c.core, c.now, key, false, psize)
  {
    if Enough(rest, psize) {
      c := OneChanged(was, ps, i);
    } else {
      var n := if i == 0 then 1 else i - 1;
      var a := if n < i then n else i;
      c := TwoChanged(was, ps, now, a, Refilled(ps[n], ps[i], n < i, psize));
    }
  }

  lemma OneChanged(was: seq<seq<Entry>>, ps: seq<seq<Entry>>, i: nat) returns (c: Change)
    requires i < |was| == |ps| && forall k :: 0 <= k < |was| && k != i ==> ps[k] == was[k]
    ensures Changes(was, ps, c) && c.core == [was[i]] && c.now == [ps[i]]
  {
    c := Change(was[..i], [was[i]], [ps[i]], was[i + 1..]);
    assert was == c.before + c.core + c.after;
    assert ps == c.before + c.now + c.after;
  }

  lemma TwoChanged(was: seq<seq<Entry>>, ps: seq<seq<Entry>>, now: seq<seq<Entry>>, a: nat, mid: seq<seq<Entry>>) returns (c: Change)
    requires a + 1 < |was| == |ps| && (forall k :: 0 <= k < |was| && k != a && k != a + 1 ==> ps[k] == was[k])
    requires Becomes(ps, now, a, a + 2, mid)
    ensures Changes(was, now, c) && c.core == [was[a], was[a + 1]] && c.now == mid
  {
    c := Change(was[..a], [was[a], was[a + 1]], mid, was[a + 2..]);
    assert was == c.before + c.core + c.after;
    assert ps[..a] == c.before && ps[a + 2..] == c.after;
  }

  /** A deletion changes one leaf page, and one neighbour if that then has too little. */
  lemma {:induction false} DelTreeLeaves(psize: nat, t: Tree, d: nat, key: Key) returns (c: Change)
    requires ValidPsize(psize) && WF(t, d, psize) && Found(All(t), key) && !DelTree(psize, t, d, key).Jammed?
    ensures Changes(Leaves(t), DelLeaves(DelTree(psize, t, d, key)), c) && Local(c.core, c.now, key, t.Leaf?, psize)
    decreases t, 1
  {
    match t
    case Leaf(es) =>
      c := Change([], [es], [Remove(es, key)], []);
    case Branch(kids) =>
      var i, x := KidResultIs(psize, kids, d, key);
      DelUnfold(psize, kids, d, key, i, x);
      c := KidDelLeaves(psize, kids, d, key, i, x);
  }

  lemma {:induction false} KidDelLeaves(psize: nat, kids: seq<Kid>, d: nat, key: Key, i: nat, x: Del) returns (c: Change)
    requires ValidPsize(psize) && WF(Branch(kids), d, psize) && Found(Flat(kids), key) && KidResult(psize, kids, d, key, i, x)
    requires !Upward(psize, kids, i, x, d).Jammed?
    ensures Changes(KidLeaves(kids), DelLeaves(Upward(psize, kids, i, x, d)), c) && Local(c.core, c.now, key, false, psize)
    decreases kids, 0
  {
    if d == 2 {
      c := LeafKidDel(psize, kids, d, key, i, x);
    } else {
      c := DelTreeLeaves(psize, kids[i].sub, d - 1, key);
      c := BranchKidDel(psize, kids, d, i, x, c);
    }
  }

  lemma {:induction false} LeafKidDel(psize: nat, kids: seq<Kid>, d: nat, key: Key, i: nat, x: Del) returns (c: Change)
    requires ValidPsize(psize) && WF(Branch(kids), d, psize) && KidResult(psize, kids, d, key, i, x) && d == 2
    requires !Upward(psize, kids, i, x, d).Jammed?
    ensures Changes(KidLeaves(kids), DelLeaves(Upward(psize, kids, i, x, d)), c) && Local(c.core, c.now, key, false, psize)
  {
    forall k | 0 <= k < |kids| ensures kids[k].sub.Leaf? { assert Solid(kids[k].sub, 1); }
    var rest := Remove(kids[i].sub.es, key);
    assert x == Shrunk(Leaf(rest));
    c := ParentDel(psize, kids, i, d, key, rest, SetSub(kids, i, Leaf(rest)));
  }

  lemma {:induction false} BranchKidDel(psize: nat, kids: seq<Kid>, d: nat, i: nat, x: Del, e: Change) returns (c: Change)
    requires ValidPsize(psize) && i < |kids| && Used(Branch(kids)) <= Pmax(psize) && d > 2
    requires forall i :: 0 <= i < |kids| ==> |kids[i].sep| <= MAXKEYSIZE
    requires x.Broke? ==> |x.sep| <= MAXKEYSIZE
    requires x.Shrunk? ==> Rebalancing(SetSub(kids, i, x.t), i, d, psize)
    requires !Upward(psize, kids, i, x, d).Jammed? && Changes(Leaves(kids[i].sub), DelLeaves(x), e)
    ensures Changes(KidLeaves(kids), DelLeaves(Upward(psize, kids, i, x, d)), c) && c.core == e.core && c.now == e.now
  {
    UpwardLeaves(psize, kids, i, x, d);
    LeavesAt(kids, i);
    c := ChangesWithin(KidLeaves(kids[..i]), Leaves(kids[i].sub), DelLeaves(x), KidLeaves(kids[i + 1..]), e);
  }
}
