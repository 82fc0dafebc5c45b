/**
 Cursors: paths of indexes into the tree.  Moving one enumerates the entries in
 order; the others keep their entries across inserts and leaf splits.
 */
module Cursors {
  import opened Keys
  import opened Items
  import opened Tree

  /** The page at the end of a path of child indexes. */
  predicate PageOn(t: Tree, q: seq<nat>)
    decreases |q|
  {
    q == [] || (t.Branch? && q[0] < |t.kids| && PageOn(t.kids[q[0]].sub, q[1..]))
  }

  function PageAt(t: Tree, q: seq<nat>): Tree
    requires PageOn(t, q)
    decreases |q|
  {
    if q == [] then t else PageAt(t.kids[q[0]].sub, q[1..])
  }

  /** How many entries lie left of that page. */
  function Before(t: Tree, q: seq<nat>): nat
    requires PageOn(t, q)
    decreases |q|
  {
    if q == [] then 0 else |Flat(t.kids[..q[0]])| + Before(t.kids[q[0]].sub, q[1..])
  }

  lemma {:induction false} PageDepth(t: Tree, d: nat, q: seq<nat>)
    requires Solid(t, d) && PageOn(t, q)
    ensures |q| < d && Solid(PageAt(t, q), d - |q|)
    decreases |q|
  {
    if q != [] { PageDepth(t.kids[q[0]].sub, d - 1, q[1..]); }
  }

  /** One step further down. */
  lemma {:induction false} Deeper(t: Tree, q: seq<nat>, k: nat)
    requires PageOn(t, q) && PageAt(t, q).Branch? && k < |PageAt(t, q).kids|
    ensures PageOn(t, q + [k]) && PageAt(t, q + [k]) == PageAt(t, q).kids[k].sub
    ensures Before(t, q + [k]) == Before(t, q) + |Flat(PageAt(t, q).kids[..k])|
    decreases |q|
  {
    if q == [] {
      assert [] + [k] == [k] && [k][1..] == [];
    } else {
      assert (q + [k])[1..] == q[1..] + [k];
      Deeper(t.kids[q[0]].sub, q[1..], k);
    }
  }

  lemma {:induction false} Shorter(t: Tree, q: seq<nat>)
    requires PageOn(t, q) && q != []
    ensures var p, k := q[..|q| - 1], q[|q| - 1];
      PageOn(t, p) && PageAt(t, p).Branch? && k < |PageAt(t, p).kids| && p + [k] == q
    decreases |q|
  {
    if |q| == 1 {
      assert q[..0] == [] && q[1..] == [];
    } else {
      assert q[1..][..|q| - 2] == q[1..|q| - 1] == q[..|q| - 1][1..];
      Shorter(t.kids[q[0]].sub, q[1..]);
    }
  }

  /** The page's entries among all entries. */
  lemma {:induction false} PageItems(t: Tree, q: seq<nat>)
    requires PageOn(t, q)
    ensures var b, es := Before(t, q), All(PageAt(t, q));
      b + |es| <= |All(t)| && All(t)[b..b + |es|] == es
    decreases |q|
  {
    if q == [] {
    } else {
      var i, sub := q[0], t.kids[q[0]].sub;
      FlatAt(t.kids, i);
      PageItems(sub, q[1..]);
      var pre, m, post := Flat(t.kids[..i]), All(sub), Flat(t.kids[i + 1..]);
      Middle(pre, m, post, Before(sub, q[1..]), |All(PageAt(sub, q[1..]))|);
    }
  }

  lemma Middle(pre: seq<Entry>, m: seq<Entry>, post: seq<Entry>, b: nat, n: nat)
    requires b + n <= |m|
    ensures (pre + m + post)[|pre| + b..|pre| + b + n] == m[b..b + n]
  {
  }

  // ---------------------------------------------------------------- moving

  /** The page that starts where this one ends, on the same level. */
  predicate RightOf(t: Tree, q: seq<nat>, r: seq<nat>)
    requires PageOn(t, q)
  {
    PageOn(t, r) && |r| == |q| && Before(t, r) == Before(t, q) + |All(PageAt(t, q))|
  }

  /** The page that ends where this one starts. */
  predicate LeftOf(t: Tree, q: seq<nat>, r: seq<nat>)
    requires PageOn(t, q)
  {
    PageOn(t, r) && |r| == |q| && Before(t, r) + |All(PageAt(t, r))| == Before(t, q)
  }

  lemma KidBefore(kids: seq<Kid>, k: nat)
    requires k < |kids|
    ensures |Flat(kids[..k + 1])| == |Flat(kids[..k])| + |All(kids[k].sub)|
    ensures k + 1 == |kids| ==> |Flat(kids)| == |Flat(kids[..k])| + |All(kids[k].sub)|
  {
    FlatFront(kids, k);
    if k + 1 == |kids| { assert kids[..k + 1] == kids; }
  }

  /** mdb_cursor_sibling: pops to a page that has a next child, and comes down
      again along first (last) children. */
  method Sibling(t: Tree, ghost d: nat, q: seq<nat>, right: bool) returns (found: bool, r: seq<nat>)
    requires Solid(t, d) && PageOn(t, q)
    ensures found && right ==> RightOf(t, q, r)
    ensures found && !right ==> LeftOf(t, q, r)
    ensures !found ==> if right then Before(t, q) + |All(PageAt(t, q))| == |All(t)| else Before(t, q) == 0
    decreases |q|
  {
    if q == [] {
      return false, q;
    }
    Shorter(t, q);
    var p, k := q[..|q| - 1], q[|q| - 1];
    EdgeKids(t, p, k);
    var n := |PageAt(t, p).kids|;
    if if right then k + 1 >= n else k == 0 {
      var up;
      found, up := Sibling(t, d, p, right);
      if !found {
        return false, q;
      }
      var j := ComeDown(t, d, p, k, up, right);
      return true, up + [j];
    }
    if right {
      NextKid(t, p, k);
      return true, p + [k + 1];
    }
    NextKid(t, p, k - 1);
    return true, p + [k - 1];
  }

  /** The first and the last child of a page share its edges. */
  lemma {:induction false} EdgeKids(t: Tree, p: seq<nat>, k: nat)
    requires PageOn(t, p) && PageAt(t, p).Branch? && k < |PageAt(t, p).kids|
    ensures PageOn(t, p + [k])
    ensures k == 0 ==> Before(t, p + [k]) == Before(t, p)
    ensures k + 1 == |PageAt(t, p).kids| ==>
      Before(t, p + [k]) + |All(PageAt(t, p + [k]))| == Before(t, p) + |All(PageAt(t, p))|
  {
    var kids := PageAt(t, p).kids;
    Deeper(t, p, k);
    KidBefore(kids, k);
    if k == 0 { assert kids[..0] == []; }
  }

  lemma {:induction false} NextKid(t: Tree, p: seq<nat>, k: nat)
    requires PageOn(t, p) && PageAt(t, p).Branch? && k + 1 < |PageAt(t, p).kids|
    ensures PageOn(t, p + [k]) && PageOn(t, p + [k + 1])
    ensures RightOf(t, p + [k], p + [k + 1]) && LeftOf(t, p + [k + 1], p + [k])
  {
    Deeper(t, p, k);
    Deeper(t, p, k + 1);
    KidBefore(PageAt(t, p).kids, k);
  }

  /** From the parent's sibling to its first child, or its last. */
  method ComeDown(t: Tree, ghost d: nat, ghost p: seq<nat>, ghost k: nat, up: seq<nat>, right: bool) returns (j: nat)
    requires Solid(t, d) && PageOn(t, p) && PageAt(t, p).Branch? && k < |PageAt(t, p).kids| && PageOn(t, p + [k])
    requires if right then k + 1 == |PageAt(t, p).kids| && RightOf(t, p, up) else k == 0 && LeftOf(t, p, up)
    ensures if right then RightOf(t, p + [k], up + [j]) else LeftOf(t, p + [k], up + [j])
  {
    PageDepth(t, d, p);
    PageDepth(t, d, up);
    EdgeKids(t, p, k);
    j := if right then 0 else |PageAt(t, up).kids| - 1;
    EdgeKids(t, up, j);
  }

  /** A cursor: the path to a leaf page, and the index in it. */
  datatype Cursor = Cursor(path: seq<nat>, ki: nat)

  predicate On(t: Tree, c: Cursor) {
    PageOn(t, c.path) && PageAt(t, c.path).Leaf? && c.ki < |PageAt(t, c.path).es|
  }

  function Entry(t: Tree, c: Cursor): Items.Entry
    requires On(t, c)
  {
    PageAt(t, c.path).es[c.ki]
  }

  /** The entry's place in the order of all entries. */
  function Rank(t: Tree, c: Cursor): nat
    requires On(t, c)
  {
    Before(t, c.path) + c.ki
  }

  lemma {:induction false} RankOf(t: Tree, c: Cursor)
    requires On(t, c)
    ensures Rank(t, c) < |All(t)| && All(t)[Rank(t, c)] == Entry(t, c)
  {
    PageItems(t, c.path);
    var b, es := Before(t, c.path), PageAt(t, c.path).es;
    assert All(t)[b..b + |es|][c.ki] == es[c.ki];
  }

  /** Down along first children, or along last ones, to a leaf. */
  method Edge(t: Tree, ghost d: nat, last: bool) returns (q: seq<nat>)
    requires Solid(t, d)
    ensures PageOn(t, q) && PageAt(t, q).Leaf? && PageAt(t, q).es != []
    ensures if last then Before(t, q) + |PageAt(t, q).es| == |All(t)| else Before(t, q) == 0
  {
    q := [];
    var page := t;
    while page.Branch?
      invariant PageOn(t, q) && page == PageAt(t, q) && |q| < d && Solid(page, d - |q|)
      invariant if last then Before(t, q) + |All(page)| == |All(t)| else Before(t, q) == 0
      decreases page
    {
      var j := if last then |page.kids| - 1 else 0;
      Deeper(t, q, j);
      EdgeKids(t, q, j);
      PageDepth(t, d, q + [j]);
      page, q := page.kids[j].sub, q + [j];
    }
  }

  /** A cursor with its flags C_INITIALIZED, C_EOF and C_DEL. */
  datatype Handle = Handle(at: Cursor, init: bool, eof: bool, del: bool)

  /** A cursor is on an entry, or past the last one of its page with C_EOF set. */
  predicate HandleOk(t: Tree, h: Handle) {
    h.init ==>
      && PageOn(t, h.at.path) && PageAt(t, h.at.path).Leaf? && h.at.ki <= |PageAt(t, h.at.path).es|
      && (h.at.ki == |PageAt(t, h.at.path).es| ==> h.eof)
  }

  /** mdb_cursor_first */
  method First(t: Tree, ghost d: nat, h: Handle) returns (n: Handle)
    requires Solid(t, d)
    ensures On(t, n.at) && Rank(t, n.at) == 0 && n == Handle(n.at, true, false, h.del)
  {
    var q := Edge(t, d, false);
    n := Handle(Cursor(q, 0), true, false, h.del);
  }

  /** mdb_cursor_last */
  method Last(t: Tree, ghost d: nat, h: Handle) returns (n: Handle)
    requires Solid(t, d)
    ensures On(t, n.at) && Rank(t, n.at) + 1 == |All(t)| && n == Handle(n.at, true, true, h.del)
  {
    var q := Edge(t, d, true);
    n := Handle(Cursor(q, |PageAt(t, q).es| - 1), true, true, h.del);
  }

  /** C_EOF is set and the cursor is still at the end of its page. */
  predicate AtEof(t: Tree, h: Handle)
    requires HandleOk(t, h)
  {
    h.init && h.eof && h.at.ki + 1 >= |PageAt(t, h.at.path).es|
  }

  /** The place of the entry that is next: the first one for a new cursor, the
      one under the cursor if the last operation deleted the one before it. */
  function NextRank(t: Tree, h: Handle): nat
    requires HandleOk(t, h)
  {
    if !h.init then 0 else Before(t, h.at.path) + h.at.ki + (if h.del then 0 else 1)
  }

  /** mdb_cursor_next: the next entry in order, or MDB_NOTFOUND, exactly when
      there is none or C_EOF still stands. */
  method Next(t: Tree, ghost d: nat, h: Handle) returns (found: bool, n: Handle)
    requires Solid(t, d) && HandleOk(t, h)
    ensures HandleOk(t, n)
    ensures found <==> !AtEof(t, h) && NextRank(t, h) < |All(t)|
    ensures found ==> On(t, n.at) && Rank(t, n.at) == NextRank(t, h)
    ensures found ==> n.init && !n.eof && n.del == (h.del && !h.init)
    ensures !found ==> n == h.(eof := true)
  {
    if !h.init {
      n := First(t, d, h);
      RankOf(t, n.at);
      return true, n;
    }
    var q, ki := h.at.path, h.at.ki;
    PageItems(t, q);
    if h.eof && ki + 1 >= |PageAt(t, q).es| {
      return false, h;
    }
    RankOf(t, h.at);
    if h.del {
      return true, Handle(h.at, true, false, false);
    }
    if ki + 1 >= |PageAt(t, q).es| {
      var r;
      found, r := Sibling(t, d, q, true);
      if !found {
        return false, h.(eof := true);
      }
      SameLevel(t, d, q, r);
      n := Handle(Cursor(r, 0), true, false, false);
    } else {
      n := Handle(Cursor(q, ki + 1), true, false, false);
    }
    RankOf(t, n.at);
    found := true;
  }

  /** How many entries are before the cursor: all of them for a new one. */
  function PrevRank(t: Tree, h: Handle): nat
    requires HandleOk(t, h)
  {
    if !h.init then |All(t)| else Before(t, h.at.path) + h.at.ki
  }

  /** mdb_cursor_prev: the entry before, or MDB_NOTFOUND exactly at the first. */
  method Prev(t: Tree, ghost d: nat, h: Handle) returns (found: bool, n: Handle)
    requires Solid(t, d) && HandleOk(t, h)
    ensures HandleOk(t, n)
    ensures found <==> PrevRank(t, h) > 0
    ensures found ==> On(t, n.at) && Rank(t, n.at) == PrevRank(t, h) - 1 && n == Handle(n.at, true, false, false)
    ensures !found ==> n == h.(eof := false, del := false)
  {
    n := h;
    if !h.init {
      n := Last(t, d, h);
      n := n.(at := n.at.(ki := n.at.ki + 1));
    }
    n := n.(eof := false, del := false);
    PageDepth(t, d, n.at.path);
    if n.at.ki == 0 {
      var r;
      found, r := Sibling(t, d, n.at.path, false);
      if !found {
        return false, n;
      }
      SameLevel(t, d, n.at.path, r);
      return true, n.(at := Cursor(r, |PageAt(t, r).es| - 1));
    }
    return true, n.(at := Cursor(n.at.path, n.at.ki - 1));
  }

  lemma {:induction false} SameLevel(t: Tree, d: nat, q: seq<nat>, r: seq<nat>)
    requires Solid(t, d) && PageOn(t, q) && PageOn(t, r) && |q| == |r| && PageAt(t, q).Leaf?
    ensures PageAt(t, r).Leaf? && PageAt(t, r).es != []
  {
    PageDepth(t, d, q);
    PageDepth(t, d, r);
  }

  /** Calling mdb_cursor_next on a new cursor until MDB_NOTFOUND visits every
      entry, in key order, each once. */
  method Traverse(t: Tree, ghost d: nat) returns (es: seq<Items.Entry>)
    requires Solid(t, d)
    ensures es == All(t)
  {
    var h := Handle(Cursor([], 0), false, false, false);
    var more := true;
    es := [];
    while more
      invariant HandleOk(t, h) && !h.del && (more ==> !h.eof)
      invariant NextRank(t, h) <= |All(t)| && es == All(t)[..NextRank(t, h)]
      invariant !more ==> NextRank(t, h) == |All(t)|
      decreases |All(t)| - NextRank(t, h), more
    {
      more, h := Next(t, d, h);
      if more {
        RankOf(t, h.at);
        es := es + [Entry(t, h.at)];
      }
    }
  }

  /** ... and mdb_cursor_prev visits them the other way round. */
  method TraverseBack(t: Tree, ghost d: nat) returns (es: seq<Items.Entry>)
    requires Solid(t, d)
    ensures es == All(t)
  {
    var h := Handle(Cursor([], 0), false, false, false);
    var more := true;
    es := [];
    while more
      invariant HandleOk(t, h) && PrevRank(t, h) <= |All(t)| && es == All(t)[PrevRank(t, h)..]
      invariant !more ==> PrevRank(t, h) == 0
      decreases PrevRank(t, h), more
    {
      ghost var was := PrevRank(t, h);
      more, h := Prev(t, d, h);
      if more {
        RankOf(t, h.at);
        es := [Entry(t, h.at)] + es;
        assert PrevRank(t, h) == was - 1;
      }
    }
  }
}
