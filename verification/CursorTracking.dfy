/**
 Tracked cursors: after an insert into a leaf, or a split of a leaf whose parent
 has room, every other cursor still denotes the entry it denoted.
 */
module CursorTracking {
  import opened Keys
  import opened Items
  import opened Tree
  import opened Cursors
  import opened PageFormat

  /** The tree with another page at the end of a path. */
  function SetPage(t: Tree, q: seq<nat>, page: Tree): Tree
    requires PageOn(t, q)
    decreases |q|
  {
    if q == [] then page
    else Branch(t.kids[q[0] := t.kids[q[0]].(sub := SetPage(t.kids[q[0]].sub, q[1..], page))])
  }

  /** Pages below the new one. */
  lemma {:induction false} SetBelow(t: Tree, q: seq<nat>, page: Tree, r: seq<nat>)
    requires PageOn(t, q) && PageOn(page, r)
    ensures PageOn(SetPage(t, q, page), q + r) && PageAt(SetPage(t, q, page), q + r) == PageAt(page, r)
    decreases |q|
  {
    if q == [] {
      assert [] + r == r;
    } else {
      assert (q + r)[1..] == q[1..] + r;
      SetBelow(t.kids[q[0]].sub, q[1..], page, r);
    }
  }

  predicate Prefix(q: seq<nat>, r: seq<nat>) { |q| <= |r| && r[..|q|] == q }

  lemma PrefixTail(q: seq<nat>, r: seq<nat>)
    requires q != [] && r != [] && q[0] == r[0]
    ensures Prefix(q, r) <==> Prefix(q[1..], r[1..])
  {
    assert q == [q[0]] + q[1..];
    assert |q| <= |r| ==> r[..|q|] == [r[0]] + r[1..][..|q| - 1];
  }

  /** Pages beside the new one, unless they are above it. */
  lemma {:induction false} SetBeside(t: Tree, q: seq<nat>, page: Tree, r: seq<nat>)
    requires PageOn(t, q) && PageOn(t, r) && !Prefix(q, r) && PageAt(t, r).Leaf?
    ensures PageOn(SetPage(t, q, page), r) && PageAt(SetPage(t, q, page), r) == PageAt(t, r)
    decreases |q|
  {
    assert r[..0] == [];
    if r != [] && r[0] == q[0] {
      PrefixTail(q, r);
      SetBeside(t.kids[q[0]].sub, q[1..], page, r[1..]);
    }
  }

  /** A path through a page goes on within it. */
  lemma {:induction false} Through(t: Tree, q: seq<nat>, r: seq<nat>)
    requires PageOn(t, q) && PageOn(t, r) && Prefix(q, r)
    ensures PageOn(PageAt(t, q), r[|q|..]) && PageAt(PageAt(t, q), r[|q|..]) == PageAt(t, r)
    decreases |q|
  {
    if q == [] {
      assert r[0..] == r;
    } else {
      assert r[..|q|][0] == q[0] && r[1..][..|q| - 1] == r[..|q|][1..] == q[1..];
      assert r[1..][|q| - 1..] == r[|q|..];
      Through(t.kids[q[0]].sub, q[1..], r[1..]);
    }
  }

  // ---------------------------------------------------------------- inserting into a leaf

  /** The leaf after mdb_node_add at index i; without a new key the node there
      has been deleted before. */
  function Added(es: seq<Entry>, i: nat, e: Entry, insertKey: bool): seq<Entry>
    requires i <= |es| && (insertKey || i < |es|)
  {
    if insertKey then Insert(es, i, e) else es[i := e]
  }

  /** What _mdb_cursor_put does to another cursor. */
  function AfterInsert(c: Cursor, q: seq<nat>, i: nat, insertKey: bool): Cursor {
    if c.path == q && c.ki >= i && insertKey then Cursor(c.path, c.ki + 1) else c
  }

  lemma AddedAt(es: seq<Entry>, i: nat, e: Entry, insertKey: bool, k: nat)
    requires i <= |es| && (insertKey || i < |es|) && k < |es|
    ensures var k' := if k >= i && insertKey then k + 1 else k;
      k' < |Added(es, i, e, insertKey)| && Added(es, i, e, insertKey)[k'] == if k == i && !insertKey then e else es[k]
  {
  }

  /** Every other cursor keeps its entry; one on an entry that is replaced sees
      the new entry. */
  lemma {:induction false} InsertTracked(t: Tree, q: seq<nat>, i: nat, e: Entry, insertKey: bool, c: Cursor)
    requires PageOn(t, q) && PageAt(t, q).Leaf? && i <= |PageAt(t, q).es| && (insertKey || i < |PageAt(t, q).es|) && On(t, c)
    ensures var t' := SetPage(t, q, Leaf(Added(PageAt(t, q).es, i, e, insertKey)));
      var c' := AfterInsert(c, q, i, insertKey);
      On(t', c') && Cursors.Entry(t', c') == if c == Cursor(q, i) && !insertKey then e else Cursors.Entry(t, c)
  {
    var es := PageAt(t, q).es;
    var page := Leaf(Added(es, i, e, insertKey));
    if c.path == q {
      SetBelow(t, q, page, []);
      assert q + [] == q;
      AddedAt(es, i, e, insertKey, c.ki);
    } else {
      NotThrough(t, q, c);
      SetBeside(t, q, page, c.path);
    }
  }

  /** Nothing goes through a leaf. */
  lemma {:induction false} NotThrough(t: Tree, q: seq<nat>, c: Cursor)
    requires PageOn(t, q) && PageAt(t, q).Leaf? && On(t, c) && c.path != q
    ensures !Prefix(q, c.path)
  {
    if Prefix(q, c.path) {
      SameLeaf(t, q, c);
    }
  }

  lemma {:induction false} SameLeaf(t: Tree, q: seq<nat>, c: Cursor)
    requires PageOn(t, q) && PageAt(t, q).Leaf? && On(t, c) && Prefix(q, c.path)
    ensures c.path == q
  {
    Through(t, q, c.path);
    assert c.path == c.path[..|q|] + c.path[|q|..];
  }

  // ---------------------------------------------------------------- splitting a leaf

  /** The parent after kid x has been split: the left page keeps its node. */
  function SplitKid(kids: seq<Kid>, x: nat, left: Tree, sep: Key, right: Tree): seq<Kid>
    requires x < |kids|
  {
    kids[..x] + [kids[x].(sub := left), Kid(sep, right)] + kids[x + 1..]
  }

  /** What mdb_page_split does to another cursor: nleft nodes stay on the left
      page, x is the left page's index in its parent p. */
  function AfterSplit(c: Cursor, p: seq<nat>, x: nat, i: nat, nleft: nat, replace: bool): Cursor {
    var mine := if i >= nleft then x + 1 else x;
    if c.path == p + [x] then
      var k := if c.ki >= i && !replace then c.ki + 1 else c.ki;
      if k >= nleft then Cursor(p + [x + 1], k - nleft) else Cursor(c.path, k)
    else if Prefix(p, c.path) && |c.path| > |p| && c.path[|p|] >= mine then
      Cursor(c.path[|p| := c.path[|p|] + 1], c.ki)
    else c
  }

  /** The tree after the split. */
  function SplitTree(t: Tree, p: seq<nat>, x: nat, i: nat, e: Entry, nleft: nat, sep: Key, replace: bool): Tree
    requires Splits(t, p, x, i, nleft, replace)
  {
    var kids := PageAt(t, p).kids;
    var all := Added(kids[x].sub.es, i, e, !replace);
    SetPage(t, p, Branch(SplitKid(kids, x, Leaf(all[..nleft]), sep, Leaf(all[nleft..]))))
  }

  predicate Splits(t: Tree, p: seq<nat>, x: nat, i: nat, nleft: nat, replace: bool) {
    && PageOn(t, p) && PageAt(t, p).Branch? && x < |PageAt(t, p).kids| && PageAt(t, p).kids[x].sub.Leaf?
    && var n := |PageAt(t, p).kids[x].sub.es|;
       i <= n && (replace ==> i < n) && nleft <= n
  }

  lemma {:induction false} OneDown(page: Tree, y: nat, r: seq<nat>)
    requires page.Branch? && y < |page.kids| && PageOn(page.kids[y].sub, r)
    ensures PageOn(page, [y] + r) && PageAt(page, [y] + r) == PageAt(page.kids[y].sub, r)
  {
    assert ([y] + r)[1..] == r;
  }

  /** The split page's own cursors. */
  lemma {:induction false} SplitHere(t: Tree, p: seq<nat>, x: nat, i: nat, e: Entry, nleft: nat, sep: Key, replace: bool, k: nat)
    requires Splits(t, p, x, i, nleft, replace)
    requires k < |Added(PageAt(t, p).kids[x].sub.es, i, e, !replace)|
    ensures var t' := SplitTree(t, p, x, i, e, nleft, sep, replace);
      var c := if k >= nleft then Cursor(p + [x + 1], k - nleft) else Cursor(p + [x], k);
      On(t', c) && Cursors.Entry(t', c) == Added(PageAt(t, p).kids[x].sub.es, i, e, !replace)[k]
  {
    var kids := PageAt(t, p).kids;
    var all := Added(kids[x].sub.es, i, e, !replace);
    var page := Branch(SplitKid(kids, x, Leaf(all[..nleft]), sep, Leaf(all[nleft..])));
    var y := if k >= nleft then x + 1 else x;
    assert [y] + [] == [y];
    OneDown(page, y, []);
    SetBelow(t, p, page, [y]);
  }

  lemma {:induction false} SplitOwn(t: Tree, p: seq<nat>, x: nat, i: nat, e: Entry, nleft: nat, sep: Key,
                                    replace: bool, c: Cursor)
    requires Splits(t, p, x, i, nleft, replace) && On(t, c) && c.path == p + [x]
    requires PageOn(t, p + [x]) && PageAt(t, p + [x]) == PageAt(t, p).kids[x].sub
    ensures var t' := SplitTree(t, p, x, i, e, nleft, sep, replace);
      var c' := AfterSplit(c, p, x, i, nleft, replace);
      On(t', c') && Cursors.Entry(t', c') == if c.ki == i && replace then e else Cursors.Entry(t, c)
  {
    var k := if c.ki >= i && !replace then c.ki + 1 else c.ki;
    AddedAt(PageAt(t, p).kids[x].sub.es, i, e, !replace, c.ki);
    SplitHere(t, p, x, i, e, nleft, sep, replace, k);
  }

  /** Every cursor keeps its entry; one on a replaced entry sees the new one. */
  lemma SplitTracked(t: Tree, p: seq<nat>, x: nat, i: nat, e: Entry, nleft: nat, sep: Key, replace: bool, c: Cursor)
    requires Splits(t, p, x, i, nleft, replace) && On(t, c)
    ensures var t' := SplitTree(t, p, x, i, e, nleft, sep, replace);
      var c' := AfterSplit(c, p, x, i, nleft, replace);
      On(t', c') && Cursors.Entry(t', c') == if c == Cursor(p + [x], i) && replace then e else Cursors.Entry(t, c)
  {
    Deeper(t, p, x);
    if c.path == p + [x] {
      SplitOwn(t, p, x, i, e, nleft, sep, replace, c);
    } else if Prefix(p, c.path) {
      SplitSibling(t, p, x, i, e, nleft, sep, replace, c);
    } else {
      var kids := PageAt(t, p).kids;
      var all := Added(kids[x].sub.es, i, e, !replace);
      SetBeside(t, p, Branch(SplitKid(kids, x, Leaf(all[..nleft]), sep, Leaf(all[nleft..]))), c.path);
    }
  }

  /** The child of p that a cursor goes through, and the way on from there. */
  lemma {:induction false} SiblingAt(t: Tree, p: seq<nat>, c: Cursor) returns (y: nat, rest: seq<nat>)
    requires On(t, c) && PageOn(t, p) && PageAt(t, p).Branch? && Prefix(p, c.path)
    ensures c.path == p + ([y] + rest)
    ensures var kids := PageAt(t, p).kids;
      y < |kids| && PageOn(kids[y].sub, rest) && PageAt(kids[y].sub, rest) == PageAt(t, c.path)
  {
    Through(t, p, c.path);
    var r := c.path[|p|..];
    y, rest := r[0], r[1..];
    assert r == [y] + rest && c.path == p + r;
  }

  lemma {:induction false} SiblingMoved(t: Tree, p: seq<nat>, page: Tree, y: nat, rest: seq<nat>)
    requires PageOn(t, p) && page.Branch? && y < |page.kids| && PageOn(page.kids[y].sub, rest)
    ensures var t', q := SetPage(t, p, page), p + ([y] + rest);
      PageOn(t', q) && PageAt(t', q) == PageAt(page.kids[y].sub, rest)
  {
    OneDown(page, y, rest);
    SetBelow(t, p, page, [y] + rest);
  }

  lemma SplitKidAt(kids: seq<Kid>, x: nat, left: Tree, sep: Key, right: Tree, y: nat)
    requires x < |kids| && y < |kids| && y != x
    ensures var y' := if y > x then y + 1 else y;
      y' < |SplitKid(kids, x, left, sep, right)| && SplitKid(kids, x, left, sep, right)[y'] == kids[y]
  {
  }

  /** The adjustment of a cursor below child y of the split page's parent. */
  lemma SiblingPath(c: Cursor, p: seq<nat>, x: nat, i: nat, nleft: nat, replace: bool, y: nat, rest: seq<nat>)
    requires c.path == p + ([y] + rest) && y != x
    ensures AfterSplit(c, p, x, i, nleft, replace) == Cursor(p + ([if y > x then y + 1 else y] + rest), c.ki)
  {
    assert c.path[|p|] == y && (p + [x])[|p|] == x;
    assert c.path[|p| := y + 1] == p + ([y + 1] + rest);
    assert c.path[..|p|] == p;
  }

  /** Cursors below other children of the same parent. */
  lemma {:induction false} SplitSibling(t: Tree, p: seq<nat>, x: nat, i: nat, e: Entry, nleft: nat, sep: Key,
                                        replace: bool, c: Cursor)
    requires Splits(t, p, x, i, nleft, replace) && On(t, c) && Prefix(p, c.path) && c.path != p + [x]
    ensures var t' := SplitTree(t, p, x, i, e, nleft, sep, replace);
      var c' := AfterSplit(c, p, x, i, nleft, replace);
      On(t', c') && Cursors.Entry(t', c') == Cursors.Entry(t, c)
  {
    var kids := PageAt(t, p).kids;
    var all := Added(kids[x].sub.es, i, e, !replace);
    var page := Branch(SplitKid(kids, x, Leaf(all[..nleft]), sep, Leaf(all[nleft..])));
    var y, rest := SiblingAt(t, p, c);
    assert y != x by {
      assert y == x ==> rest == [] && [y] + rest == [x];
    }
    SplitKidAt(kids, x, Leaf(all[..nleft]), sep, Leaf(all[nleft..]), y);
    SiblingPath(c, p, x, i, nleft, replace, y, rest);
    SiblingMoved(t, p, page, if y > x then y + 1 else y, rest);
  }

  /** The inserting cursor itself: after the split it is at the new entry. */
  lemma SplitCursor(t: Tree, p: seq<nat>, x: nat, i: nat, e: Entry, nleft: nat, sep: Key, replace: bool)
    requires Splits(t, p, x, i, nleft, replace)
    ensures var t' := SplitTree(t, p, x, i, e, nleft, sep, replace);
      var c := if i >= nleft then Cursor(p + [x + 1], i - nleft) else Cursor(p + [x], i);
      On(t', c) && Cursors.Entry(t', c) == e
  {
    SplitHere(t, p, x, i, e, nleft, sep, replace, i);
  }

  /** The loop over the tracked cursors of a database. */
  method AdjustForSplit(cs: array<Cursor>, p: seq<nat>, x: nat, i: nat, nleft: nat, replace: bool)
    modifies cs
    ensures forall k :: 0 <= k < cs.Length ==> cs[k] == AfterSplit(old(cs[k]), p, x, i, nleft, replace)
  {
    var k := 0;
    var mine := if i >= nleft then x + 1 else x;
    while k < cs.Length
      invariant 0 <= k <= cs.Length
      invariant forall j :: 0 <= j < k ==> cs[j] == AfterSplit(old(cs[j]), p, x, i, nleft, replace)
      invariant forall j :: k <= j < cs.Length ==> cs[j] == old(cs[j])
    {
      var c := cs[k];
      if c.path == p + [x] {
        if c.ki >= i && !replace {
          c := c.(ki := c.ki + 1);
        }
        if c.ki >= nleft {
          c := Cursor(p + [x + 1], c.ki - nleft);
        }
      } else if |c.path| > |p| && c.path[..|p|] == p && c.path[|p|] >= mine {
        c := c.(path := c.path[|p| := c.path[|p|] + 1]);
      }
      cs[k] := c;
      k := k + 1;
    }
  }

  /** A split of the root leaf: the cursors get a level, first by where they
      are, then by the rule for the split page. */
  function AfterRootSplit(c: Cursor, i: nat, nleft: nat, replace: bool): Cursor {
    var first := if c.ki >= nleft then 1 else 0;
    var k := if c.ki >= i && !replace then c.ki + 1 else c.ki;
    if k >= nleft then Cursor([1], k - nleft) else Cursor([first], k)
  }

  lemma RootSplitTracked(es: seq<Entry>, i: nat, e: Entry, nleft: nat, sep: Key, replace: bool, c: Cursor)
    requires i <= |es| && (replace ==> i < |es|) && nleft <= |es| && On(Leaf(es), c) && c.path == []
    ensures var all := Added(es, i, e, !replace);
      var t' := Branch([Kid([], Leaf(all[..nleft])), Kid(sep, Leaf(all[nleft..]))]);
      var c' := AfterRootSplit(c, i, nleft, replace);
      On(t', c') && Cursors.Entry(t', c') == if c.ki == i && replace then e else es[c.ki]
  {
    AddedAt(es, i, e, !replace, c.ki);
    var all := Added(es, i, e, !replace);
    var page := Branch([Kid([], Leaf(all[..nleft])), Kid(sep, Leaf(all[nleft..]))]);
    var k := if c.ki >= i && !replace then c.ki + 1 else c.ki;
    assert [0] + [] == [0] && [1] + [] == [1];
    OneDown(page, if k >= nleft then 1 else 0, []);
  }

  method AdjustForInsert(cs: array<Cursor>, q: seq<nat>, i: nat, insertKey: bool)
    modifies cs
    ensures forall k :: 0 <= k < cs.Length ==> cs[k] == AfterInsert(old(cs[k]), q, i, insertKey)
  {
    var k := 0;
    while k < cs.Length
      invariant 0 <= k <= cs.Length
      invariant forall j :: 0 <= j < k ==> cs[j] == AfterInsert(old(cs[j]), q, i, insertKey)
      invariant forall j :: k <= j < cs.Length ==> cs[j] == old(cs[j])
    {
      if cs[k].path == q && cs[k].ki >= i && insertKey {
        cs[k] := cs[k].(ki := cs[k].ki + 1);
      }
      k := k + 1;
    }
  }
}
