/**
 mdb_env_cwalk: the traversal with an explicit stack of branch pages writes
 exactly what the recursive copy describes.
 */
module CompactWalk {
  import opened Keys
  import opened Compact
  import opened CompactRead
  import opened PageFormat
  import PageSplit

  // ---------------------------------------------------------------- termination and the shape of the tree

  function Weight(t: PTree): nat
    decreases t, 0
  {
    match t
    case PLeaf(_, items) => 1 + ItemsWeight(items)
    case PBranch(_, kids) => 2 + KidsWeight(kids)
  }

  function ItemWeight(i: Item): nat
    decreases i, 0
  {
    if i.SubDb? && i.root.At? then 1 + Weight(i.root.t) else 1
  }

  function ItemsWeight(items: seq<Item>): nat
    decreases items, 0
  {
    if items == [] then 0 else ItemWeight(items[0]) + ItemsWeight(items[1..])
  }

  function KidsWeight(kids: seq<PKid>): nat
    decreases kids, 0
  {
    if kids == [] then 0 else Weight(kids[0].sub) + KidsWeight(kids[1..])
  }

  /** Branch pages have children, also in the databases within. */
  predicate Whole(t: PTree)
    decreases t, 0
  {
    match t
    case PLeaf(_, items) => WholeItems(items)
    case PBranch(_, kids) => kids != [] && WholeKids(kids)
  }

  predicate WholeItems(items: seq<Item>)
    decreases items, 0
  {
    items == [] || ((items[0].SubDb? && items[0].root.At? ==> Whole(items[0].root.t)) && WholeItems(items[1..]))
  }

  predicate WholeKids(kids: seq<PKid>)
    decreases kids, 0
  {
    kids == [] || (Whole(kids[0].sub) && WholeKids(kids[1..]))
  }

  lemma {:induction false} WholeBranch(t: PTree)
    requires Whole(t) && t.PBranch?
    ensures t.kids != [] && WholeKids(t.kids) && Weight(t) == 2 + KidsWeight(t.kids)
  {
  }

  lemma {:induction false} FirstKid(kids: seq<PKid>)
    requires kids != [] && WholeKids(kids)
    ensures Whole(kids[0].sub) && WholeKids(kids[1..])
    ensures KidsWeight(kids) == Weight(kids[0].sub) + KidsWeight(kids[1..])
  {
  }

  // ---------------------------------------------------------------- the cursor stack

  /** A branch page on the stack: children before ki have new numbers, child ki
      is being copied. */
  datatype Frame = Frame(kids: seq<PKid>, ki: nat)

  predicate Ok(f: Frame) { f.ki < |f.kids| && WholeKids(f.kids[f.ki + 1..]) }

  predicate StackOk(stack: seq<Frame>) { forall i :: 0 <= i < |stack| ==> Ok(stack[i]) }

  function Top(stack: seq<Frame>): Frame
    requires stack != []
  {
    stack[|stack| - 1]
  }

  function Outer(stack: seq<Frame>): seq<Frame>
    requires stack != []
  {
    stack[..|stack| - 1]
  }

  function After(out: seq<Out>, c: Copied<PTree>): Copied<PTree> { c.(out := out + c.out) }

  /** The page of a frame once its child ki has become c. */
  function CloseFrame(f: Frame, c: Copied<PTree>): Copied<PTree>
    requires f.ki < |f.kids|
  {
    var d := CopyKids(f.kids[f.ki + 1..], c.next);
    BranchDone(Copied(f.kids[..f.ki] + [PKid(f.kids[f.ki].key, c.x)] + d.x, d.next, c.out + d.out))
  }

  /** What comes of the whole walk once the subtree being copied has become c. */
  function Unwind(stack: seq<Frame>, c: Copied<PTree>): Copied<PTree>
    requires StackOk(stack)
    decreases |stack|
  {
    if stack == [] then c else Unwind(Outer(stack), CloseFrame(Top(stack), c))
  }

  function Left(stack: seq<Frame>): nat
    requires StackOk(stack)
    decreases |stack|
  {
    if stack == [] then 0 else Left(Outer(stack)) + 1 + KidsWeight(Top(stack).kids[Top(stack).ki + 1..])
  }

  lemma {:induction false} Push(stack: seq<Frame>, f: Frame)
    requires StackOk(stack) && Ok(f)
    ensures StackOk(stack + [f]) && Outer(stack + [f]) == stack && Top(stack + [f]) == f
    ensures Left(stack + [f]) == Left(stack) + 1 + KidsWeight(f.kids[f.ki + 1..])
  {
    assert Outer(stack + [f]) == stack;
  }

  /** Going down to the first child. */
  lemma {:induction false} Descend(kids: seq<PKid>, p: int, next: int, out: seq<Out>)
    requires kids != []
    ensures CloseFrame(Frame(kids, 0), After(out, CopyTree(kids[0].sub, next))) == After(out, CopyTree(PBranch(p, kids), next))
  {
    var c := CopyTree(kids[0].sub, next);
    var d := CopyKids(kids[1..], c.next);
    assert kids[..0] == [];
    assert (out + c.out) + d.out == out + (c.out + d.out);
    var o := [OutBranch(d.next, Refs([PKid(kids[0].key, c.x)] + d.x))];
    assert (out + c.out + d.out) + o == out + ((c.out + d.out) + o);
    assert [] + [PKid(kids[0].key, c.x)] + d.x == [PKid(kids[0].key, c.x)] + d.x;
  }

  /** Going on to the next child. */
  lemma {:induction false} Advance(f: Frame, t: PTree, next: int, out: seq<Out>)
    requires f.ki + 1 < |f.kids|
    ensures var g := Frame(f.kids[f.ki := PKid(f.kids[f.ki].key, t)], f.ki + 1);
      CloseFrame(f, Copied(t, next, out)) == CloseFrame(g, After(out, CopyTree(f.kids[f.ki + 1].sub, next)))
  {
    var k := f.ki + 1;
    var g := Frame(f.kids[f.ki := PKid(f.kids[f.ki].key, t)], k);
    var rest := f.kids[k..];
    assert rest[1..] == f.kids[k + 1..] == g.kids[k + 1..];
    var c := CopyTree(rest[0].sub, next);
    var d := CopyKids(rest[1..], c.next);
    assert out + (c.out + d.out) == (out + c.out) + d.out;
    assert f.kids[..f.ki] + [PKid(f.kids[f.ki].key, t)] + ([PKid(rest[0].key, c.x)] + d.x)
        == g.kids[..k] + [PKid(g.kids[k].key, c.x)] + d.x;
  }

  /** The last child is done. */
  lemma Close(f: Frame, t: PTree, next: int, out: seq<Out>)
    requires f.ki + 1 == |f.kids|
    ensures CloseFrame(f, Copied(t, next, out)) == BranchDone(Copied(f.kids[f.ki := PKid(f.kids[f.ki].key, t)], next, out))
  {
    assert f.kids[f.ki + 1..] == [];
    assert f.kids[..f.ki] + [PKid(f.kids[f.ki].key, t)] + [] == f.kids[f.ki := PKid(f.kids[f.ki].key, t)];
    assert out + [] == out;
  }

  /** The parent is told the child's new number. */
  lemma Deliver(f: Frame, c: Copied<PTree>)
    requires Ok(f)
    ensures var g := Frame(f.kids[f.ki := PKid(f.kids[f.ki].key, c.x)], f.ki);
      Ok(g) && CloseFrame(g, c) == CloseFrame(f, c) && g.kids[g.ki + 1..] == f.kids[f.ki + 1..]
  {
    var g := Frame(f.kids[f.ki := PKid(f.kids[f.ki].key, c.x)], f.ki);
    assert g.kids[g.ki + 1..] == f.kids[f.ki + 1..] && g.kids[..g.ki] == f.kids[..f.ki];
  }

  // ---------------------------------------------------------------- the walk

  /** One page of the walk: the subtree to copy next, if the top of the stack is
      not a branch page whose child has just been copied. */
  datatype Walk = Walk(stack: seq<Frame>, cur: Root, next: int, out: seq<Out>)

  predicate WalkOk(w: Walk) {
    StackOk(w.stack) && (if w.cur.At? then Whole(w.cur.t) else w.stack != [])
  }

  /** What the walk will have copied in the end. */
  function Goal(w: Walk): Copied<PTree>
    requires WalkOk(w)
  {
    if w.cur.At? then Unwind(w.stack, After(w.out, CopyTree(w.cur.t, w.next)))
    else Unwind(w.stack, Copied(Top(w.stack).kids[Top(w.stack).ki].sub, w.next, w.out))
  }

  function WorkLeft(w: Walk): nat
    requires WalkOk(w)
  {
    Left(w.stack) + if w.cur.At? then Weight(w.cur.t) else 0
  }

  /** Down to the first child of a branch page. */
  lemma DescendStep(w: Walk) returns (v: Walk)
    requires WalkOk(w) && w.cur.At? && w.cur.t.PBranch?
    ensures v == w.(stack := w.stack + [Frame(w.cur.t.kids, 0)], cur := At(w.cur.t.kids[0].sub))
    ensures WalkOk(v) && Goal(v) == Goal(w) && WorkLeft(v) < WorkLeft(w)
  {
    var kids := w.cur.t.kids;
    var f := Frame(kids, 0);
    WholeBranch(w.cur.t);
    FirstKid(kids);
    v := w.(stack := w.stack + [f], cur := At(kids[0].sub));
    Push(w.stack, f);
    Descend(kids, w.cur.t.pgno, w.next, w.out);
  }

  /** On to the next child. */
  lemma AdvanceStep(w: Walk) returns (v: Walk)
    requires WalkOk(w) && w.cur.Empty? && Top(w.stack).ki + 1 < |Top(w.stack).kids|
    ensures var f := Top(w.stack);
      v == w.(stack := Outer(w.stack) + [Frame(f.kids, f.ki + 1)], cur := At(f.kids[f.ki + 1].sub))
    ensures WalkOk(v) && Goal(v) == Goal(w) && WorkLeft(v) == WorkLeft(w)
  {
    var f, outer := Top(w.stack), Outer(w.stack);
    var t, g := f.kids[f.ki].sub, Frame(f.kids, f.ki + 1);
    v := w.(stack := outer + [g], cur := At(f.kids[f.ki + 1].sub));
    assert f.kids[f.ki := PKid(f.kids[f.ki].key, t)] == f.kids;
    var rest := f.kids[f.ki + 1..];
    assert rest[1..] == g.kids[g.ki + 1..];
    Push(outer, g);
    Advance(f, t, w.next, w.out);
  }

  /** A finished page t' is delivered to its parent. */
  lemma DeliverStep(stack: seq<Frame>, c: Copied<PTree>) returns (v: Walk)
    requires StackOk(stack) && stack != []
    ensures var f := Top(stack);
      v == Walk(Outer(stack) + [Frame(f.kids[f.ki := PKid(f.kids[f.ki].key, c.x)], f.ki)], Empty, c.next, c.out)
    ensures WalkOk(v) && Goal(v) == Unwind(stack, c) && WorkLeft(v) == Left(stack)
  {
    var f, outer := Top(stack), Outer(stack);
    var g := Frame(f.kids[f.ki := PKid(f.kids[f.ki].key, c.x)], f.ki);
    v := Walk(outer + [g], Empty, c.next, c.out);
    Deliver(f, c);
    Push(outer, g);
  }

  /** All items of a leaf: overflow pages are written as they are met, and
      databases within are walked. */
  method CopyLeaf(items: seq<Item>, next0: int, out0: seq<Out>) returns (copy: seq<Item>, next: int, out: seq<Out>)
    requires WholeItems(items)
    ensures var c := CopyItems(items, next0); copy == c.x && next == c.next && out == out0 + c.out
    decreases ItemsWeight(items), 0
  {
    copy, next, out := [], next0, out0;
    var i := 0;
    assert items[0..] == items;
    ghost var all := CopyItems(items, next0);
    assert copy + all.x == all.x;
    while i < |items|
      invariant 0 <= i <= |items| && WholeItems(items[i..]) && ItemsWeight(items[i..]) <= ItemsWeight(items)
      invariant var c, d := CopyItems(items, next0), CopyItems(items[i..], next);
        c == Copied(copy + d.x, d.next, c.out) && out0 + c.out == out + d.out
    {
      var rest := items[i..];
      assert rest[0] == items[i] && rest[1..] == items[i + 1..];
      ghost var c := CopyItem(items[i], next);
      ghost var d := CopyItems(rest[1..], c.next);
      assert out + (c.out + d.out) == (out + c.out) + d.out;
      assert copy + ([c.x] + d.x) == (copy + [c.x]) + d.x;
      match items[i] {
        case Inline(_, _) =>
          copy := copy + [items[i]];
          assert out + [] == out;
        case Big(key, _, pages, data) =>
          copy := copy + [Big(key, next, pages, data)];
          out := out + [OutOverflow(next, pages, data)];
          next := next + pages;
        case SubDb(key, root, stat) =>
          var newRoot;
          newRoot, next, out := CWalk(root, next, out);
          copy := copy + [SubDb(key, newRoot, stat)];
      }
      i := i + 1;
    }
  }

  method CWalk(root: Root, next0: int, out0: seq<Out>) returns (copy: Root, next: int, out: seq<Out>)
    requires root.At? ==> Whole(root.t)
    ensures var c := CopyRoot(root, next0); copy == c.x && next == c.next && out == out0 + c.out
    decreases if root.At? then Weight(root.t) else 0, 1
  {
    if root.Empty? {
      return Empty, next0, out0;
    }
    var w := Walk([], root, next0, out0);
    ghost var goal := After(out0, CopyTree(root.t, next0));
    while true
      invariant WalkOk(w) && Goal(w) == goal && WorkLeft(w) <= Weight(root.t)
      decreases WorkLeft(w), if w.cur.At? then 0 else 1
    {
      var done: Copied<PTree>;
      var stack := w.stack;
      if w.cur.At? {
        if w.cur.t.PBranch? {
          ghost var v := DescendStep(w);
          w := w.(stack := w.stack + [Frame(w.cur.t.kids, 0)], cur := At(w.cur.t.kids[0].sub));
          continue;
        }
        done := LeafDone(w);
      } else {
        var f := Top(w.stack);
        if f.ki + 1 < |f.kids| {
          ghost var v := AdvanceStep(w);
          w := w.(stack := Outer(w.stack) + [Frame(f.kids, f.ki + 1)], cur := At(f.kids[f.ki + 1].sub));
          continue;
        }
        CloseStep(w);
        done := Copied(PBranch(w.next, f.kids), w.next + 1, w.out + [OutBranch(w.next, Refs(f.kids))]);
        stack := Outer(stack);
      }
      if stack == [] {
        return At(done.x), done.next, done.out;
      }
      ghost var v := DeliverStep(stack, done);
      var f := Top(stack);
      w := Walk(Outer(stack) + [Frame(f.kids[f.ki := PKid(f.kids[f.ki].key, done.x)], f.ki)], Empty, done.next, done.out);
    }
  }

  /** A leaf whose items have been copied is written. */
  method LeafDone(w: Walk) returns (done: Copied<PTree>)
    requires WalkOk(w) && w.cur.At? && w.cur.t.PLeaf?
    ensures Goal(w) == Unwind(w.stack, done)
    decreases ItemsWeight(w.cur.t.items), 1
  {
    var items, n, o := CopyLeaf(w.cur.t.items, w.next, w.out);
    done := Copied(PLeaf(n, items), n + 1, o + [OutLeaf(n, Nodes(items))]);
    LeafStep(w, n, items, o, done);
  }

  lemma {:induction false} LeafStep(w: Walk, n: int, items: seq<Item>, o: seq<Out>, done: Copied<PTree>)
    requires WalkOk(w) && w.cur.At? && w.cur.t.PLeaf?
    requires var c := CopyItems(w.cur.t.items, w.next); items == c.x && n == c.next && o == w.out + c.out
    requires done == Copied(PLeaf(n, items), n + 1, o + [OutLeaf(n, Nodes(items))])
    ensures Goal(w) == Unwind(w.stack, done)
  {
    var c := CopyItems(w.cur.t.items, w.next);
    assert (w.out + c.out) + [OutLeaf(n, Nodes(items))] == w.out + (c.out + [OutLeaf(n, Nodes(items))]);
  }

  lemma CloseStep(w: Walk)
    requires WalkOk(w) && w.cur.Empty? && Top(w.stack).ki + 1 == |Top(w.stack).kids|
    ensures StackOk(Outer(w.stack)) && Left(Outer(w.stack)) < WorkLeft(w)
    ensures Goal(w) == Unwind(Outer(w.stack), BranchDone(Copied(Top(w.stack).kids, w.next, w.out)))
  {
    var f := Top(w.stack);
    var t := f.kids[f.ki].sub;
    Close(f, t, w.next, w.out);
    assert f.kids[f.ki := PKid(f.kids[f.ki].key, t)] == f.kids;
  }

  // ---------------------------------------------------------------- the whole copy

  /** mdb_env_copyfd1: counts the free pages and those of freeDB, writes the
      root it predicts into the new meta page, and copies.  The copy is accepted
      exactly if no page of the snapshot is missing or lost; then the meta page
      points to the root of a database with the same keys, data and shape, whose
      pages fill the file behind the meta pages. */
  method CopyEnv(root: Root, nextPgno: int, freeRecords: seq<nat>, freeDbPages: int)
    returns (ok: bool, metaRoot: int, copy: Root, out: seq<Out>)
    requires root.At? ==> Whole(root.t)
    ensures ok <==> root.Empty? || nextPgno == NUM_METAS + Extent(PagesOf(root.t)) + PageSplit.Sum(freeRecords) + freeDbPages
    ensures ok ==> metaRoot == RootPage(copy)
    ensures StripRoot(copy) == StripRoot(root) && out == PagesOfRoot(copy) && InPlace(out, NUM_METAS)
    ensures ok ==> var back := ReadRoot(out, metaRoot); back.Some? && StripRoot(back.value) == StripRoot(root)
  {
    metaRoot := P_INVALID;
    if root.At? {
      var freeCount, i := 0, 0;
      while i < |freeRecords|
        invariant 0 <= i <= |freeRecords| && freeCount == PageSplit.Sum(freeRecords[..i])
      {
        PageSplit.SumCut(freeRecords, i);
        freeCount := freeCount + freeRecords[i];
        i := i + 1;
      }
      assert freeRecords[..i] == freeRecords;
      freeCount := freeCount + freeDbPages;
      metaRoot := nextPgno - 1 - freeCount;
      RootAsPredicted(root.t, nextPgno, freeCount);
    }
    var next;
    copy, next, out := CWalk(root, NUM_METAS, []);
    CopyRootIs(root, NUM_METAS);
    CopyReadsBack(root);
    ok := RootPage(copy) == metaRoot;
  }
}
