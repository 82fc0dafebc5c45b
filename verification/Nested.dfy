/**
 Nested write transactions: each has its own dirty and spilled pages on top of
 its parent's; reading looks through them from the innermost outwards.
 */
module Nested {
  import opened PageFormat
  import opened Wrappers

  type Page = int
  const UM_MAX := 0x1ffff

  /** tree: pages reachable from the transaction's roots; freed: mt_free_pgs;
      loose: mt_loose_pgs; head: me_pghead; unread: pages of the freeDB records
      above me_pglast; next: mt_next_pgno.  Those of a waiting parent are what
      the child has saved of it (mnt_pgstate) and its own fields. */
  datatype Space = Space(tree: set<int>, freed: set<int>, loose: set<int>, head: set<int>, unread: set<int>, next: int)

  /** dirty: pages in memory; spill: pages written to the file early; room:
      mt_dirty_room. */
  datatype Txn = Txn(dirty: map<int, Page>, spill: set<int>, room: int, space: Space)

  /** The file, and the transactions from the outermost to the active one. */
  datatype State = State(disk: map<int, Page>, txns: seq<Txn>)

  function DiskAt(disk: map<int, Page>, p: int): Page { if p in disk then disk[p] else 0 }

  /** The page mdb_page_get finds. */
  function Read(disk: map<int, Page>, txns: seq<Txn>, p: int): Page {
    if txns == [] then DiskAt(disk, p) else
      var t := Top(txns);
      if p in t.spill then DiskAt(disk, p)
      else if p in t.dirty then t.dirty[p]
      else Read(disk, Outer(txns), p)
  }

  /** Its level: 1 for the active transaction's own list, 0 for the file
      without a spill list hit. */
  function Level(txns: seq<Txn>, p: int): nat {
    if txns == [] then 0 else
      var t := Top(txns);
      if p in t.spill || p in t.dirty then 1
      else if Level(Outer(txns), p) == 0 then 0 else Level(Outer(txns), p) + 1
  }

  /** Whether the page found is one in memory (it carries P_DIRTY). */
  predicate InMemory(txns: seq<Txn>, p: int) {
    txns != [] && p !in Top(txns).spill && (p in Top(txns).dirty || InMemory(Outer(txns), p))
  }

  function Top(txns: seq<Txn>): Txn
    requires txns != []
  {
    txns[|txns| - 1]
  }

  function Outer(txns: seq<Txn>): seq<Txn>
    requires txns != []
  {
    txns[..|txns| - 1]
  }

  /** mdb_page_get: spill list before dirty list, transaction by transaction. */
  method PageGet(s: State, p: int) returns (page: Page, level: nat)
    ensures page == Read(s.disk, s.txns, p) && level == Level(s.txns, p)
  {
    var i := |s.txns|;
    level := 1;
    assert s.txns[..i] == s.txns;
    while i > 0
      invariant 0 <= i <= |s.txns| && level == |s.txns| - i + 1
      invariant Read(s.disk, s.txns, p) == Read(s.disk, s.txns[..i], p)
      invariant Level(s.txns, p) == if Level(s.txns[..i], p) == 0 then 0 else Level(s.txns[..i], p) + level - 1
    {
      assert Top(s.txns[..i]) == s.txns[i - 1] && Outer(s.txns[..i]) == s.txns[..i - 1];
      if p in s.txns[i - 1].spill {
        return DiskAt(s.disk, p), level;
      }
      if p in s.txns[i - 1].dirty {
        return s.txns[i - 1].dirty[p], level;
      }
      level := level + 1;
      i := i - 1;
    }
    return DiskAt(s.disk, p), 0;
  }

  predicate Spilled(txns: seq<Txn>, p: int) { exists i :: 0 <= i < |txns| && p in txns[i].spill }
  predicate Held(txns: seq<Txn>, p: int) { exists i :: 0 <= i < |txns| && (p in txns[i].spill || p in txns[i].dirty) }

  // ---------------------------------------------------------------- steps

  /** What the active transaction does to pages:
      Alloc   mdb_page_alloc, from me_pghead or at mt_next_pgno
      Reuse   mdb_page_alloc, from the loose list
      Fetch   mdb_page_alloc reads freeDB records into me_pghead
      Free    a page of the tree goes to mt_free_pgs
      Loosen  mdb_page_loose of a page of the own dirty list
      Copy    mdb_page_touch of a page that is dirty in an ancestor
      Unspill mdb_page_unspill, a page on some spill list becomes dirty again
      Write   a page of the own dirty list changes
      Spill   mdb_page_spill, unless the page is loose or on an ancestor's spill list
      Touching a clean page is an allocation and a Free.  mdb_ovpage_free gives
      pages back to me_pghead only where there is no parent. */
  datatype Op =
    | Alloc(p: int, page: Page) | Reuse(p: int, page: Page) | Fetch(ps: set<int>)
    | Free(p: int) | Loosen(p: int)
    | Copy(p: int) | Unspill(p: int) | Write(p: int, page: Page) | Spill(p: int)

  predicate Enabled(s: State, op: Op) {
    && s.txns != []
    && var t := Top(s.txns);
       match op
       case Alloc(p, _) => (p in t.space.head || p == t.space.next) && t.room > 0
       case Reuse(p, _) => p in t.space.loose
       case Fetch(ps) => ps <= t.space.unread
       case Free(p) => p in t.space.tree
       case Loosen(p) => p in t.space.tree && p in t.dirty
       case Copy(p) => p in t.space.tree && p !in t.dirty && InMemory(s.txns, p)
       case Unspill(p) => p in t.space.tree && !InMemory(s.txns, p) && Spilled(s.txns, p) && t.room > 0
       case Write(p, _) => p in t.dirty
       case Spill(p) => p in t.dirty && p !in t.space.loose && !Spilled(Outer(s.txns), p)
  }

  function MoveSpace(sp: Space, op: Op): Space {
    match op
    case Alloc(p, _) =>
      sp.(tree := sp.tree + {p}, head := sp.head - {p}, next := if p == sp.next then sp.next + 1 else sp.next)
    case Reuse(p, _) => sp.(tree := sp.tree + {p}, loose := sp.loose - {p})
    case Fetch(ps) => sp.(head := sp.head + ps, unread := sp.unread - ps)
    case Free(p) => sp.(tree := sp.tree - {p}, freed := sp.freed + {p})
    case Loosen(p) => sp.(tree := sp.tree - {p}, loose := sp.loose + {p})
    case _ => sp
  }

  /** The transaction after the operation; `seen` is what it reads at the page. */
  function MoveTxn(t: Txn, op: Op, seen: Page): Txn {
    var sp := MoveSpace(t.space, op);
    match op
    case Alloc(p, c) => Txn(t.dirty[p := c], t.spill, t.room - 1, sp)
    case Reuse(p, c) => Txn(t.dirty[p := c], t.spill, t.room, sp)
    case Copy(p) => Txn(t.dirty[p := seen], t.spill, t.room, sp)
    case Unspill(p) => Txn(t.dirty[p := seen], t.spill - {p}, t.room - 1, sp)
    case Write(p, c) => Txn(t.dirty[p := c], t.spill, t.room, sp)
    case Spill(p) => Txn(t.dirty - {p}, t.spill + {p}, t.room + 1, sp)
    case _ => t.(space := sp)
  }

  function Seen(s: State, op: Op): Page {
    if op.Copy? || op.Unspill? then Read(s.disk, s.txns, op.p) else 0
  }

  function Apply(s: State, op: Op): State
    requires Enabled(s, op)
  {
    var t := Top(s.txns);
    State(if op.Spill? then s.disk[op.p := t.dirty[op.p]] else s.disk,
          Outer(s.txns) + [MoveTxn(t, op, Seen(s, op))])
  }

  /** mdb_txn_begin with a parent: the child has copies of me_pghead,
      mt_next_pgno and the roots, and freed and loose lists of its own. */
  function Begin(s: State): State
    requires s.txns != []
  {
    var t := Top(s.txns);
    s.(txns := s.txns + [Txn(map[], {}, t.room, t.space.(freed := {}, loose := {}))])
  }

  /** mdb_txn_abort of a child: its lists go, me_pgstate is the parent's again,
      and what it wrote to the file stays. */
  function Abort(s: State): State
    requires 2 <= |s.txns|
  {
    s.(txns := Outer(s.txns))
  }

  /** The dirty and the spill list, and mt_dirty_room. */
  datatype PageLists = PageLists(dirty: map<int, Page>, spill: set<int>, room: int)

  function MergedLists(parent: PageLists, child: PageLists): PageLists {
    PageLists((parent.dirty - child.spill) + child.dirty, (parent.spill - child.dirty.Keys) + child.spill, child.room)
  }

  function ListsOf(t: Txn): PageLists { PageLists(t.dirty, t.spill, t.room) }

  /** What a child leaves to its parent: its own lists merged in, its roots and its allocator. */
  function Merged(parent: Txn, child: Txn): Txn {
    var l := MergedLists(ListsOf(parent), ListsOf(child));
    Txn(l.dirty, l.spill, l.room,
        child.space.(freed := parent.space.freed + child.space.freed, loose := parent.space.loose + child.space.loose))
  }

  /** mdb_txn_commit of a child. */
  function Commit(s: State): State
    requires 2 <= |s.txns|
  {
    var rest := Outer(s.txns);
    s.(txns := Outer(rest) + [Merged(Top(rest), Top(s.txns))])
  }

  // ---------------------------------------------------------------- invariant

  /** Pages that count against mt_dirty_room. */
  function Counted(txns: seq<Txn>): set<int> {
    if txns == [] then {} else (Counted(Outer(txns)) - Top(txns).spill) + Top(txns).dirty.Keys
  }

  /** Pages that mdb_page_alloc may still hand out, the loose ones aside. */
  predicate Avail(sp: Space, p: int) { p in sp.head || p in sp.unread || sp.next <= p }

  /** Freed and loose pages of the whole chain. */
  function Gone(txns: seq<Txn>): set<int> {
    if txns == [] then {} else Gone(Outer(txns)) + Top(txns).space.freed + Top(txns).space.loose
  }

  /** Every page of the file is in the tree, on one of the allocator's lists, or gone; in one of them only. */
  ghost predicate Parted(sp: Space, gone: set<int>) {
    && (forall p :: NUM_METAS <= p < sp.next <==> p in sp.tree || p in sp.head || p in sp.unread || p in gone)
    && sp.tree !! sp.head && sp.tree !! sp.unread && sp.tree !! gone
    && sp.head !! sp.unread && sp.head !! gone && sp.unread !! gone
  }

  ghost predicate SpaceOk(txns: seq<Txn>)
    requires txns != []
  {
    var sp := Top(txns).space;
    && Parted(sp, Gone(txns)) && sp.freed !! sp.loose
    && Gone(Outer(txns)) !! sp.freed && Gone(Outer(txns)) !! sp.loose
    && NUM_METAS <= sp.next
  }

  /** What a transaction holds it has not given up to an ancestor; it was
      available to the parent, or is held further out. */
  ghost predicate HeldOk(t: Txn, outer: seq<Txn>) {
    && (forall p :: p in t.spill || p in t.dirty ==> p in t.space.tree || p in t.space.freed || p in t.space.loose)
    && (forall p :: p in t.space.loose ==> p in t.dirty)
    && (outer != [] ==> forall p :: p in t.spill || p in t.dirty ==> Avail(Top(outer).space, p) || Held(outer, p))
  }

  /** The lists are disjoint, and what is spilled no ancestor has spilled. */
  ghost predicate SpillOk(t: Txn, outer: seq<Txn>) {
    forall p :: p in t.spill ==> p !in t.dirty && !Spilled(outer, p)
  }

  predicate RoomOk(txns: seq<Txn>)
    requires txns != []
  {
    Top(txns).room == UM_MAX - |Counted(txns)|
  }

  ghost predicate HeirOk(t: Txn, outer: seq<Txn>) {
    outer != [] ==> Inherits(Top(outer).space, t.space)
  }

  ghost predicate TopOk(txns: seq<Txn>)
    requires txns != []
  {
    && SpillOk(Top(txns), Outer(txns)) && RoomOk(txns) && SpaceOk(txns)
    && HeldOk(Top(txns), Outer(txns)) && HeirOk(Top(txns), Outer(txns))
  }

  /** A child's allocator has nothing the parent's had not. */
  ghost predicate Inherits(parent: Space, child: Space) {
    parent.next <= child.next && forall p :: Avail(child, p) ==> Avail(parent, p)
  }

  ghost predicate Ok(txns: seq<Txn>) {
    txns == [] || (TopOk(txns) && Ok(Outer(txns)))
  }

  lemma {:induction false} CountedIsInMemory(txns: seq<Txn>, p: int)
    requires Ok(txns)
    ensures p in Counted(txns) <==> InMemory(txns, p)
  {
    if txns != [] { CountedIsInMemory(Outer(txns), p); }
  }

  lemma {:induction false} InMemoryHeld(txns: seq<Txn>, p: int)
    ensures InMemory(txns, p) ==> Held(txns, p)
  {
    if txns != [] {
      InMemoryHeld(Outer(txns), p);
      HeldTop(txns, p);
    }
  }

  lemma HeldTop(txns: seq<Txn>, p: int)
    requires txns != []
    ensures Held(txns, p) <==> p in Top(txns).spill || p in Top(txns).dirty || Held(Outer(txns), p)
    ensures Spilled(txns, p) <==> p in Top(txns).spill || Spilled(Outer(txns), p)
    ensures Spilled(txns, p) ==> Held(txns, p)
  {
    assert forall i :: 0 <= i < |txns| - 1 ==> Outer(txns)[i] == txns[i];
  }

  lemma Size(s: set<int>, p: int)
    ensures p !in s ==> |s + {p}| == |s| + 1
    ensures p in s ==> s + {p} == s && |s - {p}| == |s| - 1
  {
  }

  lemma PartedAvail(sp: Space, gone: set<int>, p: int)
    requires Parted(sp, gone) && Avail(sp, p)
    ensures p !in sp.tree && p !in gone
  {
  }

  lemma {:induction false} AvailNotHeld(txns: seq<Txn>, p: int)
    requires txns != [] && TopOk(txns) && Avail(Top(txns).space, p)
    ensures p !in Top(txns).spill && p !in Top(txns).dirty && p !in Top(txns).space.tree && p !in Gone(txns)
  {
    PartedAvail(Top(txns).space, Gone(txns), p);
  }

  /** What may still be handed out is held by no transaction of the chain, and
      is on no list of pages given up. */
  lemma {:induction false} AvailIsFree(txns: seq<Txn>, p: int)
    requires Ok(txns) && txns != [] && Avail(Top(txns).space, p)
    ensures !Held(txns, p) && p !in Gone(txns)
  {
    HeldTop(txns, p);
    AvailNotHeld(txns, p);
    if Outer(txns) != [] {
      AvailIsFree(Outer(txns), p);
    }
  }

  lemma {:induction false} AvailInNoTree(txns: seq<Txn>, p: int, i: nat)
    requires Ok(txns) && txns != [] && Avail(Top(txns).space, p) && i < |txns|
    ensures p !in txns[i].space.tree
  {
    AvailNotHeld(txns, p);
    if i < |txns| - 1 {
      AvailInNoTree(Outer(txns), p, i);
    }
  }

  lemma {:induction false} OkParts(txns: seq<Txn>, t: Txn, outer: seq<Txn>)
    requires txns != [] && t == Top(txns) && outer == Outer(txns) && Ok(outer)
    requires SpillOk(t, outer) && RoomOk(txns) && SpaceOk(txns) && HeldOk(t, outer) && HeirOk(t, outer)
    ensures Ok(txns)
  {
  }

  /** Only the active transaction's lists change. */
  lemma ApplyOuter(s: State, op: Op)
    requires Enabled(s, op)
    ensures var u := Apply(s, op);
      u.txns != [] && Outer(u.txns) == Outer(s.txns) && Top(u.txns) == MoveTxn(Top(s.txns), op, Seen(s, op))
  {
  }

  /** What an operation adds to the pages that count, or takes from them. */
  function CountedAfter(c: set<int>, op: Op): set<int> {
    match op
    case Alloc(p, _) => c + {p}
    case Unspill(p) => c + {p}
    case Spill(p) => c - {p}
    case _ => c
  }

  lemma CountedMoves(c: set<int>, t: Txn, op: Op, seen: Page)
    requires op.Copy? ==> op.p in c && op.p !in t.spill
    requires op.Reuse? || op.Write? || op.Spill? ==> op.p in t.dirty
    ensures var u := MoveTxn(t, op, seen);
      (c - u.spill) + u.dirty.Keys == CountedAfter((c - t.spill) + t.dirty.Keys, op)
  {
  }

  lemma ApplyCounted(s: State, op: Op)
    requires Enabled(s, op) && Ok(s.txns)
    ensures Counted(Apply(s, op).txns) == CountedAfter(Counted(s.txns), op)
  {
    ApplyOuter(s, op);
    if op.Copy? {
      CountedIsInMemory(Outer(s.txns), op.p);
    }
    assert Counted(s.txns) == (Counted(Outer(s.txns)) - Top(s.txns).spill) + Top(s.txns).dirty.Keys;
    CountedMoves(Counted(Outer(s.txns)), Top(s.txns), op, Seen(s, op));
  }

  lemma ApplyRoom(s: State, op: Op)
    requires Enabled(s, op) && Ok(s.txns)
    ensures RoomOk(Apply(s, op).txns)
  {
    ApplyOuter(s, op);
    ApplyCounted(s, op);
    if op.Alloc? || op.Unspill? || op.Spill? {
      CountedIsInMemory(s.txns, op.p);
      InMemoryHeld(s.txns, op.p);
      HeldTop(s.txns, op.p);
      Size(Counted(s.txns), op.p);
      if op.Alloc? {
        AvailIsFree(s.txns, op.p);
      }
    }
  }

  /** The operation takes pages from where it may. */
  predicate Takes(sp: Space, op: Op) {
    match op
    case Alloc(p, _) => p in sp.head || p == sp.next
    case Reuse(p, _) => p in sp.loose
    case Fetch(ps) => ps <= sp.unread
    case Free(p) => p in sp.tree
    case Loosen(p) => p in sp.tree
    case _ => true
  }

  lemma SpaceMoves(sp: Space, op: Op, outer: set<int>)
    requires Takes(sp, op) && Parted(sp, outer + sp.freed + sp.loose) && sp.freed !! sp.loose
    requires outer !! sp.freed && outer !! sp.loose && NUM_METAS <= sp.next
    ensures var v := MoveSpace(sp, op);
      && Parted(v, outer + v.freed + v.loose) && v.freed !! v.loose && outer !! v.freed && outer !! v.loose
      && Inherits(sp, v)
  {
    match op
    case Alloc(p, _) =>
    case Reuse(p, _) =>
    case Fetch(ps) =>
    case Free(p) =>
    case Loosen(p) =>
    case _ =>
  }

  lemma SpaceStays(s: State, op: Op)
    requires Enabled(s, op) && Ok(s.txns)
    ensures SpaceOk(Apply(s, op).txns) && Inherits(Top(s.txns).space, Top(Apply(s, op).txns).space)
  {
    ApplyOuter(s, op);
    SpaceMoves(Top(s.txns).space, op, Gone(Outer(s.txns)));
  }

  lemma HeldMoves(s: State, op: Op)
    requires Enabled(s, op) && Ok(s.txns)
    ensures HeldOk(Top(Apply(s, op).txns), Outer(s.txns))
  {
    ApplyOuter(s, op);
    if !op.Fetch? {
      HeldTop(s.txns, op.p);
      InMemoryHeld(Outer(s.txns), op.p);
    }
  }

  lemma SpillMoves(s: State, op: Op)
    requires Enabled(s, op) && Ok(s.txns)
    ensures SpillOk(Top(Apply(s, op).txns), Outer(s.txns))
  {
    ApplyOuter(s, op);
    if op.Alloc? {
      AvailIsFree(s.txns, op.p);
      HeldTop(s.txns, op.p);
    }
  }

  lemma HeirStays(a: Space, b: Space, c: Space)
    requires Inherits(a, b) && Inherits(b, c)
    ensures Inherits(a, c)
  {
  }

  lemma HeirMoves(s: State, op: Op)
    requires Enabled(s, op) && Ok(s.txns)
    ensures HeirOk(Top(Apply(s, op).txns), Outer(s.txns))
  {
    SpaceStays(s, op);
    if Outer(s.txns) != [] {
      HeirStays(Top(Outer(s.txns)).space, Top(s.txns).space, Top(Apply(s, op).txns).space);
    }
  }

  /** Every step keeps the invariant of the whole chain. */
  lemma ApplyOk(s: State, op: Op)
    requires Enabled(s, op) && Ok(s.txns)
    ensures Ok(Apply(s, op).txns)
  {
    ApplyOuter(s, op);
    ApplyRoom(s, op);
    SpillMoves(s, op);
    HeldMoves(s, op);
    HeirMoves(s, op);
    SpaceStays(s, op);
    OkParts(Apply(s, op).txns, Top(Apply(s, op).txns), Outer(s.txns));
  }

  // ---------------------------------------------------------------- commit

  lemma MergedSets(o: set<int>, ps: set<int>, pd: set<int>, cs: set<int>, cd: set<int>)
    ensures (o - ((ps - cd) + cs)) + ((pd - cs) + cd) == (((o - ps) + pd) - cs) + cd
  {
  }

  /** The chain after a commit. */
  lemma CommitTop(s: State)
    requires 2 <= |s.txns|
    ensures var rest, txns := Outer(s.txns), Commit(s).txns;
      && txns != [] && Top(txns) == Merged(Top(rest), Top(s.txns)) && Outer(txns) == Outer(rest)
  {
  }

  lemma CommitCounted(s: State)
    requires 2 <= |s.txns| && Ok(s.txns)
    ensures Counted(Commit(s).txns) == Counted(s.txns)
  {
    var rest := Outer(s.txns);
    var parent, child := Top(rest), Top(s.txns);
    var m := Merged(parent, child);
    CommitTop(s);
    var o := Counted(Outer(rest));
    assert Counted(rest) == (o - parent.spill) + parent.dirty.Keys;
    assert m.dirty.Keys == (parent.dirty.Keys - child.spill) + child.dirty.Keys;
    MergedSets(o, parent.spill, parent.dirty.Keys, child.spill, child.dirty.Keys);
  }

  /** A page on a merged list was on the child's, or on the parent's and on none of the child's. */
  lemma MergedAt(parent: Txn, child: Txn, p: int)
    requires p in child.spill ==> p !in child.dirty
    ensures var m := Merged(parent, child);
      && (p in child.spill ==> p in m.spill)
      && (p in child.dirty ==> p !in m.spill && p in m.dirty && m.dirty[p] == child.dirty[p])
      && (p !in child.spill && p !in child.dirty ==>
            && (p in m.spill <==> p in parent.spill) && (p in m.dirty <==> p in parent.dirty)
            && (p in m.dirty ==> m.dirty[p] == parent.dirty[p]))
  {
  }

  lemma {:induction false} ReadAt(disk: map<int, Page>, txns: seq<Txn>, t: Txn, outer: seq<Txn>, p: int)
    requires txns != [] && t == Top(txns) && outer == Outer(txns)
    ensures Read(disk, txns, p) == if p in t.spill then DiskAt(disk, p)
      else if p in t.dirty then t.dirty[p] else Read(disk, outer, p)
  {
  }

  /** After a child commits, the parent reads what the child saw, page by page. */
  lemma {:induction false} CommitKeepsReads(s: State, p: int)
    requires 2 <= |s.txns| && Ok(s.txns)
    ensures Read(Commit(s).disk, Commit(s).txns, p) == Read(s.disk, s.txns, p)
  {
    var rest := Outer(s.txns);
    var parent, child, outer := Top(rest), Top(s.txns), Outer(rest);
    CommitTop(s);
    MergedAt(parent, child, p);
    ReadAt(s.disk, s.txns, child, rest, p);
    ReadAt(s.disk, rest, parent, outer, p);
    ReadAt(s.disk, Commit(s).txns, Merged(parent, child), outer, p);
  }

  lemma CommitSpace(s: State)
    requires 2 <= |s.txns| && Ok(s.txns)
    ensures SpaceOk(Commit(s).txns)
    ensures Gone(Commit(s).txns) == Gone(s.txns)
  {
    CommitTop(s);
    var rest := Outer(s.txns);
    var parent, child := Top(rest).space, Top(s.txns).space;
    var o := Gone(Outer(rest));
    assert Gone(rest) == o + parent.freed + parent.loose;
    assert Gone(s.txns) == Gone(rest) + child.freed + child.loose;
    assert o + (parent.freed + child.freed) + (parent.loose + child.loose) == Gone(s.txns);
  }

  /** A page of the parent's tree that the child no longer has in its own, the child has given up. */
  lemma TreeKept(parent: Space, child: Space, gone: set<int>, p: int)
    requires p in parent.tree && Parted(parent, gone) && Parted(child, gone + child.freed + child.loose)
    requires Inherits(parent, child)
    ensures p in child.tree || p in child.freed || p in child.loose
  {
    assert !Avail(parent, p);
  }

  lemma MergedSpills(s: State)
    requires 2 <= |s.txns| && Ok(s.txns)
    ensures SpillOk(Merged(Top(Outer(s.txns)), Top(s.txns)), Outer(Outer(s.txns)))
  {
    var rest := Outer(s.txns);
    var m := Merged(Top(rest), Top(s.txns));
    forall p | p in m.spill ensures p !in m.dirty && !Spilled(Outer(rest), p) {
      HeldTop(rest, p);
    }
  }

  lemma MergedHolds(s: State, p: int)
    requires 2 <= |s.txns| && Ok(s.txns)
    ensures var rest, m := Outer(s.txns), Merged(Top(Outer(s.txns)), Top(s.txns));
      && (p in m.spill || p in m.dirty ==> p in m.space.tree || p in m.space.freed || p in m.space.loose)
      && (p in m.space.loose ==> p in m.dirty)
  {
    var rest := Outer(s.txns);
    if p in Top(rest).space.tree {
      TreeKept(Top(rest).space, Top(s.txns).space, Gone(rest), p);
    }
  }

  lemma MergedHeld(s: State, p: int)
    requires 2 < |s.txns| && Ok(s.txns)
    ensures var rest, m := Outer(s.txns), Merged(Top(Outer(s.txns)), Top(s.txns));
      p in m.spill || p in m.dirty ==> Avail(Top(Outer(rest)).space, p) || Held(Outer(rest), p)
  {
    HeldTop(Outer(s.txns), p);
  }

  lemma MergedHeldOk(s: State)
    requires 2 <= |s.txns| && Ok(s.txns)
    ensures HeldOk(Merged(Top(Outer(s.txns)), Top(s.txns)), Outer(Outer(s.txns)))
  {
    forall p { MergedHolds(s, p); }
    if |s.txns| > 2 {
      forall p { MergedHeld(s, p); }
    }
  }

  lemma MergedHeir(s: State)
    requires 2 <= |s.txns| && Ok(s.txns)
    ensures HeirOk(Merged(Top(Outer(s.txns)), Top(s.txns)), Outer(Outer(s.txns)))
  {
    var rest := Outer(s.txns);
    if Outer(rest) != [] {
      HeirStays(Top(Outer(rest)).space, Top(rest).space, Top(s.txns).space);
    }
  }

  lemma CommitOk(s: State)
    requires 2 <= |s.txns| && Ok(s.txns)
    ensures Ok(Commit(s).txns)
  {
    var rest, txns := Outer(s.txns), Commit(s).txns;
    CommitTop(s);
    CommitCounted(s);
    CommitSpace(s);
    MergedSpills(s);
    MergedHeldOk(s);
    MergedHeir(s);
    assert RoomOk(txns);
    OkParts(txns, Merged(Top(rest), Top(s.txns)), Outer(rest));
  }

  /** With one ancestor the merged dirty list has the length that
      mt_dirty_room says, so it need not be counted. */
  lemma SingleAncestorLength(s: State)
    requires |s.txns| == 2 && Ok(s.txns)
    ensures |Top(Commit(s).txns).dirty.Keys| == UM_MAX - Top(s.txns).room
  {
    var txns := Commit(s).txns;
    CommitCounted(s);
    assert Outer(txns) == [] && Counted(txns) == Top(txns).dirty.Keys;
  }

  // ---------------------------------------------------------------- runs

  datatype Step = OnPage(op: Op) | BeginChild | CommitChild | AbortChild

  /** What may happen while the first n transactions wait for a child. */
  predicate StepEnabled(s: State, step: Step, n: nat) {
    && n < |s.txns|
    && match step
       case OnPage(op) => Enabled(s, op)
       case BeginChild => true
       case CommitChild => n + 1 < |s.txns|
       case AbortChild => n + 1 < |s.txns|
  }

  function Next(s: State, step: Step, n: nat): State
    requires StepEnabled(s, step, n)
  {
    match step
    case OnPage(op) => Apply(s, op)
    case BeginChild => Begin(s)
    case CommitChild => Commit(s)
    case AbortChild => Abort(s)
  }

  predicate Leads(s: State, steps: seq<Step>, n: nat, u: State)
    decreases |steps|
  {
    if steps == [] then u == s
    else StepEnabled(s, steps[0], n) && Leads(Next(s, steps[0], n), steps[1..], n, u)
  }

  /** The file differs at most in pages the base had not in use, and in pages
      it reads from memory. */
  ghost predicate FileKept(base: seq<Txn>, was: map<int, Page>, disk: map<int, Page>)
    requires base != []
  {
    forall p :: !Avail(Top(base).space, p) && !InMemory(base, p) ==> DiskAt(disk, p) == DiskAt(was, p)
  }

  lemma {:induction false} InMemoryIf(txns: seq<Txn>, p: int)
    requires Held(txns, p) && !Spilled(txns, p)
    ensures InMemory(txns, p)
  {
    HeldTop(txns, p);
    if p !in Top(txns).dirty {
      InMemoryIf(Outer(txns), p);
    }
  }

  lemma SpilledBelow(txns: seq<Txn>, n: nat, p: int)
    requires n <= |txns|
    ensures Spilled(txns[..n], p) ==> Spilled(txns, p)
    ensures Held(txns[..n], p) ==> Held(txns, p)
  {
    assert forall i :: 0 <= i < n ==> txns[..n][i] == txns[i];
  }

  lemma SameBase(s: State, step: Step, n: nat)
    requires StepEnabled(s, step, n)
    ensures |Next(s, step, n).txns| > n && Next(s, step, n).txns[..n] == s.txns[..n]
  {
  }

  lemma BeginSpace(s: State)
    requires s.txns != [] && Ok(s.txns)
    ensures SpaceOk(Begin(s).txns) && Inherits(Top(s.txns).space, Top(Begin(s).txns).space)
  {
    var c := Begin(s).txns;
    assert Outer(c) == s.txns;
    assert Gone(c) == Gone(s.txns);
  }

  lemma BeginOk(s: State)
    requires s.txns != [] && Ok(s.txns)
    ensures Ok(Begin(s).txns)
  {
    var c := Begin(s).txns;
    assert Outer(c) == s.txns;
    assert Counted(c) == Counted(s.txns);
    BeginSpace(s);
    OkParts(c, Top(c), s.txns);
  }

  lemma StepOk(s: State, step: Step, n: nat)
    requires StepEnabled(s, step, n) && Ok(s.txns)
    ensures Ok(Next(s, step, n).txns)
  {
    match step
    case OnPage(op) => ApplyOk(s, op);
    case BeginChild => BeginOk(s);
    case CommitChild => CommitOk(s);
    case AbortChild =>
  }

  /** The invariant holds in every state of every run. */
  lemma {:induction false} RunOk(s: State, steps: seq<Step>, n: nat, u: State)
    requires Leads(s, steps, n, u) && Ok(s.txns)
    ensures Ok(u.txns)
    decreases |steps|
  {
    if steps != [] {
      StepOk(s, steps[0], n);
      RunOk(Next(s, steps[0], n), steps[1..], n, u);
    }
  }

  /** It holds at the start of a write transaction, whatever pages there are. */
  lemma StartOk(space: Space)
    requires space.freed == {} && space.loose == {} && NUM_METAS <= space.next && Parted(space, {})
    ensures Ok([Txn(map[], {}, UM_MAX, space)])
  {
    var txns := [Txn(map[], {}, UM_MAX, space)];
    assert Outer(txns) == [] && Gone(txns) == {} && Counted(txns) == {};
  }

  lemma PrefixOuter(txns: seq<Txn>, n: nat)
    requires n < |txns|
    ensures Outer(txns)[..n] == txns[..n]
  {
  }

  /** What the transactions above the first n can allocate or hold, the first
      n could allocate or hold. */
  lemma {:induction false} AboveBase(txns: seq<Txn>, n: nat, p: int)
    requires Ok(txns) && 1 <= n <= |txns|
    ensures Avail(Top(txns).space, p) ==> Avail(txns[n - 1].space, p)
    ensures Held(txns, p) ==> Avail(txns[n - 1].space, p) || Held(txns[..n], p)
  {
    if n == |txns| {
      assert txns[..n] == txns;
    } else {
      PrefixOuter(txns, n);
      HeldTop(txns, p);
      AboveBase(Outer(txns), n, p);
    }
  }

  lemma StepFile(s: State, step: Step, n: nat, was: map<int, Page>)
    requires StepEnabled(s, step, n) && Ok(s.txns) && n >= 1
    requires FileKept(s.txns[..n], was, s.disk)
    ensures FileKept(s.txns[..n], was, Next(s, step, n).disk)
  {
    if step.OnPage? && step.op.Spill? {
      var p, base := step.op.p, s.txns[..n];
      HeldTop(s.txns, p);
      AboveBase(s.txns, n, p);
      if !Avail(Top(base).space, p) {
        assert Held(base, p);
        PrefixOuter(s.txns, n);
        SpilledBelow(Outer(s.txns), n, p);
        InMemoryIf(base, p);
      }
    }
  }

  lemma {:induction false} RunKeeps(s: State, steps: seq<Step>, n: nat, u: State, was: map<int, Page>)
    requires Leads(s, steps, n, u) && 1 <= n < |s.txns| && Ok(s.txns)
    requires FileKept(s.txns[..n], was, s.disk)
    ensures n < |u.txns| && u.txns[..n] == s.txns[..n] && Ok(u.txns)
    ensures FileKept(s.txns[..n], was, u.disk)
    decreases |steps|
  {
    if steps != [] {
      var step := steps[0];
      SameBase(s, step, n);
      StepOk(s, step, n);
      StepFile(s, step, n, was);
      RunKeeps(Next(s, step, n), steps[1..], n, u, was);
    }
  }

  lemma {:induction false} ReadKept(base: seq<Txn>, was: map<int, Page>, disk: map<int, Page>, p: int)
    requires !InMemory(base, p) ==> DiskAt(disk, p) == DiskAt(was, p)
    ensures Read(disk, base, p) == Read(was, base, p)
  {
    if base != [] && p !in Top(base).spill && p !in Top(base).dirty {
      ReadKept(Outer(base), was, disk, p);
    }
  }

  /** Whatever a child does, including children of its own and spilled pages
      written to the file, aborting it gives the parent back: its lists, its
      roots and its allocator are the same, and every page that the parent had
      in use, each page of its tree in particular, reads as before. */
  lemma {:induction false} AbortRestores(s: State, steps: seq<Step>, u: State)
    requires s.txns != [] && Ok(s.txns)
    requires Leads(Begin(s), steps, |s.txns|, u) && |u.txns| == |s.txns| + 1
    ensures Abort(u).txns == s.txns && Ok(s.txns)
    ensures forall p :: !Avail(Top(s.txns).space, p) ==> Read(Abort(u).disk, s.txns, p) == Read(s.disk, s.txns, p)
    ensures forall p :: p in Top(s.txns).space.tree ==> Read(Abort(u).disk, s.txns, p) == Read(s.disk, s.txns, p)
  {
    var c, n := Begin(s), |s.txns|;
    assert c.txns[..n] == s.txns;
    BeginOk(s);
    RunKeeps(c, steps, n, u, s.disk);
    forall p | !Avail(Top(s.txns).space, p) ensures Read(u.disk, s.txns, p) == Read(s.disk, s.txns, p) {
      ReadKept(s.txns, s.disk, u.disk, p);
    }
    assert forall p :: p in Top(s.txns).space.tree ==> !Avail(Top(s.txns).space, p);
  }

  /** A page that a child can be handed is held by none of its ancestors, and
      is in the tree of none and on no list of pages they have given up. */
  lemma HandedApart(s: State, p: int, page: Page, i: nat)
    requires Ok(s.txns) && Enabled(s, Alloc(p, page)) && i < |s.txns|
    ensures !Held(s.txns, p) && p !in Gone(s.txns) && p !in s.txns[i].space.tree
  {
    AvailIsFree(s.txns, p);
    AvailInNoTree(s.txns, p, i);
  }

  /** Page conservation in the chain: a page of the file is in the active tree,
      on its allocator's lists, or freed or loose in one transaction of the chain. */
  lemma {:induction false} ChainConserves(s: State, steps: seq<Step>, n: nat, u: State, p: int)
    requires Leads(s, steps, n, u) && Ok(s.txns) && u.txns != []
    ensures var sp := Top(u.txns).space;
      && (NUM_METAS <= p < sp.next <==> p in sp.tree + sp.head + sp.unread + Gone(u.txns))
      && (p in sp.tree ==> p !in sp.head + sp.unread + Gone(u.txns))
      && (p in sp.head ==> p !in sp.unread + Gone(u.txns)) && (p in sp.unread ==> p !in Gone(u.txns))
  {
    RunOk(s, steps, n, u);
  }

  // ---------------------------------------------------------------- what a transaction reads

  /** The content that an operation gives to a page. */
  function GivenBy(op: Op, p: int): Option<Page> {
    match op
    case Alloc(q, c) => if q == p then Some(c) else None
    case Reuse(q, c) => if q == p then Some(c) else None
    case Write(q, c) => if q == p then Some(c) else None
    case _ => None
  }

  lemma {:induction false} DiskElsewhere(disk: map<int, Page>, txns: seq<Txn>, q: int, c: Page, p: int)
    requires p != q
    ensures Read(disk[q := c], txns, p) == Read(disk, txns, p)
  {
    ReadKept(txns, disk, disk[q := c], p);
  }

  /** What an operation writes is not on the transaction's own spill list. */
  lemma {:induction false} WritesDirty(s: State, op: Op)
    requires Enabled(s, op) && Ok(s.txns) && (op.Alloc? || op.Reuse? || op.Write?)
    ensures op.p !in Top(s.txns).spill
  {
    if op.Alloc? { AvailNotHeld(s.txns, op.p); }
  }

  /** An operation gives a page its content, and changes what the transaction
      reads of no other page: spilling a page, taking it back, copying it from
      an ancestor, freeing and loosening leave every content as it was. */
  lemma {:induction false} ApplyReads(s: State, op: Op, p: int)
    requires Enabled(s, op) && Ok(s.txns)
    ensures var u := Apply(s, op);
      Read(u.disk, u.txns, p) ==
        match GivenBy(op, p)
        case Some(c) => c
        case None => Read(s.disk, s.txns, p)
  {
    var u, t, outer := Apply(s, op), Top(s.txns), Outer(s.txns);
    ApplyOuter(s, op);
    ReadAt(s.disk, s.txns, t, outer, p);
    ReadAt(u.disk, u.txns, MoveTxn(t, op, Seen(s, op)), outer, p);
    if op.Alloc? || op.Reuse? || op.Write? { WritesDirty(s, op); }
    if op.Spill? && p != op.p { DiskElsewhere(s.disk, outer, op.p, t.dirty[op.p], p); }
  }

  lemma {:induction false} BeginReads(s: State, p: int)
    requires s.txns != []
    ensures Read(Begin(s).disk, Begin(s).txns, p) == Read(s.disk, s.txns, p)
  {
    ReadAt(Begin(s).disk, Begin(s).txns, Top(Begin(s).txns), s.txns, p);
  }

  /** The last content that the steps give to a page. */
  function Given(steps: seq<Step>, p: int): Option<Page> {
    if steps == [] then None
    else if Given(steps[1..], p).Some? then Given(steps[1..], p)
    else GivenIn(steps[0], p)
  }

  function GivenIn(step: Step, p: int): Option<Page> { if step.OnPage? then GivenBy(step.op, p) else None }

  lemma {:induction false} StepReads(s: State, step: Step, n: nat, p: int)
    requires StepEnabled(s, step, n) && Ok(s.txns) && step != AbortChild
    ensures var u := Next(s, step, n);
      Read(u.disk, u.txns, p) == if GivenIn(step, p).Some? then GivenIn(step, p).value else Read(s.disk, s.txns, p)
  {
    match step
    case OnPage(op) => ApplyReads(s, op, p);
    case BeginChild => BeginReads(s, p);
    case CommitChild => CommitKeepsReads(s, p);
  }

  /** Over a whole run in which no child is aborted, whatever is spilled, taken
      back, copied, begun and committed, a page reads as what was put into it
      last, or as before if nothing was. */
  lemma {:induction false} RunReads(s: State, steps: seq<Step>, n: nat, u: State, p: int)
    requires Leads(s, steps, n, u) && Ok(s.txns) && AbortChild !in steps
    ensures Read(u.disk, u.txns, p) ==
      match Given(steps, p)
      case Some(c) => c
      case None => Read(s.disk, s.txns, p)
    decreases |steps|
  {
    if steps != [] {
      StepOk(s, steps[0], n);
      RunReads(Next(s, steps[0], n), steps[1..], n, u, p);
      StepReads(s, steps[0], n, p);
    }
  }
}
