/**
 The invariant of the page-lifecycle protocol, kept by every step.
 */
module ProtocolInv {
  import opened PageFormat
  import opened Protocol
  import opened Wrappers

  // ---------------------------------------------------------------- invariant

  ghost predicate InRecs(recs: map<TxnId, set<Pgno>>, p: Pgno) {
    exists r :: r in recs && p in recs[r]
  }

  ghost predicate RecsDisjoint(recs: map<TxnId, set<Pgno>>) {
    forall r, r', p :: r in recs && r' in recs && p in recs[r] && p in recs[r'] ==> r == r'
  }

  /** How many of the lists a page is on. */
  ghost function Owners(p: Pgno, tree: set<Pgno>, freed: set<Pgno>, loose: set<Pgno>,
                        pghead: set<Pgno>, recs: map<TxnId, set<Pgno>>): nat {
    (if p in tree then 1 else 0) + (if p in freed then 1 else 0) + (if p in loose then 1 else 0) +
    (if p in pghead then 1 else 0) + (if InRecs(recs, p) then 1 else 0)
  }

  /** Every non-meta page below next has exactly one owner, and no other page has any. */
  ghost predicate Partition(next: Pgno, tree: set<Pgno>, freed: set<Pgno>, loose: set<Pgno>,
                            pghead: set<Pgno>, recs: map<TxnId, set<Pgno>>) {
    && NUM_METAS <= next
    && RecsDisjoint(recs)
    && (forall p: Pgno :: Owners(p, tree, freed, loose, pghead, recs) == if NUM_METAS <= p < next then 1 else 0)
  }

  /** Each page of a committed snapshot is used by a tree or listed in one
      free-page record, exactly once. */
  ghost predicate SnapWF(snap: Snap) {
    Partition(snap.next, snap.pages.Keys, {}, {}, {}, snap.recs)
  }

  ghost predicate HistInv(hist: seq<Snap>) {
    && 0 < |hist|
    && (forall k :: 0 <= k < |hist| ==> SnapWF(hist[k]))
    && (forall j, k :: 0 <= j <= k < |hist| ==> hist[j].next <= hist[k].next)
    && (forall k, r :: 0 <= k < |hist| && r in hist[k].recs ==> 1 <= r <= k)
  }

  /** The two meta pages hold the last two snapshots, each in slot id mod 2.
      Only a database nobody has committed to has id 0 in both. */
  ghost predicate MetaInv(hist: seq<Snap>, metas: seq<Meta>) {
    && |metas| == NUM_METAS
    && 0 < |hist|
    && (var n := |hist| - 1;
        && metas[n % 2] == Meta(n, hist[n])
        && metas[(n + 1) % 2] == (if n == 0 then Meta(0, hist[0]) else Meta(n - 1, hist[n - 1])))
  }

  ghost predicate Protects(slot: Slot, k: TxnId) {
    slot.reader == Validated(k) || (slot.reader.Active? && slot.reader.k == k)
  }

  /** Snapshots somebody may still read: the two a meta page names, and those of readers. */
  ghost predicate Live(hist: seq<Snap>, slots: seq<Slot>, k: TxnId) {
    && k < |hist|
    && (k == |hist| - 1 || k == |hist| - 2 || exists i :: 0 <= i < |slots| && Protects(slots[i], k))
  }

  ghost predicate ReaderInv(slot: Slot, n: nat, mti: TxnId) {
    match slot.reader
    case Ready => slot.pid
    case Loaded(t) => slot.pid
    case Stored(t) => slot.pid && slot.txnid == Some(t)
    case Validated(t) => slot.pid && slot.txnid == Some(t) && t <= mti && t < n
    case Active(t, k) => slot.pid && slot.txnid == Some(t) && t <= k < n
    case _ => true
  }

  ghost predicate ReadersInv(slots: seq<Slot>, n: nat, mti: TxnId) {
    forall i :: 0 <= i < |slots| ==> ReaderInv(slots[i], n, mti)
  }

  /** A lower bound on what a slot's reader may look at. */
  ghost predicate NotOlder(slot: Slot, bound: TxnId) {
    (slot.reader.Validated? || slot.reader.Active?) ==> bound <= slot.reader.t
  }

  /** Every cached "oldest reader" is a bound on all readers there are. */
  ghost predicate OldestInv(slots: seq<Slot>, mti: TxnId, oldest: map<ProcId, TxnId>) {
    && (forall q :: q in oldest ==> oldest[q] <= mti)
    && (forall q, i :: q in oldest && 0 <= i < |slots| ==> NotOlder(slots[i], oldest[q]))
  }

  /** The file agrees with every live snapshot on that snapshot's pages. */
  ghost predicate MemInv(hist: seq<Snap>, slots: seq<Slot>, mem: map<Pgno, Content>) {
    forall k: TxnId, p :: Live(hist, slots, k) && p in hist[k].pages ==> p in mem && mem[p] == hist[k].pages[p]
  }

  /** ... and the last two snapshots are safe on disk. */
  ghost predicate DiskInv(hist: seq<Snap>, mem: map<Pgno, Content>, disk: map<Pgno, Content>, unsynced: set<Pgno>) {
    && (forall p :: p in mem && p !in unsynced ==> p in disk && disk[p] == mem[p])
    && (forall k: TxnId, p :: |hist| - 2 <= k < |hist| && p in hist[k].pages ==> p !in unsynced)
  }

  /** Pages of a free-page record are not used by live snapshots from the
      record's id on. */
  ghost predicate RecsSafe(hist: seq<Snap>, slots: seq<Slot>, recs: map<TxnId, set<Pgno>>) {
    forall r, p, k: TxnId :: r in recs && p in recs[r] && Live(hist, slots, k) && r <= k ==> p !in hist[k].pages
  }

  /** Pages no live snapshot uses. */
  ghost predicate Unused(hist: seq<Snap>, slots: seq<Slot>, ps: set<Pgno>) {
    forall p, k: TxnId :: p in ps && Live(hist, slots, k) ==> p !in hist[k].pages
  }

  function Owned(w: Writer): set<Pgno> { w.dirty.Keys + w.spilled }

  function Kept(w: Writer): map<TxnId, set<Pgno>> {
    if w.phase == Building then Above(w.recs, w.pglast) else w.recs
  }

  ghost predicate ScanInv(slots: seq<Slot>, mti: TxnId, w: Writer) {
    w.scan != NoScan ==>
      && w.phase == Building
      && w.scan.i <= |slots|
      && (w.scan.AtTxn? ==> 0 < w.scan.i)
      && w.scan.acc <= mti
      && (forall i :: w.scan.i <= i < |slots| ==> NotOlder(slots[i], w.scan.acc))
  }

  ghost predicate Conserved(w: Writer) {
    Partition(w.next, w.tree, w.freed, w.loose, w.pghead, Kept(w))
  }

  /** A writer's own pages and its reclaimed pages are in no live snapshot. */
  ghost predicate Fresh(hist: seq<Snap>, slots: seq<Slot>, w: Writer) {
    && RecsSafe(hist, slots, Kept(w))
    && Unused(hist, slots, Owned(w))
    && Unused(hist, slots, w.pghead)
  }

  ghost predicate Shape(last: Snap, mem: map<Pgno, Content>, unsynced: set<Pgno>, w: Writer) {
    && last.next <= w.next
    && (forall r :: r in w.recs ==> 1 <= r <= (if w.phase == Building then w.id - 1 else w.id))
    && (forall p :: p in w.tree && p !in Owned(w) ==> p in last.pages)
    && w.dirty.Keys !! w.spilled
    && (w.phase == Building ==> Owned(w) <= w.tree + w.freed + w.loose)
    && w.spilled <= mem.Keys
    && w.loose <= w.dirty.Keys
    && (!w.headInit ==> w.pghead == {} && w.pglast == 0)
    && w.pglast < w.id
    && (w.phase == Synced ==> w.dirty == map[] && unsynced == {})
    && (w.phase != Building ==> w.pghead == {} && w.loose == {} && w.freed == {})
  }

  ghost predicate WriterInv(s: State, w: Writer)
    requires 0 < |s.hist|
  {
    if w.phase == MetaWritten then
      w.id == |s.hist| - 1 && s.mti + 1 == w.id && w.scan == NoScan
    else
      && w.id == |s.hist| && s.mti + 1 == w.id
      && Conserved(w)
      && Fresh(s.hist, s.slots, w)
      && Shape(s.hist[|s.hist| - 1], s.mem, s.unsynced, w)
      && ScanInv(s.slots, s.mti, w)
  }

  ghost predicate Inv(s: State) {
    && HistInv(s.hist)
    && MetaInv(s.hist, s.metas)
    && ReadersInv(s.slots, |s.hist|, s.mti)
    && OldestInv(s.slots, s.mti, s.oldest)
    && MemInv(s.hist, s.slots, s.mem)
    && DiskInv(s.hist, s.mem, s.disk, s.unsynced)
    && RecsSafe(s.hist, s.slots, s.hist[|s.hist| - 1].recs)
    && (if s.writer.Some? then WriterInv(s, s.writer.value) else s.mti == |s.hist| - 1)
  }

  lemma InitInv()
    ensures Inv(Init())
  {
    assert SnapWF(Init().hist[0]);
  }

  // ---------------------------------------------------------------- readers

  /** A reader only ever adds a snapshot that a meta page still names. */
  lemma ReaderKeepsLive(s: State, i: nat, op: ReaderOp, k: TxnId)
    requires Inv(s) && ReadEnabled(s.slots, i, op)
    requires Live(s.hist, SetSlot(s.slots, i, NewSlot(s, i, op)), k)
    ensures Live(s.hist, s.slots, k)
  {
    var slots := SetSlot(s.slots, i, NewSlot(s, i, op));
    if k != |s.hist| - 1 && k != |s.hist| - 2 {
      var j :| 0 <= j < |slots| && Protects(slots[j], k);
      if j >= |s.slots| || slots[j] != s.slots[j] {
        assert false;
      }
    }
  }

  /** Fewer live snapshots keep everything that is said about live snapshots. */
  lemma FewerLive(s: State, slots: seq<Slot>)
    requires Inv(s)
    requires forall k: TxnId :: Live(s.hist, slots, k) ==> Live(s.hist, s.slots, k)
    ensures MemInv(s.hist, slots, s.mem)
    ensures RecsSafe(s.hist, slots, s.hist[|s.hist| - 1].recs)
    ensures s.writer.Some? && s.writer.value.phase != MetaWritten ==> Fresh(s.hist, slots, s.writer.value)
  {
  }

  /** What one changed slot has to satisfy. */
  lemma SlotChange(s: State, i: nat, slot: Slot)
    requires Inv(s) && i <= |s.slots|
    requires ReaderInv(slot, |s.hist|, s.mti)
    requires slot.reader.Validated? || slot.reader.Active? ==>
      slot.reader.t == s.mti || (i < |s.slots| && s.slots[i].reader == Validated(slot.reader.t))
    ensures var slots := SetSlot(s.slots, i, slot);
      && ReadersInv(slots, |s.hist|, s.mti) && OldestInv(slots, s.mti, s.oldest)
      && (s.writer.Some? ==> ScanInv(slots, s.mti, s.writer.value))
  {
    var slots := SetSlot(s.slots, i, slot);
    forall j | 0 <= j < |slots| ensures slots[j] == slot || (j < |s.slots| && slots[j] == s.slots[j]) {}
    forall q | q in s.oldest ensures NotOlder(slot, s.oldest[q]) {
      if i < |s.slots| { assert NotOlder(s.slots[i], s.oldest[q]); }
    }
    if s.writer.Some? && s.writer.value.scan != NoScan {
      var w := s.writer.value;
      forall j | w.scan.i <= j < |slots| ensures NotOlder(slots[j], w.scan.acc) {
        if j < |s.slots| { assert NotOlder(s.slots[j], w.scan.acc); }
      }
    }
  }

  /** The meta page a validated reader copies is never older than its id, and
      is the one of that id as long as at most one commit has come between. */
  lemma CopyMetaBound(s: State, i: nat)
    requires Inv(s) && ReadEnabled(s.slots, i, CopyMeta)
    ensures var t := s.slots[i].reader.t;
      && t <= s.metas[t % 2].txnid <= Last(s)
      && (s.metas[t % 2].txnid == t <==> Last(s) <= t + 1)
  {
    assert ReaderInv(s.slots[i], |s.hist|, s.mti);
  }

  lemma ReadInv(s: State, i: nat, op: ReaderOp)
    requires Inv(s) && ReadEnabled(s.slots, i, op)
    ensures Inv(Apply(s, Read(i, op)))
  {
    var slot := NewSlot(s, i, op);
    var slots := SetSlot(s.slots, i, slot);
    forall k: TxnId | Live(s.hist, slots, k) ensures Live(s.hist, s.slots, k) { ReaderKeepsLive(s, i, op, k); }
    FewerLive(s, slots);
    if op.CopyMeta? { CopyMetaBound(s, i); }
    assert i < |s.slots| ==> ReaderInv(s.slots[i], |s.hist|, s.mti);
    SlotChange(s, i, slot);
  }

  // ---------------------------------------------------------------- begin, scan, end

  /** A step that changes only the writer's own fields. */
  lemma WriterFrame(s: State, w: Writer)
    requires Inv(s) && WriterInv(s, w)
    ensures Inv(s.(writer := Some(w)))
  {
  }

  lemma BeginWriteInv(s: State, proc: ProcId)
    requires Inv(s) && s.writer.None?
    ensures Inv(Apply(s, BeginWrite(proc)))
  {
    var w := BeginWriter(s, proc);
    assert Above(w.recs, 0) == w.recs;
    assert SnapWF(s.hist[Last(s)]);
    WriterFrame(s, w);
  }

  /** mdb_env_pick_meta finds the last committed snapshot. */
  lemma PickMetaIsLast(s: State)
    requires MetaInv(s.hist, s.metas)
    ensures s.metas[PickMeta(s.metas)] == Meta(Last(s), s.hist[Last(s)])
  {
  }

  lemma WriterGoneInv(s: State)
    requires Inv(s)
    ensures Inv(s.(writer := None, mti := |s.hist| - 1))
  {
    forall i | 0 <= i < |s.slots| ensures ReaderInv(s.slots[i], |s.hist|, |s.hist| - 1) {
      assert ReaderInv(s.slots[i], |s.hist|, s.mti);
    }
  }

  lemma StartScanInv(s: State)
    requires Inv(s) && Enabled(s, StartScan)
    ensures Inv(Apply(s, StartScan))
  {
    var w := s.writer.value;
    var w' := w.(scan := AtPid(|s.slots|, w.id - 1));
    assert Kept(w') == Kept(w) && Owned(w') == Owned(w);
    WriterFrame(s, w');
  }

  lemma ScanSlotInv(s: State)
    requires Inv(s) && Enabled(s, ScanSlot)
    ensures Inv(Apply(s, ScanSlot))
  {
    var w := s.writer.value;
    var w' := w.(scan := NewScan(s, w));
    assert Kept(w') == Kept(w) && Owned(w') == Owned(w);
    var i := w.scan.i;
    assert ReaderInv(s.slots[i - 1], |s.hist|, s.mti);
    forall j | w'.scan.i <= j < |s.slots| ensures NotOlder(s.slots[j], w'.scan.acc) {
      if j >= i { assert NotOlder(s.slots[j], w.scan.acc); }
    }
    WriterFrame(s, w');
  }

  /** When the scan ends its result bounds every reader there is, also those
      that started after their slot was read. */
  lemma EndScanInv(s: State)
    requires Inv(s) && Enabled(s, EndScan)
    ensures Inv(Apply(s, EndScan))
  {
    var w := s.writer.value;
    var w' := w.(scan := NoScan);
    var oldest := s.oldest[w.proc := w.scan.acc];
    assert Kept(w') == Kept(w) && Owned(w') == Owned(w);
    forall q, i | q in oldest && 0 <= i < |s.slots| ensures NotOlder(s.slots[i], oldest[q]) {
      if q == w.proc { assert NotOlder(s.slots[i], w.scan.acc); } else { assert q in s.oldest; }
    }
    WriterFrame(s, w');
  }

  // ---------------------------------------------------------------- pages

  /** A record older than the cached oldest reader lists only unused pages. */
  lemma OldRecordUnused(s: State, r: TxnId)
    requires Inv(s) && Enabled(s, FetchRecord(r))
    ensures Unused(s.hist, s.slots, s.writer.value.recs[r])
  {
    var w := s.writer.value;
    var bound := s.oldest[w.proc];
    assert bound <= s.mti;
    forall p, k: TxnId | p in w.recs[r] && Live(s.hist, s.slots, k) ensures p !in s.hist[k].pages {
      assert r in Kept(w) && Kept(w)[r] == w.recs[r];
      if k != |s.hist| - 1 && k != |s.hist| - 2 {
        var i :| 0 <= i < |s.slots| && Protects(s.slots[i], k);
        assert ReaderInv(s.slots[i], |s.hist|, s.mti) && NotOlder(s.slots[i], bound);
      }
      assert r <= k;
    }
  }

  lemma FetchConserved(w: Writer, r: TxnId)
    requires Conserved(w) && w.phase == Building
    requires r in w.recs && w.pglast < r && forall q :: q in w.recs && w.pglast < q ==> r <= q
    ensures Conserved(Fetched(w, r))
  {
    var w' := Fetched(w, r);
    var kept, kept' := Kept(w), Kept(w');
    assert r in kept && kept[r] == w.recs[r];
    assert RecsDisjoint(kept');
    forall p: Pgno ensures Owners(p, w'.tree, w'.freed, w'.loose, w'.pghead, kept') ==
                           Owners(p, w.tree, w.freed, w.loose, w.pghead, kept)
    {
      if InRecs(kept, p) && p !in w.recs[r] {
        var q :| q in kept && p in kept[q];
        assert q in kept' && p in kept'[q];
      }
      if InRecs(kept', p) {
        var q :| q in kept' && p in kept'[q];
        assert q in kept && p in kept[q] && q != r;
      }
    }
  }

  lemma FetchRecordInv(s: State, r: TxnId)
    requires Inv(s) && Enabled(s, FetchRecord(r))
    ensures Inv(Apply(s, FetchRecord(r)))
  {
    var w := s.writer.value;
    var w' := Fetched(w, r);
    OldRecordUnused(s, r);
    FetchConserved(w, r);
    assert Owned(w') == Owned(w);
    forall q | q in Kept(w') ensures q in Kept(w) && Kept(w')[q] == Kept(w)[q] {}
    assert Fresh(s.hist, s.slots, w');
    WriterFrame(s, w');
  }

  /** The pages an allocation hands out. */
  function Allocated(op: PageOp): set<Pgno> {
    match op
    case AllocLoose(p, _) => {p}
    case AllocHead(_, _, c) => c.Keys
    case AllocNew(_, c) => c.Keys
    case _ => {}
  }

  lemma AllocatedUnused(s: State, op: PageOp)
    requires Inv(s) && Enabled(s, Page(op))
    ensures Unused(s.hist, s.slots, Allocated(op))
  {
    if op.AllocNew? {
      forall p, k: TxnId | p in op.c.Keys && Live(s.hist, s.slots, k) ensures p !in s.hist[k].pages {
        var snap := s.hist[k];
        assert SnapWF(snap) && snap.next <= s.hist[|s.hist| - 1].next <= p;
        assert Owners(p, snap.pages.Keys, {}, {}, {}, snap.recs) == 0;
      }
    }
  }

  lemma PageConserved(w: Writer, op: PageOp)
    requires Conserved(w) && PageEnabled(w, op)
    ensures Conserved(ApplyPage(w, op))
  {
    var w' := ApplyPage(w, op);
    var kept := Kept(w);
    forall p: Pgno ensures Owners(p, w'.tree, w'.freed, w'.loose, w'.pghead, kept) ==
                           if NUM_METAS <= p < w'.next then 1 else 0
    {
      assert Owners(p, w.tree, w.freed, w.loose, w.pghead, kept) == if NUM_METAS <= p < w.next then 1 else 0;
    }
  }

  lemma PageShape(w: Writer, op: PageOp, last: Snap, mem: map<Pgno, Content>, unsynced: set<Pgno>)
    requires Conserved(w) && Shape(last, mem, unsynced, w) && w.phase == Building && PageEnabled(w, op)
    ensures Shape(last, mem, unsynced, ApplyPage(w, op))
  {
    var w', kept := ApplyPage(w, op), Kept(w);
    forall p | p in Allocated(op) ensures p !in w.spilled {
      assert Owners(p, w.tree, w.freed, w.loose, w.pghead, kept) == if NUM_METAS <= p < w.next then 1 else 0;
    }
    forall p | p in w'.loose ensures p in w'.dirty {
      assert Owners(p, w.tree, w.freed, w.loose, w.pghead, kept) <= 1;
    }
  }

  lemma PageInv(s: State, op: PageOp)
    requires Inv(s) && Enabled(s, Page(op))
    ensures Inv(Apply(s, Page(op)))
  {
    var w := s.writer.value;
    var w' := ApplyPage(w, op);
    AllocatedUnused(s, op);
    PageConserved(w, op);
    PageShape(w, op, s.hist[|s.hist| - 1], s.mem, s.unsynced);
    assert Fresh(s.hist, s.slots, w') by {
      assert Kept(w') == Kept(w);
      forall p | p in Owned(w') || p in w'.pghead
        ensures p in Owned(w) || p in w.pghead || p in Allocated(op)
      {}
    }
    WriterFrame(s, w');
  }

  // ---------------------------------------------------------------- writing pages

  lemma PutShape(w: Writer, p: Pgno, last: Snap, mem: map<Pgno, Content>, c: Content, unsynced: set<Pgno>)
    requires Shape(last, mem, unsynced, w) && p in w.dirty && (w.phase == Building ==> p !in w.loose)
    requires w.phase == Building || w.phase == Saved
    ensures Shape(last, mem[p := c], unsynced + {p}, Put(w, p))
    ensures Owned(Put(w, p)) == Owned(w)
  {
  }

  /** Writing a page no live snapshot uses disturbs none of them. */
  lemma PutPageMem(s: State, p: Pgno, c: Content)
    requires Inv(s) && Unused(s.hist, s.slots, {p})
    ensures MemInv(s.hist, s.slots, s.mem[p := c])
    ensures DiskInv(s.hist, s.mem[p := c], s.disk, s.unsynced + {p})
  {
    forall k: TxnId | |s.hist| - 2 <= k < |s.hist| ensures Live(s.hist, s.slots, k) {}
  }

  lemma PutPageInv(s: State, step: Step)
    requires Inv(s) && (step.SpillPage? || step.FlushPage?) && Enabled(s, step)
    ensures Inv(Apply(s, step))
  {
    var w, p := s.writer.value, step.p;
    var c := w.dirty[p];
    assert Unused(s.hist, s.slots, {p}) by { assert p in Owned(w); }
    PutPageMem(s, p, c);
    PutShape(w, p, s.hist[|s.hist| - 1], s.mem, c, s.unsynced);
    PutWriter(s, p, c, Put(w, p));
  }

  /** The file and the writer after a page has been written. */
  lemma PutWriter(s: State, p: Pgno, c: Content, w: Writer)
    requires Inv(s) && s.writer.Some? && s.writer.value.phase != MetaWritten && w == Put(s.writer.value, p)
    requires MemInv(s.hist, s.slots, s.mem[p := c]) && DiskInv(s.hist, s.mem[p := c], s.disk, s.unsynced + {p})
    requires Shape(s.hist[|s.hist| - 1], s.mem[p := c], s.unsynced + {p}, w) && Owned(w) == Owned(s.writer.value)
    ensures Inv(s.(mem := s.mem[p := c], unsynced := s.unsynced + {p}, writer := Some(w)))
  {
    assert Kept(w) == Kept(s.writer.value);
  }

  lemma UnspillInv(s: State, p: Pgno)
    requires Inv(s) && Enabled(s, UnspillPage(p))
    ensures Inv(Apply(s, UnspillPage(p)))
  {
    var w := s.writer.value;
    var w' := w.(dirty := w.dirty[p := s.mem[p]], spilled := w.spilled - {p});
    assert Kept(w') == Kept(w) && Owned(w') == Owned(w);
    WriterFrame(s, w');
  }

  // ---------------------------------------------------------------- commit

  lemma SaveConserved(w: Writer, dist: map<TxnId, set<Pgno>>)
    requires Conserved(w) && w.phase == Building && IsDistribution(w, dist)
    requires forall r :: r in w.recs ==> r < w.id
    requires !w.headInit ==> w.pghead == {}
    requires w.pglast < w.id
    ensures Conserved(SavedWriter(w, dist))
  {
    var w' := SavedWriter(w, dist);
    var kept, recs := Kept(w), w'.recs;
    var freed := if w.headInit then w.freed else w.freed + w.loose;
    var pool := if w.headInit then w.pghead + w.loose else {};
    SavedKeys(w, dist, kept, recs, freed);
    SavedPages(w, dist, kept, recs, freed, pool);
    forall p: Pgno ensures Owners(p, w'.tree, {}, {}, {}, recs) == if NUM_METAS <= p < w.next then 1 else 0 {
      assert Owners(p, w.tree, w.freed, w.loose, w.pghead, kept) == if NUM_METAS <= p < w.next then 1 else 0;
    }
    SavedDisjoint(w, dist, kept, recs, freed, pool);
  }

  /** What SavedWriter makes of the records: those not consumed, those of the
      distribution at or below me_pglast, and its own. */
  ghost predicate SavedFrom(w: Writer, dist: map<TxnId, set<Pgno>>, kept: map<TxnId, set<Pgno>>,
                            recs: map<TxnId, set<Pgno>>, freed: set<Pgno>) {
    && (forall r :: r in kept ==> w.pglast < r < w.id && r in recs && recs[r] == kept[r])
    && (forall r :: r in dist ==> r <= w.pglast && r in recs && recs[r] == dist[r])
    && (freed != {} ==> w.id in recs && recs[w.id] == freed)
    && (forall r :: r in recs ==> r in kept || r in dist || (r == w.id && freed != {}))
  }

  lemma SavedKeys(w: Writer, dist: map<TxnId, set<Pgno>>, kept: map<TxnId, set<Pgno>>, recs: map<TxnId, set<Pgno>>,
                  freed: set<Pgno>)
    requires w.phase == Building && IsDistribution(w, dist) && w.pglast < w.id && forall r :: r in w.recs ==> r < w.id
    requires kept == Kept(w) && recs == SavedWriter(w, dist).recs && freed == if w.headInit then w.freed else w.freed + w.loose
    ensures SavedFrom(w, dist, kept, recs, freed)
  {
  }

  lemma SavedPages(w: Writer, dist: map<TxnId, set<Pgno>>, kept: map<TxnId, set<Pgno>>, recs: map<TxnId, set<Pgno>>,
                   freed: set<Pgno>, pool: set<Pgno>)
    requires SavedFrom(w, dist, kept, recs, freed) && IsDistribution(w, dist)
    requires pool == if w.headInit then w.pghead + w.loose else {}
    ensures forall p: Pgno :: InRecs(recs, p) <==> InRecs(kept, p) || p in pool || p in freed
  {
    forall p: Pgno ensures InRecs(recs, p) <==> InRecs(kept, p) || p in pool || p in freed {
      if p in pool {
        var r :| r in dist && p in dist[r];
        assert r in recs && p in recs[r];
      }
      if p in freed { assert w.id in recs && p in recs[w.id]; }
      if InRecs(kept, p) {
        var r :| r in kept && p in kept[r];
        assert r in recs && p in recs[r];
      }
    }
  }

  lemma SavedDisjoint(w: Writer, dist: map<TxnId, set<Pgno>>, kept: map<TxnId, set<Pgno>>, recs: map<TxnId, set<Pgno>>,
                      freed: set<Pgno>, pool: set<Pgno>)
    requires SavedFrom(w, dist, kept, recs, freed) && IsDistribution(w, dist) && RecsDisjoint(kept)
    requires pool == if w.headInit then w.pghead + w.loose else {}
    requires freed == if w.headInit then w.freed else w.freed + w.loose
    requires forall p: Pgno :: Owners(p, w.tree, w.freed, w.loose, w.pghead, kept) <= 1
    ensures RecsDisjoint(recs)
  {
    forall r, r', p | r in recs && r' in recs && p in recs[r] && p in recs[r'] ensures r == r' {
      assert Owners(p, w.tree, w.freed, w.loose, w.pghead, kept) <= 1;
      if r in kept { assert InRecs(kept, p); }
      if r' in kept { assert InRecs(kept, p); }
    }
  }

  lemma SaveFresh(s: State, dist: map<TxnId, set<Pgno>>)
    requires Inv(s) && Enabled(s, SaveFreelist(dist))
    ensures Fresh(s.hist, s.slots, SavedWriter(s.writer.value, dist))
  {
    var w := s.writer.value;
    var w' := SavedWriter(w, dist);
    forall r, p, k: TxnId | r in w'.recs && p in w'.recs[r] && Live(s.hist, s.slots, k) && r <= k
      ensures p !in s.hist[k].pages
    {
      if r in dist {
        assert p in w.pghead || p in Owned(w);
      } else if r < w.id {
        assert r in Kept(w) && Kept(w)[r] == w'.recs[r];
      }
    }
  }

  lemma SaveShape(w: Writer, dist: map<TxnId, set<Pgno>>, last: Snap, mem: map<Pgno, Content>, unsynced: set<Pgno>)
    requires Shape(last, mem, unsynced, w) && w.phase == Building && Conserved(w) && IsDistribution(w, dist)
    ensures Shape(last, mem, unsynced, SavedWriter(w, dist))
  {
    var w' := SavedWriter(w, dist);
    forall p | p in w'.tree && p !in Owned(w') ensures p in last.pages {
      assert Owners(p, w.tree, w.freed, w.loose, w.pghead, Kept(w)) <= 1;
      assert p !in w.loose;
    }
  }

  lemma SaveFreelistInv(s: State, dist: map<TxnId, set<Pgno>>)
    requires Inv(s) && Enabled(s, SaveFreelist(dist))
    ensures Inv(Apply(s, SaveFreelist(dist)))
  {
    var w := s.writer.value;
    SaveConserved(w, dist);
    SaveShape(w, dist, s.hist[|s.hist| - 1], s.mem, s.unsynced);
    SaveFresh(s, dist);
    WriterFrame(s, SavedWriter(w, dist));
  }

  lemma SyncInv(s: State)
    requires Inv(s) && Enabled(s, Sync)
    ensures Inv(Apply(s, Sync))
  {
    var w := s.writer.value;
    var w' := w.(phase := Synced);
    assert Kept(w') == Kept(w) && Owned(w') == Owned(w);
  }

  /** The new snapshot: every page has one owner, and the records it saves list
      no page that a live snapshot from their id on uses. */
  lemma NewSnapWF(s: State)
    requires Inv(s) && Enabled(s, WriteMeta)
    ensures var w := s.writer.value;
      var hist := s.hist + [NewSnap(w, s.mem)];
      HistInv(hist) && RecsSafe(hist, s.slots, w.recs)
  {
    var w := s.writer.value;
    var snap := NewSnap(w, s.mem);
    var hist := s.hist + [snap];
    assert snap.pages.Keys == w.tree;
    assert SnapWF(snap);
    forall r, p, k: TxnId | r in w.recs && p in w.recs[r] && Live(hist, s.slots, k) && r <= k
      ensures p !in hist[k].pages
    {
      if k == |s.hist| {
        assert InRecs(w.recs, p);
        assert Owners(p, w.tree, {}, {}, {}, w.recs) <= 1;
      } else {
        assert Live(s.hist, s.slots, k) && hist[k] == s.hist[k];
      }
    }
  }

  /** The new snapshot's pages are in the file; the others' still are. */
  lemma MetaMem(was: seq<Snap>, slots: seq<Slot>, mem: map<Pgno, Content>, w: Writer, snap: Snap, hist: seq<Snap>)
    requires MemInv(was, slots, mem) && w.tree <= mem.Keys && snap == NewSnap(w, mem) && hist == was + [snap] && was != []
    ensures MemInv(hist, slots, mem)
  {
    forall k: TxnId | Live(hist, slots, k) ensures k == |was| || (Live(was, slots, k) && hist[k] == was[k]) {}
  }

  lemma MetaReaders(s: State, hist: seq<Snap>, snap: Snap)
    requires Inv(s) && hist == s.hist + [snap]
    ensures ReadersInv(s.slots, |hist|, s.mti)
  {
    forall i | 0 <= i < |s.slots| ensures ReaderInv(s.slots[i], |hist|, s.mti) {
      assert ReaderInv(s.slots[i], |s.hist|, s.mti);
    }
  }

  /** The new meta page takes the slot of the older one. */
  lemma NewerMeta(hist: seq<Snap>, metas: seq<Meta>, snap: Snap)
    requires MetaInv(hist, metas)
    ensures MetaInv(hist + [snap], metas[|hist| % 2 := Meta(|hist|, snap)])
  {
    var n := |hist|;
    assert (n + 1) % 2 == (n - 1) % 2;
  }

  lemma WriteMetaInv(s: State)
    requires Inv(s) && Enabled(s, WriteMeta)
    ensures Inv(Apply(s, WriteMeta))
  {
    var w := s.writer.value;
    var snap := NewSnap(w, s.mem);
    var hist := s.hist + [snap];
    NewSnapWF(s);
    MetaMem(s.hist, s.slots, s.mem, w, snap, hist);
    MetaReaders(s, hist, snap);
    NewerMeta(s.hist, s.metas, snap);
  }

  /** Recovery reads the newer meta page; both meta pages' snapshots are intact. */
  lemma CrashInv(s: State, after: map<Pgno, Content>)
    requires Inv(s) && Enabled(s, Crash(after))
    ensures Inv(Apply(s, Crash(after)))
  {
    PickMetaIsLast(s);
    assert MemInv(s.hist, [], after) by {
      forall k: TxnId, p | Live(s.hist, [], k) && p in s.hist[k].pages
        ensures p in after && after[p] == s.hist[k].pages[p]
      {
        assert Live(s.hist, s.slots, k);
        assert p !in s.unsynced && p in s.mem;
      }
    }
    assert RecsSafe(s.hist, [], s.hist[|s.hist| - 1].recs) by {
      forall k: TxnId | Live(s.hist, [], k) ensures Live(s.hist, s.slots, k) {}
    }
  }

  /** Every step of every actor keeps the invariant. */
  lemma StepInv(s: State, step: Step)
    requires Inv(s) && Enabled(s, step)
    ensures Inv(Apply(s, step))
  {
    if step.Read? {
      ReadInv(s, step.i, step.rop);
    } else if step.SaveFreelist? || step.FlushPage? || step.Sync? || step.WriteMeta? || step.PublishTxnid? {
      CommitStepInv(s, step);
    } else if step.Abort? || step.WriterDies? || step.Crash? {
      EndStepInv(s, step);
    } else {
      BuildStepInv(s, step);
    }
  }

  lemma BuildStepInv(s: State, step: Step)
    requires Inv(s) && Enabled(s, step)
    requires step.BeginWrite? || step.StartScan? || step.ScanSlot? || step.EndScan? || step.FetchRecord? ||
      step.Page? || step.SpillPage? || step.UnspillPage?
    ensures Inv(Apply(s, step))
  {
    match step
    case BeginWrite(proc) => BeginWriteInv(s, proc);
    case StartScan => StartScanInv(s);
    case ScanSlot => ScanSlotInv(s);
    case EndScan => EndScanInv(s);
    case FetchRecord(r) => FetchRecordInv(s, r);
    case Page(op) => PageInv(s, op);
    case SpillPage(p) => PutPageInv(s, step);
    case UnspillPage(p) => UnspillInv(s, p);
  }

  lemma CommitStepInv(s: State, step: Step)
    requires Inv(s) && Enabled(s, step)
    requires step.SaveFreelist? || step.FlushPage? || step.Sync? || step.WriteMeta? || step.PublishTxnid?
    ensures Inv(Apply(s, step))
  {
    match step
    case SaveFreelist(dist) => SaveFreelistInv(s, dist);
    case FlushPage(p) => PutPageInv(s, step);
    case Sync => SyncInv(s);
    case WriteMeta => WriteMetaInv(s);
    case PublishTxnid => WriterGoneInv(s);
  }

  lemma EndStepInv(s: State, step: Step)
    requires Inv(s) && Enabled(s, step) && (step.Abort? || step.WriterDies? || step.Crash?)
    ensures Inv(Apply(s, step))
  {
    match step
    case Abort => WriterGoneInv(s);
    case WriterDies =>
      PickMetaIsLast(s);
      WriterGoneInv(s);
    case Crash(after) => CrashInv(s, after);
  }
}
