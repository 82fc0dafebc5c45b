/**
 The page-lifecycle protocol of the store: lock-free readers, one writer, the
 free-page allocator, the commit sequence, and crashes.

 Actors interleave at the granularity of single loads and stores of shared
 memory (sequentially consistent).  A page is a page number with a content; a
 snapshot is the set of pages its trees use, with their contents, together
 with the records of its free-page database.
 */
module Protocol {
  import opened PageFormat
  import opened Wrappers

  type Pgno = nat
  type TxnId = nat
  type ProcId = nat
  type Content = seq<bv8>

  /** What a meta page points at: pages in use with their contents, the
      free-page records by transaction id, and the first never-used page. */
  datatype Snap = Snap(pages: map<Pgno, Content>, recs: map<TxnId, set<Pgno>>, next: Pgno)

  datatype Meta = Meta(txnid: TxnId, snap: Snap)

  /** The local progress of the thread that owns a reader slot. */
  datatype Reader =
    | Unowned
    | Claiming                            // slot chosen, pid not yet published
    | Ready                               // slot owned, no transaction
    | Loaded(t: TxnId)                    // mti_txnid read into a register
    | Stored(t: TxnId)                    // ... and stored in the slot
    | Validated(t: TxnId)                 // ... and found unchanged
    | Active(t: TxnId, k: TxnId)          // meta page copied; it was snapshot k

  /** One entry of the shared reader table; txnid None is (txnid_t)-1. */
  datatype Slot = Slot(pid: bool, txnid: Option<TxnId>, reader: Reader)

  datatype Phase = Building | Saved | Synced | MetaWritten

  /** Progress of mdb_find_oldest: slots below i are still to be read. */
  datatype Scan = NoScan | AtPid(i: nat, acc: TxnId) | AtTxn(i: nat, acc: TxnId)

  datatype Writer = Writer(
    proc: ProcId,
    id: TxnId,
    tree: set<Pgno>,                      // pages used by the trees being built
    recs: map<TxnId, set<Pgno>>,          // free-page records as of the last commit, or as saved
    next: Pgno,                           // mt_next_pgno
    freed: set<Pgno>,                     // mt_free_pgs
    loose: set<Pgno>,                     // mt_loose_pgs
    pghead: set<Pgno>,                    // me_pghead
    headInit: bool,                       // me_pghead != NULL
    pglast: TxnId,                        // me_pglast
    dirty: map<Pgno, Content>,            // dirty_list
    spilled: set<Pgno>,                   // mt_spill_pgs
    scan: Scan,
    phase: Phase)

  datatype State = State(
    metas: seq<Meta>,
    mti: TxnId,                           // mti_txnid
    slots: seq<Slot>,                     // mti_readers[0..mti_numreaders]
    mem: map<Pgno, Content>,              // the file as processes see it
    disk: map<Pgno, Content>,             // the file as a crash would leave it
    unsynced: set<Pgno>,                  // pages written since the last sync
    oldest: map<ProcId, TxnId>,           // me_pgoldest of each process
    writer: Option<Writer>,
    hist: seq<Snap>)                      // every snapshot ever committed, by id

  // ---------------------------------------------------------------- steps

  /** What the thread owning reader slot i does next (mdb_txn_renew0, mdb_txn_end). */
  datatype ReaderOp =
    | ClaimSlot | PublishPid | LoadTxnid | StoreTxnid | Validate | CopyMeta | EndRead | ReleaseSlot

  /** Page operations of a write transaction (mdb_page_alloc, mdb_page_touch,
      mdb_page_loose, mdb_ovpage_free). */
  datatype PageOp =
    | AllocLoose(p: Pgno, fill: Content)
    | AllocHead(p: Pgno, num: nat, c: map<Pgno, Content>)
    | AllocNew(num: nat, c: map<Pgno, Content>)
    | WritePage(p: Pgno, fill: Content)
    | FreePages(ps: set<Pgno>)
    | Loosen(p: Pgno)
    | ReturnToHead(ps: set<Pgno>)

  datatype Step =
    | Read(i: nat, rop: ReaderOp)
    | BeginWrite(proc: ProcId)
    | StartScan
    | ScanSlot
    | EndScan
    | FetchRecord(r: TxnId)
    | Page(pop: PageOp)
    | SpillPage(p: Pgno)
    | UnspillPage(p: Pgno)
    | SaveFreelist(dist: map<TxnId, set<Pgno>>)
    | FlushPage(p: Pgno)
    | Sync
    | WriteMeta
    | PublishTxnid
    | Abort
    | WriterDies
    | Crash(after: map<Pgno, Content>)

  function Last(s: State): int { |s.hist| - 1 }

  /** mdb_env_pick_meta: index of the newer meta page. */
  function PickMeta(metas: seq<Meta>): nat
    requires |metas| == NUM_METAS
  {
    if metas[0].txnid < metas[1].txnid then 1 else 0
  }

  /** num consecutive pages from p on. */
  ghost predicate IsRun(ps: set<Pgno>, p: Pgno, num: nat) {
    forall q: Pgno :: q in ps <==> p <= q < p + num
  }

  /** A write transaction in which page operations are allowed. */
  ghost predicate Working(s: State) {
    s.writer.Some? && s.writer.value.phase == Building && s.writer.value.scan.NoScan?
  }

  function Above(recs: map<TxnId, set<Pgno>>, lo: TxnId): map<TxnId, set<Pgno>> {
    map r | r in recs && lo < r :: recs[r]
  }

  ghost predicate ReadEnabled(slots: seq<Slot>, i: nat, op: ReaderOp) {
    match op
    case ClaimSlot =>
      // under the reader mutex: the first free slot, or a new one at the end
      i <= |slots| &&
      (forall j :: 0 <= j < |slots| && j < i ==> slots[j].reader != Unowned) &&
      (i < |slots| ==> slots[i].reader.Unowned?) &&
      (forall j :: 0 <= j < |slots| ==> slots[j].reader != Claiming)
    case PublishPid => i < |slots| && slots[i].reader.Claiming?
    case LoadTxnid => i < |slots| && slots[i].reader.Ready?
    case StoreTxnid => i < |slots| && slots[i].reader.Loaded?
    case Validate => i < |slots| && slots[i].reader.Stored?
    case CopyMeta => i < |slots| && slots[i].reader.Validated?
    case EndRead => i < |slots| && slots[i].reader.Active?
    case ReleaseSlot => i < |slots| && slots[i].reader.Ready?
  }

  ghost predicate PageEnabled(w: Writer, op: PageOp) {
    match op
    case AllocLoose(p, _) => p in w.loose
    case AllocHead(p, num, c) => 0 < num && c.Keys <= w.pghead && IsRun(c.Keys, p, num)
    case AllocNew(num, c) => 0 < num && IsRun(c.Keys, w.next, num)
    case WritePage(p, _) => p in w.dirty
    case FreePages(ps) => ps <= w.tree
    case Loosen(p) => p in w.tree && p in w.dirty
    case ReturnToHead(ps) => w.headInit && ps <= w.tree && ps <= w.dirty.Keys + w.spilled
  }

  /** A freeDB record may be consumed: it is the next one, and older than the
      oldest reader this process last saw. */
  ghost predicate MayFetch(w: Writer, oldest: map<ProcId, TxnId>, r: TxnId) {
    && r in w.recs && w.pglast < r
    && (forall r' :: r' in w.recs && w.pglast < r' ==> r <= r')
    && w.proc in oldest && r < oldest[w.proc]
  }

  ghost predicate Enabled(s: State, step: Step)
    requires |s.metas| == NUM_METAS
  {
    match step
    case Read(i, op) => ReadEnabled(s.slots, i, op)
    case BeginWrite(proc) => s.writer.None?
    case StartScan => Working(s) && 0 < s.writer.value.id
    case ScanSlot => s.writer.Some? && s.writer.value.scan != NoScan &&
      s.writer.value.phase == Building && 0 < s.writer.value.scan.i <= |s.slots|
    case EndScan => s.writer.Some? && s.writer.value.phase == Building &&
      s.writer.value.scan.AtPid? && s.writer.value.scan.i == 0
    case FetchRecord(r) => Working(s) && MayFetch(s.writer.value, s.oldest, r)
    case Page(op) => Working(s) && PageEnabled(s.writer.value, op)
    case SpillPage(p) => Working(s) && p in s.writer.value.dirty && p !in s.writer.value.loose
    case UnspillPage(p) => Working(s) && p in s.writer.value.spilled && p in s.mem
    case SaveFreelist(dist) => Working(s) && IsDistribution(s.writer.value, dist)
    case FlushPage(p) => s.writer.Some? && s.writer.value.phase == Saved && p in s.writer.value.dirty
    case Sync => s.writer.Some? && s.writer.value.phase == Saved && s.writer.value.dirty == map[]
    case WriteMeta => s.writer.Some? && s.writer.value.phase == Synced && s.writer.value.tree <= s.mem.Keys
    case PublishTxnid => s.writer.Some? && s.writer.value.phase == MetaWritten
    case Abort => s.writer.Some? && s.writer.value.phase != MetaWritten
    case WriterDies => s.writer.Some?
    case Crash(after) =>
      // pages not written since the last sync survive; the others may hold anything
      forall p :: p in s.disk && p !in s.unsynced ==> p in after && after[p] == s.disk[p]
  }

  /** What mdb_freelist_save leaves behind for me_pghead and the loose pages:
      records with keys in [1, me_pglast] that hold each of them once. */
  ghost predicate IsDistribution(w: Writer, dist: map<TxnId, set<Pgno>>) {
    var pool := if w.headInit then w.pghead + w.loose else {};
    && (forall r :: r in dist ==> 1 <= r <= w.pglast)
    && (forall r :: r in dist ==> dist[r] <= pool)
    && (forall p :: p in pool ==> exists r :: r in dist && p in dist[r])
    && (forall r, r' :: r in dist && r' in dist && r != r' ==> dist[r] !! dist[r'])
  }

  function SavedWriter(w: Writer, dist: map<TxnId, set<Pgno>>): Writer {
    // with no me_pghead the loose pages go to mt_free_pgs first
    var freed := if w.headInit then w.freed else w.freed + w.loose;
    var kept := Above(w.recs, w.pglast) + dist;
    w.(recs := if freed == {} then kept else kept[w.id := freed],
       freed := {}, loose := {}, pghead := {},
       dirty := w.dirty - w.loose,
       phase := Saved)
  }

  function NewScan(s: State, w: Writer): Scan
    requires w.scan != NoScan && 0 < w.scan.i <= |s.slots|
  {
    var i, acc := w.scan.i, w.scan.acc;
    var slot := s.slots[i - 1];
    match w.scan
    case AtPid(_, _) => if slot.pid then AtTxn(i, acc) else AtPid(i - 1, acc)
    case AtTxn(_, _) =>
      AtPid(i - 1, if slot.txnid.Some? && slot.txnid.value < acc then slot.txnid.value else acc)
  }

  function BeginWriter(s: State, proc: ProcId): Writer
    requires |s.metas| == NUM_METAS
  {
    var meta := s.metas[s.mti % 2];
    Writer(proc, s.mti + 1, meta.snap.pages.Keys, meta.snap.recs, meta.snap.next,
           {}, {}, {}, false, 0, map[], {}, NoScan, Building)
  }

  function NewSlot(s: State, i: nat, op: ReaderOp): Slot
    requires |s.metas| == NUM_METAS && ReadEnabled(s.slots, i, op)
  {
    match op
    case ClaimSlot => Slot(false, None, Claiming)
    case PublishPid => s.slots[i].(pid := true, reader := Ready)
    case LoadTxnid => s.slots[i].(reader := Loaded(s.mti))
    case StoreTxnid => s.slots[i].(txnid := Some(s.slots[i].reader.t), reader := Stored(s.slots[i].reader.t))
    case Validate =>
      var t := s.slots[i].reader.t;
      s.slots[i].(reader := if s.mti == t then Validated(t) else Ready)
    case CopyMeta =>
      var t := s.slots[i].reader.t;
      s.slots[i].(reader := Active(t, s.metas[t % 2].txnid))
    case EndRead => s.slots[i].(txnid := None, reader := Ready)
    case ReleaseSlot => Slot(false, None, Unowned)
  }

  function SetSlot(slots: seq<Slot>, i: nat, slot: Slot): seq<Slot>
    requires i <= |slots|
  {
    if i < |slots| then slots[i := slot] else slots + [slot]
  }

  function ApplyPage(w: Writer, op: PageOp): Writer
    requires PageEnabled(w, op)
  {
    match op
    case AllocLoose(p, fill) =>
      w.(loose := w.loose - {p}, tree := w.tree + {p}, dirty := w.dirty[p := fill])
    case AllocHead(_, _, c) =>
      w.(pghead := w.pghead - c.Keys, tree := w.tree + c.Keys, dirty := w.dirty + c)
    case AllocNew(num, c) =>
      w.(next := w.next + num, tree := w.tree + c.Keys, dirty := w.dirty + c)
    case WritePage(p, fill) => w.(dirty := w.dirty[p := fill])
    case FreePages(ps) => w.(tree := w.tree - ps, freed := w.freed + ps)
    case Loosen(p) => w.(tree := w.tree - {p}, loose := w.loose + {p})
    case ReturnToHead(ps) =>
      w.(tree := w.tree - ps, pghead := w.pghead + ps, dirty := w.dirty - ps, spilled := w.spilled - ps)
  }

  function Fetched(w: Writer, r: TxnId): Writer
    requires r in w.recs
  {
    w.(pghead := w.pghead + w.recs[r], pglast := r, headInit := true)
  }

  /** A dirty page written to the file leaves the dirty list. */
  function Put(w: Writer, p: Pgno): Writer {
    w.(dirty := w.dirty - {p}, spilled := w.spilled + {p})
  }

  function NewSnap(w: Writer, mem: map<Pgno, Content>): Snap
    requires w.tree <= mem.Keys
  {
    Snap(map p | p in w.tree :: mem[p], w.recs, w.next)
  }

  function Apply(s: State, step: Step): State
    requires |s.metas| == NUM_METAS
    requires Enabled(s, step)
  {
    match step
    case Read(i, op) => s.(slots := SetSlot(s.slots, i, NewSlot(s, i, op)))
    case BeginWrite(proc) => s.(writer := Some(BeginWriter(s, proc)))
    case StartScan =>
      var w := s.writer.value;
      s.(writer := Some(w.(scan := AtPid(|s.slots|, w.id - 1))))
    case ScanSlot =>
      var w := s.writer.value;
      s.(writer := Some(w.(scan := NewScan(s, w))))
    case EndScan =>
      var w := s.writer.value;
      s.(oldest := s.oldest[w.proc := w.scan.acc], writer := Some(w.(scan := NoScan)))
    case FetchRecord(r) => s.(writer := Some(Fetched(s.writer.value, r)))
    case Page(op) => s.(writer := Some(ApplyPage(s.writer.value, op)))
    case SpillPage(p) =>
      var w := s.writer.value;
      s.(mem := s.mem[p := w.dirty[p]], unsynced := s.unsynced + {p}, writer := Some(Put(w, p)))
    case UnspillPage(p) =>
      var w := s.writer.value;
      s.(writer := Some(w.(dirty := w.dirty[p := s.mem[p]], spilled := w.spilled - {p})))
    case SaveFreelist(dist) => s.(writer := Some(SavedWriter(s.writer.value, dist)))
    case FlushPage(p) =>
      var w := s.writer.value;
      s.(mem := s.mem[p := w.dirty[p]], unsynced := s.unsynced + {p}, writer := Some(Put(w, p)))
    case Sync => s.(disk := s.mem, unsynced := {}, writer := Some(s.writer.value.(phase := Synced)))
    case WriteMeta =>
      var w := s.writer.value;
      var snap := NewSnap(w, s.mem);
      s.(metas := s.metas[w.id % 2 := Meta(w.id, snap)], hist := s.hist + [snap],
         writer := Some(w.(phase := MetaWritten)))
    case PublishTxnid => s.(mti := s.writer.value.id, writer := None)
    case Abort => s.(writer := None)
    case WriterDies => s.(mti := s.metas[PickMeta(s.metas)].txnid, writer := None)
    case Crash(after) =>
      s.(mem := after, disk := after, unsynced := {}, slots := [], oldest := map[],
         mti := s.metas[PickMeta(s.metas)].txnid, writer := None)
  }

  /** A freshly created environment: both meta pages carry id 0. */
  function Init(): State {
    var snap := Snap(map[], map[], NUM_METAS);
    State([Meta(0, snap), Meta(0, snap)], 0, [], map[], map[], {}, map[], None, [snap])
  }
}
