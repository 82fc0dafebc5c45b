/**
 What the page-lifecycle protocol guarantees, over every run: readers are
 isolated, allocation is safe, a crash recovers a committed snapshot, and no
 page is lost or shared.
 */
module ProtocolSafety {
  import opened PageFormat
  import opened Protocol
  import opened Wrappers
  import opened ProtocolInv

  /** A run from a fresh environment: run[i] is the state after i steps. */
  ghost predicate IsRunOf(run: seq<State>, steps: seq<Step>) {
    && |run| == |steps| + 1
    && run[0] == Init()
    && (forall i :: 0 <= i < |steps| ==> IsStep(run[i], steps[i], run[i + 1]))
  }

  ghost predicate IsStep(s: State, step: Step, s': State) {
    |s.metas| == NUM_METAS && Enabled(s, step) && s' == Apply(s, step)
  }

  lemma {:induction false} RunInv(run: seq<State>, steps: seq<Step>, n: nat)
    requires IsRunOf(run, steps) && n < |run|
    ensures Inv(run[n])
  {
    if n == 0 {
      InitInv();
    } else {
      RunInv(run, steps, n - 1);
      assert IsStep(run[n - 1], steps[n - 1], run[n]);
      StepInv(run[n - 1], steps[n - 1]);
    }
  }

  /** Committed snapshots are never rewritten. */
  lemma {:induction false} HistoryGrows(run: seq<State>, steps: seq<Step>, a: nat, b: nat)
    requires IsRunOf(run, steps) && a <= b < |run|
    ensures run[a].hist <= run[b].hist
    decreases b - a
  {
    if a < b {
      HistoryGrows(run, steps, a, b - 1);
      assert IsStep(run[b - 1], steps[b - 1], run[b]);
    }
  }

  ghost predicate Reading(s: State, i: nat, t: TxnId, k: TxnId) {
    i < |s.slots| && s.slots[i].reader == Active(t, k)
  }

  /** Snapshot isolation.  From the moment a reader has copied its meta page
      until it ends, each page of its snapshot reads the same as when that
      snapshot was committed, whatever writers, other readers and spills do. */
  lemma SnapshotIsolation(run: seq<State>, steps: seq<Step>, a: nat, b: nat, i: nat, t: TxnId, k: TxnId, p: Pgno)
    requires IsRunOf(run, steps) && a <= b < |run|
    requires Reading(run[a], i, t, k) && Reading(run[b], i, t, k)
    ensures k < |run[a].hist| && run[a].hist <= run[b].hist
    ensures p in run[a].hist[k].pages ==>
      p in run[a].mem && p in run[b].mem && run[b].mem[p] == run[a].hist[k].pages[p] == run[a].mem[p]
  {
    RunInv(run, steps, a);
    RunInv(run, steps, b);
    HistoryGrows(run, steps, a, b);
    assert ReaderInv(run[a].slots[i], |run[a].hist|, run[a].mti);
    assert Protects(run[a].slots[i], k) && Protects(run[b].slots[i], k);
    assert Live(run[a].hist, run[a].slots, k) && Live(run[b].hist, run[b].slots, k);
  }

  /** A reader gets the snapshot of the id it validated exactly when at most
      one commit happened before it copied the meta page; otherwise it gets a
      later one, to which SnapshotIsolation applies all the same. */
  lemma ReaderSnapshot(run: seq<State>, steps: seq<Step>, n: nat, i: nat)
    requires IsRunOf(run, steps) && n < |steps| && steps[n] == Read(i, CopyMeta)
    ensures var s, s' := run[n], run[n + 1];
      && i < |s.slots| && s.slots[i].reader.Validated?
      && (var t := s.slots[i].reader.t;
          && Reading(s', i, t, s'.slots[i].reader.k)
          && t <= s'.slots[i].reader.k < |s.hist|
          && s.metas[t % 2].snap == s.hist[s'.slots[i].reader.k]
          && (s'.slots[i].reader.k == t <==> |s.hist| <= t + 2))
  {
    RunInv(run, steps, n);
    assert IsStep(run[n], steps[n], run[n + 1]);
    CopyMetaBound(run[n], i);
  }

  /** Allocation never hands out a page that a reader's snapshot, or either of
      the last two snapshots, uses -- be it a loose page, a reclaimed one or a
      page past the end. */
  lemma AllocationSafe(run: seq<State>, steps: seq<Step>, n: nat, p: Pgno, k: TxnId)
    requires IsRunOf(run, steps) && n < |steps|
    requires steps[n].Page? && p in Allocated(steps[n].pop)
    requires Live(run[n].hist, run[n].slots, k)
    ensures p !in run[n].hist[k].pages
  {
    RunInv(run, steps, n);
    assert IsStep(run[n], steps[n], run[n + 1]);
    AllocatedUnused(run[n], steps[n].pop);
  }

  /** Short of a crash, the only pages of the file that ever change are pages
      no live snapshot uses; a writer with id N writes outside N-1 and N-2. */
  lemma WritesOutsideSnapshots(run: seq<State>, steps: seq<Step>, n: nat, p: Pgno, k: TxnId)
    requires IsRunOf(run, steps) && n < |steps| && !steps[n].Crash?
    requires p in run[n].mem && (p !in run[n + 1].mem || run[n + 1].mem[p] != run[n].mem[p])
    ensures run[n].writer.Some?
    ensures Live(run[n].hist, run[n].slots, k) ==> p !in run[n].hist[k].pages
    ensures k + 1 == run[n].writer.value.id || k + 2 == run[n].writer.value.id ==>
      k < |run[n].hist| && p !in run[n].hist[k].pages
  {
    RunInv(run, steps, n);
    assert IsStep(run[n], steps[n], run[n + 1]);
    assert p in Owned(run[n].writer.value);
    assert Unused(run[n].hist, run[n].slots, Owned(run[n].writer.value));
  }

  /** A crash at any point, losing or garbling any of the pages written since
      the last sync, recovers the last snapshot whose meta page was written:
      N-1 before a writer with id N writes its meta page, N from then on. */
  lemma CrashRecovers(run: seq<State>, steps: seq<Step>, n: nat)
    requires IsRunOf(run, steps) && n < |steps| && steps[n].Crash?
    ensures var s, s' := run[n], run[n + 1];
      && |s.metas| == NUM_METAS == |s'.metas|
      && (var meta := s'.metas[PickMeta(s'.metas)];
          && meta.txnid == s'.mti == Last(s)
          && meta.snap == s.hist[Last(s)]
          && (forall p :: p in meta.snap.pages ==> p in s'.mem && s'.mem[p] == meta.snap.pages[p])
          && (s.writer.Some? ==>
                meta.txnid == if s.writer.value.phase == MetaWritten then s.writer.value.id else s.writer.value.id - 1))
  {
    RunInv(run, steps, n);
    RunInv(run, steps, n + 1);
    var s, s' := run[n], run[n + 1];
    assert IsStep(s, steps[n], s');
    PickMetaIsLast(s');
    assert Live(s'.hist, s'.slots, Last(s'));
  }

  /** The two meta pages carry consecutive ids, each in slot id mod 2, from
      the first commit on -- and only from then on. */
  lemma MetaIds(run: seq<State>, steps: seq<Step>, n: nat)
    requires IsRunOf(run, steps) && n < |run|
    ensures var s := run[n];
      && |s.metas| == NUM_METAS
      && s.metas[Last(s) % 2].txnid == Last(s)
      && (s.metas[0].txnid != s.metas[1].txnid <==> 0 < Last(s))
      && (0 < Last(s) ==> s.metas[(Last(s) + 1) % 2].txnid == Last(s) - 1)
  {
    RunInv(run, steps, n);
  }

  /** Page conservation: in every committed snapshot each non-meta page is
      either used by a tree or listed in exactly one free-page record; in a
      write transaction, at every point before its meta page is written, it is
      in exactly one of the trees, mt_free_pgs, the loose list, me_pghead and
      the freeDB records there are: those not yet consumed while pages are being
      changed, all of them once the freelist is saved (and then the three lists
      are empty). */
  lemma PagesConserved(run: seq<State>, steps: seq<Step>, n: nat, p: Pgno)
    requires IsRunOf(run, steps) && n < |run|
    ensures var s := run[n];
      && (forall k :: 0 <= k < |s.hist| ==>
            && Owners(p, s.hist[k].pages.Keys, {}, {}, {}, s.hist[k].recs) == (if NUM_METAS <= p < s.hist[k].next then 1 else 0)
            && RecsDisjoint(s.hist[k].recs))
      && (s.writer.Some? && s.writer.value.phase != MetaWritten ==>
            var w := s.writer.value;
            var recs := if w.phase == Building then Above(w.recs, w.pglast) else w.recs;
            && Owners(p, w.tree, w.freed, w.loose, w.pghead, recs) == (if NUM_METAS <= p < w.next then 1 else 0)
            && RecsDisjoint(recs)
            && (w.phase != Building ==> w.freed == w.loose == w.pghead == {}))
  {
    RunInv(run, steps, n);
    var s := run[n];
    forall k | 0 <= k < |s.hist|
      ensures Owners(p, s.hist[k].pages.Keys, {}, {}, {}, s.hist[k].recs) == if NUM_METAS <= p < s.hist[k].next then 1 else 0
      ensures RecsDisjoint(s.hist[k].recs)
    {
      assert SnapWF(s.hist[k]);
    }
  }

  /** A transaction that ends without writing its meta page has changed no
      snapshot and no meta page, and nothing the next writer starts from. */
  lemma AbortChangesNothing(run: seq<State>, steps: seq<Step>, n: nat)
    requires IsRunOf(run, steps) && n < |steps| && steps[n] == Abort
    ensures var s, s' := run[n], run[n + 1];
      && s'.hist == s.hist && s'.metas == s.metas && s'.mti == Last(s)
      && (forall p :: p in s.hist[Last(s)].pages ==> p in s'.mem && s'.mem[p] == s.hist[Last(s)].pages[p])
  {
    RunInv(run, steps, n);
    RunInv(run, steps, n + 1);
    assert IsStep(run[n], steps[n], run[n + 1]);
    assert Live(run[n].hist, run[n].slots, Last(run[n]));
  }

  ghost predicate Possible(run: seq<State>, steps: seq<Step>, step: Step) {
    && IsRunOf(run, steps) && |run[|steps|].metas| == NUM_METAS && Enabled(run[|steps|], step)
  }

  lemma Extend(run: seq<State>, steps: seq<Step>, step: Step) returns (run': seq<State>, steps': seq<Step>, s': State)
    requires Possible(run, steps, step)
    ensures s' == Apply(run[|steps|], step)
    ensures IsRunOf(run', steps') && run'[|steps'|] == s' && |s'.metas| == NUM_METAS
  {
    s' := Apply(run[|steps|], step);
    run', steps' := run + [s'], steps + [step];
    assert IsStep(run[|steps|], step, s');
    RunInv(run', steps', |steps'|);
  }

  lemma IdleFacts(run: seq<State>, steps: seq<Step>)
    requires IsRunOf(run, steps) && run[|steps|].writer.None?
    ensures var s := run[|steps|];
      && |s.metas| == NUM_METAS && s.mti == Last(s)
      && s.metas[s.mti % 2] == Meta(s.mti, s.hist[s.mti])
      && s.hist[s.mti].pages.Keys <= s.mem.Keys
  {
    RunInv(run, steps, |steps|);
    var s := run[|steps|];
    assert Live(s.hist, s.slots, Last(s));
  }

  /** A transaction that changes no page can always be committed. */
  lemma EmptyCommit(run: seq<State>, steps: seq<Step>) returns (run': seq<State>, steps': seq<Step>)
    requires IsRunOf(run, steps) && run[|steps|].writer.None?
    ensures IsRunOf(run', steps')
    ensures var s, s' := run[|steps|], run'[|steps'|];
      s'.writer.None? && s'.slots == s.slots && |s'.hist| == |s.hist| + 1
  {
    IdleFacts(run, steps);
    var s;
    run', steps', s := Extend(run, steps, BeginWrite(0));
    run', steps', s := Extend(run', steps', SaveFreelist(map[]));
    run', steps', s := Extend(run', steps', Sync);
    run', steps', s := Extend(run', steps', WriteMeta);
    run', steps', s := Extend(run', steps', PublishTxnid);
  }

  lemma ReaderValidated() returns (run: seq<State>, steps: seq<Step>)
    ensures IsRunOf(run, steps)
    ensures var s := run[|steps|];
      s.writer.None? && |s.hist| == 1 && |s.slots| == 1 && s.slots[0].reader == Validated(0)
  {
    var s;
    run, steps, s := Extend([Init()], [], Read(0, ClaimSlot));
    run, steps, s := Extend(run, steps, Read(0, PublishPid));
    run, steps, s := Extend(run, steps, Read(0, LoadTxnid));
    run, steps, s := Extend(run, steps, Read(0, StoreTxnid));
    run, steps, s := Extend(run, steps, Read(0, Validate));
  }

  /** The suspended reader the documentation warns of exists: its id is 0 and
      the snapshot it reads is 2. */
  lemma SuspendedReaderSeesLaterSnapshot() returns (run: seq<State>, steps: seq<Step>)
    ensures IsRunOf(run, steps)
    ensures Reading(run[|steps|], 0, 0, 2)
  {
    run, steps := ReaderValidated();
    run, steps := EmptyCommit(run, steps);
    run, steps := EmptyCommit(run, steps);
    IdleFacts(run, steps);
    RunInv(run, steps, |steps|);
    var s;
    run, steps, s := Extend(run, steps, Read(0, CopyMeta));
  }
}
