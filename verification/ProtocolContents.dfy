/**
 What a committed snapshot holds: each page of its trees has the content that
 the transaction's page operations gave it last, and the pages they did not
 touch have the content of the snapshot before.
 */
module ProtocolContents {
  import opened PageFormat
  import opened Protocol
  import opened Wrappers
  import opened ProtocolInv
  import opened ProtocolSafety

  /** The content that a step gives to a page, if it is a page operation that does. */
  function GivenBy(step: Step, p: Pgno): Option<Content> {
    match step
    case Page(AllocLoose(q, fill)) => if q == p then Some(fill) else None
    case Page(AllocHead(_, _, c)) => if p in c then Some(c[p]) else None
    case Page(AllocNew(_, c)) => if p in c then Some(c[p]) else None
    case Page(WritePage(q, fill)) => if q == p then Some(fill) else None
    case _ => None
  }

  /** The last content given to a page by the steps from a to b-1. */
  function Given(steps: seq<Step>, a: nat, b: nat, p: Pgno): Option<Content>
    requires b <= |steps|
  {
    if b <= a then None
    else if GivenBy(steps[b - 1], p).Some? then GivenBy(steps[b - 1], p)
    else Given(steps, a, b - 1, p)
  }

  /** Whether a step puts a page into the trees, or takes it out of them. */
  function MovedBy(step: Step, p: Pgno): Option<bool> {
    match step
    case Page(AllocLoose(q, _)) => if q == p then Some(true) else None
    case Page(AllocHead(_, _, c)) => if p in c then Some(true) else None
    case Page(AllocNew(_, c)) => if p in c then Some(true) else None
    case Page(FreePages(ps)) => if p in ps then Some(false) else None
    case Page(Loosen(q)) => if q == p then Some(false) else None
    case Page(ReturnToHead(ps)) => if p in ps then Some(false) else None
    case _ => None
  }

  /** Whether a page is in the trees after the steps from a to b-1, if it was or was not before. */
  function InTrees(steps: seq<Step>, a: nat, b: nat, p: Pgno, before: bool): bool
    requires b <= |steps|
  {
    if b <= a then before
    else if MovedBy(steps[b - 1], p).Some? then MovedBy(steps[b - 1], p).value
    else InTrees(steps, a, b - 1, p, before)
  }

  /** The transaction that starts at step b, up to step n. */
  ghost predicate WithinTxn(run: seq<State>, steps: seq<Step>, b: nat, n: nat) {
    IsRunOf(run, steps) && b < n <= |steps| && steps[b].BeginWrite? && NoBegin(steps, b + 1, n)
  }

  /** No transaction begins in the steps from a to b-1. */
  predicate NoBegin(steps: seq<Step>, a: nat, b: nat)
    requires b <= |steps|
  {
    b <= a || (!steps[b - 1].BeginWrite? && NoBegin(steps, a, b - 1))
  }

  /** A page on the dirty list has the content given last, and so has a spilled page in the file. */
  ghost predicate Holds(w: Writer, mem: map<Pgno, Content>, p: Pgno, given: Option<Content>) {
    && (p in w.dirty ==> given == Some(w.dirty[p]))
    && (p in w.spilled ==> p in mem && given == Some(mem[p]))
    && (p in w.tree && given.Some? ==> p in Owned(w))
  }

  lemma PageHolds(s: State, op: PageOp, p: Pgno, given: Option<Content>)
    requires Inv(s) && Enabled(s, Page(op)) && Holds(s.writer.value, s.mem, p, given)
    ensures var now := GivenBy(Page(op), p);
      Holds(ApplyPage(s.writer.value, op), s.mem, p, if now.Some? then now else given)
  {
    var w := s.writer.value;
    assert Owners(p, w.tree, w.freed, w.loose, w.pghead, Kept(w)) == if NUM_METAS <= p < w.next then 1 else 0;
  }

  lemma StepHolds(s: State, step: Step, p: Pgno, given: Option<Content>)
    requires Inv(s) && Enabled(s, step) && !step.BeginWrite?
    requires s.writer.Some? ==> Holds(s.writer.value, s.mem, p, given)
    ensures var s', now := Apply(s, step), GivenBy(step, p);
      s'.writer.Some? ==> s.writer.Some? && Holds(s'.writer.value, s'.mem, p, if now.Some? then now else given)
  {
    match step
    case Page(op) => PageHolds(s, op, p, given);
    case SaveFreelist(dist) =>
      var w := s.writer.value;
      assert Owners(p, w.tree, w.freed, w.loose, w.pghead, Kept(w)) <= 1;
    case _ =>
  }

  lemma StepHoldsAt(run: seq<State>, steps: seq<Step>, n: nat, p: Pgno, given: Option<Content>)
    requires IsRunOf(run, steps) && n < |steps| && !steps[n].BeginWrite?
    requires run[n].writer.Some? ==> Holds(run[n].writer.value, run[n].mem, p, given)
    ensures var now := GivenBy(steps[n], p);
      run[n + 1].writer.Some? ==> Holds(run[n + 1].writer.value, run[n + 1].mem, p, if now.Some? then now else given)
  {
    RunInv(run, steps, n);
    assert IsStep(run[n], steps[n], run[n + 1]);
    StepHolds(run[n], steps[n], p, given);
  }

  lemma BeginHoldsAt(run: seq<State>, steps: seq<Step>, n: nat, p: Pgno)
    requires IsRunOf(run, steps) && n < |steps| && steps[n].BeginWrite?
    ensures run[n + 1].writer.Some? ==> Holds(run[n + 1].writer.value, run[n + 1].mem, p, None)
  {
    assert IsStep(run[n], steps[n], run[n + 1]);
  }

  lemma {:induction false} TxnHolds(run: seq<State>, steps: seq<Step>, b: nat, n: nat, p: Pgno)
    requires WithinTxn(run, steps, b, n)
    ensures run[n].writer.Some? ==> Holds(run[n].writer.value, run[n].mem, p, Given(steps, b + 1, n, p))
    decreases n
  {
    if n > b + 1 {
      TxnHolds(run, steps, b, n - 1, p);
      StepHoldsAt(run, steps, n - 1, p, Given(steps, b + 1, n - 1, p));
    } else {
      BeginHoldsAt(run, steps, b, p);
    }
  }

  ghost predicate InTree(s: State, p: Pgno, inside: bool) {
    s.writer.Some? ==> (p in s.writer.value.tree <==> inside)
  }

  lemma PageTree(w: Writer, op: PageOp, p: Pgno)
    requires PageEnabled(w, op)
    ensures var now := MovedBy(Page(op), p);
      p in ApplyPage(w, op).tree <==> if now.Some? then now.value else p in w.tree
  {
  }

  lemma StepTree(s: State, step: Step, p: Pgno, inside: bool)
    requires |s.metas| == NUM_METAS && Enabled(s, step) && !step.BeginWrite? && InTree(s, p, inside)
    ensures var now := MovedBy(step, p); InTree(Apply(s, step), p, if now.Some? then now.value else inside)
  {
    match step
    case Page(op) => PageTree(s.writer.value, op, p);
    case _ =>
  }

  lemma StepTreeAt(run: seq<State>, steps: seq<Step>, n: nat, p: Pgno, inside: bool)
    requires IsRunOf(run, steps) && n < |steps| && !steps[n].BeginWrite? && InTree(run[n], p, inside)
    ensures var now := MovedBy(steps[n], p); InTree(run[n + 1], p, if now.Some? then now.value else inside)
  {
    assert IsStep(run[n], steps[n], run[n + 1]);
    StepTree(run[n], steps[n], p, inside);
  }

  lemma BeginTreeAt(run: seq<State>, steps: seq<Step>, n: nat, p: Pgno)
    requires IsRunOf(run, steps) && n < |steps| && steps[n].BeginWrite?
    ensures run[n].hist != [] && InTree(run[n + 1], p, p in run[n].hist[Last(run[n])].pages)
  {
    RunInv(run, steps, n);
    assert IsStep(run[n], steps[n], run[n + 1]);
  }

  lemma {:induction false} TxnTree(run: seq<State>, steps: seq<Step>, b: nat, n: nat, p: Pgno, inside: bool)
    requires WithinTxn(run, steps, b, n) && run[b].hist != [] && inside == (p in run[b].hist[Last(run[b])].pages)
    ensures InTree(run[n], p, InTrees(steps, b + 1, n, p, inside))
    decreases n
  {
    if n > b + 1 {
      TxnTree(run, steps, b, n - 1, p, inside);
      StepTreeAt(run, steps, n - 1, p, InTrees(steps, b + 1, n - 1, p, inside));
    } else {
      BeginTreeAt(run, steps, b, p);
    }
  }

  /** The transaction's base is the snapshot that was the last one when it began. */
  ghost predicate BasedOn(s: State, hist: seq<Snap>) {
    s.writer.Some? ==> hist == if s.writer.value.phase == MetaWritten && s.hist != [] then s.hist[..|s.hist| - 1] else s.hist
  }

  lemma StepBase(s: State, step: Step, hist: seq<Snap>)
    requires |s.metas| == NUM_METAS && Enabled(s, step) && (if step.BeginWrite? then hist == s.hist else BasedOn(s, hist))
    requires step.WriteMeta? ==> s.writer.value.phase == Synced
    ensures BasedOn(Apply(s, step), hist)
  {
    match step
    case WriteMeta => assert (s.hist + [NewSnap(s.writer.value, s.mem)])[..|s.hist|] == s.hist;
    case Page(op) => assert ApplyPage(s.writer.value, op).phase == s.writer.value.phase;
    case _ =>
  }

  lemma StepBaseAt(run: seq<State>, steps: seq<Step>, n: nat, hist: seq<Snap>)
    requires IsRunOf(run, steps) && n < |steps|
    requires if steps[n].BeginWrite? then hist == run[n].hist else BasedOn(run[n], hist)
    ensures BasedOn(run[n + 1], hist)
  {
    assert IsStep(run[n], steps[n], run[n + 1]);
    StepBase(run[n], steps[n], hist);
  }

  lemma {:induction false} SameLast(run: seq<State>, steps: seq<Step>, b: nat, n: nat)
    requires WithinTxn(run, steps, b, n)
    ensures BasedOn(run[n], run[b].hist)
    decreases n
  {
    if n > b + 1 {
      SameLast(run, steps, b, n - 1);
    }
    StepBaseAt(run, steps, n - 1, run[b].hist);
  }

  /** The new snapshot, page by page. */
  lemma MetaHolds(s: State, p: Pgno, inside: bool, given: Option<Content>)
    requires Inv(s) && Enabled(s, WriteMeta) && InTree(s, p, inside) && Holds(s.writer.value, s.mem, p, given)
    ensures var was, hist := s.hist[Last(s)].pages, Apply(s, WriteMeta).hist;
      && |hist| == |s.hist| + 1 && s.hist <= hist && (p in hist[|s.hist|].pages <==> inside)
      && (inside ==>
            match given
            case Some(c) => hist[|s.hist|].pages[p] == c
            case None => p in was && hist[|s.hist|].pages[p] == was[p])
  {
    assert Live(s.hist, s.slots, Last(s));
  }

  lemma MetaHoldsAt(run: seq<State>, steps: seq<Step>, m: nat, p: Pgno, inside: bool, given: Option<Content>, was: seq<Snap>)
    requires IsRunOf(run, steps) && m < |steps| && steps[m] == WriteMeta && BasedOn(run[m], was) && InTree(run[m], p, inside)
    requires run[m].writer.Some? ==> Holds(run[m].writer.value, run[m].mem, p, given)
    ensures var hist := run[m + 1].hist;
      && was != [] && |hist| == |was| + 1 && was <= hist && (p in hist[|was|].pages <==> inside)
      && (inside ==>
            match given
            case Some(c) => hist[|was|].pages[p] == c
            case None => p in was[|was| - 1].pages && hist[|was|].pages[p] == was[|was| - 1].pages[p])
  {
    RunInv(run, steps, m);
    assert IsStep(run[m], steps[m], run[m + 1]);
    MetaHolds(run[m], p, inside, given);
  }

  /** What a commit writes.  A transaction that starts at step b and writes its
      meta page at step m makes the next snapshot.  A page is in its trees if the
      last page operation that moved it put it there, or it was there before and
      none moved it.  Its content is the one that the last page operation to give
      it one gave, whatever was spilled, taken back and flushed in between; the
      other pages are as in the snapshot before. */
  lemma {:induction false} CommitHolds(run: seq<State>, steps: seq<Step>, b: nat, m: nat, p: Pgno)
    requires WithinTxn(run, steps, b, m) && m < |steps| && steps[m] == WriteMeta
    ensures |run[m + 1].hist| == |run[b].hist| + 1 && run[b].hist != [] && run[b].hist <= run[m + 1].hist
    ensures var was, now := run[b].hist[Last(run[b])].pages, run[m + 1].hist[|run[b].hist|].pages;
      && (p in now <==> InTrees(steps, b + 1, m, p, p in was))
      && (p in now ==>
            match Given(steps, b + 1, m, p)
            case Some(c) => now[p] == c
            case None => p in was && now[p] == was[p])
  {
    BeginTreeAt(run, steps, b, p);
    var inside := p in run[b].hist[Last(run[b])].pages;
    SameLast(run, steps, b, m);
    TxnTree(run, steps, b, m, p, inside);
    TxnHolds(run, steps, b, m, p);
    MetaHoldsAt(run, steps, m, p, InTrees(steps, b + 1, m, p, inside), Given(steps, b + 1, m, p), run[b].hist);
  }

  lemma {:induction false} NoNewSnapshot(run: seq<State>, steps: seq<Step>, a: nat, n: nat)
    requires IsRunOf(run, steps) && a <= n < |run| && forall i :: a <= i < n ==> steps[i] != WriteMeta
    ensures run[n].hist == run[a].hist
    decreases n
  {
    if a < n {
      assert IsStep(run[n - 1], steps[n - 1], run[n]);
      NoNewSnapshot(run, steps, a, n - 1);
    }
  }

  /** A crash at any later point, before another transaction writes its meta
      page, recovers exactly what that transaction wrote. */
  lemma {:induction false} CrashHolds(run: seq<State>, steps: seq<Step>, b: nat, m: nat, n: nat, p: Pgno)
    requires WithinTxn(run, steps, b, m) && m < n < |steps| && steps[m] == WriteMeta && steps[n].Crash?
    requires forall i :: m < i < n ==> steps[i] != WriteMeta
    ensures var s := run[n + 1];
      && |s.metas| == NUM_METAS && run[b].hist != []
      && var was, now := run[b].hist[Last(run[b])].pages, s.metas[PickMeta(s.metas)].snap.pages;
         && (p in now <==> InTrees(steps, b + 1, m, p, p in was))
         && (p in now ==> p in s.mem)
         && (p in now ==>
               match Given(steps, b + 1, m, p)
               case Some(c) => s.mem[p] == c
               case None => p in was && s.mem[p] == was[p])
  {
    CommitHolds(run, steps, b, m, p);
    NoNewSnapshot(run, steps, m + 1, n);
    CrashRecovers(run, steps, n);
  }

  /** So does every reader of that snapshot, for as long as it reads. */
  lemma {:induction false} ReaderHolds(run: seq<State>, steps: seq<Step>, b: nat, m: nat, n: nat, i: nat, t: TxnId, p: Pgno)
    requires WithinTxn(run, steps, b, m) && m < n < |run| && steps[m] == WriteMeta
    requires Reading(run[n], i, t, |run[b].hist|)
    ensures var s := run[n];
      && |run[b].hist| > 0
      && var was := run[b].hist[Last(run[b])].pages;
         InTrees(steps, b + 1, m, p, p in was) ==>
           && p in s.mem
           && match Given(steps, b + 1, m, p)
              case Some(c) => s.mem[p] == c
              case None => p in was && s.mem[p] == was[p]
  {
    CommitHolds(run, steps, b, m, p);
    HistoryGrows(run, steps, m + 1, n);
    SnapshotIsolation(run, steps, n, n, i, t, |run[b].hist|, p);
  }
}
