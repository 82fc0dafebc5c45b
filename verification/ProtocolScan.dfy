/** What mdb_find_oldest returns when no reader moves while it looks. */
module ProtocolScan {
  import opened PageFormat
  import opened Protocol
  import opened Wrappers
  import opened ProtocolSafety

  /** The slot belongs to a process and shows a transaction id. */
  predicate Shows(slot: Slot, t: TxnId) { slot.pid && slot.txnid == Some(t) }

  /** m is the smallest id that a slot from index i on shows, or the bound if none is smaller. */
  ghost predicate Oldest(slots: seq<Slot>, i: nat, bound: TxnId, m: TxnId) {
    && m <= bound
    && (forall j, t :: i <= j < |slots| && Shows(slots[j], t) ==> m <= t)
    && (m == bound || exists j :: i <= j < |slots| && Shows(slots[j], m))
  }

  /** The scan has seen the slots from some index on. */
  ghost predicate Scanned(s: State, slots: seq<Slot>, proc: ProcId, bound: TxnId) {
    && s.slots == slots && s.writer.Some? && s.writer.value.proc == proc
    && match s.writer.value.scan
       case NoScan => false
       case AtPid(i, acc) => i <= |slots| && Oldest(slots, i, bound, acc)
       case AtTxn(i, acc) => 0 < i <= |slots| && slots[i - 1].pid && Oldest(slots, i, bound, acc)
  }

  lemma OneMore(slots: seq<Slot>, i: nat, bound: TxnId, acc: TxnId)
    requires 0 < i <= |slots| && Oldest(slots, i, bound, acc)
    ensures !slots[i - 1].pid ==> Oldest(slots, i - 1, bound, acc)
    ensures slots[i - 1].pid ==>
      var t := slots[i - 1].txnid;
      Oldest(slots, i - 1, bound, if t.Some? && t.value < acc then t.value else acc)
  {
    if slots[i - 1].pid && slots[i - 1].txnid.Some? { assert Shows(slots[i - 1], slots[i - 1].txnid.value); }
  }

  lemma ScanStep(s: State, slots: seq<Slot>, proc: ProcId, bound: TxnId)
    requires |s.metas| == NUM_METAS && Enabled(s, ScanSlot) && Scanned(s, slots, proc, bound)
    ensures Scanned(Apply(s, ScanSlot), slots, proc, bound)
  {
    OneMore(slots, s.writer.value.scan.i, bound, s.writer.value.scan.acc);
  }

  lemma {:induction false} ScanRuns(run: seq<State>, steps: seq<Step>, a: nat, n: nat)
    requires IsRunOf(run, steps) && a < n <= |steps| && steps[a] == StartScan
    requires forall i :: a < i < n ==> steps[i] == ScanSlot
    ensures run[a].writer.Some? && run[a].writer.value.id > 0
    ensures Scanned(run[n], run[a].slots, run[a].writer.value.proc, run[a].writer.value.id - 1)
    decreases n
  {
    assert IsStep(run[n - 1], steps[n - 1], run[n]);
    if n > a + 1 {
      ScanRuns(run, steps, a, n - 1);
      ScanStep(run[n - 1], run[a].slots, run[a].writer.value.proc, run[a].writer.value.id - 1);
    }
  }

  /** A scan that no reader step interrupts caches exactly the smallest id that
      the reader table shows, or the last committed one if that is smaller. */
  lemma {:induction false} ScanFindsOldest(run: seq<State>, steps: seq<Step>, a: nat, n: nat)
    requires IsRunOf(run, steps) && a < n < |steps| && steps[a] == StartScan && steps[n] == EndScan
    requires forall i :: a < i < n ==> steps[i] == ScanSlot
    ensures run[a].writer.Some? && run[a].writer.value.id > 0
    ensures var w := run[a].writer.value;
      w.proc in run[n + 1].oldest && Oldest(run[a].slots, 0, w.id - 1, run[n + 1].oldest[w.proc])
  {
    ScanRuns(run, steps, a, n);
    assert IsStep(run[n], steps[n], run[n + 1]);
  }
}
