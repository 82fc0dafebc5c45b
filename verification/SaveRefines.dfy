/**
 What mdb_freelist_save leaves in freeDB is what the page-lifecycle protocol
 asks of it: every reclaimed or loose page in exactly one record, under a key
 from 1 to me_pglast.
 */
module SaveRefines {
  import Protocol
  import opened IdList
  import opened FreelistSave

  /** The pages on a list. */
  function PagesOn(s: seq<int>): set<Protocol.Pgno> {
    set x: Protocol.Pgno | x in s
  }

  /** The records up to last, as a map. */
  function Dist(recs: seq<Rec>, last: int): map<Protocol.TxnId, set<Protocol.Pgno>> {
    if recs == [] then map[]
    else
      var m := Dist(recs[1..], last);
      if 0 <= recs[0].id <= last then m[recs[0].id := PagesOn(recs[0].list)] else m
  }

  lemma KeyedRest(recs: seq<Rec>)
    requires Keyed(recs) && recs != []
    ensures Keyed(recs[1..]) && forall r :: r in recs[1..] ==> r.id > recs[0].id
  {
    forall r | r in recs[1..] ensures r.id > recs[0].id {
      var p :| 0 <= p < |recs[1..]| && recs[1..][p] == r;
      assert recs[p + 1] == r;
    }
  }

  lemma {:induction false} DistKeys(recs: seq<Rec>, last: int, id: Protocol.TxnId)
    requires Keyed(recs)
    ensures id in Dist(recs, last) <==> id <= last && Has(recs, id)
  {
    if recs != [] {
      KeyedRest(recs);
      DistKeys(recs[1..], last, id);
      assert Has(recs, id) <==> recs[0].id == id || Has(recs[1..], id) by {
        if Has(recs[1..], id) {
          var p :| 0 <= p < |recs[1..]| && recs[1..][p].id == id;
          assert recs[p + 1].id == id;
        }
        if Has(recs, id) && recs[0].id != id {
          var p :| 0 <= p < |recs| && recs[p].id == id;
          assert recs[1..][p - 1].id == id;
        }
      }
    }
  }

  /** The page is in the map under some key. */
  predicate Under(m: map<Protocol.TxnId, set<Protocol.Pgno>>, x: Protocol.Pgno) {
    exists id :: id in m && x in m[id]
  }

  lemma UnderOneMore(m: map<Protocol.TxnId, set<Protocol.Pgno>>, k: Protocol.TxnId, ps: set<Protocol.Pgno>, x: Protocol.Pgno)
    requires k !in m
    ensures Under(m[k := ps], x) <==> x in ps || Under(m, x)
  {
    var n := m[k := ps];
    assert n[k] == ps;
    assert forall id :: id in m ==> id in n && n[id] == m[id];
  }

  /** A page is on the joined lists if it is under some key of the map, and conversely. */
  lemma {:induction false} DistCovers(recs: seq<Rec>, last: int, x: Protocol.Pgno)
    requires Keyed(recs) && forall r :: r in recs ==> r.id >= 0
    ensures x in Joined(recs, last) <==> Under(Dist(recs, last), x)
  {
    if recs != [] {
      KeyedRest(recs);
      DistCovers(recs[1..], last, x);
      var r := recs[0];
      if r.id <= last {
        DistKeys(recs[1..], last, r.id);
        NotBelow(recs, r.id);
        UnderOneMore(Dist(recs[1..], last), r.id, PagesOn(r.list), x);
      }
    }
  }

  lemma NotBelow(recs: seq<Rec>, id: int)
    requires Keyed(recs) && recs != [] && id <= recs[0].id
    ensures !Has(recs[1..], id)
  {
    KeyedRest(recs);
    assert forall p :: 0 <= p < |recs[1..]| ==> recs[1..][p] in recs[1..];
  }

  lemma StrictParts(a: seq<int>, b: seq<int>)
    requires Strict(a + b)
    ensures Strict(a) && forall x :: !(x in a && x in b)
  {
    var s := a + b;
    assert forall p :: 0 <= p < |a| ==> s[p] == a[p];
    forall p, q | 0 <= p < |a| && 0 <= q < |b| ensures a[p] > b[q] {
      assert s[p] > s[|a| + q];
    }
  }

  /** No page is under two keys when the joined lists have no page twice. */
  lemma {:induction false} DistDisjoint(recs: seq<Rec>, last: int, i: Protocol.TxnId, j: Protocol.TxnId)
    requires Keyed(recs) && (forall r :: r in recs ==> r.id >= 0) && Strict(Joined(recs, last))
    requires i in Dist(recs, last) && j in Dist(recs, last) && i != j
    ensures Dist(recs, last)[i] !! Dist(recs, last)[j]
  {
    KeyedRest(recs);
    var r, m := recs[0], Dist(recs[1..], last);
    if r.id <= last {
      StrictParts(Joined(recs[1..], last), r.list);
      if i == r.id {
        OthersApart(recs[1..], last, r.list, j);
      } else if j == r.id {
        OthersApart(recs[1..], last, r.list, i);
      } else {
        DistDisjoint(recs[1..], last, i, j);
      }
    } else {
      assert Joined(recs, last) == Joined(recs[1..], last);
      DistDisjoint(recs[1..], last, i, j);
    }
  }

  lemma {:induction false} OthersApart(recs: seq<Rec>, last: int, list: seq<int>, id: Protocol.TxnId)
    requires Keyed(recs) && (forall r :: r in recs ==> r.id >= 0) && id in Dist(recs, last)
    requires forall x :: !(x in Joined(recs, last) && x in list)
    ensures Dist(recs, last)[id] !! PagesOn(list)
  {
    forall x | x in Dist(recs, last)[id] ensures x !in PagesOn(list) {
      DistCovers(recs, last, x);
      assert Under(Dist(recs, last), x);
    }
  }

  // ---------------------------------------------------------------- no page is listed twice

  lemma {:induction false} FreshOnce(a: int, b: int, x: int)
    ensures Fresh(a, b)[x] == if a <= x < b then 1 else 0
    decreases b - a
  {
    if a < b { FreshOnce(a, b - 1, x); }
  }

  lemma CountTwice(s: seq<int>, p: int, q: int)
    requires 0 <= p < q < |s| && s[p] == s[q]
    ensures multiset(s)[s[p]] >= 2
  {
    var a, b := s[..q], s[q..];
    assert s == a + b;
    assert a[p] == s[p] && b[0] == s[q];
    assert multiset(a)[s[p]] >= 1 && multiset(b)[s[p]] >= 1;
  }

  lemma OnceIsStrict(s: seq<int>)
    requires Loose(s) && forall x :: multiset(s)[x] <= 1
    ensures Strict(s)
  {
    forall p, q | 0 <= p < q < |s| ensures s[p] > s[q] {
      if s[p] == s[q] { CountTwice(s, p, q); }
    }
  }

  /** Where saving starts no page is in two places, and those from next on are in none. */
  ghost predicate Distinct(g: Start) {
    && g.place.next >= 0
    && (forall x :: g.pool[x] <= 1) && (forall x :: x in g.pool ==> 0 <= x < g.place.next)
  }

  lemma {:induction false} PoolOnce(g: Start, next: int, x: int)
    requires Distinct(g) && g.place.next <= next
    ensures (g.pool + Fresh(g.place.next, next))[x] <= 1
    ensures x in g.pool + Fresh(g.place.next, next) ==> x >= 0
  {
    FreshOnce(g.place.next, next, x);
  }

  /** Each page is on one list of one record at most. */
  lemma ListedOnce(g: Start, was: seq<Rec>, at: Place, freed: seq<int>, recs: seq<Rec>, head: seq<int>, txnid: int, x: int)
    requires AllSaved(g, was, at, freed, recs, head, txnid) && Distinct(g)
    ensures multiset(head)[x] + multiset(freed)[x] + at.own[x] <= 1
    ensures x in head || x in freed ==> x >= 0
  {
    AllListed(recs, head, at.pglast, txnid, freed);
    PoolOnce(g, at.next, x);
    assert Between(recs, 0, txnid)[x] >= multiset(head)[x] + multiset(freed)[x];
    assert (Between(recs, 0, txnid) + at.own)[x] <= 1;
  }

  lemma HeadStrict(g: Start, was: seq<Rec>, at: Place, freed: seq<int>, recs: seq<Rec>, head: seq<int>, txnid: int)
    requires AllSaved(g, was, at, freed, recs, head, txnid) && Distinct(g)
    ensures Strict(head)
  {
    forall x ensures multiset(head)[x] <= 1 {
      ListedOnce(g, was, at, freed, recs, head, txnid, x);
    }
    OnceIsStrict(head);
  }

  lemma PagesOfMerged(head: seq<int>, a: seq<int>, b: seq<int>)
    requires multiset(head) == multiset(a) + multiset(b)
    ensures PagesOn(head) == PagesOn(a) + PagesOn(b)
  {
    forall x: Protocol.Pgno ensures x in PagesOn(head) <==> x in PagesOn(a) + PagesOn(b) {
      assert x in head <==> x in multiset(head);
      assert x in a <==> x in multiset(a);
      assert x in b <==> x in multiset(b);
    }
  }

  // ---------------------------------------------------------------- the protocol's step

  /** The protocol's writer when the last page of freeDB has been touched. */
  ghost predicate WriterAt(w: Protocol.Writer, was: seq<Rec>, at: Place, freed: seq<int>, txnid: int) {
    && w.id == txnid && w.pglast == at.pglast && w.recs == Dist(was, txnid)
    && (if w.headInit then w.pghead == PagesOn(at.head) && w.loose == PagesOn(at.loose) && w.freed == PagesOn(freed)
        else at.head == [] && at.loose == [] && w.freed + w.loose == PagesOn(freed))
  }

  lemma {:induction false} JoinedDistribution(w: Protocol.Writer, recs: seq<Rec>, head: seq<int>)
    requires Keyed(recs) && (forall r :: r in recs ==> r.id > 0) && Joined(recs, w.pglast) == head && Strict(head)
    requires PagesOn(head) == if w.headInit then w.pghead + w.loose else {}
    ensures Protocol.IsDistribution(w, Dist(recs, w.pglast))
  {
    var dist, pool := Dist(recs, w.pglast), PagesOn(head);
    forall id | id in dist ensures 1 <= id <= w.pglast && dist[id] <= pool {
      DistKeys(recs, w.pglast, id);
      forall x | x in dist[id] ensures x in pool {
        DistCovers(recs, w.pglast, x);
        assert Under(dist, x);
      }
    }
    forall x | x in pool ensures exists id :: id in dist && x in dist[id] {
      DistCovers(recs, w.pglast, x);
      assert Under(dist, x);
    }
    forall i, j | i in dist && j in dist && i != j ensures dist[i] !! dist[j] {
      DistDisjoint(recs, w.pglast, i, j);
    }
  }

  /** What mdb_freelist_save leaves is a distribution as the protocol's
      SaveFreelist step requires: keys from 1 to me_pglast, and each reclaimed
      or loose page under exactly one of them. */
  lemma {:induction false} SavedIsDistribution(g: Start, was: seq<Rec>, at: Place, freed: seq<int>, recs: seq<Rec>,
          head: seq<int>, txnid: int,
                            w: Protocol.Writer)
    requires AllSaved(g, was, at, freed, recs, head, txnid) && Distinct(g) && WriterAt(w, was, at, freed, txnid)
    ensures Protocol.IsDistribution(w, Dist(recs, w.pglast))
  {
    HeadStrict(g, was, at, freed, recs, head, txnid);
    PagesOfMerged(head, at.head, at.loose);
    JoinedDistribution(w, recs, head);
  }

  lemma {:induction false} DistValue(recs: seq<Rec>, last: int, r: Rec)
    requires Keyed(recs) && r in recs && 0 <= r.id <= last
    ensures r.id in Dist(recs, last) && Dist(recs, last)[r.id] == PagesOn(r.list)
  {
    assert recs == [recs[0]] + recs[1..];
    KeyedRest(recs);
    if recs[0] != r { DistValue(recs[1..], last, r); }
  }

  lemma HasRec(recs: seq<Rec>, id: int) returns (r: Rec)
    requires Has(recs, id)
    ensures r in recs && r.id == id
  {
    var p :| 0 <= p < |recs| && recs[p].id == id;
    r := recs[p];
  }

  lemma RecHas(recs: seq<Rec>, r: Rec)
    requires r in recs
    ensures Has(recs, r.id)
  {
    var p :| 0 <= p < |recs| && recs[p] == r;
  }

  /** A record in between is the same before and after. */
  lemma {:induction false} LaterSame(was: seq<Rec>, recs: seq<Rec>, last: int, txnid: int, id: Protocol.TxnId)
    requires Keyed(was) && Keyed(recs) && LaterKept(was, recs, last, txnid) && last < id < txnid
    ensures id in Dist(recs, txnid) <==> id in Dist(was, txnid)
    ensures id in Dist(recs, txnid) ==> Dist(recs, txnid)[id] == Dist(was, txnid)[id]
  {
    DistKeys(recs, txnid, id);
    DistKeys(was, txnid, id);
    if Has(recs, id) {
      var r := HasRec(recs, id);
      RecHas(was, r);
      DistValue(recs, txnid, r);
      DistValue(was, txnid, r);
    } else if Has(was, id) {
      var r := HasRec(was, id);
      RecHas(recs, r);
    }
  }

  lemma {:induction false} EarlierSame(recs: seq<Rec>, last: int, txnid: int, id: Protocol.TxnId)
    requires Keyed(recs) && id <= last <= txnid
    ensures id in Dist(recs, txnid) <==> id in Dist(recs, last)
    ensures id in Dist(recs, last) ==> Dist(recs, txnid)[id] == Dist(recs, last)[id]
  {
    DistKeys(recs, txnid, id);
    DistKeys(recs, last, id);
    if Has(recs, id) {
      var r := HasRec(recs, id);
      DistValue(recs, txnid, r);
      DistValue(recs, last, r);
    }
  }

  lemma {:induction false} OwnRecord(recs: seq<Rec>, txnid: Protocol.TxnId, freed: seq<int>)
    requires Keyed(recs) && FreedSaved(recs, txnid, freed) && forall x :: x in freed ==> x >= 0
    ensures txnid in Dist(recs, txnid) <==> PagesOn(freed) != {}
    ensures txnid in Dist(recs, txnid) ==> Dist(recs, txnid)[txnid] == PagesOn(freed)
  {
    DistKeys(recs, txnid, txnid);
    if freed != [] {
      var page := freed[0];
      assert page in freed && page in PagesOn(freed);
      var r :| r in recs && r.id == txnid && Loose(r.list) && multiset(r.list) == multiset(freed);
      RecHas(recs, r);
      DistValue(recs, txnid, r);
      PagesOfMerged(r.list, freed, []);
    }
  }

  /** The records afterwards are the ones the protocol's SaveFreelist step writes. */
  lemma {:induction false} SavedRecords(g: Start, was: seq<Rec>, at: Place, freed: seq<int>, recs: seq<Rec>,
                                        head: seq<int>, txnid: int,
                     w: Protocol.Writer)
    requires AllSaved(g, was, at, freed, recs, head, txnid) && Distinct(g) && WriterAt(w, was, at, freed, txnid)
    requires Keyed(was) && forall r :: r in was ==> 0 < r.id < txnid
    ensures Dist(recs, txnid) == Protocol.SavedWriter(w, Dist(recs, w.pglast)).recs
  {
    forall x | x in freed ensures x >= 0 {
      ListedOnce(g, was, at, freed, recs, head, txnid, x);
    }
    OwnRecord(recs, txnid, freed);
    var after, saved := Dist(recs, txnid), Protocol.SavedWriter(w, Dist(recs, w.pglast)).recs;
    forall id: Protocol.TxnId
      ensures id in after <==> id in saved
      ensures id in after ==> after[id] == saved[id]
    {
      DistKeys(recs, txnid, id);
      DistKeys(recs, w.pglast, id);
      DistKeys(was, txnid, id);
      if id <= w.pglast {
        EarlierSame(recs, w.pglast, txnid, id);
      } else if id < txnid {
        LaterSame(was, recs, w.pglast, txnid, id);
      } else if Has(was, id) {
        var r := HasRec(was, id);
      }
    }
  }

  /** The same of a call: mdb_freelist_save does what the protocol's step says. */
  method SaveStep(s: Saver, worlds: seq<World>) returns (done: bool, ghost at: Place)
    requires s.Valid() && s.Unsaved() && Distinct(Start(s.Here(), s.Pool(), worlds))
    requires forall r :: r in s.recs ==> r.id < s.txnid
    modifies s`recs, s`pglast, s`head, s`loose, s`freePgs, s`own, s`next
    ensures done ==> forall w: Protocol.Writer :: WriterAt(w, old(s.recs), at, s.freePgs, s.txnid) ==>
      && Protocol.IsDistribution(w, Dist(s.recs, w.pglast))
      && Dist(s.recs, s.txnid) == Protocol.SavedWriter(w, Dist(s.recs, w.pglast)).recs
  {
    ghost var g, was := Start(s.Here(), s.Pool(), worlds), s.recs;
    done, at := s.Save(worlds);
    if done {
      forall w: Protocol.Writer | WriterAt(w, was, at, s.freePgs, s.txnid)
        ensures Protocol.IsDistribution(w, Dist(s.recs, w.pglast))
        ensures Dist(s.recs, s.txnid) == Protocol.SavedWriter(w, Dist(s.recs, w.pglast)).recs
      {
        SavedIsDistribution(g, was, at, s.freePgs, s.recs, s.head, s.txnid, w);
        SavedRecords(g, was, at, s.freePgs, s.recs, s.head, s.txnid, w);
      }
    }
  }
}
