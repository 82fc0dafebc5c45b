/**
 mdb_freelist_save: the pages freed by a transaction go to one freeDB record,
 the reclaimed ones that are left over go back to records reserved for them,
 while the saving itself keeps taking pages from both lists.
 */
module FreelistSave {
  import opened IdList

  /** A freeDB record: its transaction id, the ids it has room for, its list. */
  datatype Rec = Rec(id: int, room: int, list: seq<int>)

  // ---------------------------------------------------------------- freeDB

  predicate Keyed(recs: seq<Rec>) { forall p, q :: 0 <= p < q < |recs| ==> recs[p].id < recs[q].id }

  predicate Has(recs: seq<Rec>, id: int) { exists p :: 0 <= p < |recs| && recs[p].id == id }

  /** mdb_cursor_put, by key. */
  function Put(recs: seq<Rec>, r: Rec): seq<Rec> {
    if recs == [] then [r]
    else if recs[0].id < r.id then [recs[0]] + Put(recs[1..], r)
    else if recs[0].id == r.id then [r] + recs[1..]
    else [r] + recs
  }

  lemma {:induction false} PutIs(recs: seq<Rec>, r: Rec)
    requires Keyed(recs)
    ensures Keyed(Put(recs, r)) && forall x :: x in Put(recs, r) <==> x == r || (x in recs && x.id != r.id)
  {
    forall x ensures x in Put(recs, r) <==> x == r || (x in recs && x.id != r.id) {
      PutHolds(recs, r, x);
    }
    PutKeyed(recs, r);
  }

  lemma KeyedTail(recs: seq<Rec>)
    requires Keyed(recs) && recs != []
    ensures Keyed(recs[1..]) && forall x :: x in recs[1..] ==> x.id > recs[0].id
  {
  }

  lemma KeyedFirst(r: Rec, t: seq<Rec>)
    requires Keyed(t) && forall x :: x in t ==> r.id < x.id
    ensures Keyed([r] + t)
  {
    var s := [r] + t;
    forall p, q | 0 <= p < q < |s| ensures s[p].id < s[q].id {
      assert s[q] == t[q - 1] && t[q - 1] in t;
      if p > 0 { assert s[p] == t[p - 1]; }
    }
  }

  lemma {:induction false} PutHolds(recs: seq<Rec>, r: Rec, x: Rec)
    requires Keyed(recs)
    ensures x in Put(recs, r) <==> x == r || (x in recs && x.id != r.id)
  {
    if recs != [] {
      KeyedTail(recs);
      assert x in recs <==> x == recs[0] || x in recs[1..];
      PutHolds(recs[1..], r, x);
    }
  }

  lemma {:induction false} PutKeyed(recs: seq<Rec>, r: Rec)
    requires Keyed(recs)
    ensures Keyed(Put(recs, r))
  {
    if recs != [] {
      KeyedTail(recs);
      if recs[0].id < r.id {
        var t := Put(recs[1..], r);
        PutKeyed(recs[1..], r);
        forall x | x in t ensures recs[0].id < x.id { PutHolds(recs[1..], r, x); }
        KeyedFirst(recs[0], t);
      } else if recs[0].id == r.id {
        KeyedFirst(r, recs[1..]);
      } else {
        KeyedFirst(r, recs);
      }
    }
  }

  /** Room of the records with keys up to last. */
  function Room(recs: seq<Rec>, last: int): int {
    if recs == [] then 0 else (if recs[0].id <= last then recs[0].room else 0) + Room(recs[1..], last)
  }

  /** The room of one record, 0 if there is none. */
  function RoomOf(recs: seq<Rec>, id: int): int {
    if recs == [] then 0 else if recs[0].id == id then recs[0].room else RoomOf(recs[1..], id)
  }

  lemma {:induction false} PutRoom(recs: seq<Rec>, r: Rec, last: int)
    requires Keyed(recs)
    ensures Room(Put(recs, r), last) == Room(recs, last) + (if r.id <= last then r.room - RoomOf(recs, r.id) else 0)
    ensures RoomOf(Put(recs, r), r.id) == r.room
  {
    if recs != [] {
      PutRoom(recs[1..], r, last);
      if recs[0].id > r.id { NoRoom(recs, r.id, r.id); }
    }
  }

  lemma {:induction false} NoRoom(recs: seq<Rec>, last: int, id: int)
    requires forall p :: 0 <= p < |recs| ==> recs[p].id > last && recs[p].id != id
    ensures Room(recs, last) == 0 && RoomOf(recs, id) == 0
  {
    if recs != [] { NoRoom(recs[1..], last, id); }
  }

  // ---------------------------------------------------------------- what saving does to the lists

  /** Where the lists stand: records up to pglast have been read into the
      reclaimed list, `own` are the pages that freeDB's own tree uses, and pages
      from next on have never been used. */
  datatype Place = Place(pglast: int, head: seq<int>, loose: seq<int>, own: multiset<int>, next: int)

  /** What touching pages of freeDB may have done meanwhile: the lists stand
      elsewhere, and more pages have been freed. */
  datatype World = World(place: Place, freed: seq<int>)

  /** The reclaimed pages in descending order, and the loose ones. */
  predicate Lists(head: seq<int>, loose: seq<int>) {
    Loose(head) && AreIds(head) && AreIds(loose) && |head| + 2 * |loose| + 1 < COUNT_LIMIT
  }

  /** The pages on the lists of the records with keys above lo, up to hi. */
  function Between(recs: seq<Rec>, lo: int, hi: int): multiset<int> {
    if recs == [] then multiset{}
    else (if lo < recs[0].id <= hi then multiset(recs[0].list) else multiset{}) + Between(recs[1..], lo, hi)
  }

  /** The pages from a to b-1, once each. */
  function Fresh(a: int, b: int): multiset<int>
    decreases b - a
  {
    if a >= b then multiset{} else Fresh(a, b - 1) + multiset{b - 1}
  }

  lemma {:induction false} BetweenSplit(recs: seq<Rec>, lo: int, mid: int, hi: int)
    requires lo <= mid <= hi
    ensures Between(recs, lo, hi) == Between(recs, lo, mid) + Between(recs, mid, hi)
  {
    if recs != [] { BetweenSplit(recs[1..], lo, mid, hi); }
  }

  lemma {:induction false} BetweenPut(recs: seq<Rec>, r: Rec, lo: int, hi: int)
    requires !(lo < r.id <= hi)
    ensures Between(Put(recs, r), lo, hi) == Between(recs, lo, hi)
  {
    if recs == [] {
      assert [r][1..] == [];
    } else if recs[0].id < r.id {
      var t := Put(recs[1..], r);
      BetweenPut(recs[1..], r, lo, hi);
      assert ([recs[0]] + t)[1..] == t;
    } else if recs[0].id == r.id {
      assert ([r] + recs[1..])[1..] == recs[1..];
    } else {
      assert ([r] + recs)[1..] == recs;
    }
  }

  lemma {:induction false} FreshSplit(a: int, b: int, c: int)
    requires a <= b <= c
    ensures Fresh(a, c) == Fresh(a, b) + Fresh(b, c)
    decreases c - b
  {
    if b < c {
      FreshSplit(a, b, c - 1);
      Regroup2(Fresh(a, b), Fresh(b, c - 1), multiset{c - 1});
    }
  }

  lemma Regroup2(x: multiset<int>, y: multiset<int>, z: multiset<int>)
    ensures (x + y) + z == x + (y + z)
  {
  }

  /** Where saving has started, what pages there were, and what may happen. */
  datatype Start = Start(place: Place, pool: multiset<int>, worlds: seq<World>)

  /** Every page that is not in another tree of the transaction: reclaimed,
      loose, freed, used by freeDB itself, or listed in a record not yet read. */
  ghost function PoolOf(here: Place, freed: seq<int>, recs: seq<Rec>, txnid: int): multiset<int> {
    multiset(here.head) + multiset(here.loose) + multiset(freed) + here.own + Between(recs, here.pglast, txnid - 1)
  }

  /** No page has been lost or doubled since, and the lists stand where the
      start or one of the worlds has put them. */
  ghost predicate SinceAt(g: Start, here: Place, freed: seq<int>, recs: seq<Rec>, txnid: int) {
    && g.place.next <= here.next && PoolOf(here, freed, recs, txnid) == g.pool + Fresh(g.place.next, here.next)
    && (here == g.place || exists w :: w in g.worlds && here == w.place)
  }

  /** freeDB's pages are replaced by reclaimed, loose or new ones, those they
      replace are freed, and records may be read into the reclaimed list. */
  predicate Moves(here: Place, w: World, recs: seq<Rec>) {
    var p := w.place;
    && here.pglast <= p.pglast && here.next <= p.next
    && multiset(p.head) + multiset(p.loose) + multiset(w.freed) + p.own ==
       multiset(here.head) + multiset(here.loose) + here.own + Between(recs, here.pglast, p.pglast) + Fresh(here.next, p.next)
  }

  lemma Regroup(x: multiset<int>, y: multiset<int>, f: multiset<int>, e: multiset<int>,
                b: multiset<int>, c: multiset<int>, d: multiset<int>, n: multiset<int>, m: multiset<int>, p: multiset<int>)
    requires y + e == x + b + n && d == b + c && x + f + d == p + m
    ensures y + (f + e) + c == p + (m + n)
  {
    assert y + (f + e) + c == (y + e) + f + c;
    assert (x + b + n) + f + c == (x + f + (b + c)) + n;
  }

  lemma MovedSince(g: Start, here: Place, w: World, freed: seq<int>, recs: seq<Rec>, txnid: int)
    requires SinceAt(g, here, freed, recs, txnid) && Moves(here, w, recs) && w in g.worlds && w.place.pglast < txnid
    ensures SinceAt(g, w.place, freed + w.freed, recs, txnid)
  {
    var p := w.place;
    BetweenSplit(recs, here.pglast, p.pglast, txnid - 1);
    FreshSplit(g.place.next, here.next, p.next);
    var x := multiset(here.head) + multiset(here.loose) + here.own;
    var y := multiset(p.head) + multiset(p.loose) + p.own;
    var f, e := multiset(freed), multiset(w.freed);
    assert multiset(freed + w.freed) == f + e;
    Regroup(x, y, f, e, Between(recs, here.pglast, p.pglast), Between(recs, p.pglast, txnid - 1),
            Between(recs, here.pglast, txnid - 1), Fresh(here.next, p.next), Fresh(g.place.next, here.next), g.pool);
  }

  lemma {:induction false} PutSince(g: Start, here: Place, freed: seq<int>, recs: seq<Rec>, txnid: int, r: Rec, after: seq<Rec>)
    requires SinceAt(g, here, freed, recs, txnid) && (r.id <= here.pglast || r.id == txnid) && after == Put(recs, r)
    ensures SinceAt(g, here, freed, after, txnid)
  {
    BetweenPut(recs, r, here.pglast, txnid - 1);
  }

  lemma DropSince(g: Start, here: Place, freed: seq<int>, recs: seq<Rec>, txnid: int)
    requires SinceAt(g, here, freed, recs, txnid) && recs != [] && recs[0].id <= here.pglast
    ensures SinceAt(g, here, freed, recs[1..], txnid)
  {
  }

  predicate Among(worlds: seq<World>, all: seq<World>) { forall w :: w in worlds ==> w in all }

  ghost predicate RecsOk(recs: seq<Rec>, txnid: int) { Keyed(recs) && forall r :: r in recs ==> 0 < r.id <= txnid }

  predicate PlaceOk(p: Place, freed: int, txnid: int) {
    0 <= p.pglast < txnid && (p.head != [] || p.loose != [] ==> p.pglast > 0) && freed < COUNT_LIMIT && Lists(p.head, p.loose)
  }

  class Saver {
    const txnid: int
    const maxfree1pg: int
    var recs: seq<Rec>
    var pglast: int
    var head: seq<int>
    var loose: seq<int>
    var freePgs: seq<int>
    var own: multiset<int>
    var next: int

    /** A write transaction that is about to commit. */
    constructor (txn: int, maxfree: int, records: seq<Rec>, place: Place, freed: seq<int>)
      requires maxfree > 0 && Keyed(records) && 0 <= place.pglast < txn
      requires forall r :: r in records ==> 0 < r.id < txn
      requires place.pglast > 0 ==> Has(records, place.pglast)
      requires place.head != [] ==> place.pglast > 0
      requires |freed| + |place.loose| < COUNT_LIMIT && Lists(place.head, place.loose)
      ensures Valid() && recs == records && Unsaved()
      ensures pglast == place.pglast && head == place.head && own == place.own && next == place.next
      ensures Pool() == multiset(place.head) + multiset(place.loose) + multiset(freed) + place.own
                        + Between(records, place.pglast, txn - 1)
    {
      txnid, maxfree1pg, recs, pglast, head := txn, maxfree, records, place.pglast, place.head;
      own, next := place.own, place.next;
      // without reclaimed pages the loose ones count as freed
      loose := if place.pglast == 0 then [] else place.loose;
      freePgs := if place.pglast == 0 then freed + place.loose else freed;
    }

    ghost predicate Valid()
      reads this
    {
      maxfree1pg > 0 && RecsOk(recs, txnid) && PlaceOk(Here(), |freePgs|, txnid)
    }

    /** The transaction has no record yet, and the last record read is there. */
    ghost predicate Unsaved()
      reads this
    {
      !Has(recs, txnid) && (pglast > 0 ==> Has(recs, pglast))
    }

    ghost function Here(): Place
      reads this
    {
      Place(pglast, head, loose, own, next)
    }

    ghost function Pool(): multiset<int>
      reads this
    {
      PoolOf(Here(), freePgs, recs, txnid)
    }

    ghost predicate Since(g: Start)
      reads this
    {
      SinceAt(g, Here(), freePgs, recs, txnid)
    }

    predicate Possible(w: World)
      reads this
    {
      var p := w.place;
      && (p.pglast == pglast || Has(recs, p.pglast)) && PlaceOk(p, |freePgs| + |w.freed|, txnid)
      && Moves(Place(pglast, head, loose, own, next), w, recs)
    }

    /** Pages were touched: the world moves on, if it can move that way. */
    method Touch(w: World, ghost g: Start)
      requires Valid() && Since(g) && w in g.worlds
      modifies this`pglast, this`head, this`loose, this`freePgs, this`own, this`next
      ensures Valid() && old(pglast) <= pglast && (pglast == old(pglast) || Has(recs, pglast))
      ensures old(freePgs) <= freePgs && Since(g)
    {
      if Possible(w) {
        MovedSince(g, Here(), w, freePgs, recs, txnid);
        MoveTo(w.place, freePgs + w.freed);
      }
    }

    method MoveTo(p: Place, freed: seq<int>)
      modifies this`pglast, this`head, this`loose, this`freePgs, this`own, this`next
      ensures Here() == p && pglast == p.pglast && freePgs == freed
    {
      pglast, head, loose, freePgs, own, next := p.pglast, p.head, p.loose, freed, p.own, p.next;
    }

    ghost predicate Counted(v: Locals)
      reads this
    {
      CountedIn(v, recs, pglast, freePgs, txnid)
    }

    /** Deletes the records that have been read, and those reserved before. */
    method DropUsed(v0: Locals, worlds: seq<World>, ghost was: seq<Rec>, ghost g: Start)
      returns (v: Locals, rest: seq<World>, done: bool)
      requires Valid() && Counted(v0) && LaterKept(was, recs, pglast, txnid) && Since(g) && Among(worlds, g.worlds)
      modifies this`recs, this`pglast, this`head, this`loose, this`freePgs, this`own, this`next
      ensures Valid() && Counted(v) && LaterKept(was, recs, pglast, txnid) && |rest| <= |worlds|
      ensures Since(g) && Among(rest, g.worlds)
      ensures done ==> v.pglast == pglast
    {
      v, rest, done := v0, worlds, true;
      while v.pglast < pglast
        invariant Valid() && Counted(v) && LaterKept(was, recs, pglast, txnid) && |rest| <= |worlds|
        invariant Since(g) && Among(rest, g.worlds)
        decreases |rest|
      {
        if rest == [] {
          return v, rest, false;
        }
        v := DropOne(v, rest[0], was, g);
        rest := rest[1..];
      }
    }

    method DropOne(v0: Locals, w: World, ghost was: seq<Rec>, ghost g: Start) returns (v: Locals)
      requires Valid() && Counted(v0) && v0.pglast < pglast && LaterKept(was, recs, pglast, txnid)
      requires Since(g) && w in g.worlds
      modifies this`recs, this`pglast, this`head, this`loose, this`freePgs, this`own, this`next
      ensures Valid() && Counted(v) && LaterKept(was, recs, pglast, txnid) && Since(g)
    {
      DropKeeps(v0, recs, pglast, freePgs, txnid, was);
      DropSince(g, Here(), freePgs, recs, txnid);
      var key := recs[0].id;
      recs := recs[1..];
      v := Locals(key, key, v0.freecnt, 0, 0);
      ghost var last, pages := pglast, freePgs;
      Touch(w, g);
      TouchKeeps(v, recs, last, pglast, pages, freePgs, txnid);
    }

    /** The pages freed by this transaction, in one record; again if there are
        more of them afterwards. */
    method SaveFreed(v0: Locals, worlds: seq<World>, ghost was: seq<Rec>, ghost g: Start)
      returns (v: Locals, rest: seq<World>, done: bool)
      requires Valid() && Counted(v0) && LaterKept(was, recs, pglast, txnid) && v0.freecnt < |freePgs|
      requires Since(g) && Among(worlds, g.worlds)
      modifies this`recs, this`pglast, this`head, this`loose, this`freePgs, this`own, this`next
      ensures Valid() && Counted(v) && LaterKept(was, recs, pglast, txnid)
      ensures Since(g) && Among(rest, g.worlds)
      ensures done ==> |rest| < |worlds| && v.freecnt > v0.freecnt
    {
      v, rest, done := v0, worlds, false;
      while rest != []
        invariant Valid() && Counted(v) && LaterKept(was, recs, pglast, txnid) && v == v0
        invariant v0.freecnt < |freePgs| && |rest| <= |worlds|
        invariant Since(g) && Among(rest, g.worlds)
        decreases |rest|
      {
        var freecnt := |freePgs|;
        ghost var last, pages := pglast, freePgs;
        Touch(rest[0], g);
        TouchKeeps(v0, recs, last, pglast, pages, freePgs, txnid);
        rest := rest[1..];
        if freecnt >= |freePgs| {
          v := StoreFreed(v0, was, g);
          return v, rest, true;
        }
      }
    }

    method StoreFreed(v0: Locals, ghost was: seq<Rec>, ghost g: Start) returns (v: Locals)
      requires Valid() && Counted(v0) && LaterKept(was, recs, pglast, txnid) && Since(g) && freePgs != []
      modifies this`recs
      ensures Valid() && Counted(v) && LaterKept(was, recs, pglast, txnid) && Since(g)
      ensures v == v0.(freecnt := |freePgs|)
    {
      var list := SortIds(freePgs);
      var after := Put(recs, Rec(txnid, |freePgs|, list));
      PutSaved(v0, recs, pglast, freePgs, txnid, was, list, after);
      PutSince(g, Here(), freePgs, recs, txnid, Rec(txnid, |freePgs|, list), after);
      recs := after;
      v := v0.(freecnt := |freePgs|);
    }

    /** (Re)writes the record with the key head_id so that the room suffices. */
    method ReserveOne(v0: Locals, w: World, ghost was: seq<Rec>, ghost g: Start) returns (v: Locals)
      requires Valid() && Counted(v0) && LaterKept(was, recs, pglast, txnid) && Since(g) && w in g.worlds
      requires 0 < v0.pglast == pglast && v0.totalRoom != |head| + |loose|
      modifies this`recs, this`pglast, this`head, this`loose, this`freePgs, this`own, this`next
      ensures Valid() && Counted(v) && LaterKept(was, recs, pglast, txnid) && Since(g)
      ensures v.freecnt == v0.freecnt
    {
      v := Resized(v0, |head| + |loose|, maxfree1pg);
      StoreHead(v0, v, w, was, g);
    }

    method StoreHead(v0: Locals, v: Locals, w: World, ghost was: seq<Rec>, ghost g: Start)
      requires Valid() && Counted(v0) && LaterKept(was, recs, pglast, txnid) && Since(g) && w in g.worlds
      requires 0 < v0.pglast == pglast && v == Locals(v0.pglast, v.headId, v0.freecnt, v.headRoom, v.totalRoom)
      requires v.headRoom >= 0 && (v.headId == v0.headId || v.headId == v0.headId - 1 >= 1)
      requires v.totalRoom == v0.totalRoom - (if v.headId == v0.headId then v0.headRoom else 0) + v.headRoom
      modifies this`recs, this`pglast, this`head, this`loose, this`freePgs, this`own, this`next
      ensures Valid() && Counted(v) && LaterKept(was, recs, pglast, txnid) && Since(g)
    {
      var after := Put(recs, Rec(v.headId, v.headRoom, []));
      PutReserved(v0, recs, pglast, freePgs, txnid, was, v.headId, v.headRoom, after);
      PutSince(g, Here(), freePgs, recs, txnid, Rec(v.headId, v.headRoom, []), after);
      recs := after;
      ghost var last, pages := pglast, freePgs;
      Touch(w, g);
      TouchKeeps(v, recs, last, pglast, pages, freePgs, txnid);
    }

    /** What the loop keeps. */
    ghost predicate Going(v: Locals, was: seq<Rec>, g: Start)
      reads this
    {
      Valid() && Counted(v) && LaterKept(was, recs, pglast, txnid) && Since(g)
    }

    /** One round of the loop with the freed pages saved: enough room has been
        reserved, or some more is, or the worlds are used up. */
    method ReserveMore(v0: Locals, more0: int, worlds: seq<World>, ghost was: seq<Rec>, ghost g: Start)
      returns (v: Locals, more: int, rest: seq<World>, done: bool)
      requires Going(v0, was, g) && Among(worlds, g.worlds) && v0.pglast == pglast && v0.freecnt >= |freePgs|
      modifies this`recs, this`pglast, this`head, this`loose, this`freePgs, this`own, this`next
      ensures Going(v, was, g) && Among(rest, g.worlds)
      ensures !done ==> |rest| < |worlds| || rest == worlds == []
      ensures done ==> v.pglast == pglast && v.freecnt >= |freePgs| && v.totalRoom >= |head| + |loose|
    {
      v, more, rest, done := v0, more0, worlds, false;
      var mopLen := |head| + |loose|;
      if v.totalRoom >= mopLen {
        more := more - 1;
        if v.totalRoom == mopLen || more < 0 {
          done := true;
          return;
        }
      }
      if rest != [] {
        if pglast == 0 { NoRoom(recs, 0, 0); }
        v := ReserveOne(v, rest[0], was, g);
        rest := rest[1..];
      }
    }

    /** The loop of mdb_freelist_save.  When it ends, no page has been lost, the
        lists stand where the last touch has put them, the records up to pglast
        are empty and have room for every reclaimed and loose page, the record
        of the transaction holds exactly the pages it freed, and later records
        are as they were. */
    method Reserve(worlds: seq<World>) returns (totalRoom: int, done: bool)
      requires Valid() && Unsaved()
      modifies this`recs, this`pglast, this`head, this`loose, this`freePgs, this`own, this`next
      ensures Valid() && LaterKept(old(recs), recs, pglast, txnid)
      ensures Since(Start(old(Here()), old(Pool()), worlds))
      ensures done ==> Reserved(totalRoom, recs, pglast, freePgs, txnid) && totalRoom >= |head| + |loose|
    {
      ghost var was := recs;
      ghost var g := Start(Here(), Pool(), worlds);
      var v, rest, more := Locals(0, 0, 0, 0, 0), worlds, 1;
      InitiallyCounted(recs, pglast, freePgs, txnid);
      while true
        invariant Going(v, was, g) && Among(rest, g.worlds)
        decreases |rest|
      {
        ghost var budget := |rest|;
        v, rest, done := DropUsed(v, rest, was, g);
        if !done {
          return v.totalRoom, false;
        }
        if v.freecnt < |freePgs| {
          v, rest, done := SaveFreed(v, rest, was, g);
          if !done {
            return v.totalRoom, false;
          }
        } else {
          var empty := rest == [];
          v, more, rest, done := ReserveMore(v, more, rest, was, g);
          if done {
            AllCounted(v, recs, pglast, freePgs, txnid);
            return v.totalRoom, true;
          }
          if empty {
            return v.totalRoom, false;
          }
        }
      }
    }

    /** mdb_freelist_save.  Afterwards every page there was, and every page
        taken from the end of the file meanwhile, is listed in exactly one
        record or used by freeDB itself.  The lists of the records up to pglast,
        from the last one to the first, are the reclaimed and loose pages as the
        last touch has left them (`at`); the list of the transaction's own record
        is the pages it freed; the records in between are untouched. */
    method Save(worlds: seq<World>) returns (done: bool, ghost at: Place)
      requires Valid() && Unsaved()
      modifies this`recs, this`pglast, this`head, this`loose, this`freePgs, this`own, this`next
      ensures done ==> Here() == Place(at.pglast, head, [], at.own, at.next)
      ensures done ==> AllSaved(Start(old(Here()), old(Pool()), worlds), old(recs), at, freePgs, recs, head, txnid)
    {
      ghost var g, was := Start(Here(), Pool(), worlds), recs;
      var total;
      total, done := Reserve(worlds);
      at := Here();
      if !done {
        return;
      }
      GiveOut(total, g, was);
    }

    /** The end of mdb_freelist_save, with the records reserved. */
    method GiveOut(total: int, ghost g: Start, ghost was: seq<Rec>)
      requires Valid() && Since(g) && LaterKept(was, recs, pglast, txnid)
      requires Reserved(total, recs, pglast, freePgs, txnid) && total >= |head| + |loose|
      modifies this`recs, this`head, this`loose
      ensures Here() == Place(pglast, head, [], own, next)
      ensures AllSaved(g, was, old(Here()), freePgs, recs, head, txnid)
    {
      var merged, out := Distribute(head, loose, recs, pglast);
      SaveDone(g, was, Here(), freePgs, recs, out, merged, txnid);
      Install(out, merged);
    }

    method Install(out: seq<Rec>, merged: seq<int>)
      modifies this`recs, this`head, this`loose
      ensures recs == out && head == merged && Here() == Place(pglast, merged, [], own, next)
    {
      recs, head, loose := out, merged, [];
    }
  }

  /** The records up to last are empty and have room for total ids; the freed pages are saved. */
  ghost predicate Reserved(total: int, recs: seq<Rec>, last: int, freed: seq<int>, txnid: int) {
    && total == Room(recs, last) && FreedSaved(recs, txnid, freed)
    && forall r :: r in recs && r.id <= last ==> r.list == [] && r.room >= 0
  }

  lemma AllCounted(v: Locals, recs: seq<Rec>, last: int, freed: seq<int>, txnid: int)
    requires CountedIn(v, recs, last, freed, txnid) && v.pglast == last && v.freecnt >= |freed|
    ensures Reserved(v.totalRoom, recs, last, freed, txnid)
  {
    assert freed[..v.freecnt] == freed;
  }

  /** What mdb_freelist_save has done: `at` is how the lists stood at the start
      or after one of the worlds; the records up to there list exactly those
      reclaimed and loose pages; the freed pages are in the transaction's record;
      records in between are as they were; and no page is lost or doubled. */
  ghost predicate AllSaved(g: Start, was: seq<Rec>, at: Place, freed: seq<int>, recs: seq<Rec>, head: seq<int>, txnid: int) {
    && (at == g.place || exists w :: w in g.worlds && at == w.place)
    && Loose(head) && multiset(head) == multiset(at.head) + multiset(at.loose) && Joined(recs, at.pglast) == head
    && FreedSaved(recs, txnid, freed) && LaterKept(was, recs, at.pglast, txnid)
    && g.place.next <= at.next && Between(recs, 0, txnid) + at.own == g.pool + Fresh(g.place.next, at.next)
    && Keyed(recs) && 0 <= at.pglast < txnid && (forall r :: r in recs ==> 0 < r.id <= txnid)
  }

  lemma {:induction false} SaveDone(g: Start, was: seq<Rec>, at: Place, freed: seq<int>, recs: seq<Rec>,
                                    out: seq<Rec>, head: seq<int>, txnid: int)
    requires SinceAt(g, at, freed, recs, txnid) && IsFilled(recs, out, at.pglast) && FreedSaved(recs, txnid, freed)
    requires Keyed(recs) && 0 <= at.pglast < txnid && (forall r :: r in recs ==> 0 < r.id <= txnid)
    requires LaterKept(was, recs, at.pglast, txnid)
    requires Joined(out, at.pglast) == head && Loose(head) && multiset(head) == multiset(at.head) + multiset(at.loose)
    ensures AllSaved(g, was, at, freed, out, head, txnid)
  {
    FilledKeeps(was, recs, out, at.pglast, txnid, freed);
    SavedPool(g, at, freed, recs, out, head, txnid);
  }

  /** The transaction's record holds exactly the pages it freed; there is none if there are none. */
  ghost predicate FreedSaved(recs: seq<Rec>, id: int, pages: seq<int>) {
    if pages == [] then !Has(recs, id) else Saved(recs, id, pages)
  }

  lemma {:induction false} FilledBetween(recs: seq<Rec>, out: seq<Rec>, last: int, hi: int)
    requires IsFilled(recs, out, last)
    ensures Between(out, last, hi) == Between(recs, last, hi)
  {
    if recs != [] {
      assert IsFilled(recs[1..], out[1..], last);
      FilledBetween(recs[1..], out[1..], last, hi);
    }
  }

  lemma {:induction false} BetweenJoined(recs: seq<Rec>, last: int)
    requires forall r :: r in recs ==> r.id > 0
    ensures Between(recs, 0, last) == multiset(Joined(recs, last))
  {
    if recs != [] {
      assert recs[0] in recs;
      BetweenJoined(recs[1..], last);
    }
  }

  lemma {:induction false} BetweenNone(recs: seq<Rec>, lo: int, hi: int)
    requires forall x :: x in recs ==> !(lo < x.id <= hi)
    ensures Between(recs, lo, hi) == multiset{}
  {
    if recs != [] {
      assert recs[0] in recs;
      BetweenNone(recs[1..], lo, hi);
    }
  }

  /** The list of one record, by its key. */
  lemma {:induction false} BetweenOne(recs: seq<Rec>, r: Rec)
    requires Keyed(recs) && r in recs
    ensures Between(recs, r.id - 1, r.id) == multiset(r.list)
  {
    KeyedTail(recs);
    assert r == recs[0] || r in recs[1..];
    if recs[0] == r {
      BetweenNone(recs[1..], r.id - 1, r.id);
    } else {
      BetweenOne(recs[1..], r);
    }
  }

  lemma RecAt(recs: seq<Rec>, r: Rec)
    requires r in recs
    ensures Has(recs, r.id)
  {
    var p :| 0 <= p < |recs| && recs[p] == r;
  }

  lemma {:induction false} FreedListed(recs: seq<Rec>, id: int, pages: seq<int>)
    requires Keyed(recs) && FreedSaved(recs, id, pages)
    ensures Between(recs, id - 1, id) == multiset(pages)
  {
    if pages == [] {
      forall x | x in recs ensures x.id != id { RecAt(recs, x); }
      BetweenNone(recs, id - 1, id);
    } else {
      var r :| r in recs && r.id == id && Loose(r.list) && multiset(r.list) == multiset(pages);
      BetweenOne(recs, r);
    }
  }

  /** Every list of the records: reclaimed, unread, and freed by the transaction. */
  lemma {:induction false} AllListed(recs: seq<Rec>, head: seq<int>, last: int, txnid: int, pages: seq<int>)
    requires Keyed(recs) && 0 <= last < txnid && (forall r :: r in recs ==> 0 < r.id <= txnid)
    requires Joined(recs, last) == head && FreedSaved(recs, txnid, pages)
    ensures Between(recs, 0, txnid) == multiset(head) + Between(recs, last, txnid - 1) + multiset(pages)
  {
    BetweenSplit(recs, 0, last, txnid);
    BetweenSplit(recs, last, txnid - 1, txnid);
    BetweenJoined(recs, last);
    FreedListed(recs, txnid, pages);
  }

  /** What the fill-in makes of the pages there are. */
  lemma {:induction false} SavedPool(g: Start, at: Place, freed: seq<int>, recs: seq<Rec>, out: seq<Rec>,
                                     head: seq<int>, txnid: int)
    requires SinceAt(g, at, freed, recs, txnid) && IsFilled(recs, out, at.pglast)
    requires Keyed(out) && 0 <= at.pglast < txnid && (forall r :: r in out ==> 0 < r.id <= txnid)
    requires Joined(out, at.pglast) == head && FreedSaved(out, txnid, freed)
    requires multiset(head) == multiset(at.head) + multiset(at.loose)
    ensures Between(out, 0, txnid) + at.own == g.pool + Fresh(g.place.next, at.next)
  {
    FilledBetween(recs, out, at.pglast, txnid - 1);
    AllListed(out, head, at.pglast, txnid, freed);
    var b := Between(out, at.pglast, txnid - 1);
    assert multiset(head) + b + multiset(freed) + at.own
        == multiset(at.head) + multiset(at.loose) + multiset(freed) + at.own + b;
  }

  /** How the record at head_id is rewritten.  A record that holds a page's worth
      is left and the next key down taken, while there is one; the room then makes
      up what is missing, or is cut, or for more than a page's worth is the least
      number of whole pages that is an equal share of it. */
  predicate Rewritten(was: Locals, v: Locals, need: int, maxfree: int)
    requires maxfree > 0
  {
    var leave := was.totalRoom < need && was.headRoom >= maxfree && was.headId > 1;
    var others := was.totalRoom - (if leave then 0 else was.headRoom);
    var missing := need - others;
    && v.headId == (if leave then was.headId - 1 else was.headId)
    && v.totalRoom == others + v.headRoom
    && (if missing > maxfree && v.headId > 1 then
          var share := missing / v.headId;
          share <= v.headRoom <= share + maxfree && v.headRoom % (maxfree + 1) == maxfree
        else v.headRoom == if missing < 0 then 0 else missing)
  }

  /** Which record is rewritten, and how large it becomes. */
  method Resized(was: Locals, mopLen: int, maxfree: int) returns (v: Locals)
    requires maxfree > 0 && mopLen >= 0 && was.headId >= 1
    ensures v == Locals(was.pglast, v.headId, was.freecnt, v.headRoom, v.totalRoom)
    ensures Rewritten(was, v, mopLen, maxfree)
    ensures v.headRoom >= 0 && (v.headId == was.headId || v.headId == was.headId - 1 >= 1)
    ensures v.totalRoom == was.totalRoom - (if v.headId == was.headId then was.headRoom else 0) + v.headRoom
  {
    var headId, headRoom, totalRoom := was.headId, was.headRoom, was.totalRoom;
    if totalRoom < mopLen && headRoom >= maxfree && headId > 1 {
      headId, headRoom := headId - 1, 0;
    }
    totalRoom := totalRoom - headRoom;
    headRoom := mopLen - totalRoom;
    if headRoom > maxfree && headId > 1 {
      headRoom := Amortize(headRoom, headId, maxfree);
    } else if headRoom < 0 {
      headRoom := 0;
    }
    v := Locals(was.pglast, headId, was.freecnt, headRoom, totalRoom + headRoom);
  }

  /** Room for part of the pages, spread over the keys that are left, in whole pages. */
  function Amortize(room: int, keys: int, maxfree: int): (r: int)
    requires room > maxfree > 0 && keys > 1
    ensures r >= 0
    ensures r % (maxfree + 1) == maxfree && room / keys <= r <= room / keys + maxfree
  {
    var share := room / keys;
    AmortizeFacts(room, keys, maxfree);
    share + (maxfree - share % (maxfree + 1))
  }

  lemma AmortizeFacts(room: int, keys: int, maxfree: int)
    requires room > maxfree > 0 && keys > 1
    ensures var share := room / keys;
      && share >= 0 && share % (maxfree + 1) <= maxfree
      && (share + (maxfree - share % (maxfree + 1))) % (maxfree + 1) == maxfree
  {
    var share, n := room / keys, maxfree + 1;
    DivNonNeg(room, keys);
    var q := share / n;
    assert share == n * q + share % n;
    assert share + (maxfree - share % n) == n * q + maxfree;
    ModOf(q, n, maxfree);
  }

  lemma DivNonNeg(a: int, b: int)
    requires a >= 0 && b > 0
    ensures a / b >= 0
  {
  }

  lemma ModOf(q: int, n: int, r: int)
    requires 0 <= r < n
    ensures (n * q + r) % n == r
  {
    var k, m := (n * q + r) / n, (n * q + r) % n;
    Multiple(n, q, k, r, m);
  }

  lemma Multiple(n: int, q: int, k: int, r: int, m: int)
    requires 0 <= r < n && 0 <= m < n && n * q + r == n * k + m
    ensures r == m
  {
    var d := k - q;
    assert n * d == r - m;
    if d > 0 { Grows(n, d); }
    if d < 0 { Grows(n, -d); }
  }

  lemma Grows(n: int, d: int)
    requires n > 0 && d > 0
    ensures n * d >= n
  {
  }

  lemma InitiallyCounted(recs: seq<Rec>, last: int, pages: seq<int>, txnid: int)
    requires forall r :: r in recs ==> r.id > 0
    requires 0 <= last && (last > 0 ==> Has(recs, last)) && !Has(recs, txnid)
    ensures CountedIn(Locals(0, 0, 0, 0, 0), recs, last, pages, txnid)
  {
    NoRoom(recs, 0, 0);
  }

  /** mdb_midl_sort of the freed pages. */
  method SortIds(s: seq<int>) returns (t: seq<int>)
    requires |s| < COUNT_LIMIT
    ensures Loose(t) && multiset(t) == multiset(s)
  {
    var list := new IdList(|s|);
    var i := 0;
    while i < |s|
      invariant 0 <= i <= |s| && list.Valid() && fresh(list) && fresh(list.ids) && list.Ids() == s[..i]
    {
      list.Append(s[i]);
      i := i + 1;
    }
    assert s[..i] == s;
    list.Sort();
    t := list.Ids();
  }

  lemma {:induction false} PutSaved(v: Locals, recs: seq<Rec>, last: int, pages: seq<int>, txnid: int, was: seq<Rec>,
                                    list: seq<int>,
                                    after: seq<Rec>)
    requires RecsOk(recs, txnid) && CountedIn(v, recs, last, pages, txnid) && last < txnid && LaterKept(was, recs, last, txnid)
    requires Loose(list) && multiset(list) == multiset(pages) && pages != [] && after == Put(recs, Rec(txnid, |pages|, list))
    ensures RecsOk(after, txnid) && LaterKept(was, after, last, txnid)
    ensures CountedIn(v.(freecnt := |pages|), after, last, pages, txnid)
  {
    var r := Rec(txnid, |pages|, list);
    PutIs(recs, r);
    PutRoom(recs, r, v.pglast);
    assert pages[..|pages|] == pages;
    assert r in Put(recs, r);
    RoomOfOthers(recs, r, v.headId);
    if v.pglast < last {
      HasStays(recs, r, last);
    }
  }

  lemma {:induction false} HasStays(recs: seq<Rec>, r: Rec, id: int)
    requires Keyed(recs) && Has(recs, id)
    ensures Has(Put(recs, r), id)
  {
    PutIs(recs, r);
    var p :| 0 <= p < |recs| && recs[p].id == id;
    var x := if id == r.id then r else recs[p];
    assert x in Put(recs, r);
    var q :| 0 <= q < |Put(recs, r)| && Put(recs, r)[q] == x;
  }

  lemma {:induction false} RoomOfOthers(recs: seq<Rec>, r: Rec, id: int)
    requires id != r.id
    ensures RoomOf(Put(recs, r), id) == RoomOf(recs, id)
  {
    if recs != [] { RoomOfOthers(recs[1..], r, id); }
  }

  lemma {:induction false} PutReserved(v: Locals, recs: seq<Rec>, last: int, pages: seq<int>, txnid: int,
                                       was: seq<Rec>, headId: int, room: int,
                                       after: seq<Rec>)
    requires RecsOk(recs, txnid) && CountedIn(v, recs, last, pages, txnid) && 0 < v.pglast == last < txnid
    requires LaterKept(was, recs, last, txnid) && room >= 0 && after == Put(recs, Rec(headId, room, []))
    requires headId == v.headId || headId == v.headId - 1 >= 1
    ensures RecsOk(after, txnid) && LaterKept(was, after, last, txnid)
    ensures var before := if headId == v.headId then v.headRoom else 0;
      CountedIn(Locals(v.pglast, headId, v.freecnt, room, v.totalRoom - before + room), after, last, pages, txnid)
  {
    var r := Rec(headId, room, []);
    PutIs(recs, r);
    PutRoom(recs, r, last);
    if headId < v.headId {
      forall p | 0 <= p < |recs| ensures recs[p].id > headId { assert recs[p] in recs; }
      NoRoom(recs, headId, headId);
    }
    var before := if headId == v.headId then v.headRoom else 0;
    Recounted(v, recs, after, r, last, pages, txnid, v.totalRoom - before + room);
  }

  /** The bookkeeping after a record has been put below the others, or again. */
  lemma {:induction false} Recounted(v: Locals, recs: seq<Rec>, after: seq<Rec>, r: Rec, last: int, pages: seq<int>, txnid: int,
                                     total: int)
    requires CountedIn(v, recs, last, pages, txnid) && 0 < v.pglast == last < txnid
    requires r.list == [] && r.room >= 0 && (r.id == v.headId || r.id == v.headId - 1 >= 1)
    requires forall x :: x in after <==> x == r || (x in recs && x.id != r.id)
    requires total == Room(after, last) && RoomOf(after, r.id) == r.room && r.id < txnid
    ensures CountedIn(Locals(v.pglast, r.id, v.freecnt, r.room, total), after, last, pages, txnid)
  {
    if v.freecnt == 0 && Has(after, txnid) {
      var p :| 0 <= p < |after| && after[p].id == txnid;
      assert after[p] in after;
      RecAt(recs, after[p]);
    }
  }

  /** The loop's invariant: the room counted is the room there is, for empty
      records with keys from head_id to pglast, and the record of this
      transaction holds the pages counted. */
  ghost predicate CountedIn(v: Locals, recs: seq<Rec>, last: int, freePgs: seq<int>, txnid: int) {
    && 0 <= v.pglast <= last && (v.pglast < last ==> Has(recs, last))
    && v.totalRoom == Room(recs, v.pglast) && v.headRoom == RoomOf(recs, v.headId)
    && (if v.pglast == 0 then v.headId == 0 else 1 <= v.headId <= v.pglast)
    && (forall r :: r in recs && r.id <= v.pglast ==> v.headId <= r.id && r.list == [] && r.room >= 0)
    && 0 <= v.freecnt <= |freePgs|
    && (if v.freecnt > 0 then Saved(recs, txnid, freePgs[..v.freecnt]) else !Has(recs, txnid))
  }

  /** Records saving has no business with: later than what was read. */
  ghost predicate LaterKept(was: seq<Rec>, recs: seq<Rec>, last: int, txnid: int) {
    forall r: Rec :: last < r.id < txnid ==> (r in recs <==> r in was)
  }

  lemma TouchKeeps(v: Locals, recs: seq<Rec>, last: int, last': int, pages: seq<int>, pages': seq<int>, txnid: int)
    requires CountedIn(v, recs, last, pages, txnid) && pages <= pages'
    requires last <= last' && (last == last' || Has(recs, last'))
    ensures CountedIn(v, recs, last', pages', txnid)
  {
    assert pages'[..v.freecnt] == pages[..v.freecnt];
  }

  lemma DropKeeps(v: Locals, recs: seq<Rec>, last: int, pages: seq<int>, txnid: int, was: seq<Rec>)
    requires Keyed(recs) && CountedIn(v, recs, last, pages, txnid) && v.pglast < last < txnid
    requires LaterKept(was, recs, last, txnid) && forall r :: r in recs ==> 0 < r.id <= txnid
    ensures recs != [] && recs[0].id <= last && Keyed(recs[1..]) && forall r :: r in recs[1..] ==> 0 < r.id <= txnid
    ensures CountedIn(Locals(recs[0].id, recs[0].id, v.freecnt, 0, 0), recs[1..], last, pages, txnid)
    ensures LaterKept(was, recs[1..], last, txnid)
  {
    FirstUsed(recs, last);
    assert recs[0] in recs;
    DropFirst(recs, v.headId, recs[0].id);
    SavedStays(recs, txnid, pages[..v.freecnt]);
  }

  /** pglast, head_id, freecnt, head_room and total_room. */
  datatype Locals = Locals(pglast: int, headId: int, freecnt: int, headRoom: int, totalRoom: int)

  ghost predicate Saved(recs: seq<Rec>, id: int, pages: seq<int>) {
    exists r :: r in recs && r.id == id && Loose(r.list) && multiset(r.list) == multiset(pages)
  }

  /** mdb_tassert(pglast <= me_pglast): the first record is one that was read. */
  lemma FirstUsed(recs: seq<Rec>, pglast: int)
    requires Keyed(recs) && Has(recs, pglast)
    ensures recs != [] && recs[0].id <= pglast
    ensures recs[0].id < pglast ==> Has(recs[1..], pglast)
  {
    var p :| 0 <= p < |recs| && recs[p].id == pglast;
    if p > 0 { assert recs[1..][p - 1] == recs[p]; }
  }

  lemma {:induction false} DropFirst(recs: seq<Rec>, id: int, key: int)
    requires Keyed(recs) && recs != [] && key == recs[0].id
    ensures Keyed(recs[1..]) && Room(recs[1..], key) == 0 && RoomOf(recs[1..], key) == 0
    ensures forall r :: r in recs[1..] <==> r in recs && r.id != key
    ensures forall r :: r in recs[1..] ==> r.id > key
  {
    NoRoom(recs[1..], key, key);
    assert recs == [recs[0]] + recs[1..];
    forall r ensures r in recs[1..] <==> r in recs && r.id != key {
      if r in recs[1..] {
        var p :| 0 <= p < |recs| - 1 && recs[1..][p] == r;
        assert recs[p + 1] == r;
      }
    }
  }

  lemma SavedStays(recs: seq<Rec>, id: int, pages: seq<int>)
    requires Keyed(recs) && recs != []
    ensures recs[0].id != id && Saved(recs, id, pages) ==> Saved(recs[1..], id, pages)
  {
    assert recs == [recs[0]] + recs[1..];
  }

  // ---------------------------------------------------------------- loose pages

  /** Loose page numbers return to the reclaimed ones.  They are listed in the
      spare room at the end of the same array, where the merge does not reach. */
  method ReturnLoose(head: IdList, loosePgs: seq<int>)
    requires head.Valid() && Loose(head.Ids()) && AreIds(head.Ids()) && AreIds(loosePgs)
    requires |head.Ids()| + 2 * |loosePgs| + 1 < COUNT_LIMIT
    modifies head, head.ids
    ensures head.ids == old(head.ids) || fresh(head.ids)
    ensures head.Valid() && Loose(head.Ids()) && multiset(head.Ids()) == multiset(old(head.Ids())) + multiset(loosePgs)
  {
    var count := |loosePgs|;
    ghost var was := head.Ids();
    head.Need(2 * count + 1);
    var loose := SortIds(loosePgs);
    SortedIds(loosePgs, loose);
    MergeSpare(head.ids, loose, was);
  }

  method MergeSpare(ids: array<int>, loose: seq<int>, ghost was: seq<int>)
    requires 0 < ids.Length && 0 <= ids[0] && ids[0] + 2 * |loose| + 1 < ids.Length && was == Held(ids)
    requires Loose(was) && AreIds(was) && Loose(loose) && AreIds(loose) && |was| + |loose| < COUNT_LIMIT
    modifies ids
    ensures 0 <= ids[0] < ids.Length && ids[0] < COUNT_LIMIT
    ensures Loose(Held(ids)) && multiset(Held(ids)) == multiset(was) + multiset(loose)
  {
    WriteSpare(ids, loose, was);
    MergeTo(ids, ids, ids.Length - 1 - |loose|);
  }

  lemma SortedIds(s: seq<int>, t: seq<int>)
    requires AreIds(s) && multiset(s) == multiset(t)
    ensures AreIds(t) && |t| == |s|
  {
    assert |multiset(s)| == |s| && |multiset(t)| == |t|;
    forall k | 0 <= k < |t| ensures 0 <= t[k] < SENTINEL {
      assert t[k] in multiset(s);
    }
  }

  /** loose = mop + alloclen - count */
  method WriteSpare(ids: array<int>, loose: seq<int>, ghost was: seq<int>)
    requires 0 < ids.Length && 0 <= ids[0] && ids[0] + 2 * |loose| + 1 < ids.Length && was == Held(ids)
    modifies ids
    ensures var off := ids.Length - 1 - |loose|;
      && ids[0] + |loose| < off && ids[0] == old(ids[0]) && Held(ids) == was && ids[off] == |loose| && HeldAt(ids, off) == loose
  {
    var off, n := ids.Length - 1 - |loose|, ids[0];
    forall k | off < k < ids.Length {
      ids[k] := loose[k - off - 1];
    }
    ids[off] := |loose|;
    assert HeldAt(ids, off) == loose;
    assert Held(ids) == was;
  }

  // ---------------------------------------------------------------- filling in

  /** The lists of the records up to last, the last record's first. */
  function Joined(recs: seq<Rec>, last: int): seq<int> {
    if recs == [] then [] else Joined(recs[1..], last) + (if recs[0].id <= last then recs[0].list else [])
  }

  lemma {:induction false} JoinedConcat(a: seq<Rec>, b: seq<Rec>, last: int)
    ensures Joined(a + b, last) == Joined(b, last) + Joined(a, last)
  {
    if a == [] {
      assert a + b == b;
    } else {
      assert (a + b)[1..] == a[1..] + b;
      JoinedConcat(a[1..], b, last);
    }
  }

  lemma {:induction false} JoinedOne(r: Rec, last: int)
    ensures Joined([r], last) == if r.id <= last then r.list else []
  {
    assert [r][1..] == [];
  }

  lemma {:induction false} JoinedNone(recs: seq<Rec>, last: int)
    requires forall p :: 0 <= p < |recs| ==> recs[p].id > last || recs[p].list == []
    ensures Joined(recs, last) == []
  {
    if recs != [] { JoinedNone(recs[1..], last); }
  }

  /** One record takes the ids before index m.  Its length is written over the
      element before them while it is copied, and that element is put back. */
  method FillOne(mop: array<int>, r: Rec, m: int, ghost s: seq<int>) returns (filled: Rec, m': int)
    requires 0 <= m < mop.Length && r.room >= 0 && mop[..] == s
    modifies mop
    ensures mop[..] == s
    ensures m' == m - (if r.room > m then m else r.room) >= 0
    ensures filled == Rec(r.id, m - m', s[m' + 1..m + 1])
  {
    var len := r.room;
    if len > m {
      len := m;
    }
    m' := m - len;
    var save := mop[m'];
    mop[m'] := len;
    var data := mop[m'..m + 1];
    assert data[0] == len && data[1..] == s[m' + 1..m + 1];
    filled := Rec(r.id, len, data[1..]);
    mop[m'] := save;
    assert mop[..] == s;
  }

  /** Every page of the reclaimed list goes to exactly one reserved record, in
      order, and the list itself is as before. */
  method FillIn(mop: array<int>, recs: seq<Rec>, last: int) returns (out: seq<Rec>)
    requires 0 < mop.Length && 0 <= mop[0] < mop.Length && Keyed(recs) && Room(recs, last) >= mop[0]
    requires forall r :: r in recs && r.id <= last ==> r.list == [] && r.room >= 0
    modifies mop
    ensures mop[..] == old(mop[..])
    ensures IsFilled(recs, out, last)
    ensures Joined(out, last) == Held(mop)
  {
    ghost var s := mop[..];
    FillStart(recs, s, last);
    ghost var i, done;
    out, i, done := FillLoop(mop, recs, mop[0], last, s);
    FillDone(recs, out, done, i, s, last);
    assert Held(mop) == s[1..s[0] + 1];
  }

  method FillLoop(mop: array<int>, recs: seq<Rec>, m0: int, last: int, ghost s: seq<int>)
    returns (out: seq<Rec>, ghost at: int, ghost done: seq<Rec>)
    requires mop[..] == s && Filling(recs, recs, [], 0, m0, s, last) && Keyed(recs) && RoomsOk(recs, last)
    modifies mop
    ensures mop[..] == s && Filling(recs, out, done, at, 0, s, last)
  {
    var m, i := m0, 0;
    out, done := recs, [];
    while m > 0
      invariant mop[..] == s && Filling(recs, out, done, i, m, s, last)
      decreases |recs| - i
    {
      out, m, done := FillNext(mop, recs, out, i, m, last, s, done);
      i := i + 1;
    }
    at := i;
  }

  method FillNext(mop: array<int>, recs: seq<Rec>, out0: seq<Rec>, i: int, m0: int, last: int, ghost s: seq<int>,
                  ghost done0: seq<Rec>)
    returns (out: seq<Rec>, m: int, ghost done: seq<Rec>)
    requires mop[..] == s && Filling(recs, out0, done0, i, m0, s, last) && m0 > 0 && Keyed(recs) && RoomsOk(recs, last)
    modifies mop
    ensures mop[..] == s && i < |recs| && Filling(recs, out, done, i + 1, m, s, last)
  {
    NextReserved(recs, i, last);
    var r;
    r, m := FillOne(mop, recs[i], m0, s);
    FillStep(recs, out0, done0, i, m0, s, last, r, m);
    done := done0 + [r];
    out := out0[i := r];
  }

  lemma {:induction false} FillStart(recs: seq<Rec>, s: seq<int>, last: int)
    requires 0 < |s| && 0 <= s[0] < |s| && Room(recs, last) >= s[0]
    ensures Filling(recs, recs, [], 0, s[0], s, last)
  {
    assert recs[0..] == recs;
  }

  /** Records up to i hold the ids from m on; the others have room for the rest. */
  ghost predicate Filling(recs: seq<Rec>, out: seq<Rec>, done: seq<Rec>, i: int, m: int, s: seq<int>, last: int) {
    && 0 <= i <= |recs| && |done| == i && 0 < |s| && 0 <= m <= s[0] < |s|
    && out == done + recs[i..] && Room(recs[i..], last) >= m
    && (forall p :: 0 <= p < i ==> recs[p].id <= last && Filled(done[p], recs[p]))
    && Joined(done, last) == s[m + 1..s[0] + 1]
  }

  lemma {:induction false} FillStep(recs: seq<Rec>, out: seq<Rec>, done: seq<Rec>, i: int, m: int, s: seq<int>,
                                    last: int, r: Rec, n: int)
    requires Filling(recs, out, done, i, m, s, last) && i < |recs| && recs[i].id <= last && recs[i].room >= 0
    requires Room(recs[i..], last) == recs[i].room + Room(recs[i + 1..], last)
    requires n == m - (if recs[i].room > m then m else recs[i].room) && r == Rec(recs[i].id, m - n, s[n + 1..m + 1])
    requires Room(recs[i + 1..], last) >= 0
    ensures Filling(recs, out[i := r], done + [r], i + 1, n, s, last)
  {
    FillOut(recs, done, i, r);
    FillJoined(done, r, last, s, n, m);
  }

  lemma FillOut(recs: seq<Rec>, done: seq<Rec>, i: int, r: Rec)
    requires 0 <= i < |recs| && |done| == i
    ensures (done + recs[i..])[i := r] == done + [r] + recs[i + 1..]
  {
  }

  lemma {:induction false} FillJoined(done: seq<Rec>, r: Rec, last: int, s: seq<int>, n: int, m: int)
    requires 0 < |s| && 0 <= n <= m <= s[0] < |s| && r.id <= last && r.list == s[n + 1..m + 1]
    requires Joined(done, last) == s[m + 1..s[0] + 1]
    ensures Joined(done + [r], last) == s[n + 1..s[0] + 1]
  {
    JoinedConcat(done, [r], last);
    JoinedOne(r, last);
    assert s[n + 1..s[0] + 1] == s[n + 1..m + 1] + s[m + 1..s[0] + 1];
  }

  lemma {:induction false} RoomNat(recs: seq<Rec>, last: int)
    requires forall r :: r in recs && r.id <= last ==> r.room >= 0
    ensures Room(recs, last) >= 0
  {
    if recs != [] {
      assert recs[0] in recs;
      RoomNat(recs[1..], last);
    }
  }

  lemma {:induction false} FillDone(recs: seq<Rec>, out: seq<Rec>, done: seq<Rec>, i: int, s: seq<int>, last: int)
    requires Filling(recs, out, done, i, 0, s, last)
    requires forall r :: r in recs && r.id <= last ==> r.list == [] && r.room >= 0
    ensures Joined(out, last) == s[1..s[0] + 1]
    ensures IsFilled(recs, out, last)
  {
    JoinedConcat(done, recs[i..], last);
    forall p | 0 <= p < |recs| - i ensures recs[i..][p] in recs { assert recs[i..][p] == recs[i + p]; }
    JoinedNone(recs[i..], last);
    forall p | 0 <= p < |recs| ensures if recs[p].id > last then out[p] == recs[p] else Filled(out[p], recs[p]) {
      assert recs[p] in recs;
      if p >= i { assert out[p] == recs[i..][p - i]; }
    }
  }

  /** A record's list fits the record, or the record was cut down to it. */
  predicate Filled(r: Rec, was: Rec) { r.id == was.id && |r.list| <= r.room <= was.room }

  /** Records up to last are filled, the others are as they were. */
  ghost predicate IsFilled(recs: seq<Rec>, out: seq<Rec>, last: int) {
    |out| == |recs| && forall p :: 0 <= p < |recs| ==> if recs[p].id > last then out[p] == recs[p] else Filled(out[p], recs[p])
  }

  ghost predicate RoomsOk(recs: seq<Rec>, last: int) { forall r :: r in recs && r.id <= last ==> r.room >= 0 }

  /** While pages are left, the next record is one reserved for them. */
  lemma {:induction false} NextReserved(recs: seq<Rec>, i: int, last: int)
    requires 0 <= i <= |recs| && Keyed(recs) && Room(recs[i..], last) > 0 && RoomsOk(recs, last)
    ensures i < |recs| && recs[i].id <= last && recs[i].room >= 0
    ensures Room(recs[i..], last) == recs[i].room + Room(recs[i + 1..], last) && Room(recs[i + 1..], last) >= 0
  {
    if i == |recs| || recs[i].id > last {
      NoRoom(recs[i..], last, last);
    }
    assert recs[i] in recs;
    assert forall r :: r in recs[i + 1..] ==> r in recs;
    RoomNat(recs[i + 1..], last);
    assert recs[i..][1..] == recs[i + 1..];
  }

  /** The loose pages return to the list, and the list goes to the records. */
  method Distribute(head: seq<int>, loose: seq<int>, recs: seq<Rec>, last: int) returns (merged: seq<int>, out: seq<Rec>)
    requires Lists(head, loose) && Keyed(recs) && Room(recs, last) >= |head| + |loose|
    requires forall r :: r in recs && r.id <= last ==> r.list == [] && r.room >= 0
    ensures Loose(merged) && multiset(merged) == multiset(head) + multiset(loose) && Joined(out, last) == merged
    ensures IsFilled(recs, out, last)
  {
    var list := new IdList(|head|);
    CopyIn(list, head);
    if loose != [] {
      ReturnLoose(list, loose);
    }
    merged := list.Ids();
    SameSize(merged, head, loose);
    assert Held(list.ids) == merged;
    out := FillIn(list.ids, recs, last);
  }

  method CopyIn(list: IdList, s: seq<int>)
    requires list.Valid() && list.Ids() == [] && list.Capacity() == |s| && |s| < COUNT_LIMIT
    modifies list.ids
    ensures list.Valid() && list.Ids() == s
  {
    var ids := list.ids;
    forall k | 1 <= k <= |s| {
      ids[k] := s[k - 1];
    }
    ids[0] := |s|;
  }

  lemma SameSize(t: seq<int>, head: seq<int>, loose: seq<int>)
    requires multiset(t) == multiset(head) + multiset(loose)
    ensures |t| == |head| + |loose|
  {
    assert |multiset(t)| == |t| && |multiset(head)| == |head| && |multiset(loose)| == |loose|;
  }

  lemma FilledKeeps(was: seq<Rec>, recs: seq<Rec>, out: seq<Rec>, last: int, txnid: int, pages: seq<int>)
    requires IsFilled(recs, out, last)
    requires LaterKept(was, recs, last, txnid) && last < txnid
    ensures LaterKept(was, out, last, txnid)
    ensures Saved(recs, txnid, pages) ==> Saved(out, txnid, pages)
    ensures Has(recs, txnid) <==> Has(out, txnid)
    ensures Keyed(recs) ==> Keyed(out)
    ensures (forall r :: r in recs ==> 0 < r.id <= txnid) ==> forall r :: r in out ==> 0 < r.id <= txnid
  {
    forall r: Rec | last < r.id ensures r in out <==> r in recs {
      if r in out {
        var p :| 0 <= p < |out| && out[p] == r;
        assert recs[p] == r;
      }
      if r in recs {
        var p :| 0 <= p < |recs| && recs[p] == r;
        assert out[p] == r;
      }
    }
  }
}
