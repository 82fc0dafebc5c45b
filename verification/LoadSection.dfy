/** The loop of mdb_load over a data section, and what it makes of a dump. */
module LoadSection {
  import opened DumpFormat
  import opened LoadLine
  import opened LoadInput
  import opened Wrappers

  /** What has been read, followed by what is still to be read. */
  function Joined(ps: seq<Pair>, r: (seq<Pair>, Option<Outcome>)): (seq<Pair>, Option<Outcome>) {
    (ps + r.0, r.1)
  }

  lemma JoinedOnce(ps: seq<Pair>, q: Pair, r: (seq<Pair>, Option<Outcome>))
    ensures Joined(ps, ([q] + r.0, r.1)) == Joined(ps + [q], r)
    ensures Joined([], r) == r
  {
    assert ps + ([q] + r.0) == (ps + [q]) + r.0;
    assert [] + r.0 == r.0;
  }

  /** One round of the loop of mdb_load: another pair, with the input after it
      and the sizes of the two buffers, or the last line.  Wild: readline leaves
      its buffer. */
  datatype Turn = More(p: Pair, rest: Bytes, ks: nat, ds: nat) | Stop(o: Outcome) | Wild

  function TurnOf(s: Bytes, text: bool, header: bool, ks: nat, ds: nat): Turn
    requires ks >= 2 && ds >= 2
  {
    var k := ReadAny(s, text, header, ks);
    if k.None? then Wild
    else if !k.value.0.Value? then Stop(k.value.0)
    else
      var d := ReadAny(k.value.0.rest, text, header, ds);
      if d.None? then Wild else DataTurn(k.value.0.v, k.value.1, d.value)
  }

  function DataTurn(key: Bytes, ks: nat, d: (Outcome, nat)): Turn {
    if d.0.Value? then More(Pair(key, d.0.v), d.0.rest, ks, d.1) else Stop(d.0)
  }

  lemma TurnShortens(s: Bytes, text: bool, header: bool, ks: nat, ds: nat)
    requires ks >= 2 && ds >= 2 && TurnOf(s, text, header, ks, ds).More?
    ensures var t := TurnOf(s, text, header, ks, ds); |t.rest| < |s| && t.ks >= 2 && t.ds >= 2
  {
    AnyShortens(s, text, header, ks);
    AnyShortens(ReadAny(s, text, header, ks).value.0.rest, text, header, ds);
  }

  /** What the loop reads from any input. */
  function LoadAny(s: Bytes, text: bool, header: bool, ks: nat, ds: nat): (seq<Pair>, Option<Outcome>)
    requires ks >= 2 && ds >= 2
    decreases |s|
  {
    match TurnOf(s, text, header, ks, ds)
    case Wild => ([], None)
    case Stop(o) => ([], Some(o))
    case More(p, rest, k, d) =>
      TurnShortens(s, text, header, ks, ds);
      var r := LoadAny(rest, text, header, k, d);
      ([p] + r.0, r.1)
  }

  lemma RestNoZero(s: Bytes, text: bool, header: bool)
    requires NoZero(s) && Read(s, text, header).Value?
    ensures NoZero(Read(s, text, header).rest)
  {
  }

  /** Without a 0 in the input a round reads two strings. */
  lemma PlainTurn(s: Bytes, text: bool, header: bool, ks: nat, ds: nat)
    requires NoZero(s) && ks >= 2 && ds >= 2
    ensures var t, k := TurnOf(s, text, header, ks, ds), Read(s, text, header);
      if !k.Value? then t == Stop(k)
      else var d := Read(k.rest, text, header);
        if !d.Value? then t == Stop(d) else t.More? && t.p == Pair(k.v, d.v) && t.rest == d.rest && NoZero(t.rest)
  {
    PlainRead(s, text, header, ks);
    var k := Read(s, text, header);
    if k.Value? {
      RestNoZero(s, text, header);
      PlainRead(k.rest, text, header, ds);
      if Read(k.rest, text, header).Value? {
        RestNoZero(k.rest, text, header);
      }
    }
  }

  /** If there is no 0 in the input, the sizes of the buffers do not matter: each line is a string. */
  lemma {:induction false} PlainLoad(s: Bytes, text: bool, header: bool, ks: nat, ds: nat)
    requires NoZero(s) && ks >= 2 && ds >= 2
    ensures LoadAny(s, text, header, ks, ds).0 == ReadPairs(s, text, header).0
    ensures LoadAny(s, text, header, ks, ds).1 == Some(ReadPairs(s, text, header).1)
    decreases |s|
  {
    PlainTurn(s, text, header, ks, ds);
    var t := TurnOf(s, text, header, ks, ds);
    if t.More? {
      TurnShortens(s, text, header, ks, ds);
      PlainLoad(t.rest, text, header, t.ks, t.ds);
    }
  }

  /** Two calls of readline. */
  method ReadPair(l: Loader, kbuf: Buffer, dbuf: Buffer, ghost t: Turn) returns (ok: bool, p: Pair)
    requires kbuf.Valid() && dbuf.Valid() && kbuf != dbuf && kbuf.data != dbuf.data
    requires t == TurnOf(l.input, l.text, !l.noHeader, kbuf.size, dbuf.size) && t != Wild
    modifies l`input, l`eof, l`lineno, kbuf, kbuf.data, dbuf, dbuf.data
    ensures kbuf.Valid() && dbuf.Valid() && kbuf.data != dbuf.data
    ensures (kbuf.data == old(kbuf.data) || fresh(kbuf.data)) && (dbuf.data == old(dbuf.data) || fresh(dbuf.data))
    ensures ok == t.More? && (ok ==> t == More(p, l.input, kbuf.size, dbuf.size))
    ensures l.eof == (old(l.eof) || t == Stop(Failed))
  {
    p := Pair([], []);
    ghost var k := ReadAny(l.input, l.text, !l.noHeader, kbuf.size).value;
    KeyTurn(l.input, l.text, !l.noHeader, kbuf.size, dbuf.size, t, k);
    var n;
    ok, n := l.ReadLine(kbuf, k);
    if ok {
      ok, p := ReadData(l, kbuf.data[..n], kbuf, dbuf, t);
    }
  }

  /** The data line of a pair. */
  method ReadData(l: Loader, key: Bytes, kbuf: Buffer, dbuf: Buffer, ghost t: Turn) returns (ok: bool, p: Pair)
    requires dbuf.Valid() && kbuf != dbuf && kbuf.data != dbuf.data
    requires var d := ReadAny(l.input, l.text, !l.noHeader, dbuf.size);
      d.Some? && t == DataTurn(key, kbuf.size, d.value)
    modifies l`input, l`eof, l`lineno, dbuf, dbuf.data
    ensures dbuf.Valid() && (dbuf.data == old(dbuf.data) || fresh(dbuf.data))
    ensures ok == t.More? && (ok ==> t == More(p, l.input, kbuf.size, dbuf.size))
    ensures l.eof == (old(l.eof) || t == Stop(Failed))
  {
    ghost var d := ReadAny(l.input, l.text, !l.noHeader, dbuf.size).value;
    var m;
    ok, m := l.ReadLine(dbuf, d);
    p := if ok then Pair(key, dbuf.data[..m]) else Pair([], []);
  }

  lemma KeyTurn(s: Bytes, text: bool, header: bool, ks: nat, ds: nat, t: Turn, k: (Outcome, nat))
    requires ks >= 2 && ds >= 2 && t == TurnOf(s, text, header, ks, ds) && t != Wild
    requires ReadAny(s, text, header, ks) == None || ReadAny(s, text, header, ks) == Some(k)
    ensures ReadAny(s, text, header, ks) == Some(k)
    ensures !k.0.Value? ==> t == Stop(k.0)
    ensures k.0.Value? ==>
      var d := ReadAny(k.0.rest, text, header, ds);
      d.Some? && t == DataTurn(k.0.v, k.1, d.value)
  {
  }

  /** The pairs of a section, in the order in which they are put into the tree. */
  method LoadPairs(l: Loader, kbuf: Buffer, dbuf: Buffer) returns (ps: seq<Pair>)
    requires kbuf.Valid() && dbuf.Valid() && kbuf != dbuf && kbuf.data != dbuf.data
    requires LoadAny(l.input, l.text, !l.noHeader, kbuf.size, dbuf.size).1.Some?
    modifies l`input, l`eof, l`lineno, kbuf, kbuf.data, dbuf, dbuf.data
    ensures var r := LoadAny(old(l.input), l.text, !l.noHeader, old(kbuf.size), old(dbuf.size));
      ps == r.0 && (l.eof <==> old(l.eof) || r.1 == Some(Failed))
  {
    ghost var all := LoadAny(l.input, l.text, !l.noHeader, kbuf.size, dbuf.size);
    ps := [];
    var more := true;
    JoinedOnce([], Pair([], []), all);
    while more
      invariant kbuf.Valid() && dbuf.Valid() && kbuf.data != dbuf.data
      invariant kbuf.data == old(kbuf.data) || fresh(kbuf.data)
      invariant dbuf.data == old(dbuf.data) || fresh(dbuf.data)
      invariant if more
        then l.eof == old(l.eof) && all == Joined(ps, LoadAny(l.input, l.text, !l.noHeader, kbuf.size, dbuf.size))
        else ps == all.0 && l.eof == (old(l.eof) || all.1 == Some(Failed))
      decreases more, |l.input|
    {
      ghost var s, ks, ds := l.input, kbuf.size, dbuf.size;
      var p;
      more, p := ReadPair(l, kbuf, dbuf, TurnOf(s, l.text, !l.noHeader, ks, ds));
      if more {
        TurnShortens(s, l.text, !l.noHeader, ks, ds);
        JoinedOnce(ps, p, LoadAny(l.input, l.text, !l.noHeader, kbuf.size, dbuf.size));
        ps := ps + [p];
      }
    }
  }

  lemma {:induction false} DumpIsText(ps: seq<Pair>, text: bool, p: bv8 -> bool)
    requires Printing(p)
    ensures NoZero(Section(ps, text, p))
  {
    if ps != [] {
      BodyPlain(ps[0].key, text, p);
      BodyPlain(ps[0].data, text, p);
      DumpIsText(ps[1..], text, p);
    }
  }

  /** Loading what has been dumped gives the pairs back, whatever the lengths of their lines. */
  method LoadDumped(ps: seq<Pair>, text: bool, isprint: bv8 -> bool) returns (qs: seq<Pair>, l: Loader)
    requires Printing(isprint)
    ensures qs == ps && !l.eof
  {
    l := new Loader(Section(ps, text, isprint), false, text);
    var kbuf := new Buffer(1024);
    var dbuf := new Buffer(4096);
    DumpIsText(ps, text, isprint);
    SectionBack(ps, text, isprint, []);
    assert Section(ps, text, isprint) + [] == Section(ps, text, isprint);
    PlainLoad(l.input, text, true, kbuf.size, dbuf.size);
    qs := LoadPairs(l, kbuf, dbuf);
  }
}
