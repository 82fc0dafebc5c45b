/**
 mdb_node_add, mdb_node_del and mdb_update_key on a page buffer: insert, remove
 and re-key on the sequence of nodes.
 */
module PageOps {
  import opened Keys
  import opened PageFormat
  import opened SlottedPage

  datatype Rc = Success | PageFull

  function NodesOf(slots: seq<Slot>): (r: seq<Node>)
    ensures |r| == |slots| && forall i :: 0 <= i < |r| ==> r[i] == slots[i].node
  {
    seq(|slots|, i requires 0 <= i < |slots| => slots[i].node)
  }

  lemma NodesInsert(slots: seq<Slot>, x: int, e: Slot)
    requires 0 <= x <= |slots|
    ensures NodesOf(Insert(slots, x, e)) == Insert(NodesOf(slots), x, e.node)
  {
  }

  lemma NodesShifted(slots: seq<Slot>, x: int, d: int)
    requires 0 <= x < |slots|
    ensures NodesOf(Shifted(Without(slots, x), slots[x].ptr, d)) == Without(NodesOf(slots), x)
  {
  }

  // ---------------------------------------------------------------- new nodes

  /** The node mdb_node_add writes on a leaf: data of the given size, or the
      number of an overflow page if it is there already (F_BIGDATA) or if the
      node would be larger than nodemax. */
  function LeafNode(key: Bytes, data: Bytes, size: int, flags: int, nodemax: int, ovPage: Bytes): (n: Node)
    requires 0 <= size < 0x1_0000_0000 && Word(flags)
    ensures DataSize(n) == size && n.key == key
  {
    var big := flags % 2 == 0 && NODESIZE + |key| + size > nodemax;
    Node(size % 0x1_0000, size / 0x1_0000, if big then flags + 1 else flags, key,
         if big then ovPage else data)
  }

  /** On a branch page the three words hold the child's page number. */
  function BranchNode(key: Bytes, pgno: int): (n: Node)
    requires 0 <= pgno < 0x1_0000_0000_0000
    ensures PageNumber(n) == pgno && n.key == key && n.rest == [] && Word(n.lo) && Word(n.hi) && Word(n.flags)
  {
    PageWords(pgno);
    Node(pgno % 0x1_0000, pgno / 0x1_0000 % 0x1_0000, pgno / 0x1_0000_0000, key, [])
  }

  /** NODEPGNO */
  function PageNumber(n: Node): int { n.lo + 0x1_0000 * n.hi + 0x1_0000_0000 * n.flags }

  lemma PageWords(pgno: int)
    requires 0 <= pgno < 0x1_0000_0000_0000
    ensures pgno % 0x1_0000 + 0x1_0000 * (pgno / 0x1_0000 % 0x1_0000) + 0x1_0000_0000 * (pgno / 0x1_0000_0000) == pgno
    ensures Word(pgno / 0x1_0000_0000)
  {
    var a := pgno / 0x1_0000;
    assert a == 0x1_0000 * (a / 0x1_0000) + a % 0x1_0000;
    assert a / 0x1_0000 == pgno / 0x1_0000_0000;
  }

  // ---------------------------------------------------------------- bytes

  /** Parts of the page that have not changed. */
  predicate SameFrom(s: seq<Byte>, t: seq<Byte>, from: int) { 0 <= from <= |s| == |t| && s[from..] == t[from..] }
  predicate SameBelow(s: seq<Byte>, t: seq<Byte>, to: int) { 0 <= to <= |s| == |t| && s[..to] == t[..to] }

  function Spliced(s: seq<Byte>, p: int, data: Bytes): (t: seq<Byte>)
    requires 0 <= p && p + |data| <= |s|
    ensures |t| == |s|
  {
    s[..p] + data + s[p + |data|..]
  }

  lemma SplicedParts(s: seq<Byte>, p: int, data: Bytes, t: seq<Byte>)
    requires 0 <= p && p + |data| <= |s| && t == Spliced(s, p, data)
    ensures SameBelow(s, t, p) && t[p..p + |data|] == data && SameFrom(s, t, p + |data|)
  {
  }

  /** memmove: the ranges may overlap. */
  method Memmove(buf: array<Byte>, dst: int, src: int, len: int)
    requires 0 <= dst && 0 <= src && 0 <= len && dst + len <= buf.Length && src + len <= buf.Length
    modifies buf
    ensures buf[..] == Spliced(old(buf[..]), dst, old(buf[..])[src..src + len])
  {
    var data := buf[src..src + len];
    assert data == buf[..][src..src + len];
    Memcpy(buf, dst, data);
  }

  method Memcpy(buf: array<Byte>, dst: int, data: Bytes)
    requires 0 <= dst && dst + |data| <= buf.Length
    modifies buf
    ensures buf[..] == Spliced(old(buf[..]), dst, data)
  {
    forall k | dst <= k < dst + |data| {
      buf[k] := data[k - dst];
    }
  }

  /** A node's header, key and data at offset p. */
  method WriteNode(buf: array<Byte>, p: int, n: Node)
    requires Words(n) && 0 <= p && p + Length(n) <= buf.Length
    modifies buf
    ensures At(buf[..], p, n) && SameBelow(old(buf[..]), buf[..], p) && SameFrom(old(buf[..]), buf[..], p + Length(n))
  {
    Memcpy(buf, p, Encoded(n));
    SplicedParts(old(buf[..]), p, Encoded(n), buf[..]);
  }

  // ---------------------------------------------------------------- pages

  class Page {
    const leaf: bool
    const buf: array<Byte>
    var lower: int
    var upper: int
    ghost var slots: seq<Slot>

    ghost predicate Valid()
      reads this, buf
    {
      PageOk(buf[..], slots, lower, upper, leaf)
    }

    /** The nodes in the order of their pointers. */
    ghost function Nodes(): seq<Node>
      reads this
    {
      NodesOf(slots)
    }

    function SizeLeft(): int
      reads this
    {
      upper - lower
    }

    function NumKeys(): int
      reads this
    {
      (lower - PAGEHDRSZ) / 2
    }

    constructor (psize: int, isLeaf: bool)
      requires 4096 <= psize <= 0x8000 && psize % 2 == 0
      ensures Valid() && Nodes() == [] && SizeLeft() == psize - PAGEHDRSZ && leaf == isLeaf && fresh(buf)
    {
      leaf := isLeaf;
      buf := new Byte[psize](_ => 0);
      lower, upper, slots := PAGEHDRSZ, psize, [];
    }

    /** New bounds of the free space. */
    method Install(ghost t: seq<Byte>, ghost next: seq<Slot>, low: int, up: int)
      requires buf[..] == t && PageOk(t, next, low, up, leaf)
      modifies this`lower, this`upper, this`slots
      ensures Valid() && slots == next && lower == low && upper == up
    {
      slots, lower, upper := next, low, up;
    }

    /** The common end of mdb_node_add: fails only for lack of room. */
    method AddNode(x: int, n: Node) returns (rc: Rc)
      requires Valid() && 0 <= x <= |Nodes()| && NodeOk(n, leaf)
      modifies this`lower, this`upper, this`slots, buf
      ensures Valid()
      ensures rc == if Size(n) + 2 > old(SizeLeft()) then PageFull else Success
      ensures rc == PageFull ==> slots == old(slots) && SizeLeft() == old(SizeLeft())
      ensures rc == Success ==> Nodes() == Insert(old(Nodes()), x, n) && SizeLeft() == old(SizeLeft()) - Size(n) - 2
    {
      var room := SizeLeft() - 2;
      if Size(n) > room {
        return PageFull;
      }
      ghost var s, was := buf[..], slots;
      var ofs, low := upper - Size(n), lower + 2;
      assert NumKeys() == |was|;
      OpenPointer(x, ofs);
      ghost var m := buf[..];
      WriteNode(buf, ofs, n);
      ghost var next := Insert(was, x, Slot(ofs, n));
      ghost var t := buf[..];
      AddedPage(s, m, t, was, lower, upper, leaf, x, Slot(ofs, n), next, low);
      Install(t, next, low, ofs);
      rc := Success;
    }

    /** mdb_node_add on a leaf page. */
    method NodeAddLeaf(x: int, key: Bytes, data: Bytes, size: int, flags: int, nodemax: int, ovPage: Bytes) returns (rc: Rc)
      requires Valid() && leaf && 0 <= x <= |Nodes()| && Word(|key|) && Word(flags) && 0 <= size < 0x1_0000_0000 && |ovPage| == 8
      requires |data| == if flags % 2 == 1 then 8 else size
      modifies this`lower, this`upper, this`slots, buf
      ensures Valid()
      ensures var n := LeafNode(key, data, size, flags, nodemax, ovPage);
        if Size(n) + 2 > old(SizeLeft()) then rc == PageFull && Nodes() == old(Nodes()) && SizeLeft() == old(SizeLeft())
        else rc == Success && Nodes() == Insert(old(Nodes()), x, n) && SizeLeft() == old(SizeLeft()) - Size(n) - 2
    {
      rc := AddNode(x, LeafNode(key, data, size, flags, nodemax, ovPage));
    }

    /** mdb_node_add on a branch page. */
    method NodeAddBranch(x: int, key: Bytes, pgno: int) returns (rc: Rc)
      requires Valid() && !leaf && 0 <= x <= |Nodes()| && Word(|key|) && 0 <= pgno < 0x1_0000_0000_0000
      modifies this`lower, this`upper, this`slots, buf
      ensures Valid()
      ensures var n := BranchNode(key, pgno);
        if Size(n) + 2 > old(SizeLeft()) then rc == PageFull && Nodes() == old(Nodes()) && SizeLeft() == old(SizeLeft())
        else rc == Success && Nodes() == Insert(old(Nodes()), x, n) && SizeLeft() == old(SizeLeft()) - Size(n) - 2
    {
      rc := AddNode(x, BranchNode(key, pgno));
    }

    /** The size of a node, as mdb_node_del reads it from the node's header. */
    method NodeSize(x: int) returns (sz: int)
      requires Valid() && 0 <= x < |Nodes()|
      ensures sz == Size(Nodes()[x]) && sz == Size(slots[x].node)
    {
      ghost var s, n := buf[..], slots[x].node;
      PointerIs(s, slots, lower, upper, leaf, x);
      var p := Fetch(buf, PAGEHDRSZ + 2 * x);
      NodeReads(s, p, n);
      var len := NODESIZE + Fetch(buf, p + 6);
      if leaf {
        if Fetch(buf, p + 4) % 2 == 1 {
          len := len + 8;
        } else {
          len := len + Fetch(buf, p) + 0x1_0000 * Fetch(buf, p + 2);
        }
      }
      sz := Even(len);
    }

    /** mdb_node_del */
    method NodeDel(x: int)
      requires Valid() && 0 <= x < |Nodes()|
      modifies this`lower, this`upper, this`slots, buf
      ensures Valid()
      ensures Nodes() == Without(old(Nodes()), x)
      ensures SizeLeft() == old(SizeLeft()) + Size(old(Nodes())[x]) + 2
    {
      ghost var s, was := buf[..], slots;
      PointerIs(s, was, lower, upper, leaf, x);
      assert NumKeys() == |was|;
      MovedWords(s, was, lower, upper, leaf, x);
      var sz := NodeSize(x);
      var ptr := Fetch(buf, PAGEHDRSZ + 2 * x);
      ClosePointer(x, ptr, sz);
      ghost var m := buf[..];
      CloseGap(buf, upper, ptr, sz);
      ghost var next := Shifted(Without(was, x), ptr, sz);
      var low, up := lower - 2, upper + sz;
      ghost var t := buf[..];
      DeletedPage(s, m, t, was, lower, upper, leaf, x, ptr, sz, next, low, up);
      Install(t, next, low, up);
    }

    /** The pointers after x move down one slot; nodes below ptr will move by sz. */
    method ClosePointer(x: int, ptr: int, sz: int)
      requires 0 <= x < NumKeys() && PAGEHDRSZ + 2 * NumKeys() <= buf.Length
      requires AllWords(ClosedPtrs(Pointers(buf[..], NumKeys()), x, ptr, sz))
      modifies buf
      ensures Pointers(buf[..], NumKeys() - 1) == ClosedPtrs(Pointers(old(buf[..]), NumKeys()), x, ptr, sz)
      ensures SameFrom(old(buf[..]), buf[..], PAGEHDRSZ + 2 * NumKeys())
    {
      var numkeys, i, j := NumKeys(), 0, 0;
      ghost var s := buf[..];
      ghost var qs := ClosedPtrs(Pointers(s, numkeys), x, ptr, sz);
      while i < numkeys
        invariant 0 <= i <= numkeys && j == if i <= x then i else i - 1
        invariant forall k :: i <= k < numkeys ==> Ptr(buf[..], k) == Ptr(s, k)
        invariant forall k :: 0 <= k < j ==> Ptr(buf[..], k) == qs[k]
        invariant forall k :: PAGEHDRSZ + 2 * numkeys <= k < buf.Length ==> buf[k] == s[k]
      {
        if i != x {
          var q := Fetch(buf, PAGEHDRSZ + 2 * i);
          assert q == Ptr(s, i) && MovePtr(q, ptr, sz) == qs[j];
          SetPtr(buf, j, MovePtr(q, ptr, sz));
          j := j + 1;
        }
        i := i + 1;
      }
    }

    /** mdb_update_key; false if the node has no room to grow, when the caller
        deletes the node and splits the page. */
    method UpdateKey(x: int, key: Bytes) returns (ok: bool)
      requires Valid() && !leaf && 0 <= x < |Nodes()| && Word(|key|)
      modifies this`lower, this`upper, this`slots, buf
      ensures Valid()
      ensures var n := old(Nodes())[x];
        var delta := Even(|key|) as int - Even(|n.key|) as int;
        if delta > 0 && old(SizeLeft()) < delta then !ok && Nodes() == old(Nodes()) && SizeLeft() == old(SizeLeft())
        else ok && Nodes() == old(Nodes())[x := n.(key := key)] && SizeLeft() == old(SizeLeft()) - delta
    {
      ghost var s, n := buf[..], slots[x].node;
      PointerIs(s, slots, lower, upper, leaf, x);
      var ptr := Fetch(buf, PAGEHDRSZ + 2 * x);
      NodeReads(s, ptr, n);
      var delta := Even(|key|) as int - Even(Fetch(buf, ptr + 6)) as int;
      if delta > 0 && SizeLeft() < delta {
        return false;
      }
      SetKey(x, key, ptr, delta);
      ok := true;
    }

    method SetKey(x: int, key: Bytes, ptr: int, delta: int)
      requires Valid() && !leaf && 0 <= x < |slots| && Word(|key|) && ptr == slots[x].ptr && delta <= SizeLeft()
      requires delta == Even(|key|) as int - Even(|slots[x].node.key|) as int
      modifies this`lower, this`upper, this`slots, buf
      ensures Valid() && upper == old(upper) - delta && lower == old(lower)
      ensures Nodes() == old(Nodes())[x := old(slots[x]).node.(key := key)]
    {
      ghost var s, was, n := buf[..], slots, slots[x].node;
      assert NumKeys() == |was|;
      LoweredWords(s, was, lower, upper, x, key, delta);
      LowerPointers(ptr, delta);
      ghost var m := buf[..];
      ghost var next := Insert(Shifted(Without(was, x), ptr, 0 - delta), x, Slot(ptr - delta, n.(key := key)));
      var up := upper - delta;
      ghost var end := LoweredPage(s, m, was, lower, upper, x, key, delta);
      Rekey(buf, upper, ptr, delta, key, n, end);
      ghost var t := buf[..];
      KeyedPage(s, m, t, was, lower, upper, x, ptr, n, key, delta, next, up, end);
      Install(t, next, lower, up);
    }

    method LowerPointers(ptr: int, delta: int)
      requires 0 <= NumKeys() && PAGEHDRSZ + 2 * NumKeys() <= buf.Length
      requires AllWords(LowPtrs(Pointers(buf[..], NumKeys()), ptr, delta))
      modifies buf
      ensures Pointers(buf[..], NumKeys()) == LowPtrs(Pointers(old(buf[..]), NumKeys()), ptr, delta)
      ensures SameFrom(old(buf[..]), buf[..], PAGEHDRSZ + 2 * NumKeys())
    {
      if delta == 0 {
        LoweredByNone(buf[..], NumKeys(), ptr);
        return;
      }
      var i := 0;
      ghost var s := buf[..];
      ghost var qs := LowPtrs(Pointers(s, NumKeys()), ptr, delta);
      while i < NumKeys()
        invariant 0 <= i <= NumKeys()
        invariant forall k :: 0 <= k < i ==> Ptr(buf[..], k) == qs[k]
        invariant forall k :: i <= k < NumKeys() ==> Ptr(buf[..], k) == Ptr(s, k)
        invariant forall k :: PAGEHDRSZ + 2 * NumKeys() <= k < buf.Length ==> buf[k] == s[k]
      {
        var q := Fetch(buf, PAGEHDRSZ + 2 * i);
        assert q == Ptr(s, i) && LowPtr(q, ptr, delta) == qs[i];
        if q <= ptr {
          SetPtr(buf, i, q - delta);
        }
        i := i + 1;
      }
    }

    /** The pointers from x on move up one slot, and x gets a new one. */
    method OpenPointer(x: int, ofs: int)
      requires 0 <= x <= NumKeys() && PAGEHDRSZ + 2 * NumKeys() + 2 <= buf.Length && Word(ofs)
      modifies buf
      ensures Pointers(buf[..], NumKeys() + 1) == Insert(Pointers(old(buf[..]), NumKeys()), x, ofs)
      ensures SameFrom(old(buf[..]), buf[..], PAGEHDRSZ + 2 * NumKeys() + 2)
    {
      var i := NumKeys();
      ghost var s := buf[..];
      while i > x
        invariant x <= i <= NumKeys()
        invariant forall k :: 0 <= k < i ==> Ptr(buf[..], k) == Ptr(s, k)
        invariant forall k :: i < k <= NumKeys() ==> Ptr(buf[..], k) == Ptr(s, k - 1)
        invariant forall k :: PAGEHDRSZ + 2 * NumKeys() + 2 <= k < buf.Length ==> buf[k] == s[k]
      {
        SetPtr(buf, i, Fetch(buf, PAGEHDRSZ + 2 * (i - 1)));
        i := i - 1;
      }
      SetPtr(buf, x, ofs);
      OpenedPointers(s, buf[..], NumKeys(), x, ofs);
    }
  }

  lemma OpenedPointers(s: seq<Byte>, t: seq<Byte>, n: nat, x: int, p: int)
    requires |s| == |t| && 0 <= x <= n && PAGEHDRSZ + 2 * n + 2 <= |s| && Ptr(t, x) == p
    requires forall k :: 0 <= k < x ==> Ptr(t, k) == Ptr(s, k)
    requires forall k :: x < k <= n ==> Ptr(t, k) == Ptr(s, k - 1)
    ensures Pointers(t, n + 1) == Insert(Pointers(s, n), x, p)
  {
  }

  /** A 16-bit word of the page. */
  function Fetch(buf: array<Byte>, p: int): (w: int)
    requires 0 <= p && p + 1 < buf.Length
    reads buf
    ensures Word(w)
  {
    ReadWord(buf[..], p)
  }

  /** mp_ptrs[k] */
  function Ptr(s: seq<Byte>, k: int): int
    requires 0 <= k && PAGEHDRSZ + 2 * k + 1 < |s|
  {
    ReadWord(s, PAGEHDRSZ + 2 * k)
  }

  function Pointers(s: seq<Byte>, n: nat): (ps: seq<int>)
    requires PAGEHDRSZ + 2 * n <= |s|
    ensures |ps| == n
  {
    seq(n, k requires 0 <= k < n => Ptr(s, k))
  }

  method SetPtr(buf: array<Byte>, x: int, v: int)
    requires 0 <= x && PAGEHDRSZ + 2 * x + 1 < buf.Length && Word(v)
    modifies buf
    ensures Ptr(buf[..], x) == v
    ensures forall k :: 0 <= k && PAGEHDRSZ + 2 * k + 1 < buf.Length && k != x ==> Ptr(buf[..], k) == Ptr(old(buf[..]), k)
    ensures forall k :: 0 <= k < buf.Length && k != PAGEHDRSZ + 2 * x && k != PAGEHDRSZ + 2 * x + 1 ==> buf[k] == old(buf[k])
  {
    var p := PAGEHDRSZ + 2 * x;
    buf[p], buf[p + 1] := Low(v), High(v);
  }

  lemma SamePointers(s: seq<Byte>, t: seq<Byte>, n: nat, to: int)
    requires SameBelow(s, t, to) && PAGEHDRSZ + 2 * n <= to
    ensures Pointers(t, n) == Pointers(s, n)
  {
    forall k | 0 <= k < n ensures Pointers(t, n)[k] == Pointers(s, n)[k] {
      var p := PAGEHDRSZ + 2 * k;
      assert t[..to][p] == s[..to][p] && t[..to][p + 1] == s[..to][p + 1];
    }
  }

  function MovePtr(q: int, ptr: int, d: int): int { if q < ptr then q + d else q }
  function LowPtr(q: int, ptr: int, d: int): int { if q <= ptr then q - d else q }

  function ClosedPtrs(ps: seq<int>, x: int, ptr: int, d: int): (qs: seq<int>)
    requires 0 <= x < |ps|
    ensures |qs| == |ps| - 1 && forall k :: 0 <= k < |qs| ==> qs[k] == MovePtr(ps[if k < x then k else k + 1], ptr, d)
  {
    seq(|ps| - 1, k requires 0 <= k < |ps| - 1 => MovePtr(ps[if k < x then k else k + 1], ptr, d))
  }

  function LowPtrs(ps: seq<int>, ptr: int, d: int): (qs: seq<int>)
    ensures |qs| == |ps| && forall k :: 0 <= k < |qs| ==> qs[k] == LowPtr(ps[k], ptr, d)
  {
    seq(|ps|, k requires 0 <= k < |ps| => LowPtr(ps[k], ptr, d))
  }

  lemma LoweredByNone(s: seq<Byte>, n: nat, ptr: int)
    requires PAGEHDRSZ + 2 * n <= |s|
    ensures Pointers(s, n) == LowPtrs(Pointers(s, n), ptr, 0)
  {
  }

  predicate AllWords(ps: seq<int>) { forall k :: 0 <= k < |ps| ==> Word(ps[k]) }

  predicate Points(ps: seq<int>, slots: seq<Slot>) {
    |ps| == |slots| && forall i :: 0 <= i < |slots| ==> ps[i] == slots[i].ptr
  }

  /** The page: its nodes, and the pointers to them. */
  ghost predicate PageOk(s: seq<Byte>, slots: seq<Slot>, lower: int, upper: int, leaf: bool) {
    |s| <= 0x8000 && Layout(s, slots, lower, upper, leaf) && Points(Pointers(s, |slots|), slots)
  }

  lemma PageMade(s: seq<Byte>, slots: seq<Slot>, lower: int, upper: int, leaf: bool)
    requires |s| <= 0x8000 && Layout(s, slots, lower, upper, leaf) && Points(Pointers(s, |slots|), slots)
    ensures PageOk(s, slots, lower, upper, leaf)
  {
  }

  lemma PointerIs(s: seq<Byte>, slots: seq<Slot>, lower: int, upper: int, leaf: bool, x: int)
    requires PageOk(s, slots, lower, upper, leaf) && 0 <= x < |slots|
    ensures Ptr(s, x) == slots[x].ptr && Placed(s, slots[x], upper, leaf)
  {
    assert Pointers(s, |slots|)[x] == slots[x].ptr;
  }

  /** New pointers are 16-bit words again. */
  lemma MovedWords(s: seq<Byte>, slots: seq<Slot>, lower: int, upper: int, leaf: bool, x: int)
    requires PageOk(s, slots, lower, upper, leaf) && 0 <= x < |slots|
    ensures AllWords(ClosedPtrs(Pointers(s, |slots|), x, slots[x].ptr, Size(slots[x].node)))
  {
    var qs := ClosedPtrs(Pointers(s, |slots|), x, slots[x].ptr, Size(slots[x].node));
    PointerIs(s, slots, lower, upper, leaf, x);
    forall k | 0 <= k < |qs| ensures Word(qs[k]) {
      PointerIs(s, slots, lower, upper, leaf, if k < x then k else k + 1);
    }
  }

  lemma LoweredWords(s: seq<Byte>, slots: seq<Slot>, lower: int, upper: int, x: int, key: Bytes, delta: int)
    requires PageOk(s, slots, lower, upper, false) && 0 <= x < |slots|
    requires delta <= upper - lower && delta == Even(|key|) as int - Even(|slots[x].node.key|) as int
    ensures AllWords(LowPtrs(Pointers(s, |slots|), slots[x].ptr, delta))
  {
    var qs := LowPtrs(Pointers(s, |slots|), slots[x].ptr, delta);
    PointerIs(s, slots, lower, upper, false, x);
    KeySizes(slots[x].node, key);
    forall k | 0 <= k < |qs| ensures Word(qs[k]) {
      PointerIs(s, slots, lower, upper, false, k);
    }
  }

  // ---------------------------------------------------------------- the page afterwards

  lemma AddedPage(s: seq<Byte>, m: seq<Byte>, t: seq<Byte>, slots: seq<Slot>, lower: int, upper: int, leaf: bool,
                  x: int, e: Slot, next: seq<Slot>, low: int)
    requires PageOk(s, slots, lower, upper, leaf) && 0 <= x <= |slots| && NodeOk(e.node, leaf)
    requires low == lower + 2 && e.ptr == upper - Size(e.node) && low <= e.ptr && next == Insert(slots, x, e)
    requires SameFrom(s, m, low) && Pointers(m, |slots| + 1) == Insert(Pointers(s, |slots|), x, e.ptr)
    requires SameBelow(m, t, e.ptr) && SameFrom(m, t, e.ptr + Length(e.node)) && At(t, e.ptr, e.node)
    ensures PageOk(t, next, low, e.ptr, leaf) && NodesOf(next) == Insert(NodesOf(slots), x, e.node)
  {
    assert |s| == |m| == |t|;
    FromHigher(s, m, low, upper);
    FromHigher(m, t, e.ptr + Length(e.node), upper);
    AddedLayout(s, t, slots, lower, upper, leaf, x, e, next, low);
    SamePointers(m, t, |next|, e.ptr);
    AddedPoints(Pointers(s, |slots|), slots, x, e);
    NodesInsert(slots, x, e);
    PageMade(t, next, low, e.ptr, leaf);
  }

  lemma AddedLayout(s: seq<Byte>, t: seq<Byte>, slots: seq<Slot>, lower: int, upper: int, leaf: bool,
                    x: int, e: Slot, next: seq<Slot>, low: int)
    requires Layout(s, slots, lower, upper, leaf) && 0 <= x <= |slots| && NodeOk(e.node, leaf)
    requires low == lower + 2 && e.ptr == upper - Size(e.node) && low <= e.ptr && next == Insert(slots, x, e)
    requires SameFrom(s, t, upper) && At(t, e.ptr, e.node)
    ensures Layout(t, next, low, e.ptr, leaf)
  {
    EvenSum(upper, -(Size(e.node) as int), e.ptr);
    AddLayout(s, t, slots, lower, upper, leaf, x, e, next, low);
  }

  lemma BelowSlice(s: seq<Byte>, t: seq<Byte>, to: int, a: int, b: int)
    requires SameBelow(s, t, to) && 0 <= a <= b <= to
    ensures s[a..b] == t[a..b]
  {
    assert s[a..b] == s[..to][a..b] && t[a..b] == t[..to][a..b];
  }

  lemma ToLower(s: seq<Byte>, t: seq<Byte>, to: int, at: int)
    requires SameBelow(s, t, to) && 0 <= at <= to
    ensures SameBelow(s, t, at)
  {
    assert s[..at] == s[..to][..at] && t[..at] == t[..to][..at];
  }

  lemma FromHigher(s: seq<Byte>, t: seq<Byte>, from: int, at: int)
    requires SameFrom(s, t, from) && from <= at <= |s|
    ensures SameFrom(s, t, at)
  {
    assert s[at..] == s[from..][at - from..] && t[at..] == t[from..][at - from..];
  }

  lemma AddedPoints(ps: seq<int>, slots: seq<Slot>, x: int, e: Slot)
    requires Points(ps, slots) && 0 <= x <= |slots|
    ensures Points(Insert(ps, x, e.ptr), Insert(slots, x, e))
  {
  }

  /** Bytes moved on a page whose pointers have changed before. */
  lemma MovedSame(s: seq<Byte>, m: seq<Byte>, t: seq<Byte>, upper: int, p: int, q: int, d: int)
    requires SameFrom(s, m, upper) && MovedBytes(m, t, upper, p, q, d)
    ensures MovedBytes(s, t, upper, p, q, d)
  {
    FromHigher(s, m, upper, q);
    assert s[upper..p] == s[upper..][..p - upper] && m[upper..p] == m[upper..][..p - upper];
  }

  lemma DeletedPage(s: seq<Byte>, m: seq<Byte>, t: seq<Byte>, slots: seq<Slot>, lower: int, upper: int, leaf: bool,
                    x: int, p: int, sz: int, next: seq<Slot>, low: int, up: int)
    requires PageOk(s, slots, lower, upper, leaf) && 0 <= x < |slots| && p == slots[x].ptr && sz == Size(slots[x].node)
    requires low == lower - 2 && up == upper + sz && next == Shifted(Without(slots, x), p, sz)
    requires SameFrom(s, m, lower) && Pointers(m, |slots| - 1) == ClosedPtrs(Pointers(s, |slots|), x, p, sz)
    requires MovedBytes(m, t, upper, p, p + sz, sz) && SameBelow(m, t, upper)
    ensures PageOk(t, next, low, up, leaf) && NodesOf(next) == Without(NodesOf(slots), x)
  {
    FromHigher(s, m, lower, upper);
    MovedSame(s, m, t, upper, p, p + sz, sz);
    DelLayout(s, t, slots, lower, upper, leaf, x, sz, next, low, up);
    SamePointers(m, t, |slots| - 1, upper);
    DeletedPoints(Pointers(s, |slots|), slots, x, sz, next);
    assert |next| == |slots| - 1;
    PageMade(t, next, low, up, leaf);
  }

  lemma DeletedPoints(ps: seq<int>, slots: seq<Slot>, x: int, d: int, next: seq<Slot>)
    requires Points(ps, slots) && 0 <= x < |slots| && next == Shifted(Without(slots, x), slots[x].ptr, d)
    ensures Points(ClosedPtrs(ps, x, slots[x].ptr, d), next) && NodesOf(next) == Without(NodesOf(slots), x)
  {
    var rest, qs := Without(slots, x), ClosedPtrs(ps, x, slots[x].ptr, d);
    forall k | 0 <= k < |next| ensures qs[k] == next[k].ptr {
      assert rest[k] == slots[if k < x then k else k + 1];
    }
    NodesShifted(slots, x, d);
  }

  /** The node to be re-keyed is still there once the pointers have changed. */
  lemma LoweredPage(s: seq<Byte>, m: seq<Byte>, slots: seq<Slot>, lower: int, upper: int, x: int, key: Bytes, delta: int)
    returns (end: int)
    requires PageOk(s, slots, lower, upper, false) && 0 <= x < |slots| && SameFrom(s, m, lower)
    requires delta == Even(|key|) as int - Even(|slots[x].node.key|) as int
    ensures var (p, n) := (slots[x].ptr, slots[x].node);
      && NodeOk(n, false) && At(m, p, n) && 0 <= upper <= p && end == p + Size(n)
      && p + NODESIZE <= end <= |m| && p - delta + NODESIZE + |key| <= end
  {
    end := slots[x].ptr + Size(slots[x].node);
    FromHigher(s, m, lower, upper);
    assert Placed(s, slots[x], upper, false);
    StillAt(s, m, slots[x].ptr, slots[x].node, upper);
    KeySizes(slots[x].node, key);
  }

  lemma KeyedPage(s: seq<Byte>, m: seq<Byte>, t: seq<Byte>, slots: seq<Slot>, lower: int, upper: int,
                  x: int, p: int, n: Node, key: Bytes, delta: int, next: seq<Slot>, up: int, end: int)
    requires PageOk(s, slots, lower, upper, false) && 0 <= x < |slots| && slots[x] == Slot(p, n) && Word(|key|)
    requires delta == Even(|key|) as int - Even(|n.key|) as int && up == upper - delta && lower <= up
    requires SameFrom(s, m, lower) && Pointers(m, |slots|) == LowPtrs(Pointers(s, |slots|), p, delta)
    requires SameBelow(m, t, if delta < 0 then upper else up) && end == p + Size(n)
    requires NodeOk(n, false) && At(t, p - delta, n.(key := key)) && MovedBytes(m, t, upper, p, end, 0 - delta)
    requires next == Insert(Shifted(Without(slots, x), p, 0 - delta), x, Slot(p - delta, n.(key := key)))
    ensures PageOk(t, next, lower, up, false)
    ensures NodesOf(next) == NodesOf(slots)[x := n.(key := key)]
  {
    KeyedFrames(s, m, t, lower, upper, up, p, end, delta);
    KeyedLayout(s, t, slots, lower, upper, x, p, n, key, delta, next, up);
    KeyedPoints(s, m, t, slots, lower, x, p, n.(key := key), delta, next);
  }

  lemma KeyedFrames(s: seq<Byte>, m: seq<Byte>, t: seq<Byte>, lower: int, upper: int, up: int, p: int, end: int, delta: int)
    requires SameFrom(s, m, lower) && SameBelow(m, t, if delta < 0 then upper else up) && lower <= up == upper - delta
    requires MovedBytes(m, t, upper, p, end, 0 - delta) && lower <= upper
    ensures MovedBytes(s, t, upper, p, end, 0 - delta) && SameBelow(m, t, lower)
  {
    FromHigher(s, m, lower, upper);
    ToLower(m, t, if delta < 0 then upper else up, lower);
    MovedSame(s, m, t, upper, p, end, 0 - delta);
  }

  lemma KeyedPoints(s: seq<Byte>, m: seq<Byte>, t: seq<Byte>, slots: seq<Slot>, lower: int,
                    x: int, p: int, n: Node, delta: int, next: seq<Slot>)
    requires 0 <= x < |slots| && p == slots[x].ptr && AllApart(slots) && PAGEHDRSZ + 2 * |slots| == lower <= |s|
    requires Points(Pointers(s, |slots|), slots) && SameBelow(m, t, lower) && |m| == |s|
    requires Pointers(m, |slots|) == LowPtrs(Pointers(s, |slots|), p, delta)
    requires next == Insert(Shifted(Without(slots, x), p, 0 - delta), x, Slot(p - delta, n))
    ensures |next| == |slots| && Points(Pointers(t, |next|), next) && NodesOf(next) == NodesOf(slots)[x := n]
  {
    SamePointers(m, t, |slots|, lower);
    KeyPoints(Pointers(s, |slots|), slots, x, n, delta, next);
  }

  lemma KeyedLayout(s: seq<Byte>, t: seq<Byte>, slots: seq<Slot>, lower: int, upper: int,
                    x: int, p: int, n: Node, key: Bytes, delta: int, next: seq<Slot>, up: int)
    requires Layout(s, slots, lower, upper, false) && 0 <= x < |slots| && slots[x] == Slot(p, n) && Word(|key|)
    requires delta == Even(|key|) as int - Even(|n.key|) as int && up == upper - delta && lower <= up
    requires NodeOk(n, false) && At(t, p - delta, n.(key := key)) && MovedBytes(s, t, upper, p, p + Size(n), 0 - delta)
    requires next == Insert(Shifted(Without(slots, x), p, 0 - delta), x, Slot(p - delta, n.(key := key)))
    ensures Layout(t, next, lower, up, false)
  {
    var d := 0 - delta;
    KeySizes(n, key);
    KeyLayout(s, t, slots, lower, upper, x, n.(key := key), d, Shifted(Without(slots, x), p, d), next, up);
  }

  lemma KeyPoints(ps: seq<int>, slots: seq<Slot>, x: int, n: Node, delta: int, next: seq<Slot>)
    requires Points(ps, slots) && AllApart(slots) && 0 <= x < |slots|
    requires next == Insert(Shifted(Without(slots, x), slots[x].ptr, 0 - delta), x, Slot(slots[x].ptr - delta, n))
    ensures Points(LowPtrs(ps, slots[x].ptr, delta), next) && NodesOf(next) == NodesOf(slots)[x := n]
  {
    var qs := LowPtrs(ps, slots[x].ptr, delta);
    forall k | 0 <= k < |slots| ensures next[k].ptr == qs[k] && next[k].node == if k == x then n else slots[k].node {
      KeyPoint(ps, slots, x, n, delta, next, k);
    }
    NodesReplaced(slots, x, n, next);
  }

  lemma KeyPoint(ps: seq<int>, slots: seq<Slot>, x: int, n: Node, delta: int, next: seq<Slot>, k: int)
    requires Points(ps, slots) && AllApart(slots) && 0 <= x < |slots| && 0 <= k < |slots|
    requires next == Insert(Shifted(Without(slots, x), slots[x].ptr, 0 - delta), x, Slot(slots[x].ptr - delta, n))
    ensures next[k].ptr == LowPtr(ps[k], slots[x].ptr, delta) && next[k].node == if k == x then n else slots[k].node
  {
    if k < x { assert Apart(slots[k], slots[x]); }
    if k > x { assert Apart(slots[x], slots[k]); }
  }

  lemma NodesReplaced(slots: seq<Slot>, x: int, n: Node, next: seq<Slot>)
    requires 0 <= x < |slots| == |next| && forall k :: 0 <= k < |slots| ==> next[k].node == if k == x then n else slots[k].node
    ensures NodesOf(next) == NodesOf(slots)[x := n]
  {
  }

  lemma KeySizes(n: Node, key: Bytes)
    requires NodeOk(n, false)
    ensures var d := Even(|n.key|) as int - Even(|key|) as int;
      d % 2 == 0 && d == Size(n) as int - Size(n.(key := key)) as int && NODESIZE + |key| + d <= Size(n)
  {
    var a, b := (|n.key| + 1) / 2, (|key| + 1) / 2;
    assert Even(|n.key|) as int - Even(|key|) as int == 2 * (a - b);
  }

  /** Moves what lies below the node's key, and writes the new key. */
  method Rekey(buf: array<Byte>, upper: int, p: int, delta: int, key: Bytes, ghost n: Node, ghost end: int)
    requires NodeOk(n, false) && Word(|key|) && At(buf[..], p, n) && 0 <= upper <= p && delta <= upper
    requires p + NODESIZE <= end <= buf.Length && p - delta + NODESIZE + |key| <= end
    modifies buf
    ensures MovedBytes(old(buf[..]), buf[..], upper, p, end, 0 - delta)
    ensures At(buf[..], p - delta, n.(key := key))
    ensures SameBelow(old(buf[..]), buf[..], if delta < 0 then upper else upper - delta)
  {
    ghost var s := buf[..];
    ghost var to := if delta < 0 then upper else upper - delta;
    ShiftNodes(buf, upper, p, delta, end, to);
    WriteKey(buf, upper, p, delta, key, n, end, to, s);
  }

  /** The key at its new place, once the bytes before it have moved. */
  method WriteKey(buf: array<Byte>, ghost upper: int, p: int, delta: int, key: Bytes, ghost n: Node, ghost end: int,
                  ghost to: int,
                  ghost s: seq<Byte>)
    requires NodeOk(n, false) && Word(|key|) && At(s, p, n) && p - delta + NODESIZE + |key| <= end <= |s|
    requires Slid(s, buf[..], upper, p, delta, end) && SameBelow(s, buf[..], to) && to <= upper - delta
    modifies buf
    ensures MovedBytes(s, buf[..], upper, p, end, 0 - delta) && At(buf[..], p - delta, n.(key := key)) && SameBelow(s, buf[..], to)
  {
    ghost var t := buf[..];
    Memcpy(buf, p - delta + 6, [Low(|key|), High(|key|)] + key);
    RekeyDone(s, t, buf[..], upper, p, delta, key, n, end, to);
  }

  lemma RekeyDone(s: seq<Byte>, t: seq<Byte>, u: seq<Byte>, upper: int, p: int, delta: int, key: Bytes, n: Node,
                  end: int, to: int)
    requires NodeOk(n, false) && Word(|key|) && At(s, p, n) && p - delta + NODESIZE + |key| <= end <= |s|
    requires Slid(s, t, upper, p, delta, end) && SameBelow(s, t, to) && to <= upper - delta && u == WithKey(t, p - delta, key)
    ensures MovedBytes(s, u, upper, p, end, 0 - delta) && At(u, p - delta, n.(key := key)) && SameBelow(s, u, to)
  {
    RekeyedMoved(s, t, u, upper, p, delta, key, end);
    RekeyedNode(s, t, u, upper, p, delta, key, n, end);
    RekeyedBelow(s, t, u, to, p - delta, key);
  }

  /** Bytes from upper to the node's header have moved down by delta, those from end on stay. */
  predicate Slid(s: seq<Byte>, t: seq<Byte>, upper: int, p: int, delta: int, end: int) {
    && 0 <= upper <= p && 0 <= upper - delta && p + NODESIZE <= end <= |s| == |t| && p - delta + NODESIZE <= end
    && t[upper - delta..p - delta + NODESIZE] == s[upper..p + NODESIZE] && t[end..] == s[end..]
  }

  /** The nodes below the key, and its node's header. */
  method ShiftNodes(buf: array<Byte>, upper: int, p: int, delta: int, ghost end: int, ghost to: int)
    requires 0 <= upper <= p && 0 <= upper - delta && p + NODESIZE <= end <= buf.Length && p - delta + NODESIZE <= end
    requires to == if delta < 0 then upper else upper - delta
    modifies buf
    ensures Slid(old(buf[..]), buf[..], upper, p, delta, end) && SameBelow(old(buf[..]), buf[..], to)
  {
    ghost var s := buf[..];
    if delta != 0 {
      Memmove(buf, upper - delta, upper, p - upper + NODESIZE);
      ShiftedBytes(s, buf[..], upper, p, delta, end, to);
    }
  }

  lemma ShiftedBytes(s: seq<Byte>, t: seq<Byte>, upper: int, p: int, delta: int, end: int, to: int)
    requires 0 <= upper <= p && 0 <= upper - delta && p + NODESIZE <= end <= |s| && p - delta + NODESIZE <= end
    requires to == (if delta < 0 then upper else upper - delta) && t == Spliced(s, upper - delta, s[upper..p + NODESIZE])
    ensures Slid(s, t, upper, p, delta, end) && SameBelow(s, t, to)
  {
    SplicedParts(s, upper - delta, s[upper..p + NODESIZE], t);
    FromHigher(s, t, p - delta + NODESIZE, end);
    ToLower(s, t, upper - delta, to);
  }

  /** A key, and its length in the node's header. */
  function WithKey(t: seq<Byte>, p: int, key: Bytes): seq<Byte>
    requires Word(|key|) && 0 <= p && p + NODESIZE + |key| <= |t|
  {
    Spliced(t, p + 6, [Low(|key|), High(|key|)] + key)
  }

  lemma RekeyedBelow(s: seq<Byte>, t: seq<Byte>, u: seq<Byte>, to: int, p: int, key: Bytes)
    requires Word(|key|) && 0 <= p && p + NODESIZE + |key| <= |t| && u == WithKey(t, p, key)
    requires SameBelow(s, t, to) && to <= p
    ensures SameBelow(s, u, to)
  {
    SplicedParts(t, p + 6, [Low(|key|), High(|key|)] + key, u);
    ToLower(t, u, p + 6, to);
  }

  lemma RekeyedMoved(s: seq<Byte>, t: seq<Byte>, u: seq<Byte>, upper: int, p: int, delta: int, key: Bytes, end: int)
    requires Word(|key|) && Slid(s, t, upper, p, delta, end) && p - delta + NODESIZE + |key| <= end && u == WithKey(t, p - delta, key)
    ensures MovedBytes(s, u, upper, p, end, 0 - delta)
  {
    var q, m := p - delta, p - upper;
    Inner(s, upper, t, upper - delta, m + NODESIZE, 0, m);
    var data := [Low(|key|), High(|key|)] + key;
    SplicedParts(t, q + 6, data, u);
    FromHigher(t, u, q + 6 + |data|, end);
    BelowSlice(t, u, q + 6, upper - delta, q);
  }

  lemma RekeyedNode(s: seq<Byte>, t: seq<Byte>, u: seq<Byte>, upper: int, p: int, delta: int, key: Bytes, n: Node, end: int)
    requires NodeOk(n, false) && Word(|key|) && At(s, p, n) && Slid(s, t, upper, p, delta, end)
    requires p - delta + NODESIZE + |key| <= |s| && u == WithKey(t, p - delta, key)
    ensures At(u, p - delta, n.(key := key))
  {
    var q, m, n' := p - delta, p - upper, n.(key := key);
    Inner(s, upper, t, upper - delta, m + NODESIZE, m, m + 6);
    SliceSlice(s, p, Length(n), 0, 6);
    assert Encoded(n')[..6] == Encoded(n)[..6] == t[q..q + 6];
    assert u[q..q + Length(n')] == t[q..q + 6] + [Low(|key|), High(|key|)] + key;
    assert Encoded(n') == Encoded(n')[..6] + [Low(|key|), High(|key|)] + key;
  }

  /** memmove(base + sz, base, ptr - upper) */
  method CloseGap(buf: array<Byte>, upper: int, p: int, sz: int)
    requires 0 <= upper <= p && 0 <= sz && p + sz <= buf.Length
    modifies buf
    ensures MovedBytes(old(buf[..]), buf[..], upper, p, p + sz, sz)
    ensures SameBelow(old(buf[..]), buf[..], upper)
  {
    ghost var s := buf[..];
    Memmove(buf, upper + sz, upper, p - upper);
    SplicedParts(s, upper + sz, s[upper..p], buf[..]);
    ToLower(s, buf[..], upper + sz, upper);
  }
}
