/**
 Slotted pages on bytes: node pointers grow up from the header, nodes grow down
 from the end of the page, and every operation keeps them packed.
 */
module SlottedPage {
  import opened Keys
  import opened PageFormat

  /** The four header words (mn_lo, mn_hi, mn_flags, mn_ksize is the key's
      length), the key, and the data or the number of an overflow page. */
  datatype Node = Node(lo: int, hi: int, flags: int, key: Bytes, rest: Bytes)

  predicate Word(v: int) { 0 <= v < 0x1_0000 }

  /** A 16-bit word in memory, low byte first. */
  function Low(v: int): Byte
    requires Word(v)
  {
    v % 256
  }

  function High(v: int): Byte
    requires Word(v)
  {
    v / 256
  }

  predicate BigData(n: Node) { n.flags % 2 == 1 }

  /** NODEDSZ */
  function DataSize(n: Node): int { n.lo + 0x1_0000 * n.hi }

  /** Leaf nodes hold as many bytes as they say, or a page number; branch nodes nothing. */
  predicate NodeOk(n: Node, leaf: bool) {
    && Words(n)
    && |n.rest| == if !leaf then 0 else if BigData(n) then 8 else DataSize(n)
  }

  function Length(n: Node): nat { NODESIZE + |n.key| + |n.rest| }
  function Size(n: Node): nat { Even(Length(n)) }

  /** The node in memory, without the byte that pads it to an even length. */
  function Encoded(n: Node): (r: seq<Byte>)
    requires Words(n)
    ensures |r| == Length(n)
  {
    [Low(n.lo), High(n.lo), Low(n.hi), High(n.hi), Low(n.flags), High(n.flags), Low(|n.key|), High(|n.key|)] + n.key + n.rest
  }

  predicate Words(n: Node) { Word(n.lo) && Word(n.hi) && Word(n.flags) && Word(|n.key|) }

  /** The node's bytes are at offset p. */
  ghost predicate At(s: seq<Byte>, p: int, n: Node)
    requires Words(n)
  {
    0 <= p && p + Length(n) <= |s| && s[p..p + Length(n)] == Encoded(n)
  }

  function ReadWord(s: seq<Byte>, p: int): int
    requires 0 <= p && p + 1 < |s|
  {
    var lo: int, hi: int := s[p], s[p + 1];
    lo + 256 * hi
  }

  /** What is read from a node is what was written. */
  lemma NodeReads(s: seq<Byte>, p: int, n: Node)
    requires Words(n) && At(s, p, n)
    ensures ReadWord(s, p) == n.lo && ReadWord(s, p + 2) == n.hi && ReadWord(s, p + 4) == n.flags && ReadWord(s, p + 6) == |n.key|
    ensures s[p + NODESIZE..p + NODESIZE + |n.key|] == n.key
    ensures s[p + NODESIZE + |n.key|..p + Length(n)] == n.rest
  {
    var u, k, len := s[p..p + Length(n)], NODESIZE + |n.key|, Length(n);
    assert u[0] == s[p] && u[1] == s[p + 1] && u[2] == s[p + 2] && u[3] == s[p + 3];
    assert u[4] == s[p + 4] && u[5] == s[p + 5] && u[6] == s[p + 6] && u[7] == s[p + 7];
    SliceSlice(s, p, len, NODESIZE, k);
    SliceSlice(s, p, len, k, len);
    assert Encoded(n)[NODESIZE..k] == n.key && Encoded(n)[k..len] == n.rest;
  }

  // ---------------------------------------------------------------- layout

  /** A node and the pointer to it. */
  datatype Slot = Slot(ptr: int, node: Node)

  function Total(slots: seq<Slot>): nat { if slots == [] then 0 else Size(slots[0].node) + Total(slots[1..]) }

  predicate Apart(e: Slot, f: Slot) { e.ptr + Size(e.node) <= f.ptr || f.ptr + Size(f.node) <= e.ptr }

  /** One node where its pointer says, in the used part of the page. */
  ghost predicate Placed(s: seq<Byte>, e: Slot, upper: int, leaf: bool) {
    NodeOk(e.node, leaf) && e.ptr % 2 == 0 && upper <= e.ptr && e.ptr + Size(e.node) <= |s| && At(s, e.ptr, e.node)
  }

  ghost predicate AllPlaced(s: seq<Byte>, slots: seq<Slot>, upper: int, leaf: bool) {
    forall i :: 0 <= i < |slots| ==> Placed(s, slots[i], upper, leaf)
  }

  predicate AllApart(slots: seq<Slot>) {
    forall i, j :: 0 <= i < j < |slots| ==> Apart(slots[i], slots[j])
  }

  /** The page: nodes even-aligned, disjoint, and filling [upper, psize). */
  ghost predicate Layout(s: seq<Byte>, slots: seq<Slot>, lower: int, upper: int, leaf: bool) {
    && lower == PAGEHDRSZ + 2 * |slots| && lower <= upper <= |s|
    && upper % 2 == 0 && |s| % 2 == 0 && Total(slots) == |s| - upper
    && AllPlaced(s, slots, upper, leaf) && AllApart(slots)
  }

  function Without<T>(s: seq<T>, i: int): (r: seq<T>)
    requires 0 <= i < |s|
    ensures |r| == |s| - 1 && forall k :: 0 <= k < |r| ==> r[k] == if k < i then s[k] else s[k + 1]
  {
    s[..i] + s[i + 1..]
  }

  lemma {:induction false} TotalInsert(slots: seq<Slot>, i: int, e: Slot)
    requires 0 <= i <= |slots|
    ensures Total(Insert(slots, i, e)) == Total(slots) + Size(e.node)
  {
    if i == 0 {
      assert Insert(slots, 0, e)[1..] == slots;
    } else {
      assert Insert(slots, i, e)[1..] == Insert(slots[1..], i - 1, e);
      TotalInsert(slots[1..], i - 1, e);
    }
  }

  lemma {:induction false} TotalWithout(slots: seq<Slot>, i: int)
    requires 0 <= i < |slots|
    ensures Total(Without(slots, i)) == Total(slots) - Size(slots[i].node)
  {
    InsertWithout(slots, i);
    TotalInsert(Without(slots, i), i, slots[i]);
  }

  lemma InsertWithout<T>(s: seq<T>, i: int)
    requires 0 <= i < |s|
    ensures Insert(Without(s, i), i, s[i]) == s
  {
    var r := Insert(Without(s, i), i, s[i]);
    forall k | 0 <= k < |s| ensures r[k] == s[k] {}
  }

  lemma {:induction false} TotalSame(slots: seq<Slot>, other: seq<Slot>)
    requires |slots| == |other| && forall i :: 0 <= i < |slots| ==> Size(slots[i].node) == Size(other[i].node)
    ensures Total(slots) == Total(other)
  {
    if slots != [] { TotalSame(slots[1..], other[1..]); }
  }

  // ---------------------------------------------------------------- moved bytes

  lemma Inner<T>(s: seq<T>, p: int, t: seq<T>, q: int, len: int, a: int, b: int)
    requires 0 <= p && p + len <= |s| && 0 <= q && q + len <= |t| && 0 <= a <= b <= len
    requires s[p..p + len] == t[q..q + len]
    ensures s[p + a..p + b] == t[q + a..q + b]
  {
    SliceSlice(s, p, len, a, b);
    SliceSlice(t, q, len, a, b);
  }

  lemma SliceSlice<T>(s: seq<T>, p: int, len: int, a: int, b: int)
    requires 0 <= p && p + len <= |s| && 0 <= a <= b <= len
    ensures s[p..p + len][a..b] == s[p + a..p + b]
  {
    var u, v := s[p..p + len][a..b], s[p + a..p + b];
    assert |u| == |v|;
    forall k | 0 <= k < |u| ensures u[k] == v[k] {
      assert u[k] == s[p..p + len][a + k] == s[p + (a + k)];
    }
  }

  lemma StillAt(s: seq<Byte>, t: seq<Byte>, p: int, n: Node, from: int)
    requires Words(n) && At(s, p, n)
    requires 0 <= from <= p && |s| == |t| && s[from..] == t[from..]
    ensures At(t, p, n)
  {
    assert s[from..] == s[from..from + (|s| - from)] && t[from..] == t[from..from + (|s| - from)];
    Inner(s, from, t, from, |s| - from, p - from, p - from + Length(n));
  }

  // ---------------------------------------------------------------- adding a node

  lemma AddLayout(s: seq<Byte>, t: seq<Byte>, slots: seq<Slot>, lower: int, upper: int, leaf: bool, x: int, e: Slot,
                  r: seq<Slot>, low: int)
    requires Layout(s, slots, lower, upper, leaf) && 0 <= x <= |slots| && NodeOk(e.node, leaf) && r == Insert(slots, x, e)
    requires low == lower + 2 && e.ptr % 2 == 0 && e.ptr == upper - Size(e.node) && lower + 2 <= e.ptr && |t| == |s| && At(t, e.ptr, e.node)
    requires s[upper..] == t[upper..]
    ensures Layout(t, r, low, e.ptr, leaf)
  {
    TotalInsert(slots, x, e);
    AddPlaced(s, t, slots, upper, leaf, x, e, r);
    PlacedApart(s, slots, upper, leaf, e);
    InsertApart(slots, x, e, r);
  }

  lemma AddPlaced(s: seq<Byte>, t: seq<Byte>, slots: seq<Slot>, upper: int, leaf: bool, x: int, e: Slot, r: seq<Slot>)
    requires AllPlaced(s, slots, upper, leaf) && 0 <= x <= |slots| && NodeOk(e.node, leaf)
    requires 0 <= e.ptr == upper - Size(e.node) && e.ptr % 2 == 0 && upper <= |t| == |s| && At(t, e.ptr, e.node)
    requires s[upper..] == t[upper..] && r == Insert(slots, x, e)
    ensures AllPlaced(t, r, e.ptr, leaf)
  {
    forall i | 0 <= i < |slots| ensures Placed(t, slots[i], e.ptr, leaf) {
      assert Placed(s, slots[i], upper, leaf);
      StillAt(s, t, slots[i].ptr, slots[i].node, upper);
    }
  }

  lemma PlacedApart(s: seq<Byte>, slots: seq<Slot>, upper: int, leaf: bool, e: Slot)
    requires AllPlaced(s, slots, upper, leaf) && e.ptr + Size(e.node) <= upper
    ensures forall i :: 0 <= i < |slots| ==> Apart(slots[i], e)
  {
    forall i | 0 <= i < |slots| ensures Apart(slots[i], e) {
      assert Placed(s, slots[i], upper, leaf);
    }
  }

  // ---------------------------------------------------------------- moving the nodes below one

  /** The bytes between upper and p have moved by d, those from q on stay. */
  ghost predicate MovedBytes(s: seq<Byte>, t: seq<Byte>, upper: int, p: int, q: int, d: int) {
    && 0 <= upper <= p <= q <= |s| == |t| && 0 <= upper + d && p + d <= q
    && t[upper + d..p + d] == s[upper..p] && t[q..] == s[q..]
  }

  /** Pointers below p move by d. */
  function Shift(e: Slot, p: int, d: int): Slot { if e.ptr < p then Slot(e.ptr + d, e.node) else e }

  function Shifted(slots: seq<Slot>, p: int, d: int): (r: seq<Slot>)
    ensures |r| == |slots| && forall i :: 0 <= i < |slots| ==> r[i] == Shift(slots[i], p, d)
  {
    seq(|slots|, i requires 0 <= i < |slots| => Shift(slots[i], p, d))
  }

  lemma MovedNode(s: seq<Byte>, t: seq<Byte>, upper: int, g: Slot, e: Slot, d: int, leaf: bool, up: int)
    requires MovedBytes(s, t, upper, g.ptr, g.ptr + Size(g.node), d) && Apart(e, g) && d % 2 == 0 && up == upper + d
    requires Placed(s, e, upper, leaf) && upper <= g.ptr && d <= Size(g.node)
    ensures Placed(t, Shift(e, g.ptr, d), up, leaf)
  {
    var p, q, n := g.ptr, e.ptr, e.node;
    EvenSum(q, d, q + d);
    if q < p {
      Inner(s, upper, t, upper + d, p - upper, q - upper, q - upper + Length(n));
    } else {
      StillAt(s, t, q, n, p + Size(g.node));
    }
  }

  lemma Rest(s: seq<Byte>, slots: seq<Slot>, upper: int, leaf: bool, x: int, rest: seq<Slot>)
    requires AllPlaced(s, slots, upper, leaf) && AllApart(slots) && 0 <= x < |slots| && rest == Without(slots, x)
    ensures AllPlaced(s, rest, upper, leaf) && Placed(s, slots[x], upper, leaf)
    ensures AllApart(rest) && forall i :: 0 <= i < |rest| ==> Apart(rest[i], slots[x])
  {
    RestPlaced(s, slots, upper, leaf, x, rest);
    RestApart(slots, x, rest);
  }

  lemma RestPlaced(s: seq<Byte>, slots: seq<Slot>, upper: int, leaf: bool, x: int, rest: seq<Slot>)
    requires AllPlaced(s, slots, upper, leaf) && 0 <= x < |slots| && rest == Without(slots, x)
    ensures AllPlaced(s, rest, upper, leaf) && Placed(s, slots[x], upper, leaf)
  {
    forall i | 0 <= i < |rest| ensures Placed(s, rest[i], upper, leaf) {
      assert Placed(s, slots[if i < x then i else i + 1], upper, leaf);
    }
  }

  lemma RestApart(slots: seq<Slot>, x: int, rest: seq<Slot>)
    requires AllApart(slots) && 0 <= x < |slots| && rest == Without(slots, x)
    ensures AllApart(rest) && forall i :: 0 <= i < |rest| ==> Apart(rest[i], slots[x])
  {
    forall i | 0 <= i < |rest| ensures Apart(rest[i], slots[x]) {
      var j := if i < x then i else i + 1;
      assert if j < x then Apart(slots[j], slots[x]) else Apart(slots[x], slots[j]);
    }
    forall i, j | 0 <= i < j < |rest| ensures Apart(rest[i], rest[j]) {
      assert Apart(slots[if i < x then i else i + 1], slots[if j < x then j else j + 1]);
    }
  }

  lemma ShiftedPlaced(s: seq<Byte>, t: seq<Byte>, rest: seq<Slot>, upper: int, g: Slot, leaf: bool, d: int, r: seq<Slot>, up: int)
    requires AllPlaced(s, rest, upper, leaf) && Placed(s, g, upper, leaf) && d % 2 == 0 && d <= Size(g.node) && up == upper + d
    requires MovedBytes(s, t, upper, g.ptr, g.ptr + Size(g.node), d) && r == Shifted(rest, g.ptr, d)
    requires forall i :: 0 <= i < |rest| ==> Apart(rest[i], g)
    ensures AllPlaced(t, r, up, leaf)
  {
    forall i | 0 <= i < |rest| ensures Placed(t, r[i], up, leaf) {
      assert Placed(s, rest[i], upper, leaf);
      MovedNode(s, t, upper, g, rest[i], d, leaf, up);
    }
  }

  lemma ShiftedApart(rest: seq<Slot>, g: Slot, d: int, r: seq<Slot>)
    requires AllApart(rest) && d <= Size(g.node) && r == Shifted(rest, g.ptr, d)
    requires forall i :: 0 <= i < |rest| ==> Apart(rest[i], g)
    ensures AllApart(r) && forall i :: 0 <= i < |r| ==> r[i].ptr + Size(r[i].node) <= g.ptr + d || g.ptr + Size(g.node) <= r[i].ptr
  {
    forall i, j | 0 <= i < j < |rest| ensures Apart(r[i], r[j]) {
      assert Apart(rest[i], rest[j]);
    }
  }

  /** The other nodes after those below node x have moved by d. */
  lemma OthersPlaced(s: seq<Byte>, t: seq<Byte>, slots: seq<Slot>, upper: int, leaf: bool, x: int, d: int, r: seq<Slot>, up: int)
    requires AllPlaced(s, slots, upper, leaf) && AllApart(slots) && 0 <= x < |slots| && up == upper + d
    requires d % 2 == 0 && d <= Size(slots[x].node) && r == Shifted(Without(slots, x), slots[x].ptr, d)
    requires MovedBytes(s, t, upper, slots[x].ptr, slots[x].ptr + Size(slots[x].node), d)
    ensures AllPlaced(t, r, up, leaf)
  {
    var rest := Without(slots, x);
    Rest(s, slots, upper, leaf, x, rest);
    ShiftedPlaced(s, t, rest, upper, slots[x], leaf, d, r, up);
  }

  lemma {:induction false} OthersApart(slots: seq<Slot>, x: int, d: int, r: seq<Slot>)
    requires AllApart(slots) && 0 <= x < |slots| && d <= Size(slots[x].node) && r == Shifted(Without(slots, x), slots[x].ptr, d)
    ensures AllApart(r) && Total(r) == Total(slots) - Size(slots[x].node)
    ensures forall i :: 0 <= i < |r| ==>
      r[i].ptr + Size(r[i].node) <= slots[x].ptr + d || slots[x].ptr + Size(slots[x].node) <= r[i].ptr
  {
    var rest := Without(slots, x);
    RestApart(slots, x, rest);
    ShiftedApart(rest, slots[x], d, r);
    OthersTotal(slots, x, d, rest, r);
  }

  lemma {:induction false} OthersTotal(slots: seq<Slot>, x: int, d: int, rest: seq<Slot>, r: seq<Slot>)
    requires 0 <= x < |slots| && rest == Without(slots, x) && r == Shifted(rest, slots[x].ptr, d)
    ensures Total(r) == Total(slots) - Size(slots[x].node)
  {
    TotalWithout(slots, x);
    TotalSame(rest, r);
  }

  /** Deleting node x: the nodes below it move up over it. */
  lemma DelLayout(s: seq<Byte>, t: seq<Byte>, slots: seq<Slot>, lower: int, upper: int, leaf: bool, x: int, sz: int, r: seq<Slot>,
                  low: int, up: int)
    requires Layout(s, slots, lower, upper, leaf) && 0 <= x < |slots| && sz == Size(slots[x].node)
    requires MovedBytes(s, t, upper, slots[x].ptr, slots[x].ptr + sz, sz) && r == Shifted(Without(slots, x), slots[x].ptr, sz)
    requires low == lower - 2 && up == upper + sz
    ensures Layout(t, r, low, up, leaf)
  {
    EvenSum(upper, sz, up);
    OthersPlaced(s, t, slots, upper, leaf, x, sz, r, up);
    OthersApart(slots, x, sz, r);
    assert Placed(s, slots[x], upper, leaf);
  }

  lemma EvenSum(a: int, b: int, c: int)
    requires a % 2 == 0 && b % 2 == 0 && c == a + b
    ensures c % 2 == 0
  {
  }

  /** Giving branch node x a key of another length: it grows or shrinks
      downwards, and the nodes below it move. */
  lemma KeyLayout(s: seq<Byte>, t: seq<Byte>, slots: seq<Slot>, lower: int, upper: int, x: int, n: Node, d: int,
                  moved: seq<Slot>, r: seq<Slot>, up: int)
    requires Layout(s, slots, lower, upper, false) && 0 <= x < |slots| && NodeOk(n, false)
    requires d == Size(slots[x].node) - Size(n) && d % 2 == 0 && up == upper + d && lower <= up
    requires MovedBytes(s, t, upper, slots[x].ptr, slots[x].ptr + Size(slots[x].node), d) && At(t, slots[x].ptr + d, n)
    requires moved == Shifted(Without(slots, x), slots[x].ptr, d) && r == Insert(moved, x, Slot(slots[x].ptr + d, n))
    ensures Layout(t, r, lower, up, false)
  {
    EvenSum(upper, d, up);
    KeyPlaced(s, t, slots, upper, x, n, d, moved, r, up);
    KeyApart(slots, x, n, d, moved, r);
  }

  lemma KeyPlaced(s: seq<Byte>, t: seq<Byte>, slots: seq<Slot>, upper: int, x: int, n: Node, d: int, moved: seq<Slot>,
                  r: seq<Slot>, up: int)
    requires up == upper + d && AllPlaced(s, slots, upper, false) && AllApart(slots) && 0 <= x < |slots| && NodeOk(n, false)
    requires d == Size(slots[x].node) - Size(n) && d % 2 == 0
    requires MovedBytes(s, t, upper, slots[x].ptr, slots[x].ptr + Size(slots[x].node), d) && At(t, slots[x].ptr + d, n)
    requires moved == Shifted(Without(slots, x), slots[x].ptr, d) && r == Insert(moved, x, Slot(slots[x].ptr + d, n))
    ensures AllPlaced(t, r, up, false)
  {
    assert Placed(s, slots[x], upper, false);
    EvenSum(slots[x].ptr, d, slots[x].ptr + d);
    OthersPlaced(s, t, slots, upper, false, x, d, moved, up);
    InsertPlaced(t, moved, up, false, x, Slot(slots[x].ptr + d, n), r);
  }

  lemma {:induction false} KeyApart(slots: seq<Slot>, x: int, n: Node, d: int, moved: seq<Slot>, r: seq<Slot>)
    requires AllApart(slots) && 0 <= x < |slots| && d == Size(slots[x].node) - Size(n)
    requires moved == Shifted(Without(slots, x), slots[x].ptr, d) && r == Insert(moved, x, Slot(slots[x].ptr + d, n))
    ensures AllApart(r) && Total(r) == Total(slots) - d
  {
    var e := Slot(slots[x].ptr + d, n);
    OthersApart(slots, x, d, moved);
    TotalInsert(moved, x, e);
    InsertApart(moved, x, e, r);
  }

  lemma InsertPlaced(t: seq<Byte>, slots: seq<Slot>, upper: int, leaf: bool, x: int, e: Slot, r: seq<Slot>)
    requires AllPlaced(t, slots, upper, leaf) && Placed(t, e, upper, leaf) && 0 <= x <= |slots| && r == Insert(slots, x, e)
    ensures AllPlaced(t, r, upper, leaf)
  {
  }

  lemma InsertApart(slots: seq<Slot>, x: int, e: Slot, r: seq<Slot>)
    requires AllApart(slots) && 0 <= x <= |slots| && r == Insert(slots, x, e)
    requires forall i :: 0 <= i < |slots| ==> Apart(slots[i], e)
    ensures AllApart(r)
  {
    forall i, j | 0 <= i < j < |r| ensures Apart(r[i], r[j]) {
      var a, b := if i < x then i else i - 1, if j < x then j else j - 1;
      if i != x && j != x { assert Apart(slots[a], slots[b]); }
    }
  }
}
