/** What the page modules share: sizes fixed by the file format, and insertion into a sequence. */
module PageFormat {
  const NUM_METAS := 2
  const PAGEHDRSZ := 16
  const NODESIZE := 8

  /** Sizes are rounded up to even numbers. */
  function Even(n: nat): (r: nat)
    ensures r % 2 == 0 && n <= r <= n + 1
  {
    (n + 1) / 2 * 2
  }

  function Insert<T>(s: seq<T>, i: int, x: T): (r: seq<T>)
    requires 0 <= i <= |s|
    ensures |r| == |s| + 1
    ensures forall k :: 0 <= k < |r| ==> r[k] == if k < i then s[k] else if k == i then x else s[k - 1]
  {
    s[..i] + [x] + s[i..]
  }
}
