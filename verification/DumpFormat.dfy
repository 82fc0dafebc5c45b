/**
 The line format of mdb_dump and mdb_load: what the printers write for a byte
 string, what the reader makes of a line, and that the one undoes the other,
 for single lines and for a whole data section.
 */
module DumpFormat {
  import opened Wrappers

  type Bytes = seq<bv8>

  const NEWLINE: bv8 := 0x0a
  const SPACE: bv8 := 0x20
  const BACKSLASH: bv8 := 0x5c

  /** The characters that the C library calls printable; locales differ, but a newline and 0 never are. */
  ghost predicate Printing(p: bv8 -> bool) {
    !p(NEWLINE) && !p(0)
  }

  // ---------------------------------------------------------------- hexadecimal

  /** hexc */
  function Digit(n: bv8): bv8 {
    if n < 10 then 0x30 + n else 0x57 + n
  }

  function Hex(c: bv8): (r: Bytes)
    ensures |r| == 2
  {
    [Digit(c >> 4), Digit(c & 0xf)]
  }

  predicate IsDigit(c: bv8) {
    0x30 <= c <= 0x39 || 0x41 <= c <= 0x46 || 0x61 <= c <= 0x66
  }

  function Nibble(c: bv8): bv8 {
    var x := c & 0x4f;
    if x & 0x40 != 0 then x - 55 else x
  }

  function Unhex(a: bv8, b: bv8): bv8 {
    (Nibble(a) << 4) | Nibble(b)
  }

  /** The sixteen characters of hexadecimal digits, in lower and in upper case. */
  const LOWER: seq<bv8> := [0x30, 0x31, 0x32, 0x33, 0x34, 0x35, 0x36, 0x37, 0x38, 0x39, 0x61, 0x62, 0x63, 0x64, 0x65, 0x66]
  const UPPER: seq<bv8> := [0x30, 0x31, 0x32, 0x33, 0x34, 0x35, 0x36, 0x37, 0x38, 0x39, 0x41, 0x42, 0x43, 0x44, 0x45, 0x46]

  /** A digit and its value. */
  predicate Stands(c: bv8, n: nat) { n < 16 && (c == LOWER[n] || c == UPPER[n]) }

  /** A byte is written as its quotient and its remainder by 16, the quotient
      first, in lower case. */
  lemma HexIs(c: bv8)
    ensures Hex(c) == [LOWER[c as nat / 16], LOWER[c as nat % 16]]
  {
    NibblesAre(c);
    DigitChar(c >> 4);
    DigitChar(c & 0xf);
  }

  lemma NibblesAre(c: bv8)
    ensures (c >> 4) as nat == c as nat / 16 && (c & 0xf) as nat == c as nat % 16
  {
  }

  lemma DigitChar(n: bv8)
    requires n < 16
    ensures Digit(n) == LOWER[n as nat]
  {
  }

  /** Exactly the digits of either case are accepted, and two of them are read
      as sixteen times the first and the second. */
  lemma UnhexIs(a: bv8, b: bv8, m: nat, n: nat)
    requires Stands(a, m) && Stands(b, n)
    ensures IsDigit(a) && IsDigit(b) && Unhex(a, b) as nat == 16 * m + n
  {
    NibbleIs(a, m);
    NibbleIs(b, n);
    ShiftedIs(Nibble(a), Nibble(b));
  }

  lemma NibbleIs(c: bv8, n: nat)
    requires Stands(c, n)
    ensures IsDigit(c) && Nibble(c) as nat == n
  {
  }

  lemma ShiftedIs(a: bv8, b: bv8)
    requires a < 16 && b < 16
    ensures ((a << 4) | b) as nat == 16 * a as nat + b as nat
  {
  }

  lemma IsDigitIs(c: bv8)
    ensures IsDigit(c) <==> exists n: nat :: Stands(c, n)
  {
    if 0x30 <= c <= 0x39 { assert Stands(c, (c - 0x30) as nat); }
    if 0x41 <= c <= 0x46 { assert Stands(c, (c - 0x41) as nat + 10); }
    if 0x61 <= c <= 0x66 { assert Stands(c, (c - 0x61) as nat + 10); }
  }

  lemma DigitIs(n: bv8)
    requires n < 16
    ensures IsDigit(Digit(n)) && Nibble(Digit(n)) == n
  {
  }

  lemma Halves(c: bv8)
    ensures c >> 4 < 16 && c & 0xf < 16 && ((c >> 4) << 4) | (c & 0xf) == c
  {
  }

  lemma UnhexHex(c: bv8)
    ensures IsDigit(Hex(c)[0]) && IsDigit(Hex(c)[1]) && Unhex(Hex(c)[0], Hex(c)[1]) == c
  {
    Halves(c);
    DigitIs(c >> 4);
    DigitIs(c & 0xf);
  }

  lemma DigitNotSpecial(c: bv8)
    requires IsDigit(c)
    ensures c != NEWLINE && c != 0 && c != BACKSLASH
  {
  }

  // ---------------------------------------------------------------- printing

  function TextByte(c: bv8, p: bv8 -> bool): Bytes {
    if p(c) then if c == BACKSLASH then [BACKSLASH, c] else [c]
    else [BACKSLASH] + Hex(c)
  }

  function TextBody(s: Bytes, p: bv8 -> bool): Bytes {
    if s == [] then [] else TextByte(s[0], p) + TextBody(s[1..], p)
  }

  function HexBody(s: Bytes): Bytes {
    if s == [] then [] else Hex(s[0]) + HexBody(s[1..])
  }

  function Body(s: Bytes, text: bool, p: bv8 -> bool): Bytes {
    if text then TextBody(s, p) else HexBody(s)
  }

  /** The line that text or byte prints. */
  function Line(s: Bytes, text: bool, p: bv8 -> bool): Bytes {
    [SPACE] + Body(s, text, p) + [NEWLINE]
  }

  lemma {:induction false} TextBodyMore(s: Bytes, c: bv8, p: bv8 -> bool)
    ensures TextBody(s + [c], p) == TextBody(s, p) + TextByte(c, p)
  {
    var t := s + [c];
    if s == [] {
      assert t[1..] == [];
    } else {
      TextBodyMore(s[1..], c, p);
      assert t[0] == s[0] && t[1..] == s[1..] + [c];
      assert TextBody(t, p) == TextByte(s[0], p) + TextBody(s[1..] + [c], p);
    }
  }

  lemma {:induction false} HexBodyMore(s: Bytes, c: bv8)
    ensures HexBody(s + [c]) == HexBody(s) + Hex(c)
  {
    var t := s + [c];
    if s == [] {
      assert t[1..] == [];
    } else {
      HexBodyMore(s[1..], c);
      assert t[0] == s[0] && t[1..] == s[1..] + [c];
      assert HexBody(t) == Hex(s[0]) + HexBody(s[1..] + [c]);
    }
  }

  // ---------------------------------------------------------------- reading back

  function Prepend(c: bv8, r: Option<Bytes>): Option<Bytes> {
    if r.None? then None else Some([c] + r.value)
  }

  /** A line in the print format, without its newline; None where the reader gives up. */
  function DecodeText(l: Bytes): Option<Bytes> {
    if l == [] then Some([])
    else if l[0] != BACKSLASH then Prepend(l[0], DecodeText(l[1..]))
    else if |l| >= 2 && l[1] == BACKSLASH then Prepend(BACKSLASH, DecodeText(l[2..]))
    else if |l| < 3 || !IsDigit(l[1]) || !IsDigit(l[2]) then None
    else Prepend(Unhex(l[1], l[2]), DecodeText(l[3..]))
  }

  /** A line in the bytevalue format. */
  function DecodeHex(l: Bytes): Option<Bytes> {
    if l == [] then Some([])
    else if |l| < 2 || !IsDigit(l[0]) || !IsDigit(l[1]) then None
    else Prepend(Unhex(l[0], l[1]), DecodeHex(l[2..]))
  }

  function Decode(l: Bytes, text: bool): Option<Bytes> {
    if text then DecodeText(l) else DecodeHex(l)
  }

  lemma {:induction false} TextByteBack(c: bv8, p: bv8 -> bool, l: Bytes)
    ensures DecodeText(TextByte(c, p) + l) == Prepend(c, DecodeText(l))
  {
    var t := TextByte(c, p) + l;
    if p(c) {
      if c == BACKSLASH {
        assert t[0] == BACKSLASH && t[1] == BACKSLASH && t[2..] == l;
      } else {
        assert t[0] == c && t[1..] == l;
      }
    } else {
      UnhexHex(c);
      DigitNotSpecial(Hex(c)[0]);
      assert t[0] == BACKSLASH && t[1] == Hex(c)[0] && t[2] == Hex(c)[1] && t[3..] == l;
    }
  }

  lemma {:induction false} TextBack(s: Bytes, p: bv8 -> bool)
    ensures DecodeText(TextBody(s, p)) == Some(s)
  {
    if s != [] {
      TextBack(s[1..], p);
      TextByteBack(s[0], p, TextBody(s[1..], p));
      assert s == [s[0]] + s[1..];
    }
  }

  lemma {:induction false} HexBack(s: Bytes)
    ensures DecodeHex(HexBody(s)) == Some(s)
  {
    if s != [] {
      HexBack(s[1..]);
      UnhexHex(s[0]);
      var t := HexBody(s);
      assert t[0] == Hex(s[0])[0] && t[1] == Hex(s[0])[1] && t[2..] == HexBody(s[1..]);
      assert s == [s[0]] + s[1..];
    }
  }

  /** Either reader undoes its printer, for every byte string. */
  lemma BodyBack(s: Bytes, text: bool, p: bv8 -> bool)
    ensures Decode(Body(s, text, p), text) == Some(s)
  {
    TextBack(s, p);
    HexBack(s);
  }

  // ---------------------------------------------------------------- lines of the input

  /** No byte of s is a newline or 0. */
  predicate Plain(s: Bytes) {
    forall k :: 0 <= k < |s| ==> s[k] != NEWLINE && s[k] != 0
  }

  /** The length of the first line, with its newline if it has one. */
  function LineLength(s: Bytes): (n: nat)
    ensures n <= |s| && (s != [] ==> n > 0)
    ensures forall k :: 0 <= k < n - 1 ==> s[k] != NEWLINE
    ensures n < |s| ==> s[n - 1] == NEWLINE
  {
    if s == [] then 0
    else if s[0] == NEWLINE then 1
    else 1 + LineLength(s[1..])
  }

  lemma {:induction false} LineOf(l: Bytes, rest: Bytes)
    requires forall k :: 0 <= k < |l| ==> l[k] != NEWLINE
    ensures LineLength(l + [NEWLINE] + rest) == |l| + 1
  {
    var s := l + [NEWLINE] + rest;
    if l != [] {
      LineOf(l[1..], rest);
      assert s[1..] == l[1..] + [NEWLINE] + rest;
    }
  }

  lemma HexPlain(c: bv8)
    ensures Plain(Hex(c))
  {
    UnhexHex(c);
    DigitNotSpecial(Hex(c)[0]);
    DigitNotSpecial(Hex(c)[1]);
  }

  lemma TextBytePlain(c: bv8, p: bv8 -> bool)
    requires Printing(p)
    ensures Plain(TextByte(c, p))
  {
    HexPlain(c);
  }

  lemma {:induction false} TextPlain(s: Bytes, p: bv8 -> bool)
    requires Printing(p)
    ensures Plain(TextBody(s, p))
  {
    if s != [] {
      TextPlain(s[1..], p);
      TextBytePlain(s[0], p);
    }
  }

  lemma {:induction false} HexBodyPlain(s: Bytes)
    ensures Plain(HexBody(s))
  {
    if s != [] {
      HexBodyPlain(s[1..]);
      HexPlain(s[0]);
    }
  }

  lemma BodyPlain(s: Bytes, text: bool, p: bv8 -> bool)
    requires Printing(p)
    ensures Plain(Body(s, text, p))
  {
    if text {
      TextPlain(s, p);
    } else {
      HexBodyPlain(s);
    }
  }

  // ---------------------------------------------------------------- what readline does

  datatype Outcome =
    | Value(v: Bytes, rest: Bytes)  // a string, and the input after its line
    | DataEnd(line: Bytes)          // the end of a data section: the input after the D
    | Failed                        // the end of the input, or a line that is not one

  /** A line of the input, from after the leading space. */
  function ReadBody(s: Bytes, text: bool): Outcome {
    var n := LineLength(s);
    if n == 0 || s[n - 1] != NEWLINE then Failed
    else
      var r := Decode(s[..n - 1], text);
      if r.None? then Failed else Value(r.value, s[n..])
  }

  const ATA_END: Bytes := [0x41, 0x54, 0x41, 0x3d, 0x45, 0x4e, 0x44]

  function Read(s: Bytes, text: bool, header: bool): Outcome {
    if !header then ReadBody(s, text)
    else if s == [] then Failed
    else if s[0] == SPACE then ReadBody(s[1..], text)
    else if s[0] == 0x44 && ATA_END <= s[1..] then DataEnd(s[1..])
    else Failed
  }

  /** Reading the line that was printed gives the string, and leaves what follows the line. */
  lemma ReadLine(s: Bytes, text: bool, p: bv8 -> bool, rest: Bytes)
    requires Printing(p)
    ensures Read(Line(s, text, p) + rest, text, true) == Value(s, rest)
  {
    var l := Body(s, text, p);
    var t := Line(s, text, p) + rest;
    BodyBack(s, text, p);
    BodyPlain(s, text, p);
    assert t[1..] == l + [NEWLINE] + rest;
    LineOf(l, rest);
    assert t[1..][..|l|] == l && t[1..][|l| + 1..] == rest;
  }

  /** Without a header the leading space is not skipped: text gets one byte more, bytes are refused. */
  lemma ReadWithoutHeader(s: Bytes, text: bool, p: bv8 -> bool, rest: Bytes)
    requires Printing(p)
    ensures Read(Line(s, text, p) + rest, text, false) == if text then Value([SPACE] + s, rest) else Failed
  {
    var l := [SPACE] + Body(s, text, p);
    var t := Line(s, text, p) + rest;
    BodyBack(s, text, p);
    BodyPlain(s, text, p);
    assert t == l + [NEWLINE] + rest;
    LineOf(l, rest);
    assert t[..|l|] == l && t[|l| + 1..] == rest && l[1..] == Body(s, text, p);
  }

  // ---------------------------------------------------------------- a data section

  datatype Pair = Pair(key: Bytes, data: Bytes)

  /** What the loop of dumpit prints. */
  function Section(ps: seq<Pair>, text: bool, p: bv8 -> bool): Bytes {
    if ps == [] then [0x44] + ATA_END + [NEWLINE]
    else Line(ps[0].key, text, p) + Line(ps[0].data, text, p) + Section(ps[1..], text, p)
  }

  /** What the loop of mdb_load reads: pairs until a key line does not come. */
  function ReadPairs(s: Bytes, text: bool, header: bool): (seq<Pair>, Outcome)
    decreases |s|
  {
    var k := Read(s, text, header);
    if !k.Value? then ([], k)
    else
      ReadShortens(s, text, header);
      var d := Read(k.rest, text, header);
      if !d.Value? then ([], d)
      else
        ReadShortens(k.rest, text, header);
        var r := ReadPairs(d.rest, text, header);
        ([Pair(k.v, d.v)] + r.0, r.1)
  }

  lemma ReadShortens(s: Bytes, text: bool, header: bool)
    requires Read(s, text, header).Value?
    ensures |Read(s, text, header).rest| < |s|
  {
  }

  /** A printed pair is read back, whatever comes after it. */
  lemma {:induction false} PairBack(q: Pair, text: bool, p: bv8 -> bool, more: Bytes, r: (seq<Pair>, Outcome), s: Bytes)
    requires Printing(p) && r == ReadPairs(more, text, true)
    requires s == Line(q.key, text, p) + (Line(q.data, text, p) + more)
    ensures ReadPairs(s, text, true) == ([q] + r.0, r.1)
  {
    ReadLine(q.key, text, p, Line(q.data, text, p) + more);
    ReadLine(q.data, text, p, more);
  }

  lemma {:induction false} EndBack(text: bool, p: bv8 -> bool, rest: Bytes)
    ensures ReadPairs(Section([], text, p) + rest, text, true) == ([], DataEnd(ATA_END + [NEWLINE] + rest))
  {
    assert (Section([], text, p) + rest)[1..] == ATA_END + [NEWLINE] + rest;
  }

  lemma {:induction false} SectionParts(ps: seq<Pair>, text: bool, p: bv8 -> bool, rest: Bytes)
    requires ps != []
    ensures Section(ps, text, p) + rest ==
      Line(ps[0].key, text, p) + (Line(ps[0].data, text, p) + (Section(ps[1..], text, p) + rest))
  {
  }

  /** A dumped section is read back pair by pair, up to its end line. */
  lemma {:induction false} SectionBack(ps: seq<Pair>, text: bool, p: bv8 -> bool, rest: Bytes)
    requires Printing(p)
    ensures ReadPairs(Section(ps, text, p) + rest, text, true) == (ps, DataEnd(ATA_END + [NEWLINE] + rest))
    decreases |ps|
  {
    if ps == [] {
      EndBack(text, p, rest);
    } else {
      var more, r := Section(ps[1..], text, p) + rest, (ps[1..], DataEnd(ATA_END + [NEWLINE] + rest));
      SectionBack(ps[1..], text, p, rest);
      SectionParts(ps, text, p, rest);
      PairBack(ps[0], text, p, more, r, Section(ps, text, p) + rest);
      assert ps == [ps[0]] + ps[1..];
    }
  }
}
