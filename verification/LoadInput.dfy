/** The state of mdb_load while it reads: the input, the Eof flag, the line number, and a growing buffer. */
module LoadInput {
  import opened DumpFormat
  import opened LoadLine
  import opened Wrappers

  /** A buffer of at least `size` bytes; the smallest has room for the end mark of a section. */
  class Buffer {
    var data: array<bv8>
    var size: nat

    constructor (n: nat)
      requires n >= 8
      ensures Valid() && fresh(data) && size == n
    {
      data := new bv8[n];
      size := n;
    }

    ghost predicate Valid()
      reads this
    {
      8 <= size <= data.Length
    }

    /** realloc to twice the size, which the caller records only when more input has come. */
    method Realloc()
      requires Valid()
      modifies this`data
      ensures fresh(data) && data.Length == 2 * size
      ensures data[..size] == old(data[..size])
    {
      var block := data;
      var more := new bv8[2 * size];
      var i := 0;
      while i < size
        invariant i <= size && data == block
        invariant more[..i] == block[..i] && block[..size] == old(data[..size])
      {
        more[i] := block[i];
        i := i + 1;
      }
      data := more;
    }
  }

  // ---------------------------------------------------------------- lines and chunks

  lemma {:induction false} LineLengthIs(s: Bytes, k: nat)
    requires 0 < k <= |s|
    requires forall i :: 0 <= i < k - 1 ==> s[i] != NEWLINE
    requires s[k - 1] == NEWLINE || k == |s|
    ensures LineLength(s) == k
  {
  }

  function Min(a: nat, b: nat): nat { if a < b then a else b }

  /** What fgets with room for n bytes takes from s. */
  function Taken(s: Bytes, n: nat): (k: nat)
    requires n >= 2
    ensures k <= |s|
  {
    Min(n - 1, LineLength(s))
  }

  /** The first l bytes of s are in the buffer, and the line is no shorter. */
  predicate Partial(s: Bytes, l: nat) {
    0 < l <= LineLength(s) && (s[l - 1] == NEWLINE ==> l == LineLength(s))
  }

  lemma FirstChunk(s: Bytes, n: nat)
    requires s != [] && n >= 2
    ensures Partial(s, Taken(s, n))
  {
  }

  lemma NextChunk(s: Bytes, l: nat, n: nat)
    requires Partial(s, l) && s[l - 1] != NEWLINE && n >= 2 && l < |s|
    ensures Partial(s, l + Taken(s[l..], n))
  {
    LineGoesOn(s, l);
    var k := Taken(s[l..], n);
    assert s[l + k - 1] == s[l..][k - 1];
  }

  lemma {:induction false} LineGoesOn(s: Bytes, l: nat)
    requires Partial(s, l) && s[l - 1] != NEWLINE && l < |s|
    ensures LineLength(s) == l + LineLength(s[l..])
  {
    var rest := s[l..];
    var m := LineLength(rest);
    forall i | 0 <= i < l + m - 1 ensures s[i] != NEWLINE {
      if i >= l {
        assert s[i] == rest[i - l];
      }
    }
    assert s[l + m - 1] == rest[m - 1];
    LineLengthIs(s, l + m);
  }

  lemma MarkInChunk(line: Bytes, n: nat)
    requires n >= 8 && line != []
    ensures var k := Taken(line, n);
            ATA_END <= line <==> ATA_END <= line[..k]
  {
    var k := Taken(line, n);
    if ATA_END <= line {
      assert line[..7] == ATA_END;
      assert forall i :: 0 <= i < 7 ==> line[i] == ATA_END[i];
      assert k >= 7;
      assert line[..k][..7] == ATA_END;
    }
    if ATA_END <= line[..k] {
      assert line[..k][..7] == line[..7];
    }
  }

  // ---------------------------------------------------------------- a line, chunk by chunk

  /** strlen: a chunk up to its first 0. */
  function Chop(s: Bytes): (r: Bytes)
    ensures |r| <= |s| && r == s[..|r|] && NoZero(r)
    ensures |r| < |s| ==> s[|r|] == 0
  {
    if s == [] || s[0] == 0 then [] else [s[0]] + Chop(s[1..])
  }

  datatype Got = Whole | NoMore | BadEnd

  /** What readline has got: the line, with its newline, the rest of the input, and the size of its buffer. */
  datatype LineRead = LineRead(got: Got, line: Bytes, rest: Bytes, size: nat)

  /** Chunks are added until there is a newline at the end.  Of a chunk only
      what is before its first 0 stays, so a line with a 0 in it loses its end
      and goes on with the next line. */
  function MoreChunks(line: Bytes, s: Bytes, size: nat): LineRead
    requires line != [] && size > 0
    decreases |s|
  {
    if line[|line| - 1] == NEWLINE then LineRead(Whole, line, s, size)
    else if s == [] then LineRead(BadEnd, line, [], size)
    else
      var k := Taken(s, size + 1);
      MoreChunks(line + Chop(s[..k]), s[k..], 2 * size)
  }

  lemma {:induction false} MoreOnce(line: Bytes, s: Bytes, size: nat, c: LineRead)
    requires line != [] && size > 0 && c == MoreChunks(line, s, size)
    ensures line[|line| - 1] == NEWLINE ==> c == LineRead(Whole, line, s, size)
    ensures line[|line| - 1] != NEWLINE && s == [] ==> c == LineRead(BadEnd, line, [], size)
    ensures line[|line| - 1] != NEWLINE && s != [] ==>
      var k := Taken(s, size + 1); c == MoreChunks(line + Chop(s[..k]), s[k..], 2 * size)
  {
  }

  /** None if the input starts with a 0: readline then looks at the byte before its buffer. */
  function Chunks(s: Bytes, size: nat): Option<LineRead>
    requires size >= 2
  {
    if s == [] then Some(LineRead(NoMore, [], [], size))
    else
      var k := Taken(s, size);
      if s[0] == 0 then None else Some(MoreChunks(Chop(s[..k]), s[k..], size))
  }

  predicate Grown(r: LineRead, line: Bytes, s: Bytes) {
    && NoZero(r.line) && line <= r.line && |r.rest| <= |s|
    && (r.got.Whole? ==> r.line != [] && r.line[|r.line| - 1] == NEWLINE)
  }

  lemma GrownMore(r: LineRead, line: Bytes, chunk: Bytes, s: Bytes, k: nat)
    requires k <= |s| && line != [] && Grown(r, line + chunk, s[k..])
    ensures Grown(r, line, s)
  {
    assert r.line[..|line|] == (line + chunk)[..|line|] == line;
  }

  /** A line is read to its newline, and no 0 is in it. */
  lemma {:induction false} WholeLine(line: Bytes, s: Bytes, size: nat)
    requires line != [] && size > 0 && NoZero(line)
    ensures Grown(MoreChunks(line, s, size), line, s)
    decreases |s|
  {
    var r := MoreChunks(line, s, size);
    MoreOnce(line, s, size, r);
    if line[|line| - 1] != NEWLINE && s != [] {
      var k := Taken(s, size + 1);
      WholeLine(line + Chop(s[..k]), s[k..], 2 * size);
      GrownMore(r, line, Chop(s[..k]), s, k);
    }
  }

  function LineKind(s: Bytes): Got {
    if s == [] then NoMore else if s[LineLength(s) - 1] == NEWLINE then Whole else BadEnd
  }

  lemma {:induction false} NoZeroChopped(s: Bytes)
    requires NoZero(s)
    ensures Chop(s) == s
  {
  }

  /** The first line of an input without 0, and what follows it. */
  predicate IsLine(r: LineRead, s: Bytes) {
    r.got == LineKind(s) && (r.got.Whole? ==> r.line == s[..LineLength(s)] && r.rest == s[LineLength(s)..])
  }

  /** What the loop makes of a line whose first l bytes are in the buffer. */
  function FromByte(s: Bytes, l: nat, size: nat): LineRead
    requires 0 < l <= |s| && size > 0
  {
    MoreChunks(s[..l], s[l..], size)
  }

  /** One more chunk of a line without 0. */
  lemma {:induction false} PlainChunk(s: Bytes, l: nat, size: nat, k: nat)
    requires NoZero(s) && 0 < l < |s| && s[l - 1] != NEWLINE && size > 0 && k == Taken(s[l..], size + 1)
    ensures l + k <= |s| && FromByte(s, l, size) == FromByte(s, l + k, 2 * size)
  {
    var rest := s[l..];
    NoZeroChopped(rest[..k]);
    assert s[..l] + rest[..k] == s[..l + k] && rest[k..] == s[l + k..];
  }

  lemma {:induction false} PlainEnd(s: Bytes, l: nat, size: nat)
    requires Partial(s, l) && size > 0 && (s[l - 1] == NEWLINE || l == |s|)
    ensures IsLine(FromByte(s, l, size), s)
  {
    assert s[..l][l - 1] == s[l - 1];
  }

  lemma {:induction false} PlainMore(s: Bytes, l: nat, size: nat)
    requires NoZero(s) && Partial(s, l) && size > 0
    ensures IsLine(FromByte(s, l, size), s)
    decreases |s| - l
  {
    if s[l - 1] == NEWLINE || l == |s| {
      PlainEnd(s, l, size);
    } else {
      var k := Taken(s[l..], size + 1);
      NextChunk(s, l, size + 1);
      PlainChunk(s, l, size, k);
      PlainMore(s, l + k, 2 * size);
    }
  }

  /** If there is no 0 in the input, a line is what is before the newline,
      whatever the size of the buffer. */
  lemma PlainChunks(s: Bytes, size: nat)
    requires NoZero(s) && size >= 2
    ensures Chunks(s, size).Some? && IsLine(Chunks(s, size).value, s)
  {
    if s != [] {
      var k := Taken(s, size);
      FirstChunk(s, size);
      NoZeroChopped(s[..k]);
      PlainMore(s, k, size);
    }
  }

  function BodyOf(r: LineRead, text: bool): Outcome {
    if !r.got.Whole? || r.line == [] then Failed
    else
      var d := Decode(r.line[..|r.line| - 1], text);
      if d.None? then Failed else Value(d.value, r.rest)
  }

  /** readline on any input, from after the leading space: the string, and the size of the buffer afterwards. */
  function BodyAny(s: Bytes, text: bool, size: nat): Option<(Outcome, nat)>
    requires size >= 2
  {
    var r := Chunks(s, size);
    if r.None? then None else Some((BodyOf(r.value, text), r.value.size))
  }

  function ReadAny(s: Bytes, text: bool, header: bool, size: nat): Option<(Outcome, nat)>
    requires size >= 2
  {
    if !header then BodyAny(s, text, size)
    else if s == [] then Some((Failed, size))
    else if s[0] == SPACE then BodyAny(s[1..], text, size)
    else if s[0] == 0x44 && ATA_END <= s[1..] then Some((DataEnd(s[1..]), size))
    else Some((Failed, size))
  }

  lemma PlainBody(s: Bytes, text: bool, size: nat)
    requires NoZero(s) && size >= 2
    ensures BodyAny(s, text, size).Some? && BodyAny(s, text, size).value.0 == ReadBody(s, text)
  {
    PlainChunks(s, size);
    BodyOfLine(Chunks(s, size).value, s, text);
  }

  lemma {:induction false} BodyOfLine(r: LineRead, s: Bytes, text: bool)
    requires IsLine(r, s)
    ensures BodyOf(r, text) == ReadBody(s, text)
  {
    if r.got.Whole? {
      assert r.line[..|r.line| - 1] == s[..LineLength(s) - 1];
    }
  }

  /** If there is no 0 in the input, readline does what Read says. */
  lemma PlainRead(s: Bytes, text: bool, header: bool, size: nat)
    requires NoZero(s) && size >= 2
    ensures ReadAny(s, text, header, size).Some? && ReadAny(s, text, header, size).value.0 == Read(s, text, header)
  {
    if !header {
      PlainBody(s, text, size);
    } else if s != [] {
      PlainBody(s[1..], text, size);
    }
  }

  lemma AnyShortens(s: Bytes, text: bool, header: bool, size: nat)
    requires size >= 2 && ReadAny(s, text, header, size).Some? && ReadAny(s, text, header, size).value.0.Value?
    ensures |ReadAny(s, text, header, size).value.0.rest| < |s| && ReadAny(s, text, header, size).value.1 >= size
  {
    ShorterChunks(s, size);
    if header {
      ShorterChunks(s[1..], size);
    }
  }

  lemma ShorterChunks(s: Bytes, size: nat)
    requires size >= 2 && s != [] && s[0] != 0
    ensures Chunks(s, size).Some? && |Chunks(s, size).value.rest| < |s| && Chunks(s, size).value.size >= size
  {
    var k := Taken(s, size);
    WholeLine(Chop(s[..k]), s[k..], size);
    LargerBuffer(Chop(s[..k]), s[k..], size);
  }

  lemma {:induction false} LargerBuffer(line: Bytes, s: Bytes, size: nat)
    requires line != [] && size > 0
    ensures MoreChunks(line, s, size).size >= size
    decreases |s|
  {
    if line[|line| - 1] != NEWLINE && s != [] {
      var k := Taken(s, size + 1);
      LargerBuffer(line + Chop(s[..k]), s[k..], 2 * size);
    }
  }

  class Loader {
    var input: Bytes
    var eof: bool
    var lineno: nat
    var noHeader: bool
    var text: bool

    constructor (s: Bytes, nohdr: bool, asText: bool)
      ensures input == s && !eof && lineno == 0 && noHeader == nohdr && text == asText
    {
      input, eof, lineno, noHeader, text := s, false, 0, nohdr, asText;
    }

    /** fgets into b[at..], with room for n bytes. */
    method Fgets(b: array<bv8>, at: nat, n: nat) returns (got: bool, ghost k: nat)
      requires n >= 2 && at + n <= b.Length
      modifies this`input, b
      ensures got <==> old(input) != []
      ensures !got ==> input == []
      ensures got ==> k == Taken(old(input), n)
      ensures got ==> input == old(input)[k..] && b[at..at + k] == old(input)[..k] && b[at + k] == 0
      ensures b[..at] == old(b[..at])
    {
      if input == [] {
        return false, 0;
      }
      ghost var s := input;
      var i := 0;
      while i < n - 1 && input != []
        invariant i <= n - 1 && i <= |s| && input == s[i..]
        invariant b[at..at + i] == s[..i]
        invariant forall j :: 0 <= j < i ==> s[j] != NEWLINE
        invariant b[..at] == old(b[..at])
      {
        var c := input[0];
        input := input[1..];
        b[at + i] := c;
        i := i + 1;
        if c == NEWLINE {
          break;
        }
      }
      ChunkIs(s, n, i);
      b[at + i] := 0;
      got, k := true, i;
    }

    /** strlen of what fgets has put there. */
    method Strlen(b: array<bv8>, at: nat, ghost chunk: Bytes) returns (len: nat)
      requires at + |chunk| < b.Length && b[at..at + |chunk|] == chunk && b[at + |chunk|] == 0
      ensures len == |Chop(chunk)| && b[at..at + len] == Chop(chunk)
    {
      len := 0;
      ghost var n := |Chop(chunk)|;
      ChunkBytes(b[..], at, chunk);
      while b[at + len] != 0
        invariant len <= n
        decreases n - len
      {
        len := len + 1;
      }
      assert b[at..at + len] == b[at..at + |chunk|][..len];
    }

    /** The state of the buffer: the line so far. */
    ghost predicate Filled(buf: Buffer, line: Bytes)
      reads this, buf, buf.data
    {
      buf.Valid() && 0 < |line| < buf.size && buf.data[..|line|] == line
    }

    /** The buffer is too short: double it and read on behind what is there. */
    method ReadMore(buf: Buffer, l2: nat, ghost line: Bytes) returns (got: bool, len: nat)
      requires Filled(buf, line) && l2 == |line|
      modifies this`input, buf
      ensures buf.Valid() && fresh(buf.data)
      ensures got <==> old(input) != []
      ensures got ==> var k := Taken(old(input), old(buf.size) + 1);
        && len == |Chop(old(input)[..k])| && Filled(buf, line + Chop(old(input)[..k]))
        && input == old(input)[k..] && buf.size == 2 * old(buf.size)
      ensures !got ==> input == [] && buf.size == old(buf.size)
    {
      ghost var was := buf.data[..buf.size];
      assert was[..l2] == line;
      buf.Realloc();
      assert buf.data[..l2] == was[..l2];
      got, len := ReadBehind(buf.data, l2, buf.size + 1, line);
      if got {
        buf.size := buf.size * 2;
      }
    }

    /** A chunk behind what is there. */
    method ReadBehind(b: array<bv8>, l2: nat, n: nat, ghost line: Bytes) returns (got: bool, len: nat)
      requires n >= 2 && l2 + n <= b.Length && l2 == |line| && b[..l2] == line
      modifies this`input, b
      ensures got <==> old(input) != []
      ensures got ==> var k := Taken(old(input), n);
        && len == |Chop(old(input)[..k])| && len < n && b[..l2 + len] == line + Chop(old(input)[..k])
        && input == old(input)[k..]
      ensures !got ==> input == []
    {
      ghost var s := input;
      ghost var k;
      got, k := Fgets(b, l2, n);
      if !got {
        return false, 0;
      }
      len := Strlen(b, l2, s[..k]);
      assert b[..l2 + len] == b[..l2] + b[l2..l2 + len];
    }

    /** The first fgets of a line. */
    method ReadFirst(buf: Buffer) returns (got: bool, len: nat)
      requires buf.Valid() && (input != [] ==> input[0] != 0)
      modifies this`input, buf.data
      ensures got <==> old(input) != []
      ensures got ==> var k := Taken(old(input), buf.size);
        len == |Chop(old(input)[..k])| && Filled(buf, Chop(old(input)[..k])) && input == old(input)[k..]
      ensures !got ==> input == []
    {
      ghost var s := input;
      ghost var k;
      got, k := Fgets(buf.data, 0, buf.size);
      if !got {
        return false, 0;
      }
      len := Strlen(buf.data, 0, s[..k]);
      assert buf.data[..len] == buf.data[0..0 + len];
    }

    /** The first part of readline: the chunks of a line, until one ends in a newline. */
    method GetLine(buf: Buffer, ghost c: LineRead) returns (r: Got, l2: nat)
      requires buf.Valid() && Chunks(input, buf.size) == Some(c)
      modifies this`input, this`eof, this`lineno, buf, buf.data
      ensures buf.Valid() && (buf.data == old(buf.data) || fresh(buf.data))
      ensures r == c.got && input == c.rest && buf.size == c.size && (r.Whole? ==> l2 == |c.line| && Filled(buf, c.line))
      ensures eof == (old(eof) || !r.Whole?)
      ensures lineno == old(lineno) + if r.NoMore? then 0 else 1
    {
      var got, len := ReadFirst(buf);
      if !got {
        eof := true;
        return NoMore, 0;
      }
      lineno := lineno + 1;
      r, l2 := GetMore(buf, len, buf.data[..len], c);
    }

    /** Is the buffer too short? */
    method GetMore(buf: Buffer, n: nat, ghost first: Bytes, ghost c: LineRead) returns (r: Got, l2: nat)
      requires Filled(buf, first) && n == |first| && c == MoreChunks(first, input, buf.size)
      modifies this`input, this`eof, buf, buf.data
      ensures buf.Valid() && (buf.data == old(buf.data) || fresh(buf.data))
      ensures r == c.got && input == c.rest && buf.size == c.size && (r.Whole? ==> l2 == |c.line| && Filled(buf, c.line))
      ensures eof == (old(eof) || !r.Whole?) && !r.NoMore?
    {
      var c1, len, got := 0, n, true;
      l2 := len;
      ghost var line := first;
      while buf.data[c1 + len - 1] != NEWLINE
        invariant c1 + len == l2 == |line| && Filled(buf, line)
        invariant buf.data == old(buf.data) || fresh(buf.data)
        invariant eof == old(eof) && c == MoreChunks(line, input, buf.size)
        decreases |input|
      {
        assert line[|line| - 1] == buf.data[l2 - 1];
        MoreOnce(line, input, buf.size, c);
        c1 := l2;
        ghost var chunk := input[..Taken(input, buf.size + 1)];
        got, len := ReadMore(buf, l2, line);
        if !got {
          eof := true;
          return BadEnd, l2;
        }
        l2, line := l2 + len, line + Chop(chunk);
      }
      assert line[|line| - 1] == buf.data[l2 - 1] == NEWLINE;
      MoreOnce(line, input, buf.size, c);
      r := Whole;
    }

    /** The last part of readline: the newline becomes a terminator, and the line is decoded in place. */
    method DecodeLine(buf: Buffer, l2: nat, ghost line: Bytes) returns (ok: bool, n: nat)
      requires Filled(buf, line) && l2 == |line|
      modifies this`eof, buf.data
      ensures ok == Decode(line[..l2 - 1], text).Some?
      ensures ok ==> n <= l2 && Decode(line[..l2 - 1], text) == Some(buf.data[..n])
      ensures eof == (old(eof) || !ok)
    {
      var len := l2 - 1;
      assert buf.data[..len] == buf.data[..l2][..len];
      buf.data[len] := 0;
      if text {
        ok, n := UnescapeText(buf.data, len);
      } else {
        ok, n := UnescapeHex(buf.data, len);
      }
      if !ok {
        eof := true;
      }
    }

    /** readline from after the leading space. */
    method ReadBodyLine(buf: Buffer, ghost r: (Outcome, nat)) returns (ok: bool, n: nat)
      requires buf.Valid() && BodyAny(input, text, buf.size) == Some(r)
      modifies this`input, this`eof, this`lineno, buf, buf.data
      ensures buf.Valid() && (buf.data == old(buf.data) || fresh(buf.data))
      ensures ok == r.0.Value?
      ensures ok ==> n <= buf.data.Length && r == (Value(buf.data[..n], input), buf.size)
      ensures ok ==> lineno == old(lineno) + 1 && eof == old(eof)
      ensures !ok ==> eof
    {
      ghost var c := Chunks(input, buf.size).value;
      var got, l2 := GetLine(buf, c);
      if !got.Whole? {
        return false, 0;
      }
      ok, n := DecodeLine(buf, l2, c.line);
    }

    /** A line that does not start with a space: the end of the data, or not a line. */
    method ReadMark(buf: Buffer, c: bv8)
      requires buf.Valid() && c != SPACE
      modifies this`input, this`eof, this`lineno, buf.data
      ensures Read([c] + old(input), text, true).DataEnd? ==> eof == old(eof)
      ensures Read([c] + old(input), text, true).DataEnd? ==> input == old(input)[Taken(old(input), buf.size)..]
      ensures Read([c] + old(input), text, true).Failed? ==> eof
      ensures !Read([c] + old(input), text, true).Value?
    {
      ghost var line := input;
      assert ([c] + line)[1..] == line;
      lineno := lineno + 1;
      var got;
      ghost var k;
      got, k := Fgets(buf.data, 0, buf.size);
      if !got {
        eof := true;
        return;
      }
      MarkInChunk(line, buf.size);
      MarkRead(buf.data[..], line, k);
      if c == 0x44 && buf.data[..7] == ATA_END {
        return;
      }
      eof := true;
    }

    /** readline, on any input on which the source keeps to its buffer. */
    method ReadLine(buf: Buffer, ghost r: (Outcome, nat)) returns (ok: bool, n: nat)
      requires buf.Valid() && ReadAny(input, text, !noHeader, buf.size) == Some(r)
      modifies this`input, this`eof, this`lineno, buf, buf.data
      ensures buf.Valid() && (buf.data == old(buf.data) || fresh(buf.data))
      ensures ok == r.0.Value?
      ensures ok ==> n <= buf.data.Length && r == (Value(buf.data[..n], input), buf.size)
      ensures ok ==> lineno == old(lineno) + 1 && eof == old(eof)
      ensures r.0.Failed? ==> eof
      ensures r.0.DataEnd? ==> eof == old(eof) && input == old(input)[1..][Taken(old(input)[1..], old(buf.size))..]
    {
      if !noHeader {
        if input == [] {
          eof := true;
          return false, 0;
        }
        ghost var s := input;
        var c := input[0];
        input := input[1..];
        assert s == [c] + input;
        if c != SPACE {
          ReadMark(buf, c);
          return false, 0;
        }
      }
      ok, n := ReadBodyLine(buf, r);
    }
  }

  lemma {:induction false} ChunkBytes(b: Bytes, at: nat, chunk: Bytes)
    requires at + |chunk| < |b| && b[at..at + |chunk|] == chunk && b[at + |chunk|] == 0
    ensures var n := |Chop(chunk)|; b[at + n] == 0 && forall p :: at <= p < at + n ==> b[p] != 0
  {
    var n := |Chop(chunk)|;
    forall i | 0 <= i <= n && i < |chunk| ensures b[at + i] == chunk[i] {
      assert b[at..at + |chunk|][i] == chunk[i];
    }
    forall p | at <= p < at + n ensures b[p] != 0 {
      assert Chop(chunk)[p - at] == chunk[p - at] == b[at + (p - at)];
    }
  }

  lemma ChunkIs(s: Bytes, n: nat, k: nat)
    requires s != [] && n >= 2 && 0 < k <= |s| && k <= n - 1
    requires forall i :: 0 <= i < k - 1 ==> s[i] != NEWLINE
    requires s[k - 1] == NEWLINE || k == n - 1 || k == |s|
    ensures k == Taken(s, n)
  {
    if s[k - 1] == NEWLINE || k == |s| {
      LineLengthIs(s, k);
    }
  }

  /** Comparing the chunk with the mark, up to the terminator. */
  lemma MarkRead(b: Bytes, line: Bytes, k: nat)
    requires 7 <= |b| && k < |b| && k <= |line| && b[0..k] == line[..k] && b[k] == 0
    ensures b[..7] == ATA_END <==> ATA_END <= line[..k]
  {
    if k < 7 {
      assert b[..7][k] == 0 && ATA_END[k] != 0;
    } else {
      assert b[..7] == b[0..k][..7] == line[..k][..7];
    }
  }
}
