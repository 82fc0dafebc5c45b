/** The printers of mdb_dump, on an output that they append to. */
module DumpPrint {
  import opened DumpFormat

  class Printer {
    var output: Bytes

    constructor ()
      ensures output == []
    {
      output := [];
    }

    method PutChar(c: bv8)
      modifies this
      ensures output == old(output) + [c]
    {
      output := output + [c];
    }

    method PutHex(c: bv8)
      modifies this
      ensures output == old(output) + Hex(c)
    {
      PutChar(Digit(c >> 4));
      PutChar(Digit(c & 0xf));
    }

    method PutText(c: bv8, isprint: bv8 -> bool)
      modifies this
      ensures output == old(output) + TextByte(c, isprint)
    {
      if isprint(c) {
        if c == BACKSLASH {
          PutChar(BACKSLASH);
        }
        PutChar(c);
      } else {
        PutChar(BACKSLASH);
        PutHex(c);
      }
    }

    /** text */
    method Text(v: array<bv8>, isprint: bv8 -> bool)
      modifies this
      ensures output == old(output) + Line(v[..], true, isprint)
    {
      PutChar(SPACE);
      ghost var was, s := output, v[..];
      var c := 0;
      while c < v.Length
        invariant c <= v.Length
        invariant output == was + TextBody(s[..c], isprint)
      {
        TextPrinted(was, s, c, isprint);
        PutText(v[c], isprint);
        c := c + 1;
      }
      assert s[..c] == s;
      PutChar(NEWLINE);
      LinePrinted(old(output), TextBody(s, isprint));
    }

    /** byte */
    method Byte(v: array<bv8>, ghost isprint: bv8 -> bool)
      modifies this
      ensures output == old(output) + Line(v[..], false, isprint)
    {
      PutChar(SPACE);
      ghost var was, s := output, v[..];
      var c := 0;
      while c < v.Length
        invariant c <= v.Length
        invariant output == was + HexBody(s[..c])
      {
        HexPrinted(was, s, c);
        PutHex(v[c]);
        c := c + 1;
      }
      assert s[..c] == s;
      PutChar(NEWLINE);
      LinePrinted(old(output), HexBody(s));
    }
  }

  lemma LinePrinted(o: Bytes, body: Bytes)
    ensures o + [SPACE] + body + [NEWLINE] == o + ([SPACE] + body + [NEWLINE])
  {
  }

  lemma {:induction false} TextPrinted(was: Bytes, s: Bytes, c: nat, p: bv8 -> bool)
    requires c < |s|
    ensures was + TextBody(s[..c + 1], p) == was + TextBody(s[..c], p) + TextByte(s[c], p)
  {
    TextBodyMore(s[..c], s[c], p);
    assert s[..c + 1] == s[..c] + [s[c]];
  }

  lemma {:induction false} HexPrinted(was: Bytes, s: Bytes, c: nat)
    requires c < |s|
    ensures was + HexBody(s[..c + 1]) == was + HexBody(s[..c]) + Hex(s[c])
  {
    HexBodyMore(s[..c], s[c]);
    assert s[..c + 1] == s[..c] + [s[c]];
  }
}
