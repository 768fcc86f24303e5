/** A header name whose Huffman form has 127 octets: the length written for it is no integer, and the block breaks. */
module LongName {
  import opened Octets
  import opened HuffmanTable
  import opened Huffman
  import opened HpackPrimitives
  import opened DynamicTable
  import opened StaticTable
  import opened HeaderBlock
  import opened HpackSync
  import opened RequestHeaders

  /** "a", n times. */
  function Letters(n: nat): (s: seq<byte>)
    ensures |s| == n
  {
    seq(n, _ => 97)
  }

  const LONG: nat := 202

  lemma FiveBits(t: CodeTable)
    requires t == HuffmanCodes()
    ensures CodeBits(t, 97) == [0, 0, 0, 1, 1]
  {
    assert t[97] == HuffCode(3, 5);
    assert ToBits(0, 0) == [] && ToBits(0, 1) == [0] && ToBits(0, 2) == [0, 0] && ToBits(0, 3) == [0, 0, 0];
    assert ToBits(1, 4) == [0, 0, 0, 1];
  }

  lemma {:induction false} LettersBits(t: CodeTable, n: nat)
    requires t == HuffmanCodes()
    ensures |HuffmanBits(t, Letters(n))| == 5 * n
    ensures n >= 2 ==> HuffmanBits(t, Letters(n))[..8] == [0, 0, 0, 1, 1, 0, 0, 0]
    decreases n
  {
    hide CodeBits;
    FiveBits(t);
    if n > 0 {
      assert Letters(n)[1..] == Letters(n - 1);
      LettersBits(t, n - 1);
      if n >= 2 {
        assert Letters(n - 1)[1..] == Letters(n - 2);
        assert HuffmanBits(t, Letters(n)) == CodeBits(t, 97) + (CodeBits(t, 97) + HuffmanBits(t, Letters(n - 2)));
      }
    }
  }

  /** What is written for the name, and its first octet. */
  lemma LettersCoded(t: CodeTable)
    requires t == HuffmanCodes()
    ensures HuffmanLength(t, Letters(LONG)) == 127
    ensures |Encoded(t, Letters(LONG))| == 127 && Encoded(t, Letters(LONG))[0] == 24
  {
    hide HuffmanBits, Encoded, ToBits, BitsOf, NoBitLost;
    var name := Letters(LONG);
    LettersBits(t, LONG);
    TextLosesNoBit(t, name);
    NoLossIsForm(t, name);
    var octets := Encoded(t, name);
    BitsOfAt(octets, 0);
    assert BitsOf(octets)[..8] == HuffmanBits(t, name)[..8];
    FirstOctet(octets[0]);
  }

  lemma FirstOctet(c: byte)
    ensures ToBits(c, 8) == [0, 0, 0, 1, 1, 0, 0, 0] ==> c == 24
  {
    assert ToBits(0, 3) == [0, 0, 0] && ToBits(1, 4) == [0, 0, 0, 1] && ToBits(3, 5) == [0, 0, 0, 1, 1];
    assert ToBits(6, 6) == [0, 0, 0, 1, 1, 0] && ToBits(12, 7) == [0, 0, 0, 1, 1, 0, 0];
    assert ToBits(24, 8) == [0, 0, 0, 1, 1, 0, 0, 0];
    Pow2Values();
    if ToBits(c, 8) == ToBits(24, 8) {
      ToBitsInjective(c, 24, 8);
    }
  }

  lemma RowIsShort(k: nat)
    requires k < NAME_ROWS
    ensures |RequestRow(k).name| < 64
  {
    hide RequestRow;
    if k < 24 {
      EarlyRowIsShort(k);
    } else {
      LateRowIsShort(k);
    }
  }

  lemma EarlyRowIsShort(k: nat)
    requires k < 24
    ensures |RequestRow(k).name| < 64
  {
    hide Ascii;
  }

  lemma LateRowIsShort(k: nat)
    requires 24 <= k < NAME_ROWS
    ensures |RequestRow(k).name| < 64
  {
    hide Ascii;
  }

  lemma NoRow()
    ensures FoundRow(Letters(LONG), NAME_ROWS) == None
  {
    hide RequestRow;
    var found := FoundRow(Letters(LONG), NAME_ROWS);
    if found.Some? {
      var j :| 0 <= j < NAME_ROWS && found.value == RequestRow(j);
      RowIsShort(j);
    }
  }

  /** The length that is read there is 151 and runs past the block. */
  lemma LengthRunsOver(octets: seq<byte>)
    requires |octets| == 127 && octets[0] == 24
    ensures DecodeString([255] + octets + [128]) == None
  {
    hide Decoded;
    Pow2Values();
    var s := [255] + octets + [128];
    LowOf255();
    assert s[1..] == octets + [128] && s[1..][0] == 24;
    assert DecodeContinuation(s[1..], 0) == Read(24, 1);
    assert DecodeInteger(s, 7) == Read(151, 2);
  }

  lemma LowOf255()
    ensures Low(255, 7) == 127
  {
    assert Low(1, 0) == 0 && Low(3, 1) == 1 && Low(7, 2) == 3 && Low(15, 3) == 7 && Low(31, 4) == 15;
  }

  /** An instance: a header with this name and an empty value is written so that a decoder finds no field there. */
  lemma LongNameBreaks(t: CodeTable, h: RequestHeader, r: Rep, table: seq<Entry>)
    requires t == HuffmanCodes() && h.name == Letters(LONG) && h.value == [] && !h.isPseudo && Represents(t, h, r)
    ensures !NameLengthFits(t, h) && Written(h, r) != RepForm(r)
    ensures Written(h, r) != [] && ReadField(Written(h, r), table) == Broken
  {
    hide CodedText, Lower, HuffmanLength, Encoded, DecodeString, DecodeInteger, IntegerForm, FoundRow, RepForm;
    NoRow();
    LettersCoded(t);
    WrittenIsForm(t, h, r);
    CodedTextIsEncoded(t, h.name, r.name.name);
    CodedTextIsEncoded(t, h.value, r.value);
    assert Encoded(t, []) == [] by { NothingEncoded(t); }
    EmptyCodedText(t);
    var octets := Encoded(t, h.name);
    var s := Written(h, r);
    assert s == [0] + ([255] + octets + [128]);
    assert DecodeInteger(s, 4) == Read(0, 1) by { ZeroHead(s); }
    assert s[1..] == [255] + octets + [128];
    LengthRunsOver(octets);
  }

  lemma CodedTextIsEncoded(t: CodeTable, text: seq<byte>, s: StringRep)
    requires CodedText(t, text, s)
    ensures s == Coded(text, Encoded(t, text))
  {
  }

  lemma NothingEncoded(t: CodeTable)
    ensures Encoded(t, []) == []
  {
  }

  lemma ZeroHead(s: seq<byte>)
    requires s != [] && s[0] == 0
    ensures DecodeInteger(s, 4) == Read(0, 1)
  {
    LowOfPrefix();
    Pow2Values();
  }
}
