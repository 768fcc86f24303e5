/** The worked examples of Appendix C of RFC 7541, and a few frames, octet by octet. */
module WireExamples {
  import opened Octets
  import opened HuffmanTable
  import opened Huffman
  import HuffmanDomain
  import opened HpackPrimitives
  import opened DynamicTable
  import opened StaticTable
  import opened HeaderBlock
  import opened HpackSync
  import opened Frames
  import opened FlowControl

  /** Appendix C.1: 10 and 1337 behind a 5-bit prefix, 42 at an octet boundary. */
  lemma Integers()
    ensures Pow2(5) == 32 && Pow2(8) == 256
    ensures IntegerForm(10, 5, 0) == [10] && IntegerForm(1337, 5, 0) == [31, 154, 10] && IntegerForm(42, 8, 0) == [42]
  {
    Pow2Values();
    assert Continuation(10) == [10];
    assert Continuation(1306) == [154] + Continuation(10);
  }

  /** Appendix C.2.1: a literal to be inserted. */
  lemma InsertedLiteral()
    ensures RepForm(Indexing(InPlace(Raw(Ascii("custom-key"))), Raw(Ascii("custom-header"))))
         == [0x40, 0x0a] + Ascii("custom-key") + [0x0d] + Ascii("custom-header")
  {
    hide Ascii, IntegerForm;
    SmallForms();
    var name, value := Ascii("custom-key"), Ascii("custom-header");
    assert StringForm(Raw(name)) == [0x0a] + name && StringForm(Raw(value)) == [0x0d] + value;
    hide StringForm;
    assert RepForm(Indexing(InPlace(Raw(name)), Raw(value))) == [0x40] + ([0x0a] + name) + ([0x0d] + value);
    Joined(0x40, 0x0a, name, [0x0d], value);
  }

  lemma Joined(a: byte, b: byte, x: seq<byte>, y: seq<byte>, z: seq<byte>)
    ensures [a] + ([b] + x) + (y + z) == [a, b] + x + y + z
  {
  }

  /** Appendix C.2.2: a literal not to be inserted, its name by index. */
  lemma PlainLiteral()
    ensures RepForm(NotIndexing(ByIndex(4), Raw(Ascii("/sample/path")), false)) == [0x04, 0x0c] + Ascii("/sample/path")
  {
    hide Ascii, IntegerForm;
    SmallForms();
    var value := Ascii("/sample/path");
    assert StringForm(Raw(value)) == [0x0c] + value;
    hide StringForm;
    assert RepForm(NotIndexing(ByIndex(4), Raw(value), false)) == [0x04] + ([0x0c] + value);
  }

  /** Appendix C.2.3: a literal never to be inserted. */
  lemma NeverLiteral()
    ensures RepForm(NotIndexing(InPlace(Raw(Ascii("password"))), Raw(Ascii("secret")), true))
         == [0x10, 0x08] + Ascii("password") + [0x06] + Ascii("secret")
  {
    hide Ascii, IntegerForm;
    SmallForms();
    var name, value := Ascii("password"), Ascii("secret");
    assert StringForm(Raw(name)) == [0x08] + name && StringForm(Raw(value)) == [0x06] + value;
    hide StringForm;
    assert RepForm(NotIndexing(InPlace(Raw(name)), Raw(value), true)) == [0x10] + ([0x08] + name) + ([0x06] + value);
    Joined(0x10, 0x08, name, [0x06], value);
  }

  /** Appendix C.2.4: an indexed field; and a size update to 4096 (section 6.3). */
  lemma IndexedAndUpdate()
    ensures RepForm(Indexed(2)) == [0x82] && StaticEntry(2) == Entry(Ascii(":method"), Ascii("GET"))
    ensures RepForm(UpdateSize(4096)) == [0x3f, 0xe1, 0x1f]
  {
    hide Ascii, StaticEntry, IntegerForm;
    SmallForms();
    SecondEntry();
  }

  lemma SecondEntry()
    ensures StaticEntry(2) == E(":method", "GET")
  {
    hide Ascii;
  }

  lemma SmallForms()
    ensures Pow2(4) == 16 && Pow2(5) == 32 && Pow2(6) == 64 && Pow2(7) == 128
    ensures IntegerForm(0, 6, 64) == [0x40] && IntegerForm(4, 4, 0) == [4] && IntegerForm(0, 4, 16) == [0x10]
    ensures IntegerForm(2, 7, 128) == [0x82] && IntegerForm(4096, 5, 32) == [0x3f, 0xe1, 0x1f]
    ensures forall n :: 0 <= n < 127 ==> IntegerForm(n, 7, 0) == [n]
  {
    Pow2Values();
    assert Continuation(31) == [0x1f];
    assert Continuation(4065) == [0xe1] + Continuation(31);
  }

  /** Section 4.1 and Appendix C.2.1: the entry just inserted has size 55. */
  lemma SizeOfEntry()
    ensures EntrySize(Entry(Ascii("custom-key"), Ascii("custom-header"))) == 55
    ensures TableSize([Entry(Ascii("custom-key"), Ascii("custom-header"))]) == 55
  {
    hide Ascii;
    var t := [Entry(Ascii("custom-key"), Ascii("custom-header"))];
    assert t[..0] == [] && TableSize([]) == 0;
  }

  // ---------------------------------------------------------------- a coded string

  lemma FiveBits(v: nat)
    ensures ToBits(v, 5) == [v / 2 / 2 / 2 / 2 % 2, v / 2 / 2 / 2 % 2, v / 2 / 2 % 2, v / 2 % 2, v % 2]
  {
    assert ToBits(v / 2 / 2 / 2 / 2 / 2, 0) == [];
    assert ToBits(v / 2 / 2 / 2 / 2, 1) == [v / 2 / 2 / 2 / 2 % 2];
    assert ToBits(v / 2 / 2 / 2, 2) == [v / 2 / 2 / 2 / 2 % 2, v / 2 / 2 / 2 % 2];
    assert ToBits(v / 2 / 2, 3) == [v / 2 / 2 / 2 / 2 % 2, v / 2 / 2 / 2 % 2, v / 2 / 2 % 2];
    assert ToBits(v / 2, 4) == [v / 2 / 2 / 2 / 2 % 2, v / 2 / 2 / 2 % 2, v / 2 / 2 % 2, v / 2 % 2];
  }

  lemma SixBits(v: nat)
    ensures ToBits(v, 6)
         == [v / 2 / 2 / 2 / 2 / 2 % 2, v / 2 / 2 / 2 / 2 % 2, v / 2 / 2 / 2 % 2, v / 2 / 2 % 2, v / 2 % 2, v % 2]
  {
    FiveBits(v / 2);
  }

  lemma EightBits(v: nat)
    ensures ToBits(v, 8) == ToBits(v / 2 / 2, 6) + [v / 2 % 2, v % 2]
  {
    hide *;
    assert ToBits(v, 8) == ToBits(v / 2, 7) + [v % 2] && ToBits(v / 2, 7) == ToBits(v / 2 / 2, 6) + [v / 2 % 2] by {
      LastBits(v);
    }
  }

  lemma LastBits(v: nat)
    ensures ToBits(v, 8) == ToBits(v / 2, 7) + [v % 2] && ToBits(v / 2, 7) == ToBits(v / 2 / 2, 6) + [v / 2 % 2]
  {
  }

  /** The codes of the digits of "302", as in Appendix B. */
  lemma Codes(t: CodeTable)
    requires t == HuffmanCodes()
    ensures CodeBits(t, 51) == [0, 1, 1, 0, 0, 1] && CodeBits(t, 48) == [0, 0, 0, 0, 0]
    ensures CodeBits(t, 50) == [0, 0, 0, 1, 0]
  {
    assert t[51] == HuffCode(0x19, 6) && t[48] == HuffCode(0, 5) && t[50] == HuffCode(2, 5) by { hide ToBits; }
    hide ToBits;
    SixBits(0x19);
    FiveBits(0);
    FiveBits(2);
  }

  lemma BitsOfText(t: CodeTable)
    requires t == HuffmanCodes()
    ensures HuffmanBits(t, [51, 48, 50]) == [0, 1, 1, 0, 0, 1, 0, 0, 0, 0, 0, 0, 0, 0, 1, 0]
  {
    hide CodeBits, ToBits;
    Codes(t);
    var s: seq<byte> := [51, 48, 50];
    assert s[1..] == [48, 50] && s[1..][1..] == [50] && s[1..][1..][1..] == [];
    assert HuffmanBits(t, s[1..][1..][1..]) == [];
    assert HuffmanBits(t, s[1..][1..]) == CodeBits(t, 50) + [];
    assert HuffmanBits(t, s[1..]) == CodeBits(t, 48) + HuffmanBits(t, s[1..][1..]);
  }

  lemma BitsOfOctets()
    ensures BitsOf([0x64, 0x02]) == [0, 1, 1, 0, 0, 1, 0, 0, 0, 0, 0, 0, 0, 0, 1, 0]
  {
    hide ToBits;
    var s: seq<byte> := [0x64, 0x02];
    EightBits(0x64);
    SixBits(0x19);
    EightBits(0x02);
    SixBits(0);
    assert s[..1] == [0x64] && s[..1][..0] == [];
    assert BitsOf(s[..1][..0]) == [];
    assert BitsOf(s[..1]) == [] + ToBits(0x64, 8);
    assert BitsOf(s) == BitsOf(s[..1]) + ToBits(0x02, 8);
  }

  /** Appendix C.6.1: the status 302 is coded as 64 02. */
  lemma CodedString()
    ensures IsHuffmanForm(HuffmanCodes(), Ascii("302"), [0x64, 0x02])
  {
    hide HuffmanBits, BitsOf;
    assert Ascii("302") == [51, 48, 50];
    BitsOfText(HuffmanCodes());
    BitsOfOctets();
  }

  // ---------------------------------------------------------------- frames

  /** The acknowledgement of SETTINGS and a window update on the wire (sections 4.1 and 6.9 of RFC 9113). */
  lemma FrameOctets()
    ensures ValidFrame(SettingsAck) && FrameForm(SettingsAck) == [0, 0, 0, 4, 1, 0, 0, 0, 0]
    ensures ValidFrame(WindowUpdateFrame(0, 65535))
    ensures FrameForm(WindowUpdateFrame(0, 65535)) == [0, 0, 4, 8, 0, 0, 0, 0, 0, 0, 0, 255, 255]
    ensures ValidFrame(Frame(1, 4, 0x01020304, [7]))
    ensures FrameForm(Frame(1, 4, 0x01020304, [7])) == [0, 0, 1, 1, 4, 1, 2, 3, 4, 7]
  {
  }

  // ---------------------------------------------------------------- the static table

  /** The first fourteen entries of Appendix A, which have values, and the sixteenth. */
  lemma StaticHead()
    ensures StaticEntry(1) == E(":authority", "") && StaticEntry(2) == E(":method", "GET")
    ensures StaticEntry(3) == E(":method", "POST") && StaticEntry(4) == E(":path", "/")
    ensures StaticEntry(5) == E(":path", "/index.html") && StaticEntry(6) == E(":scheme", "http")
    ensures StaticEntry(7) == E(":scheme", "https") && StaticEntry(8) == E(":status", "200")
    ensures StaticEntry(9) == E(":status", "204") && StaticEntry(10) == E(":status", "206")
    ensures StaticEntry(11) == E(":status", "304") && StaticEntry(12) == E(":status", "400")
    ensures StaticEntry(13) == E(":status", "404") && StaticEntry(14) == E(":status", "500")
    ensures StaticEntry(16) == E("accept-encoding", "gzip, deflate")
  {
    hide E;
  }

  /** All others have no value. */
  lemma StaticValues(i: nat)
    requires 15 <= i <= STATIC_ENTRIES && i != 16
    ensures StaticEntry(i).value == []
  {
  }

  // ---------------------------------------------------------------- blocks that fail

  /** Index 0, an index behind an empty table, a literal that breaks off: nothing is kept, and decoding has failed. */
  lemma BadBlocks(block: seq<byte>, table: Table)
    requires table.entries == [] && block in {[0x80], [0xbe], [0x40]}
    ensures DecodeHeaders(block, Decoding([], table, false), true) == Decoding([], table, true)
  {
    hide DecodeInteger, Lookup, DecodeString;
    IndexOctets();
    assert block[1..] == [];
    assert DecodeString([]) == None by { NoString(); }
  }

  lemma NoString()
    ensures DecodeString([]) == None
  {
  }

  lemma IndexOctets()
    ensures DecodeInteger([0x80], 7) == Read(0, 1) && DecodeInteger([0xbe], 7) == Read(62, 1)
    ensures DecodeInteger([0x40], 6) == Read(0, 1)
  {
    Pow2Values();
    LowOfPrefix();
    HuffmanDomain.ShrLowAre(0xbe, 7);
  }
}
