/** Which octets the shipped code table carries: all but eighteen, whose codes run into a shorter one. */
module HuffmanDomain {
  import opened Octets
  import opened HuffmanTable
  import opened Huffman

  /** The octets whose code starts with a whole shorter code. */
  predicate Misread(c: nat) {
    c == 192 || c == 193 || 200 <= c <= 205 || 210 <= c <= 213 || c == 218 || c == 219 || c == 238 || c == 240
    || c == 242 || c == 243
  }

  // ---------------------------------------------------------------- the symbols of the longer codes

  function Symbol20(k: nat): (symbol: nat) {
    if k <= 0 then 128 else if k <= 2 then k + 129 else if k <= 3 then 162 else if k <= 4 then 184 else
    if k <= 5 then 194 else if k <= 6 then 224 else 226
  }

  function Symbol21(k: nat): (symbol: nat) {
    if k <= 0 then 153 else if k <= 1 then 161 else if k <= 2 then 167 else if k <= 3 then 172 else
    if k <= 5 then k + 172 else if k <= 6 then 179 else if k <= 7 then 209 else if k <= 9 then k + 208 else
    if k <= 10 then 227 else k + 218
  }

  function Symbol22(k: nat): (symbol: nat) {
    if k <= 0 then 129 else if k <= 3 then k + 131 else if k <= 4 then 136 else if k <= 5 then 146 else
    if k <= 6 then 154 else if k <= 7 then 156 else if k <= 8 then 160 else if k <= 10 then k + 154 else
    if k <= 12 then k + 158 else if k <= 13 then 173 else if k <= 14 then 178 else if k <= 15 then 181 else
    if k <= 18 then k + 169 else if k <= 20 then k + 170 else if k <= 21 then 196 else if k <= 22 then 198 else
    if k <= 23 then 228 else k + 208
  }

  function Symbol23(k: nat): (symbol: nat) {
    if k <= 0 then 1 else if k <= 1 then 135 else if k <= 6 then k + 135 else if k <= 7 then 143 else
    if k <= 8 then 147 else if k <= 12 then k + 140 else if k <= 13 then 155 else if k <= 15 then k + 143 else
    if k <= 17 then k + 149 else if k <= 18 then 168 else if k <= 20 then k + 155 else if k <= 21 then 180 else
    if k <= 23 then k + 160 else if k <= 24 then 188 else if k <= 25 then 191 else if k <= 26 then 197 else
    if k <= 27 then 231 else 239
  }

  function Symbol25(k: nat): (symbol: nat) {
    if k <= 0 then 199 else if k <= 1 then 207 else if k <= 3 then k + 232 else if k <= 5 then k + 242 else
    if k <= 6 then 249 else if k <= 7 then 251 else if k <= 9 then k + 245 else 256
  }

  function Symbol26(k: nat): (symbol: nat) {
    if k <= 1 then k + 192 else if k <= 4 then k + 198 else if k <= 5 then 205 else if k <= 6 then 210 else
    if k <= 7 then 213 else if k <= 9 then k + 210 else if k <= 10 then 238 else if k <= 11 then 240 else
    if k <= 13 then k + 230 else if k <= 14 then 248 else if k <= 15 then 252 else 255
  }

  function Symbol27(k: nat): (symbol: nat) {
    if k <= 1 then k + 203 else if k <= 3 then k + 209 else if k <= 4 then 214 else if k <= 7 then k + 216 else
    if k <= 8 then 241 else if k <= 10 then k + 235 else 250
  }

  function Symbol28(k: nat): (symbol: nat) {
    if k <= 6 then k + 2 else if k <= 8 then k + 4 else if k <= 16 then k + 5 else if k <= 25 then k + 6 else
    if k <= 26 then 127 else 220
  }

  function Symbol30(k: nat): (symbol: nat) {
    if k <= 0 then 10 else if k <= 1 then 13 else 22
  }

  /** The symbol of the k-th code of n bits. */
  function AnySymbol(n: nat, k: nat): (symbol: nat) {
    if IsTextLength(n) then SymbolOfCode(n, k) else if n == 20 then Symbol20(k) else if n == 21 then Symbol21(k)
    else if n == 22 then Symbol22(k) else if n == 23 then Symbol23(k) else if n == 25 then Symbol25(k)
    else if n == 26 then Symbol26(k) else if n == 27 then Symbol27(k) else if n == 28 then Symbol28(k) else Symbol30(k)
  }

  const LAST25: nat := 0x1fffff6
  const LAST26: nat := 0x3fffff0

  /** The prefix of a code that is longer than n bits. */
  predicate Clears(c: HuffCode, n: nat, last: nat) {
    c.bits > n ==> Prefix(c, n) > last
  }

  /** What is checked of row i: its code is its own, and only misread codes run into codes of 25 or 26 bits. */
  predicate OwnRow(i: nat, c: HuffCode) {
    && c.code >= Lo(c.bits) && AnySymbol(c.bits, c.code - Lo(c.bits)) == i
    && (c.bits == 25 ==> c.code <= LAST25) && (c.bits == 26 ==> c.code <= LAST26)
    && (c.bits <= 29 && c.bits != 25 && c.bits != 26 ==> 2 * c.code + 2 <= Lo(c.bits + 1))
    && (!Misread(i) ==> Clears(c, 25, LAST25) && Clears(c, 26, LAST26))
  }

  lemma Row0aIsOwn(i: nat)
    requires 0 <= i < 8
    ensures OwnRow(i, Row(i))
  {
  }

  lemma Row0bIsOwn(i: nat)
    requires 8 <= i < 16
    ensures OwnRow(i, Row(i))
  {
  }

  lemma Row1aIsOwn(i: nat)
    requires 16 <= i < 24
    ensures OwnRow(i, Row(i))
  {
  }

  lemma Row1bIsOwn(i: nat)
    requires 24 <= i < 32
    ensures OwnRow(i, Row(i))
  {
  }

  lemma Row2aIsOwn(i: nat)
    requires 32 <= i < 40
    ensures OwnRow(i, Row(i))
  {
  }

  lemma Row2bIsOwn(i: nat)
    requires 40 <= i < 48
    ensures OwnRow(i, Row(i))
  {
  }

  lemma Row3aIsOwn(i: nat)
    requires 48 <= i < 56
    ensures OwnRow(i, Row(i))
  {
  }

  lemma Row3bIsOwn(i: nat)
    requires 56 <= i < 64
    ensures OwnRow(i, Row(i))
  {
  }

  lemma Row4aIsOwn(i: nat)
    requires 64 <= i < 72
    ensures OwnRow(i, Row(i))
  {
  }

  lemma Row4bIsOwn(i: nat)
    requires 72 <= i < 80
    ensures OwnRow(i, Row(i))
  {
  }

  lemma Row5aIsOwn(i: nat)
    requires 80 <= i < 88
    ensures OwnRow(i, Row(i))
  {
  }

  lemma Row5bIsOwn(i: nat)
    requires 88 <= i < 96
    ensures OwnRow(i, Row(i))
  {
  }

  lemma Row6aIsOwn(i: nat)
    requires 96 <= i < 104
    ensures OwnRow(i, Row(i))
  {
  }

  lemma Row6bIsOwn(i: nat)
    requires 104 <= i < 112
    ensures OwnRow(i, Row(i))
  {
  }

  lemma Row7aIsOwn(i: nat)
    requires 112 <= i < 120
    ensures OwnRow(i, Row(i))
  {
  }

  lemma Row7bIsOwn(i: nat)
    requires 120 <= i < 128
    ensures OwnRow(i, Row(i))
  {
  }

  lemma Row8aIsOwn(i: nat)
    requires 128 <= i < 136
    ensures OwnRow(i, Row(i))
  {
  }

  lemma Row8bIsOwn(i: nat)
    requires 136 <= i < 144
    ensures OwnRow(i, Row(i))
  {
  }

  lemma Row9aIsOwn(i: nat)
    requires 144 <= i < 152
    ensures OwnRow(i, Row(i))
  {
  }

  lemma Row9bIsOwn(i: nat)
    requires 152 <= i < 160
    ensures OwnRow(i, Row(i))
  {
  }

  lemma Row10aIsOwn(i: nat)
    requires 160 <= i < 168
    ensures OwnRow(i, Row(i))
  {
  }

  lemma Row10bIsOwn(i: nat)
    requires 168 <= i < 176
    ensures OwnRow(i, Row(i))
  {
  }

  lemma Row11aIsOwn(i: nat)
    requires 176 <= i < 184
    ensures OwnRow(i, Row(i))
  {
  }

  lemma Row11bIsOwn(i: nat)
    requires 184 <= i < 192
    ensures OwnRow(i, Row(i))
  {
  }

  lemma Row12aIsOwn(i: nat)
    requires 192 <= i < 200
    ensures OwnRow(i, Row(i))
  {
  }

  lemma Row12bIsOwn(i: nat)
    requires 200 <= i < 208
    ensures OwnRow(i, Row(i))
  {
  }

  lemma Row13aIsOwn(i: nat)
    requires 208 <= i < 216
    ensures OwnRow(i, Row(i))
  {
  }

  lemma Row13bIsOwn(i: nat)
    requires 216 <= i < 224
    ensures OwnRow(i, Row(i))
  {
  }

  lemma Row14aIsOwn(i: nat)
    requires 224 <= i < 232
    ensures OwnRow(i, Row(i))
  {
  }

  lemma Row14bIsOwn(i: nat)
    requires 232 <= i < 240
    ensures OwnRow(i, Row(i))
  {
  }

  lemma Row15aIsOwn(i: nat)
    requires 240 <= i < 248
    ensures OwnRow(i, Row(i))
  {
  }

  lemma Row15bIsOwn(i: nat)
    requires 248 <= i < 256
    ensures OwnRow(i, Row(i))
  {
  }

  /** The symbol a misread code runs into. */
  function Parent(c: nat): (symbol: nat) {
    if c <= 193 then 246 else if c <= 201 then 247 else if c == 203 || c == 204 then 252 else if c <= 205 then 249
    else if c == 211 || c == 212 then 255 else if c <= 213 then 251 else if c <= 219 then 253 else if c <= 240 then 254
    else 256
  }

  lemma ParentCode(c: nat)
    requires Misread(c)
    ensures Row(c).bits > 0 && Row(Parent(c)) == HuffCode(Row(c).code / 2, Row(c).bits - 1)
  {
  }

  lemma LastRowIsOwn()
    ensures OwnRow(EOS, Row(EOS))
  {
  }

  lemma RowIsOwn(i: nat)
    requires i < SYMBOLS
    ensures OwnRow(i, Row(i))
  {
    hide OwnRow, Row;
    if i < 8 {
      Row0aIsOwn(i);
    } else if i < 16 {
      Row0bIsOwn(i);
    } else if i < 24 {
      Row1aIsOwn(i);
    } else if i < 32 {
      Row1bIsOwn(i);
    } else if i < 40 {
      Row2aIsOwn(i);
    } else if i < 48 {
      Row2bIsOwn(i);
    } else if i < 56 {
      Row3aIsOwn(i);
    } else if i < 64 {
      Row3bIsOwn(i);
    } else if i < 72 {
      Row4aIsOwn(i);
    } else if i < 80 {
      Row4bIsOwn(i);
    } else if i < 88 {
      Row5aIsOwn(i);
    } else if i < 96 {
      Row5bIsOwn(i);
    } else if i < 104 {
      Row6aIsOwn(i);
    } else if i < 112 {
      Row6bIsOwn(i);
    } else if i < 120 {
      Row7aIsOwn(i);
    } else if i < 128 {
      Row7bIsOwn(i);
    } else if i < 136 {
      Row8aIsOwn(i);
    } else if i < 144 {
      Row8bIsOwn(i);
    } else if i < 152 {
      Row9aIsOwn(i);
    } else if i < 160 {
      Row9bIsOwn(i);
    } else if i < 168 {
      Row10aIsOwn(i);
    } else if i < 176 {
      Row10bIsOwn(i);
    } else if i < 184 {
      Row11aIsOwn(i);
    } else if i < 192 {
      Row11bIsOwn(i);
    } else if i < 200 {
      Row12aIsOwn(i);
    } else if i < 208 {
      Row12bIsOwn(i);
    } else if i < 216 {
      Row13aIsOwn(i);
    } else if i < 224 {
      Row13bIsOwn(i);
    } else if i < 232 {
      Row14aIsOwn(i);
    } else if i < 240 {
      Row14bIsOwn(i);
    } else if i < 248 {
      Row15aIsOwn(i);
    } else if i < 256 {
      Row15bIsOwn(i);
    } else {
      LastRowIsOwn();
    }
  }

  // ---------------------------------------------------------------- codes of one length

  lemma ShortSymbolsRise(n: nat, k: nat, l: nat)
    requires k <= l && n in {5, 6, 7, 8, 10, 11, 12, 13}
    ensures AnySymbol(n, k) <= AnySymbol(n, l)
  {
  }

  lemma LongSymbolsRise(n: nat, k: nat, l: nat)
    requires k <= l && n in {14, 15, 19, 20, 21, 24, 25, 27, 28, 30}
    ensures AnySymbol(n, k) <= AnySymbol(n, l)
  {
  }

  lemma ManySymbolsRise(n: nat, k: nat, l: nat)
    requires k <= l && n in {22, 23, 26}
    ensures AnySymbol(n, k) <= AnySymbol(n, l)
  {
  }

  /** The lengths there are. */
  predicate IsLength(n: nat) {
    5 <= n <= 8 || 10 <= n <= 15 || 19 <= n <= 28 || n == 30
  }

  /** As in Appendix B of RFC 7541, codes of one length ascend with their symbols. */
  lemma CodesAscend(i: nat, j: nat)
    requires i < j < SYMBOLS && Row(i).bits == Row(j).bits
    ensures Row(i).code < Row(j).code
  {
    hide AnySymbol, Row, Lo, Clears;
    RowIsOwn(i);
    RowIsOwn(j);
    RowLength(i);
    var n := Row(i).bits;
    if Row(i).code >= Row(j).code {
      SymbolsRise(n, Row(j).code - Lo(n), Row(i).code - Lo(n));
    }
  }

  lemma SymbolsRise(n: nat, k: nat, l: nat)
    requires k <= l && IsLength(n)
    ensures AnySymbol(n, k) <= AnySymbol(n, l)
  {
    hide AnySymbol;
    if n in {22, 23, 26} {
      ManySymbolsRise(n, k, l);
    } else if n in {14, 15, 19, 20, 21, 24, 25, 27, 28, 30} {
      LongSymbolsRise(n, k, l);
    } else {
      ShortSymbolsRise(n, k, l);
    }
  }

  lemma RowLength(i: nat)
    requires i < SYMBOLS
    ensures IsLength(Row(i).bits)
  {
    hide Row;
    if i < 64 {
      RowLengthFrom0(i);
    } else if i < 128 {
      RowLengthFrom64(i);
    } else if i < 192 {
      RowLengthFrom128(i);
    } else {
      RowLengthFrom192(i);
    }
  }

  lemma RowLengthFrom0(i: nat)
    requires i < 64
    ensures IsLength(Row(i).bits)
  {
  }

  lemma RowLengthFrom64(i: nat)
    requires 64 <= i < 128
    ensures IsLength(Row(i).bits)
  {
  }

  lemma RowLengthFrom128(i: nat)
    requires 128 <= i < 192
    ensures IsLength(Row(i).bits)
  {
  }

  lemma RowLengthFrom192(i: nat)
    requires 192 <= i < SYMBOLS
    ensures IsLength(Row(i).bits)
  {
  }

  // ---------------------------------------------------------------- what the table carries

  /** The code of a symbol of the shipped table is its own from end to end, unless it is misread. */
  lemma CarriedSteps(c: byte, n: nat)
    requires !Misread(c) && 0 < n <= HuffmanCodes()[c].bits
    ensures OwnStep(HuffmanCodes(), c, n)
  {
    hide AnySymbol, Row, Lo, Shr, Pow2, SymbolOfCode;
    var t := HuffmanCodes();
    RowIsOwn(c);
    CodeShape(t, c);
    assert CanonicalRow(c, t[c]);
    PrefixInRegion(t[c], n);
    PrefixWhole(t[c]);
    var symbol := SymbolAt(t, |t|, n, Prefix(t[c], n));
    if symbol >= 0 {
      RowIsOwn(symbol);
      assert n == t[c].bits ==> symbol == c;
    }
  }

  /** A misread octet's code runs into its parent's. */
  lemma MisreadStep(c: byte)
    requires Misread(c)
    ensures !Decodable(HuffmanCodes(), c)
  {
    hide Pow2, SymbolOfCode, Row;
    var t := HuffmanCodes();
    CodeShape(t, c);
    ParentCode(c);
    var n := t[c].bits - 1;
    assert t[Parent(c)] == HuffCode(Prefix(t[c], n), n) by { assert Shr(t[c].code, 1) == t[c].code / 2; }
    assert !OwnStep(t, c, n);
  }

  /** The octets the shipped table carries are all but the eighteen. */
  lemma DecodableIffNotMisread(c: byte)
    ensures Decodable(HuffmanCodes(), c) <==> !Misread(c)
  {
    hide OwnStep, Misread;
    if Misread(c) {
      MisreadStep(c);
    } else {
      forall n | 0 < n <= HuffmanCodes()[c].bits
        ensures OwnStep(HuffmanCodes(), c, n)
      {
        CarriedSteps(c, n);
      }
    }
  }

  /** With the shipped table, decoding undoes encoding exactly on the strings without a misread octet. */
  lemma RoundTripIffNoneMisread(s: seq<byte>, coded: seq<byte>)
    requires IsHuffmanForm(HuffmanCodes(), s, coded)
    ensures HuffmanDecoded(HuffmanCodes(), coded) == s <==> forall c :: c in s ==> !Misread(c)
  {
    hide Decodable, Misread, IsHuffmanForm, HuffmanDecoded;
    HuffmanRoundTripIff(HuffmanCodes(), s, coded);
    forall c: byte
      ensures Decodable(HuffmanCodes(), c) <==> !Misread(c)
    {
      DecodableIffNotMisread(c);
    }
  }

  /**
   With the shipped table, what the encoder writes for a string decodes to it, or to anything that starts with it, if
   and only if no step pushes a one-bit out and no octet is misread.
   */
  lemma EncodedComesBackIff(s: seq<byte>)
    ensures HuffmanDecoded(HuffmanCodes(), Encoded(HuffmanCodes(), s)) == s
       <==> NoBitLost(HuffmanCodes(), s) && forall c :: c in s ==> !Misread(c)
    ensures s <= HuffmanDecoded(HuffmanCodes(), Encoded(HuffmanCodes(), s)) ==>
              NoBitLost(HuffmanCodes(), s) && forall c :: c in s ==> !Misread(c)
  {
    hide Decodable, Misread, Encoded, HuffmanDecoded, LosesBit;
    EncodedRoundTripIff(HuffmanCodes(), s);
    forall c: byte
      ensures Decodable(HuffmanCodes(), c) <==> !Misread(c)
    {
      DecodableIffNotMisread(c);
    }
  }

  // ---------------------------------------------------------------- instances

  /** Octet 192 is written correctly and read as two others. */
  lemma MisreadInstance()
    ensures IsHuffmanForm(HuffmanCodes(), [192], Encoded(HuffmanCodes(), [192]))
    ensures HuffmanDecoded(HuffmanCodes(), Encoded(HuffmanCodes(), [192])) == [246, 57]
  {
    hide HuffmanBits, Misread, DecodeBits, AccOf, BitsOf, Encoded, NoBitLost, Row, Ones;
    var t, s := HuffmanCodes(), [192];
    FirstLosesNoBit(t, s);
    NoLossIsForm(t, s);
    SameBits(t);
    hide IsHuffmanForm;
    assert BitsOf(Encoded(t, s)) == HuffmanBits(t, s) + Ones(6) by { FormBits(t, s, Encoded(t, s), 6); }
    TwoOthers(t);
  }

  lemma FormBits(t: CodeTable, s: seq<byte>, coded: seq<byte>, pad: nat)
    requires IsHuffmanForm(t, s, coded) && pad < 8 && (|HuffmanBits(t, s)| + pad) % 8 == 0
    ensures BitsOf(coded) == HuffmanBits(t, s) + Ones(pad)
  {
    hide HuffmanBits, BitsOf, Ones;
    var n := |HuffmanBits(t, s)|;
    assert 8 * |coded| - n == pad;
  }

  lemma TwoOthers(t: CodeTable)
    requires t == HuffmanCodes()
    ensures DecodeBits(t, HuffmanBits(t, [246, 57]) + Ones(1), 0, 0) == [246, 57]
  {
    hide Decodable, HuffmanBits, DecodeBits, Ones;
    DecodableIffNotMisread(246);
    DecodableIffNotMisread(57);
    DecodeIff(t, [246, 57], 1);
  }

  /** Nothing is pending yet when the first code is added. */
  lemma FirstLosesNoBit(t: CodeTable, s: seq<byte>)
    requires |s| == 1
    ensures NoBitLost(t, s)
  {
    hide Shl;
    assert s[..0] == [];
    ShlOfZero(t[s[0]].bits);
  }

  lemma {:induction false} ShlOfZero(n: nat)
    ensures Shl(0, n) == 0
  {
    if n > 0 {
      ShlOfZero(n - 1);
    }
  }

  /** The code of 192 and its padding are the codes of 246 and 57 and less padding. */
  lemma SameBits(t: CodeTable)
    requires t == HuffmanCodes()
    ensures |HuffmanBits(t, [192])| == 26
    ensures HuffmanBits(t, [192]) + Ones(6) == HuffmanBits(t, [246, 57]) + Ones(1)
  {
    ThreeRows(t);
    LastBit();
    NineBits();
    hide ToBits, Row, HuffmanBits, Ones;
    OneCode(t, 192);
    OneCode(t, 57);
    TwoCodes(t, 246, 57);
    var long := ToBits(0x1fffff0, 25);
    assert (long + [0]) + (Ones(5) + Ones(1)) == (long + ([0] + Ones(5))) + Ones(1);
  }

  lemma ThreeRows(t: CodeTable)
    requires t == HuffmanCodes()
    ensures CodeBits(t, 192) == ToBits(0x3ffffe0, 26) && CodeBits(t, 246) == ToBits(0x1fffff0, 25)
    ensures CodeBits(t, 57) == ToBits(0x1f, 6)
  {
    hide ToBits;
  }

  lemma LastBit()
    ensures ToBits(0x3ffffe0, 26) == ToBits(0x1fffff0, 25) + [0]
  {
  }

  lemma NineBits()
    ensures ToBits(0x1f, 6) == [0] + Ones(5) && Ones(6) == Ones(5) + Ones(1)
  {
    ToBitsOnes(5);
    Pow2Values();
    ToBitsSplit(0x1f, 1, 5);
    assert Low(0x1f, 5) == 0x1f && Shr(0x1f, 5) == 0;
    assert ToBits(0, 1) == [0];
  }

  lemma OneCode(t: CodeTable, c: byte)
    ensures HuffmanBits(t, [c]) == CodeBits(t, c)
  {
    hide CodeBits;
    assert [c][1..] == [] && HuffmanBits(t, []) == [];
  }

  lemma TwoCodes(t: CodeTable, c: byte, d: byte)
    ensures HuffmanBits(t, [c, d]) == CodeBits(t, c) + CodeBits(t, d)
  {
    hide CodeBits;
    OneCode(t, d);
    assert [c, d][1..] == [d];
  }

  lemma {:induction false} ShrLowAre(v: nat, n: nat)
    ensures Shr(v, n) == v / Pow2(n) && Low(v, n) == v % Pow2(n)
  {
    if n > 0 {
      ShrLowAre(v / 2, n - 1);
      Halves(v, Pow2(n - 1));
    }
  }

  lemma Halves(v: nat, m: nat)
    requires m > 0
    ensures v / 2 / m == v / (2 * m) && v % (2 * m) == 2 * (v / 2 % m) + v % 2
  {
    var q, r := v / 2 / m, v / 2 % m;
    assert v / 2 == q * m + r;
    assert v == q * (2 * m) + (2 * r + v % 2);
    RemainderIs(q, 2 * m, 2 * r + v % 2);
    QuotientIs(q, 2 * m, 2 * r + v % 2);
  }

  lemma QuotientIs(q: nat, d: nat, r: nat)
    requires r < d
    ensures (q * d + r) / d == q
  {
    RemainderIs(q, d, r);
    var x := q * d + r;
    assert (q - x / d) * d == 0;
    SmallMultiple(q - x / d, d);
  }

  /** "A" and a line feed: the leading one of "A" is shifted out, and what is written says something else. */
  lemma LossInstance()
    ensures LosesBit(HuffmanCodes(), [65, 10], 1)
    ensures Encoded(HuffmanCodes(), [65, 10]) == [0x07, 0xff, 0xff, 0xff, 0xcf]
    ensures !IsHuffmanForm(HuffmanCodes(), [65, 10], Encoded(HuffmanCodes(), [65, 10]))
  {
    hide Added, IsHuffmanForm;
    var t, s := HuffmanCodes(), [65, 10];
    AfterA(t);
    AfterLoss();
    assert s[..1] == [65] && t[10] == HuffCode(0x3ffffffc, 30);
    ShlIsProduct(0xc, 4);
    Pow2Values();
    hide Shl, Pow2, Row;
    assert AccOf(t, s) == Acc([0x07, 0xff, 0xff, 0xff], 0xc, 4);
    EncodedIsFormIff(t, s);
  }

  lemma AfterA(t: CodeTable)
    requires t == HuffmanCodes()
    ensures AccOf(t, [65]) == Acc([], 0x21, 6) && Shl(0x21, 30) == 0x8_4000_0000
  {
    assert [65][..0] == [] && t[65] == HuffCode(0x21, 6);
    ShlOfZero(6);
    ShlIsProduct(0x21, 30);
    Pow2Values();
  }

  lemma AfterLoss()
    ensures Added(Acc([], 0x21, 6), HuffCode(0x3ffffffc, 30)) == Acc([0x07, 0xff, 0xff, 0xff], 0xc, 4)
  {
    hide Shr, Low, Shl, Pow2, Drained;
    ShlIsProduct(0x21, 30);
    Pow2Values();
    var a := Acc([], 0x7fff_fffc, 36);
    DrainStep(a, 0x07, 0xfff_fffc);
    DrainStep(Acc([0x07], 0xfff_fffc, 28), 0xff, 0xf_fffc);
    DrainStep(Acc([0x07, 0xff], 0xf_fffc, 20), 0xff, 0xffc);
    DrainStep(Acc([0x07, 0xff, 0xff], 0xffc, 12), 0xff, 0xc);
    assert Drained(Acc([0x07, 0xff, 0xff, 0xff], 0xc, 4)) == Acc([0x07, 0xff, 0xff, 0xff], 0xc, 4) by {
      ShortDrain(Acc([0x07, 0xff, 0xff, 0xff], 0xc, 4));
    }
    assert [] + [7] == [7] && [7] + [255] == [7, 255] && [7, 255] + [255] == [7, 255, 255];
    assert [7, 255, 255] + [255] == [7, 255, 255, 255];
  }

  lemma ShortDrain(a: Acc)
    requires a.used < 8
    ensures Drained(a) == a
  {
  }

  lemma DrainStep(a: Acc, octet: byte, low: nat)
    requires a.used >= 8 && a.pending / Pow2(a.used - 8) == octet && a.pending % Pow2(a.used - 8) == low
    ensures Drained(a) == Drained(Acc(a.written + [octet], low, a.used - 8))
  {
    ShrLowAre(a.pending, a.used - 8);
  }

  /** "0" and a line feed need 35 bits, and lose none: only zeros are pending. */
  lemma OverflowWithoutLoss()
    ensures var t, s := HuffmanCodes(), [48, 10];
            && AccOf(t, s[..1]).used + t[s[1]].bits > 32
            && IsHuffmanForm(t, s, Encoded(t, s))
  {
    var t, s := HuffmanCodes(), [48, 10];
    assert s[..0] == [] && s[..1] == [48] && [48][..0] == [];
    assert t[48] == HuffCode(0, 5) && t[10] == HuffCode(0x3ffffffc, 30);
    ShlOfZero(5);
    ShlOfZero(30);
    assert AccOf(t, [48]) == Acc([], 0, 5);
    NoLossIsForm(t, s);
  }
}
