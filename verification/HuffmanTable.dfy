/**
 The Huffman code table. Symbols 0..255 are octets and symbol 256 ends a string.
 The initialiser in the source is longer, but only these 257 rows are ever read.
 */
module HuffmanTable {
  import opened Octets

  const SYMBOLS: nat := 257
  const EOS: nat := 256

  datatype HuffCode = HuffCode(code: nat, bits: nat)

  function Row0(i: nat): HuffCode {
    if i == 0 then HuffCode(0x1ff8, 13) else if i == 1 then HuffCode(0x7fffd8, 23) else
    if i == 2 then HuffCode(0xfffffe2, 28) else if i == 3 then HuffCode(0xfffffe3, 28) else
    if i == 4 then HuffCode(0xfffffe4, 28) else if i == 5 then HuffCode(0xfffffe5, 28) else
    if i == 6 then HuffCode(0xfffffe6, 28) else if i == 7 then HuffCode(0xfffffe7, 28) else
    if i == 8 then HuffCode(0xfffffe8, 28) else if i == 9 then HuffCode(0xffffea, 24) else
    if i == 10 then HuffCode(0x3ffffffc, 30) else if i == 11 then HuffCode(0xfffffe9, 28) else
    if i == 12 then HuffCode(0xfffffea, 28) else if i == 13 then HuffCode(0x3ffffffd, 30) else
    if i == 14 then HuffCode(0xfffffeb, 28) else HuffCode(0xfffffec, 28)
  }

  function Row1(i: nat): HuffCode {
    if i == 16 then HuffCode(0xfffffed, 28) else if i == 17 then HuffCode(0xfffffee, 28) else
    if i == 18 then HuffCode(0xfffffef, 28) else if i == 19 then HuffCode(0xffffff0, 28) else
    if i == 20 then HuffCode(0xffffff1, 28) else if i == 21 then HuffCode(0xffffff2, 28) else
    if i == 22 then HuffCode(0x3ffffffe, 30) else if i == 23 then HuffCode(0xffffff3, 28) else
    if i == 24 then HuffCode(0xffffff4, 28) else if i == 25 then HuffCode(0xffffff5, 28) else
    if i == 26 then HuffCode(0xffffff6, 28) else if i == 27 then HuffCode(0xffffff7, 28) else
    if i == 28 then HuffCode(0xffffff8, 28) else if i == 29 then HuffCode(0xffffff9, 28) else
    if i == 30 then HuffCode(0xffffffa, 28) else HuffCode(0xffffffb, 28)
  }

  function Row2(i: nat): HuffCode {
    if i == 32 then HuffCode(0x14, 6) else if i == 33 then HuffCode(0x3f8, 10) else
    if i == 34 then HuffCode(0x3f9, 10) else if i == 35 then HuffCode(0xffa, 12) else
    if i == 36 then HuffCode(0x1ff9, 13) else if i == 37 then HuffCode(0x15, 6) else
    if i == 38 then HuffCode(0xf8, 8) else if i == 39 then HuffCode(0x7fa, 11) else
    if i == 40 then HuffCode(0x3fa, 10) else if i == 41 then HuffCode(0x3fb, 10) else
    if i == 42 then HuffCode(0xf9, 8) else if i == 43 then HuffCode(0x7fb, 11) else
    if i == 44 then HuffCode(0xfa, 8) else if i == 45 then HuffCode(0x16, 6) else
    if i == 46 then HuffCode(0x17, 6) else HuffCode(0x18, 6)
  }

  function Row3(i: nat): HuffCode {
    if i == 48 then HuffCode(0x0, 5) else if i == 49 then HuffCode(0x1, 5) else
    if i == 50 then HuffCode(0x2, 5) else if i == 51 then HuffCode(0x19, 6) else
    if i == 52 then HuffCode(0x1a, 6) else if i == 53 then HuffCode(0x1b, 6) else
    if i == 54 then HuffCode(0x1c, 6) else if i == 55 then HuffCode(0x1d, 6) else
    if i == 56 then HuffCode(0x1e, 6) else if i == 57 then HuffCode(0x1f, 6) else
    if i == 58 then HuffCode(0x5c, 7) else if i == 59 then HuffCode(0xfb, 8) else
    if i == 60 then HuffCode(0x7ffc, 15) else if i == 61 then HuffCode(0x20, 6) else
    if i == 62 then HuffCode(0xffb, 12) else HuffCode(0x3fc, 10)
  }

  function Row4(i: nat): HuffCode {
    if i == 64 then HuffCode(0x1ffa, 13) else if i == 65 then HuffCode(0x21, 6) else
    if i == 66 then HuffCode(0x5d, 7) else if i == 67 then HuffCode(0x5e, 7) else
    if i == 68 then HuffCode(0x5f, 7) else if i == 69 then HuffCode(0x60, 7) else
    if i == 70 then HuffCode(0x61, 7) else if i == 71 then HuffCode(0x62, 7) else
    if i == 72 then HuffCode(0x63, 7) else if i == 73 then HuffCode(0x64, 7) else
    if i == 74 then HuffCode(0x65, 7) else if i == 75 then HuffCode(0x66, 7) else
    if i == 76 then HuffCode(0x67, 7) else if i == 77 then HuffCode(0x68, 7) else
    if i == 78 then HuffCode(0x69, 7) else HuffCode(0x6a, 7)
  }

  function Row5(i: nat): HuffCode {
    if i == 80 then HuffCode(0x6b, 7) else if i == 81 then HuffCode(0x6c, 7) else
    if i == 82 then HuffCode(0x6d, 7) else if i == 83 then HuffCode(0x6e, 7) else
    if i == 84 then HuffCode(0x6f, 7) else if i == 85 then HuffCode(0x70, 7) else
    if i == 86 then HuffCode(0x71, 7) else if i == 87 then HuffCode(0x72, 7) else
    if i == 88 then HuffCode(0xfc, 8) else if i == 89 then HuffCode(0x73, 7) else
    if i == 90 then HuffCode(0xfd, 8) else if i == 91 then HuffCode(0x1ffb, 13) else
    if i == 92 then HuffCode(0x7fff0, 19) else if i == 93 then HuffCode(0x1ffc, 13) else
    if i == 94 then HuffCode(0x3ffc, 14) else HuffCode(0x22, 6)
  }

  function Row6(i: nat): HuffCode {
    if i == 96 then HuffCode(0x7ffd, 15) else if i == 97 then HuffCode(0x3, 5) else
    if i == 98 then HuffCode(0x23, 6) else if i == 99 then HuffCode(0x4, 5) else
    if i == 100 then HuffCode(0x24, 6) else if i == 101 then HuffCode(0x5, 5) else
    if i == 102 then HuffCode(0x25, 6) else if i == 103 then HuffCode(0x26, 6) else
    if i == 104 then HuffCode(0x27, 6) else if i == 105 then HuffCode(0x6, 5) else
    if i == 106 then HuffCode(0x74, 7) else if i == 107 then HuffCode(0x75, 7) else
    if i == 108 then HuffCode(0x28, 6) else if i == 109 then HuffCode(0x29, 6) else
    if i == 110 then HuffCode(0x2a, 6) else HuffCode(0x7, 5)
  }

  function Row7(i: nat): HuffCode {
    if i == 112 then HuffCode(0x2b, 6) else if i == 113 then HuffCode(0x76, 7) else
    if i == 114 then HuffCode(0x2c, 6) else if i == 115 then HuffCode(0x8, 5) else
    if i == 116 then HuffCode(0x9, 5) else if i == 117 then HuffCode(0x2d, 6) else
    if i == 118 then HuffCode(0x77, 7) else if i == 119 then HuffCode(0x78, 7) else
    if i == 120 then HuffCode(0x79, 7) else if i == 121 then HuffCode(0x7a, 7) else
    if i == 122 then HuffCode(0x7b, 7) else if i == 123 then HuffCode(0x7ffe, 15) else
    if i == 124 then HuffCode(0x7fc, 11) else if i == 125 then HuffCode(0x3ffd, 14) else
    if i == 126 then HuffCode(0x1ffd, 13) else HuffCode(0xffffffc, 28)
  }

  function Row8(i: nat): HuffCode {
    if i == 128 then HuffCode(0xfffe6, 20) else if i == 129 then HuffCode(0x3fffd2, 22) else
    if i == 130 then HuffCode(0xfffe7, 20) else if i == 131 then HuffCode(0xfffe8, 20) else
    if i == 132 then HuffCode(0x3fffd3, 22) else if i == 133 then HuffCode(0x3fffd4, 22) else
    if i == 134 then HuffCode(0x3fffd5, 22) else if i == 135 then HuffCode(0x7fffd9, 23) else
    if i == 136 then HuffCode(0x3fffd6, 22) else if i == 137 then HuffCode(0x7fffda, 23) else
    if i == 138 then HuffCode(0x7fffdb, 23) else if i == 139 then HuffCode(0x7fffdc, 23) else
    if i == 140 then HuffCode(0x7fffdd, 23) else if i == 141 then HuffCode(0x7fffde, 23) else
    if i == 142 then HuffCode(0xffffeb, 24) else HuffCode(0x7fffdf, 23)
  }

  function Row9(i: nat): HuffCode {
    if i == 144 then HuffCode(0xffffec, 24) else if i == 145 then HuffCode(0xffffed, 24) else
    if i == 146 then HuffCode(0x3fffd7, 22) else if i == 147 then HuffCode(0x7fffe0, 23) else
    if i == 148 then HuffCode(0xffffee, 24) else if i == 149 then HuffCode(0x7fffe1, 23) else
    if i == 150 then HuffCode(0x7fffe2, 23) else if i == 151 then HuffCode(0x7fffe3, 23) else
    if i == 152 then HuffCode(0x7fffe4, 23) else if i == 153 then HuffCode(0x1fffdc, 21) else
    if i == 154 then HuffCode(0x3fffd8, 22) else if i == 155 then HuffCode(0x7fffe5, 23) else
    if i == 156 then HuffCode(0x3fffd9, 22) else if i == 157 then HuffCode(0x7fffe6, 23) else
    if i == 158 then HuffCode(0x7fffe7, 23) else HuffCode(0xffffef, 24)
  }

  function Row10(i: nat): HuffCode {
    if i == 160 then HuffCode(0x3fffda, 22) else if i == 161 then HuffCode(0x1fffdd, 21) else
    if i == 162 then HuffCode(0xfffe9, 20) else if i == 163 then HuffCode(0x3fffdb, 22) else
    if i == 164 then HuffCode(0x3fffdc, 22) else if i == 165 then HuffCode(0x7fffe8, 23) else
    if i == 166 then HuffCode(0x7fffe9, 23) else if i == 167 then HuffCode(0x1fffde, 21) else
    if i == 168 then HuffCode(0x7fffea, 23) else if i == 169 then HuffCode(0x3fffdd, 22) else
    if i == 170 then HuffCode(0x3fffde, 22) else if i == 171 then HuffCode(0xfffff0, 24) else
    if i == 172 then HuffCode(0x1fffdf, 21) else if i == 173 then HuffCode(0x3fffdf, 22) else
    if i == 174 then HuffCode(0x7fffeb, 23) else HuffCode(0x7fffec, 23)
  }

  function Row11(i: nat): HuffCode {
    if i == 176 then HuffCode(0x1fffe0, 21) else if i == 177 then HuffCode(0x1fffe1, 21) else
    if i == 178 then HuffCode(0x3fffe0, 22) else if i == 179 then HuffCode(0x1fffe2, 21) else
    if i == 180 then HuffCode(0x7fffed, 23) else if i == 181 then HuffCode(0x3fffe1, 22) else
    if i == 182 then HuffCode(0x7fffee, 23) else if i == 183 then HuffCode(0x7fffef, 23) else
    if i == 184 then HuffCode(0xfffea, 20) else if i == 185 then HuffCode(0x3fffe2, 22) else
    if i == 186 then HuffCode(0x3fffe3, 22) else if i == 187 then HuffCode(0x3fffe4, 22) else
    if i == 188 then HuffCode(0x7ffff0, 23) else if i == 189 then HuffCode(0x3fffe5, 22) else
    if i == 190 then HuffCode(0x3fffe6, 22) else HuffCode(0x7ffff1, 23)
  }

  function Row12(i: nat): HuffCode {
    if i == 192 then HuffCode(0x3ffffe0, 26) else if i == 193 then HuffCode(0x3ffffe1, 26) else
    if i == 194 then HuffCode(0xfffeb, 20) else if i == 195 then HuffCode(0x7fff1, 19) else
    if i == 196 then HuffCode(0x3fffe7, 22) else if i == 197 then HuffCode(0x7ffff2, 23) else
    if i == 198 then HuffCode(0x3fffe8, 22) else if i == 199 then HuffCode(0x1ffffec, 25) else
    if i == 200 then HuffCode(0x3ffffe2, 26) else if i == 201 then HuffCode(0x3ffffe3, 26) else
    if i == 202 then HuffCode(0x3ffffe4, 26) else if i == 203 then HuffCode(0x7ffffde, 27) else
    if i == 204 then HuffCode(0x7ffffdf, 27) else if i == 205 then HuffCode(0x3ffffe5, 26) else
    if i == 206 then HuffCode(0xfffff1, 24) else HuffCode(0x1ffffed, 25)
  }

  function Row13(i: nat): HuffCode {
    if i == 208 then HuffCode(0x7fff2, 19) else if i == 209 then HuffCode(0x1fffe3, 21) else
    if i == 210 then HuffCode(0x3ffffe6, 26) else if i == 211 then HuffCode(0x7ffffe0, 27) else
    if i == 212 then HuffCode(0x7ffffe1, 27) else if i == 213 then HuffCode(0x3ffffe7, 26) else
    if i == 214 then HuffCode(0x7ffffe2, 27) else if i == 215 then HuffCode(0xfffff2, 24) else
    if i == 216 then HuffCode(0x1fffe4, 21) else if i == 217 then HuffCode(0x1fffe5, 21) else
    if i == 218 then HuffCode(0x3ffffe8, 26) else if i == 219 then HuffCode(0x3ffffe9, 26) else
    if i == 220 then HuffCode(0xffffffd, 28) else if i == 221 then HuffCode(0x7ffffe3, 27) else
    if i == 222 then HuffCode(0x7ffffe4, 27) else HuffCode(0x7ffffe5, 27)
  }

  function Row14(i: nat): HuffCode {
    if i == 224 then HuffCode(0xfffec, 20) else if i == 225 then HuffCode(0xfffff3, 24) else
    if i == 226 then HuffCode(0xfffed, 20) else if i == 227 then HuffCode(0x1fffe6, 21) else
    if i == 228 then HuffCode(0x3fffe9, 22) else if i == 229 then HuffCode(0x1fffe7, 21) else
    if i == 230 then HuffCode(0x1fffe8, 21) else if i == 231 then HuffCode(0x7ffff3, 23) else
    if i == 232 then HuffCode(0x3fffea, 22) else if i == 233 then HuffCode(0x3fffeb, 22) else
    if i == 234 then HuffCode(0x1ffffee, 25) else if i == 235 then HuffCode(0x1ffffef, 25) else
    if i == 236 then HuffCode(0xfffff4, 24) else if i == 237 then HuffCode(0xfffff5, 24) else
    if i == 238 then HuffCode(0x3ffffea, 26) else HuffCode(0x7ffff4, 23)
  }

  function Row15(i: nat): HuffCode {
    if i == 240 then HuffCode(0x3ffffeb, 26) else if i == 241 then HuffCode(0x7ffffe6, 27) else
    if i == 242 then HuffCode(0x3ffffec, 26) else if i == 243 then HuffCode(0x3ffffed, 26) else
    if i == 244 then HuffCode(0x7ffffe7, 27) else if i == 245 then HuffCode(0x7ffffe8, 27) else
    if i == 246 then HuffCode(0x1fffff0, 25) else if i == 247 then HuffCode(0x1fffff1, 25) else
    if i == 248 then HuffCode(0x3ffffee, 26) else if i == 249 then HuffCode(0x1fffff2, 25) else
    if i == 250 then HuffCode(0x7ffffe9, 27) else if i == 251 then HuffCode(0x1fffff3, 25) else
    if i == 252 then HuffCode(0x3ffffef, 26) else if i == 253 then HuffCode(0x1fffff4, 25) else
    if i == 254 then HuffCode(0x1fffff5, 25) else HuffCode(0x3fffff0, 26)
  }

  function Row16(i: nat): HuffCode {
    HuffCode(0x1fffff6, 25)
  }

  function Row(i: nat): HuffCode {
    if i < 16 then Row0(i) else if i < 32 then Row1(i) else if i < 48 then Row2(i) else if i < 64 then Row3(i) else
    if i < 80 then Row4(i) else if i < 96 then Row5(i) else if i < 112 then Row6(i) else if i < 128 then Row7(i) else
    if i < 144 then Row8(i) else if i < 160 then Row9(i) else if i < 176 then Row10(i) else
    if i < 192 then Row11(i) else if i < 208 then Row12(i) else if i < 224 then Row13(i) else
    if i < 240 then Row14(i) else if i < 256 then Row15(i) else
    Row16(i)
  }

  /** The octets header text is made of: HTAB, SP and VCHAR. */
  predicate IsText(c: nat) {
    c == 9 || 32 <= c <= 126
  }

  /** The smallest value the first `n` bits of any code longer than or equal to `n` bits can take. */
  function Lo(n: nat): (v: nat) {
    if n <= 5 then 0 else if n == 6 then 0x14 else if n == 7 then 0x5c else if n == 8 then 0xf8
    else if n == 9 then 0x1fc else if n == 10 then 0x3f8 else if n == 11 then 0x7fa else if n == 12 then 0xffa
    else if n == 13 then 0x1ff8 else if n == 14 then 0x3ffc else if n == 15 then 0x7ffc else if n == 16 then 0xfffe
    else if n == 17 then 0x1fffc else if n == 18 then 0x3fff8 else if n == 19 then 0x7fff0
    else if n == 20 then 0xfffe6 else if n == 21 then 0x1fffdc else if n == 22 then 0x3fffd2
    else if n == 23 then 0x7fffd8 else if n == 24 then 0xffffea else if n == 25 then 0x1ffffec
    else if n == 26 then 0x3ffffe0 else if n == 27 then 0x7ffffde else if n == 28 then 0xfffffe2
    else if n == 29 then 0x1ffffffe else 0x3ffffffc
  }

  function Symbol5(k: nat): (symbol: nat) {
    if k <= 2 then k + 48 else if k <= 3 then 97 else if k <= 4 then 99 else if k <= 5 then 101 else
    if k <= 6 then 105 else if k <= 7 then 111 else if k <= 8 then 115 else 116
  }

  function Symbol6(k: nat): (symbol: nat) {
    if k <= 0 then 32 else if k <= 1 then 37 else if k <= 4 then k + 43 else if k <= 11 then k + 46 else
    if k <= 12 then 61 else if k <= 13 then 65 else if k <= 14 then 95 else if k <= 15 then 98 else
    if k <= 16 then 100 else if k <= 19 then k + 85 else if k <= 22 then k + 88 else if k <= 23 then 112 else
    if k <= 24 then 114 else 117
  }

  function Symbol7(k: nat): (symbol: nat) {
    if k <= 0 then 58 else if k <= 22 then k + 65 else if k <= 23 then 89 else if k <= 24 then 106 else
    if k <= 25 then 107 else if k <= 26 then 113 else k + 91
  }

  function Symbol8(k: nat): (symbol: nat) {
    if k <= 0 then 38 else if k <= 1 then 42 else if k <= 2 then 44 else if k <= 3 then 59 else
    if k <= 4 then 88 else 90
  }

  function Symbol10(k: nat): (symbol: nat) {
    if k <= 0 then 33 else if k <= 1 then 34 else if k <= 2 then 40 else if k <= 3 then 41 else 63
  }

  function Symbol11(k: nat): (symbol: nat) {
    if k <= 0 then 39 else if k <= 1 then 43 else 124
  }

  function Symbol12(k: nat): (symbol: nat) {
    if k <= 0 then 35 else 62
  }

  function Symbol13(k: nat): (symbol: nat) {
    if k <= 0 then 0 else if k <= 1 then 36 else if k <= 2 then 64 else if k <= 3 then 91 else
    if k <= 4 then 93 else 126
  }

  function Symbol14(k: nat): (symbol: nat) {
    if k <= 0 then 94 else 125
  }

  function Symbol15(k: nat): (symbol: nat) {
    if k <= 0 then 60 else if k <= 1 then 96 else 123
  }

  function Symbol19(k: nat): (symbol: nat) {
    if k <= 0 then 92 else if k <= 1 then 195 else 208
  }

  function Symbol24(k: nat): (symbol: nat) {
    if k <= 0 then 9 else if k <= 1 then 142 else if k <= 2 then 144 else if k <= 3 then 145 else
    if k <= 4 then 148 else if k <= 5 then 159 else if k <= 6 then 171 else if k <= 7 then 206 else
    if k <= 8 then 215 else if k <= 9 then 225 else if k <= 10 then 236 else 237
  }

  /** The symbol of the `k`-th code of `n` bits, for the lengths text uses. */
  function SymbolOfCode(n: nat, k: nat): (symbol: nat) {
    if n == 5 then Symbol5(k) else if n == 6 then Symbol6(k) else if n == 7 then Symbol7(k)
    else if n == 8 then Symbol8(k) else if n == 10 then Symbol10(k) else if n == 11 then Symbol11(k)
    else if n == 12 then Symbol12(k) else if n == 13 then Symbol13(k) else if n == 14 then Symbol14(k)
    else if n == 15 then Symbol15(k) else if n == 19 then Symbol19(k) else Symbol24(k)
  }

  predicate IsTextLength(n: nat) {
    n <= 19 || n == 24
  }

  /** Row i of a canonical table: long codes sort behind the short ones, and no text length repeats a code. */
  ghost predicate CanonicalRow(i: nat, c: HuffCode) {
    && 5 <= c.bits <= 30
    && Lo(c.bits) <= c.code < Pow2(c.bits)
    && (c.bits <= 23 ==> 2 * c.code + 2 <= Lo(c.bits + 1))
    && (IsTextLength(c.bits) ==> SymbolOfCode(c.bits, c.code - Lo(c.bits)) == i)
    && (IsText(i) ==> IsTextLength(c.bits))
  }

  ghost predicate Canonical(t: seq<HuffCode>) {
    && |t| == SYMBOLS
    && forall i :: 0 <= i < |t| ==> CanonicalRow(i, t[i])
  }

  lemma Row0aCanonical(i: nat)
    requires 0 <= i < 8
    ensures CanonicalRow(i, Row(i))
  {
    Pow2Values();
  }

  lemma Row0bCanonical(i: nat)
    requires 8 <= i < 16
    ensures CanonicalRow(i, Row(i))
  {
    Pow2Values();
  }

  lemma Row1aCanonical(i: nat)
    requires 16 <= i < 24
    ensures CanonicalRow(i, Row(i))
  {
    Pow2Values();
  }

  lemma Row1bCanonical(i: nat)
    requires 24 <= i < 32
    ensures CanonicalRow(i, Row(i))
  {
    Pow2Values();
  }

  lemma Row2aCanonical(i: nat)
    requires 32 <= i < 40
    ensures CanonicalRow(i, Row(i))
  {
    Pow2Values();
  }

  lemma Row2bCanonical(i: nat)
    requires 40 <= i < 48
    ensures CanonicalRow(i, Row(i))
  {
    Pow2Values();
  }

  lemma Row3aCanonical(i: nat)
    requires 48 <= i < 56
    ensures CanonicalRow(i, Row(i))
  {
    Pow2Values();
  }

  lemma Row3bCanonical(i: nat)
    requires 56 <= i < 64
    ensures CanonicalRow(i, Row(i))
  {
    Pow2Values();
  }

  lemma Row4aCanonical(i: nat)
    requires 64 <= i < 72
    ensures CanonicalRow(i, Row(i))
  {
    Pow2Values();
  }

  lemma Row4bCanonical(i: nat)
    requires 72 <= i < 80
    ensures CanonicalRow(i, Row(i))
  {
    Pow2Values();
  }

  lemma Row5aCanonical(i: nat)
    requires 80 <= i < 88
    ensures CanonicalRow(i, Row(i))
  {
    Pow2Values();
  }

  lemma Row5bCanonical(i: nat)
    requires 88 <= i < 96
    ensures CanonicalRow(i, Row(i))
  {
    Pow2Values();
  }

  lemma Row6aCanonical(i: nat)
    requires 96 <= i < 104
    ensures CanonicalRow(i, Row(i))
  {
    Pow2Values();
  }

  lemma Row6bCanonical(i: nat)
    requires 104 <= i < 112
    ensures CanonicalRow(i, Row(i))
  {
    Pow2Values();
  }

  lemma Row7aCanonical(i: nat)
    requires 112 <= i < 120
    ensures CanonicalRow(i, Row(i))
  {
    Pow2Values();
  }

  lemma Row7bCanonical(i: nat)
    requires 120 <= i < 128
    ensures CanonicalRow(i, Row(i))
  {
    Pow2Values();
  }

  lemma Row8Canonical(i: nat)
    requires 128 <= i < 144
    ensures CanonicalRow(i, Row(i))
  {
    Pow2Values();
  }

  lemma Row9Canonical(i: nat)
    requires 144 <= i < 160
    ensures CanonicalRow(i, Row(i))
  {
    Pow2Values();
  }

  lemma Row10Canonical(i: nat)
    requires 160 <= i < 176
    ensures CanonicalRow(i, Row(i))
  {
    Pow2Values();
  }

  lemma Row11Canonical(i: nat)
    requires 176 <= i < 192
    ensures CanonicalRow(i, Row(i))
  {
    Pow2Values();
  }

  lemma Row12Canonical(i: nat)
    requires 192 <= i < 208
    ensures CanonicalRow(i, Row(i))
  {
    Pow2Values();
  }

  lemma Row13Canonical(i: nat)
    requires 208 <= i < 224
    ensures CanonicalRow(i, Row(i))
  {
    Pow2Values();
  }

  lemma Row14Canonical(i: nat)
    requires 224 <= i < 240
    ensures CanonicalRow(i, Row(i))
  {
    Pow2Values();
  }

  lemma Row15Canonical(i: nat)
    requires 240 <= i < 256
    ensures CanonicalRow(i, Row(i))
  {
    Pow2Values();
  }

  lemma Row16Canonical(i: nat)
    requires 256 <= i < 257
    ensures CanonicalRow(i, Row(i))
  {
    Pow2Values();
  }

  lemma RowsCanonical(i: nat)
    requires i < SYMBOLS
    ensures CanonicalRow(i, Row(i))
  {
    if i < 8 {
      Row0aCanonical(i);
    } else if i < 16 {
      Row0bCanonical(i);
    } else if i < 24 {
      Row1aCanonical(i);
    } else if i < 32 {
      Row1bCanonical(i);
    } else if i < 40 {
      Row2aCanonical(i);
    } else if i < 48 {
      Row2bCanonical(i);
    } else if i < 56 {
      Row3aCanonical(i);
    } else if i < 64 {
      Row3bCanonical(i);
    } else if i < 72 {
      Row4aCanonical(i);
    } else if i < 80 {
      Row4bCanonical(i);
    } else if i < 88 {
      Row5aCanonical(i);
    } else if i < 96 {
      Row5bCanonical(i);
    } else if i < 104 {
      Row6aCanonical(i);
    } else if i < 112 {
      Row6bCanonical(i);
    } else if i < 120 {
      Row7aCanonical(i);
    } else if i < 128 {
      Row7bCanonical(i);
    } else if i < 144 {
      Row8Canonical(i);
    } else if i < 160 {
      Row9Canonical(i);
    } else if i < 176 {
      Row10Canonical(i);
    } else if i < 192 {
      Row11Canonical(i);
    } else if i < 208 {
      Row12Canonical(i);
    } else if i < 224 {
      Row13Canonical(i);
    } else if i < 240 {
      Row14Canonical(i);
    } else if i < 256 {
      Row15Canonical(i);
    } else {
      Row16Canonical(i);
    }
  }

  lemma RowsCanonicalTable() returns (t: seq<HuffCode>)
    ensures Canonical(t) && forall i :: 0 <= i < |t| ==> t[i] == Row(i)
  {
    t := seq(SYMBOLS, i requires 0 <= i => Row(i));
    forall i | 0 <= i < SYMBOLS
      ensures CanonicalRow(i, t[i])
    {
      RowsCanonical(i);
    }
  }

  lemma RowsExist()
    ensures exists t :: IsTable(t)
  {
    var t := RowsCanonicalTable();
    assert IsTable(t);
  }

  ghost predicate IsTable(t: seq<HuffCode>) {
    Canonical(t) && forall i :: 0 <= i < |t| ==> t[i] == Row(i)
  }

  /** Everything below is proved of any canonical table, and so of the one given by the rows. */
  type CodeTable = t: seq<HuffCode> | Canonical(t) ghost witness (RowsExist(); var t :| IsTable(t); t)

  /** The table the encoder and the decoder share. */
  ghost function HuffmanCodes(): (t: CodeTable)
    ensures IsTable(t)
  {
    RowsExist();
    var t :| IsTable(t);
    t
  }
}
