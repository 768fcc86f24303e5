/**
 Huffman coding of header strings: the bit-accumulator encoder, the bit tree built into a fixed node pool,
 and the decoder that walks it.
 */
module Huffman {
  import opened Octets
  import opened HuffmanTable

  const UINT32: nat := 0x1_0000_0000

  function CodeBits(t: CodeTable, c: byte): (bits: seq<bit>)
    ensures |bits| == t[c].bits
  {
    ToBits(t[c].code, t[c].bits)
  }

  /** What the code table alone says the Huffman form of a string is, before padding. */
  function HuffmanBits(t: CodeTable, s: seq<byte>): (bits: seq<bit>) {
    if s == [] then [] else CodeBits(t, s[0]) + HuffmanBits(t, s[1..])
  }

  lemma CodeShape(t: CodeTable, c: byte)
    ensures 5 <= t[c].bits <= 30 && t[c].code < Pow2(t[c].bits)
  {
    assert CanonicalRow(c, t[c]);
  }

  /** HTAB, SP and VCHAR only. */
  predicate TextString(s: seq<byte>) {
    forall i :: 0 <= i < |s| ==> IsText(s[i])
  }

  lemma {:induction false} HuffmanBitsAppend(t: CodeTable, s: seq<byte>, c: byte)
    ensures HuffmanBits(t, s + [c]) == HuffmanBits(t, s) + CodeBits(t, c)
  {
    if s == [] {
      assert s + [c] == [c];
    } else {
      assert (s + [c])[1..] == s[1..] + [c];
      HuffmanBitsAppend(t, s[1..], c);
    }
  }

  lemma {:induction false} HuffmanBitsPrefix(t: CodeTable, s: seq<byte>, i: nat)
    requires i <= |s|
    ensures |HuffmanBits(t, s[..i])| <= |HuffmanBits(t, s)|
  {
    if i == 0 {
    } else {
      assert s[..i][1..] == s[1..][..i - 1];
      HuffmanBitsPrefix(t, s[1..], i - 1);
    }
  }

  // ---------------------------------------------------------------- encoder

  /** The octets a string occupies once Huffman coded. */
  function HuffmanLength(t: CodeTable, s: seq<byte>): (n: nat) {
    (|HuffmanBits(t, s)| + 7) / 8
  }

  /** The octets whose bits are the Huffman form of `s` followed by padding ones. */
  ghost predicate IsHuffmanForm(t: CodeTable, s: seq<byte>, coded: seq<byte>) {
    && |coded| == HuffmanLength(t, s)
    && BitsOf(coded) == HuffmanBits(t, s) + Ones(8 * |coded| - |HuffmanBits(t, s)|)
  }

  /** The accumulator invariant: output and pending bits together are the form of what was read. */
  ghost predicate Accumulated(written: seq<byte>, acc: nat, used: nat, bits: seq<bit>) {
    && acc < Pow2(used)
    && BitsOf(written) + ToBits(acc, used) == bits
  }

  lemma AccumulatedNothing(t: CodeTable)
    ensures Accumulated([], 0, 0, []) && HuffmanBits(t, []) == []
  {
  }

  lemma AccumulatedWhole(written: seq<byte>, acc: nat, bits: seq<bit>)
    requires Accumulated(written, acc, 0, bits)
    ensures BitsOf(written) == bits + Ones(0)
  {
  }

  /** Shifting a whole octet out of the accumulator moves its leading bits to the output. */
  lemma AccumulatedShift(written: seq<byte>, acc: nat, used: nat, bits: seq<bit>)
    requires Accumulated(written, acc, used, bits) && used >= 8
    ensures Shr(acc, used - 8) < 256
    ensures Accumulated(written + [Shr(acc, used - 8)], Low(acc, used - 8), used - 8, bits)
  {
    ShrBelow(acc, 8, used - 8);
    Pow2Values();
    ToBitsSplit(acc, 8, used - 8);
    var high, low := Shr(acc, used - 8), Low(acc, used - 8);
    var written' := written + [high];
    assert written'[..|written'| - 1] == written;
    assert BitsOf(written') + ToBits(low, used - 8) == BitsOf(written) + (ToBits(high, 8) + ToBits(low, used - 8));
  }

  lemma AccumulatedPad(written: seq<byte>, acc: nat, used: nat, bits: seq<bit>)
    requires Accumulated(written, acc, used, bits) && 0 < used < 8
    ensures var last := Shl(acc, 8 - used) + (Pow2(8 - used) - 1);
            && last < 256
            && BitsOf(written + [last]) == bits + Ones(8 - used)
  {
    hide ToBits, Shl, Ones, Pow2;
    var last := Shl(acc, 8 - used) + (Pow2(8 - used) - 1);
    ShlBelow(acc, used, Pow2(8 - used) - 1, 8 - used);
    assert Pow2(8) == 256 by {
      Pow2Values();
    }
    ToBitsAppend(acc, used, Pow2(8 - used) - 1, 8 - used);
    ToBitsOnes(8 - used);
    var written' := written + [last];
    assert written'[..|written'| - 1] == written;
  }

  // ---------------------------------------------------------------- what the accumulator holds

  /** Octets written, and the bits that do not make a whole octet yet. */
  datatype Acc = Acc(written: seq<byte>, pending: nat, used: nat)

  /** Writes out the complete octets. */
  function Drained(a: Acc): (r: Acc)
    ensures r.used < 8 && 8 * |r.written| + r.used == 8 * |a.written| + a.used
    ensures a.written <= r.written
    decreases a.used
  {
    if a.used < 8 then a
    else Drained(Acc(a.written + [Shr(a.pending, a.used - 8) % 256], Low(a.pending, a.used - 8), a.used - 8))
  }

  /** The 32-bit shift drops what it pushes out; OR-ing a code into cleared bits is addition. */
  function Shifted(pending: nat, c: HuffCode): (r: nat) {
    Shl(pending, c.bits) % UINT32 + c.code
  }

  function Added(a: Acc, c: HuffCode): (r: Acc) {
    Drained(Acc(a.written, Shifted(a.pending, c), a.used + c.bits))
  }

  /** The accumulator after a string. */
  function AccOf(t: CodeTable, s: seq<byte>): (a: Acc) {
    if s == [] then Acc([], 0, 0) else Added(AccOf(t, s[..|s| - 1]), t[s[|s| - 1]])
  }

  /** What the encoder writes for a string, whatever the shifts drop. */
  function Encoded(t: CodeTable, s: seq<byte>): (octets: seq<byte>) {
    var a := AccOf(t, s);
    if a.used == 0 then a.written
    else a.written + [(Shl(a.pending, 8 - a.used) + (Pow2(8 - a.used) - 1)) % 256]
  }

  /** The step that adds an octet's code pushes a one-bit out of 32 bits. */
  predicate LosesBit(t: CodeTable, s: seq<byte>, i: nat)
    requires i < |s|
  {
    Shl(AccOf(t, s[..i]).pending, t[s[i]].bits) >= UINT32
  }

  /** No step pushes a one-bit out. */
  ghost predicate NoBitLost(t: CodeTable, s: seq<byte>) {
    forall i :: 0 <= i < |s| ==> !LosesBit(t, s, i)
  }

  lemma AccOfStep(t: CodeTable, s: seq<byte>, i: nat)
    requires i < |s|
    ensures AccOf(t, s[..i + 1]) == Added(AccOf(t, s[..i]), t[s[i]])
  {
    assert s[..i + 1][..i] == s[..i];
  }

  lemma {:induction false} DrainedKeeps(a: Acc, bits: seq<bit>)
    requires Accumulated(a.written, a.pending, a.used, bits)
    ensures Accumulated(Drained(a).written, Drained(a).pending, Drained(a).used, bits)
    decreases a.used
  {
    hide Accumulated, Shr, Low;
    if a.used >= 8 {
      AccumulatedShift(a.written, a.pending, a.used, bits);
      DrainedKeeps(Acc(a.written + [Shr(a.pending, a.used - 8) % 256], Low(a.pending, a.used - 8), a.used - 8), bits);
    }
  }

  lemma AddedKeeps(a: Acc, c: HuffCode, bits: seq<bit>)
    requires Accumulated(a.written, a.pending, a.used, bits)
    requires c.code < Pow2(c.bits) && Shl(a.pending, c.bits) < UINT32
    ensures var r := Added(a, c); Accumulated(r.written, r.pending, r.used, bits + ToBits(c.code, c.bits))
  {
    hide ToBits, BitsOf, Shl, Drained;
    ShlBelow(a.pending, a.used, c.code, c.bits);
    ToBitsAppend(a.pending, a.used, c.code, c.bits);
    assert BitsOf(a.written) + (ToBits(a.pending, a.used) + ToBits(c.code, c.bits)) == bits + ToBits(c.code, c.bits);
    DrainedKeeps(Acc(a.written, Shifted(a.pending, c), a.used + c.bits), bits + ToBits(c.code, c.bits));
  }

  /** While no bit is lost, written and pending bits are the codes so far. */
  lemma {:induction false} AccIsExact(t: CodeTable, s: seq<byte>, i: nat)
    requires i <= |s| && forall j :: 0 <= j < i ==> !LosesBit(t, s, j)
    ensures var a := AccOf(t, s[..i]); a.used < 8 && Accumulated(a.written, a.pending, a.used, HuffmanBits(t, s[..i]))
    decreases i
  {
    hide CanonicalRow, Accumulated, Added, HuffmanBits, Shl;
    if i == 0 {
      AccumulatedNothing(t);
    } else {
      AccIsExact(t, s, i - 1);
      AccOfStep(t, s, i - 1);
      assert !LosesBit(t, s, i - 1);
      CodeShape(t, s[i - 1]);
      AddedKeeps(AccOf(t, s[..i - 1]), t[s[i - 1]], HuffmanBits(t, s[..i - 1]));
      AddedBelowOctet(AccOf(t, s[..i - 1]), t[s[i - 1]]);
      assert s[..i] == s[..i - 1] + [s[i - 1]];
      HuffmanBitsAppend(t, s[..i - 1], s[i - 1]);
    }
  }

  lemma AddedBelowOctet(a: Acc, c: HuffCode)
    ensures Added(a, c).used < 8 && a.written <= Added(a, c).written
    ensures 8 * |Added(a, c).written| + Added(a, c).used == 8 * |a.written| + a.used + c.bits
  {
  }

  /** Losing no bit, the encoder writes the form. */
  lemma NoLossIsForm(t: CodeTable, s: seq<byte>)
    requires NoBitLost(t, s)
    ensures IsHuffmanForm(t, s, Encoded(t, s))
  {
    hide HuffmanBits, Shl, Pow2, BitsOf, ToBits, AccOf, LosesBit;
    AccIsExact(t, s, |s|);
    assert s[..|s|] == s;
    var a, bits := AccOf(t, s), HuffmanBits(t, s);
    assert |bits| == 8 * |a.written| + a.used;
    if a.used == 0 {
      AccumulatedWhole(a.written, a.pending, bits);
    } else {
      AccumulatedPad(a.written, a.pending, a.used, bits);
    }
  }

  // ---------------------------------------------------------------- a lost bit shows

  lemma {:induction false} ShlIsProduct(v: nat, n: nat)
    ensures Shl(v, n) == v * Pow2(n)
  {
    if n > 0 {
      ShlIsProduct(v, n - 1);
      assert v * Pow2(n) == 2 * (v * Pow2(n - 1));
    }
  }

  lemma {:induction false} Pow2Product(m: nat, n: nat)
    ensures Pow2(m) * Pow2(n) == Pow2(m + n)
  {
    if m > 0 {
      Pow2Product(m - 1, n);
      assert Pow2(m) * Pow2(n) == 2 * (Pow2(m - 1) * Pow2(n));
    }
  }

  lemma {:induction false} ShrOfShl(v: nat, w: nat, n: nat)
    requires w < Pow2(n)
    ensures Shr(Shl(v, n) + w, n) == v
  {
    if n > 0 {
      assert (Shl(v, n) + w) / 2 == Shl(v, n - 1) + w / 2;
      ShrOfShl(v, w / 2, n - 1);
    }
  }

  lemma {:induction false} ToBitsInjective(v: nat, w: nat, n: nat)
    requires v < Pow2(n) && w < Pow2(n) && ToBits(v, n) == ToBits(w, n)
    ensures v == w
  {
    if n > 0 {
      var p, q := ToBits(v / 2, n - 1), ToBits(w / 2, n - 1);
      assert (p + [v % 2])[..n - 1] == p && (q + [w % 2])[..n - 1] == q;
      assert (p + [v % 2])[n - 1] == v % 2 && (q + [w % 2])[n - 1] == w % 2;
      ToBitsInjective(v / 2, w / 2, n - 1);
    }
  }

  /** A shift that overflows leaves the low bits of what was pending, and less than all of it. */
  lemma ShiftDrops(pending: nat, bits: nat) returns (left: nat)
    requires bits <= 32 && Shl(pending, bits) >= UINT32
    ensures left < pending && Shl(pending, bits) % UINT32 == Shl(left, bits)
  {
    hide Shl, Pow2;
    var m := Pow2(32 - bits);
    Pow2Product(32 - bits, bits);
    assert Pow2(32) == UINT32 by { Pow2Values(); }
    var q := pending / m;
    left := pending % m;
    ShlIsProduct(pending, bits);
    ShlIsProduct(left, bits);
    Split(pending, m, q, left, Pow2(bits));
  }

  lemma Split(p: nat, m: nat, q: nat, r: nat, b: nat)
    requires 0 < m && 0 < b && q == p / m && r == p % m && p * b >= m * b
    ensures r < p && (p * b) % (m * b) == r * b
  {
    assert (p - m) * b >= 0;
    PositiveFactor(p - m, b);
    assert p == q * m + r;
    Distribute(q, m, r, b);
    RemainderIs(q, m * b, r * b);
  }

  lemma Distribute(q: nat, m: nat, r: nat, b: nat)
    requires r < m && 0 < b
    ensures (q * m + r) * b == q * (m * b) + r * b && r * b < m * b
  {
  }

  lemma RemainderIs(q: nat, d: nat, r: nat)
    requires r < d
    ensures (q * d + r) % d == r
  {
    var x := q * d + r;
    var e := x / d;
    assert (q - e) * d == x % d - r;
    SmallMultiple(q - e, d);
  }

  lemma SmallMultiple(k: int, d: int)
    requires -d < k * d < d
    ensures k == 0
  {
    assert (1 - k) * d == d - k * d && (k + 1) * d == k * d + d;
    StrictFactor(1 - k, d);
    StrictFactor(k + 1, d);
  }

  lemma StrictFactor(x: int, d: int)
    requires 0 < d && x * d > 0
    ensures x > 0
  {
  }

  lemma PositiveFactor(x: int, b: nat)
    requires 0 < b && x * b >= 0
    ensures x >= 0
  {
  }

  /** Where a bit is lost, the next octet written starts with other bits than the pending ones. */
  lemma LossChangesOctet(a: Acc, c: HuffCode)
    requires a.used < 8 && a.pending < Pow2(a.used) && c.code < Pow2(c.bits)
    requires 5 <= c.bits <= 30 && Shl(a.pending, c.bits) >= UINT32
    ensures |Added(a, c).written| > |a.written|
    ensures ToBits(Added(a, c).written[|a.written|], 8)[..a.used] != ToBits(a.pending, a.used)
  {
    hide ToBits, Shl, Shr, Pow2, Low, Drained;
    var left := ShiftDrops(a.pending, c.bits);
    var x, n := Shl(left, c.bits) + c.code, a.used + c.bits;
    assert Shifted(a.pending, c) == x;
    OverflowMeansLong(a.pending, a.used, c.bits);
    ShlBelow(left, a.used, c.code, c.bits);
    ShrBelow(x, 8, n - 8);
    assert Pow2(8) == 256 by { Pow2Values(); }
    FirstDrained(a, x, n);
    ToBitsSplit(x, a.used, c.bits);
    ShrOfShl(left, c.code, c.bits);
    ToBitsSplit(x, 8, n - 8);
    assert ToBits(x, n)[..a.used] == ToBits(left, a.used);
    assert ToBits(x, n)[..8] == ToBits(Shr(x, n - 8), 8);
    assert ToBits(x, n)[..8][..a.used] == ToBits(x, n)[..a.used];
    if ToBits(left, a.used) == ToBits(a.pending, a.used) {
      ToBitsInjective(left, a.pending, a.used);
    }
  }

  lemma OverflowMeansLong(pending: nat, used: nat, bits: nat)
    requires pending < Pow2(used) && Shl(pending, bits) >= UINT32
    ensures used + bits >= 33
  {
    hide Shl, Pow2;
    assert 0 < Pow2(bits);
    ShlBelow(pending, used, 0, bits);
    if used + bits <= 32 {
      Pow2Monotone(used + bits, 32);
      assert Pow2(32) == UINT32 by { Pow2Values(); }
    }
  }

  lemma FirstDrained(a: Acc, x: nat, n: nat)
    requires n >= 8
    ensures var r := Drained(Acc(a.written, x, n));
            |r.written| > |a.written| && r.written[|a.written|] == Shr(x, n - 8) % 256
  {
    var first := Acc(a.written + [Shr(x, n - 8) % 256], Low(x, n - 8), n - 8);
    assert first.written <= Drained(first).written;
  }

  /** Octets once written stay. */
  lemma {:induction false} WrittenStays(t: CodeTable, s: seq<byte>, i: nat)
    requires i <= |s|
    ensures AccOf(t, s[..i]).written <= Encoded(t, s)
    decreases |s| - i
  {
    hide Shl, Pow2, Added, CanonicalRow;
    if i == |s| {
      assert s[..i] == s;
    } else {
      AccOfStep(t, s, i);
      AddedBelowOctet(AccOf(t, s[..i]), t[s[i]]);
      WrittenStays(t, s, i + 1);
    }
  }

  /** The bits around a point of the string, in octets that start with its codes. */
  lemma FormHasPending(t: CodeTable, s: seq<byte>, i: nat, coded: seq<byte>)
    requires i < |s| && (forall j :: 0 <= j < i ==> !LosesBit(t, s, j)) && HuffmanBits(t, s) <= BitsOf(coded)
    requires |AccOf(t, s[..i]).written| < |coded|
    ensures var a := AccOf(t, s[..i]);
            a.used < 8 && ToBits(coded[|a.written|], 8)[..a.used] == ToBits(a.pending, a.used)
  {
    hide ToBits, HuffmanBits, AccOf, LosesBit, BitsOf, CanonicalRow, Pow2, Accumulated;
    AccIsExact(t, s, i);
    var a, front := AccOf(t, s[..i]), HuffmanBits(t, s[..i]);
    AccumulatedBits(a.written, a.pending, a.used, front);
    BitsOfAt(coded, |a.written|);
    HuffmanBitsSplit(t, s, i);
    hide *;
    PendingInFront(BitsOf(coded), HuffmanBits(t, s), front, HuffmanBits(t, s[i..]), BitsOf(a.written),
                   ToBits(a.pending, a.used));
  }

  lemma AccumulatedBits(written: seq<byte>, acc: nat, used: nat, bits: seq<bit>)
    requires Accumulated(written, acc, used, bits)
    ensures BitsOf(written) + ToBits(acc, used) == bits
  {
  }

  /** Where the octets start with the codes, what stands behind the first octets are the pending bits. */
  lemma PendingInFront(all: seq<bit>, codes: seq<bit>, front: seq<bit>, later: seq<bit>, before: seq<bit>,
                       pending: seq<bit>)
    requires codes <= all && codes == front + later && before + pending == front
    requires |pending| < 8 && |before| + 8 <= |all|
    ensures all[|before|..|before| + 8][..|pending|] == pending
  {
    assert codes[|before|..|before| + |pending|] == pending;
    assert all[|before|..|before| + |pending|] == codes[|before|..|before| + |pending|];
    assert all[|before|..|before| + 8][..|pending|] == all[|before|..|before| + |pending|];
  }

  lemma {:induction false} HuffmanBitsSplit(t: CodeTable, s: seq<byte>, i: nat)
    requires i <= |s|
    ensures HuffmanBits(t, s) == HuffmanBits(t, s[..i]) + HuffmanBits(t, s[i..])
  {
    hide CanonicalRow;
    if i == 0 {
      assert s[..0] == [] && s[0..] == s;
    } else {
      assert s[..i][1..] == s[1..][..i - 1] && s[i..] == s[1..][i - 1..];
      HuffmanBitsSplit(t, s[1..], i - 1);
    }
  }

  /** The encoder writes the codes in order exactly when no step pushes a one-bit out of the accumulator. */
  lemma EncodedHasCodesIff(t: CodeTable, s: seq<byte>)
    ensures HuffmanBits(t, s) <= BitsOf(Encoded(t, s)) <==> NoBitLost(t, s)
  {
    hide IsHuffmanForm, Encoded, AccOf, Added, ToBits, Shl, Pow2, CanonicalRow, HuffmanBits, BitsOf;
    if NoBitLost(t, s) {
      NoLossIsForm(t, s);
      FormHasCodes(t, s, Encoded(t, s));
    } else {
      var i := FirstLoss(t, s, |s|);
      var a, c := AccOf(t, s[..i]), t[s[i]];
      AccIsExact(t, s, i);
      CodeShape(t, s[i]);
      LossChangesOctet(a, c);
      AccOfStep(t, s, i);
      WrittenStays(t, s, i + 1);
      if HuffmanBits(t, s) <= BitsOf(Encoded(t, s)) {
        FormHasPending(t, s, i, Encoded(t, s));
      }
    }
  }

  lemma FormHasCodes(t: CodeTable, s: seq<byte>, coded: seq<byte>)
    requires IsHuffmanForm(t, s, coded)
    ensures HuffmanBits(t, s) <= BitsOf(coded)
  {
  }

  /** It writes the Huffman form, padding included, on the same condition. */
  lemma EncodedIsFormIff(t: CodeTable, s: seq<byte>)
    ensures IsHuffmanForm(t, s, Encoded(t, s)) <==> NoBitLost(t, s)
  {
    hide IsHuffmanForm, Encoded, HuffmanBits, BitsOf, LosesBit;
    EncodedHasCodesIff(t, s);
    if NoBitLost(t, s) {
      NoLossIsForm(t, s);
    } else if IsHuffmanForm(t, s, Encoded(t, s)) {
      FormHasCodes(t, s, Encoded(t, s));
    }
  }

  lemma {:induction false} FirstLoss(t: CodeTable, s: seq<byte>, n: nat) returns (i: nat)
    requires n <= |s| && exists j :: 0 <= j < n && LosesBit(t, s, j)
    ensures i < n && LosesBit(t, s, i) && forall j :: 0 <= j < i ==> !LosesBit(t, s, j)
  {
    hide LosesBit;
    if exists j :: 0 <= j < n - 1 && LosesBit(t, s, j) {
      i := FirstLoss(t, s, n - 1);
    } else {
      i := n - 1;
    }
  }

  /** Text never loses a bit: fewer than eight bits are pending, and its codes are at most 24 bits long. */
  lemma TextLosesNoBit(t: CodeTable, s: seq<byte>)
    requires TextString(s)
    ensures NoBitLost(t, s)
  {
    hide AccOf, Shl, Pow2;
    if !NoBitLost(t, s) {
      var k :| 0 <= k < |s| && LosesBit(t, s, k);
      var i := FirstLoss(t, s, |s|);
      AccIsExact(t, s, i);
      assert CanonicalRow(s[i], t[s[i]]);
      OverflowMeansLong(AccOf(t, s[..i]).pending, AccOf(t, s[..i]).used, t[s[i]].bits);
    }
  }

  lemma NothingYet(t: CodeTable)
    ensures HuffmanBits(t, []) == [] && AccOf(t, []) == Acc([], 0, 0)
  {
  }

  /** Writes the complete octets of the accumulator at the output cursor and keeps the remaining bits. */
  method WriteOctets(output: array<byte>, outputLen: nat, currentByte: nat, bitsUsed: nat)
    returns (outputLen': nat, currentByte': nat, bitsUsed': nat)
    requires 8 * outputLen + bitsUsed <= 8 * output.Length + 7
    modifies output
    ensures outputLen <= outputLen' <= output.Length
    ensures Acc(output[..outputLen'], currentByte', bitsUsed')
         == Drained(Acc(old(output[..outputLen]), currentByte, bitsUsed))
    ensures forall j :: outputLen' <= j < output.Length ==> output[j] == old(output[j])
  {
    hide Shr, Low;
    outputLen', currentByte', bitsUsed' := outputLen, currentByte, bitsUsed;
    while bitsUsed' >= 8
      invariant outputLen <= outputLen' <= output.Length
      invariant 8 * outputLen' + bitsUsed' == 8 * outputLen + bitsUsed
      invariant Drained(Acc(output[..outputLen'], currentByte', bitsUsed'))
             == Drained(Acc(old(output[..outputLen]), currentByte, bitsUsed))
      invariant forall j :: outputLen' <= j < output.Length ==> output[j] == old(output[j])
    {
      ghost var written := output[..outputLen'];
      output[outputLen'] := Shr(currentByte', bitsUsed' - 8) % 256;
      assert output[..outputLen' + 1] == written + [output[outputLen']];
      outputLen', bitsUsed' := outputLen' + 1, bitsUsed' - 8;
      currentByte' := Low(currentByte', bitsUsed');
    }
  }

  /**
   What is written is, bit for bit, what the accumulator lets through: the Huffman form exactly when no step pushes a
   one-bit out of it.
   */
  method HuffmanEncode(t: CodeTable, input: seq<byte>, output: array<byte>) returns (outputLen: nat)
    requires output.Length >= HuffmanLength(t, input)
    modifies output
    ensures outputLen == HuffmanLength(t, input)
    ensures output[..outputLen] == Encoded(t, input)
    ensures IsHuffmanForm(t, input, output[..outputLen]) <==> NoBitLost(t, input)
    ensures forall j :: outputLen <= j < output.Length ==> output[j] == old(output[j])
  {
    hide CanonicalRow, HuffmanBits, Shl, Pow2, IsHuffmanForm, NoBitLost, Drained, ToBits, AccOf;
    outputLen := 0;
    var currentByte: nat, bitsUsed: nat := 0, 0;
    assert input[..0] == [];
    NothingYet(t);
    for i := 0 to |input|
      invariant bitsUsed < 8 && outputLen <= output.Length
      invariant Acc(output[..outputLen], currentByte, bitsUsed) == AccOf(t, input[..i])
      invariant 8 * outputLen + bitsUsed == |HuffmanBits(t, input[..i])| <= |HuffmanBits(t, input)|
      invariant forall j :: outputLen <= j < output.Length ==> output[j] == old(output[j])
    {
      var c := t[input[i]];
      CodeShape(t, input[i]);
      AccOfStep(t, input, i);
      AddedBelowOctet(AccOf(t, input[..i]), c);
      assert input[..i + 1] == input[..i] + [input[i]];
      HuffmanBitsAppend(t, input[..i], input[i]);
      HuffmanBitsPrefix(t, input, i + 1);

      // free space for the new code, then add it
      currentByte := Shl(currentByte, c.bits) % UINT32 + c.code;
      bitsUsed := bitsUsed + c.bits;
      outputLen, currentByte, bitsUsed := WriteOctets(output, outputLen, currentByte, bitsUsed);
    }
    assert input[..|input|] == input;

    // pad with the leading ones of the end-of-string code
    if bitsUsed > 0 {
      ghost var written := output[..outputLen];
      currentByte := Shl(currentByte, 8 - bitsUsed) + (Pow2(8 - bitsUsed) - 1);
      output[outputLen] := currentByte % 256;
      assert output[..outputLen + 1] == written + [output[outputLen]];
      outputLen := outputLen + 1;
    }
    EncodedIsFormIff(t, input);
  }

  // ---------------------------------------------------------------- the code trie

  /** The first `n` bits of a code. */
  function Prefix(c: HuffCode, n: nat): (v: nat)
    requires n <= c.bits
  {
    Shr(c.code, c.bits - n)
  }

  ghost predicate IsPrefix(t: CodeTable, i: nat, n: nat, v: nat)
    requires i < |t|
  {
    n <= t[i].bits && Prefix(t[i], n) == v
  }

  /** Some code among the first `k` starts with the n bits of v. */
  ghost predicate HasPath(t: CodeTable, k: nat, n: nat, v: nat)
    requires k <= |t|
  {
    exists i :: 0 <= i < k && IsPrefix(t, i, n, v)
  }

  /** The last of the first `k` symbols whose code is exactly the n bits of v, or -1. */
  function SymbolAt(t: CodeTable, k: nat, n: nat, v: nat): (symbol: int)
    requires k <= |t|
    ensures -1 <= symbol < k
    ensures symbol >= 0 ==> t[symbol] == HuffCode(v, n)
    ensures symbol < 0 ==> forall i :: 0 <= i < k ==> t[i] != HuffCode(v, n)
  {
    if k == 0 then -1
    else if t[k - 1] == HuffCode(v, n) then k - 1
    else SymbolAt(t, k - 1, n, v)
  }

  lemma PrefixStep(c: HuffCode, n: nat)
    requires n < c.bits
    ensures Prefix(c, n + 1) == 2 * Prefix(c, n) + Prefix(c, n + 1) % 2
  {
    ShrStep(c.code, c.bits - n - 1);
  }

  lemma PrefixWhole(c: HuffCode)
    requires c.code < Pow2(c.bits)
    ensures Prefix(c, c.bits) == c.code && Prefix(c, 0) == 0
  {
    ShrBelow(c.code, 0, c.bits);
  }

  /** Every prefix of a code lies in the canonical region. */
  lemma {:induction false} PrefixInRegion(c: HuffCode, n: nat)
    requires c.bits <= 30 && Lo(c.bits) <= c.code < Pow2(c.bits)
    requires n <= c.bits
    ensures Lo(n) <= Prefix(c, n) < Pow2(n)
    ensures n < c.bits ==> 2 * Prefix(c, n) + 2 > Lo(n + 1)
    decreases c.bits - n
  {
    if n == c.bits {
      PrefixWhole(c);
    } else {
      PrefixInRegion(c, n + 1);
      PrefixStep(c, n);
    }
  }

  // ---------------------------------------------------------------- decoding, on the table

  /** Reads bits from the node reached by the n bits of v, emitting a symbol wherever a code ends. */
  ghost function DecodeBits(t: CodeTable, bits: seq<bit>, n: nat, v: nat): (text: seq<byte>)
    decreases |bits|
  {
    if bits == [] then []
    else
      var v' := 2 * v + bits[0];
      if !HasPath(t, |t|, n + 1, v') then []
      else
        var symbol := SymbolAt(t, |t|, n + 1, v');
        if symbol == EOS then []
        else if symbol >= 0 then [symbol] + DecodeBits(t, bits[1..], 0, 0)
        else DecodeBits(t, bits[1..], n + 1, v')
  }

  /** An octet whose code meets no other symbol on its path, and its own at the end. */
  ghost predicate Decodable(t: CodeTable, c: byte) {
    forall n :: 0 < n <= t[c].bits ==> OwnStep(t, c, n)
  }

  predicate OwnStep(t: CodeTable, c: byte, n: nat)
    requires n <= t[c].bits
  {
    SymbolAt(t, |t|, n, Prefix(t[c], n)) == if n == t[c].bits then c as int else -1
  }

  /** Every octet of a text is one. */
  lemma TextPathIsExact(t: CodeTable, c: byte)
    requires IsText(c)
    ensures Decodable(t, c)
  {
    hide SymbolOfCode, Lo, Shr, Pow2;
    assert CanonicalRow(c, t[c]);
    forall n | 0 < n <= t[c].bits
      ensures OwnStep(t, c, n)
    {
      PrefixInRegion(t[c], n);
      PrefixWhole(t[c]);
      var symbol := SymbolAt(t, |t|, n, Prefix(t[c], n));
      if symbol >= 0 {
        assert CanonicalRow(symbol, t[symbol]);
      }
    }
  }

  /** One bit further along a code. */
  lemma CodeStep(t: CodeTable, c: byte, n: nat, rest: seq<bit>)
    requires n < t[c].bits
    ensures var bits := CodeBits(t, c)[n..] + rest;
            && bits != [] && 2 * Prefix(t[c], n) + bits[0] == Prefix(t[c], n + 1)
            && HasPath(t, |t|, n + 1, Prefix(t[c], n + 1))
            && bits[1..] == CodeBits(t, c)[n + 1..] + rest
  {
    hide CanonicalRow, Shr, ToBits;
    ToBitsAt(t[c].code, t[c].bits, n);
    PrefixStep(t[c], n);
    assert IsPrefix(t, c, n + 1, Prefix(t[c], n + 1));
  }

  /** From any point inside a decodable code, the decoder completes the code and emits its symbol. */
  lemma {:induction false} DecodeOwnCode(t: CodeTable, c: byte, n: nat, rest: seq<bit>)
    requires Decodable(t, c) && n < t[c].bits
    ensures DecodeBits(t, CodeBits(t, c)[n..] + rest, n, Prefix(t[c], n)) == [c] + DecodeBits(t, rest, 0, 0)
    decreases t[c].bits - n
  {
    hide CanonicalRow, Prefix, CodeBits, SymbolAt, HasPath;
    CodeStep(t, c, n, rest);
    assert OwnStep(t, c, n + 1);
    if n + 1 < t[c].bits {
      DecodeOwnCode(t, c, n + 1, rest);
    } else {
      assert CodeBits(t, c)[n + 1..] + rest == rest;
    }
  }

  /** A code that is not decodable makes the decoder stop, or emit another symbol first. */
  lemma {:induction false} DecodeOtherCode(t: CodeTable, c: byte, n: nat, rest: seq<bit>)
    requires n < t[c].bits && exists m :: n < m <= t[c].bits && !OwnStep(t, c, m)
    ensures var text := DecodeBits(t, CodeBits(t, c)[n..] + rest, n, Prefix(t[c], n)); text == [] || text[0] != c
    decreases t[c].bits - n
  {
    hide CanonicalRow, Prefix, CodeBits, HasPath;
    CodeStep(t, c, n, rest);
    if OwnStep(t, c, n + 1) {
      var m :| n < m <= t[c].bits && !OwnStep(t, c, m);
      DecodeOtherCode(t, c, n + 1, rest);
    } else {
      CodeEnds(t, c);
      assert SymbolAt(t, |t|, n + 1, Prefix(t[c], n + 1)) != c;
    }
  }

  lemma CodeEnds(t: CodeTable, c: byte)
    ensures Prefix(t[c], t[c].bits) == t[c].code
  {
    CodeShape(t, c);
    PrefixWhole(t[c]);
  }

  lemma OnesAreNoCode(t: CodeTable, n: nat)
    requires n <= 7
    ensures SymbolAt(t, |t|, n, Pow2(n) - 1) < 0
  {
    hide SymbolOfCode;
    var symbol := SymbolAt(t, |t|, n, Pow2(n) - 1);
    if symbol >= 0 {
      assert CanonicalRow(symbol, t[symbol]);
      Pow2Values();
    }
  }

  /** Up to seven padding ones never complete a code. */
  lemma {:induction false} PaddingYieldsNothing(t: CodeTable, n: nat, pad: nat)
    requires n + pad <= 7
    ensures DecodeBits(t, Ones(pad), n, Pow2(n) - 1) == []
    decreases pad
  {
    hide HasPath, CanonicalRow;
    if pad > 0 {
      OnesAreNoCode(t, n + 1);
      assert Ones(pad)[1..] == Ones(pad - 1);
      PaddingYieldsNothing(t, n + 1, pad - 1);
    }
  }

  /** The coded bits of a string decode to it exactly when each of its octets is decodable. */
  lemma {:induction false} DecodeIff(t: CodeTable, s: seq<byte>, pad: nat)
    requires pad <= 7
    ensures DecodeBits(t, HuffmanBits(t, s) + Ones(pad), 0, 0) == s <==> forall c :: c in s ==> Decodable(t, c)
    ensures s <= DecodeBits(t, HuffmanBits(t, s) + Ones(pad), 0, 0) ==> forall c :: c in s ==> Decodable(t, c)
  {
    hide DecodeBits, CanonicalRow, Decodable, Ones;
    if s == [] {
      PaddingYieldsNothing(t, 0, pad);
      assert HuffmanBits(t, s) + Ones(pad) == Ones(pad);
    } else {
      var c, rest := s[0], HuffmanBits(t, s[1..]) + Ones(pad);
      var all := HuffmanBits(t, s) + Ones(pad);
      assert all == CodeBits(t, c)[0..] + rest;
      CodeShape(t, c);
      PrefixWhole(t[c]);
      assert forall d :: d in s <==> d == c || d in s[1..];
      DecodeIff(t, s[1..], pad);
      if Decodable(t, c) {
        DecodeOwnCode(t, c, 0, rest);
        var more := DecodeBits(t, rest, 0, 0);
        assert ([c] + more)[1..] == more && s == [c] + s[1..];
      } else {
        SomeOtherStep(t, c);
        DecodeOtherCode(t, c, 0, rest);
      }
    }
  }

  lemma SomeOtherStep(t: CodeTable, c: byte)
    requires !Decodable(t, c)
    ensures exists m :: 0 < m <= t[c].bits && !OwnStep(t, c, m)
  {
  }

  ghost function HuffmanDecoded(t: CodeTable, coded: seq<byte>): (text: seq<byte>) {
    DecodeBits(t, BitsOf(coded), 0, 0)
  }

  /** Decoding undoes encoding exactly on the strings of decodable octets. */
  lemma HuffmanRoundTripIff(t: CodeTable, s: seq<byte>, coded: seq<byte>)
    requires IsHuffmanForm(t, s, coded)
    ensures HuffmanDecoded(t, coded) == s <==> forall c :: c in s ==> Decodable(t, c)
  {
    hide Decodable;
    DecodeIff(t, s, 8 * |coded| - |HuffmanBits(t, s)|);
  }

  /** Octets that decode to a string start with its codes. */
  lemma {:induction false} DecodedHasCodes(t: CodeTable, bits: seq<bit>, n: nat, v: nat, s: seq<byte>)
    requires s != [] && s <= DecodeBits(t, bits, n, v) && v < Pow2(n)
    ensures HuffmanBits(t, s) <= ToBits(v, n) + bits
    decreases |bits|
  {
    hide CanonicalRow, HasPath;
    var b, rest := bits[0], bits[1..];
    var v' := 2 * v + b;
    assert v' / 2 == v && v' % 2 == b && Pow2(n + 1) == 2 * Pow2(n);
    assert ToBits(v', n + 1) == ToBits(v, n) + [b];
    assert ToBits(v, n) + bits == ToBits(v', n + 1) + rest;
    var symbol := SymbolAt(t, |t|, n + 1, v');
    if symbol < 0 {
      DecodedHasCodes(t, rest, n + 1, v', s);
    } else {
      assert s[0] == symbol && CodeBits(t, s[0]) == ToBits(v', n + 1);
      if |s| > 1 {
        var more := DecodeBits(t, rest, 0, 0);
        assert ([symbol] + more)[1..] == more && s[1..] <= more;
        DecodedHasCodes(t, rest, 0, 0, s[1..]);
        assert ToBits(0, 0) + rest == rest;
      }
    }
  }

  /**
   What the encoder writes for a string decodes to it, or to anything that starts with it, if and only if no step pushes
   a one-bit out and every octet is decodable.
   */
  lemma EncodedRoundTripIff(t: CodeTable, s: seq<byte>)
    ensures HuffmanDecoded(t, Encoded(t, s)) == s <==> NoBitLost(t, s) && forall c :: c in s ==> Decodable(t, c)
    ensures s <= HuffmanDecoded(t, Encoded(t, s)) ==> NoBitLost(t, s) && forall c :: c in s ==> Decodable(t, c)
  {
    hide Decodable, HuffmanBits, BitsOf, Encoded, DecodeBits, LosesBit;
    var coded := Encoded(t, s);
    EncodedIsFormIff(t, s);
    EncodedHasCodesIff(t, s);
    if s <= HuffmanDecoded(t, coded) && s != [] {
      DecodedHasCodes(t, BitsOf(coded), 0, 0, s);
      assert ToBits(0, 0) + BitsOf(coded) == BitsOf(coded);
    }
    if NoBitLost(t, s) {
      HuffmanRoundTripIff(t, s, coded);
      DecodeIff(t, s, 8 * |coded| - |HuffmanBits(t, s)|);
    }
  }

  /** Decoding undoes encoding on every header text. */
  lemma HuffmanRoundTrip(t: CodeTable, s: seq<byte>, coded: seq<byte>)
    requires TextString(s) && IsHuffmanForm(t, s, coded)
    ensures HuffmanDecoded(t, coded) == s
  {
    hide Decodable;
    forall c | c in s
      ensures Decodable(t, c)
    {
      TextPathIsExact(t, c);
    }
    HuffmanRoundTripIff(t, s, coded);
  }
}
