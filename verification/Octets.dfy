/** Octets, bits and shifts: the vocabulary shared by the wire formats. */
module Octets {

  type byte = x: int | 0 <= x < 256
  type bit = b: int | 0 <= b < 2

  function Pow2(n: nat): (p: nat)
    ensures p > 0
  {
    if n == 0 then 1 else 2 * Pow2(n - 1)
  }

  /** `v << n`, before any wrap-around. */
  function Shl(v: nat, n: nat): (r: nat) {
    if n == 0 then v else 2 * Shl(v, n - 1)
  }

  /** `v >> n`. */
  function Shr(v: nat, n: nat): (r: nat) {
    if n == 0 then v else Shr(v / 2, n - 1)
  }

  /** `v & ((1 << n) - 1)`. */
  function Low(v: nat, n: nat): (r: nat)
    ensures r < Pow2(n)
  {
    if n == 0 then 0 else 2 * Low(v / 2, n - 1) + v % 2
  }

  lemma {:induction false} Pow2Monotone(m: nat, n: nat)
    requires m <= n
    ensures Pow2(m) <= Pow2(n)
  {
    if m < n {
      Pow2Monotone(m, n - 1);
    }
  }

  lemma Pow2Values()
    ensures Pow2(0) == 1 && Pow2(1) == 2 && Pow2(2) == 4 && Pow2(3) == 8
    ensures Pow2(4) == 16 && Pow2(5) == 32 && Pow2(6) == 64 && Pow2(7) == 128
    ensures Pow2(8) == 256 && Pow2(9) == 512 && Pow2(10) == 0x400 && Pow2(11) == 0x800
    ensures Pow2(12) == 0x1000 && Pow2(13) == 0x2000 && Pow2(14) == 0x4000 && Pow2(15) == 0x8000
    ensures Pow2(16) == 0x1_0000 && Pow2(17) == 0x2_0000 && Pow2(18) == 0x4_0000 && Pow2(19) == 0x8_0000
    ensures Pow2(20) == 0x10_0000 && Pow2(21) == 0x20_0000 && Pow2(22) == 0x40_0000
    ensures Pow2(23) == 0x80_0000 && Pow2(24) == 0x100_0000 && Pow2(25) == 0x200_0000
    ensures Pow2(26) == 0x400_0000 && Pow2(27) == 0x800_0000 && Pow2(28) == 0x1000_0000
    ensures Pow2(29) == 0x2000_0000 && Pow2(30) == 0x4000_0000 && Pow2(31) == 0x8000_0000
    ensures Pow2(32) == 0x1_0000_0000 && Pow2(35) == 0x8_0000_0000
  {
  }

  /** Shifting one place less keeps one bit more. */
  lemma {:induction false} ShrStep(v: nat, n: nat)
    ensures Shr(v, n) == 2 * Shr(v, n + 1) + Shr(v, n) % 2
  {
    if n > 0 {
      ShrStep(v / 2, n - 1);
    }
  }

  lemma {:induction false} ShrBelow(v: nat, m: nat, n: nat)
    requires v < Pow2(m + n)
    ensures Shr(v, n) < Pow2(m)
  {
    if n > 0 {
      ShrBelow(v / 2, m, n - 1);
    }
  }

  lemma {:induction false} ShlBelow(v: nat, m: nat, w: nat, n: nat)
    requires v < Pow2(m) && w < Pow2(n)
    ensures Shl(v, n) + w < Pow2(m + n)
  {
    if n > 0 {
      ShlBelow(v, m, w / 2, n - 1);
    }
  }

  /** The low `n` bits of `v`, most significant bit first. */
  function ToBits(v: nat, n: nat): (bits: seq<bit>)
    ensures |bits| == n
  {
    if n == 0 then [] else ToBits(v / 2, n - 1) + [v % 2]
  }

  /** The bits of a run of octets, in transmission order. */
  function BitsOf(s: seq<byte>): (bits: seq<bit>)
    ensures |bits| == 8 * |s|
  {
    if s == [] then [] else BitsOf(s[..|s| - 1]) + ToBits(s[|s| - 1], 8)
  }

  function Ones(n: nat): (bits: seq<bit>)
    ensures |bits| == n
    ensures forall i :: 0 <= i < n ==> bits[i] == 1
  {
    seq(n, i => 1)
  }

  /** Writing `w` in `n` bits behind `v` in `m` bits is writing one number in `m + n` bits. */
  lemma {:induction false} ToBitsAppend(v: nat, m: nat, w: nat, n: nat)
    requires w < Pow2(n)
    ensures ToBits(Shl(v, n) + w, m + n) == ToBits(v, m) + ToBits(w, n)
  {
    if n > 0 {
      ToBitsAppend(v, m, w / 2, n - 1);
      assert (Shl(v, n) + w) / 2 == Shl(v, n - 1) + w / 2;
      assert ToBits(v, m) + ToBits(w, n) == (ToBits(v, m) + ToBits(w / 2, n - 1)) + [w % 2];
    }
  }

  lemma {:induction false} ToBitsSplit(v: nat, m: nat, n: nat)
    ensures ToBits(v, m + n) == ToBits(Shr(v, n), m) + ToBits(Low(v, n), n)
  {
    if n > 0 {
      ToBitsSplit(v / 2, m, n - 1);
      assert Low(v, n) / 2 == Low(v / 2, n - 1);
    }
  }

  lemma {:induction false} ToBitsAt(v: nat, n: nat, i: nat)
    requires i < n
    ensures ToBits(v, n)[i] == Shr(v, n - i - 1) % 2
  {
    if i < n - 1 {
      ToBitsAt(v / 2, n - 1, i);
    }
  }

  lemma {:induction false} ToBitsOnes(n: nat)
    ensures ToBits(Pow2(n) - 1, n) == Ones(n)
  {
    if n != 0 {
      assert (Pow2(n) - 1) / 2 == Pow2(n - 1) - 1;
      ToBitsOnes(n - 1);
      assert Ones(n) == Ones(n - 1) + [1];
    }
  }

  lemma {:induction false} BitsOfAt(s: seq<byte>, i: nat)
    requires i < |s|
    ensures BitsOf(s)[8 * i..8 * i + 8] == ToBits(s[i], 8)
  {
    if i < |s| - 1 {
      hide ToBits;
      var p, q := BitsOf(s[..|s| - 1]), ToBits(s[|s| - 1], 8);
      BitsOfAt(s[..|s| - 1], i);
      assert BitsOf(s) == p + q;
      assert (p + q)[8 * i..8 * i + 8] == p[8 * i..8 * i + 8];
    }
  }
}
