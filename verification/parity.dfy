/**
  Bytes, bits and the parity computation of SWUART.cpp.

  A byte is a `bv8`; only its eight low bits exist, which is all the
  source ever reads back from a `char`. A line level or parity value is a
  `Bit` (0 or 1).
 */
module Parity {

  type byte = bv8

  type Bit = x: int | 0 <= x <= 1

  /** GETFLAG(b, k): bit k of b. */
  function GetBit(b: byte, k: nat): Bit
    requires k < 8
  {
    if (b >> (k as bv8)) & 1 == 1 then 1 else 0
  }

  /** SETFLAG (v == 1) or RESETFLAG (v == 0) on bit k. */
  function SetBit(b: byte, k: nat, v: Bit): byte
    requires k < 8
  {
    if v == 1 then b | (1 << (k as bv8)) else b & !(1 << (k as bv8))
  }

  /** The bit-vector facts behind SetBitSpec, with every shift amount a byte. */
  lemma SetOneAt(b: byte, kk: byte, jj: byte)
    requires kk < 8 && jj < 8
    ensures ((b | (1 << kk)) >> jj) & 1 == (if jj == kk then 1 else (b >> jj) & 1)
  {
  }

  lemma SetZeroAt(b: byte, kk: byte, jj: byte)
    requires kk < 8 && jj < 8
    ensures ((b & !(1 << kk)) >> jj) & 1 == (if jj == kk then 0 else (b >> jj) & 1)
  {
  }

  /** Setting bit k to v makes bit k read back as v and leaves every other bit alone. */
  lemma SetBitSpec(b: byte, k: nat, v: Bit, j: nat)
    requires k < 8 && j < 8
    ensures GetBit(SetBit(b, k, v), j) == if j == k then v else GetBit(b, j)
  {
    SameIndex(j, k);
    var kk, jj := k as bv8, j as bv8;
    if v == 1 {
      SetOneAt(b, kk, jj);
    } else {
      SetZeroAt(b, kk, jj);
    }
  }

  /** SetBitSpec for all eight bits at once. */
  lemma SetBitAll(b: byte, k: nat, v: Bit)
    requires k < 8
    ensures forall j :: 0 <= j < 8 ==> GetBit(SetBit(b, k, v), j) == if j == k then v else GetBit(b, j)
  {
    forall j | 0 <= j < 8
      ensures GetBit(SetBit(b, k, v), j) == if j == k then v else GetBit(b, j)
    {
      SetBitSpec(b, k, v, j);
    }
  }

  /** Bit indices below 8 are equal exactly when their byte forms are. */
  lemma SameIndex(j: nat, k: nat)
    requires j < 8 && k < 8
    ensures (j == k) == (j as bv8 == k as bv8)
  {
  }

  /** Reference definition: the number of set bits among bits 0..n-1. */
  function PopCount(b: byte, n: nat): nat
    requires n <= 8
  {
    if n == 0 then 0 else PopCount(b, n - 1) + GetBit(b, n - 1)
  }

  /**
    The accumulator of computeParity after n rounds of `retVal += msg >> b`;
    the additions wrap modulo 256 like the `char` accumulator.
   */
  function ShiftSum(b: byte, n: nat): byte
    requires n <= 8
  {
    if n == 0 then 0 else ShiftSum(b, n - 1) + (b >> ((n - 1) as bv8))
  }

  /** computeParity: the low bit of the summed shifts, 1 exactly when b has an odd number of set bits. */
  function ComputeParity(b: byte): (p: Bit)
    ensures p == 1 <==> PopCount(b, 8) % 2 == 1
  {
    ShiftSumLowBit(b, 8);
    if ShiftSum(b, 8) & 1 == 1 then 1 else 0
  }

  lemma LowBitOfSum(x: byte, y: byte)
    ensures (x + y) & 1 == (x & 1) ^ (y & 1)
  {
  }

  /** The low bit of the summed shifts is the parity of the bits summed so far. */
  lemma {:induction false} ShiftSumLowBit(b: byte, n: nat)
    requires n <= 8
    ensures ShiftSum(b, n) & 1 == 1 <==> PopCount(b, n) % 2 == 1
  {
    if n > 0 {
      ShiftSumLowBit(b, n - 1);
      LowBitOfSum(ShiftSum(b, n - 1), b >> ((n - 1) as bv8));
    }
  }

  /** The bit-vector fact behind FlipBitAt, with every shift amount a byte. */
  lemma FlipBv(b: byte, kk: byte, jj: byte)
    requires kk < 8 && jj < 8
    ensures ((b ^ (1 << kk)) >> jj) & 1 == if jj == kk then 1 - ((b >> jj) & 1) else (b >> jj) & 1
  {
  }

  /** XOR with a one-bit mask flips exactly that bit. */
  lemma FlipBitAt(b: byte, k: nat, j: nat)
    requires k < 8 && j < 8
    ensures GetBit(b ^ (1 << (k as bv8)), j) == if j == k then 1 - GetBit(b, j) else GetBit(b, j)
  {
    FlipBv(b, k as bv8, j as bv8);
    assert (j == k) == (j as bv8 == k as bv8);
  }

  /** Flipping bit k moves the count of set bits by one once bit k is counted. */
  lemma {:induction false} PopCountFlip(b: byte, k: nat, n: nat)
    requires k < 8 && n <= 8
    ensures PopCount(b ^ (1 << (k as bv8)), n) == PopCount(b, n) + (if k < n then 1 - 2 * GetBit(b, k) else 0)
  {
    if n > 0 {
      PopCountFlip(b, k, n - 1);
      FlipBitAt(b, k, n - 1);
    }
  }

  /** A single corrupted data bit always changes the parity: the error a receiver can detect. */
  lemma FlipChangesParity(b: byte, k: nat)
    requires k < 8
    ensures ComputeParity(b ^ (1 << (k as bv8))) != ComputeParity(b)
  {
    PopCountFlip(b, k, 8);
  }

  /** Two corrupted data bits never change the parity: the limit of a single parity bit. */
  lemma DoubleFlipKeepsParity(b: byte, k1: nat, k2: nat)
    requires k1 < 8 && k2 < 8 && k1 != k2
    ensures ComputeParity(b ^ (1 << (k1 as bv8)) ^ (1 << (k2 as bv8))) == ComputeParity(b)
  {
    TwoFlipsCount(b, k1, k2);
    SameCountSameParity(b, b ^ (1 << (k1 as bv8)) ^ (1 << (k2 as bv8)));
  }

  /** Flipping two distinct bits changes the count of set bits by -2, 0 or 2. */
  lemma TwoFlipsCount(b: byte, k1: nat, k2: nat)
    requires k1 < 8 && k2 < 8 && k1 != k2
    ensures PopCount(b ^ (1 << (k1 as bv8)) ^ (1 << (k2 as bv8)), 8) % 2 == PopCount(b, 8) % 2
  {
    var c := b ^ (1 << (k1 as bv8));
    var d := c ^ (1 << (k2 as bv8));
    PopCountFlip(b, k1, 8);
    PopCountFlip(c, k2, 8);
    FlipBitAt(b, k1, k2);
    EvenStepParity(PopCount(b, 8), PopCount(c, 8), PopCount(d, 8), GetBit(b, k1), GetBit(c, k2));
  }

  lemma EvenStepParity(x: int, y: int, z: int, g1: int, g2: int)
    requires y == x + 1 - 2 * g1 && z == y + 1 - 2 * g2
    ensures z % 2 == x % 2
  {
    assert z == x + 2 * (1 - g1 - g2);
  }

  lemma SameCountSameParity(b: byte, c: byte)
    requires PopCount(b, 8) % 2 == PopCount(c, 8) % 2
    ensures ComputeParity(b) == ComputeParity(c)
  {
  }
}
