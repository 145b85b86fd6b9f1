/** 32-bit masks read as numbers, bit by bit. */
module Numbers {
  import opened Arith
  import opened Masks

  predicate Odd(m: bv32) { m & 1 == 1 }

  /** The number that the low n bits of m spell. */
  function Number(m: bv32, n: nat): nat {
    if n == 0 then 0 else 2 * Number(Half(m), n - 1) + if Odd(m) then 1 else 0
  }

  function Longer(mask: bv32): bv32 { (mask << 1) | 1 }

  /** ~((~0) << n) */
  function LowOnes(n: nat): bv32 {
    if n == 0 then 0 else Longer(LowOnes(n - 1))
  }

  predicate Covers(mask: bv32, m: bv32) { m & mask == m }

  /** Nothing lies above the low n bits. */
  predicate Fits(m: bv32, n: nat) {
    if n == 0 then m == 0 else Fits(Half(m), n - 1)
  }

  lemma CoversHalf(mask: bv32, m: bv32)
    requires Covers(Longer(mask), m)
    ensures Covers(mask, Half(m))
  {}

  lemma CoversNothing(m: bv32)
    requires Covers(0, m)
    ensures m == 0 && Half(m) == 0 && !Odd(m)
  {}

  lemma NumberStep(m: bv32, n: nat)
    requires n > 0
    ensures Number(m, n) == 2 * Number(Half(m), n - 1) + if Odd(m) then 1 else 0
  {}

  lemma {:induction false} NumberOfZero(n: nat)
    ensures Number(0, n) == 0
  {
    if n > 0 {
      CoversNothing(0);
      NumberOfZero(n - 1);
    }
  }

  /** A value of k bits is below 2^k, however many bits of it are read. */
  lemma {:induction false} NumberBound(m: bv32, k: nat, n: nat)
    requires Covers(LowOnes(k), m)
    ensures Number(m, n) < Pow2(k)
    decreases n
  {
    hide Covers, Half, Longer, Odd;
    if n > 0 {
      hide Number;
      if k == 0 {
        CoversNothing(m);
        NumberOfZero(n);
      } else {
        NumberStep(m, n);
        CoversHalf(LowOnes(k - 1), m);
        NumberBound(Half(m), k - 1, n - 1);
      }
    }
  }

  lemma {:induction false} CoveredFits(m: bv32, n: nat)
    requires Covers(LowOnes(n), m)
    ensures Fits(m, n)
    decreases n
  {
    hide Covers, Half, Longer;
    if n > 0 {
      CoversHalf(LowOnes(n - 1), m);
      CoveredFits(Half(m), n - 1);
    } else {
      CoversNothing(m);
    }
  }

  /** 32 bits hold every mask. */
  lemma AllFit(m: bv32)
    ensures Fits(m, 32) && Number(m, 32) < 0x1_0000_0000
  {
    hide Covers, Fits, Number;
    AllOnes();
    AllCovered(m);
    CoveredFits(m, 32);
    NumberBound(m, 32, 32);
    PowerOf32();
  }

  lemma AllCovered(m: bv32)
    ensures Covers(0xFFFF_FFFF, m)
  {}

  lemma AllOnes()
    ensures LowOnes(32) == 0xFFFF_FFFF
  {
    assert LowOnes(4) == 0xF;
    assert LowOnes(8) == 0xFF;
    assert LowOnes(12) == 0xFFF;
    assert LowOnes(16) == 0xFFFF;
    assert LowOnes(20) == 0xF_FFFF;
    assert LowOnes(24) == 0xFF_FFFF;
    assert LowOnes(28) == 0xFFF_FFFF;
  }

  lemma PowerOf32()
    ensures Pow2(32) == 0x1_0000_0000
  {
    assert Pow2(8) == 0x100;
    assert Pow2(16) == 0x1_0000;
    assert Pow2(24) == 0x100_0000;
  }
}
