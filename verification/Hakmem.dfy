/** The server's Ones(), HAKMEM item 169, counts the set bits of a 32-bit mask. */
module Hakmem {
  import opened Masks
  import opened Numbers

  /** Bitwise and of naturals. */
  function BitAnd(a: nat, b: nat): nat
    decreases a
  {
    if a == 0 || b == 0 then 0 else 2 * BitAnd(a / 2, b / 2) + if a % 2 == 1 && b % 2 == 1 then 1 else 0
  }

  /** The number of set bits of a natural. */
  function Pop(n: nat): nat {
    if n == 0 then 0 else Pop(n / 2) + n % 2
  }

  /** The octal digits 3...3, k of them. */
  function Threes(k: nat): nat {
    if k == 0 then 0 else 8 * Threes(k - 1) + 3
  }

  /** The octal digits 30707...07, with k digits that are not 0. */
  function Sevens(k: nat): nat {
    if k <= 1 then 3 else 64 * Sevens(k - 1) + 7
  }

  const THREES: nat := 3681400539 // 033333333333
  const SEVENS: nat := 3340530119 // 030707070707

  lemma Constants()
    ensures Threes(11) == THREES && Sevens(6) == SEVENS
  {
    assert Threes(3) == 219;
    assert Threes(6) == 112347;
    assert Threes(9) == 57521883;
    assert Sevens(3) == 64 * (64 * 3 + 7) + 7;
  }

  // ----- octal digits -----

  function Halves(n: nat): nat {
    if n == 0 then 0 else 8 * Halves(n / 8) + n % 8 / 2
  }

  function Quarters(n: nat): nat {
    if n == 0 then 0 else 8 * Quarters(n / 8) + n % 8 / 4
  }

  /** The bit counts of the octal digits. */
  function Counts(n: nat): nat {
    if n == 0 then 0 else 8 * Counts(n / 8) + Pop(n % 8)
  }

  function Pow8(k: nat): nat {
    if k == 0 then 1 else 8 * Pow8(k - 1)
  }

  /** Appending one bit to each operand. */
  lemma AndBit(a: nat, x: nat, b: nat, z: nat)
    requires x < 2 && z < 2
    ensures BitAnd(2 * a + x, 2 * b + z) == 2 * BitAnd(a, b) + if x == 1 && z == 1 then 1 else 0
  {
    assert (2 * a + x) / 2 == a && (2 * b + z) / 2 == b;
  }

  /** Appending an octal digit of three bits to each operand. */
  lemma AndDigit(q: nat, e: nat, m: nat, d: nat)
    requires e < 8 && d < 8
    ensures BitAnd(8 * q + e, 8 * m + d) == 8 * BitAnd(q, m) + BitAnd(e, d)
  {
    hide BitAnd;
    AndZero(0);
    AndBit(q, e / 4, m, d / 4);
    AndBit(2 * q + e / 4, e / 2 % 2, 2 * m + d / 4, d / 2 % 2);
    AndBit(4 * q + e / 2, e % 2, 4 * m + d / 2, d % 2);
    AndBit(0, e / 4, 0, d / 4);
    AndBit(e / 4, e / 2 % 2, d / 4, d / 2 % 2);
    AndBit(e / 2, e % 2, d / 2, d % 2);
    Bits3(e);
    Bits3(d);
  }

  lemma AndZero(b: nat)
    ensures BitAnd(0, b) == 0 && BitAnd(b, 0) == 0
  {}

  lemma Bits3(e: nat)
    requires e < 8
    ensures e / 2 == 2 * (e / 4) + e / 2 % 2 && e == 2 * (e / 2) + e % 2
    ensures e / 4 < 2
  {}

  /** Keeping two bits of a digit, all of it, or nothing. */
  lemma AndThree(d: nat)
    requires d < 8
    ensures BitAnd(d, 3) == d % 4 && BitAnd(d, 7) == d && BitAnd(d, 0) == 0
  {
    hide BitAnd;
    AndZero(0);
    AndZero(d);
    Bits3(d);
    AndBit(0, d / 4, 0, 0);
    AndBit(d / 4, d / 2 % 2, 0, 1);
    AndBit(d / 2, d % 2, 1, 1);
    AndBit(0, d / 4, 0, 1);
    AndBit(d / 4, d / 2 % 2, 1, 1);
    AndBit(d / 2, d % 2, 3, 1);
  }

  /** Shifting right by one bit: what one digit gets from itself and from the next one. */
  lemma ShiftDigit(q: nat, e: nat)
    requires e < 8
    ensures (8 * q + e) / 2 == 8 * (q / 2) + (4 * (q % 2) + e / 2)
    ensures (4 * (q % 2) + e / 2) < 8 && (4 * (q % 2) + e / 2) % 4 == e / 2
  {}

  /** Shifting right by one bit and keeping two bits of the lowest digit. */
  lemma KeepTwo(q: nat, e: nat, m: nat)
    requires e < 8
    ensures BitAnd((8 * q + e) / 2, 8 * m + 3) == 8 * BitAnd(q / 2, m) + e / 2
  {
    hide BitAnd;
    ShiftDigit(q, e);
    AndDigit(q / 2, 4 * (q % 2) + e / 2, m, 3);
    AndThree(4 * (q % 2) + e / 2);
  }

  lemma Split(n: nat)
    ensures n == 8 * (n / 8) + n % 8
    ensures Halves(n) == 8 * Halves(n / 8) + n % 8 / 2 && Quarters(n) == 8 * Quarters(n / 8) + n % 8 / 4
    ensures Counts(n) == 8 * Counts(n / 8) + Pop(n % 8)
  {
    assert Halves(0) == 0 && Quarters(0) == 0 && Counts(0) == 0 && Pop(0) == 0;
  }

  lemma ThreesDigit(k: nat)
    requires k > 0
    ensures Threes(k) == 8 * Threes(k - 1) + 3 && Pow8(k) == 8 * Pow8(k - 1)
  {}

  /** Shifting by one and keeping two bits of each digit halves every digit. */
  lemma {:induction false} HalfDigits(n: nat, k: nat)
    requires n < Pow8(k)
    ensures BitAnd(n / 2, Threes(k)) == Halves(n)
    decreases k
  {
    if k == 0 {
      AndZero(0);
    } else {
      hide BitAnd, Halves, Threes, Pow8;
      var q, e := n / 8, n % 8;
      Split(n);
      ThreesDigit(k);
      HalfDigits(q, k - 1);
      KeepTwo(q, e, Threes(k - 1));
    }
  }

  /** And once more quarters it. */
  lemma {:induction false} QuarterDigits(n: nat, k: nat)
    requires n < Pow8(k)
    ensures BitAnd(Halves(n) / 2, Threes(k)) == Quarters(n)
    decreases k
  {
    if k == 0 {
      AndZero(0);
    } else {
      hide BitAnd, Halves, Quarters, Threes, Pow8;
      var q, e := n / 8, n % 8;
      Split(n);
      ThreesDigit(k);
      QuarterDigits(q, k - 1);
      KeepTwo(Halves(q), e / 2, Threes(k - 1));
    }
  }

  /** A digit less its half and its quarter is the number of its bits. */
  lemma {:induction false} DigitCounts(n: nat)
    ensures n == Halves(n) + Quarters(n) + Counts(n)
  {
    if n > 0 {
      DigitCounts(n / 8);
      DigitPop(n % 8);
    }
  }

  lemma DigitPop(d: nat)
    requires d < 8
    ensures Pop(d) == d - d / 2 - d / 4 && Pop(d) <= 3
  {
    assert Pop(0) == 0 && Pop(1) == 1;
    assert Pop(2) == 1 && Pop(3) == 2;
  }

  /** The digit counts again, two digits at a time. */
  function PairCounts(n: nat): nat {
    if n == 0 then 0 else 64 * PairCounts(n / 64) + Pop(n % 64)
  }

  lemma PopSplit(n: nat)
    ensures Pop(n) == Pop(n / 8) + Pop(n % 8)
  {
    hide Pop;
    Nothing();
    Bits3(n % 8);
    var q, e := n / 8, n % 8;
    PopBit(4 * q + e / 2, e % 2);
    PopBit(2 * q + e / 4, e / 2 % 2);
    PopBit(q, e / 4);
    PopBit(e / 2, e % 2);
    PopBit(e / 4, e / 2 % 2);
    PopBit(0, e / 4);
  }

  lemma PopBit(a: nat, x: nat)
    requires x < 2
    ensures Pop(2 * a + x) == Pop(a) + x
  {
    assert (2 * a + x) / 2 == a;
  }

  function Pow64(k: nat): nat {
    if k == 0 then 1 else 64 * Pow64(k - 1)
  }

  /** No digit carries when counts of at most three are added to each other, shifted by a digit. */
  lemma NoCarry(x: nat, a: nat, b: nat, m: nat)
    requires x % 8 <= 3 && a <= 3 && b <= 3
    ensures var c := 64 * x + 8 * a + b;
            BitAnd(c + c / 8, 64 * m + 7) == 64 * BitAnd(x + x / 8, m) + a + b
  {
    hide BitAnd;
    var c, y, e, d := 64 * x + 8 * a + b, x + x / 8, x % 8 + a, a + b;
    assert c / 8 == 8 * x + a;
    assert c + c / 8 == 8 * (8 * y + e) + d;
    AndDigit(8 * y + e, d, 8 * m, 7);
    AndDigit(y, e, m, 0);
    AndThree(d);
    AndThree(e);
  }

  lemma TwoDigits(n: nat)
    ensures n / 8 / 8 == n / 64 && n % 64 / 8 == n / 8 % 8 && n % 64 % 8 == n % 8
  {}

  lemma SplitPair(n: nat)
    ensures Counts(n) == 64 * Counts(n / 64) + 8 * Pop(n / 8 % 8) + Pop(n % 8)
    ensures Counts(n) % 8 == Pop(n % 8)
    ensures PairCounts(n) == 64 * PairCounts(n / 64) + Pop(n / 8 % 8) + Pop(n % 8)
  {
    hide Pop, Counts, PairCounts, Halves, Quarters;
    TwoDigits(n);
    Split(n);
    Split(n / 8);
    DigitPop(n % 8);
    LowDigit(Counts(n / 8), Pop(n % 8));
    PopSplit(n % 64);
    PairStep(n);
  }

  lemma LowDigit(q: nat, d: nat)
    requires d < 8
    ensures (8 * q + d) % 8 == d
  {}

  lemma PairStep(n: nat)
    ensures PairCounts(n) == 64 * PairCounts(n / 64) + Pop(n % 64)
  {
    hide Pop;
    Nothing();
  }

  /** Adding the digit counts to themselves shifted by a digit, and keeping every other digit, sums pairs of digits. */
  lemma {:induction false} PairSums(n: nat, k: nat)
    requires k > 0 && n < 8 * Pow64(k - 1)
    ensures BitAnd(Counts(n) + Counts(n) / 8, Sevens(k)) == PairCounts(n)
    decreases k
  {
    hide BitAnd, Counts, PairCounts, Pop, Halves, Quarters;
    SplitPair(n);
    DigitPop(n % 8);
    if k == 1 {
      Nothing();
      AndThree(Pop(n));
    } else {
      var q := n / 64;
      PairSums(q, k - 1);
      DigitPop(n / 8 % 8);
      SplitPair(q);
      DigitPop(q % 8);
      NoCarry(Counts(q), Pop(n / 8 % 8), Pop(n % 8), Sevens(k - 1));
    }
  }

  lemma Nothing()
    ensures Counts(0) == 0 && PairCounts(0) == 0 && Pop(0) == 0
  {}

  /** 64 and 1 are the same modulo 63. */
  function Excess(n: nat): nat {
    if n == 0 then 0 else Pop(n / 64) + 64 * Excess(n / 64)
  }

  lemma {:induction false} ModSixtyThree(n: nat)
    ensures PairCounts(n) == Pop(n) + 63 * Excess(n)
  {
    if n > 0 {
      hide Pop;
      ModSixtyThree(n / 64);
      PopSplit(n);
      PopSplit(n / 8);
      PopSplit(n % 64);
      TwoDigits(n);
    } else {
      Nothing();
    }
  }

  lemma {:induction false} PopBound(n: nat, k: nat)
    requires n < Pow8(k)
    ensures Pop(n) <= 3 * k
  {
    if k > 0 {
      hide Pop;
      PopSplit(n);
      DigitPop(n % 8);
      PopBound(n / 8, k - 1);
    } else {
      Nothing();
    }
  }

  lemma Powers()
    ensures Pow8(11) == 8589934592 && 8 * Pow64(5) == 8589934592
  {
    assert Pow8(3) == 512;
    assert Pow8(6) == 262144;
    assert Pow8(9) == 134217728;
    assert Pow64(2) == 4096;
    assert Pow64(4) == 16777216;
  }

  /** What the server computes; unsigned long is wide enough for every step. */
  function HakmemOnes(mask: nat): int
    requires mask < 0x1_0000_0000
  {
    var half := BitAnd(mask / 2, THREES);
    var quarter := BitAnd(half / 2, THREES);
    var y := mask - half - quarter;
    if y < 0 then -1 else BitAnd(y + y / 8, SEVENS) % 63
  }

  /** It is the number of set bits. */
  lemma HakmemCounts(mask: nat)
    requires mask < 0x1_0000_0000
    ensures HakmemOnes(mask) == Pop(mask)
  {
    hide BitAnd, Halves, Quarters, Counts, PairCounts, Pop, Threes, Sevens, Pow8, Pow64, Excess;
    Constants();
    Powers();
    HalfDigits(mask, 11);
    QuarterDigits(mask, 11);
    DigitCounts(mask);
    PairSums(mask, 6);
    ModSixtyThree(mask);
    PopBound(mask, 11);
  }

  // ----- masks as bit vectors -----

  function Twice(m: bv32): bv32 { m << 1 }

  lemma HalfZero(m: bv32)
    ensures Half(0) == 0 && !Odd(0)
  {}

  lemma DropOdd(m: bv32)
    requires Odd(m)
    ensures DropLowest(m) == Twice(Half(m)) && Half(Twice(Half(m))) == Half(m) && !Odd(Twice(Half(m)))
    ensures m != 0
  {}

  lemma DropEven(m: bv32)
    requires !Odd(m) && m != 0
    ensures Half(DropLowest(m)) == DropLowest(Half(m)) && !Odd(DropLowest(m)) && Half(m) != 0
  {}

  lemma OnesStep(m: bv32)
    ensures m != 0 ==> Ones(m) == 1 + Ones(DropLowest(m))
    ensures m == 0 ==> Ones(m) == 0
  {}

  /** Counting from the lowest bit up is counting by clearing set bits. */
  lemma {:induction false} OnesHalf(m: bv32)
    ensures Ones(m) == Ones(Half(m)) + if Odd(m) then 1 else 0
    decreases Ones(m)
  {
    hide Ones, DropLowest, Half, Odd, Twice;
    OnesStep(m);
    if m == 0 {
      HalfZero(m);
    } else if Odd(m) {
      DropOdd(m);
      OnesHalf(DropLowest(m));
    } else {
      DropEven(m);
      OnesStep(Half(m));
      OnesHalf(DropLowest(m));
    }
  }

  lemma {:induction false} OnesOfNumber(m: bv32, n: nat)
    requires Fits(m, n)
    ensures Pop(Number(m, n)) == Ones(m)
    decreases n
  {
    hide Ones, Half, Odd, Pop;
    if n == 0 {
      OnesStep(m);
      Nothing();
    } else {
      hide Number;
      NumberStep(m, n);
      PopBit(Number(Half(m), n - 1), if Odd(m) then 1 else 0);
      OnesHalf(m);
      OnesOfNumber(Half(m), n - 1);
    }
  }

  /** A mask of n bits has at most n bits set. */
  lemma {:induction false} OnesFit(m: bv32, n: nat)
    requires Fits(m, n)
    ensures Ones(m) <= n
    decreases n
  {
    hide Ones, Half, Odd;
    if n == 0 {
      OnesStep(m);
    } else {
      OnesHalf(m);
      OnesFit(Half(m), n - 1);
    }
  }

  lemma OnesAtMost(m: bv32)
    ensures Ones(m) <= 32
  {
    hide Fits, Ones;
    AllFit(m);
    OnesFit(m, 32);
  }

  /** The server's Ones() agrees with the definition that clears the lowest set bit until none is left. */
  lemma HakmemIsOnes(m: bv32)
    ensures Number(m, 32) < 0x1_0000_0000 && HakmemOnes(Number(m, 32)) == Ones(m)
  {
    hide Number, Ones, Pop;
    AllFit(m);
    HakmemCounts(Number(m, 32));
    OnesOfNumber(m, 32);
  }
}
