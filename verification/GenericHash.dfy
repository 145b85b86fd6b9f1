/** The hash and compare functions that the hash table offers for keys of a fixed number of bytes. */
module GenericHash {
  import opened Arith
  import opened Bits
  import opened HashTable
  import opened Masks
  import opened Numbers

  /** A char of the key as it is added to the hash: sign-extended where char is signed. */
  function Widened(b: byte, signedChar: bool): bv32 {
    if signedChar && b >= 0x80 then (b as bv32) | 0xFFFF_FF00 else b as bv32
  }

  /** One round of the one-at-a-time hash. */
  function Stir(hash: bv32, c: bv32): bv32 {
    Xor6(Spread(Plus(hash, c)))
  }

  /** hash += hash << 10 */
  function Spread(hash: bv32): bv32 {
    Plus(hash, Left10(hash))
  }

  function Plus(x: bv32, y: bv32): bv32 { x + y }
  function Left10(x: bv32): bv32 { x << 10 }
  function Xor6(x: bv32): bv32 { x ^ (x >> 6) }

  function Stirred(key: Key, signedChar: bool): bv32 {
    if key == [] then 0 else Stir(Stirred(key[..|key| - 1], signedChar), Widened(key[|key| - 1], signedChar))
  }

  function Finish(hash: bv32): bv32 {
    Add15(Xor11(Add3(hash)))
  }

  function Add3(x: bv32): bv32 { x + (x << 3) }
  function Xor11(x: bv32): bv32 { x ^ (x >> 11) }
  function Add15(x: bv32): bv32 { x + (x << 15) }

  function Masked(x: bv32, mask: bv32): bv32 { x & mask }

  /** The bucket of a key in a table of 2^numBits buckets. */
  function GenericHash(key: Key, numBits: nat, signedChar: bool): nat {
    Number(Masked(Finish(Stirred(key, signedChar)), LowOnes(numBits)), 32)
  }

  lemma MaskCovers(x: bv32, mask: bv32)
    ensures Covers(mask, Masked(x, mask))
  {}

  /** ht_generic_hash: a number below 2^numBits. */
  method HtGenericHash(key: Key, numBits: nat, signedChar: bool) returns (index: nat)
    ensures index < Pow2(numBits) && index == GenericHash(key, numBits, signedChar)
  {
    hide Stir, Widened, Finish, Masked, Number, LowOnes, Pow2;
    var hash: bv32, i := 0, 0;
    while i < |key|
      invariant i <= |key| && hash == Stirred(key[..i], signedChar)
    {
      assert key[..i + 1][..i] == key[..i];
      hash := Stir(hash, Widened(key[i], signedChar));
      i := i + 1;
    }
    assert key[..i] == key;
    index := Number(Masked(Finish(hash), LowOnes(numBits)), 32);
    HashBelow(key, numBits, signedChar);
  }

  lemma HashBelow(key: Key, numBits: nat, signedChar: bool)
    ensures GenericHash(key, numBits, signedChar) < Pow2(numBits)
  {
    hide Stirred, Finish, LowOnes, Number, Pow2, Covers, Masked;
    var hash, mask := Finish(Stirred(key, signedChar)), LowOnes(numBits);
    MaskCovers(hash, mask);
    NumberBound(Masked(hash, mask), numBits, 32);
  }

  lemma MaskedHalf(x: bv32, mask: bv32)
    ensures Half(Masked(x, Longer(mask))) == Masked(Half(x), mask)
    ensures Odd(Masked(x, Longer(mask))) == Odd(x)
  {}

  lemma MaskedZero(x: bv32)
    ensures Masked(x, 0) == 0
  {}

  /** Masking to n bits is reading n bits. */
  lemma {:induction false} MaskedNumber(x: bv32, n: nat, k: nat)
    requires n <= k
    ensures Number(Masked(x, LowOnes(n)), k) == Number(x, n)
    decreases n
  {
    hide Masked, Half, Longer, Odd;
    if n == 0 {
      MaskedZero(x);
      NumberOfZero(k);
    } else {
      MaskedHalf(x, LowOnes(n - 1));
      NumberStep(Masked(x, LowOnes(n)), k);
      NumberStep(x, n);
      MaskedNumber(Half(x), n - 1, k - 1);
    }
  }

  lemma {:induction false} NumberMore(x: bv32, n: nat)
    ensures Number(x, n + 1) == Number(x, n) || Number(x, n + 1) == Number(x, n) + Pow2(n)
    decreases n
  {
    hide Half, Odd;
    NumberStep(x, n + 1);
    if n > 0 {
      NumberStep(x, n);
      NumberMore(Half(x), n - 1);
    }
  }

  /** Doubling a table splits every bucket in two: a key stays in bucket b, or moves to bucket b + 2^numBits. */
  lemma DoublingSplits(key: Key, numBits: nat, signedChar: bool)
    requires numBits < 32
    ensures GenericHash(key, numBits + 1, signedChar)
         in {GenericHash(key, numBits, signedChar), GenericHash(key, numBits, signedChar) + Pow2(numBits)}
  {
    hide Stirred, Finish, LowOnes, Number, Masked;
    var hash := Finish(Stirred(key, signedChar));
    MaskedNumber(hash, numBits, 32);
    MaskedNumber(hash, numBits + 1, 32);
    NumberMore(hash, numBits);
  }

  // ----- no information is lost before the mask -----

  function Minus(x: bv32, y: bv32): bv32 { x - y }
  function Left20(x: bv32): bv32 { x << 20 }

  lemma Shifts10(x: bv32, y: bv32)
    ensures Left10(Plus(x, y)) == Plus(Left10(x), Left10(y)) && Left10(Left10(x)) == Left20(x)
  {
    assert (x + y) << 10 == (x << 10) + (y << 10);
    assert (x << 10) << 10 == x << 20;
  }

  lemma Shifts20(x: bv32, y: bv32)
    ensures Left20(Minus(x, y)) == Minus(Left20(x), Left20(y)) && Left20(Left20(x)) == 0
  {}

  lemma CancelsMiddle(x: bv32, y: bv32, z: bv32)
    ensures Minus(Plus(x, y), Plus(y, z)) == Minus(x, z)
  {
    MiddleWorks(x, y, z);
    hide Minus;
  }

  lemma MiddleWorks(x: bv32, y: bv32, z: bv32)
    ensures Minus(x + y, y + z) == Minus(x, z)
  {}

  lemma CancelsLast(x: bv32, y: bv32)
    ensures Plus(Minus(x, y), Minus(y, 0)) == x
  {
    LastWorks(x, y);
    hide Plus;
  }

  lemma LastWorks(x: bv32, y: bv32)
    ensures Plus(x - y, y - 0) == x
  {}

  /** The addition of the shifted hash can be undone. */
  lemma Unspread(x: bv32)
    ensures var once := Minus(Spread(x), Left10(Spread(x)));
            Plus(once, Left20(once)) == x
  {
    hide Plus, Minus, Left10, Left20;
    Shifts10(x, Left10(x));
    CancelsMiddle(x, Left10(x), Left20(x));
    Shifts20(x, Left20(x));
    CancelsLast(x, Left20(x));
  }

  function Unxor6(y: bv32): bv32 { y ^ (y >> 6) ^ (y >> 12) ^ (y >> 18) ^ (y >> 24) ^ (y >> 30) }

  lemma Xor6Undone(x: bv32)
    ensures Unxor6(Xor6(x)) == x
  {
    Unxor6Works(x);
    hide Unxor6;
  }

  lemma Unxor6Works(x: bv32)
    ensures Unxor6(x ^ (x >> 6)) == x
  {}

  /** Rounds of different sums have different results. */
  lemma StirApart(g: bv32, c: bv32, h: bv32, d: bv32)
    requires Plus(g, c) != Plus(h, d)
    ensures Stir(g, c) != Stir(h, d)
  {
    hide Spread, Plus, Xor6, Unxor6, Left10, Left20, Minus;
    Unspread(Plus(g, c));
    Unspread(Plus(h, d));
    Xor6Undone(Spread(Plus(g, c)));
    Xor6Undone(Spread(Plus(h, d)));
  }

  function Unadd3(a: bv32): bv32 {
    a - (a << 3) + (a << 6) - (a << 9) + (a << 12) - (a << 15) + (a << 18) - (a << 21) + (a << 24) - (a << 27) + (a << 30)
  }
  function Unxor11(y: bv32): bv32 { y ^ (y >> 11) ^ (y >> 22) }
  function Unadd15(a: bv32): bv32 { a - (a << 15) + (a << 30) }

  lemma Add3Undone(x: bv32)
    ensures Unadd3(Add3(x)) == x
  {
    Unadd3Works(x);
    hide Unadd3;
  }

  lemma Unadd3Works(x: bv32)
    ensures Unadd3(x + (x << 3)) == x
  {}

  lemma Xor11Undone(x: bv32)
    ensures Unxor11(Xor11(x)) == x
  {
    Unxor11Works(x);
    hide Unxor11;
  }

  lemma Unxor11Works(x: bv32)
    ensures Unxor11(x ^ (x >> 11)) == x
  {}

  lemma Add15Undone(x: bv32)
    ensures Unadd15(Add15(x)) == x
  {
    Unadd15Works(x);
    hide Unadd15;
  }

  lemma Unadd15Works(x: bv32)
    ensures Unadd15(x + (x << 15)) == x
  {}

  lemma FinishApart(x: bv32, y: bv32)
    requires x != y
    ensures Finish(x) != Finish(y)
  {
    hide Add3, Xor11, Add15, Unadd3, Unxor11, Unadd15;
    Add15Undone(Xor11(Add3(x)));
    Add15Undone(Xor11(Add3(y)));
    Xor11Undone(Add3(x));
    Xor11Undone(Add3(y));
    Add3Undone(x);
    Add3Undone(y);
  }

  lemma PlusUndone(x: bv32, y: bv32)
    ensures Minus(Plus(x, y), y) == x && Minus(Plus(x, y), x) == y
  {
    MinusWorks(x, y);
    hide Minus;
  }

  lemma MinusWorks(x: bv32, y: bv32)
    ensures Minus(x + y, y) == x && Minus(x + y, x) == y
  {}

  lemma WidenedApart(a: byte, b: byte, signedChar: bool, h: bv32)
    requires a != b
    ensures Plus(h, Widened(a, signedChar)) != Plus(h, Widened(b, signedChar))
  {
    hide Plus, Minus, Widened;
    WidenedDiffers(a, b, signedChar);
    PlusUndone(h, Widened(a, signedChar));
    PlusUndone(h, Widened(b, signedChar));
  }

  lemma WidenedDiffers(a: byte, b: byte, signedChar: bool)
    requires a != b
    ensures Widened(a, signedChar) != Widened(b, signedChar)
  {}

  lemma PlusApart(g: bv32, h: bv32, c: bv32)
    requires g != h
    ensures Plus(g, c) != Plus(h, c)
  {
    hide Plus, Minus;
    PlusUndone(g, c);
    PlusUndone(h, c);
  }

  lemma {:induction false} StirredApart(a: Key, b: Key, i: nat, signedChar: bool)
    requires i < |a| == |b| && a[i] != b[i] && forall k :: 0 <= k < |a| && k != i ==> a[k] == b[k]
    ensures Stirred(a, signedChar) != Stirred(b, signedChar)
    decreases |a|
  {
    hide Stir, Widened, Plus;
    var n := |a| - 1;
    var g, h := Stirred(a[..n], signedChar), Stirred(b[..n], signedChar);
    if i == n {
      assert a[..n] == b[..n];
      WidenedApart(a[n], b[n], signedChar, g);
    } else {
      StirredApart(a[..n], b[..n], i, signedChar);
      PlusApart(g, h, Widened(a[n], signedChar));
    }
    StirApart(g, Widened(a[n], signedChar), h, Widened(b[n], signedChar));
  }

  /** Keys that differ in one char differ in their 32-bit hash. */
  lemma OneCharApart(a: Key, b: Key, i: nat, signedChar: bool)
    requires i < |a| == |b| && a[i] != b[i] && forall k :: 0 <= k < |a| && k != i ==> a[k] == b[k]
    ensures Finish(Stirred(a, signedChar)) != Finish(Stirred(b, signedChar))
  {
    hide Finish, Stirred;
    StirredApart(a, b, i, signedChar);
    FinishApart(Stirred(a, signedChar), Stirred(b, signedChar));
  }

  /** Known values: the key "a", and two chars from 0x80 on. */
  lemma KnownHashes()
    ensures Finish(Stirred([0x61], false)) == 0xCA2E_9442 == Finish(Stirred([0x61], true))
    ensures Finish(Stirred([0xFF, 0x80], false)) == 0x234E_280A
    ensures Finish(Stirred([0xFF, 0x80], true)) == 0xD8D1_31C7
  {
    assert forall b: byte, signedChar :: Stirred([b], signedChar) == Stir(0, Widened(b, signedChar)) by {
      forall b: byte, signedChar ensures Stirred([b], signedChar) == Stir(0, Widened(b, signedChar)) {
        assert [b][..0] == [];
      }
    }
    var key: Key := [0xFF, 0x80];
    assert key[..1] == [0xFF];
  }

  /** memcmp of two keys; keys of one table are equally long. */
  function GenericCompare(l: Key, r: Key): int {
    if l == [] then -|r|
    else if r == [] then |l|
    else if l[0] != r[0] then l[0] as int - r[0] as int
    else GenericCompare(l[1..], r[1..])
  }

  lemma {:induction false} CompareEqual(l: Key, r: Key)
    ensures GenericCompare(l, r) == 0 <==> l == r
  {
    if l != [] && r != [] {
      if l[0] == r[0] {
        CompareEqual(l[1..], r[1..]);
        assert l == [l[0]] + l[1..] && r == [r[0]] + r[1..];
      } else {
        ByteNumbers(l[0], r[0]);
      }
    }
  }

  lemma ByteNumbers(a: byte, b: byte)
    requires a != b
    ensures a as int != b as int
  {}

  /** The two functions are what the table asks for: a numBits-bit number, and 0 exactly for equal keys. */
  lemma GenericIsGood(signedChar: bool)
    ensures GoodHash((k: Key, bits: nat) => GenericHash(k, bits, signedChar)) && GoodCompare(GenericCompare)
  {
    hide GenericHash, Pow2;
    forall k: Key, bits: nat ensures GenericHash(k, bits, signedChar) < Pow2(bits) {
      HashBelow(k, bits, signedChar);
    }
    forall a: Key, b: Key ensures GenericCompare(a, b) == 0 <==> a == b {
      CompareEqual(a, b);
    }
  }
}
