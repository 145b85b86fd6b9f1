/** Products of naturals as repeated addition: proofs about rows and columns then stay in linear arithmetic. */
module Arith {
  function Mul(k: nat, n: nat): nat {
    if n == 0 then 0 else Mul(k, n - 1) + k
  }

  lemma {:induction false} MulIsProduct(k: nat, n: nat)
    ensures Mul(k, n) == k * n
  {
    if n > 0 {
      MulIsProduct(k, n - 1);
    }
  }

  lemma {:induction false} MulAdd(k: nat, a: nat, b: nat)
    ensures Mul(k, a + b) == Mul(k, a) + Mul(k, b)
  {
    if b > 0 {
      MulAdd(k, a, b - 1);
      assert a + b - 1 == a + (b - 1);
    }
  }

  lemma MulMonotone(k: nat, a: nat, b: nat)
    requires a <= b
    ensures Mul(k, a) <= Mul(k, b)
  {
    MulAdd(k, a, b - a);
  }

  /** Different multiples of k are at least k apart. */
  lemma MulApart(k: nat, a: nat, b: nat)
    requires a < b
    ensures Mul(k, a) + k <= Mul(k, b)
  {
    MulMonotone(k, a + 1, b);
  }

  lemma {:induction false} MulOfMultiple(k: nat, n: nat)
    requires k % 4 == 0
    ensures Mul(k, n) % 4 == 0
  {
    if n > 0 {
      MulOfMultiple(k, n - 1);
    }
  }

  lemma {:induction false} MulPositive(k: nat, n: nat)
    ensures Mul(k, n) == 0 <==> k == 0 || n == 0
  {
    if n > 0 {
      MulPositive(k, n - 1);
    }
  }

  /** 1 << n */
  function Pow2(n: nat): (p: nat)
    ensures p > 0
  {
    if n == 0 then 1 else 2 * Pow2(n - 1)
  }
}
