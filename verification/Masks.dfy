/** 32-bit masks: counting bits, single bits, and positions of bits. */
module Masks {
  /** m without its lowest set bit. */
  function DropLowest(m: bv32): bv32 {
    m & (m - 1)
  }

  lemma DropShrinks(m: bv32)
    requires m != 0
    ensures DropLowest(m) < m
  {}

  /** The number of set bits, by clearing the lowest one each time. */
  function Ones(m: bv32): nat
    decreases m
  {
    if m == 0 then 0 else (DropShrinks(m); 1 + Ones(DropLowest(m)))
  }

  predicate Single(b: bv32) {
    b != 0 && DropLowest(b) == 0
  }

  predicate Has(m: bv32, b: bv32) {
    m & b != 0
  }

  /** The bits of m below the single bit b: m & (b - 1). */
  function Under(m: bv32, b: bv32): bv32 {
    m & (b - 1)
  }

  /** The bits of m at or below the single bit b: m & (b | (b - 1)). */
  function Within(m: bv32, b: bv32): bv32 {
    m & (b | (b - 1))
  }

  /** b >> 1 */
  function Half(b: bv32): bv32 {
    b >> 1
  }

  lemma WithinTwice(m: bv32, b: bv32)
    ensures Within(Within(m, b), b) == Within(m, b)
  {}

  lemma WithinSplits(m: bv32, b: bv32)
    ensures Within(m, b) == (m & b) | Under(m, b)
  {}

  lemma OrEmpty(x: bv32, y: bv32)
    ensures x | y == 0 <==> x == 0 && y == 0
  {}

  lemma WithinEmpty(m: bv32, b: bv32)
    ensures Within(m, b) == 0 <==> !Has(m, b) && Under(m, b) == 0
  {
    hide Within, Under;
    WithinSplits(m, b);
    OrEmpty(m & b, Under(m, b));
  }

  lemma WithinTop(m: bv32, b: bv32)
    requires Single(b) && Under(m, b) == 0 && Has(m, b)
    ensures Within(m, b) == b
  {}

  lemma DropTop(m: bv32, b: bv32)
    requires Single(b) && Under(m, b) != 0
    ensures Has(DropLowest(Within(m, b)), b) == Has(m, b)
  {}

  lemma DropUnder(m: bv32, b: bv32)
    requires Single(b) && Under(m, b) != 0
    ensures Under(DropLowest(Within(m, b)), b) == DropLowest(Under(m, b))
  {}

  lemma DropWithin(n: bv32, b: bv32)
    requires Within(n, b) == n && n != 0
    ensures Within(DropLowest(n), b) == DropLowest(n)
  {}

  /** Counting the bits up to b: the bit itself, and those below it. */
  lemma {:induction false} OnesWithin(m: bv32, b: bv32)
    requires Single(b)
    ensures Ones(Within(m, b)) == Ones(Under(m, b)) + if Has(m, b) then 1 else 0
    decreases Within(m, b)
  {
    hide Within, Under, Has, DropLowest;
    WithinTwice(m, b);
    WithinEmpty(m, b);
    if Under(m, b) == 0 && Has(m, b) {
      WithinTop(m, b);
    }
    if Under(m, b) != 0 {
      DropTop(m, b);
      DropUnder(m, b);
      DropWithin(Within(m, b), b);
      DropShrinks(Within(m, b));
      OnesWithin(DropLowest(Within(m, b)), b);
    }
  }

  /** Moving a single bit down one place. */
  lemma HalfBit(b: bv32)
    requires Single(b)
    ensures b == 1 ==> Half(b) == 0
    ensures b != 1 ==> Single(Half(b))
    ensures Half(b) < b
  {}

  lemma HalfWithin(m: bv32, b: bv32)
    requires Single(b)
    ensures Under(m, b) == if b == 1 then 0 else Within(m, Half(b))
  {}

  // ----- the plane loop -----

  /** How often a mask can be shifted right before nothing is left. */
  function Level(b: bv32): nat
    decreases b
  {
    if b == 0 then 0 else (HalfShrinks(b); 1 + Level(Half(b)))
  }

  lemma HalfShrinks(b: bv32)
    requires b != 0
    ensures Half(b) < b
  {}

  lemma LevelFalls(b: bv32)
    requires b != 0
    ensures Level(Half(b)) < Level(b)
  {}

  /** The planes taken by `for (; plane; plane >>= 1) if (planemask & plane)`, in order. */
  function PlanesFrom(planemask: bv32, plane: bv32): seq<bv32>
    decreases plane
  {
    if plane == 0 then []
    else (if planemask & plane != 0 then [plane] else []) + PlanesFrom(planemask, plane >> 1)
  }

  lemma PlanesStep(planemask: bv32, plane: bv32)
    requires plane != 0
    ensures PlanesFrom(planemask, plane)
            == (if Has(planemask, plane) then [plane] else []) + PlanesFrom(planemask, Half(plane))
  {}

  /** Exactly as many planes are taken as the reply length announces. */
  lemma {:induction false} PlaneCount(planemask: bv32, plane: bv32)
    requires Single(plane)
    ensures |PlanesFrom(planemask, plane)| == Ones(Within(planemask, plane))
    decreases plane
  {
    hide Within, Under, Has, Half, DropLowest, PlanesFrom;
    OnesWithin(planemask, plane);
    HalfBit(plane);
    HalfWithin(planemask, plane);
    PlanesStep(planemask, plane);
    if plane == 1 {
      assert PlanesFrom(planemask, 0) == [] by { NoPlanes(planemask); }
    } else {
      PlaneCount(planemask, Half(plane));
    }
  }

  lemma NoPlanes(planemask: bv32)
    ensures PlanesFrom(planemask, 0) == []
  {}

  /** A single bit q lies at or below b when it is b or lies at or below b's lower neighbour. */
  lemma BitCases(b: bv32, q: bv32)
    requires Single(b) && Single(q)
    ensures Within(q, b) != 0 <==> q == b || (b != 1 && Within(q, Half(b)) != 0)
  {}

  predicate Lower(q: bv32, b: bv32) {
    q < b
  }

  lemma BitBelow(b: bv32, q: bv32)
    requires Single(b) && Single(q) && b != 1 && Within(q, Half(b)) != 0
    ensures Lower(q, b)
  {}

  /** The planes taken are exactly the requested planes at or below the first one. */
  lemma {:induction false} PlaneMember(planemask: bv32, plane: bv32, q: bv32)
    requires Single(plane)
    ensures q in PlanesFrom(planemask, plane) <==> Single(q) && Within(q, plane) != 0 && Has(planemask, q)
    decreases plane
  {
    hide Within, Under, Has, Half, Single, DropLowest, PlanesFrom;
    HalfBit(plane);
    PlanesStep(planemask, plane);
    NoPlanes(planemask);
    if Single(q) {
      BitCases(plane, q);
    }
    if plane != 1 {
      PlaneMember(planemask, Half(plane), q);
    }
  }

  /** They are taken from the highest to the lowest, none twice. */
  lemma {:induction false} PlanesDescend(planemask: bv32, plane: bv32)
    requires Single(plane)
    ensures forall i, j :: 0 <= i < j < |PlanesFrom(planemask, plane)| ==>
              Lower(PlanesFrom(planemask, plane)[j], PlanesFrom(planemask, plane)[i])
    decreases plane
  {
    hide Within, Under, Has, Half, Single, DropLowest, PlanesFrom, Lower;
    HalfBit(plane);
    PlanesStep(planemask, plane);
    NoPlanes(planemask);
    var rest := PlanesFrom(planemask, Half(plane));
    if plane != 1 {
      PlanesDescend(planemask, Half(plane));
      forall k | 0 <= k < |rest| ensures Lower(rest[k], plane) {
        PlaneMember(planemask, Half(plane), rest[k]);
        BitBelow(plane, rest[k]);
      }
    }
  }
}
