/** Value lists: one entry per set bit of a mask, from the lowest bit to the highest, and the
    per-screen rewriting of single entries when a request is replayed on every screen. */
module ValueLists {
  import opened Masks

  /** The lowest set bit. */
  function Lowest(m: bv32): bv32 {
    m & (0 - m)
  }

  /** What a request handler reads for bit q: it takes the lowest bit left and the next value, again and again. */
  function Read(mask: bv32, list: seq<int>, q: bv32): int
    requires |list| == Ones(mask) && Single(q) && Has(mask, q)
    decreases mask
  {
    ReadSteps(mask, q);
    if q == Lowest(mask) then list[0] else Read(DropLowest(mask), list[1..], q)
  }

  lemma ReadSteps(mask: bv32, q: bv32)
    requires Single(q) && Has(mask, q)
    ensures mask != 0 && Ones(mask) == 1 + Ones(DropLowest(mask)) && DropLowest(mask) < mask
    ensures q != Lowest(mask) ==> Has(DropLowest(mask), q)
  {
    hide Has, Single, Lowest, DropLowest, Ones;
    ZeroHasNothing(q);
    OnesStep(mask);
    DropShrinks(mask);
    if q != Lowest(mask) {
      LaterBit(mask, q);
    }
  }

  /** Where the entry of a bit is looked for: Ones(mask & (bit - 1)). */
  function Position(mask: bv32, bit: bv32): nat {
    Ones(Under(mask, bit))
  }

  lemma LaterBit(m: bv32, q: bv32)
    requires Single(q) && Has(m, q) && q != Lowest(m)
    ensures Has(DropLowest(m), q)
  {}

  lemma UnderLowest(m: bv32)
    requires m != 0
    ensures Under(m, Lowest(m)) == 0
  {}

  lemma UnderLater(m: bv32, q: bv32)
    requires Single(q) && Has(DropLowest(m), q)
    ensures Under(m, q) != 0 && DropLowest(Under(m, q)) == Under(DropLowest(m), q)
  {}

  lemma OnesStep(m: bv32)
    requires m != 0
    ensures Ones(m) == 1 + Ones(DropLowest(m)) && Ones(0) == 0
  {}

  lemma ZeroHasNothing(q: bv32)
    ensures !Has(0, q)
  {}

  /** The entry found at Position(mask, bit) is the one the handler reads for that bit. */
  lemma {:induction false} PositionReads(mask: bv32, list: seq<int>, q: bv32)
    requires |list| == Ones(mask) && Single(q) && Has(mask, q)
    ensures Position(mask, q) < |list|
    ensures Read(mask, list, q) == list[Position(mask, q)]
    decreases mask
  {
    hide Has, Single, Lowest, DropLowest, Under, Ones;
    ReadSteps(mask, q);
    if q == Lowest(mask) {
      UnderLowest(mask);
      OnesStep(mask);
    } else {
      UnderLater(mask, q);
      OnesStep(Under(mask, q));
      PositionReads(DropLowest(mask), list[1..], q);
    }
  }

  /** Different set bits have different entries. */
  lemma {:induction false} PositionsDiffer(mask: bv32, q: bv32, r: bv32)
    requires Single(q) && Has(mask, q) && Single(r) && Has(mask, r) && q != r
    ensures Position(mask, q) != Position(mask, r)
    decreases mask
  {
    hide Has, Single, Lowest, DropLowest, Under, Ones;
    ReadSteps(mask, q);
    ReadSteps(mask, r);
    OnesStep(mask);
    if q == Lowest(mask) {
      UnderLowest(mask);
      UnderLater(mask, r);
      OnesStep(Under(mask, r));
    } else if r == Lowest(mask) {
      UnderLowest(mask);
      UnderLater(mask, q);
      OnesStep(Under(mask, q));
    } else {
      UnderLater(mask, q);
      UnderLater(mask, r);
      OnesStep(Under(mask, q));
      OnesStep(Under(mask, r));
      PositionsDiffer(DropLowest(mask), q, r);
    }
  }

  /** Writing that entry changes what is read for that bit and for no other. */
  lemma PositionWrites(mask: bv32, list: seq<int>, q: bv32, v: int, r: bv32)
    requires |list| == Ones(mask) && Single(q) && Has(mask, q) && Single(r) && Has(mask, r)
    ensures Position(mask, q) < |list|
    ensures Read(mask, list[Position(mask, q) := v], r) == if r == q then v else Read(mask, list, r)
  {
    hide Has, Single, Lowest, DropLowest, Under, Ones, Position, Read;
    PositionReads(mask, list, q);
    PositionReads(mask, list, r);
    PositionReads(mask, list[Position(mask, q) := v], r);
    if r != q {
      PositionsDiffer(mask, q, r);
    }
  }
}
