/** Sets of flags in a 32-bit word. */
module Flags {
  predicate HasBit(x: bv32, k: bv6)
    requires k < 32
  {
    (x >> k) & 1 == 1
  }

  /** Every bit of `want` is a bit of `have`. */
  ghost predicate Includes(have: bv32, want: bv32) {
    forall k: bv6 :: k < 32 && HasBit(want, k) ==> HasBit(have, k)
  }

  /** Not all bits from j on are 0. */
  predicate SomeFrom(x: bv32, j: bv6)
    requires j < 32
  {
    x >> j != 0
  }

  lemma NoLowBit(x: bv32, j: bv6)
    requires j < 32 && SomeFrom(x, j) && !HasBit(x, j)
    ensures j < 31 && SomeFrom(x, j + 1)
  {
  }

  lemma NextBit(j: bv6)
    requires j < 31
    ensures j + 1 < 32 && 31 - (j + 1) < 31 - j
  {
  }

  lemma SomeBit(x: bv32, j: bv6) returns (k: bv6)
    requires j < 32 && SomeFrom(x, j)
    ensures k < 32 && HasBit(x, k)
    decreases 31 - j
  {
    if HasBit(x, j) {
      k := j;
    } else {
      NoLowBit(x, j);
      NextBit(j);
      k := SomeBit(x, j + 1);
    }
  }

  lemma MaskBit(want: bv32, have: bv32, k: bv6)
    requires k < 32
    ensures HasBit(want & !have, k) <==> HasBit(want, k) && !HasBit(have, k)
  {
  }

  lemma NoBits(k: bv6)
    requires k < 32
    ensures !HasBit(0, k)
  {
  }

  lemma FromStart(x: bv32)
    requires x != 0
    ensures SomeFrom(x, 0)
  {
  }

  /** The mask test says the same. */
  lemma MaskTest(want: bv32, have: bv32)
    ensures want & !have == 0 <==> Includes(have, want)
  {
    var x := want & !have;
    if x == 0 {
      forall k: bv6 | k < 32 && HasBit(want, k)
        ensures HasBit(have, k)
      {
        MaskBit(want, have, k);
        NoBits(k);
      }
    } else {
      FromStart(x);
      var k := SomeBit(x, 0);
      MaskBit(want, have, k);
    }
  }
}
