/** The range of the source's 64-bit unsigned integers, and a fact about products. */
module Integers {
  const TWO_64 := 0x1_0000_0000_0000_0000

  lemma MulMonotone(a: nat, b: nat, m: nat)
    requires a <= b
    ensures a * m <= b * m
  {
    assert b * m == a * m + (b - a) * m;
  }
}
