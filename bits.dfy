/** Bits of an 8-bit register value, as the one-wire and shift-register code address them. */
module Bits {
  /** Bit k of b (bit 0 is the least significant). */
  predicate Bit(b: bv8, k: nat)
    requires k < 8
  {
    (b >> k) & 1 == 1
  }

  /** Testing bit k against the mask 1 << k. */
  lemma MaskBit(b: bv8, k: nat)
    requires k < 8
    ensures (b & (1 << k) != 0) == Bit(b, k)
  {
    if k == 0 {
    } else if k == 1 {
    } else if k == 2 {
    } else if k == 3 {
    } else if k == 4 {
    } else if k == 5 {
    } else if k == 6 {
    } else {
    }
  }

  /** Two bytes with the same eight bits are equal. */
  lemma BitsDetermineByte(a: bv8, b: bv8)
    requires forall i :: 0 <= i < 8 ==> Bit(a, i) == Bit(b, i)
    ensures a == b
  {
    assert Bit(a, 0) == Bit(b, 0) && Bit(a, 1) == Bit(b, 1) && Bit(a, 2) == Bit(b, 2);
    assert Bit(a, 3) == Bit(b, 3) && Bit(a, 4) == Bit(b, 4) && Bit(a, 5) == Bit(b, 5);
    assert Bit(a, 6) == Bit(b, 6) && Bit(a, 7) == Bit(b, 7);
  }
}
