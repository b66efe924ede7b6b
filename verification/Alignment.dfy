/** MathUtils: rounding to a multiple of an alignment. */
module Alignment {
  function AlignDown(value: nat, alignment: nat): nat
    requires alignment > 0
  {
    (value / alignment) * alignment
  }

  function AlignUp(value: nat, alignment: nat): nat
    requires alignment > 0
  {
    AlignDown(value + alignment - 1, alignment)
  }

  lemma {:induction false} MulLess(p: int, q: int, a: nat)
    ensures p < q ==> p * a + a <= q * a
    decreases q - p
  {
    if p < q {
      assert q * a == (q - 1) * a + a;
      if p < q - 1 { MulLess(p, q - 1, a); }
    }
  }

  /** Quotient and remainder are determined by their defining equation. */
  lemma DivUnique(x: nat, a: nat, q: nat, r: nat)
    requires r < a && x == q * a + r
    ensures x / a == q && x % a == r
  {
    assert x == (x / a) * a + x % a;
    MulLess(x / a, q, a);
    MulLess(q, x / a, a);
  }

  lemma MultipleMod(q: nat, a: nat)
    requires a > 0
    ensures (q * a) % a == 0
  {
    DivUnique(q * a, a, q, 0);
  }

  /** AlignUp answers the least multiple of the alignment that is not below the value. */
  lemma AlignUpMeaning(value: nat, alignment: nat)
    requires alignment > 0
    ensures var r := AlignUp(value, alignment);
            && r % alignment == 0 && value <= r < value + alignment
            && (value % alignment == 0 ==> r == value)
            && forall q: nat :: value <= q * alignment ==> r <= q * alignment
  {
    var v := value + alignment - 1;
    MultipleMod(v / alignment, alignment);
    assert v == (v / alignment) * alignment + v % alignment;
    forall q: nat | value <= q * alignment ensures AlignUp(value, alignment) <= q * alignment {
      QuotientBound(v / alignment, q, value, alignment);
    }
    if value % alignment == 0 {
      assert value == (value / alignment) * alignment;
      QuotientBound(v / alignment, value / alignment, value, alignment);
    }
  }

  lemma QuotientBound(p: nat, q: nat, value: nat, a: nat)
    requires a > 0 && value <= q * a && p * a < value + a
    ensures p * a <= q * a
  {
    MulLess(q, p, a);
    MulLess(p, q, a);
  }
}
