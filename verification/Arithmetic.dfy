/** Multiplication and division facts used by the arithmetic of the model. */
module Arithmetic {

  lemma MulMonotone(x: int, y: int, d: nat)
    requires x <= y
    ensures x * d <= y * d
  {
    assert y * d == x * d + (y - x) * d;
  }

  lemma DivisionBounds(a: nat, d: nat)
    requires 0 < d
    ensures a / d * d <= a < (a / d + 1) * d
  {
    assert a == a / d * d + a % d;
  }

  lemma DivisionAtLeast(a: nat, d: nat, q: nat)
    requires 0 < d && q * d <= a
    ensures a / d >= q
  {
    DivisionBounds(a, d);
    if a / d < q {
      MulMonotone(a / d + 1, q, d);
      assert false;
    }
  }

  lemma DivisionIs(a: nat, d: nat, q: nat, r: nat)
    requires r < d && a == q * d + r
    ensures a / d == q
  {
    assert (q + 1) * d == q * d + d;
    DivisionBounds(a, d);
    DivisionAtLeast(a, d, q);
    if a / d > q {
      MulMonotone(q + 1, a / d, d);
      assert false;
    }
  }
}
