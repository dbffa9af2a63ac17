/** Facts about products and quotients of natural numbers. */
module Arithmetic {
  lemma MulLe(a: nat, b: nat, c: nat)
    requires a <= b
    ensures a * c <= b * c
  {}

  lemma MulStep(a: nat, b: nat, c: nat)
    requires a < b
    ensures a * c + c <= b * c
  {
    MulLe(a + 1, b, c);
  }

  lemma DivMod(q: nat, d: nat, x: nat)
    requires q < d
    ensures (x * d + q) / d == x && (x * d + q) % d == q
  {
    var z := x * d + q;
    var y := z / d;
    assert z == y * d + z % d;
    if y > x {
      MulStep(x, y, d);
      assert false;
    }
    if y < x {
      MulStep(y, x, d);
      assert false;
    }
  }

  lemma QuotientBound(x: nat, a: nat, d: nat)
    requires d > 0 && x < a * d
    ensures x / d < a
  {
    var q := x / d;
    assert x == q * d + x % d;
    if q >= a {
      MulLe(a, q, d);
      assert false;
    }
  }
}
