/** Facts about products and quotients of integers. */
module Arithmetic {
  lemma Order(a: int, b: int, d: int)
    requires d > 0
    ensures a < b <==> a * d < b * d
    ensures a <= b <==> a * d <= b * d
  {
    if a < b {
      assert (b - a) * d > 0;
    } else if b < a {
      assert (a - b) * d > 0;
    }
  }

  lemma QuotientIs(x: int, d: int, q: int)
    requires d > 0 && q * d <= x < (q + 1) * d
    ensures x / d == q
  {
    var r := x / d;
    assert r * d <= x < (r + 1) * d;
    Order(q, r + 1, d);
    Order(r, q + 1, d);
  }
}
