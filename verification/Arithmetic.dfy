/** Facts about products that the solver needs spelled out. */
module Arithmetic {

  lemma MulCompare(a: int, b: int, c: int)
    requires c > 0
    ensures a <= b <==> a * c <= b * c
  {
    if a > b {
      assert (a - b) * c > 0;
    } else {
      assert (b - a) * c >= 0;
    }
  }

  lemma MultipleMod(q: int, n: int)
    requires n > 0
    ensures (q * n) % n == 0
  {
    var d, r := (q * n) / n, (q * n) % n;
    assert q * n == d * n + r;
    assert (q - d) * n == r;
    MulCompare(q - d, 0, n);
    MulCompare(1, q - d, n);
  }

  lemma ScaleCompare(a: real, b: real, c: real)
    requires c > 0.0
    ensures a <= b <==> a * c <= b * c
  {
    if a <= b {
      assert (b - a) * c >= 0.0;
    } else {
      assert (a - b) * c > 0.0;
    }
  }

  /** A quotient is where its numerator is, scaled by a positive denominator. */
  lemma Quotient(d: real, r: real, bound: real)
    requires r > 0.0
    ensures d / r < bound <==> d < bound * r
    ensures d / r > bound <==> d > bound * r
    ensures (-d) / r == -(d / r)
  {
    var q, p := d / r, (-d) / r;
    assert q * r == d && p * r == -d;
    assert (-q) * r == -(q * r);
    ScaleCompare(bound, q, r);
    ScaleCompare(q, bound, r);
    ScaleCompare(p, -q, r);
    ScaleCompare(-q, p, r);
  }
}
