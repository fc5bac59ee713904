/** Division with a remainder, and products. */
module Divisions {
  /** Quotient and remainder are unique. */
  lemma DivisionIs(x: nat, d: nat, q: nat, r: nat)
    requires r < d && x == q * d + r
    ensures x / d == q && x % d == r
  {
    var e := x / d - q;
    assert x == (x / d) * d + x % d;
    assert e * d == r - x % d by {
      assert e * d == (x / d) * d - q * d;
    }
    assert e > 0 ==> e * d >= d;
    assert e < 0 ==> e * d + d <= 0;
  }

  lemma Times(a: nat, c: nat, b: nat)
    requires c <= a
    ensures c * b <= a * b
  {
  }

  lemma Distribute(a: int, b: int, c: int)
    ensures a * (b + c) == a * b + a * c
    ensures (b + c) * a == b * a + c * a
  {
  }
}
