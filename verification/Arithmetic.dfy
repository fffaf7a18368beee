/** Real arithmetic that the proofs share: each fact stated once, to be called where a product
    or a quotient has to be compared. */
module Arithmetic {

  lemma Distribute(a: real, c: real, k: real)
    ensures (a + c) * k == a * k + c * k
  {
  }

  lemma Reassociate(a: real, c: real, k: real)
    ensures a * c * k == a * (c * k)
  {
  }

  lemma CancelPos(a: real, c: real, k: real)
    requires k > 0.0
    ensures a * k == c * k <==> a == c
    ensures a * k < c * k <==> a < c
    ensures a * k <= c * k <==> a <= c
  {
    if a < c {
      assert (c - a) * k > 0.0;
    } else if c < a {
      assert (a - c) * k > 0.0;
    }
  }

  lemma ScaleMono(a: real, c: real, k: real)
    requires k >= 0.0 && a <= c
    ensures a * k <= c * k
  {
    assert (c - a) * k >= 0.0;
  }

  lemma DivideAdd(x: real, t: real, b: real)
    requires b > 0.0
    ensures (x + t) / b == x / b + t / b
    ensures b * (t / b) == t
  {
  }

  lemma QuotientUnique(x: real, d: real, q: real)
    requires d > 0.0 && q * d == x
    ensures x / d == q
  {
  }

  lemma ScaledQuotient(x: real, b: real, k: real)
    requires b > 0.0 && k > 0.0
    ensures k * b > 0.0
    ensures k * x / (k * b) == x / b
  {
    var q := x / b;
    assert q * b == x;
    CancelPos(0.0, k, b);
    QuotientUnique(k * x, k * b, q);
  }

  lemma DivideReflects(x: real, y: real, b: real)
    requires b > 0.0
    ensures x < y <==> x / b < y / b
    ensures x <= y <==> x / b <= y / b
  {
    assert x / b * b == x && y / b * b == y;
    CancelPos(x / b, y / b, b);
  }

  /** A difference in units of b. */
  lemma DifferenceOverB(x: real, y: real, b: real, own: real, other: real, lead: real)
    requires b > 0.0 && x == own / b && y == other / b
    ensures other - own <= lead * b <==> y - x <= lead
    ensures other - own >= lead * b <==> y - x >= lead
  {
    assert x * b == own && y * b == other;
    var d := y - x;
    assert d * b == other - own;
    CancelPos(d, lead, b);
    CancelPos(lead, d, b);
  }

  /** Slopes over blocks of which one is k times the other. */
  lemma SlopeCompare(rise1: real, rise2: real, s1: real, s2: real, k: real)
    requires k > 0.0 && s1 > 0.0 && s2 > 0.0 && s1 * k == s2
    ensures rise1 / s1 < rise2 / s2 <==> k * rise1 < rise2
    ensures rise2 / s2 < rise1 / s1 <==> rise2 < k * rise1
  {
    var x, y := rise1 / s1, rise2 / s2;
    assert x * s1 == rise1 && y * s2 == rise2;
    CancelPos(x, y, s2);
    CancelPos(y, x, s2);
    assert x * s2 == x * s1 * k;
  }

  lemma CrossDivide(r1: real, r2: real, b1: real, b2: real, g1: real, g2: real)
    requires b1 > 0.0 && b2 > 0.0 && r1 * b1 == g1 && r2 * b2 == g2 && g1 * b2 < g2 * b1
    ensures r1 < r2
  {
    CancelPos(0.0, b1, b2);
    assert g1 * b2 == r1 * (b1 * b2);
    assert g2 * b1 == r2 * (b1 * b2);
    CancelPos(r1, r2, b1 * b2);
  }

  lemma NonNegativeProduct(x: real, y: real)
    requires x >= 0.0 && y >= 0.0
    ensures x * y >= 0.0
  {
  }
}
