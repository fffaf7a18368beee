/** What the cost function is: its closed form, its convexity, and the budget inversion. */
module LmsrTheory {
  import opened Arithmetic
  import opened ExpLn
  import opened Lmsr

  // ---- Normalised coordinates (b = 1) ----

  /** Unshifted log-sum-exp. */
  function Lse(m: Maths, x: real, y: real): real { Ln(m, Exp(m, x) + Exp(m, y)) }

  /** Softmax weight of the first argument. */
  ghost function Weight(m: Maths, x: real, y: real): real
    requires Valid(m)
  {
    ExpPos(m, x);
    ExpPos(m, y);
    Exp(m, x) / (Exp(m, x) + Exp(m, y))
  }

  lemma ExpLse(m: Maths, x: real, y: real)
    requires Valid(m)
    ensures Exp(m, Lse(m, x, y)) == Exp(m, x) + Exp(m, y)
  {
    ExpPos(m, x);
    ExpPos(m, y);
    ExpOfLn(m, Exp(m, x) + Exp(m, y));
  }

  /** A number whose exponential is the sum of exponentials is the log-sum-exp. */
  lemma LseUnique(m: Maths, c: real, x: real, y: real)
    requires Valid(m) && Exp(m, c) == Exp(m, x) + Exp(m, y)
    ensures c == Lse(m, x, y)
  {
    LnOfExp(m, c);
  }

  lemma LseTranslate(m: Maths, x: real, y: real, t: real)
    requires Valid(m)
    ensures Lse(m, x + t, y + t) == Lse(m, x, y) + t
  {
    ExpLse(m, x, y);
    ExpSum(m, Lse(m, x, y), t);
    ExpSum(m, x, t);
    ExpSum(m, y, t);
    Distribute(Exp(m, x), Exp(m, y), Exp(m, t));
    LseUnique(m, Lse(m, x, y) + t, x + t, y + t);
  }

  lemma WeightRange(m: Maths, x: real, y: real)
    requires Valid(m)
    ensures 0.0 < Weight(m, x, y) < 1.0
    ensures Weight(m, x, y) * (Exp(m, x) + Exp(m, y)) == Exp(m, x)
    ensures (1.0 - Weight(m, x, y)) * (Exp(m, x) + Exp(m, y)) == Exp(m, y)
    ensures Weight(m, x, y) + Weight(m, y, x) == 1.0
  {
    ExpPos(m, x);
    ExpPos(m, y);
    Fraction(Exp(m, x), Exp(m, y));
  }

  lemma Fraction(a: real, c: real)
    requires a > 0.0 && c > 0.0
    ensures 0.0 < a / (a + c) < 1.0
    ensures a / (a + c) * (a + c) == a
    ensures (1.0 - a / (a + c)) * (a + c) == c
    ensures a / (a + c) + c / (c + a) == 1.0
  {
    var s := a + c;
    var p, r := a / s, c / s;
    assert p * s == a;
    assert r * s == c;
    Distribute(p, r, s);
    CancelPos(p + r, 1.0, s);
  }

  /** Growth of the log-sum-exp when the first argument moves by t. */
  ghost function Growth(p: real, e: real): real { 1.0 - p + p * e }

  lemma LseStep(m: Maths, x: real, y: real, t: real)
    requires Valid(m)
    ensures Growth(Weight(m, x, y), Exp(m, t)) > 0.0
    ensures Lse(m, x + t, y) == Lse(m, x, y) + Ln(m, Growth(Weight(m, x, y), Exp(m, t)))
  {
    var p, e := Weight(m, x, y), Exp(m, t);
    var g, s := Growth(p, e), Exp(m, x) + Exp(m, y);
    ExpPos(m, t);
    WeightRange(m, x, y);
    assert p * e > 0.0;
    ExpLse(m, x, y);
    ExpOfLn(m, g);
    ExpSum(m, Lse(m, x, y), Ln(m, g));
    ExpSum(m, x, t);
    GrowthTimes(p, e, s, Exp(m, x), Exp(m, y));
    LseUnique(m, Lse(m, x, y) + Ln(m, g), x + t, y);
  }

  lemma GrowthTimes(p: real, e: real, s: real, a: real, c: real)
    requires p * s == a && (1.0 - p) * s == c
    ensures s * Growth(p, e) == a * e + c
  {
    calc {
      s * Growth(p, e);
    ==
      (1.0 - p) * s + (p * s) * e;
    ==
      c + a * e;
    }
  }

  /** Convexity, in the only form needed: r Exp(-pt) + p Exp(rt) >= 1 when p + r = 1. */
  lemma TwoPointBound(m: Maths, p: real, r: real, t: real)
    requires Valid(m) && 0.0 < p && 0.0 < r && p + r == 1.0
    ensures r * Exp(m, -(p * t)) + p * Exp(m, t - p * t) >= 1.0
    ensures t != 0.0 ==> r * Exp(m, -(p * t)) + p * Exp(m, t - p * t) > 1.0
  {
    var h := p * t;
    ExpTangent(m, -h);
    ExpTangent(m, t - h);
    if t != 0.0 {
      NonZeroProduct(p, t);
      ExpStrictTangent(m, -h);
    }
    AverageIdentity(p, r, t, h);
    WeightedSum(r, p, 1.0 - h, 1.0 + (t - h), Exp(m, -h), Exp(m, t - h), 1.0);
  }

  lemma NonZeroProduct(p: real, t: real)
    requires p != 0.0 && t != 0.0
    ensures p * t != 0.0
  {
  }

  lemma AverageIdentity(p: real, r: real, t: real, h: real)
    requires h == p * t && p + r == 1.0
    ensures r * (1.0 - h) + p * (1.0 + (t - h)) == 1.0
  {
    calc {
      r * (1.0 - h) + p * (1.0 + (t - h));
    ==
      (r + p) * (1.0 - h) + p * t;
    ==
      1.0 - h + p * t;
    }
  }

  lemma WeightedSum(r: real, p: real, a1: real, a2: real, e1: real, e2: real, sum: real)
    requires r > 0.0 && p > 0.0 && e1 >= a1 && e2 >= a2 && r * a1 + p * a2 == sum
    ensures r * e1 + p * e2 >= sum
    ensures e1 > a1 ==> r * e1 + p * e2 > sum
  {
    CancelPos(a1, e1, r);
    CancelPos(a2, e2, p);
  }

  /** The tangent line lies below the log-sum-exp, strictly away from the point. */
  lemma LseTangent(m: Maths, x: real, y: real, t: real)
    requires Valid(m)
    ensures Lse(m, x + t, y) - Lse(m, x, y) >= Weight(m, x, y) * t
    ensures t != 0.0 ==> Lse(m, x + t, y) - Lse(m, x, y) > Weight(m, x, y) * t
  {
    var p := Weight(m, x, y);
    var h, g := p * t, Growth(p, Exp(m, t));
    WeightRange(m, x, y);
    LseStep(m, x, y, t);
    TwoPointBound(m, p, 1.0 - p, t);
    ExpSum(m, t, -h);
    ExpNeg(m, h);
    ExpPos(m, h);
    ExpPos(m, -h);
    var k := Exp(m, -h);
    GrowthScaled(p, Exp(m, t), k);
    CancelPos(Exp(m, h), g, k);
    ExpOfLn(m, g);
    ExpReflects(m, h, Ln(m, g));
  }

  lemma GrowthScaled(p: real, e: real, k: real)
    ensures Growth(p, e) * k == (1.0 - p) * k + p * (e * k)
  {
  }

  // ---- The cost function at liquidity b ----

  /** Marginal price of the side holding `own` shares. */
  ghost function Price(m: Maths, own: real, other: real, b: real): real
    requires Valid(m) && b > 0.0
  {
    Weight(m, own / b, other / b)
  }

  lemma PriceRange(m: Maths, own: real, other: real, b: real)
    requires Valid(m) && b > 0.0
    ensures 0.0 < Price(m, own, other, b) < 1.0
    ensures Price(m, own, other, b) + Price(m, other, own, b) == 1.0
  {
    WeightRange(m, own / b, other / b);
  }

  /** The max shift does not change the cost: it is b Ln(Exp(qUp/b) + Exp(qDown/b)). */
  lemma CostIsUnshifted(m: Maths, qUp: real, qDown: real, b: real)
    requires Valid(m) && b > 0.0
    ensures Cost(m, qUp, qDown, b) == b * Ln(m, Exp(m, qUp / b) + Exp(m, qDown / b))
  {
    var x, y := qUp / b, qDown / b;
    var shift := Max(x, y);
    LseTranslate(m, x - shift, y - shift, shift);
    assert x - shift + shift == x && y - shift + shift == y;
  }

  lemma CostSymmetric(m: Maths, qUp: real, qDown: real, b: real)
    requires Valid(m) && b > 0.0
    ensures Cost(m, qUp, qDown, b) == Cost(m, qDown, qUp, b)
  {
    hide Cost;
    CostIsUnshifted(m, qUp, qDown, b);
    CostIsUnshifted(m, qDown, qUp, b);
  }

  lemma CostTranslate(m: Maths, own: real, other: real, b: real, t: real)
    requires Valid(m) && b > 0.0
    ensures Cost(m, own + t, other + t, b) == Cost(m, own, other, b) + t
  {
    hide Cost;
    var x, y, k := own / b, other / b, t / b;
    CostIsUnshifted(m, own, other, b);
    CostIsUnshifted(m, own + t, other + t, b);
    DivideAdd(own, t, b);
    DivideAdd(other, t, b);
    LseTranslate(m, x, y, k);
    Distribute(Lse(m, x, y), k, b);
  }

  /** Linear homogeneity: scaling the shares and b together scales the cost. */
  lemma CostHomogeneous(m: Maths, own: real, other: real, b: real, k: real,
                        own2: real, other2: real, b2: real)
    requires Valid(m) && b > 0.0 && k > 0.0
    requires own2 == k * own && other2 == k * other && b2 == k * b
    ensures b2 > 0.0
    ensures Cost(m, own2, other2, b2) == k * Cost(m, own, other, b)
    ensures Price(m, own2, other2, b2) == Price(m, own, other, b)
  {
    hide Cost;
    CancelPos(0.0, k, b);
    CostIsUnshifted(m, own, other, b);
    CostIsUnshifted(m, own2, other2, b2);
    ScaledQuotient(own, b, k);
    ScaledQuotient(other, b, k);
    var l := Lse(m, own / b, other / b);
    assert k * b * l == k * (b * l);
  }

  /** Every tangent lies below the cost: a buyer of v - u shares (a seller, if negative)
      moves the cost by more than the marginal price at u times the shares. */
  lemma CostTangent(m: Maths, u: real, other: real, b: real, v: real)
    requires Valid(m) && b > 0.0
    ensures Cost(m, v, other, b) - Cost(m, u, other, b) >= Price(m, u, other, b) * (v - u)
    ensures u != v ==> Cost(m, v, other, b) - Cost(m, u, other, b) > Price(m, u, other, b) * (v - u)
  {
    hide Cost;
    var x, y, t := u / b, other / b, (v - u) / b;
    var p := Weight(m, x, y);
    CostIsUnshifted(m, u, other, b);
    CostIsUnshifted(m, v, other, b);
    DivideAdd(u, v - u, b);
    assert u + (v - u) == v;
    LseTangent(m, x, y, t);
    ScaledTangent(b, Lse(m, x + t, y), Lse(m, x, y), p, t, v - u);
  }

  lemma ScaledTangent(b: real, l2: real, l1: real, p: real, t: real, s: real)
    requires b > 0.0 && b * t == s && l2 - l1 >= p * t
    ensures b * l2 - b * l1 >= p * s
    ensures l2 - l1 > p * t ==> b * l2 - b * l1 > p * s
  {
    CancelPos(p * t, l2 - l1, b);
    assert p * t * b == p * s;
    assert (l2 - l1) * b == b * l2 - b * l1;
  }

  /** Slippage: the cost of a block lies strictly between its size times the marginal
      prices before and after; so the cost is increasing and 1-Lipschitz. */
  lemma SlippageSandwich(m: Maths, u: real, v: real, other: real, b: real)
    requires Valid(m) && b > 0.0 && u < v
    ensures Price(m, u, other, b) * (v - u) < Cost(m, v, other, b) - Cost(m, u, other, b)
    ensures Cost(m, v, other, b) - Cost(m, u, other, b) < Price(m, v, other, b) * (v - u)
    ensures 0.0 < Cost(m, v, other, b) - Cost(m, u, other, b) < v - u
    ensures Price(m, u, other, b) < Price(m, v, other, b)
  {
    hide Cost;
    var p1, p2 := Price(m, u, other, b), Price(m, v, other, b);
    var rise := Cost(m, v, other, b) - Cost(m, u, other, b);
    CostTangent(m, u, other, b, v);
    CostTangent(m, v, other, b, u);
    PriceRange(m, u, other, b);
    PriceRange(m, v, other, b);
    Between(p1, p2, rise, v - u);
  }

  lemma Between(p1: real, p2: real, rise: real, s: real)
    requires s > 0.0 && 0.0 < p1 && p2 < 1.0 && rise > p1 * s && -rise > p2 * -s
    ensures p1 * s < rise < p2 * s
    ensures 0.0 < rise < s
    ensures p1 < p2
  {
    CancelPos(0.0, p1, s);
    CancelPos(p1, p2, s);
    calc {
      rise;
    <
      p2 * s;
    <  { CancelPos(p2, 1.0, s); }
      s;
    }
  }

  /** The cost exceeds the larger holding, by at most b Ln 2. */
  lemma CostBounds(m: Maths, qUp: real, qDown: real, b: real)
    requires Valid(m) && b > 0.0
    ensures Max(qUp, qDown) < Cost(m, qUp, qDown, b) <= Max(qUp, qDown) + b * Ln(m, 2.0)
  {
    hide Cost;
    CostSymmetric(m, qUp, qDown, b);
    if qDown <= qUp {
      CostBoundsOrdered(m, qUp, qDown, b);
    } else {
      CostBoundsOrdered(m, qDown, qUp, b);
    }
  }

  lemma CostBoundsOrdered(m: Maths, high: real, low: real, b: real)
    requires Valid(m) && b > 0.0 && low <= high
    ensures high < Cost(m, high, low, b) <= high + b * Ln(m, 2.0)
  {
    hide Cost;
    var x, y := high / b, low / b;
    assert b * x == high && b * y == low;
    CancelPos(y, x, b);
    ExpReflects(m, y, x);
    ExpPos(m, x);
    ExpPos(m, y);
    CostIsUnshifted(m, high, low, b);
    var l := Lse(m, x, y);
    ExpLse(m, x, y);
    ExpReflects(m, x, l);
    ExpOfLn(m, 2.0);
    ExpSum(m, x, Ln(m, 2.0));
    ExpReflects(m, l, x + Ln(m, 2.0));
    CancelPos(x, l, b);
    CancelPos(l, x + Ln(m, 2.0), b);
    Distribute(x, Ln(m, 2.0), b);
  }

  /** The displayed rating is ten times the marginal UP price; its clamp never acts. */
  lemma RatingIsPrice(m: Maths, qUp: real, qDown: real, b: real)
    requires Valid(m) && b > 0.0
    ensures Rating(m, qUp, qDown, b) == 10.0 * Price(m, qUp, qDown, b)
    ensures 0.0 < Rating(m, qUp, qDown, b) < 10.0
  {
    var x, y := qUp / b, qDown / b;
    var shift := Max(x, y);
    ExpPos(m, x - shift);
    ExpPos(m, y - shift);
    ExpPos(m, shift);
    ExpSum(m, x - shift, shift);
    ExpSum(m, y - shift, shift);
    assert x - shift + shift == x && y - shift + shift == y;
    CommonFactor(Exp(m, x - shift), Exp(m, y - shift), Exp(m, shift));
    WeightRange(m, x, y);
  }

  lemma CommonFactor(a: real, c: real, k: real)
    requires a > 0.0 && c > 0.0 && k > 0.0
    ensures a * k + c * k > 0.0
    ensures a * k / (a * k + c * k) == a / (a + c)
  {
    Distribute(a, c, k);
    CancelPos(0.0, a + c, k);
    ScaledQuotient(a, a + c, k);
  }
}
