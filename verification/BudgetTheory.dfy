/** What a budget buys at fixed b: the log1p inverse, its clamp, truncation, price impact. */
module BudgetTheory {
  import opened Arithmetic
  import opened ExpLn
  import opened Lmsr
  import opened LmsrTheory

  /** The guard under which the clamp of the exponent leaves it alone. */
  ghost predicate ClampIdle(m: Maths, own: real, other: real, b: real, budget: real)
    requires b > 0.0
  {
    (other - (Cost(m, own, other, b) + budget)) / b <= -CLAMP
  }

  /** Holding after the buy, before the final max with zero. */
  ghost function Target(m: Maths, own: real, other: real, b: real, budget: real): real
    requires b > 0.0
  {
    var newCost := Cost(m, own, other, b) + budget;
    b * (newCost / b + Ln(m, 1.0 - Exp(m, Exponent(other, newCost, b))))
  }

  /** Shares bought on the side holding `own`. */
  ghost function Bought(m: Maths, own: real, other: real, b: real, budget: real): real
    requires b > 0.0
  {
    SharesForBudget(m, own, other, b, budget, true)
  }

  /** A DOWN buy is an UP buy on the mirrored market, and a DOWN sale likewise. */
  lemma DownMirrorsUp(m: Maths, qUp: real, qDown: real, b: real, x: real)
    requires Valid(m) && b > 0.0
    ensures SharesForBudget(m, qUp, qDown, b, x, false) == SharesForBudget(m, qDown, qUp, b, x, true)
    ensures SellRefundDown(m, qUp, qDown, b, x) == SellRefundUp(m, qDown, qUp, b, x)
  {
    hide Cost;
    CostSymmetric(m, qUp, qDown, b);
    CostSymmetric(m, qUp, qDown - x, b);
  }

  lemma CostUnique(m: Maths, c: real, own: real, other: real, b: real)
    requires Valid(m) && b > 0.0
    requires Exp(m, c / b) == Exp(m, own / b) + Exp(m, other / b)
    ensures c == Cost(m, own, other, b)
  {
    hide Cost;
    LseUnique(m, c / b, own / b, other / b);
    CostIsUnshifted(m, own, other, b);
    assert b * (c / b) == c;
  }

  lemma ExpCost(m: Maths, own: real, other: real, b: real)
    requires Valid(m) && b > 0.0
    ensures Exp(m, Cost(m, own, other, b) / b) == Exp(m, own / b) + Exp(m, other / b)
  {
    hide Cost;
    CostIsUnshifted(m, own, other, b);
    var l := Lse(m, own / b, other / b);
    QuotientUnique(b * l, b, l);
    assert Cost(m, own, other, b) == b * l;
    ExpLse(m, own / b, other / b);
  }

  lemma ExponentNegative(m: Maths, own: real, other: real, b: real, budget: real)
    requires Valid(m) && b > 0.0 && budget > 0.0
    ensures (other - (Cost(m, own, other, b) + budget)) / b < 0.0
    ensures Exponent(other, Cost(m, own, other, b) + budget, b) < 0.0
  {
    hide Cost;
    CostBounds(m, own, other, b);
    var gap := other - (Cost(m, own, other, b) + budget);
    assert gap / b * b == gap;
    CancelPos(gap / b, 0.0, b);
  }

  /** The target solves Exp(target/b) = Exp(newCost/b) (1 - Exp(exponent)). */
  lemma ExpTarget(m: Maths, own: real, other: real, b: real, budget: real)
    requires Valid(m) && b > 0.0 && budget > 0.0
    ensures var newCost := Cost(m, own, other, b) + budget;
            Exp(m, Target(m, own, other, b, budget) / b)
            == Exp(m, newCost / b) - Exp(m, newCost / b + Exponent(other, newCost, b))
  {
    hide Cost;
    var newCost := Cost(m, own, other, b) + budget;
    var e := Exponent(other, newCost, b);
    var z := 0.0;
    ExponentNegative(m, own, other, b, budget);
    ExpMono(m, e, z);
    ExpZero(m, z);
    var kept := 1.0 - Exp(m, e);
    ExpOfLn(m, kept);
    var l := newCost / b + Ln(m, kept);
    QuotientUnique(b * l, b, l);
    assert Target(m, own, other, b, budget) == b * l;
    ExpSum(m, newCost / b, Ln(m, kept));
    ExpSum(m, newCost / b, e);
    assert Exp(m, newCost / b) * kept == Exp(m, newCost / b) - Exp(m, newCost / b) * Exp(m, e);
  }

  /** The cost at the target: the budget is spent exactly if and only if the clamp is idle;
      a clamped trade moves the cost by more than the budget. */
  lemma CostAtTarget(m: Maths, own: real, other: real, b: real, budget: real)
    requires Valid(m) && b > 0.0 && budget > 0.0
    ensures var spent := Cost(m, Target(m, own, other, b, budget), other, b) - Cost(m, own, other, b);
            spent >= budget && (spent == budget <==> ClampIdle(m, own, other, b, budget))
  {
    hide Cost;
    var newCost := Cost(m, own, other, b) + budget;
    var target := Target(m, own, other, b, budget);
    var free := (other - newCost) / b;
    DivideAdd(newCost, other - newCost, b);
    assert newCost + (other - newCost) == other;
    assert newCost / b + free == other / b;
    ExpTarget(m, own, other, b, budget);
    ExpCost(m, target, other, b);
    if ClampIdle(m, own, other, b, budget) {
      CostUnique(m, newCost, target, other, b);
    } else {
      ExpMono(m, newCost / b + -CLAMP, newCost / b + free);
      ExpReflects(m, newCost / b, Cost(m, target, other, b) / b);
      DivideReflects(newCost, Cost(m, target, other, b), b);
    }
  }

  lemma CostMono(m: Maths, u: real, v: real, other: real, b: real)
    requires Valid(m) && b > 0.0
    ensures u < v <==> Cost(m, u, other, b) < Cost(m, v, other, b)
    ensures u == v <==> Cost(m, u, other, b) == Cost(m, v, other, b)
  {
    hide Cost;
    if u < v {
      SlippageSandwich(m, u, v, other, b);
    } else if v < u {
      SlippageSandwich(m, v, u, other, b);
    }
  }

  /** Budget inversion: the shares bought are positive, they lead to the target, and they
      move the cost by the budget exactly, unless the clamp acts. */
  lemma BudgetInversion(m: Maths, own: real, other: real, b: real, budget: real)
    requires Valid(m) && b > 0.0 && budget > 0.0
    ensures var s := Bought(m, own, other, b, budget);
            var spent := Cost(m, own + s, other, b) - Cost(m, own, other, b);
            && s > 0.0 && own + s == Target(m, own, other, b, budget)
            && spent >= budget
            && (spent == budget <==> ClampIdle(m, own, other, b, budget))
  {
    hide Cost;
    CostAtTarget(m, own, other, b, budget);
    CostMono(m, own, Target(m, own, other, b, budget), other, b);
  }

  /** Bounds on exponentials multiply. */
  lemma ExpAtLeast(m: Maths, x: real, y: real, a: real, c: real, product: real)
    requires Valid(m) && 0.0 <= a <= Exp(m, x) && 0.0 <= c <= Exp(m, y) && product == a * c
    ensures Exp(m, x + y) >= product
  {
    ExpSum(m, x, y);
    ScaleMono(a, Exp(m, x), c);
    ScaleMono(c, Exp(m, y), Exp(m, x));
  }

  /** Exp(-20) >= 4^-20, by squaring from Exp(-1/2) >= 1/2. */
  lemma ExpMinusTwenty(m: Maths)
    requires Valid(m)
    ensures Exp(m, -20.0) >= 0.0000000000005
  {
    ExpTangent(m, -0.5);
    ExpAtLeast(m, -0.5, -0.5, 0.5, 0.5, 0.25);
    ExpAtLeast(m, -1.0, -1.0, 0.25, 0.25, 0.0625);
    ExpAtLeast(m, -2.0, -2.0, 0.0625, 0.0625, 0.00390625);
    ExpAtLeast(m, -4.0, -1.0, 0.0039, 0.25, 0.000975);
    ExpAtLeast(m, -5.0, -5.0, 0.00097, 0.00097, 0.0000009409);
    ExpAtLeast(m, -10.0, -10.0, 0.0000009, 0.0000009, 0.00000000000081);
  }

  lemma ExpClampSmall(m: Maths)
    requires Valid(m)
    ensures Exp(m, CLAMP) <= 1.0 + 2.0 * CLAMP
  {
    ExpNeg(m, CLAMP);
    ExpTangent(m, -CLAMP);
    var e, room := Exp(m, CLAMP), 1.0 + 2.0 * CLAMP;
    ExpPos(m, CLAMP);
    ScaleMono(1.0 - CLAMP, Exp(m, -CLAMP), e);
    assert e * (1.0 - CLAMP) <= 1.0 <= room * (1.0 - CLAMP);
    CancelPos(e, room, 1.0 - CLAMP);
  }

  /** Unless the other side leads by more than 20 b, the cost clears it by a margin. */
  lemma CostClearsOther(m: Maths, own: real, other: real, b: real)
    requires Valid(m) && b > 0.0 && other - own <= 20.0 * b
    ensures Cost(m, own, other, b) - other >= CLAMP * b
  {
    hide Cost;
    var x, y, c := own / b, other / b, Cost(m, own, other, b) / b;
    assert x * b == own && y * b == other && c * b == Cost(m, own, other, b);
    DifferenceOverB(x, y, b, own, other, 20.0);
    ExpMinusTwenty(m);
    ExpReflects(m, -20.0, x - y);
    ExpSum(m, y, x - y);
    assert y + (x - y) == x;
    ExpCost(m, own, other, b);
    ExpClampSmall(m);
    ExpSum(m, y, CLAMP);
    ExpPos(m, y);
    SumAbove(Exp(m, y), Exp(m, x - y), Exp(m, CLAMP), Exp(m, x));
    ExpReflects(m, y + CLAMP, c);
    Margin(y, c, b, CLAMP, other, Cost(m, own, other, b));
  }

  lemma SumAbove(e: real, ratio: real, clamp: real, own: real)
    requires e > 0.0 && ratio >= 0.0000000000005 && clamp <= 1.0 + 2.0 * CLAMP && own == e * ratio
    ensures own + e >= e * clamp
  {
    assert clamp <= ratio + 1.0;
    ScaleMono(clamp, ratio + 1.0, e);
  }

  lemma Margin(y: real, c: real, b: real, gap: real, other: real, cost: real)
    requires b > 0.0 && y + gap <= c && y * b == other && c * b == cost
    ensures cost - other >= gap * b
  {
    CancelPos(y + gap, c, b);
    assert (y + gap) * b == y * b + gap * b;
  }

  /** The clamp is idle for every budget of at least 1e-15 b, and for every budget at all
      unless the other side leads by more than 20 b. */
  lemma ClampIdleWhen(m: Maths, own: real, other: real, b: real, budget: real)
    requires Valid(m) && b > 0.0 && budget > 0.0
    requires budget >= 0.000000000000001 * b || other - own <= 20.0 * b
    ensures ClampIdle(m, own, other, b, budget)
  {
    hide Cost;
    var newCost := Cost(m, own, other, b) + budget;
    if other - own <= 20.0 * b {
      CostClearsOther(m, own, other, b);
    } else {
      CostBounds(m, own, other, b);
    }
    assert other - newCost <= -(CLAMP * b);
    QuotientUnique(-(CLAMP * b), b, -CLAMP);
    DivideReflects(other - newCost, -(CLAMP * b), b);
  }

  /** With an alpha of at least 0.05 no lead exceeds 20 b, whatever the floor: the clamp never
      acts, however small the budget. */
  lemma ClampNeverActs(m: Maths, bMin: real, alpha: real, own: real, other: real, floor: real, budget: real)
    requires Valid(m) && bMin > 0.0 && alpha >= 0.05 && own >= 0.0 && other >= 0.0 && budget > 0.0
    ensures var b := EffectiveB(bMin, alpha, own, other, floor);
            b > 0.0 && ClampIdle(m, own, other, b, budget)
  {
    var b := EffectiveB(bMin, alpha, own, other, floor);
    ScaleMono(0.05, alpha, own + other);
    assert alpha * (own + other) >= 0.05 * (own + other);
    assert b >= bMin + 0.05 * (own + other);
    ClampIdleWhen(m, own, other, b, budget);
  }

  /** With a smaller alpha it can: at b = 1 and 64 shares against none, 1e-16 points are
      clamped, and the trade is granted shares worth more than it pays. */
  lemma ClampCanAct(m: Maths)
    requires Valid(m)
    ensures EffectiveB(1.0, 0.0, 0.0, 64.0, 0.0) == 1.0
    ensures !ClampIdle(m, 0.0, 64.0, 1.0, 0.0000000000000001)
    ensures var s := SharesForBudget(m, 0.0, 64.0, 1.0, 0.0000000000000001, true);
            Cost(m, s, 64.0, 1.0) - Cost(m, 0.0, 64.0, 1.0) > 0.0000000000000001
  {
    hide Cost;
    var own, other, b, budget, over := 0.0, 64.0, 1.0, 0.0000000000000001, 0.0000000000000009;
    ExpTangent(m, b);
    ExpAtLeast(m, 1.0, 1.0, 2.0, 2.0, 4.0);
    ExpAtLeast(m, 2.0, 2.0, 4.0, 4.0, 16.0);
    ExpAtLeast(m, 4.0, 4.0, 16.0, 16.0, 256.0);
    ExpAtLeast(m, 8.0, 8.0, 256.0, 256.0, 65536.0);
    ExpAtLeast(m, 16.0, 16.0, 65536.0, 65536.0, 4294967296.0);
    ExpAtLeast(m, 32.0, 32.0, 4294967296.0, 4294967296.0, 18446744073709551616.0);
    ExpZero(m, own);
    ExpCost(m, own, other, b);
    ExpTangent(m, over);
    ExpSum(m, other, over);
    ScaleMono(1.0 + over, Exp(m, over), Exp(m, other));
    assert Exp(m, other) * over > 1.0;
    assert Exp(m, other) * (1.0 + over) == Exp(m, other) + Exp(m, other) * over;
    var c := Cost(m, own, other, b);
    assert own / b == own && other / b == other && c / b == c;
    ExpReflects(m, c, other + over);
    assert !ClampIdle(m, own, other, b, budget);
    BudgetInversion(m, own, other, b, budget);
    assert own + Bought(m, own, other, b, budget) == Bought(m, own, other, b, budget);
  }

  /** Truncating the shares by less than `loss` under-spends the budget by less than `loss`. */
  lemma TruncatedSpend(m: Maths, own: real, other: real, b: real, budget: real, s: real, loss: real)
    requires Valid(m) && b > 0.0 && budget > 0.0 && ClampIdle(m, own, other, b, budget)
    requires s <= Bought(m, own, other, b, budget) < s + loss
    ensures budget - loss < Cost(m, own + s, other, b) - Cost(m, own, other, b) <= budget
  {
    hide Cost;
    var full := Bought(m, own, other, b, budget);
    BudgetInversion(m, own, other, b, budget);
    if s < full {
      SlippageSandwich(m, own + s, own + full, other, b);
    }
  }

  /** The price of the other side is Exp((other - cost)/b). */
  lemma OtherPrice(m: Maths, own: real, other: real, b: real)
    requires Valid(m) && b > 0.0
    ensures 1.0 - Price(m, own, other, b) == Exp(m, (other - Cost(m, own, other, b)) / b)
  {
    hide Cost;
    var c, p := Cost(m, own, other, b), Price(m, own, other, b);
    var k := (other - c) / b;
    ExpCost(m, own, other, b);
    WeightRange(m, own / b, other / b);
    DivideAdd(c, other - c, b);
    assert c + (other - c) == other;
    ExpSum(m, c / b, k);
    ExpPos(m, c / b);
    CancelPos(1.0 - p, Exp(m, k), Exp(m, c / b));
  }

  /** Price impact: a buy of `budget` multiplies the opposite price by exactly
      Exp(-budget/b), so its own price rises, by at most (1 - price) budget / b. */
  lemma PriceImpact(m: Maths, own: real, other: real, b: real, budget: real)
    requires Valid(m) && b > 0.0 && budget > 0.0 && ClampIdle(m, own, other, b, budget)
    ensures var before := Price(m, own, other, b);
            var after := Price(m, own + Bought(m, own, other, b, budget), other, b);
            && 1.0 - after == (1.0 - before) * Exp(m, -(budget / b))
            && 0.0 < after - before <= (1.0 - before) * (budget / b)
  {
    hide Cost, Price, SharesForBudget, ClampIdle;
    var s := Bought(m, own, other, b, budget);
    var before, after := Price(m, own, other, b), Price(m, own + s, other, b);
    var q := budget / b;
    BudgetInversion(m, own, other, b, budget);
    OtherPriceDecays(m, own, own + s, other, b, budget);
    ExpTangent(m, -q);
    PriceRange(m, own, other, b);
    SlippageSandwich(m, own, own + s, other, b);
    ImpactBound(1.0 - before, 1.0 - after, Exp(m, -q), q);
  }

  lemma OtherPriceDecays(m: Maths, own: real, own2: real, other: real, b: real, budget: real)
    requires Valid(m) && b > 0.0 && Cost(m, own2, other, b) - Cost(m, own, other, b) == budget
    ensures 1.0 - Price(m, own2, other, b) == (1.0 - Price(m, own, other, b)) * Exp(m, -(budget / b))
  {
    hide Cost, Price;
    var c, q := Cost(m, own, other, b), budget / b;
    OtherPrice(m, own, other, b);
    OtherPrice(m, own2, other, b);
    DivideAdd(other - c, -budget, b);
    assert other - c + -budget == other - Cost(m, own2, other, b);
    assert q * b == budget;
    QuotientUnique(-budget, b, -q);
    ExpSum(m, (other - c) / b, -q);
  }

  lemma ImpactBound(left: real, rest: real, e: real, q: real)
    requires left > 0.0 && e >= 1.0 - q && rest == left * e
    ensures left - rest <= left * q
  {
    CancelPos(1.0 - q, e, left);
    assert left * (1.0 - q) == left - left * q;
  }

  /** The floor exactly: on the effective user count n it is b_base scaled by how far n falls
      short of the target population, and b_base itself from there on. */
  lemma FloorExactly(nUsers: int, bBase: real, nTarget: int, nMin: int)
    requires bBase > 0.0 && MaxInt(nMin, nUsers) > 0
    ensures var n := MaxInt(nMin, nUsers);
            BFloorForUsers(nUsers, bBase, nTarget, nMin) * n as real == bBase * MaxInt(n, nTarget) as real
  {
    var n := MaxInt(nMin, nUsers) as real;
    var ratio := nTarget as real / n;
    assert ratio * n == nTarget as real;
    CancelPos(1.0, ratio, n);
    Reassociate(bBase, Max(1.0, ratio), n);
  }

  /** More users never raise the floor; below n_min they do not move it, and from the target
      population on it is b_base. */
  lemma FloorFalls(nUsers: int, more: int, bBase: real, nTarget: int, nMin: int)
    requires bBase > 0.0 && MaxInt(nMin, nUsers) > 0 && nUsers <= more
    ensures BFloorForUsers(more, bBase, nTarget, nMin) <= BFloorForUsers(nUsers, bBase, nTarget, nMin)
    ensures more <= nMin ==> BFloorForUsers(more, bBase, nTarget, nMin) == BFloorForUsers(nUsers, bBase, nTarget, nMin)
    ensures MaxInt(nMin, nUsers) >= nTarget <==> BFloorForUsers(nUsers, bBase, nTarget, nMin) == bBase
  {
    hide BFloorForUsers, Max;
    var n, n2, target := MaxInt(nMin, nUsers) as real, MaxInt(nMin, more) as real, nTarget as real;
    FloorAt(nUsers, bBase, nTarget, nMin, n, target);
    FloorAt(more, bBase, nTarget, nMin, n2, target);
    FactorFalls(bBase, target, n, n2);
  }

  lemma FloorAt(nUsers: int, bBase: real, nTarget: int, nMin: int, n: real, target: real)
    requires MaxInt(nMin, nUsers) > 0 && n == MaxInt(nMin, nUsers) as real && target == nTarget as real
    ensures BFloorForUsers(nUsers, bBase, nTarget, nMin) == bBase * Max(1.0, target / n)
  {
  }

  lemma FactorFalls(base: real, target: real, n: real, n2: real)
    requires base > 0.0 && 0.0 < n <= n2
    ensures base * Max(1.0, target / n2) <= base * Max(1.0, target / n)
    ensures target <= n <==> base * Max(1.0, target / n) == base
  {
    Shortfall(target, n);
    ShortfallFalls(target, n, n2);
    var factor, factor2 := Max(1.0, target / n), Max(1.0, target / n2);
    hide Max;
    CancelPos(factor2, factor, base);
    CancelPos(1.0, factor, base);
  }

  lemma Shortfall(target: real, n: real)
    requires n > 0.0
    ensures target <= n <==> Max(1.0, target / n) == 1.0
  {
    var ratio := target / n;
    assert ratio * n == target;
    CancelPos(ratio, 1.0, n);
  }

  lemma ShortfallFalls(target: real, n: real, n2: real)
    requires 0.0 < n <= n2
    ensures Max(1.0, target / n2) <= Max(1.0, target / n)
  {
    var ratio, ratio2 := target / n, target / n2;
    assert ratio * n == target && ratio2 * n2 == target;
    if ratio2 > 1.0 {
      CancelPos(n, n2, ratio2);
      CancelPos(ratio2, ratio, n);
    }
  }

  /** Whatever the user count, a b at or above the floor keeps the impact of a buy within
      budget / b_base, the design bound of the floor. */
  lemma FloorBoundsImpact(m: Maths, own: real, other: real, b: real, budget: real,
                          nUsers: int, bBase: real, nTarget: int, nMin: int)
    requires Valid(m) && budget > 0.0 && bBase > 0.0 && MaxInt(nMin, nUsers) != 0
    requires b >= BFloorForUsers(nUsers, bBase, nTarget, nMin)
    ensures b >= bBase
    ensures ClampIdle(m, own, other, b, budget) ==>
              Price(m, own + Bought(m, own, other, b, budget), other, b) - Price(m, own, other, b)
              <= budget / bBase
  {
    hide Cost;
    var k := Max(1.0, nTarget as real / MaxInt(nMin, nUsers) as real);
    CancelPos(1.0, k, bBase);
    if ClampIdle(m, own, other, b, budget) {
      PriceImpact(m, own, other, b, budget);
      PriceRange(m, own, other, b);
      WeakerQuotient(budget, bBase, b, 1.0 - Price(m, own, other, b));
    }
  }

  lemma WeakerQuotient(x: real, small: real, large: real, share: real)
    requires x > 0.0 && 0.0 < small <= large && 0.0 < share < 1.0
    ensures share * (x / large) <= x / small
  {
    var q, q0 := x / large, x / small;
    assert q * large == x && q0 * small == x;
    CancelPos(0.0, q, large);
    CancelPos(small, large, q);
    assert q * small <= q0 * small;
    CancelPos(q, q0, small);
    calc {
      share * q;
    <=  { CancelPos(share, 1.0, q); }
      q;
    <=
      q0;
    }
  }
}
