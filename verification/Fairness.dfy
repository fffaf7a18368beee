/** The recalibration of a market row as the worker leaves it, quantisation included: the
    rating barely moves and no unscaled holding is worth noticeably less. */
module Fairness {
  import opened ExpLn
  import opened Arithmetic
  import opened Lmsr
  import opened LmsrTheory
  import opened BudgetTheory
  import opened LiquidityTheory
  import opened Decimals
  import opened Trading
  import opened TradeTheory
  import opened Calibration

  function Gap(x: real, y: real): real { if x >= y then x - y else y - x }

  /** Rounding error of the effective b of a recalibrated market. */
  function BError(alpha: real): real { 0.00005 + alpha * 0.000001 }

  lemma GapSides(x: real, y: real)
    ensures x - y <= Gap(x, y) && y - x <= Gap(x, y)
  {
  }

  // ---- Small changes of the arguments of the cost ----

  lemma CostOneSide(m: Maths, u: real, v: real, other: real, b: real)
    requires Valid(m) && b > 0.0
    ensures Gap(Cost(m, u, other, b), Cost(m, v, other, b)) <= Gap(u, v)
  {
    hide Cost;
    if u < v {
      SlippageSandwich(m, u, v, other, b);
    } else if v < u {
      SlippageSandwich(m, v, u, other, b);
    }
  }

  lemma CostOfB(m: Maths, own: real, other: real, b: real, b2: real)
    requires Valid(m) && b > 0.0 && b2 > 0.0
    ensures Gap(Cost(m, own, other, b), Cost(m, own, other, b2)) <= Gap(b, b2)
  {
    hide Cost;
    if b <= b2 {
      CostDriftAtMost(m, own, other, b, b2);
    } else {
      CostDriftAtMost(m, own, other, b2, b);
    }
  }

  lemma CostDriftAtMost(m: Maths, own: real, other: real, b: real, b2: real)
    requires Valid(m) && 0.0 < b <= b2
    ensures 0.0 <= Cost(m, own, other, b2) - Cost(m, own, other, b) <= b2 - b
  {
    hide Cost;
    var l, rise := Ln(m, 2.0), b2 - b;
    CostDrift(m, own, other, b, b2);
    LnTwo(m);
    ScaleMono(l, 1.0, rise);
    assert rise * l <= rise;
  }

  lemma CostClose(m: Maths, u: real, d: real, b: real, u2: real, d2: real, b2: real)
    requires Valid(m) && b > 0.0 && b2 > 0.0
    ensures Gap(Cost(m, u, d, b), Cost(m, u2, d2, b2)) <= Gap(u, u2) + Gap(d, d2) + Gap(b, b2)
  {
    hide Cost;
    CostOneSide(m, u, u2, d, b);
    CostSymmetric(m, u2, d, b);
    CostSymmetric(m, u2, d2, b);
    CostOneSide(m, d, d2, u2, b);
    CostOfB(m, u2, d2, b, b2);
  }

  lemma RefundClose(m: Maths, u: real, d: real, b: real, u2: real, d2: real, b2: real, s: real)
    requires Valid(m) && b > 0.0 && b2 > 0.0 && s > 0.0
    ensures Gap(SellRefundUp(m, u, d, b, s), SellRefundUp(m, u2, d2, b2, s))
            <= 2.0 * (Gap(u, u2) + Gap(d, d2) + Gap(b, b2))
  {
    hide Cost;
    CostClose(m, u, d, b, u2, d2, b2);
    CostClose(m, u - s, d, b, u2 - s, d2, b2);
    SlippageSandwich(m, u - s, u, d, b);
    SlippageSandwich(m, u2 - s, u2, d2, b2);
  }

  // ---- Small changes of the price ----

  /** The price moves by at most the change of the imbalance in units of b. */
  lemma WeightClose(m: Maths, x: real, y: real, x2: real, y2: real)
    requires Valid(m) && x - y <= x2 - y2
    ensures 0.0 <= Weight(m, x2, y2) - Weight(m, x, y) <= (x2 - y2) - (x - y)
  {
    hide Weight;
    var d := (x2 - y2) - (x - y);
    if d > 0.0 {
      WeightOrder(m, x, y, x2, y2);
    }
    WeightRange(m, x, y);
    WeightRange(m, x2, y2);
    OddsOf(m, x, y);
    OddsOf(m, x2, y2);
    ExpSum(m, x - y, d);
    assert x - y + d == x2 - y2;
    ExpNeg(m, d);
    ExpTangent(m, -d);
    ExpPos(m, d);
    ExpPos(m, -d);
    ExpPos(m, x - y);
    ExpReflects(m, -d, 0.0);
    ExpZero(m, 0.0);
    ShareClose(1.0 - Weight(m, x, y), 1.0 - Weight(m, x2, y2), Exp(m, x - y), Exp(m, x2 - y2), Exp(m, d), Exp(m, -d));
    if d == 0.0 {
      ShareClose(1.0 - Weight(m, x2, y2), 1.0 - Weight(m, x, y), Exp(m, x2 - y2), Exp(m, x - y), 1.0, 1.0);
    }
  }

  lemma OddsOf(m: Maths, x: real, y: real)
    requires Valid(m)
    ensures (1.0 - Weight(m, x, y)) * (1.0 + Exp(m, x - y)) == 1.0
  {
    hide Weight;
    WeightRange(m, x, y);
    ExpPos(m, y);
    ExpSum(m, y, x - y);
    assert y + (x - y) == x;
    Odds(1.0 - Weight(m, x, y), Exp(m, x), Exp(m, y), Exp(m, x - y));
  }

  lemma Odds(rest: real, a: real, f: real, e: real)
    requires rest * (a + f) == f && a == f * e && f > 0.0
    ensures rest * (1.0 + e) == 1.0
  {
    assert (1.0 + e) * f == a + f;
    assert rest * (1.0 + e) * f == rest * (a + f);
    CancelPos(rest * (1.0 + e), 1.0, f);
  }

  /** With odds multiplied by e = 1/f, the rest falls by at most 1 - f. */
  lemma ShareClose(rest: real, rest2: real, odds: real, odds2: real, e: real, f: real)
    requires odds > 0.0 && e > 0.0 && 0.0 < f <= 1.0 && e * f == 1.0 && odds2 == odds * e
    requires 0.0 < rest < 1.0 && rest * (1.0 + odds) == 1.0 && rest2 * (1.0 + odds2) == 1.0
    ensures rest - rest2 <= 1.0 - f
  {
    var g, k := 1.0 - f, f + odds;
    assert odds2 * f == odds;
    Distribute(1.0, odds2, f);
    assert rest2 * k == rest2 * (1.0 + odds2) * f;
    assert rest2 * k == f;
    assert rest * k == 1.0 - rest * g;
    assert rest * odds == 1.0 - rest;
    assert (rest - rest2) * k == rest * odds * g;
    NonNegativeProduct(rest, g);
    ScaleMono(odds, k, rest * g);
    assert rest * g * k >= rest * odds * g;
    CancelPos(rest - rest2, rest * g, k);
    ScaleMono(rest, 1.0, g);
  }

  // ---- The recalibrated row ----

  /** The exact multiples that the row would hold without quantisation. */
  lemma RoundedShares(market: Market, target: real, k: real, dir: Direction, exact: real)
    requires MarketOk(market) && target > Milli4(market.bMin)
    requires k == Quotient(target, Milli4(market.bMin)) && exact == k * Micro(market.Own(dir))
    ensures Gap(Micro(Recalibrated(market, target).Own(dir)), exact) <= 0.0000005
  {
    hide Recalibrated, Quotient;
    RatchetOnlyRises(market, target);
    assert Micro(market.Own(dir)) * k == exact;
  }

  lemma RoundedBMin(market: Market, target: real, k: real)
    requires MarketOk(market) && target > Milli4(market.bMin) && k == Quotient(target, Milli4(market.bMin))
    ensures var r := Recalibrated(market, target);
            MarketOk(r) && r.alpha == market.alpha && Gap(Milli4(r.bMin), target) <= 0.00005
    ensures k > 1.0 && k * Milli4(market.bMin) == target
  {
    hide Recalibrated;
    RatchetOnlyRises(market, target);
  }

  lemma RoundedB(market: Market, target: real, floor: real, k: real, up: real, down: real)
    requires MarketOk(market) && target > Milli4(market.bMin)
    requires k == Quotient(target, Milli4(market.bMin)) && up == k * Micro(market.qUp) && down == k * Micro(market.qDown)
    ensures Gap(Recalibrated(market, target).B(floor), EffectiveB(target, market.alpha, up, down, floor))
            <= BError(market.alpha)
  {
    hide Recalibrated, Quotient, Gap, EffectiveB, BError;
    RoundedBMin(market, target, k);
    RoundedShares(market, target, k, UP, up);
    RoundedShares(market, target, k, DOWN, down);
    var r := Recalibrated(market, target);
    BClose(Milli4(r.bMin), target, market.alpha, floor, Micro(r.qUp), Micro(r.qDown), up, down);
  }

  lemma BClose(bMin: real, target: real, alpha: real, floor: real, u: real, d: real, u2: real, d2: real)
    requires alpha >= 0.0 && Gap(bMin, target) <= 0.00005 && Gap(u, u2) <= 0.0000005 && Gap(d, d2) <= 0.0000005
    ensures Gap(EffectiveB(bMin, alpha, u, d, floor), EffectiveB(target, alpha, u2, d2, floor)) <= BError(alpha)
  {
    GapSides(u, u2);
    GapSides(d, d2);
    hide Gap;
    NaturalClose(bMin, target, alpha, floor, u + d, u2 + d2, 0.000001, BError(alpha));
  }

  lemma NaturalClose(bMin: real, target: real, alpha: real, floor: real, q: real, q2: real, tick: real, error: real)
    requires alpha >= 0.0 && Gap(bMin, target) <= 0.00005 && q <= q2 + tick && q2 <= q + tick
    requires tick >= 0.0 && error == 0.00005 + alpha * tick
    ensures Gap(Max(bMin + alpha * q, floor), Max(target + alpha * q2, floor)) <= error
  {
    hide Gap, Max;
    var x, y, z := alpha * q, alpha * q2, alpha * tick;
    ScaledWithin(q, q2, tick, alpha, x, y, z);
    ScaledWithin(q2, q, tick, alpha, y, x, z);
    NonNegativeProduct(alpha, tick);
    MaxClose(bMin, target, floor, x, y, z);
  }

  lemma ScaledWithin(q: real, q2: real, tick: real, alpha: real, x: real, y: real, z: real)
    requires alpha >= 0.0 && q <= q2 + tick && x == alpha * q && y == alpha * q2 && z == alpha * tick
    ensures x <= y + z
  {
    ScaleMono(q, q2 + tick, alpha);
    Distribute(q2, tick, alpha);
  }

  lemma MaxClose(bMin: real, target: real, floor: real, x: real, y: real, z: real)
    requires Gap(bMin, target) <= 0.00005 && x <= y + z && y <= x + z && z >= 0.0
    ensures Gap(Max(bMin + x, floor), Max(target + y, floor)) <= 0.00005 + z
  {
  }

  /** On one side: the refund of a scaled and rounded market. */
  lemma RoundedRefund(m: Maths, own: real, other: real, bMin: real, alpha: real, k: real, s: real,
                      own2: real, other2: real, bMin2: real, u: real, d: real, b: real, error: real)
    requires Valid(m) && bMin > 0.0 && alpha >= 0.0 && own >= 0.0 && other >= 0.0 && k > 1.0 && s > 0.0
    requires own2 == k * own && other2 == k * other && bMin2 == k * bMin && b > 0.0
    requires Gap(u, own2) <= 0.0000005 && Gap(d, other2) <= 0.0000005
    requires Gap(b, EffectiveB(bMin2, alpha, own2, other2, 0.0)) <= error
    ensures EffectiveB(bMin, alpha, own, other, 0.0) > 0.0
    ensures var before := SellRefundUp(m, own, other, EffectiveB(bMin, alpha, own, other, 0.0), s);
            var slack := 2.0 * (0.000001 + error);
            before - slack < SellRefundUp(m, u, d, b, s) < k * before + slack
  {
    hide Cost, SellRefundUp, EffectiveB, Rating;
    PositiveB(bMin, alpha, own, other, 0.0);
    RecalibrationIsFair(m, own, other, bMin, alpha, k, s, own2, other2, bMin2);
    RefundClose(m, u, d, b, own2, other2, EffectiveB(bMin2, alpha, own2, other2, 0.0), s);
  }

  lemma RefundWithoutFloor(m: Maths, market: Market, target: real, dir: Direction, shares: int)
    requires Valid(m) && MarketOk(market) && target > Milli4(market.bMin) && shares > 0
    ensures market.B(0.0) > 0.0 && Recalibrated(market, target).B(0.0) > 0.0
    ensures var r, k := Recalibrated(market, target), Quotient(target, Milli4(market.bMin));
            var before := RawRefund(m, market, market.B(0.0), dir, shares);
            var slack := 2.0 * (0.000001 + BError(market.alpha));
            before - slack < RawRefund(m, r, r.B(0.0), dir, shares) < k * before + slack
  {
    hide Cost, Recalibrated, RawRefund, SellRefundUp, BError, Gap, EffectiveB, Quotient, CostOf;
    var r, k := Recalibrated(market, target), Quotient(target, Milli4(market.bMin));
    var up, down := k * Micro(market.qUp), k * Micro(market.qDown);
    var own, other := if dir == UP then up else down, if dir == UP then down else up;
    assert own == k * Micro(market.Own(dir)) && other == k * Micro(market.Other(dir));
    PositiveMarketB(market, 0.0);
    RoundedBMin(market, target, k);
    PositiveMarketB(r, 0.0);
    RoundedShares(market, target, k, dir, own);
    RoundedOther(market, target, k, dir, other);
    RoundedB(market, target, 0.0, k, up, down);
    EffectiveBSymmetric(Milli4(market.bMin), market.alpha, Micro(market.Own(dir)), Micro(market.Other(dir)), 0.0);
    EffectiveBSymmetric(target, market.alpha, own, other, 0.0);
    InOwnTerms(m, market, dir, market.B(0.0), 1.0, shares);
    InOwnTerms(m, r, dir, r.B(0.0), 1.0, shares);
    RoundedRefund(m, Micro(market.Own(dir)), Micro(market.Other(dir)), Milli4(market.bMin), market.alpha, k,
                  Micro(shares), own, other, target, Micro(r.Own(dir)), Micro(r.Other(dir)), r.B(0.0),
                  BError(market.alpha));
  }

  /** A floor that does not decide b before the recalibration does not after it either. */
  lemma FloorStaysIdle(market: Market, target: real, floor: real)
    requires MarketOk(market) && target > Milli4(market.bMin) && floor <= market.B(0.0)
    ensures market.B(floor) == market.B(0.0)
    ensures Recalibrated(market, target).B(floor) == Recalibrated(market, target).B(0.0)
  {
    hide Recalibrated, EffectiveB;
    RatchetOnlyRises(market, target);
    var r := Recalibrated(market, target);
    PositiveMarketB(market, 0.0);
    MicroOrder(market.qUp, r.qUp);
    MicroOrder(market.qDown, r.qDown);
    NaturalGrows(Milli4(market.bMin), Milli4(r.bMin), market.alpha, Micro(market.qUp), Micro(market.qDown),
                 Micro(r.qUp), Micro(r.qDown));
    FloorBelow(Milli4(market.bMin), market.alpha, Micro(market.qUp), Micro(market.qDown), floor);
    FloorBelow(Milli4(r.bMin), market.alpha, Micro(r.qUp), Micro(r.qDown), floor);
  }

  lemma NaturalGrows(bMin: real, bMin2: real, alpha: real, u: real, d: real, u2: real, d2: real)
    requires alpha >= 0.0 && bMin <= bMin2 && u <= u2 && d <= d2
    ensures EffectiveB(bMin, alpha, u, d, 0.0) <= EffectiveB(bMin2, alpha, u2, d2, 0.0)
  {
    var q, q2 := u + d, u2 + d2;
    var x, y := alpha * q, alpha * q2;
    ScaledWithin(q, q2, 0.0, alpha, x, y, 0.0);
    assert NaturalB(bMin, alpha, u, d) == bMin + x && NaturalB(bMin2, alpha, u2, d2) == bMin2 + y;
  }

  lemma FloorBelow(bMin: real, alpha: real, u: real, d: real, floor: real)
    requires bMin > 0.0 && alpha >= 0.0 && u >= 0.0 && d >= 0.0 && floor <= EffectiveB(bMin, alpha, u, d, 0.0)
    ensures EffectiveB(bMin, alpha, u, d, floor) == EffectiveB(bMin, alpha, u, d, 0.0)
  {
    NonNegativeProduct(alpha, u + d);
  }

  /** Fairness of the recalibration as the worker performs it, at the b a sale is priced with:
      where the floor does not decide b, the refund of an unscaled holding stays within
      [old, scale x old] up to the quantisation of the row; where it decides b before and
      after, the refund falls exactly if the imbalance moved against the holder. */
  lemma RecalibratedRefund(m: Maths, market: Market, target: real, floor: real, dir: Direction, shares: int)
    requires Valid(m) && MarketOk(market) && target > Milli4(market.bMin) && shares > 0
    ensures market.B(floor) > 0.0 && Recalibrated(market, target).B(floor) > 0.0
    ensures var r, k := Recalibrated(market, target), Quotient(target, Milli4(market.bMin));
            var before, after := RawRefund(m, market, market.B(floor), dir, shares), RawRefund(m, r, r.B(floor), dir, shares);
            var slack := 2.0 * (0.000001 + BError(market.alpha));
            && (floor <= market.B(0.0) ==> before - slack < after < k * before + slack)
            && (floor >= r.B(0.0) ==>
                  && (after < before <==> r.Own(dir) - r.Other(dir) < market.Own(dir) - market.Other(dir))
                  && (after == before <==> r.Own(dir) - r.Other(dir) == market.Own(dir) - market.Other(dir)))
  {
    hide Cost, CostOf, Recalibrated, RawRefund, SellRefundUp, BError, EffectiveB, Quotient;
    var r := Recalibrated(market, target);
    PositiveMarketB(market, floor);
    RatchetOnlyRises(market, target);
    PositiveMarketB(r, floor);
    RefundWithoutFloor(m, market, target, dir, shares);
    if floor <= market.B(0.0) {
      FloorStaysIdle(market, target, floor);
    }
    if floor >= r.B(0.0) {
      FloorDecides(market, target, floor);
      InOwnTerms(m, market, dir, floor, 1.0, shares);
      InOwnTerms(m, r, dir, floor, 1.0, shares);
      RefundByImbalance(m, Micro(market.Own(dir)), Micro(market.Other(dir)), Micro(r.Own(dir)), Micro(r.Other(dir)),
                        floor, Micro(shares));
      TickOrder(market.Own(dir), market.Other(dir), r.Own(dir), r.Other(dir));
    }
  }

  lemma FloorDecides(market: Market, target: real, floor: real)
    requires MarketOk(market) && target > Milli4(market.bMin) && floor >= Recalibrated(market, target).B(0.0)
    ensures market.B(floor) == floor && Recalibrated(market, target).B(floor) == floor
  {
    hide Recalibrated;
    RatchetOnlyRises(market, target);
    var r := Recalibrated(market, target);
    MicroOrder(market.qUp, r.qUp);
    MicroOrder(market.qDown, r.qDown);
    NaturalGrows(Milli4(market.bMin), Milli4(r.bMin), market.alpha, Micro(market.qUp), Micro(market.qDown),
                 Micro(r.qUp), Micro(r.qDown));
  }

  lemma TickOrder(u: int, d: int, u2: int, d2: int)
    ensures Micro(u2) - Micro(d2) < Micro(u) - Micro(d) <==> u2 - d2 < u - d
    ensures Micro(u2) - Micro(d2) == Micro(u) - Micro(d) <==> u2 - d2 == u - d
  {
  }

  /** Scaling moves the imbalance of the row away from balance, never back, and strictly so
      unless it is within a tick of rounding. */
  lemma ImbalanceGrows(market: Market, target: real, dir: Direction)
    requires MarketOk(market) && target > Milli4(market.bMin)
    ensures var r, k := Recalibrated(market, target), Quotient(target, Milli4(market.bMin));
            var before, after := market.Own(dir) - market.Other(dir), r.Own(dir) - r.Other(dir);
            && (before < 0 ==> after <= before)
            && (before > 0 ==> after >= before)
            && (before == 0 ==> after == 0)
            && (before < 0 && (k - 1.0) * -Micro(before) > 0.000001 ==> after < before)
  {
    hide HalfEven, Quotient;
    RoundedBMin(market, target, Quotient(target, Milli4(market.bMin)));
    var k := Quotient(target, Milli4(market.bMin));
    ScaledRow(market, target);
    var u, d := market.Own(dir), market.Other(dir);
    if u < d {
      ScaledApart(u, d, k);
    } else if d < u {
      ScaledApart(d, u, k);
    }
  }

  lemma ScaledRow(market: Market, target: real)
    requires MarketOk(market) && target > Milli4(market.bMin)
    ensures var r, k := Recalibrated(market, target), Quotient(target, Milli4(market.bMin));
            r.qUp == ScaledTicks(market.qUp, k) && r.qDown == ScaledTicks(market.qDown, k)
  {
  }

  lemma ScaledApart(low: int, high: int, k: real)
    requires low < high && k > 1.0
    ensures ScaledTicks(high, k) - ScaledTicks(low, k) >= high - low
    ensures (k - 1.0) * -Micro(low - high) > 0.000001 ==> ScaledTicks(high, k) - ScaledTicks(low, k) > high - low
  {
    hide HalfEven;
    var x, y, g := Micro(low) * k * 1000000.0, Micro(high) * k * 1000000.0, (high - low) as real;
    assert x == low as real * k && y == high as real * k;
    assert y - x == g * k;
    CancelPos(1.0, k, g);
    RoundsApart(x, y, high - low);
    assert -Micro(low - high) * 1000000.0 == g;
    if (k - 1.0) * -Micro(low - high) > 0.000001 {
      assert (k - 1.0) * g > 1.0;
      assert y - x > g + 1.0;
      RoundsApart(x, y, high - low + 1);
    }
  }

  lemma RoundsApart(x: real, y: real, d: int)
    requires y > x + d as real
    ensures HalfEven(y) >= HalfEven(x) + d
  {
  }

  lemma RoundedOther(market: Market, target: real, k: real, dir: Direction, exact: real)
    requires MarketOk(market) && target > Milli4(market.bMin)
    requires k == Quotient(target, Milli4(market.bMin)) && exact == k * Micro(market.Other(dir))
    ensures Gap(Micro(Recalibrated(market, target).Other(dir)), exact) <= 0.0000005
  {
    RoundedShares(market, target, k, if dir == UP then DOWN else UP, exact);
  }

  ghost function RatingAt(m: Maths, market: Market, floor: real): real
    requires market.B(floor) > 0.0
  {
    Rating(m, Micro(market.qUp), Micro(market.qDown), market.B(floor))
  }

  /** The rating of the quantised row, at any floor, is that of the exact multiples up to the
      quantisation. */
  lemma RatingNearExact(m: Maths, market: Market, target: real, floor: real, k: real, up: real, down: real)
    requires Valid(m) && Standard(market) && target > Milli4(market.bMin)
    requires k == Quotient(target, Milli4(market.bMin)) && up == k * Micro(market.qUp) && down == k * Micro(market.qDown)
    ensures Recalibrated(market, target).B(floor) > 0.0 && EffectiveB(target, market.alpha, up, down, floor) > 0.0
    ensures var r := Recalibrated(market, target);
            Gap(RatingAt(m, r, floor), Rating(m, up, down, EffectiveB(target, market.alpha, up, down, floor)))
            * r.B(floor) <= 10.0 * (0.000001 + 20.0 * BError(market.alpha))
  {
    hide Recalibrated, Rating, EffectiveB, BError, Gap, Quotient;
    var r := Recalibrated(market, target);
    RoundedBMin(market, target, k);
    NonNegativeProduct(k, Micro(market.qUp));
    NonNegativeProduct(k, Micro(market.qDown));
    RoundedShares(market, target, k, UP, up);
    RoundedShares(market, target, k, DOWN, down);
    RoundedB(market, target, floor, k, up, down);
    PositiveMarketB(r, floor);
    PositiveB(target, market.alpha, up, down, floor);
    LeadWithin(target, market.alpha, up, down, floor);
    BErrorPositive(market.alpha);
    RoundedRating(m, up, down, EffectiveB(target, market.alpha, up, down, floor), Micro(r.qUp), Micro(r.qDown),
                  r.B(floor), BError(market.alpha));
  }

  /** Where the floor does not decide b the rating stays within 10 (1e-6 + 20 BError) / b of
      the old one; where it decides b before and after, the rating moves exactly as the
      imbalance does. */
  lemma RecalibratedRating(m: Maths, market: Market, target: real, floor: real)
    requires Valid(m) && Standard(market) && target > Milli4(market.bMin)
    ensures market.B(floor) > 0.0 && Recalibrated(market, target).B(floor) > 0.0
    ensures var r := Recalibrated(market, target);
            && (floor <= market.B(0.0) ==>
                  Gap(RatingAt(m, r, floor), RatingAt(m, market, floor)) * r.B(floor)
                  <= 10.0 * (0.000001 + 20.0 * BError(market.alpha)))
            && (floor >= r.B(0.0) ==>
                  && (RatingAt(m, r, floor) < RatingAt(m, market, floor)
                      <==> r.qUp - r.qDown < market.qUp - market.qDown)
                  && (RatingAt(m, r, floor) > RatingAt(m, market, floor)
                      <==> r.qUp - r.qDown > market.qUp - market.qDown))
  {
    hide Recalibrated, Rating, EffectiveB, BError, Gap, Quotient;
    var r, k := Recalibrated(market, target), Quotient(target, Milli4(market.bMin));
    RoundedBMin(market, target, k);
    PositiveMarketB(market, floor);
    PositiveMarketB(r, floor);
    if floor <= market.B(0.0) {
      var up, down := k * Micro(market.qUp), k * Micro(market.qDown);
      RatingNearExact(m, market, target, floor, k, up, down);
      ScaledRating(m, market, target, floor, k, up, down);
    }
    if floor >= r.B(0.0) {
      FloorDecides(market, target, floor);
      RatingByImbalance(m, Micro(market.qUp), Micro(market.qDown), Micro(r.qUp), Micro(r.qDown), floor);
      RatingByImbalance(m, Micro(r.qUp), Micro(r.qDown), Micro(market.qUp), Micro(market.qDown), floor);
      TickOrder(market.qUp, market.qDown, r.qUp, r.qDown);
      TickOrder(r.qUp, r.qDown, market.qUp, market.qDown);
    }
  }

  lemma ScaledRating(m: Maths, market: Market, target: real, floor: real, k: real, ku: real, kd: real)
    requires Valid(m) && MarketOk(market) && target > Milli4(market.bMin) && floor <= market.B(0.0)
    requires k > 1.0 && k * Milli4(market.bMin) == target
    requires ku == k * Micro(market.qUp) && kd == k * Micro(market.qDown)
    ensures market.B(floor) > 0.0 && EffectiveB(target, market.alpha, ku, kd, floor) > 0.0
    ensures Rating(m, ku, kd, EffectiveB(target, market.alpha, ku, kd, floor)) == RatingAt(m, market, floor)
  {
    hide Rating, Cost, EffectiveB, Price;
    var u, d, bMin, alpha := Micro(market.qUp), Micro(market.qDown), Milli4(market.bMin), market.alpha;
    PositiveMarketB(market, 0.0);
    NonNegativeProduct(k, u);
    NonNegativeProduct(k, d);
    PositiveB(target, alpha, ku, kd, floor);
    FloorBelow(bMin, alpha, u, d, floor);
    EffectiveBScales(bMin, alpha, u, d, k, target, ku, kd);
    var natural, scaled := market.B(0.0), EffectiveB(target, alpha, ku, kd, 0.0);
    CancelPos(1.0, k, natural);
    assert scaled == k * natural && natural == EffectiveB(bMin, alpha, u, d, 0.0);
    assert natural < scaled;
    FloorBelow(target, alpha, ku, kd, floor);
    CostHomogeneous(m, u, d, market.B(0.0), k, ku, kd, EffectiveB(target, alpha, ku, kd, 0.0));
    RatingIsPrice(m, u, d, market.B(0.0));
    RatingIsPrice(m, ku, kd, EffectiveB(target, alpha, ku, kd, 0.0));
  }

  lemma RatingByImbalance(m: Maths, u: real, d: real, u2: real, d2: real, b: real)
    requires Valid(m) && b > 0.0
    ensures Rating(m, u2, d2, b) < Rating(m, u, d, b) <==> u2 - d2 < u - d
  {
    hide Rating, Price;
    RatingIsPrice(m, u, d, b);
    RatingIsPrice(m, u2, d2, b);
    if u2 - d2 < u - d {
      CancelPos(u2 - d2, u - d, b);
      PriceOrder(m, u2, d2, b, u, d, b);
    } else if u - d < u2 - d2 {
      CancelPos(u - d, u2 - d2, b);
      PriceOrder(m, u, d, b, u2, d2, b);
    } else {
      PriceGap(m, u, d, b, u2, d2, b);
      PriceGap(m, u2, d2, b, u, d, b);
      ImbalanceOverB(u, d, b, u / b - d / b);
      ImbalanceOverB(u2, d2, b, u2 / b - d2 / b);
      CancelPos(u / b - d / b, u2 / b - d2 / b, b);
    }
  }

  lemma BErrorPositive(alpha: real)
    requires alpha >= 0.0
    ensures BError(alpha) >= 0.0
  {
  }

  lemma RoundedRating(m: Maths, u: real, d: real, b: real, u2: real, d2: real, b2: real, error: real)
    requires Valid(m) && b > 0.0 && b2 > 0.0 && error >= 0.0
    requires Gap(u2, u) <= 0.0000005 && Gap(d2, d) <= 0.0000005 && Gap(b2, b) <= error
    requires Gap(u, d) <= 20.0 * b
    ensures Gap(Rating(m, u2, d2, b2), Rating(m, u, d, b)) * b2 <= 10.0 * (0.000001 + 20.0 * error)
  {
    hide Rating, Price;
    RatingIsPrice(m, u, d, b);
    RatingIsPrice(m, u2, d2, b2);
    PriceClose(m, u, d, b, u2, d2, b2, error);
    TenTimes(Price(m, u2, d2, b2), Price(m, u, d, b), b2);
  }

  lemma TenTimes(p: real, p2: real, b: real)
    ensures Gap(10.0 * p, 10.0 * p2) * b == 10.0 * (Gap(p, p2) * b)
  {
    assert Gap(10.0 * p, 10.0 * p2) == 10.0 * Gap(p, p2);
  }

  /** With an alpha of at least 0.05 neither side leads by more than 20 b. */
  lemma LeadWithin(bMin: real, alpha: real, u: real, d: real, floor: real)
    requires bMin > 0.0 && alpha >= 0.05 && u >= 0.0 && d >= 0.0
    ensures Gap(u, d) <= 20.0 * EffectiveB(bMin, alpha, u, d, floor)
  {
    ScaleMono(0.05, alpha, u + d);
    assert NaturalB(bMin, alpha, u, d) >= bMin + 0.05 * (u + d);
  }

  /** Prices of a market and of its rounding. */
  lemma PriceClose(m: Maths, u: real, d: real, b: real, u2: real, d2: real, b2: real, error: real)
    requires Valid(m) && b > 0.0 && b2 > 0.0 && error >= 0.0
    requires Gap(u2, u) <= 0.0000005 && Gap(d2, d) <= 0.0000005 && Gap(b2, b) <= error
    requires Gap(u, d) <= 20.0 * b
    ensures Gap(Price(m, u2, d2, b2), Price(m, u, d, b)) * b2 <= 0.000001 + 20.0 * error
  {
    hide Price, Gap;
    var x, x2 := u / b - d / b, u2 / b2 - d2 / b2;
    GapSides(u2, u);
    GapSides(d2, d);
    GapSides(b2, b);
    GapSides(u, d);
    ImbalanceOverB(u, d, b, x);
    ImbalanceOverB(u2, d2, b2, x2);
    ImbalanceClose(x, x2, u - d, b, u2 - d2, b2, error);
    PriceGap(m, u, d, b, u2, d2, b2);
    GapScaled(Gap(Price(m, u2, d2, b2), Price(m, u, d, b)), x2, x, b2, 0.000001 + 20.0 * error);
  }

  lemma ImbalanceOverB(u: real, d: real, b: real, x: real)
    requires b > 0.0 && x == u / b - d / b
    ensures x * b == u - d
  {
  }

  lemma GapScaled(p: real, x2: real, x: real, b: real, bound: real)
    requires b > 0.0 && p <= Gap(x2, x) && -bound <= (x2 - x) * b <= bound
    ensures p * b <= bound
  {
    ScaleMono(p, Gap(x2, x), b);
  }

  lemma PriceGap(m: Maths, u: real, d: real, b: real, u2: real, d2: real, b2: real)
    requires Valid(m) && b > 0.0 && b2 > 0.0
    ensures Gap(Price(m, u2, d2, b2), Price(m, u, d, b)) <= Gap(u2 / b2 - d2 / b2, u / b - d / b)
  {
    hide Weight;
    if u / b - d / b <= u2 / b2 - d2 / b2 {
      WeightClose(m, u / b, d / b, u2 / b2, d2 / b2);
    } else {
      WeightClose(m, u2 / b2, d2 / b2, u / b, d / b);
    }
  }

  lemma ImbalanceClose(x: real, x2: real, g: real, b: real, g2: real, b2: real, error: real)
    requires b > 0.0 && b2 > 0.0 && x * b == g && x2 * b2 == g2
    requires -0.000001 <= g2 - g <= 0.000001 && -error <= b2 - b <= error && error >= 0.0
    requires -(20.0 * b) <= g <= 20.0 * b
    ensures -(0.000001 + 20.0 * error) <= (x2 - x) * b2 <= 0.000001 + 20.0 * error
  {
    CancelPos(x, 20.0, b);
    CancelPos(-20.0, x, b);
    assert -20.0 * b == -(20.0 * b);
    assert -20.0 <= x <= 20.0;
    var slip := b2 - b;
    ProductWithin(x, slip, 20.0, error);
    assert x * b2 == g + x * slip;
    assert (x2 - x) * b2 == g2 - (g + x * slip);
  }

  lemma ProductWithin(x: real, y: real, a: real, c: real)
    requires -a <= x <= a && -c <= y <= c && a >= 0.0 && c >= 0.0
    ensures -(a * c) <= x * y <= a * c
  {
    ScaleMono(x, a, c + y);
    ScaleMono(-a, x, c + y);
    ScaleMono(x, a, c - y);
    ScaleMono(-a, x, c - y);
    assert (a - x) * (c + y) >= 0.0 && (a + x) * (c - y) >= 0.0;
    assert (a - x) * (c - y) >= 0.0 && (a + x) * (c + y) >= 0.0;
  }

  // ---- A holder who loses ----

  /** A market that two hundred users make due for recalibration, with the floor deciding b:
      b_min 100, 1000 UP shares, all of one user, against 11000 DOWN shares. */
  const LAGGING := Market(1000000, DEFAULT_ALPHA, 1000000000, 11000000000, 0)

  ghost function LaggingHolder(user: UserId, player: PlayerId): State {
    State(map[player := true], map[player := LAGGING], map[user := 0.0],
          map[PosKey(user, player, UP) := Position(1000000000, 1000000)], [], [])
  }

  lemma RecalibratedLagging()
    ensures Recalibrated(LAGGING, 200.0) == Market(2000000, DEFAULT_ALPHA, 2000000000, 22000000000, 0)
    ensures LAGGING.B(B_BASE) == B_BASE && Recalibrated(LAGGING, 200.0).B(B_BASE) == B_BASE
  {
    assert Quotient(200.0, Milli4(1000000)) == 2.0;
    WholeTicks(1000000000);
    WholeTicks(11000000000);
    assert D4(200.0) == 2000000;
  }

  lemma WholeTicks(q: int)
    ensures ScaledTicks(q, 2.0) == 2 * q
  {
    assert Micro(q) * 2.0 * 1000000.0 == (2 * q) as real;
  }

  /** The recalibration that the default configuration makes at two hundred users, at the floor
      of two hundred users, costs that holder more than 50 points of what a sale pays. */
  lemma HolderLoses(m: Maths, user: UserId, player: PlayerId)
    requires Valid(m)
    ensures CalibrateBMin(m, Config(100.0, 50), 200) == Some(200.0)
    ensures BFloorForUsers(200, B_BASE, 100, 5) == B_BASE
    ensures var st, key := LaggingHolder(user, player), PosKey(user, player, UP);
            && Positive(st.markets)
            && var before := Sell(m, st, B_BASE, key, 1000000000);
               var after := Sell(m, RecalibrateAll(st, 200.0), B_BASE, key, 1000000000);
               before.Ok? && after.Ok? && after.value.trade.amount < before.value.trade.amount - 50.0
  {
    hide Recalibrated, DisplayRating, RawRefund, D6, Price;
    TargetScalesWithRoot(m, Config(100.0, 50), 50, 200);
    RecalibratedLagging();
    LaggingPrices(m);
    var row, shares := Recalibrated(LAGGING, 200.0), 1000000000;
    RefundIsCostReleased(m, LAGGING, B_BASE, UP, shares);
    RefundIsCostReleased(m, row, B_BASE, UP, shares);
    D6Exact(RawRefund(m, LAGGING, B_BASE, UP, shares), 0);
    D6Exact(RawRefund(m, row, B_BASE, UP, shares), 0);
    assert LAGGING.Moved(UP, -shares).B(B_BASE) == B_BASE && row.Moved(UP, -shares).B(B_BASE) == B_BASE;
  }

  lemma LaggingPrices(m: Maths)
    requires Valid(m)
    ensures Price(m, 0.0, 11000.0, B_BASE) >= 0.216
    ensures Price(m, 2000.0, 22000.0, B_BASE) <= 0.165
  {
    hide Weight;
    ExpTangent(m, -0.275);
    ExpAtLeast(m, -0.275, -0.275, 0.725, 0.725, 0.525625);
    ExpAtLeast(m, -0.55, -0.55, 0.5256, 0.5256, 0.27625536);
    ExpTangent(m, 0.5);
    ExpAtLeast(m, 0.5, 0.5, 1.5, 1.5, 2.25);
    ExpAtLeast(m, 1.0, 1.0, 2.25, 2.25, 5.0625);
    ExpNeg(m, 2.0);
    ReciprocalBound(Exp(m, 2.0), Exp(m, -2.0), 5.0625);
    var low, high := Exp(m, -1.1), Exp(m, -2.0);
    OddsOf(m, 0.0 / B_BASE, 11000.0 / B_BASE);
    OddsOf(m, 2000.0 / B_BASE, 22000.0 / B_BASE);
    assert 0.0 / B_BASE - 11000.0 / B_BASE == -1.1 && 2000.0 / B_BASE - 22000.0 / B_BASE == -2.0;
    WeightRange(m, 0.0 / B_BASE, 11000.0 / B_BASE);
    WeightRange(m, 2000.0 / B_BASE, 22000.0 / B_BASE);
    ShareAbove(1.0 - Price(m, 0.0, 11000.0, B_BASE), low);
    ShareBelow(1.0 - Price(m, 2000.0, 22000.0, B_BASE), high);
  }

  lemma ShareAbove(rest: real, odds: real)
    requires rest > 0.0 && rest * (1.0 + odds) == 1.0 && odds >= 0.276
    ensures rest <= 0.784
  {
    ScaleMono(1.276, 1.0 + odds, rest);
  }

  lemma ShareBelow(rest: real, odds: real)
    requires rest > 0.0 && rest * (1.0 + odds) == 1.0 && odds <= 0.1976
    ensures rest >= 0.835
  {
    ScaleMono(1.0 + odds, 1.1976, rest);
  }
}
