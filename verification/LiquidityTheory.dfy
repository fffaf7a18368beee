/** What happens when b itself moves: between two trades, between tranches, at a
    recalibration.  Everything rests on the order of chord slopes of the convex cost. */
module LiquidityTheory {
  import opened Arithmetic
  import opened ExpLn
  import opened Lmsr
  import opened LmsrTheory
  import opened BudgetTheory

  // ---- Chords ----

  /** Average price of the block from u to v. */
  ghost function Slope(m: Maths, u: real, v: real, other: real, b: real): real
    requires b > 0.0 && u < v
  {
    (Cost(m, v, other, b) - Cost(m, u, other, b)) / (v - u)
  }

  lemma Median(rise1: real, rise2: real, h: real, k: real, p: real)
    requires h > 0.0 && k > 0.0 && rise1 < p * h && rise2 > p * k
    ensures rise1 / h < (rise1 + rise2) / (h + k) < rise2 / k
  {
    var w := h + k;
    var x, y, z := rise1 / h, rise2 / k, (rise1 + rise2) / w;
    assert x * h == rise1 && y * k == rise2;
    CancelPos(x, p, h);
    CancelPos(p, y, k);
    MedianOf(x, y, z, h, k, w);
  }

  lemma MedianOf(x: real, y: real, z: real, h: real, k: real, w: real)
    requires h > 0.0 && k > 0.0 && w == h + k && x < y && z == (x * h + y * k) / w
    ensures x < z < y
  {
    assert z * w == x * h + y * k;
    CancelPos(x, y, h);
    CancelPos(x, y, k);
    assert x * w == x * h + x * k;
    assert y * w == y * h + y * k;
    CancelPos(x, z, w);
    CancelPos(z, y, w);
  }

  lemma ThreeChords(m: Maths, u: real, v: real, w: real, other: real, b: real)
    requires Valid(m) && b > 0.0 && u < v < w
    ensures Slope(m, u, v, other, b) < Slope(m, u, w, other, b) < Slope(m, v, w, other, b)
  {
    hide Cost;
    SlippageSandwich(m, u, v, other, b);
    CostTangent(m, v, other, b, w);
    Median(Cost(m, v, other, b) - Cost(m, u, other, b), Cost(m, w, other, b) - Cost(m, v, other, b),
           v - u, w - v, Price(m, v, other, b));
  }

  /** Moving either end of a block up raises its average price. */
  lemma ChordOrder(m: Maths, u: real, v: real, u2: real, v2: real, other: real, b: real)
    requires Valid(m) && b > 0.0 && u < v && u2 < v2 && u <= u2 && v <= v2
    ensures Slope(m, u, v, other, b) <= Slope(m, u2, v2, other, b)
    ensures u < u2 || v < v2 ==> Slope(m, u, v, other, b) < Slope(m, u2, v2, other, b)
  {
    hide Cost;
    if v < v2 {
      ThreeChords(m, u, v, v2, other, b);
    }
    if u < u2 {
      ThreeChords(m, u, u2, v2, other, b);
    }
  }

  // ---- The cost of a fixed block as b changes ----

  ghost function BlockCost(m: Maths, own: real, other: real, b: real, s: real): real
    requires b > 0.0
  {
    Cost(m, own + s, other, b) - Cost(m, own, other, b)
  }

  /** Only the imbalance own - other matters. */
  lemma BlockByImbalance(m: Maths, own: real, other: real, b: real, s: real)
    requires Valid(m) && b > 0.0
    ensures BlockCost(m, own, other, b, s) == BlockCost(m, own - other, 0.0, b, s)
  {
    hide Cost;
    CostTranslate(m, own, other, b, -other);
    CostTranslate(m, own + s, other, b, -other);
    assert own + -other == own - other && own + s + -other == own - other + s && other + -other == 0.0;
  }

  /** Mirroring a block about balance: Cost(t) = Cost(-t) + t. */
  lemma BlockReflect(m: Maths, t: real, b: real, s: real)
    requires Valid(m) && b > 0.0
    ensures BlockCost(m, t, 0.0, b, s) == s - BlockCost(m, -t - s, 0.0, b, s)
  {
    hide Cost;
    CostReflect(m, t, b);
    CostReflect(m, t + s, b);
    assert -(t + s) == -t - s && -t - s + s == -t;
  }

  lemma CostReflect(m: Maths, t: real, b: real)
    requires Valid(m) && b > 0.0
    ensures Cost(m, t, 0.0, b) == Cost(m, -t, 0.0, b) + t
  {
    hide Cost;
    CostTranslate(m, -t, 0.0, b, t);
    CostSymmetric(m, t, 0.0, b);
    assert -t + t == 0.0 && 0.0 + t == t;
  }

  /** Scaling b by k scales a block of the imbalance line. */
  lemma BlockScales(m: Maths, t: real, b: real, s: real, k: real, t2: real, b2: real, s2: real)
    requires Valid(m) && b > 0.0 && k > 0.0 && t2 == k * t && b2 == k * b && s2 == k * s
    ensures b2 > 0.0
    ensures BlockCost(m, t2, 0.0, b2, s2) == k * BlockCost(m, t, 0.0, b, s)
  {
    hide Cost;
    assert k * (t + s) == t2 + s2;
    CostHomogeneous(m, t, 0.0, b, k, t2, 0.0, b2);
    CostHomogeneous(m, t + s, 0.0, b, k, t2 + s2, 0.0, b2);
    ScaledDifference(k, Cost(m, t + s, 0.0, b), Cost(m, t, 0.0, b));
  }

  lemma ScaledDifference(k: real, c2: real, c1: real)
    ensures k * (c2 - c1) == k * c2 - k * c1
  {
  }

  /** On the favoured side a fixed block gets strictly cheaper as b grows. */
  lemma FavouredBlockCheaper(m: Maths, t: real, b: real, b2: real, s: real)
    requires Valid(m) && 0.0 < b < b2 && t >= 0.0 && s > 0.0
    ensures BlockCost(m, t, 0.0, b2, s) < BlockCost(m, t, 0.0, b, s)
  {
    hide Cost;
    var k := b2 / b;
    var t1, s1 := t / k, s / k;
    assert k * b == b2;
    CancelPos(1.0, k, b);
    Shrink(t, s, k);
    BlockScales(m, t1, b, s1, k, t, b2, s);
    ChordOrder(m, t1, t1 + s1, t, t + s, 0.0, b);
    assert t1 + s1 - t1 == s1 && t + s - t == s;
    SlopeCompare(BlockCost(m, t1, 0.0, b, s1), BlockCost(m, t, 0.0, b, s), s1, s, k);
  }

  lemma Shrink(t: real, s: real, k: real)
    requires k > 1.0 && t >= 0.0 && s > 0.0
    ensures 0.0 <= t / k <= t && 0.0 < s / k < s
    ensures k * (t / k) == t && k * (s / k) == s
  {
    var t1, s1 := t / k, s / k;
    assert t1 * k == t && s1 * k == s;
    CancelPos(0.0, s1, k);
    CancelPos(0.0, t1, k);
    CancelPos(1.0, k, s1);
    ScaleMono(1.0, k, t1);
    assert k * t1 == t && k * s1 == s;
  }

  /** How the cost of a fixed block answers to b, exactly: it falls when the middle of the
      block is past balance, rises when it is short of it, and stays put at balance. */
  lemma BlockCostAgainstB(m: Maths, own: real, other: real, b: real, b2: real, s: real)
    requires Valid(m) && 0.0 < b < b2 && s > 0.0
    ensures BlockCost(m, own, other, b2, s) < BlockCost(m, own, other, b, s) <==> 2.0 * (own - other) + s > 0.0
    ensures BlockCost(m, own, other, b2, s) == BlockCost(m, own, other, b, s) <==> 2.0 * (own - other) + s == 0.0
  {
    hide Cost;
    var t := own - other;
    BlockByImbalance(m, own, other, b, s);
    BlockByImbalance(m, own, other, b2, s);
    BlockReflect(m, t, b, s);
    BlockReflect(m, t, b2, s);
    if 2.0 * t + s > 0.0 {
      PastBalanceCheaper(m, t, b, b2, s);
    } else if 2.0 * t + s < 0.0 {
      PastBalanceCheaper(m, -t - s, b, b2, s);
    } else {
      assert -t - s == t;
    }
  }

  /** A block whose middle is past balance: its part on the mirror image of the rest costs
      the same at every b, and what is left lies on the favoured side. */
  lemma PastBalanceCheaper(m: Maths, t: real, b: real, b2: real, s: real)
    requires Valid(m) && 0.0 < b < b2 && s > 0.0 && 2.0 * t + s > 0.0
    ensures BlockCost(m, t, 0.0, b2, s) < BlockCost(m, t, 0.0, b, s)
  {
    hide Cost;
    if t >= 0.0 {
      FavouredBlockCheaper(m, t, b, b2, s);
    } else {
      CostReflect(m, t, b);
      CostReflect(m, t, b2);
      FavouredBlockCheaper(m, -t, b, b2, 2.0 * t + s);
      assert -t + (2.0 * t + s) == t + s;
    }
  }

  /** The cost itself never falls as b grows, and rises by at most ln 2 per unit of b. */
  lemma CostDrift(m: Maths, own: real, other: real, b: real, b2: real)
    requires Valid(m) && 0.0 < b <= b2
    ensures 0.0 <= Cost(m, own, other, b2) - Cost(m, own, other, b) <= (b2 - b) * Ln(m, 2.0)
  {
    hide Cost;
    if b < b2 {
      var t := if own >= other then own - other else other - own;
      CostByLead(m, own, other, b);
      CostByLead(m, own, other, b2);
      DriftAtBalance(m, b, b2);
      if t > 0.0 {
        FavouredBlockCheaper(m, 0.0, b, b2, t);
        assert 0.0 + t == t;
      }
      LeadDrift(m, t, b, b2);
    }
  }

  /** Only the lead of one side over the other matters for the cost above the smaller side. */
  lemma CostByLead(m: Maths, own: real, other: real, b: real)
    requires Valid(m) && b > 0.0
    ensures Cost(m, own, other, b)
            == Cost(m, if own >= other then own - other else other - own, 0.0, b) + Min(own, other)
  {
    hide Cost;
    if own >= other {
      CostTranslate(m, own - other, 0.0, b, other);
      assert own - other + other == own && 0.0 + other == other;
    } else {
      CostSymmetric(m, own, other, b);
      CostTranslate(m, other - own, 0.0, b, own);
      assert other - own + own == other && 0.0 + own == own;
    }
  }

  lemma DriftAtBalance(m: Maths, b: real, b2: real)
    requires Valid(m) && b > 0.0 && b2 > 0.0
    ensures Cost(m, 0.0, 0.0, b2) - Cost(m, 0.0, 0.0, b) == (b2 - b) * Ln(m, 2.0)
  {
    hide Cost;
    var z := 0.0;
    CostIsUnshifted(m, z, z, b);
    CostIsUnshifted(m, z, z, b2);
    QuotientUnique(z, b, z);
    QuotientUnique(z, b2, z);
    ExpZero(m, z);
    assert Exp(m, z) + Exp(m, z) == 2.0;
    Distribute(b2 - b, b, Ln(m, 2.0));
  }

  /** Scaling b by k is a scaled step back along the curve, which its tangent bounds. */
  lemma LeadDrift(m: Maths, t: real, b: real, b2: real)
    requires Valid(m) && 0.0 < b < b2 && t >= 0.0
    ensures Cost(m, t, 0.0, b2) >= Cost(m, t, 0.0, b)
  {
    hide Cost;
    var k, p, c := b2 / b, Price(m, t, 0.0, b), Cost(m, t, 0.0, b);
    assert k * b == b2;
    CancelPos(1.0, k, b);
    var t1 := t / k;
    assert k * t1 == t;
    CostHomogeneous(m, t1, 0.0, b, k, t, 0.0, b2);
    CostTangent(m, t, 0.0, b, t1);
    CostBounds(m, t, 0.0, b);
    PriceRange(m, t, 0.0, b);
    ScaleMono(p, 1.0, t);
    Perspective(k, t, t1, p, c, Cost(m, t1, 0.0, b));
  }

  lemma Perspective(k: real, t: real, t1: real, p: real, c: real, c1: real)
    requires k > 1.0 && k * t1 == t && c1 - c >= p * (t1 - t) && c >= p * t
    ensures k * c1 >= c
  {
    ScaleMono(c + p * (t1 - t), c1, k);
    assert p * (t1 - t) * k == p * (t - k * t);
    assert (c + p * (t1 - t)) * k == c + (c - p * t) * (k - 1.0);
    NonNegativeProduct(c - p * t, k - 1.0);
  }

  // ---- Resale ----

  /** The mirror image of a holding about balance costs the imbalance more. */
  lemma MirrorCost(m: Maths, own: real, other: real, b: real)
    requires Valid(m) && b > 0.0
    ensures Cost(m, 2.0 * other - own, other, b) == Cost(m, own, other, b) + (other - own)
  {
    hide Cost;
    CostTranslate(m, own, other, b, other - own);
    assert own + (other - own) == other && other + (other - own) == 2.0 * other - own;
    CostSymmetric(m, other, 2.0 * other - own, b);
  }

  /** Where the middle of the block bought lies is decided by the budget: it is past balance
      exactly when the budget exceeds the lead of the other side. */
  lemma MiddleByBudget(m: Maths, own: real, other: real, b: real, budget: real)
    requires Valid(m) && b > 0.0 && budget > 0.0 && ClampIdle(m, own, other, b, budget)
    ensures var s := Bought(m, own, other, b, budget);
            && (2.0 * (own - other) + s > 0.0 <==> budget > other - own)
            && (2.0 * (own - other) + s == 0.0 <==> budget == other - own)
  {
    hide Cost;
    var s := Bought(m, own, other, b, budget);
    BudgetInversion(m, own, other, b, budget);
    MirrorCost(m, own, other, b);
    CostMono(m, 2.0 * other - own, own + s, other, b);
  }

  /** A buy sold back in full at a larger b: the refund stays within the budget exactly when b
      did not grow or the budget is at least the lead of the other side. */
  lemma ResaleExact(m: Maths, own: real, other: real, b: real, b2: real, budget: real)
    requires Valid(m) && 0.0 < b <= b2 && budget > 0.0 && ClampIdle(m, own, other, b, budget)
    ensures var s := Bought(m, own, other, b, budget);
            SellRefundUp(m, own + s, other, b2, s) <= budget <==> b2 == b || budget >= other - own
    ensures b2 == b ==> SellRefundUp(m, own + Bought(m, own, other, b, budget), other, b2,
                                     Bought(m, own, other, b, budget)) == budget
  {
    hide Cost;
    var s := Bought(m, own, other, b, budget);
    BudgetInversion(m, own, other, b, budget);
    MiddleByBudget(m, own, other, b, budget);
    assert own + s - s == own;
    SlippageSandwich(m, own, own + s, other, b2);
    if b < b2 {
      BlockCostAgainstB(m, own, other, b, b2, s);
    }
  }

  /** The holding at which the natural b overtakes the floor. */
  ghost function FloorCap(bMin: real, alpha: real, other: real, floor: real): real
    requires alpha > 0.0
  {
    (floor - bMin) / alpha - other
  }

  /** The floor decides b before the buy, and the budget does not reach the holding at which
      it stops deciding. */
  ghost predicate FloorOutlasts(m: Maths, own: real, other: real, bMin: real, alpha: real, floor: real, budget: real)
    requires bMin > 0.0 && alpha > 0.0 && own >= 0.0 && other >= 0.0
  {
    var cap := FloorCap(bMin, alpha, other, floor);
    && floor > 0.0 && own <= cap
    && budget <= Cost(m, cap, other, floor) - Cost(m, own, other, floor)
  }

  lemma CapOrder(bMin: real, alpha: real, own: real, other: real, floor: real)
    requires alpha > 0.0
    ensures NaturalB(bMin, alpha, own, other) <= floor <==> own <= FloorCap(bMin, alpha, other, floor)
  {
    var room := (floor - bMin) / alpha;
    assert room * alpha == floor - bMin;
    CancelPos(own + other, room, alpha);
  }

  /** Whether a buy leaves b where it was, from its inputs alone. */
  lemma BStaysExactly(m: Maths, own: real, other: real, bMin: real, alpha: real, floor: real, budget: real)
    requires Valid(m) && bMin > 0.0 && alpha > 0.0 && own >= 0.0 && other >= 0.0 && budget > 0.0
    requires var b := EffectiveB(bMin, alpha, own, other, floor); b > 0.0 && ClampIdle(m, own, other, b, budget)
    ensures var b := EffectiveB(bMin, alpha, own, other, floor);
            EffectiveB(bMin, alpha, own + Bought(m, own, other, b, budget), other, floor) == b
            <==> FloorOutlasts(m, own, other, bMin, alpha, floor, budget)
  {
    hide Cost, SharesForBudget;
    PositiveB(bMin, alpha, own, other, floor);
    var b := EffectiveB(bMin, alpha, own, other, floor);
    var s := Bought(m, own, other, b, budget);
    var cap := FloorCap(bMin, alpha, other, floor);
    BudgetInversion(m, own, other, b, budget);
    CapOrder(bMin, alpha, own, other, floor);
    CapOrder(bMin, alpha, own + s, other, floor);
    CancelPos(own + other, own + s + other, alpha);
    if own <= cap {
      assert b == floor;
      CostMono(m, cap, own + s, other, b);
    }
  }

  /** An immediate resale at the recomputed b, from the inputs of the buy alone: it returns at
      most the budget exactly when the budget is at least the lead of the other side or the
      floor outlasts the buy. */
  lemma ImmediateResaleExactly(m: Maths, own: real, other: real, bMin: real, alpha: real, floor: real, budget: real)
    requires Valid(m) && bMin > 0.0 && alpha >= 0.05 && own >= 0.0 && other >= 0.0 && budget > 0.0
    ensures var b := EffectiveB(bMin, alpha, own, other, floor);
            && b > 0.0
            && var s := Bought(m, own, other, b, budget);
               var b2 := EffectiveB(bMin, alpha, own + s, other, floor);
               && b2 > 0.0
               && (SellRefundUp(m, own + s, other, b2, s) <= budget
                   <==> budget >= other - own || FloorOutlasts(m, own, other, bMin, alpha, floor, budget))
  {
    hide Cost, SharesForBudget, SellRefundUp, EffectiveB;
    PositiveB(bMin, alpha, own, other, floor);
    ClampNeverActs(m, bMin, alpha, own, other, floor, budget);
    var b := EffectiveB(bMin, alpha, own, other, floor);
    BStaysExactly(m, own, other, bMin, alpha, floor, budget);
    var s := Bought(m, own, other, b, budget);
    BudgetInversion(m, own, other, b, budget);
    GrowingB(bMin, alpha, own, own + s, other, floor);
    ResaleExact(m, own, other, b, EffectiveB(bMin, alpha, own + s, other, floor), budget);
  }

  /** The same bound for the shares actually granted, any part of those affordable. */
  lemma ResaleOfTruncated(m: Maths, own: real, other: real, b: real, b2: real, budget: real, s: real)
    requires Valid(m) && 0.0 < b <= b2 && budget > 0.0 && ClampIdle(m, own, other, b, budget)
    requires 0.0 < s <= Bought(m, own, other, b, budget)
    requires b2 == b || 2.0 * (own - other) + s >= 0.0
    ensures 0.0 < SellRefundUp(m, own + s, other, b2, s) <= budget
  {
    hide Cost;
    BudgetInversion(m, own, other, b, budget);
    CostMono(m, own + s, own + Bought(m, own, other, b, budget), other, b);
    assert own + s - s == own;
    SlippageSandwich(m, own, own + s, other, b2);
    if b < b2 {
      BlockCostAgainstB(m, own, other, b, b2, s);
    }
  }

  /** A truncated grant costs more than budget - loss, so its middle is past balance whenever
      that much is at least the lead of the other side. */
  lemma TruncatedMiddle(m: Maths, own: real, other: real, b: real, budget: real, s: real, loss: real)
    requires Valid(m) && b > 0.0 && budget > 0.0 && ClampIdle(m, own, other, b, budget)
    requires s <= Bought(m, own, other, b, budget) < s + loss
    ensures budget - loss >= other - own ==> 2.0 * (own - other) + s > 0.0
    ensures budget < other - own ==> 2.0 * (own - other) + s < 0.0
  {
    hide Cost;
    TruncatedSpend(m, own, other, b, budget, s, loss);
    MirrorCost(m, own, other, b);
    CostMono(m, 2.0 * other - own, own + s, other, b);
    CostMono(m, own + s, 2.0 * other - own, other, b);
  }

  /** Short of that budget nothing is lost either: the resale of the grant returns more than
      the budget less one quantum, at the same b or at a larger one. */
  lemma ResaleShortOfBalance(m: Maths, own: real, other: real, b: real, b2: real, budget: real, s: real, loss: real)
    requires Valid(m) && 0.0 < b <= b2 && budget > 0.0 && ClampIdle(m, own, other, b, budget)
    requires 0.0 < s <= Bought(m, own, other, b, budget) < s + loss
    requires b2 == b || 2.0 * (own - other) + s <= 0.0
    ensures SellRefundUp(m, own + s, other, b2, s) > budget - loss
  {
    hide Cost;
    TruncatedSpend(m, own, other, b, budget, s, loss);
    assert own + s - s == own;
    if b < b2 {
      BlockCostAgainstB(m, own, other, b, b2, s);
    }
  }

  // ---- Splitting a purchase ----

  /** A larger holding, or a larger b on the favoured side, leads to at least the same
      target for the same budget. */
  lemma TargetMono(m: Maths, own: real, own2: real, other: real, b: real, b2: real, budget: real)
    requires Valid(m) && 0.0 < b <= b2 && budget > 0.0 && other <= own <= own2
    ensures Target(m, own, other, b, budget) <= Target(m, own2, other, b2, budget)
  {
    hide Cost;
    var s := Bought(m, own, other, b, budget);
    var target2 := Target(m, own2, other, b2, budget);
    ClampIdleWhen(m, own, other, b, budget);
    ClampIdleWhen(m, own2, other, b2, budget);
    BudgetInversion(m, own, other, b, budget);
    BudgetInversion(m, own2, other, b2, budget);
    if b < b2 {
      BlockCostAgainstB(m, own, other, b, b2, s);
    }
    // at b2 the block bought at b costs at most the budget, so own2's target lies beyond
    assert BlockCost(m, own, other, b2, s) <= budget;
    CostMono(m, own, own2, other, b2);
    CostMono(m, target2, own + s, other, b2);
  }

  /** At a fixed b two tranches reach the target of their sum. */
  lemma TargetAdds(m: Maths, own: real, other: real, b: real, budget: real, rest: real)
    requires Valid(m) && b > 0.0 && budget > 0.0 && rest > 0.0
    requires ClampIdle(m, own, other, b, budget)
    ensures Target(m, own, other, b, budget + rest)
            == Target(m, Target(m, own, other, b, budget), other, b, rest)
  {
    hide Cost;
    BudgetInversion(m, own, other, b, budget);
    CostAtTarget(m, own, other, b, budget);
    assert Cost(m, own, other, b) + (budget + rest)
        == Cost(m, Target(m, own, other, b, budget), other, b) + rest;
  }

  ghost function Total(budgets: seq<real>): real {
    if budgets == [] then 0.0 else budgets[0] + Total(budgets[1..])
  }

  ghost predicate AllPositive(budgets: seq<real>) {
    forall i :: 0 <= i < |budgets| ==> budgets[i] > 0.0
  }

  lemma TotalPositive(budgets: seq<real>)
    requires AllPositive(budgets) && budgets != []
    ensures Total(budgets) > 0.0
  {
  }

  /** Holding after spending the budgets one by one, b recomputed before each. */
  ghost function Tranches(m: Maths, own: real, other: real, bMin: real, alpha: real, floor: real,
                          budgets: seq<real>): real
    requires bMin > 0.0 && alpha >= 0.0 && own >= 0.0 && other >= 0.0
    decreases |budgets|
  {
    if budgets == [] then own
    else
      PositiveB(bMin, alpha, own, other, floor);
      var s := SharesForBudget(m, own, other, EffectiveB(bMin, alpha, own, other, floor), budgets[0], true);
      Tranches(m, own + s, other, bMin, alpha, floor, budgets[1..])
  }

  /** INV-04: b is positive for non-negative holdings. */
  lemma PositiveB(bMin: real, alpha: real, qUp: real, qDown: real, floor: real)
    requires bMin > 0.0 && alpha >= 0.0 && qUp >= 0.0 && qDown >= 0.0
    ensures EffectiveB(bMin, alpha, qUp, qDown, floor) >= bMin
  {
    assert alpha * (qUp + qDown) >= 0.0;
  }

  lemma GrowingB(bMin: real, alpha: real, own: real, own2: real, other: real, floor: real)
    requires alpha >= 0.0 && own <= own2
    ensures EffectiveB(bMin, alpha, own, other, floor) <= EffectiveB(bMin, alpha, own2, other, floor)
  {
    assert alpha * (own2 - own) >= 0.0;
    assert alpha * (own2 + other) == alpha * (own + other) + alpha * (own2 - own);
  }

  /** Two tranches against their sum, on either side of balance: with the second at a larger b
      they yield more exactly when it exceeds what is then the lead of the other side, that is,
      when the first one pays for the way to that point. */
  lemma SplitExactly(m: Maths, own: real, other: real, b: real, b2: real, budget: real, rest: real)
    requires Valid(m) && 0.0 < b <= b2 && budget > 0.0 && rest > 0.0 && ClampIdle(m, own, other, b, budget)
    requires ClampIdle(m, own + Bought(m, own, other, b, budget), other, b2, rest)
    ensures var own2 := own + Bought(m, own, other, b, budget);
            var split := own2 + Bought(m, own2, other, b2, rest);
            var whole := own + Bought(m, own, other, b, budget + rest);
            && (b < b2 ==>
                  && (split > whole <==> rest > other - own2)
                  && (split == whole <==> rest == other - own2))
            && (b == b2 ==> split == whole)
            && (rest > other - own2 <==> budget > Cost(m, other - rest, other, b) - Cost(m, own, other, b))
            && (rest == other - own2 <==> budget == Cost(m, other - rest, other, b) - Cost(m, own, other, b))
  {
    hide Cost, SharesForBudget;
    var own2 := own + Bought(m, own, other, b, budget);
    BudgetInversion(m, own, other, b, budget);
    CostMono(m, other - rest, own2, other, b);
    TargetAdds(m, own, other, b, budget, rest);
    LargerBudgetIdle(m, own, other, own2, b, budget, rest);
    BudgetInversion(m, own, other, b, budget + rest);
    BudgetInversion(m, own2, other, b, rest);
    BudgetInversion(m, own2, other, b2, rest);
    if b < b2 {
      var s := Bought(m, own2, other, b, rest);
      MiddleByBudget(m, own2, other, b, rest);
      BlockCostAgainstB(m, own2, other, b, b2, s);
      CostMono(m, own2 + s, own2 + Bought(m, own2, other, b2, rest), other, b2);
    }
  }

  /** A larger budget, all at once or after the first part, keeps the clamp idle. */
  lemma LargerBudgetIdle(m: Maths, own: real, other: real, own2: real, b: real, budget: real, rest: real)
    requires Valid(m) && b > 0.0 && budget > 0.0 && rest > 0.0 && ClampIdle(m, own, other, b, budget)
    requires Cost(m, own2, other, b) == Cost(m, own, other, b) + budget
    ensures ClampIdle(m, own, other, b, budget + rest)
    ensures ClampIdle(m, own2, other, b, rest)
  {
    hide Cost;
    var c := Cost(m, own, other, b) + budget;
    DivideReflects(other - (c + rest), other - c, b);
    assert Cost(m, own, other, b) + (budget + rest) == c + rest;
  }

  /** b as the last tranche finds it. */
  ghost function LastB(m: Maths, own: real, other: real, bMin: real, alpha: real, floor: real,
                       budgets: seq<real>): real
    requires bMin > 0.0 && alpha >= 0.0 && own >= 0.0 && other >= 0.0 && budgets != []
    decreases |budgets|
  {
    var b := EffectiveB(bMin, alpha, own, other, floor);
    PositiveB(bMin, alpha, own, other, floor);
    if |budgets| == 1 then b
    else LastB(m, own + Bought(m, own, other, b, budgets[0]), other, bMin, alpha, floor, budgets[1..])
  }

  /** Splitting a purchase never loses shares on the favoured side, although every tranche is
      priced at its own b; it gains nothing exactly when no tranche finds a larger b than the
      first. */
  lemma {:induction false} SplittingNeverLoses(m: Maths, own: real, other: real, bMin: real, alpha: real,
                                               floor: real, budgets: seq<real>)
    requires Valid(m) && bMin > 0.0 && alpha >= 0.0 && 0.0 <= other <= own
    requires AllPositive(budgets) && budgets != []
    ensures var b := EffectiveB(bMin, alpha, own, other, floor);
            var split := Tranches(m, own, other, bMin, alpha, floor, budgets);
            && b > 0.0 && b <= LastB(m, own, other, bMin, alpha, floor, budgets)
            && split >= own + Bought(m, own, other, b, Total(budgets))
            && (split == own + Bought(m, own, other, b, Total(budgets))
                <==> LastB(m, own, other, bMin, alpha, floor, budgets) == b)
    decreases |budgets|
  {
    hide Cost, SharesForBudget, EffectiveB;
    var b := EffectiveB(bMin, alpha, own, other, floor);
    var budget, rest := budgets[0], budgets[1..];
    PositiveB(bMin, alpha, own, other, floor);
    if rest == [] {
      assert Total(rest) == 0.0 && Total(budgets) == budget;
    } else {
      var own2 := own + Bought(m, own, other, b, budget);
      var b2 := EffectiveB(bMin, alpha, own2, other, floor);
      TotalPositive(rest);
      ClampIdleWhen(m, own, other, b, budget);
      BudgetInversion(m, own, other, b, budget);
      GrowingB(bMin, alpha, own, own2, other, floor);
      ClampIdleWhen(m, own2, other, b2, Total(rest));
      SplitExactly(m, own, other, b, b2, budget, Total(rest));
      SplittingNeverLoses(m, own2, other, bMin, alpha, floor, rest);
    }
  }

  /** Wherever b ends up where it began, in particular while the floor still dominates at the
      end or when alpha is zero, splitting changes nothing. */
  lemma SplittingAtConstantB(m: Maths, own: real, other: real, bMin: real, alpha: real, floor: real, budgets: seq<real>)
    requires Valid(m) && bMin > 0.0 && alpha >= 0.0 && 0.0 <= other <= own
    requires AllPositive(budgets) && budgets != []
    ensures var b := EffectiveB(bMin, alpha, own, other, floor);
            var split := Tranches(m, own, other, bMin, alpha, floor, budgets);
            && b > 0.0
            && (alpha == 0.0 || NaturalB(bMin, alpha, split, other) <= floor ==>
                  EffectiveB(bMin, alpha, split, other, floor) == b)
            && (EffectiveB(bMin, alpha, split, other, floor) == b ==>
                  split == own + Bought(m, own, other, b, Total(budgets)))
  {
    hide Cost, SharesForBudget, EffectiveB;
    SplittingNeverLoses(m, own, other, bMin, alpha, floor, budgets);
    LastBGrows(m, own, other, bMin, alpha, floor, budgets);
    var split := Tranches(m, own, other, bMin, alpha, floor, budgets);
    PositiveB(bMin, alpha, own, other, floor);
    GrowingB(bMin, alpha, own, split, other, floor);
    ConstantB(bMin, alpha, own, split, other, floor);
  }

  lemma ConstantB(bMin: real, alpha: real, own: real, own2: real, other: real, floor: real)
    requires alpha >= 0.0 && own <= own2
    ensures alpha == 0.0 || NaturalB(bMin, alpha, own2, other) <= floor ==>
              EffectiveB(bMin, alpha, own2, other, floor) == EffectiveB(bMin, alpha, own, other, floor)
  {
    ScaleMono(own + other, own2 + other, alpha);
  }

  lemma {:induction false} LastBGrows(m: Maths, own: real, other: real, bMin: real, alpha: real, floor: real,
                                      budgets: seq<real>)
    requires Valid(m) && bMin > 0.0 && alpha >= 0.0 && own >= 0.0 && other >= 0.0
    requires AllPositive(budgets) && budgets != []
    ensures own <= Tranches(m, own, other, bMin, alpha, floor, budgets)
    ensures LastB(m, own, other, bMin, alpha, floor, budgets)
            <= EffectiveB(bMin, alpha, Tranches(m, own, other, bMin, alpha, floor, budgets), other, floor)
    decreases |budgets|
  {
    hide Cost, SharesForBudget, EffectiveB;
    var b := EffectiveB(bMin, alpha, own, other, floor);
    PositiveB(bMin, alpha, own, other, floor);
    BudgetInversion(m, own, other, b, budgets[0]);
    var own2 := own + Bought(m, own, other, b, budgets[0]);
    if |budgets| == 1 {
      assert budgets[1..] == [];
      GrowingB(bMin, alpha, own, own2, other, floor);
    } else {
      LastBGrows(m, own2, other, bMin, alpha, floor, budgets[1..]);
    }
  }

  /** Far from balance splitting does lose: with b_min 100, the default alpha, a floor of 10000
      that the natural b has overtaken and two million DOWN shares, two buys of 500 points
      yield fewer UP shares than one of 1000. */
  lemma SplittingCanLose(m: Maths)
    requires Valid(m)
    ensures var split := Tranches(m, 0.0, 2000000.0, 100.0, 0.05, 10000.0, [500.0, 500.0]);
            EffectiveB(100.0, 0.05, 0.0, 2000000.0, 10000.0) == 100100.0
            && split < SharesForBudget(m, 0.0, 2000000.0, 100100.0, 1000.0, true)
  {
    hide Cost, SharesForBudget;
    var own, other, b, budget := 0.0, 2000000.0, 100100.0, 500.0;
    var own2 := Bought(m, own, other, b, budget);
    assert own + own2 == own2;
    ClampIdleWhen(m, own, other, b, budget);
    BudgetInversion(m, own, other, b, budget);
    FarFromBalance(m, own2, budget);
    var b2 := EffectiveB(100.0, 0.05, own2, other, 10000.0);
    ClampNeverActs(m, 100.0, 0.05, own2, other, 10000.0, budget);
    SplitExactly(m, own, other, b, b2, budget, budget);
    var budgets := [budget, budget];
    assert budgets[1..] == [budget] && budgets[1..][1..] == [];
    assert Tranches(m, own, other, 100.0, 0.05, 10000.0, budgets)
        == Tranches(m, own2, other, 100.0, 0.05, 10000.0, [budget]);
  }

  lemma LnTwo(m: Maths)
    requires Valid(m)
    ensures 0.5 <= Ln(m, 2.0) <= 1.0
  {
    var two := 2.0;
    ExpOfLn(m, two);
    ExpTangent(m, Ln(m, two));
    ExpTangent(m, -Ln(m, two));
    ExpNeg(m, Ln(m, two));
  }

  /** No budget up to 1000 comes near balance in that market. */
  lemma FarFromBalance(m: Maths, own2: real, spent: real)
    requires Valid(m) && spent <= 1000.0
    requires Cost(m, own2, 2000000.0, 100100.0) - Cost(m, 0.0, 2000000.0, 100100.0) <= spent
    ensures own2 < 1990000.0
  {
    hide Cost;
    var own, other, near, b := 0.0, 2000000.0, 1990000.0, 100100.0;
    CostAtBalance(m, other, b);
    LnTwo(m);
    ScaleMono(0.5, Ln(m, 2.0), b);
    CostOverOther(m, own, other, b, 19.0);
    SlippageSandwich(m, near, other, other, b);
    CostMono(m, own2, near, other, b);
  }

  /** What the cost exceeds the larger holding by grows at least in proportion to b. */
  lemma ExcessGrows(m: Maths, own: real, other: real, b: real, b2: real)
    requires Valid(m) && 0.0 < b <= b2 && own <= other
    ensures (Cost(m, own, other, b2) - other) * b >= (Cost(m, own, other, b) - other) * b2
  {
    hide Cost;
    var k, d := b2 / b, own - other;
    assert k * b == b2;
    CancelPos(1.0, k, b);
    var d1 := d / k;
    assert d1 * k == d;
    CancelPos(d, d1, k);
    ScaleMono(1.0, k, -d);
    CostTranslate(m, own, other, b, -other);
    CostTranslate(m, own, other, b2, -other);
    assert own + -other == d && other + -other == 0.0;
    CostHomogeneous(m, d1, 0.0, b, k, d, 0.0, b2);
    CostMono(m, d1, d, 0.0, b);
    ScaleMono(Cost(m, d, 0.0, b), Cost(m, d1, 0.0, b), b2);
    assert k * Cost(m, d1, 0.0, b) * b == Cost(m, d1, 0.0, b) * b2;
  }

  /** In that market the resale of what a thousand points bought returns over 1300. */
  lemma FarResale(m: Maths, s: real)
    requires Valid(m)
    requires 999.99 < Cost(m, s, 2000000.0, 100100.0) - Cost(m, 0.0, 2000000.0, 100100.0) <= 1000.0
    ensures 1000000.0 < s < 1990000.0
    ensures SellRefundUp(m, s, 2000000.0, 100100.0 + 0.05 * s, s) > 1301.0
  {
    hide Cost;
    var own, other, half, b, b2 := 0.0, 2000000.0, 1000000.0, 100100.0, 100100.0 + 0.05 * s;
    FarFromBalance(m, s, 1000.0);
    ExpMinusNine(m);
    CostBounds(m, own, other, b);
    CostOverOther(m, half, other, b, 9.0);
    CostMono(m, s, half, other, b);
    CostMono(m, half, s, other, b);
    CostOverOther(m, own, other, b2, 10.0);
    ExcessGrows(m, s, other, b, b2);
    ScaleMono(999.99, Cost(m, s, other, b) - other, b2);
    assert s - s == own;
  }

  lemma ExpMinusNine(m: Maths)
    requires Valid(m)
    ensures Exp(m, -9.0) <= 0.002
    ensures Exp(m, -10.0) <= 0.001
  {
    ExpTangent(m, 1.0);
    ExpAtLeast(m, 1.0, 1.0, 2.0, 2.0, 4.0);
    ExpAtLeast(m, 2.0, 2.0, 4.0, 4.0, 16.0);
    ExpAtLeast(m, 4.0, 4.0, 16.0, 16.0, 256.0);
    ExpAtLeast(m, 8.0, 1.0, 256.0, 2.0, 512.0);
    ExpAtLeast(m, 9.0, 1.0, 512.0, 2.0, 1024.0);
    ExpNeg(m, 9.0);
    ExpNeg(m, 10.0);
    ReciprocalBound(Exp(m, 9.0), Exp(m, -9.0), 512.0);
    ReciprocalBound(Exp(m, 10.0), Exp(m, -10.0), 1024.0);
  }

  /** The cost exceeds the larger holding by at most b Exp(-lead), the lead in units of b. */
  lemma CostOverOther(m: Maths, own: real, other: real, b: real, lead: real)
    requires Valid(m) && b > 0.0 && lead >= 0.0 && other - own >= lead * b
    ensures Cost(m, own, other, b) - other <= b * Exp(m, -lead)
    ensures Exp(m, -lead) <= 1.0 / (1.0 + lead)
  {
    hide Cost;
    var x, y, c := own / b, other / b, Cost(m, own, other, b) / b;
    ExpCost(m, own, other, b);
    DifferenceOverB(x, y, b, own, other, lead);
    LseOver(m, x, y, c, lead);
    var e := Exp(m, -lead);
    Rescale(c, y, e, b, Cost(m, own, other, b), other);
    ExpTangent(m, lead);
    ExpNeg(m, lead);
    ExpPos(m, -lead);
    ReciprocalBound(Exp(m, lead), e, 1.0 + lead);
  }

  lemma LseOver(m: Maths, x: real, y: real, c: real, lead: real)
    requires Valid(m) && x - y <= -lead && Exp(m, c) == Exp(m, x) + Exp(m, y)
    ensures c <= y + Exp(m, -lead)
  {
    var d, e := x - y, Exp(m, -lead);
    ExpReflects(m, d, -lead);
    ExpSum(m, y, d);
    assert y + d == x;
    ExpTangent(m, e);
    ExpSum(m, y, e);
    ExpPos(m, y);
    assert Exp(m, x) == Exp(m, y) * Exp(m, d);
    OnePlus(Exp(m, y), Exp(m, d), e, Exp(m, e), Exp(m, x), Exp(m, y + e));
    ExpReflects(m, c, y + e);
  }

  lemma Rescale(c: real, y: real, e: real, b: real, cost: real, other: real)
    requires b > 0.0 && c == cost / b && y == other / b && c <= y + e
    ensures cost - other <= b * e
  {
    assert c * b == cost && y * b == other;
    CancelPos(c, y + e, b);
    Distribute(y, e, b);
  }

  lemma OnePlus(f: real, ratio: real, e: real, g: real, x: real, sum: real)
    requires f > 0.0 && ratio <= e && g >= 1.0 + e && x == f * ratio && sum == f * g
    ensures x + f <= sum
  {
    ScaleMono(ratio + 1.0, g, f);
    Distribute(ratio, 1.0, f);
  }

  lemma ReciprocalBound(f: real, e: real, low: real)
    requires f * e == 1.0 && e > 0.0 && f >= low > 0.0
    ensures e <= 1.0 / low
  {
    ScaleMono(low, f, e);
    var r := 1.0 / low;
    assert r * low == 1.0;
    CancelPos(e, r, low);
  }

  lemma CostAtBalance(m: Maths, q: real, b: real)
    requires Valid(m) && b > 0.0
    ensures Cost(m, q, q, b) == q + b * Ln(m, 2.0)
  {
    hide Cost;
    var x := q / b;
    CostIsUnshifted(m, q, q, b);
    ExpPos(m, x);
    ExpOfLn(m, 2.0);
    ExpSum(m, x, Ln(m, 2.0));
    LnOfExp(m, x + Ln(m, 2.0));
    assert Exp(m, x) + Exp(m, x) == Exp(m, x + Ln(m, 2.0));
    assert b * x == q;
    Distribute(x, Ln(m, 2.0), b);
  }

  // ---- Recalibration ----

  /** Scaling b_min and both holdings scales the effective b (without a floor). */
  lemma EffectiveBScales(bMin: real, alpha: real, qUp: real, qDown: real, k: real,
                         bMin2: real, qUp2: real, qDown2: real)
    requires bMin > 0.0 && alpha >= 0.0 && qUp >= 0.0 && qDown >= 0.0 && k > 0.0
    requires bMin2 == k * bMin && qUp2 == k * qUp && qDown2 == k * qDown
    ensures EffectiveB(bMin2, alpha, qUp2, qDown2, 0.0) == k * EffectiveB(bMin, alpha, qUp, qDown, 0.0)
  {
    PositiveB(bMin, alpha, qUp, qDown, 0.0);
    var natural := NaturalB(bMin, alpha, qUp, qDown);
    assert k * natural == bMin2 + alpha * (qUp2 + qDown2);
    CancelPos(0.0, k, natural);
  }

  /** Fairness of the recalibration, before quantisation: the rating is untouched, and the
      refund of an unscaled holding moves up, by less than the scale factor. */
  lemma RecalibrationIsFair(m: Maths, own: real, other: real, bMin: real, alpha: real, k: real, s: real,
                            own2: real, other2: real, bMin2: real)
    requires Valid(m) && bMin > 0.0 && alpha >= 0.0 && own >= 0.0 && other >= 0.0 && k > 1.0 && s > 0.0
    requires own2 == k * own && other2 == k * other && bMin2 == k * bMin
    ensures var b := EffectiveB(bMin, alpha, own, other, 0.0);
            var b2 := EffectiveB(bMin2, alpha, own2, other2, 0.0);
            && b > 0.0 && b2 > 0.0
            && Rating(m, own2, other2, b2) == Rating(m, own, other, b)
            && var before := SellRefundUp(m, own, other, b, s);
               before < SellRefundUp(m, own2, other2, b2, s) < k * before
  {
    hide Cost, Rating, EffectiveB;
    var b := EffectiveB(bMin, alpha, own, other, 0.0);
    var b2 := EffectiveB(bMin2, alpha, own2, other2, 0.0);
    PositiveB(bMin, alpha, own, other, 0.0);
    EffectiveBScales(bMin, alpha, own, other, k, bMin2, own2, other2);
    CostHomogeneous(m, own, other, b, k, own2, other2, b2);
    RatingIsPrice(m, own, other, b);
    RatingIsPrice(m, own2, other2, b2);
    ScaledRefund(m, own, other, b, k, s, own2, other2, b2);
  }

  /** Under a floor, fairness of the price has an exact limit: scaling leaves it alone only at
      balance or where the natural b decided before; where the floor decided, the price moves
      strictly away from balance. */
  lemma RecalibrationUnderFloor(m: Maths, own: real, other: real, bMin: real, alpha: real, floor: real, k: real,
                                own2: real, other2: real, bMin2: real)
    requires Valid(m) && bMin > 0.0 && alpha >= 0.0 && own >= 0.0 && other >= 0.0 && k > 1.0
    requires own2 == k * own && other2 == k * other && bMin2 == k * bMin
    ensures var b := EffectiveB(bMin, alpha, own, other, floor);
            var b2 := EffectiveB(bMin2, alpha, own2, other2, floor);
            && b > 0.0 && b2 > 0.0
            && var p, p2 := Price(m, own, other, b), Price(m, own2, other2, b2);
               && (p2 == p <==> own == other || floor <= NaturalB(bMin, alpha, own, other))
               && (p2 < p <==> own < other && floor > NaturalB(bMin, alpha, own, other))
               && (p2 > p <==> own > other && floor > NaturalB(bMin, alpha, own, other))
  {
    hide Cost, Price;
    var n := NaturalB(bMin, alpha, own, other);
    var b, b2 := EffectiveB(bMin, alpha, own, other, floor), EffectiveB(bMin2, alpha, own2, other2, floor);
    PositiveB(bMin, alpha, own, other, floor);
    PositiveB(bMin, alpha, own, other, 0.0);
    EffectiveBScales(bMin, alpha, own, other, k, bMin2, own2, other2);
    assert n > 0.0 && NaturalB(bMin2, alpha, own2, other2) == k * n;
    CancelPos(1.0, k, n);
    if floor <= n {
      CostHomogeneous(m, own, other, n, k, own2, other2, b2);
    } else if own == other {
      assert own2 == other2;
      EvenPrice(m, own, b);
      EvenPrice(m, own2, b2);
    } else {
      CancelPos(n, floor, k);
      CancelPos(1.0, k, floor);
      assert b2 < k * b;
      FartherFromBalance(own - other, own2 - other2, b, b2, k);
      if own < other {
        PriceOrder(m, own2, other2, b2, own, other, b);
      } else {
        PriceOrder(m, own, other, b, own2, other2, b2);
      }
    }
  }

  lemma EvenPrice(m: Maths, q: real, b: real)
    requires Valid(m) && b > 0.0
    ensures Price(m, q, q, b) == 0.5
  {
    PriceRange(m, q, q, b);
  }

  lemma FartherFromBalance(g: real, g2: real, b: real, b2: real, k: real)
    requires b > 0.0 && 0.0 < b2 < k * b && g2 == k * g
    ensures g < 0.0 ==> g2 * b < g * b2
    ensures g > 0.0 ==> g * b2 < g2 * b
  {
    assert g2 * b == g * (k * b);
    if g > 0.0 {
      CancelPos(b2, k * b, g);
    } else if g < 0.0 {
      CancelPos(b2, k * b, -g);
    }
  }

  /** At one b the refund of a block is decided by the imbalance: it is larger exactly where
      the own side stands better. */
  lemma RefundByImbalance(m: Maths, u: real, d: real, u2: real, d2: real, b: real, s: real)
    requires Valid(m) && b > 0.0 && s > 0.0
    ensures SellRefundUp(m, u2, d2, b, s) < SellRefundUp(m, u, d, b, s) <==> u2 - d2 < u - d
    ensures SellRefundUp(m, u2, d2, b, s) == SellRefundUp(m, u, d, b, s) <==> u2 - d2 == u - d
  {
    hide Cost;
    var t, t2 := u - d, u2 - d2;
    BlockByImbalance(m, u - s, d, b, s);
    BlockByImbalance(m, u2 - s, d2, b, s);
    SlippageSandwich(m, u - s, u, d, b);
    SlippageSandwich(m, u2 - s, u2, d2, b);
    assert u - s + s == u && u2 - s + s == u2 && u - s - d == t - s && u2 - s - d2 == t2 - s;
    if t2 < t {
      BlockRises(m, t2 - s, t - s, b, s);
    } else if t < t2 {
      BlockRises(m, t - s, t2 - s, b, s);
    }
  }

  lemma BlockRises(m: Maths, t: real, t2: real, b: real, s: real)
    requires Valid(m) && b > 0.0 && s > 0.0 && t < t2
    ensures BlockCost(m, t, 0.0, b, s) < BlockCost(m, t2, 0.0, b, s)
  {
    hide Cost;
    ChordOrder(m, t, t + s, t2, t2 + s, 0.0, b);
    assert t + s - t == s && t2 + s - t2 == s;
    DivideReflects(BlockCost(m, t, 0.0, b, s), BlockCost(m, t2, 0.0, b, s), s);
  }

  lemma ScaledRefund(m: Maths, own: real, other: real, b: real, k: real, s: real,
                     own2: real, other2: real, b2: real)
    requires Valid(m) && b > 0.0 && k > 1.0 && s > 0.0
    requires own2 == k * own && other2 == k * other && b2 == k * b
    ensures b2 > 0.0
    ensures var before := SellRefundUp(m, own, other, b, s);
            before < SellRefundUp(m, own2, other2, b2, s) < k * before
  {
    hide Cost;
    var s1, z := s / k, 0.0;
    Shrink(z, s, k);
    var c, c1, c0 := Cost(m, own, other, b), Cost(m, own - s1, other, b), Cost(m, own - s, other, b);
    assert k * (own - s1) == own2 - s;
    CostHomogeneous(m, own, other, b, k, own2, other2, b2);
    CostHomogeneous(m, own - s1, other, b, k, own2 - s, other2, b2);
    SlippageSandwich(m, own - s1, own, other, b);
    SlippageSandwich(m, own - s, own - s1, other, b);
    ChordOrder(m, own - s, own, own - s1, own, other, b);
    assert own - (own - s) == s && own - (own - s1) == s1;
    ScaledDifference(k, c, c1);
    ScaledRise(c - c1, SellRefundUp(m, own, other, b, s), SellRefundUp(m, own2, other2, b2, s), s1, s, k);
  }

  lemma ScaledRise(rise1: real, rise: real, rise2: real, s1: real, s: real, k: real)
    requires k > 1.0 && s1 > 0.0 && s > 0.0 && k * s1 == s
    requires rise1 < rise && rise2 == k * rise1 && rise / s < rise1 / s1
    ensures rise < rise2 < k * rise
  {
    SlopeCompare(rise1, rise, s1, s, k);
    CancelPos(rise1, rise, k);
  }

  // ---- The rating at the state's own b ----

  /** The imbalance measured in units of its own b grows with the holding, although b grows
      with it too. */
  lemma RelativeImbalanceGrows(bMin: real, alpha: real, u: real, v: real, other: real, floor: real)
    requires bMin > 0.0 && alpha >= 0.0 && 0.0 <= u < v && other >= 0.0
    ensures var b1 := EffectiveB(bMin, alpha, u, other, floor);
            var b2 := EffectiveB(bMin, alpha, v, other, floor);
            0.0 < b1 <= b2 && (u - other) * b2 < (v - other) * b1
  {
    var b1, b2 := EffectiveB(bMin, alpha, u, other, floor), EffectiveB(bMin, alpha, v, other, floor);
    PositiveB(bMin, alpha, u, other, floor);
    GrowingB(bMin, alpha, u, v, other, floor);
    if v < other || b1 == b2 {
      ShortOfBalance(u - other, v - other, b1, b2);
    } else {
      NaturalGap(bMin, alpha, u, v, other);
      PastBalance(u - other, v - other, b1, b2, alpha);
    }
  }

  lemma NaturalGap(bMin: real, alpha: real, u: real, v: real, other: real)
    requires bMin > 0.0 && alpha >= 0.0 && other >= 0.0
    ensures NaturalB(bMin, alpha, u, other) == NaturalB(bMin, alpha, v, other) - alpha * ((v - other) - (u - other))
    ensures NaturalB(bMin, alpha, v, other) > alpha * (v - other)
  {
    assert alpha * other >= 0.0;
    assert alpha * (v + other) == alpha * (v - other) + 2.0 * (alpha * other);
  }

  lemma PastBalance(w: real, x: real, b1: real, b2: real, alpha: real)
    requires w < x && x >= 0.0 && b1 >= b2 - alpha * (x - w) && b2 > alpha * x
    ensures w * b2 < x * b1
  {
    var h := x - w;
    ScaleMono(b2 - alpha * h, b1, x);
    CancelPos(0.0, b2 - alpha * x, h);
    calc {
      x * (b2 - alpha * h) - w * b2;
    ==
      (b2 - alpha * x) * h;
    }
  }

  lemma ShortOfBalance(w: real, x: real, b1: real, b2: real)
    requires w < x && 0.0 < b1 <= b2 && (x < 0.0 || b1 == b2)
    ensures w * b2 < x * b1
  {
    CancelPos(w, x, b2);
    if b1 < b2 {
      assert x * (b2 - b1) < 0.0;
    }
  }

  lemma WeightOrder(m: Maths, x1: real, y1: real, x2: real, y2: real)
    requires Valid(m) && x1 + y2 < x2 + y1
    ensures Weight(m, x1, y1) < Weight(m, x2, y2)
  {
    ExpMono(m, x1 + y2, x2 + y1);
    ExpSum(m, x1, y2);
    ExpSum(m, x2, y1);
    ExpPos(m, x1);
    ExpPos(m, x2);
    ExpPos(m, y1);
    ExpPos(m, y2);
    FractionOrder(Exp(m, x1), Exp(m, y1), Exp(m, x2), Exp(m, y2));
  }

  /** Price as a function of the relative imbalance alone. */
  lemma PriceOrder(m: Maths, u: real, d1: real, b1: real, v: real, d2: real, b2: real)
    requires Valid(m) && b1 > 0.0 && b2 > 0.0 && (u - d1) * b2 < (v - d2) * b1
    ensures Price(m, u, d1, b1) < Price(m, v, d2, b2)
  {
    DivideAdd(d1, u - d1, b1);
    DivideAdd(d2, v - d2, b2);
    assert d1 + (u - d1) == u && d2 + (v - d2) == v;
    var g1, g2 := u - d1, v - d2;
    CrossDivide(g1 / b1, g2 / b2, b1, b2, g1, g2);
    WeightOrder(m, u / b1, d1 / b1, v / b2, d2 / b2);
  }

  lemma FractionOrder(a1: real, c1: real, a2: real, c2: real)
    requires a1 > 0.0 && c1 > 0.0 && a2 > 0.0 && c2 > 0.0 && a1 * c2 < a2 * c1
    ensures a1 / (a1 + c1) < a2 / (a2 + c2)
  {
    var s1, s2 := a1 + c1, a2 + c2;
    var p1, p2 := a1 / s1, a2 / s2;
    assert p1 * s1 == a1 && p2 * s2 == a2;
    assert a1 * s2 < a2 * s1;
    CrossDivide(p1, p2, s1, s2, a1, a2);
  }

  /** The displayed rating at the state's own b (any floor) is strictly increasing in q_up
      and strictly decreasing in q_down. */
  lemma RatingFollowsShares(m: Maths, bMin: real, alpha: real, u: real, v: real, other: real, floor: real)
    requires Valid(m) && bMin > 0.0 && alpha >= 0.0 && 0.0 <= u < v && other >= 0.0
    ensures var b1 := EffectiveB(bMin, alpha, u, other, floor);
            var b2 := EffectiveB(bMin, alpha, v, other, floor);
            && b1 > 0.0 && b2 > 0.0
            && Rating(m, u, other, b1) < Rating(m, v, other, b2)
            && Rating(m, other, u, b1) > Rating(m, other, v, b2)
  {
    var b1, b2 := EffectiveB(bMin, alpha, u, other, floor), EffectiveB(bMin, alpha, v, other, floor);
    RelativeImbalanceGrows(bMin, alpha, u, v, other, floor);
    hide EffectiveB, Price, Rating;
    PriceOrder(m, u, other, b1, v, other, b2);
    PriceRange(m, u, other, b1);
    PriceRange(m, v, other, b2);
    RatingIsPrice(m, u, other, b1);
    RatingIsPrice(m, v, other, b2);
    RatingIsPrice(m, other, u, b1);
    RatingIsPrice(m, other, v, b2);
  }

  // ---- Seeding ----

  /** Reading the rating of a freshly seeded market gives the seed back. */
  lemma SeedingRoundTrip(m: Maths, rBase: real, bMin: real)
    requires Valid(m) && bMin > 0.0 && 0.01 <= rBase <= 9.99
    ensures var (qUp, qDown) := InitializeMarket(m, rBase, bMin);
            && qUp >= 0.0 && qDown >= 0.0 && (qUp == 0.0 || qDown == 0.0)
            && Rating(m, qUp, qDown, bMin) == rBase
  {
    var (qUp, qDown) := InitializeMarket(m, rBase, bMin);
    var p := rBase / 10.0;
    RatingIsPrice(m, qUp, qDown, bMin);
    PriceRange(m, qUp, qDown, bMin);
    var r := 1.0 - p;
    if p >= 0.5 {
      SeedSide(m, p, p / r, qUp, bMin);
    } else {
      SeedSide(m, r, r / p, qDown, bMin);
    }
  }

  lemma SeedSide(m: Maths, p: real, odds: real, own: real, bMin: real)
    requires Valid(m) && bMin > 0.0 && 0.5 <= p < 1.0
    requires odds * (1.0 - p) == p && odds > 0.0 && own == bMin * Ln(m, odds)
    ensures own >= 0.0
    ensures Price(m, own, 0.0, bMin) == p
  {
    var r, one, z := 1.0 - p, 1.0, 0.0;
    CancelPos(1.0, odds, r);
    LnOne(m);
    LnReflects(m, one, odds);
    CancelPos(0.0, Ln(m, odds), bMin);
    QuotientUnique(own, bMin, Ln(m, odds));
    ExpOfLn(m, odds);
    ExpZero(m, z / bMin);
    OddsToShare(p, r, odds);
  }

  lemma OddsToShare(p: real, r: real, odds: real)
    requires p + r == 1.0 && odds > 0.0 && odds * r == p
    ensures odds / (odds + 1.0) == p
  {
    assert p * (odds + 1.0) == odds * (p + r);
    QuotientUnique(odds, odds + 1.0, p);
  }

  /** Outside that range the safety clamp decides: any rating below 0.01 is seeded as 0.01
      and any above 9.99 as 9.99. */
  lemma SeedingClamps(m: Maths, rBase: real, bMin: real)
    requires Valid(m) && bMin > 0.0
    ensures var (qUp, qDown) := InitializeMarket(m, rBase, bMin);
            && qUp >= 0.0 && qDown >= 0.0
            && Rating(m, qUp, qDown, bMin) == Max(0.01, Min(9.99, rBase))
  {
    var clamped := Max(0.01, Min(9.99, rBase));
    hide Rating;
    SeedingRoundTrip(m, clamped, bMin);
    assert Max(0.001, Min(0.999, clamped / 10.0)) == Max(0.001, Min(0.999, rBase / 10.0));
    hide SeedAt;
  }
}
