/** The market row that an import writes, quantisation included, and what becomes of its price
    once trades are priced at the effective b. */
module Seeding {
  import opened ExpLn
  import opened Arithmetic
  import opened Lmsr
  import opened LmsrTheory
  import opened LiquidityTheory
  import opened Decimals
  import opened Trading
  import opened TradeTheory
  import opened Calibration
  import opened Fairness
  import opened Economy

  /** The exact seed: which side holds the shares, and the price it stands for. */
  lemma SeedSides(m: Maths, rBase: real, bMin: real)
    requires Valid(m) && bMin > 0.0 && 0.01 <= rBase <= 9.99
    ensures var (qUp, qDown) := InitializeMarket(m, rBase, bMin);
            && qUp >= 0.0 && qDown >= 0.0
            && (rBase >= 5.0 ==> qDown == 0.0) && (rBase < 5.0 ==> qUp == 0.0)
            && (rBase > 5.0 ==> qUp > 0.0) && (rBase < 5.0 ==> qDown > 0.0)
            && 10.0 * Price(m, qUp, qDown, bMin) == rBase
  {
    hide Rating, Price;
    SeedingRoundTrip(m, rBase, bMin);
    var (qUp, qDown) := InitializeMarket(m, rBase, bMin);
    RatingIsPrice(m, qUp, qDown, bMin);
    if qUp == qDown {
      EvenPrice(m, qUp, bMin);
    }
  }

  lemma HalfUpAtZero()
    ensures HalfUp(0.0 * 1000000.0) == 0
  {
  }

  lemma HalfUpShares(q: real)
    requires q >= 0.0
    ensures HalfUp(q * 1000000.0) >= 0
    ensures Gap(Micro(HalfUp(q * 1000000.0)), q) <= 0.0000005
  {
    HalfUpExactly(q * 1000000.0, HalfUp(q * 1000000.0));
  }

  lemma SeedRatingShows(x: real)
    ensures Gap(Milli4(HalfUp(x * 10000.0)), x) <= 0.00005
    ensures -0.5 <= x * 10000.0 - HalfUp(x * 10000.0) as real < 0.5
  {
    HalfUpExactly(x * 10000.0, HalfUp(x * 10000.0));
  }

  /** The row of a newly imported player: active, with the default alpha and the given b_min,
      its rating and the price of its holdings at b_min within half a tick of the oracle
      rating, and the shares on the side that rating favours. */
  lemma ImportedMarket(m: Maths, st: State, player: PlayerId, rBase: real, bMin: int)
    requires Valid(m) && Positive(st.markets) && player !in st.markets && bMin > 0 && 0.01 <= rBase <= 9.99
    ensures var after := Step(m, st, Import(player, rBase, bMin));
            && player in after.active && after.active[player]
            && player in after.markets
            && var row := after.markets[player];
               && row.bMin == bMin && row.alpha == 0.05 && Milli4(bMin) > 0.0
               && (rBase >= 5.0 ==> row.qDown == 0) && (rBase <= 5.0 ==> row.qUp == 0)
               && row.qUp >= 0 && row.qDown >= 0
               && -0.5 <= rBase * 10000.0 - row.rating as real < 0.5 && Gap(Milli4(row.rating), rBase) <= 0.00005
               && after.history == st.history + [(player, row.rating)]
               && Gap(10.0 * Price(m, Micro(row.qUp), Micro(row.qDown), Milli4(bMin)), rBase) * Milli4(bMin) <= 0.000005
  {
    hide Rating, Price, HalfUp, InitializeMarket, Gap, Micro;
    var b := Milli4(bMin);
    var (qUp, qDown) := InitializeMarket(m, rBase, b);
    SeedSides(m, rBase, b);
    SeedingRoundTrip(m, rBase, b);
    SeedRatingShows(rBase);
    HalfUpShares(qUp);
    HalfUpShares(qDown);
    HalfUpAtZero();
    if rBase == 5.0 {
      EvenSeed(m, qUp, b);
    }
    var row := SeedMarket(m, rBase, bMin);
    MicroZero();
    SeedPrice(m, qUp, qDown, Micro(row.qUp), Micro(row.qDown), b, rBase);
  }

  lemma MicroZero()
    ensures Micro(0) == 0.0
  {
  }

  lemma EvenSeed(m: Maths, q: real, b: real)
    requires Valid(m) && b > 0.0 && 10.0 * Price(m, q, 0.0, b) == 5.0
    ensures q == 0.0
  {
    EvenPrice(m, 0.0, b);
    if q < 0.0 {
      SlippageSandwich(m, q, 0.0, 0.0, b);
    } else if q > 0.0 {
      SlippageSandwich(m, 0.0, q, 0.0, b);
    }
  }

  lemma SeedPrice(m: Maths, qUp: real, qDown: real, up: real, down: real, b: real, rBase: real)
    requires Valid(m) && b > 0.0 && 10.0 * Price(m, qUp, qDown, b) == rBase
    requires Gap(up, qUp) <= 0.0000005 && Gap(down, qDown) <= 0.0000005
    requires (qUp == 0.0 && up == 0.0) || (qDown == 0.0 && down == 0.0)
    ensures Gap(10.0 * Price(m, up, down, b), rBase) * b <= 0.000005
  {
    hide Price;
    var x, x2 := qUp / b - qDown / b, up / b - down / b;
    ImbalanceOverB(qUp, qDown, b, x);
    ImbalanceOverB(up, down, b, x2);
    PriceGap(m, qUp, qDown, b, up, down, b);
    assert (x2 - x) * b == (up - down) - (qUp - qDown);
    GapScaled(Gap(Price(m, up, down, b), Price(m, qUp, qDown, b)), x2, x, b, 0.0000005);
    TenTimes(Price(m, up, down, b), Price(m, qUp, qDown, b), b);
  }

  /** Once trades are priced at the effective b, which exceeds b_min as soon as there are
      shares, the seeded price lies strictly between balance and the seed: the first trade
      finds a rating strictly nearer to 5 than the imported one. */
  lemma SeedFades(m: Maths, rBase: real, bMin: real, alpha: real, floor: real)
    requires Valid(m) && bMin > 0.0 && alpha > 0.0 && 0.01 <= rBase <= 9.99
    ensures var (qUp, qDown) := InitializeMarket(m, rBase, bMin);
            var b := EffectiveB(bMin, alpha, qUp, qDown, floor);
            && b > 0.0
            && (rBase > 5.0 ==> 5.0 < 10.0 * Price(m, qUp, qDown, b) < rBase)
            && (rBase < 5.0 ==> rBase < 10.0 * Price(m, qUp, qDown, b) < 5.0)
            && (rBase == 5.0 ==> 10.0 * Price(m, qUp, qDown, b) == 5.0)
  {
    hide Price, InitializeMarket;
    var (qUp, qDown) := InitializeMarket(m, rBase, bMin);
    SeedSides(m, rBase, bMin);
    PositiveB(bMin, alpha, qUp, qDown, floor);
    var b := EffectiveB(bMin, alpha, qUp, qDown, floor);
    if rBase == 5.0 {
      EvenSeed(m, qUp, bMin);
      EvenPrice(m, 0.0, b);
    } else {
      CancelPos(0.0, qUp + qDown, alpha);
      assert b > bMin;
      EvenPrice(m, 0.0, b);
      if rBase > 5.0 {
        CancelPos(bMin, b, qUp);
        PriceOrder(m, qUp, 0.0, b, qUp, 0.0, bMin);
        PriceOrder(m, 0.0, 0.0, b, qUp, 0.0, b);
      } else {
        CancelPos(bMin, b, qDown);
        PriceOrder(m, 0.0, qDown, bMin, 0.0, qDown, b);
        PriceOrder(m, 0.0, qDown, b, 0.0, 0.0, b);
      }
    }
  }

  /** At the default floor of ten thousand and more, a seed of 8 on a b_min of 100 is first
      traded at 5.2 or less. */
  lemma SeedOfEightFades(m: Maths, floor: real)
    requires Valid(m) && floor >= B_BASE
    ensures var (qUp, qDown) := InitializeMarket(m, 8.0, 100.0);
            var b := EffectiveB(100.0, 0.05, qUp, qDown, floor);
            b > 0.0 && 10.0 * Price(m, qUp, qDown, b) <= 5.2
  {
    hide Price, InitializeMarket;
    var (qUp, qDown) := InitializeMarket(m, 8.0, 100.0);
    SeedSides(m, 8.0, 100.0);
    SeedOfEight(m);
    PositiveB(100.0, 0.05, qUp, qDown, floor);
    var b := EffectiveB(100.0, 0.05, qUp, qDown, floor);
    EvenPrice(m, 0.0, b);
    PriceGap(m, 0.0, 0.0, b, qUp, 0.0, b);
    var x := qUp / b - 0.0 / b;
    ImbalanceOverB(qUp, 0.0, b, x);
    CancelPos(x, 0.02, b);
    CancelPos(0.0, x, b);
    GapSides(Price(m, qUp, 0.0, b), Price(m, 0.0, 0.0, b));
  }

  lemma SeedOfEight(m: Maths)
    requires Valid(m)
    ensures InitializeMarket(m, 8.0, 100.0).0 <= 200.0
  {
    assert 0.8 / (1.0 - 0.8) == 4.0;
    ExpTangent(m, 1.0);
    ExpAtLeastFour(m);
    LnReflects(m, 4.0, Exp(m, 2.0));
    LnOfExp(m, 2.0);
  }

  lemma ExpAtLeastFour(m: Maths)
    requires Valid(m)
    ensures Exp(m, 2.0) >= 4.0
  {
    var one := 1.0;
    ExpTangent(m, one);
    ExpSum(m, one, one);
    ScaleMono(2.0, Exp(m, one), Exp(m, one));
  }
}
