/** What one trade means: the shares a budget is granted, when a buy is refused, which way
    the rating moves, what an immediate resale returns. */
module TradeTheory {
  import opened Arithmetic
  import opened ExpLn
  import opened Lmsr
  import opened LmsrTheory
  import opened BudgetTheory
  import opened LiquidityTheory
  import opened Decimals
  import opened Trading

  ghost function CostOf(m: Maths, market: Market, b: real): real
    requires b > 0.0
  {
    Cost(m, Micro(market.qUp), Micro(market.qDown), b)
  }

  ghost predicate Unclamped(m: Maths, market: Market, dir: Direction, b: real, budget: real)
    requires b > 0.0
  {
    ClampIdle(m, Micro(market.Own(dir)), Micro(market.Other(dir)), b, budget)
  }

  /** Both directions are one computation on (own, other). */
  lemma InOwnTerms(m: Maths, market: Market, dir: Direction, b: real, budget: real, shares: int)
    requires Valid(m) && b > 0.0
    ensures RawShares(m, market, b, dir, budget) == Bought(m, Micro(market.Own(dir)), Micro(market.Other(dir)), b, budget)
    ensures RawRefund(m, market, b, dir, shares)
            == SellRefundUp(m, Micro(market.Own(dir)), Micro(market.Other(dir)), b, Micro(shares))
    ensures CostOf(m, market.Moved(dir, shares), b)
            == Cost(m, Micro(market.Own(dir)) + Micro(shares), Micro(market.Other(dir)), b)
    ensures CostOf(m, market, b) == Cost(m, Micro(market.Own(dir)), Micro(market.Other(dir)), b)
  {
    hide Cost;
    DownMirrorsUp(m, Micro(market.qUp), Micro(market.qDown), b, budget);
    DownMirrorsUp(m, Micro(market.qUp), Micro(market.qDown), b, Micro(shares));
    CostSymmetric(m, Micro(market.qUp), Micro(market.qDown), b);
    CostSymmetric(m, Micro(market.qUp), Micro(market.qDown) + Micro(shares), b);
    MicroOrder(market.qUp, shares);
    MicroOrder(market.qDown, shares);
  }

  /** INV-04 on the rows: the effective b is at least b_min. */
  lemma PositiveMarketB(market: Market, floor: real)
    requires MarketOk(market)
    ensures market.B(floor) >= Milli4(market.bMin) > 0.0
  {
    PositiveB(Milli4(market.bMin), market.alpha, Micro(market.qUp), Micro(market.qDown), floor);
  }

  lemma MarketStaysOk(market: Market, dir: Direction, shares: int, rating: int)
    requires MarketOk(market) && market.Own(dir) + shares >= 0
    ensures MarketOk(market.Moved(dir, shares).(rating := rating))
    ensures market.Moved(dir, shares).(rating := rating).B(0.0) == market.Moved(dir, shares).B(0.0)
  {
  }

  /** The exponent clamp never acts on a market of the engine, whatever the floor and however
      small the budget. */
  lemma NeverClamped(m: Maths, market: Market, floor: real, dir: Direction, budget: real)
    requires Valid(m) && Standard(market) && budget > 0.0
    ensures market.B(floor) > 0.0
    ensures Unclamped(m, market, dir, market.B(floor), budget)
  {
    hide Cost, EffectiveB;
    var own, other := Micro(market.Own(dir)), Micro(market.Other(dir));
    ClampNeverActs(m, Milli4(market.bMin), market.alpha, own, other, floor, budget);
    EffectiveBSymmetric(Milli4(market.bMin), market.alpha, own, other, floor);
  }

  lemma GrantAt(m: Maths, market: Market, b: real, dir: Direction, budget: real)
    requires Valid(m) && b > 0.0 && budget > 0.0 && Unclamped(m, market, dir, b, budget)
    ensures var shares := D6(RawShares(m, market, b, dir, budget));
            var spent := CostOf(m, market.Moved(dir, shares), b) - CostOf(m, market, b);
            && shares >= 0
            && budget - 0.000001 < spent <= budget
            && budget < CostOf(m, market.Moved(dir, shares + 1), b) - CostOf(m, market, b)
  {
    hide Cost, D6;
    var own, other := Micro(market.Own(dir)), Micro(market.Other(dir));
    var raw := Bought(m, own, other, b, budget);
    InOwnTerms(m, market, dir, b, budget, 0);
    var shares := D6(raw);
    BudgetInversion(m, own, other, b, budget);
    D6Exact(raw, shares);
    InOwnTerms(m, market, dir, b, budget, shares);
    InOwnTerms(m, market, dir, b, budget, shares + 1);
    TruncatedSpend(m, own, other, b, budget, Micro(shares), 0.000001);
    CostMono(m, own + raw, own + Micro(shares + 1), other, b);
  }

  /** The grant is the largest number of micro-shares whose cost the budget covers, so less
      than one micro-point of the budget goes unspent. */
  lemma GrantIsLargest(m: Maths, market: Market, floor: real, dir: Direction, budget: real)
    requires Valid(m) && Standard(market) && budget > 0.0
    ensures market.B(floor) > 0.0
    ensures var b := market.B(floor);
            var shares := D6(RawShares(m, market, b, dir, budget));
            var spent := CostOf(m, market.Moved(dir, shares), b) - CostOf(m, market, b);
            && shares >= 0
            && budget - 0.000001 < spent <= budget
            && budget < CostOf(m, market.Moved(dir, shares + 1), b) - CostOf(m, market, b)
  {
    NeverClamped(m, market, floor, dir, budget);
    GrantAt(m, market, market.B(floor), dir, budget);
  }

  /** A budget buys nothing exactly when it does not cover one micro-share. */
  lemma ZeroSharesExactly(m: Maths, market: Market, floor: real, dir: Direction, budget: real)
    requires Valid(m) && Standard(market) && budget > 0.0
    ensures market.B(floor) > 0.0
    ensures var b := market.B(floor);
            D6(RawShares(m, market, b, dir, budget)) == 0
            <==> budget < CostOf(m, market.Moved(dir, 1), b) - CostOf(m, market, b)
  {
    hide Cost, D6, EffectiveB, RawShares;
    GrantIsLargest(m, market, floor, dir, budget);
    var b := market.B(floor);
    var shares := D6(RawShares(m, market, b, dir, budget));
    var own, other := Micro(market.Own(dir)), Micro(market.Other(dir));
    InOwnTerms(m, market, dir, b, budget, shares);
    InOwnTerms(m, market, dir, b, budget, shares + 1);
    InOwnTerms(m, market, dir, b, budget, 1);
    if shares > 0 {
      MicroOrder(1, shares);
      CostMono(m, own + Micro(1), own + Micro(shares), other, b);
      CostMono(m, own + Micro(shares), own + Micro(1), other, b);
    }
  }

  /** A buy goes through exactly when the portfolio, the player and the market exist, the
      player trades, the balance covers the budget and the budget covers one micro-share. */
  lemma BuySucceedsExactly(m: Maths, st: State, floor: real, key: PosKey, budget: real)
    requires Valid(m) && budget > 0.0
    requires key.player in st.markets ==> Standard(st.markets[key.player])
    ensures Buy(m, st, floor, key, budget).Ok? <==>
              && key.user in st.points && budget <= st.points[key.user]
              && key.player in st.active && st.active[key.player]
              && key.player in st.markets
              && var market := st.markets[key.player];
                 && market.B(floor) > 0.0
                 && budget >= CostOf(m, market.Moved(key.dir, 1), market.B(floor)) - CostOf(m, market, market.B(floor))
  {
    hide CostOf, D6, RawShares, EffectiveB;
    if key.player in st.markets {
      var market := st.markets[key.player];
      GrantIsLargest(m, market, floor, key.dir, budget);
      ZeroSharesExactly(m, market, floor, key.dir, budget);
      var shares := D6(RawShares(m, market, market.B(floor), key.dir, budget));
      MarketStaysOk(market, key.dir, shares, 0);
      PositiveMarketB(market.Moved(key.dir, shares), floor);
    }
  }

  /** The preview tells the truth: on the same market it quotes the shares, the cost and the
      rating of the buy, and a buy it quotes shares for is refused only for reasons the
      preview does not look at. */
  lemma PreviewPredictsBuy(m: Maths, st: State, floor: real, key: PosKey, budget: real)
    requires key.player in st.markets && MarketOk(st.markets[key.player])
    ensures var quote := PreviewBuy(m, floor, key.dir, budget, Find(st.markets, key.player));
            var r := Buy(m, st, floor, key, budget);
            && quote.Ok? && quote.value.shares >= 0
            && (r.Ok? ==>
                  && quote.value.shares == r.value.trade.shares > 0
                  && quote.value.cost == r.value.trade.amount
                  && quote.value.ratingAfter == r.value.trade.ratingAfter == r.value.market.rating)
            && (r.Err? && quote.value.shares > 0 ==>
                  r.error in {PortfolioMissing, PlayerNotFound, InactivePlayer, InsufficientPoints})
  {
    hide D6, RawShares, EffectiveB, DisplayRating, NewAverage;
    var market := st.markets[key.player];
    PositiveMarketB(market, floor);
    GrantNonNegative(m, market, market.B(floor), key.dir, budget);
    var shares := D6(RawShares(m, market, market.B(floor), key.dir, budget));
    MarketStaysOk(market, key.dir, shares, 0);
    PositiveMarketB(market.Moved(key.dir, shares), floor);
  }

  lemma GrantNonNegative(m: Maths, market: Market, b: real, dir: Direction, budget: real)
    requires b > 0.0
    ensures D6(RawShares(m, market, b, dir, budget)) >= 0
  {
    hide Cost;
  }

  // ---- The rating ----

  ghost function ExactRating(m: Maths, market: Market, floor: real): real
    requires market.B(floor) > 0.0
  {
    Rating(m, Micro(market.qUp), Micro(market.qDown), market.B(floor))
  }

  /** Adding shares to one side moves the rating strictly that way before rounding, and
      never the other way after rounding to 4 decimals, although b moves as well. */
  lemma SharesMoveRating(m: Maths, market: Market, floor: real, dir: Direction, shares: int)
    requires Valid(m) && MarketOk(market) && shares > 0
    ensures var moved := market.Moved(dir, shares);
            && market.B(floor) > 0.0 && moved.B(floor) > 0.0
            && (dir == UP ==>
                  && ExactRating(m, market, floor) < ExactRating(m, moved, floor)
                  && DisplayRating(m, market, market.B(floor)) <= DisplayRating(m, moved, moved.B(floor)))
            && (dir == DOWN ==>
                  && ExactRating(m, market, floor) > ExactRating(m, moved, floor)
                  && DisplayRating(m, market, market.B(floor)) >= DisplayRating(m, moved, moved.B(floor)))
  {
    hide Rating, EffectiveB, D4;
    var moved := market.Moved(dir, shares);
    var own, other := Micro(market.Own(dir)), Micro(market.Other(dir));
    PositiveMarketB(market, floor);
    PositiveMarketB(moved, floor);
    MicroOrder(market.Own(dir), shares);
    RatingFollowsShares(m, Milli4(market.bMin), market.alpha, own, own + Micro(shares), other, floor);
    if dir == DOWN {
      EffectiveBSymmetric(Milli4(market.bMin), market.alpha, own, other, floor);
      EffectiveBSymmetric(Milli4(market.bMin), market.alpha, own + Micro(shares), other, floor);
      D4Mono(ExactRating(m, moved, floor), ExactRating(m, market, floor));
    } else {
      D4Mono(ExactRating(m, market, floor), ExactRating(m, moved, floor));
    }
  }

  lemma EffectiveBSymmetric(bMin: real, alpha: real, u: real, v: real, floor: real)
    ensures EffectiveB(bMin, alpha, u, v, floor) == EffectiveB(bMin, alpha, v, u, floor)
  {
    assert u + v == v + u;
  }

  /** The direction in which a recorded trade pushes the rating. */
  ghost predicate RatingMovedBy(trade: Trade) {
    if (trade.side == BUY) == (trade.key.dir == UP)
    then trade.ratingBefore <= trade.ratingAfter
    else trade.ratingBefore >= trade.ratingAfter
  }

  lemma BuyMovesRating(m: Maths, st: State, floor: real, key: PosKey, budget: real)
    requires Valid(m) && Buy(m, st, floor, key, budget).Ok?
    requires MarketOk(st.markets[key.player])
    ensures var w := Buy(m, st, floor, key, budget).value;
            && RatingMovedBy(w.trade) && w.trade.ratingAfter == w.market.rating
            && 0 <= w.trade.ratingBefore <= 100000 && 0 <= w.market.rating <= 100000
  {
    hide Rating, EffectiveB, D4, D6, RawShares;
    var market := st.markets[key.player];
    var shares := D6(RawShares(m, market, market.B(floor), key.dir, budget));
    SharesMoveRating(m, market, floor, key.dir, shares);
    RatingInRange(m, market, market.B(floor));
    RatingInRange(m, market.Moved(key.dir, shares), market.Moved(key.dir, shares).B(floor));
  }

  /** INV-01. */
  lemma RatingInRange(m: Maths, market: Market, b: real)
    requires b > 0.0
    ensures 0 <= DisplayRating(m, market, b) <= 100000
  {
    D4Range(Rating(m, Micro(market.qUp), Micro(market.qDown), b));
  }

  lemma SellMovesRating(m: Maths, st: State, floor: real, key: PosKey, shares: int)
    requires Valid(m) && shares > 0 && Sell(m, st, floor, key, shares).Ok?
    requires MarketOk(st.markets[key.player]) && shares <= st.markets[key.player].Own(key.dir)
    ensures var w := Sell(m, st, floor, key, shares).value;
            && RatingMovedBy(w.trade) && w.trade.ratingAfter == w.market.rating
            && 0 <= w.trade.ratingBefore <= 100000 && 0 <= w.market.rating <= 100000
  {
    hide Rating, EffectiveB, D4, D6, RawRefund;
    var market := st.markets[key.player];
    var moved := market.Moved(key.dir, -shares);
    MarketStaysOk(market, key.dir, -shares, market.rating);
    SharesMoveRating(m, moved, floor, key.dir, shares);
    assert moved.Moved(key.dir, shares) == market;
    RatingInRange(m, market, market.B(floor));
    RatingInRange(m, moved, moved.B(floor));
  }

  // ---- The recorded ratings ----

  /** A rating in ticks shows a price: it is ten times the price rounded half to even, hence to
      within half a tick. */
  ghost predicate Shows(rating: int, price: real) {
    && NearestEven(10.0 * price * 10000.0, rating)
    && -0.00005 <= Milli4(rating) - 10.0 * price <= 0.00005
  }

  ghost function PriceAt(m: Maths, market: Market, floor: real): real
    requires Valid(m) && market.B(floor) > 0.0
  {
    Price(m, Micro(market.qUp), Micro(market.qDown), market.B(floor))
  }

  lemma DisplayShowsPrice(m: Maths, market: Market, b: real)
    requires Valid(m) && b > 0.0
    ensures Shows(DisplayRating(m, market, b), Price(m, Micro(market.qUp), Micro(market.qDown), b))
  {
    hide Rating, Price, HalfEven;
    RatingIsPrice(m, Micro(market.qUp), Micro(market.qDown), b);
    HalfEvenExactly(Rating(m, Micro(market.qUp), Micro(market.qDown), b) * 10000.0, DisplayRating(m, market, b));
    HalfEvenError(Rating(m, Micro(market.qUp), Micro(market.qDown), b) * 10000.0);
  }

  /** A committed buy records the price before it, at the b it was priced with, and shows and
      records the price after it, at the b of the moved market. */
  lemma BuyRecordsPrices(m: Maths, st: State, floor: real, key: PosKey, budget: real)
    requires Valid(m) && Buy(m, st, floor, key, budget).Ok? && MarketOk(st.markets[key.player])
    ensures var before, w := st.markets[key.player], Buy(m, st, floor, key, budget).value;
            && before.B(floor) > 0.0 && w.market.B(floor) > 0.0
            && w.market.Own(key.dir) == before.Own(key.dir) + w.trade.shares
            && w.market.Other(key.dir) == before.Other(key.dir)
            && Shows(w.trade.ratingBefore, PriceAt(m, before, floor))
            && Shows(w.trade.ratingAfter, PriceAt(m, w.market, floor))
            && Shows(w.market.rating, PriceAt(m, w.market, floor))
  {
    hide Price, EffectiveB, D6, RawShares, DisplayRating, NewAverage, Shows;
    var market := st.markets[key.player];
    var shares := D6(RawShares(m, market, market.B(floor), key.dir, budget));
    var moved := market.Moved(key.dir, shares);
    DisplayShowsPrice(m, market, market.B(floor));
    DisplayShowsPrice(m, moved, moved.B(floor));
  }

  lemma SellRecordsPrices(m: Maths, st: State, floor: real, key: PosKey, shares: int)
    requires Valid(m) && shares > 0 && Sell(m, st, floor, key, shares).Ok? && MarketOk(st.markets[key.player])
    ensures var before, w := st.markets[key.player], Sell(m, st, floor, key, shares).value;
            && before.B(floor) > 0.0 && w.market.B(floor) > 0.0
            && w.market.Own(key.dir) == before.Own(key.dir) - shares
            && w.market.Other(key.dir) == before.Other(key.dir)
            && Shows(w.trade.ratingBefore, PriceAt(m, before, floor))
            && Shows(w.trade.ratingAfter, PriceAt(m, w.market, floor))
            && Shows(w.market.rating, PriceAt(m, w.market, floor))
  {
    hide Price, EffectiveB, D6, RawRefund, DisplayRating, Shows;
    var market := st.markets[key.player];
    var moved := market.Moved(key.dir, -shares);
    DisplayShowsPrice(m, market, market.B(floor));
    DisplayShowsPrice(m, moved, moved.B(floor));
  }

  /** The preview quotes the price after the shares it quotes. */
  lemma PreviewShowsPrice(m: Maths, market: Market, floor: real, dir: Direction, budget: real)
    requires Valid(m) && MarketOk(market)
    ensures var quote := PreviewBuy(m, floor, dir, budget, Some(market));
            && quote.Ok? && quote.value.shares >= 0 && quote.value.cost == budget
            && var moved := market.Moved(dir, quote.value.shares);
               moved.B(floor) > 0.0 && Shows(quote.value.ratingAfter, PriceAt(m, moved, floor))
  {
    hide Price, EffectiveB, D6, RawShares, DisplayRating, Shows;
    PositiveMarketB(market, floor);
    GrantNonNegative(m, market, market.B(floor), dir, budget);
    var moved := market.Moved(dir, D6(RawShares(m, market, market.B(floor), dir, budget)));
    MarketStaysOk(market, dir, D6(RawShares(m, market, market.B(floor), dir, budget)), 0);
    PositiveMarketB(moved, floor);
    DisplayShowsPrice(m, moved, moved.B(floor));
  }

  // ---- Refusals ----

  /** Why a buy is refused, in the order of the checks. */
  lemma BuyRefusedExactly(m: Maths, st: State, floor: real, key: PosKey, budget: real)
    requires key.player in st.markets ==> MarketOk(st.markets[key.player])
    ensures var r := Buy(m, st, floor, key, budget);
            var known := key.user in st.points && key.player in st.active;
            var trades := known && st.active[key.player];
            var pays := trades && budget <= st.points[key.user];
            && (r == Err(PortfolioMissing) <==> key.user !in st.points)
            && (r == Err(PlayerNotFound) <==> key.user in st.points && key.player !in st.active)
            && (r == Err(InactivePlayer) <==> known && !st.active[key.player])
            && (r == Err(InsufficientPoints) <==> trades && budget > st.points[key.user])
            && (r == Err(MarketNotFound) <==> pays && key.player !in st.markets)
            && (r.Ok? || r == Err(ZeroShares) <==> pays && key.player in st.markets)
  {
    hide D6, RawShares, EffectiveB, DisplayRating, NewAverage;
    if key.player in st.markets {
      var market := st.markets[key.player];
      PositiveMarketB(market, floor);
      GrantNonNegative(m, market, market.B(floor), key.dir, budget);
      var shares := D6(RawShares(m, market, market.B(floor), key.dir, budget));
      MarketStaysOk(market, key.dir, shares, 0);
      PositiveMarketB(market.Moved(key.dir, shares), floor);
    }
  }

  // ---- Refunds ----

  /** The refund before truncation is the cost released, and lies between the shares at the
      price after the sale and the shares at the price before it. */
  lemma RefundIsCostReleased(m: Maths, market: Market, b: real, dir: Direction, shares: int)
    requires Valid(m) && b > 0.0 && shares > 0
    ensures var raw := RawRefund(m, market, b, dir, shares);
            && raw == CostOf(m, market, b) - CostOf(m, market.Moved(dir, -shares), b)
            && 0.0 < raw < Micro(shares)
            && Micro(shares) * Price(m, Micro(market.Own(dir)) - Micro(shares), Micro(market.Other(dir)), b) < raw
            && raw < Micro(shares) * Price(m, Micro(market.Own(dir)), Micro(market.Other(dir)), b)
  {
    hide Cost, Price;
    var own, other := Micro(market.Own(dir)), Micro(market.Other(dir));
    InOwnTerms(m, market, dir, b, 1.0, shares);
    InOwnTerms(m, market, dir, b, 1.0, -shares);
    assert Micro(-shares) == -Micro(shares);
    SlippageSandwich(m, own - Micro(shares), own, other, b);
    assert own - (own - Micro(shares)) == Micro(shares);
  }

  /** Where a resale at the grown b cannot exceed the budget, decided before the buy: the side
      bought is not behind, or the budget covers its lag to within truncation, or the floor
      outlasts the buy. */
  ghost predicate NoResaleGain(m: Maths, market: Market, dir: Direction, floor: real, budget: real)
    requires Standard(market)
  {
    var own, other := Micro(market.Own(dir)), Micro(market.Other(dir));
    || own >= other
    || budget - 0.000001 >= other - own
    || FloorOutlasts(m, own, other, Milli4(market.bMin), market.alpha, floor, budget)
  }

  lemma BGrowsWithShares(market: Market, dir: Direction, floor: real, shares: int)
    requires MarketOk(market) && shares >= 0
    ensures 0.0 < market.B(floor) <= market.Moved(dir, shares).B(floor)
  {
    hide EffectiveB;
    var own, other := Micro(market.Own(dir)), Micro(market.Other(dir));
    PositiveMarketB(market, floor);
    MicroOrder(market.Own(dir), shares);
    GrowingB(Milli4(market.bMin), market.alpha, own, own + Micro(shares), other, floor);
    EffectiveBSymmetric(Milli4(market.bMin), market.alpha, own, other, floor);
    EffectiveBSymmetric(Milli4(market.bMin), market.alpha, own + Micro(shares), other, floor);
  }

  /** The market and the shares of a committed buy, and what its resale, perhaps at another
      floor, then does: it always goes through, restores every share count, and leaves
      points - budget + refund. */
  lemma ResaleGoesThrough(m: Maths, st: State, floor: real, floor2: real, key: PosKey, budget: real)
    requires Valid(m) && budget > 0.0 && Buy(m, st, floor, key, budget).Ok?
    requires Standard(st.markets[key.player])
    requires key in st.positions ==> st.positions[key].shares >= 0
    ensures var market, w := st.markets[key.player], Buy(m, st, floor, key, budget).value;
            var shares := w.trade.shares;
            && market.B(floor) > 0.0 && shares == D6(RawShares(m, market, market.B(floor), key.dir, budget)) > 0
            && w.market == market.Moved(key.dir, shares).(rating := w.market.rating)
            && w.market.B(floor2) > 0.0
            && var r := Sell(m, Apply(st, w), floor2, key, shares);
               && r.Ok?
               && var end := Apply(Apply(st, w), r.value);
                  && end.points == st.points[key.user :=
                       st.points[key.user] - budget
                       + Micro(D6(RawRefund(m, w.market, w.market.B(floor2), key.dir, shares)))]
                  && end.markets[key.player].Own(key.dir) == market.Own(key.dir)
                  && end.positions[key].shares == HeldIn(Find(st.positions, key))
  {
    hide Cost, D6, D4, RawShares, RawRefund, DisplayRating, EffectiveB, NewAverage;
    var market := st.markets[key.player];
    var w := Buy(m, st, floor, key, budget).value;
    var shares := w.trade.shares;
    PositiveMarketB(market, floor);
    MarketStaysOk(market, key.dir, shares, w.market.rating);
    PositiveMarketB(w.market, floor2);
    PositiveMarketB(market, floor2);
    assert w.market.Moved(key.dir, -shares) == market.(rating := w.market.rating);
    assert w.market.Moved(key.dir, -shares).B(floor2) == market.B(floor2);
    MicroOrder(shares, w.market.Own(key.dir));
  }

  /** What the resale of a grant refunds, in terms of the holdings before the buy. */
  lemma ResaleRefund(m: Maths, market: Market, floor: real, dir: Direction, budget: real, bought: Market)
    requires Valid(m) && Standard(market) && budget > 0.0
    requires market.B(floor) > 0.0
    requires var shares := D6(RawShares(m, market, market.B(floor), dir, budget));
             shares > 0 && bought == market.Moved(dir, shares).(rating := bought.rating)
    ensures var shares := D6(RawShares(m, market, market.B(floor), dir, budget));
            && bought.B(floor) > 0.0
            && var refund := Micro(D6(RawRefund(m, bought, bought.B(floor), dir, shares)));
               && (NoResaleGain(m, market, dir, floor, budget) ==> refund <= budget)
               && (budget < Micro(market.Other(dir)) - Micro(market.Own(dir)) || bought.B(floor) == market.B(floor)
                   ==> refund > budget - 0.000002)
  {
    hide Cost, D6, EffectiveB, RawShares, RawRefund, SharesForBudget, SellRefundUp, FloorOutlasts;
    var own, other := Micro(market.Own(dir)), Micro(market.Other(dir));
    var b := market.B(floor);
    var shares := D6(RawShares(m, market, b, dir, budget));
    NeverClamped(m, market, floor, dir, budget);
    BGrowsWithShares(market, dir, floor, shares);
    var b2 := market.Moved(dir, shares).B(floor);
    assert bought.B(floor) == b2;
    InOwnTerms(m, market, dir, b, budget, shares);
    BudgetInversion(m, own, other, b, budget);
    D6Exact(Bought(m, own, other, b, budget), shares);
    InOwnTerms(m, bought, dir, b2, budget, shares);
    MicroOrder(market.Own(dir), shares);
    assert Micro(bought.Own(dir)) == own + Micro(shares) && Micro(bought.Other(dir)) == other;
    var raw := RawRefund(m, bought, b2, dir, shares);
    RawRefundNonNegative(m, bought, b2, dir, shares);
    D6Exact(raw, D6(raw));
    TruncatedMiddle(m, own, other, b, budget, Micro(shares), 0.000001);
    if NoResaleGain(m, market, dir, floor, budget) {
      FloorKeepsB(m, market, dir, floor, budget, shares);
      ResaleOfTruncated(m, own, other, b, b2, budget, Micro(shares));
    }
    if budget < other - own || b2 == b {
      ResaleShortOfBalance(m, own, other, b, b2, budget, Micro(shares), 0.000001);
    }
  }

  lemma RawRefundNonNegative(m: Maths, market: Market, b: real, dir: Direction, shares: int)
    requires b > 0.0
    ensures RawRefund(m, market, b, dir, shares) >= 0.0
  {
    hide Cost;
  }

  /** A floor that outlasts the full grant outlasts the truncated one. */
  lemma FloorKeepsB(m: Maths, market: Market, dir: Direction, floor: real, budget: real, shares: int)
    requires Valid(m) && Standard(market) && budget > 0.0 && market.B(floor) > 0.0
    requires 0 <= shares && Micro(shares) <= Bought(m, Micro(market.Own(dir)), Micro(market.Other(dir)), market.B(floor), budget)
    ensures FloorOutlasts(m, Micro(market.Own(dir)), Micro(market.Other(dir)), Milli4(market.bMin), market.alpha, floor, budget)
            ==> market.Moved(dir, shares).B(floor) == market.B(floor)
  {
    hide Cost, EffectiveB, SharesForBudget, FloorOutlasts;
    var own, other, bMin := Micro(market.Own(dir)), Micro(market.Other(dir)), Milli4(market.bMin);
    var full := Bought(m, own, other, market.B(floor), budget);
    NeverClamped(m, market, floor, dir, budget);
    BGrowsWithShares(market, dir, floor, shares);
    MicroOrder(market.Own(dir), shares);
    EffectiveBSymmetric(bMin, market.alpha, own, other, floor);
    EffectiveBSymmetric(bMin, market.alpha, own + Micro(shares), other, floor);
    BStaysExactly(m, own, other, bMin, market.alpha, floor, budget);
    GrowingB(bMin, market.alpha, own + Micro(shares), own + full, other, floor);
  }

  /** Buying and selling the grant straight back never ends with more points, under a
      condition on the market and the budget alone. */
  lemma ImmediateResaleNeverProfits(m: Maths, st: State, floor: real, key: PosKey, budget: real)
    requires Valid(m) && budget > 0.0 && Buy(m, st, floor, key, budget).Ok?
    requires Standard(st.markets[key.player])
    requires key in st.positions ==> st.positions[key].shares >= 0
    requires NoResaleGain(m, st.markets[key.player], key.dir, floor, budget)
    ensures var w := Buy(m, st, floor, key, budget).value;
            && w.trade.shares > 0
            && var r := Sell(m, Apply(st, w), floor, key, w.trade.shares);
               && r.Ok?
               && var end := Apply(Apply(st, w), r.value);
                  && end.points[key.user] <= st.points[key.user]
                  && end.markets[key.player].Own(key.dir) == st.markets[key.player].Own(key.dir)
                  && end.positions[key].shares == HeldIn(Find(st.positions, key))
  {
    hide Cost, D6, RawShares, RawRefund, DisplayRating, EffectiveB, NewAverage, NoResaleGain;
    var w := Buy(m, st, floor, key, budget).value;
    ResaleGoesThrough(m, st, floor, floor, key, budget);
    ResaleRefund(m, st.markets[key.player], floor, key.dir, budget, w.market);
  }

  /** The other way round: with less than the lag of its side, or at an unmoved b, the round
      trip loses less than two micro-points. */
  lemma ImmediateResaleLosesNothing(m: Maths, st: State, floor: real, key: PosKey, budget: real)
    requires Valid(m) && budget > 0.0 && Buy(m, st, floor, key, budget).Ok?
    requires Standard(st.markets[key.player])
    requires key in st.positions ==> st.positions[key].shares >= 0
    requires var market := st.markets[key.player];
             || budget < Micro(market.Other(key.dir)) - Micro(market.Own(key.dir))
             || Buy(m, st, floor, key, budget).value.market.B(floor) == market.B(floor)
    ensures var w := Buy(m, st, floor, key, budget).value;
            && w.trade.shares > 0
            && var r := Sell(m, Apply(st, w), floor, key, w.trade.shares);
               r.Ok? && Apply(Apply(st, w), r.value).points[key.user] > st.points[key.user] - 0.000002
  {
    hide Cost, D6, RawShares, RawRefund, DisplayRating, EffectiveB, NewAverage;
    var w := Buy(m, st, floor, key, budget).value;
    ResaleGoesThrough(m, st, floor, floor, key, budget);
    ResaleRefund(m, st.markets[key.player], floor, key.dir, budget, w.market);
  }

  const B_BASE := 10000.0

  /** A market far out of balance: b_min 100, the default alpha, two million DOWN shares and no
      UP shares.  Its natural b is 100100. */
  ghost predicate FarRow(market: Market) {
    market.bMin == 1000000 && market.alpha == DEFAULT_ALPHA && market.qUp == 0 && market.qDown == 2000000000000
  }

  /** Users with the initial grant, and one such market. */
  ghost function FarMarket(users: set<UserId>, player: PlayerId): State {
    State(map[player := true], map[player := Market(1000000, DEFAULT_ALPHA, 0, 2000000000000, 0)],
          map user | user in users :: 1000.0, map[], [], [])
  }

  lemma FarShares(m: Maths, market: Market, floor: real)
    requires Valid(m) && FarRow(market) && floor <= 100100.0
    ensures market.B(floor) == 100100.0
    ensures var shares := D6(RawShares(m, market, 100100.0, UP, 1000.0));
            && shares > 0
            && market.Moved(UP, shares).B(floor) == 100100.0 + 0.05 * Micro(shares)
            && RawRefund(m, market.Moved(UP, shares), 100100.0 + 0.05 * Micro(shares), UP, shares) > 1301.0
  {
    hide Cost, D6, RawShares, SellRefundUp, SharesForBudget;
    assert market.B(floor) == 100100.0;
    GrantIsLargest(m, market, floor, UP, 1000.0);
    var shares := D6(RawShares(m, market, 100100.0, UP, 1000.0));
    InOwnTerms(m, market, UP, 100100.0, 1000.0, shares);
    assert Micro(market.qUp) == 0.0 && Micro(market.qDown) == 2000000.0;
    FarResale(m, Micro(shares));
    var bought := market.Moved(UP, shares);
    assert Micro(bought.qUp) == Micro(shares);
    InOwnTerms(m, bought, UP, 100100.0 + 0.05 * Micro(shares), 1000.0, shares);
  }

  /** Two trades of the engine there, at any floor that the natural b has overtaken: a thousand
      points spent on UP shares, which are then sold, come back as more than 1300, and the
      market is as it was, so that it can be done again. */
  lemma ResaleProfits(m: Maths, st: State, floor: real, key: PosKey)
    requires Valid(m) && floor <= 100100.0 && key.dir == UP
    requires key.player in st.markets && FarRow(st.markets[key.player])
    requires key.player in st.active && st.active[key.player]
    requires key.user in st.points && st.points[key.user] >= 1000.0
    requires key in st.positions ==> st.positions[key].shares >= 0
    ensures var buy := Buy(m, st, floor, key, 1000.0);
            && buy.Ok? && buy.value.trade.shares > 0
            && var sell := Sell(m, Apply(st, buy.value), floor, key, buy.value.trade.shares);
               && sell.Ok?
               && var end := Apply(Apply(st, buy.value), sell.value);
                  && end.points == st.points[key.user := end.points[key.user]]
                  && end.points[key.user] > st.points[key.user] + 300.0
                  && FarRow(end.markets[key.player])
  {
    hide Cost, D6, RawShares, RawRefund, DisplayRating, NewAverage, EffectiveB;
    var market := st.markets[key.player];
    FarShares(m, market, floor);
    var shares := D6(RawShares(m, market, 100100.0, UP, 1000.0));
    MarketStaysOk(market, UP, shares, 0);
    PositiveMarketB(market.Moved(UP, shares), floor);
    assert Buy(m, st, floor, key, 1000.0).Ok?;
    ResaleGoesThrough(m, st, floor, floor, key, 1000.0);
    var bought := Buy(m, st, floor, key, 1000.0).value.market;
    SameRefund(m, market.Moved(UP, shares), bought, bought.B(floor), UP, shares);
    var raw := RawRefund(m, bought, bought.B(floor), UP, shares);
    D6Exact(raw, D6(raw));
  }

  /** The refund does not depend on the rating column. */
  lemma SameRefund(m: Maths, market: Market, rated: Market, b: real, dir: Direction, shares: int)
    requires b > 0.0 && rated.qUp == market.qUp && rated.qDown == market.qDown
    ensures RawRefund(m, rated, b, dir, shares) == RawRefund(m, market, b, dir, shares)
  {
    hide Cost;
  }

  /** So an immediate resale can profit: the grant of one user becomes more than 1300 points. */
  lemma ResaleCanProfit(m: Maths, users: set<UserId>, user: UserId, player: PlayerId, floor: real)
    requires Valid(m) && user in users && floor <= 100100.0
    ensures var st, key := FarMarket(users, player), PosKey(user, player, UP);
            var buy := Buy(m, st, floor, key, 1000.0);
            && buy.Ok? && buy.value.trade.shares > 0
            && var sell := Sell(m, Apply(st, buy.value), floor, key, buy.value.trade.shares);
               sell.Ok? && Apply(Apply(st, buy.value), sell.value).points[user] > 1300.0
  {
    hide Buy, Sell, Apply;
    ResaleProfits(m, FarMarket(users, player), floor, PosKey(user, player, UP));
  }

  // ---- Both sides of a market ----

  /** At one b, selling shares of both sides of a market pays strictly more than the two sales
      would separately, and the same in either order: closing one side raises the price of the
      other. */
  lemma BothSidesPayMore(m: Maths, market: Market, b: real, s: int, t: int)
    requires Valid(m) && b > 0.0 && s > 0 && t > 0
    ensures var upFirst := RawRefund(m, market, b, UP, s) + RawRefund(m, market.Moved(UP, -s), b, DOWN, t);
            && upFirst == RawRefund(m, market, b, DOWN, t) + RawRefund(m, market.Moved(DOWN, -t), b, UP, s)
            && upFirst == CostOf(m, market, b) - CostOf(m, market.Moved(UP, -s).Moved(DOWN, -t), b)
            && upFirst > RawRefund(m, market, b, UP, s) + RawRefund(m, market, b, DOWN, t)
  {
    hide Cost, Price, RawRefund, SellRefundUp;
    var upSold, downSold := market.Moved(UP, -s), market.Moved(DOWN, -t);
    RefundIsCostReleased(m, market, b, UP, s);
    RefundIsCostReleased(m, market, b, DOWN, t);
    RefundIsCostReleased(m, upSold, b, DOWN, t);
    RefundIsCostReleased(m, downSold, b, UP, s);
    assert upSold.Moved(DOWN, -t) == downSold.Moved(UP, -s);
    InOwnTerms(m, market, DOWN, b, 1.0, t);
    InOwnTerms(m, upSold, DOWN, b, 1.0, t);
    MicroOrder(market.qUp, s);
    RefundByImbalance(m, Micro(upSold.qDown), Micro(upSold.qUp), Micro(market.qDown), Micro(market.qUp), b, Micro(t));
  }

  // ---- Recorded prices and the cost basis ----

  lemma PricePerShare(points: real, shares: real)
    requires points >= 0.0 && shares > 0.0
    ensures D6(points / shares) >= 0
    ensures Micro(D6(points / shares)) * shares <= points < (Micro(D6(points / shares)) + 0.000001) * shares
  {
    hide D6;
    var q := points / shares;
    assert q * shares == points;
    CancelPos(0.0, q, shares);
    D6Exact(q, D6(q));
    CancelPos(Micro(D6(q)), q, shares);
    calc {
      points;
    ==
      q * shares;
    <  { CancelPos(q, Micro(D6(q)) + 0.000001, shares); }
      (Micro(D6(q)) + 0.000001) * shares;
    }
  }

  /** The recorded price per share of a trade accounts for its points to within 1e-6 per share;
      for a sell, whose points are truncated apart from its price, to one micro-point more. */
  ghost predicate PriceAccounts(trade: Trade) {
    var price, shares := Micro(trade.price), Micro(trade.shares);
    && trade.price >= 0
    && trade.amount < (price + 0.000001) * shares
    && (trade.side == BUY ==> price * shares <= trade.amount)
    && (trade.side == SELL ==> price * shares < trade.amount + 0.000001)
  }

  lemma BuyPriceAccounts(m: Maths, st: State, floor: real, key: PosKey, budget: real)
    requires budget > 0.0 && Buy(m, st, floor, key, budget).Ok?
    ensures PriceAccounts(Buy(m, st, floor, key, budget).value.trade)
  {
    hide D6, RawShares, EffectiveB, DisplayRating, NewAverage;
    var trade := Buy(m, st, floor, key, budget).value.trade;
    PricePerShare(budget, Micro(trade.shares));
    MicroOrder(0, D6(budget / Micro(trade.shares)));
  }

  lemma SellPriceAccounts(m: Maths, st: State, floor: real, key: PosKey, shares: int)
    requires shares > 0 && Sell(m, st, floor, key, shares).Ok?
    ensures PriceAccounts(Sell(m, st, floor, key, shares).value.trade)
  {
    hide D6, RawRefund, EffectiveB, DisplayRating;
    var market := st.markets[key.player];
    var raw := RawRefund(m, market, market.B(floor), key.dir, shares);
    RawRefundNonNegative(m, market, market.B(floor), key.dir, shares);
    D6Exact(raw, D6(raw));
    PricePerShare(raw, Micro(shares));
  }

  ghost function Basis(p: Option<Position>): real {
    if p.Some? then Micro(p.value.shares) * Micro(p.value.average) else 0.0
  }

  ghost function HeldIn(p: Option<Position>): int {
    if p.Some? then p.value.shares else 0
  }

  /** One buy: the basis shares x average takes up the budget, losing less than 1e-6 per
      share now held. */
  lemma BasisAfterBuy(position: Option<Position>, shares: int, budget: real)
    requires shares > 0 && budget > 0.0
    requires position.Some? ==> position.value.shares >= 0 && position.value.average >= 0
    ensures var after := Position(HeldIn(position) + shares, NewAverage(position, shares, budget));
            && after.average >= 0
            && 0.0 <= Basis(position) + budget - Basis(Some(after)) < 0.000001 * Micro(after.shares)
  {
    hide D6;
    MicroOrder(HeldIn(position), shares);
    var total := Micro(HeldIn(position) + shares);
    if position.Some? {
      NonNegativeProduct(Micro(position.value.shares), Micro(position.value.average));
    }
    PricePerShare(Basis(position) + budget, total);
    var average := Micro(NewAverage(position, shares, budget));
    assert (average + 0.000001) * total == average * total + 0.000001 * total;
  }

}
