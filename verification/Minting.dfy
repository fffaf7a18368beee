/** Conservation: while each market trades at a constant effective b, the points it takes in
    are its cost difference to within a micro-point per trade, so points are never minted. */
module Minting {
  import opened ExpLn
  import opened Lmsr
  import opened LmsrTheory
  import opened BudgetTheory
  import opened Decimals
  import opened Trading
  import opened TradeTheory
  import opened Calibration
  import opened Sums
  import opened Economy

  type Liquidity = map<PlayerId, real>

  /** Points paid into a market minus points refunded from it. */
  ghost function Net(trades: seq<Trade>, player: PlayerId): real {
    if trades == [] then 0.0
    else
      var t := trades[|trades| - 1];
      Net(trades[..|trades| - 1], player) - (if t.key.player == player then Delta(t) else 0.0)
  }

  ghost function Count(trades: seq<Trade>, player: PlayerId): nat {
    if trades == [] then 0
    else
      var t := trades[|trades| - 1];
      Count(trades[..|trades| - 1], player) + (if t.key.player == player then 1 else 0)
  }

  lemma AppendNet(trades: seq<Trade>, t: Trade, player: PlayerId)
    ensures Net(trades + [t], player) == Net(trades, player) - (if t.key.player == player then Delta(t) else 0.0)
    ensures Count(trades + [t], player) == Count(trades, player) + (if t.key.player == player then 1 else 0)
  {
    assert (trades + [t])[..|trades + [t]| - 1] == trades;
  }

  ghost predicate Covers(beta: Liquidity, st: State) {
    st.markets.Keys <= beta.Keys && forall p :: p in beta ==> beta[p] > 0.0
  }

  /** A step at constant b: each order prices at the b its market is held to, a market opened
      has a b to be held to, and a recalibration finds nothing to change. */
  ghost predicate SteadyStep(st: State, e: Event, beta: Liquidity) {
    match e
    case Register(_) => true
    case Deactivate(_) => true
    case Import(player, _, bMin) => player in beta || bMin <= 0
    case Recalibrate(target) => forall p :: p in st.markets ==> target <= Milli4(st.markets[p].bMin)
    case BuyOrder(floor, key, _) =>
      key.player in st.markets && key.player in beta ==> st.markets[key.player].B(floor) == beta[key.player]
    case SellOrder(floor, key, _) =>
      key.player in st.markets && key.player in beta ==> st.markets[key.player].B(floor) == beta[key.player]
  }

  ghost predicate SteadyRun(m: Maths, st: State, events: seq<Event>, beta: Liquidity)
    requires Valid(m) && Inv(st)
    decreases |events|
  {
    if events == [] then true
    else
      InvIsPositive(st);
      StepKeepsInv(m, st, events[0]);
      SteadyStep(st, events[0], beta) && SteadyRun(m, Step(m, st, events[0]), events[1..], beta)
  }

  /** The cost of the shares that a newly imported market is seeded with. */
  ghost function Opening(m: Maths, st: State, e: Event, beta: Liquidity): real
    requires Covers(beta, st)
  {
    if e.Import? && e.bMin > 0 && e.player !in st.markets && e.player in beta
    then CostOf(m, SeedMarket(m, e.rBase, e.bMin), beta[e.player])
    else 0.0
  }

  // ---- One step ----

  ghost function Rise(m: Maths, st: State, w: Writes, b: real): real
    requires b > 0.0 && w.trade.key.player in st.markets
  {
    CostOf(m, w.market, b) - CostOf(m, st.markets[w.trade.key.player], b)
  }

  /** The market gains what the cost rose by, and keeps less than a micro-point more. */
  ghost predicate Booked(m: Maths, st: State, w: Writes, b: real)
    requires b > 0.0 && w.trade.key.player in st.markets
  {
    Rise(m, st, w, b) <= -Delta(w.trade) < Rise(m, st, w, b) + 0.000001
  }

  lemma BuyIsBooked(m: Maths, st: State, floor: real, key: PosKey, budget: real)
    requires Valid(m) && Inv(st) && budget > 0.0 && Buy(m, st, floor, key, budget).Ok?
    ensures st.markets[key.player].B(floor) > 0.0
    ensures Booked(m, st, Buy(m, st, floor, key, budget).value, st.markets[key.player].B(floor))
  {
    hide Cost, D6, RawShares, EffectiveB, DisplayRating;
    GrantIsLargest(m, st.markets[key.player], floor, key.dir, budget);
  }

  lemma SellIsBooked(m: Maths, st: State, floor: real, key: PosKey, shares: int)
    requires Valid(m) && Inv(st) && shares > 0 && Sell(m, st, floor, key, shares).Ok?
    ensures st.markets[key.player].B(floor) > 0.0
    ensures Booked(m, st, Sell(m, st, floor, key, shares).value, st.markets[key.player].B(floor))
  {
    hide Cost, D6, RawRefund, EffectiveB, DisplayRating;
    var market := st.markets[key.player];
    PositiveMarketB(market, floor);
    var b := market.B(floor);
    RefundIsCostReleased(m, market, b, key.dir, shares);
    D6Exact(RawRefund(m, market, b, key.dir, shares), 0);
  }

  ghost function Potential(m: Maths, st: State, beta: Liquidity): real
    requires Covers(beta, st)
  {
    Sum(map p | p in st.markets :: CostOf(m, st.markets[p], beta[p]))
  }

  ghost function TotalPoints(st: State): real { Sum(st.points) }

  ghost function Users(st: State): real { |st.points| as real }

  /** The total books between two states: points plus potential change only by grants and by
      the seeds of new markets, and by less than a micro-point per trade of rounding in the
      house's favour. */
  ghost predicate BooksBalance(m: Maths, st: State, end: State, beta: Liquidity, seeds: real)
    requires Covers(beta, st) && Covers(beta, end)
  {
    var before := TotalPoints(st) + Potential(m, st, beta) + GRANT * (Users(end) - Users(st)) + seeds;
    var after := TotalPoints(end) + Potential(m, end, beta);
    before - 0.000001 * (|end.trades| - |st.trades|) as real <= after <= before
  }

  /** The books of one market between two states. */
  ghost predicate MarketBalances(m: Maths, st: State, end: State, p: PlayerId, b: real)
    requires b > 0.0 && p in st.markets && p in end.markets
  {
    var rise := CostOf(m, end.markets[p], b) - CostOf(m, st.markets[p], b);
    var net := Net(end.trades, p) - Net(st.trades, p);
    rise <= net <= rise + 0.000001 * (Count(end.trades, p) - Count(st.trades, p)) as real
  }

  ghost function Slack(st: State, p: PlayerId, dir: Direction): real
    requires p in st.markets
  {
    Micro(st.markets[p].Own(dir)) - Owned(st.positions, p, dir)
  }

  /** What a steady step does to one market. */
  ghost predicate StepAt(m: Maths, st: State, end: State, p: PlayerId, b: real)
    requires b > 0.0 && p in st.markets && p in end.markets
  {
    && MarketBalances(m, st, end, p, b)
    && Slack(end, p, UP) == Slack(st, p, UP)
    && Slack(end, p, DOWN) == Slack(st, p, DOWN)
  }

  ghost predicate Steps(m: Maths, st: State, end: State, beta: Liquidity, seeds: real)
    requires Covers(beta, st)
  {
    && st.markets.Keys <= end.markets.Keys
    && Covers(beta, end)
    && BooksBalance(m, st, end, beta, seeds)
    && (forall p :: p in st.markets ==> StepAt(m, st, end, p, beta[p]))
  }

  lemma TradeStepAt(m: Maths, st: State, w: Writes, p: PlayerId, b: real)
    requires Faithful(st, w) && p in st.markets && b > 0.0
    requires p == w.trade.key.player ==> Booked(m, st, w, b)
    ensures StepAt(m, st, Apply(st, w), p, b)
  {
    hide CostOf, Slack, Basis, Booked, MarketBalances;
    TradeBooksOne(m, st, w, p, b);
    TradeKeepsSlack(st, w, p, UP);
    TradeKeepsSlack(st, w, p, DOWN);
  }

  lemma TradeBooksOne(m: Maths, st: State, w: Writes, p: PlayerId, b: real)
    requires Faithful(st, w) && p in st.markets && b > 0.0
    requires p == w.trade.key.player ==> Booked(m, st, w, b)
    ensures p in Apply(st, w).markets && MarketBalances(m, st, Apply(st, w), p, b)
  {
    hide CostOf, Basis, Net, Count, Delta;
    var end := Apply(st, w);
    AppendNet(st.trades, w.trade, p);
    assert end.trades == st.trades + [w.trade];
    if p == w.trade.key.player {
      assert end.markets[p] == w.market;
      hide Faithful;
      assert Count(end.trades, p) - Count(st.trades, p) == 1;
    } else {
      assert end.markets[p] == st.markets[p];
      hide Faithful;
      assert Count(end.trades, p) - Count(st.trades, p) == 0;
    }
  }

  lemma TradeKeepsSlack(st: State, w: Writes, p: PlayerId, dir: Direction)
    requires Faithful(st, w) && p in st.markets
    ensures p in Apply(st, w).markets && Slack(Apply(st, w), p, dir) == Slack(st, p, dir)
  {
    hide Owned, Basis;
    OwnedAfterPut(st.positions, w.trade.key, w.position, p, dir);
    MicroOrder(st.markets[p].Own(dir), Signed(w.trade));
  }

  lemma TradeSteps(m: Maths, st: State, w: Writes, beta: Liquidity)
    requires Faithful(st, w) && Covers(beta, st)
    requires Booked(m, st, w, beta[w.trade.key.player])
    ensures Steps(m, st, Apply(st, w), beta, 0.0)
  {
    hide StepAt, BooksBalance, Booked;
    forall p | p in st.markets ensures StepAt(m, st, Apply(st, w), p, beta[p]) {
      TradeStepAt(m, st, w, p, beta[p]);
    }
    TradeBooks(m, st, w, beta);
  }

  lemma TradeBooks(m: Maths, st: State, w: Writes, beta: Liquidity)
    requires Faithful(st, w) && Covers(beta, st)
    requires Booked(m, st, w, beta[w.trade.key.player])
    ensures Covers(beta, Apply(st, w)) && BooksBalance(m, st, Apply(st, w), beta, 0.0)
  {
    hide CostOf;
    var end, key := Apply(st, w), w.trade.key;
    var costs := map p | p in st.markets :: CostOf(m, st.markets[p], beta[p]);
    assert end.markets.Keys == st.markets.Keys;
    assert (map p | p in end.markets :: CostOf(m, end.markets[p], beta[p]))
        == costs[key.player := CostOf(m, w.market, beta[key.player])];
    SumPut(costs, key.player, CostOf(m, w.market, beta[key.player]));
    SumPut(st.points, key.user, w.points);
    assert end.points.Keys == st.points.Keys;
    assert |end.points| == |end.points.Keys| == |st.points.Keys| == |st.points|;
  }

  /** Nothing but (possibly) new grants: the books move by the grants alone. */
  lemma QuietSteps(m: Maths, st: State, end: State, beta: Liquidity)
    requires Covers(beta, st)
    requires end.markets == st.markets && end.positions == st.positions && end.trades == st.trades
    requires TotalPoints(end) == TotalPoints(st) + GRANT * (Users(end) - Users(st))
    ensures Steps(m, st, end, beta, 0.0)
  {
    hide CostOf, Owned, Net, Count, TotalPoints, Potential;
    assert Potential(m, end, beta) == Potential(m, st, beta) by { SamePotential(m, st, end, beta); }
  }

  /** A new market adds its seed to the potential and touches nothing else. */
  lemma ImportSteps(m: Maths, st: State, end: State, beta: Liquidity, player: PlayerId, seeded: Market)
    requires Covers(beta, st) && player in beta && player !in st.markets
    requires end.markets == st.markets[player := seeded]
    requires end.points == st.points && end.positions == st.positions && end.trades == st.trades
    ensures Steps(m, st, end, beta, CostOf(m, seeded, beta[player]))
  {
    hide CostOf, Owned, Net, Count, TotalPoints, Potential;
    SamePoints(st, end);
    ImportPotential(m, st, end, beta, player, seeded);
  }

  lemma ImportPotential(m: Maths, st: State, end: State, beta: Liquidity, player: PlayerId, seeded: Market)
    requires Covers(beta, st) && player in beta && player !in st.markets
    requires end.markets == st.markets[player := seeded]
    ensures Covers(beta, end)
    ensures Potential(m, end, beta) == Potential(m, st, beta) + CostOf(m, seeded, beta[player])
  {
    hide CostOf;
    var costs := map p | p in st.markets :: CostOf(m, st.markets[p], beta[p]);
    assert (map p | p in end.markets :: CostOf(m, end.markets[p], beta[p]))
        == costs[player := CostOf(m, seeded, beta[player])];
    SumPut(costs, player, CostOf(m, seeded, beta[player]));
  }

  lemma IdleRecalibration(st: State, target: real)
    requires Inv(st) && Positive(st.markets)
    requires forall p :: p in st.markets ==> target <= Milli4(st.markets[p].bMin)
    ensures RecalibrateAll(st, target) == st
  {
    hide Recalibrated;
    forall p | p in st.markets ensures Recalibrated(st.markets[p], target) == st.markets[p] {
      RatchetOnlyRises(st.markets[p], target);
    }
  }

  lemma SamePotential(m: Maths, st: State, end: State, beta: Liquidity)
    requires Covers(beta, st) && end.markets == st.markets
    ensures Potential(m, end, beta) == Potential(m, st, beta)
  {
    hide CostOf;
    assert (map p | p in end.markets :: CostOf(m, end.markets[p], beta[p]))
        == (map p | p in st.markets :: CostOf(m, st.markets[p], beta[p]));
  }

  lemma RegisterBooks(st: State, user: UserId)
    requires user !in st.points
    ensures var end := st.(points := st.points[user := GRANT]);
            TotalPoints(end) == TotalPoints(st) + GRANT * (Users(end) - Users(st))
  {
    SumPut(st.points, user, GRANT);
    assert st.points[user := GRANT].Keys == st.points.Keys + {user};
    assert |st.points[user := GRANT]| == |st.points| + 1;
  }

  lemma SteadyStepSteps(m: Maths, st: State, e: Event, beta: Liquidity)
    requires Valid(m) && Inv(st) && Positive(st.markets) && Covers(beta, st) && SteadyStep(st, e, beta)
    ensures Steps(m, st, Step(m, st, e), beta, Opening(m, st, e, beta))
  {
    hide CostOf, Cost, Buy, Sell, RecalibrateAll, SeedMarket, Owned, Net, Count, Steps, Booked, Faithful, TotalPoints;
    var end := Step(m, st, e);
    match e
    case BuyOrder(floor, key, budget) =>
      if budget > 0.0 && Buy(m, st, floor, key, budget).Ok? {
        BuyIsFaithful(m, st, floor, key, budget);
        assert key.player in st.markets by { BuyNamesRows(m, st, floor, key, budget); }
        BuyIsBooked(m, st, floor, key, budget);
        TradeSteps(m, st, Buy(m, st, floor, key, budget).value, beta);
      } else {
        QuietSteps(m, st, end, beta);
      }
    case SellOrder(floor, key, shares) =>
      if shares > 0 && Sell(m, st, floor, key, shares).Ok? {
        SellIsFaithful(m, st, floor, key, shares);
        assert key.player in st.markets by { SellNamesRows(m, st, floor, key, shares); }
        SellIsBooked(m, st, floor, key, shares);
        TradeSteps(m, st, Sell(m, st, floor, key, shares).value, beta);
      } else {
        QuietSteps(m, st, end, beta);
      }
    case Register(user) =>
      if user !in st.points {
        RegisterBooks(st, user);
      }
      QuietSteps(m, st, end, beta);
    case Import(player, rBase, bMin) =>
      if bMin > 0 && player !in st.markets {
        ImportSteps(m, st, end, beta, player, SeedMarket(m, rBase, bMin));
      } else {
        SamePoints(st, end);
        QuietSteps(m, st, end, beta);
      }
    case Recalibrate(target) =>
      IdleRecalibration(st, target);
      SamePoints(st, end);
      QuietSteps(m, st, end, beta);
    case Deactivate(_) =>
      SamePoints(st, end);
      QuietSteps(m, st, end, beta);
  }

  lemma NoSteps(m: Maths, st: State, beta: Liquidity)
    requires Covers(beta, st)
    ensures Steps(m, st, st, beta, 0.0)
  {
    hide CostOf, Owned, Net, Count, TotalPoints, Potential;
  }

  lemma StepsCover(m: Maths, st: State, end: State, beta: Liquidity, seeds: real)
    requires Covers(beta, st) && Steps(m, st, end, beta, seeds)
    ensures Covers(beta, end)
  {
  }

  lemma SamePoints(st: State, end: State)
    requires end.points == st.points
    ensures TotalPoints(end) == TotalPoints(st)
  {
  }

  lemma BuyNamesRows(m: Maths, st: State, floor: real, key: PosKey, budget: real)
    requires Buy(m, st, floor, key, budget).Ok?
    ensures key.player in st.markets && Buy(m, st, floor, key, budget).value.trade.key == key
  {
    hide EffectiveB, RawShares, DisplayRating, D6, NewAverage;
  }

  lemma SellNamesRows(m: Maths, st: State, floor: real, key: PosKey, shares: int)
    requires shares > 0 && Sell(m, st, floor, key, shares).Ok?
    ensures key.player in st.markets && Sell(m, st, floor, key, shares).value.trade.key == key
  {
    hide EffectiveB, RawRefund, DisplayRating, D6;
  }

  // ---- Runs ----

  lemma StepsCompose(m: Maths, st: State, mid: State, end: State, beta: Liquidity, seeds: real, more: real)
    requires Covers(beta, st) && Steps(m, st, mid, beta, seeds)
    requires Covers(beta, mid) && Steps(m, mid, end, beta, more)
    ensures Steps(m, st, end, beta, seeds + more)
  {
    hide CostOf, Potential, TotalPoints, Net, Count, Owned;
    forall p | p in st.markets ensures StepAt(m, st, end, p, beta[p]) {
      assert StepAt(m, st, mid, p, beta[p]);
      assert StepAt(m, mid, end, p, beta[p]);
    }
  }

  ghost function Openings(m: Maths, st: State, events: seq<Event>, beta: Liquidity): real
    requires Valid(m) && Inv(st) && Covers(beta, st) && SteadyRun(m, st, events, beta)
    decreases |events|
  {
    if events == [] then 0.0
    else
      InvIsPositive(st);
      StepKeepsInv(m, st, events[0]);
      SteadyStepSteps(m, st, events[0], beta);
      Opening(m, st, events[0], beta) + Openings(m, Step(m, st, events[0]), events[1..], beta)
  }

  /** Over any steady run each market's takings are its cost difference to within a
      micro-point per trade, its uncovered stock is unchanged, and the total books balance. */
  lemma {:induction false} SteadyRunBalances(m: Maths, st: State, events: seq<Event>, beta: Liquidity)
    requires Valid(m) && Inv(st) && Covers(beta, st) && SteadyRun(m, st, events, beta)
    ensures Steps(m, st, Run(m, st, events), beta, Openings(m, st, events, beta))
    decreases |events|
  {
    hide Steps, Step, SteadyStep;
    if events == [] {
      NoSteps(m, st, beta);
    } else {
      InvIsPositive(st);
      StepKeepsInv(m, st, events[0]);
      var mid := Step(m, st, events[0]);
      SteadyStepSteps(m, st, events[0], beta);
      StepsCover(m, st, mid, beta, Opening(m, st, events[0], beta));
      SteadyRunBalances(m, mid, events[1..], beta);
      StepsCompose(m, st, mid, Run(m, st, events), beta, Opening(m, st, events[0], beta),
                   Openings(m, mid, events[1..], beta));
    }
  }

  /** No shares outstanding. */
  ghost predicate Flat(st: State) {
    forall k :: k in st.positions ==> st.positions[k].shares == 0
  }

  lemma CostRises(m: Maths, market: Market, after: Market, b: real)
    requires Valid(m) && b > 0.0 && market.qUp <= after.qUp && market.qDown <= after.qDown
    ensures CostOf(m, market, b) <= CostOf(m, after, b)
  {
    hide Cost;
    var u, d, u2, d2 := Micro(market.qUp), Micro(market.qDown), Micro(after.qUp), Micro(after.qDown);
    MicroOrder(market.qUp, after.qUp);
    MicroOrder(market.qDown, after.qDown);
    CostMono(m, u2, u, d, b);
    CostMono(m, d2, d, u2, b);
    CostSymmetric(m, u2, d, b);
    CostSymmetric(m, u2, d2, b);
  }
}
