/** Conservation when b moves.  Each market keeps an account: the b its last trade was priced
    at, how far re-pricing the shares outstanding at a new b has moved the cost (its drift),
    what recalibrations have added to the cost, and the total rise and fall of b.  What a
    market takes in is its cost difference less the drift and the gifts; so what any run mints
    is bounded by how far b moved. */
module Drift {
  import opened ExpLn
  import opened Lmsr
  import opened LiquidityTheory
  import opened Arithmetic
  import opened Decimals
  import opened Trading
  import opened TradeTheory
  import opened Calibration
  import opened Sums
  import opened Economy
  import opened Fairness
  import opened Minting

  datatype Account = Account(b: real, drift: real, gifts: real, rise: real, fall: real)

  ghost function Opened(b: real): Account { Account(b, 0.0, 0.0, 0.0, 0.0) }

  /** The event is an order on the market of p, and it commits. */
  ghost predicate Trades(m: Maths, st: State, e: Event, p: PlayerId) {
    match e
    case BuyOrder(floor, key, budget) => key.player == p && budget > 0.0 && Buy(m, st, floor, key, budget).Ok?
    case SellOrder(floor, key, shares) => key.player == p && shares > 0 && Sell(m, st, floor, key, shares).Ok?
    case _ => false
  }

  /** The account re-priced at the b of the next trade. */
  ghost function Repriced(m: Maths, market: Market, a: Account, b: real): Account
    requires a.b > 0.0 && b > 0.0
  {
    Account(b, a.drift + (CostOf(m, market, b) - CostOf(m, market, a.b)), a.gifts,
            a.rise + Max(0.0, b - a.b), a.fall + Max(0.0, a.b - b))
  }

  ghost function Gift(m: Maths, market: Market, target: real, b: real): real
    requires b > 0.0 && market.bMin > 0
  {
    CostOf(m, Recalibrated(market, target), b) - CostOf(m, market, b)
  }

  ghost function Tick(m: Maths, st: State, e: Event, p: PlayerId, a: Account): (next: Account)
    requires Inv(st) && a.b > 0.0
    ensures next.b > 0.0
  {
    if p !in st.markets then a
    else if Trades(m, st, e, p) then
      PositiveMarketB(st.markets[p], e.floor);
      Repriced(m, st.markets[p], a, st.markets[p].B(e.floor))
    else if e.Recalibrate? then a.(gifts := a.gifts + Gift(m, st.markets[p], e.target, a.b))
    else a
  }

  ghost function Audit(m: Maths, st: State, events: seq<Event>, p: PlayerId, a: Account): (last: Account)
    requires Valid(m) && Inv(st) && a.b > 0.0
    ensures last.b > 0.0
    decreases |events|
  {
    if events == [] then a
    else
      InvIsPositive(st);
      StepKeepsInv(m, st, events[0]);
      Audit(m, Step(m, st, events[0]), events[1..], p, Tick(m, st, events[0], p, a))
  }

  // ---- The law of one market ----

  /** Points taken in against the cost, each end at its own b, less drift and gifts. */
  ghost predicate Accounted(m: Maths, st: State, end: State, p: PlayerId, a: Account, last: Account)
    requires a.b > 0.0 && last.b > 0.0 && p in st.markets && p in end.markets
  {
    var due := CostOf(m, end.markets[p], last.b) - CostOf(m, st.markets[p], a.b)
               - (last.drift - a.drift) - (last.gifts - a.gifts);
    var net := Net(end.trades, p) - Net(st.trades, p);
    due <= net <= due + 0.000001 * (Count(end.trades, p) - Count(st.trades, p)) as real
  }

  /** The written rows of a committed order and the market's books at its own b. */
  lemma CommittedTrade(m: Maths, st: State, e: Event, p: PlayerId) returns (w: Writes)
    requires Valid(m) && Inv(st) && Positive(st.markets) && Trades(m, st, e, p)
    ensures Step(m, st, e) == Apply(st, w) && Faithful(st, w) && w.trade.key.player == p
    ensures p in st.markets && st.markets[p].B(e.floor) > 0.0 && Booked(m, st, w, st.markets[p].B(e.floor))
  {
    hide Buy, Sell, CostOf, Booked;
    match e
    case BuyOrder(floor, key, budget) =>
      w := Buy(m, st, floor, key, budget).value;
      BuyIsFaithful(m, st, floor, key, budget);
      BuyIsBooked(m, st, floor, key, budget);
    case SellOrder(floor, key, shares) =>
      w := Sell(m, st, floor, key, shares).value;
      SellIsFaithful(m, st, floor, key, shares);
      SellIsBooked(m, st, floor, key, shares);
  }

  /** A step that is no trade on p leaves its ledger alone, and its market too unless the step
      recalibrates. */
  lemma NoTrade(m: Maths, st: State, e: Event, p: PlayerId)
    requires Valid(m) && Inv(st) && Positive(st.markets) && !Trades(m, st, e, p)
    ensures Net(Step(m, st, e).trades, p) == Net(st.trades, p)
    ensures Count(Step(m, st, e).trades, p) == Count(st.trades, p)
    ensures p in st.markets ==>
              p in Step(m, st, e).markets
              && Step(m, st, e).markets[p]
                 == if e.Recalibrate? then Recalibrated(st.markets[p], e.target) else st.markets[p]
    ensures forall k: PosKey :: k.player == p ==> Find(Step(m, st, e).positions, k) == Find(st.positions, k)
  {
    hide Buy, Sell, SeedMarket, Net, Count, Recalibrated;
    match e
    case BuyOrder(floor, key, budget) =>
      if budget > 0.0 && Buy(m, st, floor, key, budget).Ok? {
        BuyIsFaithful(m, st, floor, key, budget);
        AppendNet(st.trades, Buy(m, st, floor, key, budget).value.trade, p);
      }
    case SellOrder(floor, key, shares) =>
      if shares > 0 && Sell(m, st, floor, key, shares).Ok? {
        SellIsFaithful(m, st, floor, key, shares);
        AppendNet(st.trades, Sell(m, st, floor, key, shares).value.trade, p);
      }
    case _ =>
  }

  lemma StepAccounted(m: Maths, st: State, e: Event, p: PlayerId, a: Account)
    requires Valid(m) && Inv(st) && Positive(st.markets) && p in st.markets && a.b > 0.0
    ensures p in Step(m, st, e).markets
    ensures Accounted(m, st, Step(m, st, e), p, a, Tick(m, st, e, p, a))
  {
    hide CostOf, Step, Inv, Faithful, Net, Count, Recalibrated;
    if Trades(m, st, e, p) {
      var w := CommittedTrade(m, st, e, p);
      hide Trades;
      AppendNet(st.trades, w.trade, p);
      assert Step(m, st, e).markets[p] == w.market;
      assert Step(m, st, e).trades == st.trades + [w.trade];
    } else {
      NoTrade(m, st, e, p);
      hide Trades;
    }
  }

  /** Over every run: budgets minus refunds of a market are its cost difference, each end at
      its own b, less the drift of the cost in b and what recalibrations added to it, to
      within a micro-point per trade. */
  lemma {:induction false} RunAccounted(m: Maths, st: State, events: seq<Event>, p: PlayerId, a: Account)
    requires Valid(m) && Inv(st) && p in st.markets && a.b > 0.0
    ensures p in Run(m, st, events).markets
    ensures Accounted(m, st, Run(m, st, events), p, a, Audit(m, st, events, p, a))
    decreases |events|
  {
    hide CostOf, Step, Inv, Tick, Net, Count;
    if events != [] {
      InvIsPositive(st);
      StepKeepsInv(m, st, events[0]);
      StepAccounted(m, st, events[0], p, a);
      RunAccounted(m, Step(m, st, events[0]), events[1..], p, Tick(m, st, events[0], p, a));
    }
  }

  // ---- What the account can show ----

  /** Drift within ln 2 times the movement of b; gifts never negative; rise and fall add up to
      the change of b. */
  ghost predicate Plausible(m: Maths, a: Account, last: Account) {
    && last.rise >= a.rise && last.fall >= a.fall && last.gifts >= a.gifts
    && last.b - a.b == (last.rise - a.rise) - (last.fall - a.fall)
    && last.drift - a.drift <= Ln(m, 2.0) * (last.rise - a.rise)
    && last.drift - a.drift >= -(Ln(m, 2.0) * (last.fall - a.fall))
  }

  lemma RepricedPlausible(m: Maths, market: Market, a: Account, b: real)
    requires Valid(m) && a.b > 0.0 && b > 0.0
    ensures Plausible(m, a, Repriced(m, market, a, b))
  {
    hide Cost;
    var qUp, qDown := Micro(market.qUp), Micro(market.qDown);
    if a.b <= b {
      CostDrift(m, qUp, qDown, a.b, b);
    } else {
      CostDrift(m, qUp, qDown, b, a.b);
    }
  }

  lemma GiftNonNegative(m: Maths, market: Market, target: real, b: real)
    requires Valid(m) && MarketOk(market) && b > 0.0
    ensures Gift(m, market, target, b) >= 0.0
  {
    hide CostOf, Recalibrated;
    RatchetOnlyRises(market, target);
    CostRises(m, market, Recalibrated(market, target), b);
  }

  /** A gift is at most the shares that the recalibration adds to the two sides. */
  lemma GiftAtMost(m: Maths, market: Market, target: real, b: real)
    requires Valid(m) && MarketOk(market) && b > 0.0
    ensures var r := Recalibrated(market, target);
            Gift(m, market, target, b) <= (Micro(r.qUp) - Micro(market.qUp)) + (Micro(r.qDown) - Micro(market.qDown))
  {
    hide Cost, Recalibrated;
    var r := Recalibrated(market, target);
    RatchetOnlyRises(market, target);
    MicroOrder(market.qUp, r.qUp);
    MicroOrder(market.qDown, r.qDown);
    CostClose(m, Micro(market.qUp), Micro(market.qDown), b, Micro(r.qUp), Micro(r.qDown), b);
  }

  lemma {:induction false} AuditPlausible(m: Maths, st: State, events: seq<Event>, p: PlayerId, a: Account)
    requires Valid(m) && Inv(st) && a.b > 0.0
    ensures Plausible(m, a, Audit(m, st, events, p, a))
    decreases |events|
  {
    hide Step, Plausible;
    if events == [] {
      assert Plausible(m, a, a) by { SamePlausible(m, a); }
    } else {
      InvIsPositive(st);
      StepKeepsInv(m, st, events[0]);
      var next := Tick(m, st, events[0], p, a);
      TickPlausible(m, st, events[0], p, a);
      AuditPlausible(m, Step(m, st, events[0]), events[1..], p, next);
      PlausibleComposes(m, a, next, Audit(m, st, events, p, a));
    }
  }

  lemma SamePlausible(m: Maths, a: Account)
    ensures Plausible(m, a, a)
  {
  }

  lemma TickPlausible(m: Maths, st: State, e: Event, p: PlayerId, a: Account)
    requires Valid(m) && Inv(st) && a.b > 0.0
    ensures Plausible(m, a, Tick(m, st, e, p, a))
  {
    hide Buy, Sell, Plausible, Gift, Repriced;
    SamePlausible(m, a);
    if p in st.markets {
      if Trades(m, st, e, p) {
        PositiveMarketB(st.markets[p], e.floor);
        RepricedPlausible(m, st.markets[p], a, st.markets[p].B(e.floor));
      } else if e.Recalibrate? {
        GiftNonNegative(m, st.markets[p], e.target, a.b);
        MoreGifts(m, a, Gift(m, st.markets[p], e.target, a.b));
      }
    }
  }

  lemma MoreGifts(m: Maths, a: Account, gift: real)
    requires gift >= 0.0
    ensures Plausible(m, a, a.(gifts := a.gifts + gift))
  {
  }

  lemma PlausibleComposes(m: Maths, a: Account, b: Account, c: Account)
    requires Plausible(m, a, b) && Plausible(m, b, c)
    ensures Plausible(m, a, c)
  {
    var l := Ln(m, 2.0);
    Distribute(b.rise - a.rise, c.rise - b.rise, l);
    Distribute(b.fall - a.fall, c.fall - b.fall, l);
  }

  // ---- What a run can mint ----

  /** The most a market can have paid out beyond what it took in. */
  ghost function Leak(m: Maths, last: Account): real {
    last.gifts + Ln(m, 2.0) * Max(last.rise, last.fall)
  }

  ghost predicate NoneHeld(st: State, p: PlayerId) {
    forall k :: k in st.positions && k.player == p ==> st.positions[k].shares == 0
  }

  lemma SlackGrows(m: Maths, st: State, e: Event, p: PlayerId, dir: Direction)
    requires Valid(m) && Inv(st) && Positive(st.markets) && p in st.markets
    ensures p in Step(m, st, e).markets && Slack(Step(m, st, e), p, dir) >= Slack(st, p, dir)
  {
    hide Step, Faithful, Recalibrated;
    if Trades(m, st, e, p) {
      var w := CommittedTrade(m, st, e, p);
      hide Trades;
      TradeKeepsSlack(st, w, p, dir);
    } else {
      NoTrade(m, st, e, p);
      hide Trades;
      var end := Step(m, st, e);
      SameHoldings(st, end, p, dir);
      if e.Recalibrate? {
        RatchetOnlyRises(st.markets[p], e.target);
        MicroOrder(st.markets[p].Own(dir), end.markets[p].Own(dir));
      }
    }
  }

  lemma SameHoldings(st: State, end: State, p: PlayerId, dir: Direction)
    requires forall k: PosKey :: k.player == p ==> Find(end.positions, k) == Find(st.positions, k)
    ensures Owned(end.positions, p, dir) == Owned(st.positions, p, dir)
  {
    var f, g := Holdings(st.positions, p, dir), Holdings(end.positions, p, dir);
    forall k: PosKey | k.player == p ensures (k in st.positions <==> k in end.positions)
                                   && (k in st.positions ==> st.positions[k] == end.positions[k]) {
      assert Find(end.positions, k) == Find(st.positions, k);
    }
    assert f == g;
  }

  lemma {:induction false} RunSlackGrows(m: Maths, st: State, events: seq<Event>, p: PlayerId, dir: Direction)
    requires Valid(m) && Inv(st) && p in st.markets
    ensures p in Run(m, st, events).markets && Slack(Run(m, st, events), p, dir) >= Slack(st, p, dir)
    decreases |events|
  {
    hide Step, Inv, Slack;
    if events != [] {
      InvIsPositive(st);
      StepKeepsInv(m, st, events[0]);
      SlackGrows(m, st, events[0], p, dir);
      RunSlackGrows(m, Step(m, st, events[0]), events[1..], p, dir);
    }
  }

  lemma StockCovers(st: State, end: State, p: PlayerId, dir: Direction)
    requires Inv(end) && NoneHeld(st, p) && p in st.markets && p in end.markets
    requires Slack(end, p, dir) >= Slack(st, p, dir)
    ensures st.markets[p].Own(dir) <= end.markets[p].Own(dir)
  {
    SumZero(Holdings(st.positions, p, dir));
    SumNonNegative(Holdings(end.positions, p, dir));
    MicroOrder(st.markets[p].Own(dir), end.markets[p].Own(dir));
  }

  /** A market none of whose shares are held pays out, net, at most the gifts of recalibration
      and ln 2 times the larger of the total rise and the total fall of its b. */
  lemma MarketMintsAtMost(m: Maths, st: State, events: seq<Event>, p: PlayerId, b: real)
    requires Valid(m) && Inv(st) && p in st.markets && NoneHeld(st, p) && b > 0.0
    ensures Net(Run(m, st, events).trades, p) >= Net(st.trades, p) - Leak(m, Audit(m, st, events, p, Opened(b)))
  {
    hide CostOf, Run, Audit, Net, Count, Inv, Slack;
    var end, last := Run(m, st, events), Audit(m, st, events, p, Opened(b));
    RunKeepsInv(m, st, events);
    RunAccounted(m, st, events, p, Opened(b));
    AuditPlausible(m, st, events, p, Opened(b));
    RunSlackGrows(m, st, events, p, UP);
    RunSlackGrows(m, st, events, p, DOWN);
    StockCovers(st, end, p, UP);
    StockCovers(st, end, p, DOWN);
    CostRises(m, st.markets[p], end.markets[p], last.b);
    EndsApart(m, st.markets[p], b, last.b);
    LeakBound(Ln(m, 2.0), last.rise, last.fall, last.drift, Max(0.0, b - last.b), Ln(m, 2.0) * Max(0.0, b - last.b));
  }

  lemma EndsApart(m: Maths, market: Market, b: real, b2: real)
    requires Valid(m) && b > 0.0 && b2 > 0.0
    ensures CostOf(m, market, b2) >= CostOf(m, market, b) - Ln(m, 2.0) * Max(0.0, b - b2)
  {
    hide Cost;
    if b2 < b {
      CostDrift(m, Micro(market.qUp), Micro(market.qDown), b2, b);
    } else {
      CostDrift(m, Micro(market.qUp), Micro(market.qDown), b, b2);
    }
  }

  lemma LeakBound(l: real, rise: real, fall: real, drift: real, back: real, paid: real)
    requires drift <= l * rise && back == Max(0.0, fall - rise) && paid == l * back
    ensures drift + paid <= l * Max(rise, fall)
  {
    Distribute(rise, back, l);
    assert rise + back == Max(rise, fall);
  }

  lemma {:induction false} NetOfUnknown(trades: seq<Trade>, p: PlayerId)
    requires forall t :: t in trades ==> t.key.player != p
    ensures Net(trades, p) == 0.0
  {
    if trades != [] {
      var n := |trades| - 1;
      assert trades[n] in trades;
      NetOfUnknown(trades[..n], p);
    }
  }

  /** The same from before the market exists: it opens without shares held. */
  lemma {:induction false} NewMarketMintsAtMost(m: Maths, st: State, events: seq<Event>, p: PlayerId, b: real)
    requires Valid(m) && Inv(st) && NoneHeld(st, p) && b > 0.0
    ensures Net(Run(m, st, events).trades, p) >= Net(st.trades, p) - Leak(m, Audit(m, st, events, p, Opened(b)))
    decreases |events|
  {
    hide Net, Leak, NoneHeld;
    if p in st.markets {
      MarketMintsAtMost(m, st, events, p, b);
    } else if events == [] {
      assert Leak(m, Opened(b)) == 0.0 by { NoLeak(m, b); }
    } else {
      InvIsPositive(st);
      StepKeepsInv(m, st, events[0]);
      NotYetTraded(m, st, events[0], p);
      NewMarketMintsAtMost(m, Step(m, st, events[0]), events[1..], p, b);
    }
  }

  lemma NoLeak(m: Maths, b: real)
    ensures Leak(m, Opened(b)) == 0.0
  {
  }

  lemma NotYetTraded(m: Maths, st: State, e: Event, p: PlayerId)
    requires Valid(m) && Inv(st) && Positive(st.markets) && p !in st.markets
    ensures Net(Step(m, st, e).trades, p) == Net(st.trades, p) && NoneHeld(Step(m, st, e), p)
  {
    hide Step, Net, Faithful;
    if Trades(m, st, e, p) {
      var w := CommittedTrade(m, st, e, p);
    } else {
      NoTrade(m, st, e, p);
      SameOwners(st, Step(m, st, e), p);
    }
  }

  lemma SameOwners(st: State, end: State, p: PlayerId)
    requires Keyed(st) && p !in st.markets
    requires forall k: PosKey :: k.player == p ==> Find(end.positions, k) == Find(st.positions, k)
    ensures NoneHeld(end, p)
  {
    assert forall k: PosKey :: k.player == p ==> Find(st.positions, k) == None;
    assert forall k :: k in end.positions ==> Find(end.positions, k) != None;
  }

  // ---- All markets together ----

  ghost function NetsOver(trades: seq<Trade>, players: set<PlayerId>): map<PlayerId, real> {
    map p | p in players :: Net(trades, p)
  }

  /** Points taken in by all markets. */
  ghost function Takings(st: State): real {
    Sum(NetsOver(st.trades, st.markets.Keys))
  }

  /** Points move only between users and markets; they enter by grants. */
  ghost predicate Conserved(st: State, end: State) {
    TotalPoints(end) + Takings(end) == TotalPoints(st) + Takings(st) + GRANT * (Users(end) - Users(st))
  }

  lemma TradeConserves(st: State, w: Writes)
    requires Inv(st) && Faithful(st, w)
    ensures Conserved(st, Apply(st, w))
  {
    hide Net, MarketsOk, Solvent, LedgerExplains, BasisFollows, Basis;
    var end, key := Apply(st, w), w.trade.key;
    var nets := NetsOver(st.trades, st.markets.Keys);
    forall p | p in st.markets
      ensures Net(end.trades, p) == Net(st.trades, p) - (if key.player == p then Delta(w.trade) else 0.0)
    {
      AppendNet(st.trades, w.trade, p);
    }
    assert end.markets.Keys == st.markets.Keys;
    assert NetsOver(end.trades, end.markets.Keys) == nets[key.player := nets[key.player] - Delta(w.trade)];
    SumPut(nets, key.player, nets[key.player] - Delta(w.trade));
    SumPut(st.points, key.user, w.points);
    assert end.points.Keys == st.points.Keys;
    assert |end.points| == |end.points.Keys| == |st.points.Keys| == |st.points|;
  }

  /** A new market has taken in nothing. */
  lemma ImportConserves(st: State, end: State, p: PlayerId)
    requires Inv(st) && end.points == st.points && end.trades == st.trades
    requires end.markets.Keys == st.markets.Keys + {p}
    ensures Conserved(st, end)
  {
    hide Net, TotalPoints, MarketsOk, Solvent, LedgerExplains, BasisFollows;
    var nets := NetsOver(st.trades, st.markets.Keys);
    SamePoints(st, end);
    if p !in st.markets {
      NetOfUnknown(st.trades, p);
      assert NetsOver(end.trades, end.markets.Keys) == nets[p := 0.0];
      SumPut(nets, p, 0.0);
    } else {
      assert end.markets.Keys == st.markets.Keys;
    }
  }

  lemma QuietConserves(st: State, end: State)
    requires end.markets.Keys == st.markets.Keys && end.trades == st.trades
    requires TotalPoints(end) == TotalPoints(st) + GRANT * (Users(end) - Users(st))
    ensures Conserved(st, end)
  {
    hide Net, TotalPoints;
  }

  lemma IdleConserves(st: State, end: State)
    requires end.markets.Keys == st.markets.Keys && end.trades == st.trades && end.points == st.points
    ensures Conserved(st, end)
  {
    SamePoints(st, end);
    QuietConserves(st, end);
  }

  lemma OrderConserves(m: Maths, st: State, e: Event, p: PlayerId)
    requires Valid(m) && Inv(st) && Positive(st.markets)
    requires (e.BuyOrder? || e.SellOrder?) && e.key.player == p
    ensures Conserved(st, Step(m, st, e))
  {
    hide Buy, Sell, Conserved, TotalPoints, Faithful, Inv;
    if Trades(m, st, e, p) {
      var w := CommittedTrade(m, st, e, p);
      TradeConserves(st, w);
    } else {
      IdleConserves(st, st);
    }
  }

  lemma StepConserves(m: Maths, st: State, e: Event)
    requires Valid(m) && Inv(st) && Positive(st.markets)
    ensures Conserved(st, Step(m, st, e))
  {
    hide Buy, Sell, SeedMarket, Conserved, TotalPoints, Users, Faithful, Recalibrated, Inv;
    var end := Step(m, st, e);
    match e
    case BuyOrder(_, key, _) => OrderConserves(m, st, e, key.player);
    case SellOrder(_, key, _) => OrderConserves(m, st, e, key.player);
    case Register(user) =>
      if user !in st.points {
        RegisterBooks(st, user);
        QuietConserves(st, end);
      } else {
        IdleConserves(st, end);
      }
    case Import(player, _, bMin) =>
      if bMin > 0 {
        ImportConserves(st, end, player);
      } else {
        IdleConserves(st, end);
      }
    case _ => IdleConserves(st, end);
  }

  /** Over every run, users' points and markets' takings together change only by grants. */
  lemma {:induction false} RunConserves(m: Maths, st: State, events: seq<Event>)
    requires Valid(m) && Inv(st)
    ensures Conserved(st, Run(m, st, events))
    decreases |events|
  {
    hide Step, Inv, TotalPoints, Takings;
    if events != [] {
      InvIsPositive(st);
      StepKeepsInv(m, st, events[0]);
      StepConserves(m, st, events[0]);
      RunConserves(m, Step(m, st, events[0]), events[1..]);
    }
  }

  ghost function Leaks(m: Maths, st: State, events: seq<Event>, beta: Liquidity): map<PlayerId, real>
    requires Valid(m) && Inv(st) && Covers(beta, Run(m, st, events))
  {
    map p | p in Run(m, st, events).markets :: Leak(m, Audit(m, st, events, p, Opened(beta[p])))
  }

  lemma MarketsStay(m: Maths, st: State, events: seq<Event>, p: PlayerId)
    requires Valid(m) && Inv(st) && p in st.markets
    ensures p in Run(m, st, events).markets
  {
    RunSlackGrows(m, st, events, p, UP);
  }

  /** A market not yet opened has taken in nothing. */
  lemma {:induction false} TakingsOver(st: State, players: set<PlayerId>)
    requires Referenced(st) && st.markets.Keys <= players
    ensures Takings(st) == Sum(NetsOver(st.trades, players))
    decreases |players|
  {
    hide Net;
    var extra := players - st.markets.Keys;
    if extra == {} {
      assert players == st.markets.Keys;
    } else {
      var p :| p in extra;
      NetOfUnknown(st.trades, p);
      TakingsOver(st, players - {p});
      var f := NetsOver(st.trades, players);
      SumExtract(f, p);
      assert f - {p} == NetsOver(st.trades, players - {p});
    }
  }

  /** What any run mints: from a state without shares held, all cash exceeds the cash there
      was plus the grants by at most the sum over the markets of gifts plus ln 2 times the
      movement of b. */
  lemma MintedAtMost(m: Maths, st: State, events: seq<Event>, beta: Liquidity)
    requires Valid(m) && Inv(st) && Flat(st) && Covers(beta, Run(m, st, events))
    ensures TotalPoints(Run(m, st, events))
            <= TotalPoints(st) + GRANT * (Users(Run(m, st, events)) - Users(st)) + Sum(Leaks(m, st, events, beta))
  {
    hide Run, Audit, Leak, Net, TotalPoints;
    var end := Run(m, st, events);
    RunConserves(m, st, events);
    forall p | p in st.markets ensures p in end.markets {
      MarketsStay(m, st, events, p);
    }
    TakingsOver(st, end.markets.Keys);
    forall p | p in end.markets
      ensures Net(end.trades, p) >= Net(st.trades, p) - Leak(m, Audit(m, st, events, p, Opened(beta[p])))
    {
      NewMarketMintsAtMost(m, st, events, p, beta[p]);
    }
    SumLess(NetsOver(st.trades, end.markets.Keys), Leaks(m, st, events, beta), NetsOver(end.trades, end.markets.Keys));
  }

  lemma {:induction false} SumLess(f: map<PlayerId, real>, g: map<PlayerId, real>, h: map<PlayerId, real>)
    requires f.Keys == g.Keys == h.Keys && forall p :: p in f ==> h[p] >= f[p] - g[p]
    ensures Sum(h) >= Sum(f) - Sum(g)
    decreases f.Keys
  {
    if f.Keys != {} {
      var p :| p in f;
      SumExtract(f, p);
      SumExtract(g, p);
      SumExtract(h, p);
      SumLess(f - {p}, g - {p}, h - {p});
    }
  }

  // ---- The case without drift ----

  /** While a market is held to one b, its account shows nothing. */
  lemma {:induction false} SteadyAccount(m: Maths, st: State, events: seq<Event>, beta: Liquidity, p: PlayerId)
    requires Valid(m) && Inv(st) && Covers(beta, st) && SteadyRun(m, st, events, beta) && p in beta
    ensures Audit(m, st, events, p, Opened(beta[p])) == Opened(beta[p])
    decreases |events|
  {
    hide Step, SteadyStep, Inv, Tick;
    if events != [] {
      InvIsPositive(st);
      StepKeepsInv(m, st, events[0]);
      SteadyStepSteps(m, st, events[0], beta);
      SteadyTick(m, st, events[0], beta, p);
      SteadyAccount(m, Step(m, st, events[0]), events[1..], beta, p);
    }
  }

  lemma SteadyTick(m: Maths, st: State, e: Event, beta: Liquidity, p: PlayerId)
    requires Valid(m) && Inv(st) && Covers(beta, st) && SteadyStep(st, e, beta) && p in beta
    ensures Tick(m, st, e, p, Opened(beta[p])) == Opened(beta[p])
  {
    hide CostOf, Buy, Sell, Recalibrated;
    if e.Recalibrate? && p in st.markets {
      RatchetOnlyRises(st.markets[p], e.target);
    }
  }

  /** From a state without outstanding shares, no steady run mints points: no market, old or
      opened on the way, refunds more than it took in, and all cash together never exceeds the
      cash there was plus the grants made on the way. */
  lemma PointsNeverMinted(m: Maths, st: State, events: seq<Event>, beta: Liquidity)
    requires Valid(m) && Inv(st) && Flat(st) && Covers(beta, st) && SteadyRun(m, st, events, beta)
    ensures var end := Run(m, st, events);
            && (forall p :: p in end.markets ==> Net(end.trades, p) >= Net(st.trades, p))
            && TotalPoints(end) <= TotalPoints(st) + GRANT * (Users(end) - Users(st))
  {
    hide Run, Audit, Leak, Net, TotalPoints, Inv, SteadyRun, Openings;
    var end := Run(m, st, events);
    SteadyRunBalances(m, st, events, beta);
    MintedAtMost(m, st, events, beta);
    var leaks := Leaks(m, st, events, beta);
    forall p | p in end.markets ensures Net(end.trades, p) >= Net(st.trades, p) && leaks[p] == 0.0 {
      SteadyAccount(m, st, events, beta, p);
      NoLeak(m, beta[p]);
      NewMarketMintsAtMost(m, st, events, p, beta[p]);
    }
    SumZero(leaks);
  }

  /** From the empty database: over every steady run, imports and registrations included, all
      cash together never exceeds the grants, and no market refunds more than it took in. */
  lemma CashNeverExceedsGrants(m: Maths, events: seq<Event>, beta: Liquidity)
    requires Valid(m) && Inv(GENESIS) && Covers(beta, GENESIS) && SteadyRun(m, GENESIS, events, beta)
    ensures var end := Run(m, GENESIS, events);
            && (forall p :: p in end.markets ==> Net(end.trades, p) >= 0.0)
            && TotalPoints(end) <= GRANT * Users(end)
  {
    hide Run, SteadyRun;
    PointsNeverMinted(m, GENESIS, events, beta);
  }
}
