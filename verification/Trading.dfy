/** The trading engine on values: what a buy or a sell plans to write, given the rows it
    read under its locks, and what the write does to the database. */
module Trading {
  import opened ExpLn
  import opened Lmsr
  import opened Decimals

  const DEFAULT_ALPHA := 0.05

  datatype UserId = UserId(id: int)
  datatype PlayerId = PlayerId(id: int)

  datatype Direction = UP | DOWN
  datatype Side = BUY | SELL
  datatype Option<+T> = None | Some(value: T)
  datatype Result<+T> = Ok(value: T) | Err(error: TradeError)

  /** NoLiquidity stands for an effective b that is not positive, where the pricing
      functions have no meaning; it is shown never to occur. */
  datatype TradeError =
    | PortfolioMissing
    | PlayerNotFound
    | InactivePlayer
    | InsufficientPoints
    | MarketNotFound
    | ZeroShares
    | InsufficientShares
    | DustBuffer
    | NoLiquidity

  /** bMin and rating in ticks of 1e-4, shares in ticks of 1e-6. */
  datatype Market = Market(bMin: int, alpha: real, qUp: int, qDown: int, rating: int) {
    function Own(dir: Direction): int { if dir == UP then qUp else qDown }

    function Other(dir: Direction): int { if dir == UP then qDown else qUp }

    function Moved(dir: Direction, shares: int): Market {
      if dir == UP then this.(qUp := qUp + shares) else this.(qDown := qDown + shares)
    }

    function B(floor: real): real {
      EffectiveB(Milli4(bMin), alpha, Micro(qUp), Micro(qDown), floor)
    }
  }

  datatype Position = Position(shares: int, average: int)

  datatype PosKey = PosKey(user: UserId, player: PlayerId, dir: Direction)

  datatype Trade = Trade(key: PosKey, side: Side, shares: int, amount: real, price: int,
                         ratingBefore: int, ratingAfter: int)

  datatype State = State(
    active: map<PlayerId, bool>,
    markets: map<PlayerId, Market>,
    points: map<UserId, real>,
    positions: map<PosKey, Position>,
    trades: seq<Trade>,
    history: seq<(PlayerId, int)>)

  /** The rows a committing trade writes. */
  datatype Writes = Writes(market: Market, points: real, position: Position, trade: Trade)

  function Find<K, V>(table: map<K, V>, k: K): Option<V> {
    if k in table then Some(table[k]) else None
  }

  function DisplayRating(m: Maths, market: Market, b: real): int
    requires b > 0.0
  {
    D4(Rating(m, Micro(market.qUp), Micro(market.qDown), b))
  }

  function RawShares(m: Maths, market: Market, b: real, dir: Direction, budget: real): real
    requires b > 0.0
  {
    SharesForBudget(m, Micro(market.qUp), Micro(market.qDown), b, budget, dir == UP)
  }

  function RawRefund(m: Maths, market: Market, b: real, dir: Direction, shares: int): real
    requires b > 0.0
  {
    if dir == UP then
      SellRefundUp(m, Micro(market.qUp), Micro(market.qDown), b, Micro(shares))
    else
      SellRefundDown(m, Micro(market.qUp), Micro(market.qDown), b, Micro(shares))
  }

  /** Absolute-budget weighted average, truncated to 6 decimals. */
  function NewAverage(position: Option<Position>, shares: int, budget: real): int
    requires shares > 0
  {
    match position
    case None => D6(budget / Micro(shares))
    case Some(p) =>
      var total := Micro(p.shares) + Micro(shares);
      if total > 0.0 then D6((Micro(p.shares) * Micro(p.average) + budget) / total) else 0
  }

  /** The buy, from the rows it reads.  The order of the checks is the order of the code:
      portfolio, player, balance, market, share count. */
  function PlanBuy(m: Maths, floor: real, key: PosKey, budget: real, points: Option<real>,
                   active: Option<bool>, market: Option<Market>, position: Option<Position>): Result<Writes>
  {
    if points.None? then Err(PortfolioMissing)
    else if active.None? then Err(PlayerNotFound)
    else if !active.value then Err(InactivePlayer)
    else if budget > points.value then Err(InsufficientPoints)
    else if market.None? then Err(MarketNotFound)
    else
      var before := market.value;
      var b := before.B(floor);
      if b <= 0.0 then Err(NoLiquidity)
      else
        var shares := D6(RawShares(m, before, b, key.dir, budget));
        if shares <= 0 then Err(ZeroShares)
        else
          var moved := before.Moved(key.dir, shares);
          if moved.B(floor) <= 0.0 then Err(NoLiquidity)
          else
            var after := moved.(rating := DisplayRating(m, moved, moved.B(floor)));
            var held := if position.Some? then position.value.shares else 0;
            Ok(Writes(after, points.value - budget,
                      Position(held + shares, NewAverage(position, shares, budget)),
                      Trade(key, BUY, shares, budget, D6(budget / Micro(shares)),
                            DisplayRating(m, before, b), after.rating)))
  }

  /** The sell: portfolio, ownership, market, dust buffer.  Close-only mode is not checked
      and the average entry price is kept. */
  function PlanSell(m: Maths, floor: real, key: PosKey, shares: int, points: Option<real>,
                    market: Option<Market>, position: Option<Position>): Result<Writes>
    requires shares > 0
  {
    if points.None? then Err(PortfolioMissing)
    else if position.None? || position.value.shares < shares then Err(InsufficientShares)
    else if market.None? then Err(MarketNotFound)
    else
      var before := market.value;
      var b := before.B(floor);
      if b <= 0.0 then Err(NoLiquidity)
      else if Micro(before.Own(key.dir)) - Micro(shares) < -0.01 then Err(DustBuffer)
      else
        var raw := RawRefund(m, before, b, key.dir, shares);
        var moved := before.Moved(key.dir, -shares);
        if moved.B(floor) <= 0.0 then Err(NoLiquidity)
        else
          var after := moved.(rating := DisplayRating(m, moved, moved.B(floor)));
          var refund := Micro(D6(raw));
          Ok(Writes(after, points.value + refund,
                    position.value.(shares := position.value.shares - shares),
                    Trade(key, SELL, shares, refund, D6(raw / Micro(shares)),
                          DisplayRating(m, before, b), after.rating)))
  }

  datatype Quote = Quote(shares: int, cost: real, ratingAfter: int)

  /** The read-only preview of a buy.  It looks at the market alone: no balance, no player,
      and no refusal of a purchase too small to buy anything. */
  function PreviewBuy(m: Maths, floor: real, dir: Direction, budget: real, market: Option<Market>): Result<Quote> {
    if market.None? then Err(MarketNotFound)
    else
      var before := market.value;
      var b := before.B(floor);
      if b <= 0.0 then Err(NoLiquidity)
      else
        var shares := D6(RawShares(m, before, b, dir, budget));
        var moved := before.Moved(dir, shares);
        if moved.B(floor) <= 0.0 then Err(NoLiquidity)
        else Ok(Quote(shares, budget, DisplayRating(m, moved, moved.B(floor))))
  }

  function Apply(st: State, w: Writes): State {
    var key := w.trade.key;
    st.(markets := st.markets[key.player := w.market],
        points := st.points[key.user := w.points],
        positions := st.positions[key := w.position],
        trades := st.trades + [w.trade],
        history := st.history + [(key.player, w.market.rating)])
  }

  /** The atomic buy and sell: plan on the current rows. */
  function Buy(m: Maths, st: State, floor: real, key: PosKey, budget: real): Result<Writes> {
    PlanBuy(m, floor, key, budget, Find(st.points, key.user), Find(st.active, key.player),
            Find(st.markets, key.player), Find(st.positions, key))
  }

  function Sell(m: Maths, st: State, floor: real, key: PosKey, shares: int): Result<Writes>
    requires shares > 0
  {
    PlanSell(m, floor, key, shares, Find(st.points, key.user), Find(st.markets, key.player),
             Find(st.positions, key))
  }

  /** A refused trade changes nothing. */
  function After(st: State, r: Result<Writes>): State {
    if r.Ok? then Apply(st, r.value) else st
  }

  ghost predicate MarketOk(market: Market) {
    market.bMin > 0 && market.alpha >= 0.0 && market.qUp >= 0 && market.qDown >= 0
  }

  /** A market whose alpha is at least the default, the only one the code ever writes. */
  ghost predicate Standard(market: Market) {
    MarketOk(market) && market.alpha >= DEFAULT_ALPHA
  }
}
