/** The trading engine as the code runs it: rows of mutable tables, updated in place. */
module Exchange {
  import opened ExpLn
  import opened Lmsr
  import opened Decimals
  import opened Trading
  import opened TradeTheory
  import opened Calibration
  import Economy

  class MarketRow {
    var bMin: int
    var alpha: real
    var qUp: int
    var qDown: int
    var rating: int

    function Value(): Market
      reads this
    {
      Market(bMin, alpha, qUp, qDown, rating)
    }

    constructor (market: Market)
      ensures Value() == market
    {
      bMin, alpha, qUp, qDown, rating := market.bMin, market.alpha, market.qUp, market.qDown, market.rating;
    }
  }

  class PortfolioRow {
    var points: real

    constructor (points: real)
      ensures this.points == points
    {
      this.points := points;
    }
  }

  class PositionRow {
    var shares: int
    var average: int

    function Value(): Position
      reads this
    {
      Position(shares, average)
    }

    constructor (shares: int, average: int)
      ensures this.shares == shares && this.average == average
    {
      this.shares, this.average := shares, average;
    }
  }

  /** What the caller of a trade gets back. */
  datatype Receipt = Receipt(shares: int, amount: real, ratingBefore: int, ratingAfter: int)

  function ReceiptOf(r: Result<Writes>): Result<Receipt> {
    match r
    case Err(e) => Err(e)
    case Ok(w) => Ok(Receipt(w.trade.shares, w.trade.amount, w.trade.ratingBefore, w.trade.ratingAfter))
  }

  /** The receipt against the tables before and after: the points and shares that changed
      hands, on the user's rows and on the market's, and the rating the market now shows. */
  ghost predicate Receipted(before: State, after: State, key: PosKey, side: Side, receipt: Receipt) {
    var signed := if side == BUY then receipt.shares else -receipt.shares;
    && key.user in before.points && key.user in after.points
    && key.player in before.markets && key.player in after.markets && key in after.positions
    && receipt.shares > 0
    && after.points[key.user] == before.points[key.user] + (if side == BUY then -receipt.amount else receipt.amount)
    && after.positions[key].shares == HeldIn(Find(before.positions, key)) + signed
    && after.markets[key.player].Own(key.dir) == before.markets[key.player].Own(key.dir) + signed
    && after.markets[key.player].Other(key.dir) == before.markets[key.player].Other(key.dir)
    && after.markets[key.player].rating == receipt.ratingAfter
    && after.history == before.history + [(key.player, receipt.ratingAfter)]
    && |after.trades| == |before.trades| + 1 && after.trades[..|before.trades|] == before.trades
    && var trade := after.trades[|before.trades|];
       && trade.key == key && trade.side == side && trade.shares == receipt.shares && trade.amount == receipt.amount
       && trade.ratingBefore == receipt.ratingBefore && trade.ratingAfter == receipt.ratingAfter
  }

  lemma BuyReceipt(m: Maths, st: State, floor: real, key: PosKey, budget: real)
    requires Buy(m, st, floor, key, budget).Ok?
    ensures var r := Buy(m, st, floor, key, budget);
            && ReceiptOf(r).Ok? && ReceiptOf(r).value.amount == budget
            && Receipted(st, Apply(st, r.value), key, BUY, ReceiptOf(r).value)
  {
    hide EffectiveB, RawShares, DisplayRating, D6, NewAverage;
  }

  lemma SellReceipt(m: Maths, st: State, floor: real, key: PosKey, shares: int)
    requires shares > 0 && Sell(m, st, floor, key, shares).Ok?
    ensures var r := Sell(m, st, floor, key, shares);
            && ReceiptOf(r).Ok? && ReceiptOf(r).value.shares == shares
            && Receipted(st, Apply(st, r.value), key, SELL, ReceiptOf(r).value)
  {
    hide EffectiveB, RawRefund, DisplayRating, D6;
  }

  /** The next row of a result set, in no particular order. */
  method Next<T>(rows: set<T>) returns (row: T)
    requires rows != {}
    ensures row in rows
  {
    row :| row in rows;
  }

  class Exchange {
    const m: Maths
    var active: map<PlayerId, bool>
    var markets: map<PlayerId, MarketRow>
    var portfolios: map<UserId, PortfolioRow>
    var positions: map<PosKey, PositionRow>
    var trades: seq<Trade>
    var history: seq<(PlayerId, int)>

    /** The empty database. */
    constructor (m: Maths)
      ensures this.m == m && Distinct() && Snapshot() == Economy.GENESIS
    {
      this.m := m;
      active, markets, portfolios, positions, trades, history := map[], map[], map[], map[], [], [];
    }

    /** Every key has a row of its own. */
    ghost predicate Distinct()
      reads this`markets, this`portfolios, this`positions
    {
      && (forall i, j :: i in markets && j in markets && i != j ==> markets[i] != markets[j])
      && (forall i, j :: i in portfolios && j in portfolios && i != j ==> portfolios[i] != portfolios[j])
      && (forall i, j :: i in positions && j in positions && i != j ==> positions[i] != positions[j])
    }

    ghost function MarketTable(): map<PlayerId, Market>
      reads this`markets, markets.Values
    {
      map p | p in markets :: markets[p].Value()
    }

    ghost function PointTable(): map<UserId, real>
      reads this`portfolios, portfolios.Values
    {
      map u | u in portfolios :: portfolios[u].points
    }

    ghost function PositionTable(): map<PosKey, Position>
      reads this`positions, positions.Values
    {
      map k | k in positions :: positions[k].Value()
    }

    ghost function Snapshot(): State
      reads this, markets.Values, portfolios.Values, positions.Values
    {
      State(active, MarketTable(), PointTable(), PositionTable(), trades, history)
    }

    /** A first request provisions the portfolio; a later one finds it. */
    method Register(user: UserId)
      requires Distinct() && Positive(MarketTable())
      modifies this`portfolios
      ensures Distinct() && fresh(portfolios.Values - old(portfolios.Values))
      ensures Snapshot() == Economy.Step(m, old(Snapshot()), Economy.Event.Register(user))
    {
      if user !in portfolios {
        var row := new PortfolioRow(Economy.GRANT);
        portfolios := portfolios[user := row];
        assert PointTable() == old(PointTable())[user := Economy.GRANT];
      }
      assert MarketTable() == old(MarketTable()) && PositionTable() == old(PositionTable());
    }

    /** The import of one player: the market is seeded once, the history every time. */
    method Import(player: PlayerId, rBase: real, bMin: int)
      requires Distinct() && Positive(MarketTable()) && bMin > 0
      modifies this`active, this`markets, this`history
      ensures Distinct() && fresh(markets.Values - old(markets.Values))
      ensures Snapshot() == Economy.Step(m, old(Snapshot()), Economy.Event.Import(player, rBase, bMin))
    {
      hide Economy.SeedMarket, MarketTable, PointTable, PositionTable, Distinct;
      var seeded := Economy.SeedMarket(m, rBase, bMin);
      assert MarketTable().Keys == markets.Keys by { TableKeys(); }
      if player !in markets {
        InsertMarket(player, seeded);
      }
      active := active[player := true];
      history := history + [(player, seeded.rating)];
    }

    method InsertMarket(player: PlayerId, market: Market)
      requires Distinct() && player !in markets
      modifies this`markets
      ensures Distinct() && fresh(markets.Values - old(markets.Values))
      ensures MarketTable() == old(MarketTable())[player := market]
      ensures PointTable() == old(PointTable()) && PositionTable() == old(PositionTable())
    {
      var row := new MarketRow(market);
      markets := markets[player := row];
    }

    /** Close-only mode. */
    method Deactivate(player: PlayerId)
      requires Positive(MarketTable())
      modifies this`active
      ensures Snapshot() == Economy.Step(m, old(Snapshot()), Economy.Event.Deactivate(player))
    {
      if player in active {
        active := active[player := false];
      }
    }

    method WriteMarket(player: PlayerId, qUp: int, qDown: int, rating: int)
      requires Distinct() && player in markets
      modifies markets[player]
      ensures MarketTable() == old(MarketTable())[player :=
                old(markets[player].Value()).(qUp := qUp, qDown := qDown, rating := rating)]
      ensures PointTable() == old(PointTable()) && PositionTable() == old(PositionTable())
    {
      var row := markets[player];
      row.qUp := qUp;
      row.qDown := qDown;
      row.rating := rating;
      assert forall p :: p in markets && p != player ==> markets[p].Value() == old(markets[p].Value());
    }

    method WritePortfolio(user: UserId, points: real)
      requires Distinct() && user in portfolios
      modifies portfolios[user]
      ensures PointTable() == old(PointTable())[user := points]
      ensures MarketTable() == old(MarketTable()) && PositionTable() == old(PositionTable())
    {
      portfolios[user].points := points;
      assert forall u :: u in portfolios && u != user ==> portfolios[u].points == old(portfolios[u].points);
    }

    /** Updates a position in place, or inserts the first one. */
    method WritePosition(key: PosKey, shares: int, average: int)
      requires Distinct()
      modifies this`positions, positions.Values
      ensures Distinct() && fresh(positions.Values - old(positions.Values))
      ensures PositionTable() == old(PositionTable())[key := Position(shares, average)]
      ensures MarketTable() == old(MarketTable()) && PointTable() == old(PointTable())
    {
      if key !in positions {
        var row := new PositionRow(shares, average);
        positions := positions[key := row];
      } else {
        var row := positions[key];
        row.shares := shares;
        row.average := average;
      }
    }

    /** Writes back the rows of a trade and records it. */
    method Write(w: Writes)
      requires Distinct()
      requires w.trade.key.player in markets && w.trade.key.user in portfolios
      requires w.market.bMin == markets[w.trade.key.player].bMin
      requires w.market.alpha == markets[w.trade.key.player].alpha
      modifies this`positions, this`trades, this`history
      modifies markets.Values, portfolios.Values, positions.Values
      ensures Distinct() && fresh(positions.Values - old(positions.Values))
      ensures Snapshot() == Apply(old(Snapshot()), w)
    {
      hide MarketTable, PointTable, PositionTable;
      var key := w.trade.key;
      WriteMarket(key.player, w.market.qUp, w.market.qDown, w.market.rating);
      WritePortfolio(key.user, w.points);
      WritePosition(key, w.position.shares, w.position.average);
      trades := trades + [w.trade];
      history := history + [(key.player, w.market.rating)];
    }

    method ExecuteBuy(floor: real, user: UserId, player: PlayerId, dir: Direction, budget: real)
      returns (r: Result<Receipt>)
      requires Distinct() && budget > 0.0
      modifies this`positions, this`trades, this`history
      modifies markets.Values, portfolios.Values, positions.Values
      ensures Distinct() && fresh(positions.Values - old(positions.Values))
      ensures Snapshot() == After(old(Snapshot()), Buy(m, old(Snapshot()), floor, PosKey(user, player, dir), budget))
      ensures r == ReceiptOf(Buy(m, old(Snapshot()), floor, PosKey(user, player, dir), budget))
      ensures r.Err? ==> Snapshot() == old(Snapshot())
      ensures r.Ok? ==> r.value.amount == budget
                        && Receipted(old(Snapshot()), Snapshot(), PosKey(user, player, dir), BUY, r.value)
    {
      hide DisplayRating, RawShares, RawRefund, EffectiveB, Milli4, D6;
      var key := PosKey(user, player, dir);
      if user !in portfolios {
        return Err(PortfolioMissing);
      }
      var portfolio := portfolios[user];
      if player !in active {
        return Err(PlayerNotFound);
      }
      if !active[player] {
        return Err(InactivePlayer);
      }
      if budget > portfolio.points {
        return Err(InsufficientPoints);
      }
      if player !in markets {
        return Err(MarketNotFound);
      }
      var market := markets[player].Value();
      var b := market.B(floor);
      if b <= 0.0 {
        return Err(NoLiquidity);
      }
      var shares := D6(RawShares(m, market, b, dir, budget));
      if shares <= 0 {
        return Err(ZeroShares);
      }
      var moved := market.Moved(dir, shares);
      var bNew := moved.B(floor);
      if bNew <= 0.0 {
        return Err(NoLiquidity);
      }
      var ratingBefore, ratingAfter := DisplayRating(m, market, b), DisplayRating(m, moved, bNew);
      var position;
      if key !in positions {
        position := Position(shares, D6(budget / Micro(shares)));
      } else {
        var row := positions[key];
        var total := Micro(row.shares) + Micro(shares);
        var average := if total > 0.0
          then D6((Micro(row.shares) * Micro(row.average) + budget) / total) else 0;
        position := Position(row.shares + shares, average);
      }
      var trade := Trade(key, BUY, shares, budget, D6(budget / Micro(shares)), ratingBefore, ratingAfter);
      var w := Writes(moved.(rating := ratingAfter), portfolio.points - budget, position, trade);
      assert Buy(m, Snapshot(), floor, key, budget) == Ok(w);
      BuyReceipt(m, Snapshot(), floor, key, budget);
      hide Receipted;
      Write(w);
      r := Ok(Receipt(shares, budget, ratingBefore, ratingAfter));
    }

    method ExecuteSell(floor: real, user: UserId, player: PlayerId, dir: Direction, shares: int)
      returns (r: Result<Receipt>)
      requires Distinct() && shares > 0
      modifies this`positions, this`trades, this`history
      modifies markets.Values, portfolios.Values, positions.Values
      ensures Distinct() && fresh(positions.Values - old(positions.Values))
      ensures Snapshot() == After(old(Snapshot()), Sell(m, old(Snapshot()), floor, PosKey(user, player, dir), shares))
      ensures r == ReceiptOf(Sell(m, old(Snapshot()), floor, PosKey(user, player, dir), shares))
      ensures r.Err? ==> Snapshot() == old(Snapshot())
      ensures r.Ok? ==> r.value.shares == shares
                        && Receipted(old(Snapshot()), Snapshot(), PosKey(user, player, dir), SELL, r.value)
    {
      hide DisplayRating, RawShares, RawRefund, EffectiveB, Milli4, D6;
      var key := PosKey(user, player, dir);
      if user !in portfolios {
        return Err(PortfolioMissing);
      }
      var portfolio := portfolios[user];
      if key !in positions || positions[key].shares < shares {
        return Err(InsufficientShares);
      }
      var row := positions[key];
      if player !in markets {
        return Err(MarketNotFound);
      }
      var market := markets[player].Value();
      var b := market.B(floor);
      if b <= 0.0 {
        return Err(NoLiquidity);
      }
      if Micro(market.Own(dir)) - Micro(shares) < -0.01 {
        return Err(DustBuffer);
      }
      var raw := RawRefund(m, market, b, dir, shares);
      var moved := market.Moved(dir, -shares);
      var bNew := moved.B(floor);
      if bNew <= 0.0 {
        return Err(NoLiquidity);
      }
      var ratingBefore, ratingAfter := DisplayRating(m, market, b), DisplayRating(m, moved, bNew);
      var refund := Micro(D6(raw));
      var trade := Trade(key, SELL, shares, refund, D6(raw / Micro(shares)), ratingBefore, ratingAfter);
      var w := Writes(moved.(rating := ratingAfter), portfolio.points + refund,
                            Position(row.shares - shares, row.average), trade);
      assert Sell(m, Snapshot(), floor, key, shares) == Ok(w);
      SellReceipt(m, Snapshot(), floor, key, shares);
      hide Receipted;
      Write(w);
      r := Ok(Receipt(shares, refund, ratingBefore, ratingAfter));
    }

    /** The recalibration worker: every market row is rewritten in place unless the ratchet
        skips it; positions and portfolios are not touched. */
    method LiquidityRecalibration(config: Option<Config>, activeUsers: nat) returns (updated: Option<nat>)
      requires Distinct() && Positive(MarketTable())
      modifies markets.Values
      ensures Distinct()
      ensures config.None? ==> updated == Some(0) && Snapshot() == old(Snapshot())
      ensures config.Some? && CalibrateBMin(m, config.value, activeUsers).None? ==>
                updated == None && Snapshot() == old(Snapshot())
      ensures config.Some? && CalibrateBMin(m, config.value, activeUsers).Some? ==>
                var target := CalibrateBMin(m, config.value, activeUsers).value;
                && updated == Some(|Thin(old(MarketTable()), target)|)
                && Snapshot() == RecalibrateAll(old(Snapshot()), target)
    {
      hide CalibrateBMin, Recalibrated;
      if config.None? {
        return Some(0);
      }
      var result := CalibrateBMin(m, config.value, activeUsers);
      if result.None? {
        return None;
      }
      var count := RecalibrateRows(result.value);
      updated := Some(count);
    }

    /** The body of the worker's loop: one market row, in place. */
    method RecalibrateRow(player: PlayerId, target: real) returns (changed: bool)
      requires Distinct() && player in markets && markets[player].bMin > 0
      modifies markets[player]
      ensures MarketTable() == old(MarketTable())[player := Recalibrated(old(markets[player].Value()), target)]
      ensures PointTable() == old(PointTable()) && PositionTable() == old(PositionTable())
      ensures changed <==> Milli4(old(markets[player].bMin)) < target
    {
      hide D4, ScaledTicks, Quotient;
      var row := markets[player];
      var current := Milli4(row.bMin);
      var bNew := Max(current, target);
      if bNew <= current {
        assert MarketTable() == old(MarketTable())[player := row.Value()];
        return false;
      }
      var scale := Quotient(bNew, current);
      row.bMin := D4(bNew);
      row.qUp := ScaledTicks(row.qUp, scale);
      row.qDown := ScaledTicks(row.qDown, scale);
      assert row.Value() == Recalibrated(old(row.Value()), target);
      assert forall p :: p in markets && p != player ==> markets[p].Value() == old(markets[p].Value());
      changed := true;
    }

    lemma MarketAt(p: PlayerId)
      requires p in markets
      ensures p in MarketTable() && MarketTable()[p] == markets[p].Value()
    {
    }

    method RecalibrateRows(target: real) returns (updated: nat)
      requires Distinct() && Positive(MarketTable())
      modifies markets.Values
      ensures MarketTable() == RecalibrateAll(old(Snapshot()), target).markets
      ensures updated == |Thin(old(MarketTable()), target)|
    {
      hide Recalibrated, RecalibrateAll, MarketTable, PointTable, PositionTable, Thin, PartlyRecalibrated, Distinct, Milli4;
      RecalibratedTable(Snapshot(), target);
      ghost var table := MarketTable();
      var todo := markets.Keys;
      assert todo == table.Keys by { TableKeys(); }
      updated := 0;
      while todo != {}
        invariant todo <= markets.Keys
        invariant MarketTable() == PartlyRecalibrated(table, todo, target)
        invariant updated == |Thin(table, target) - todo|
        decreases todo
      {
        var p := Next(todo);
        MarketAt(p);
        PartlyNext(table, todo, p, target);
        var changed := RecalibrateRow(p, target);
        updated := if changed then updated + 1 else updated;
        todo := todo - {p};
      }
      assert Thin(table, target) - todo == Thin(table, target);
    }

    lemma TableKeys()
      ensures MarketTable().Keys == markets.Keys
    {
    }
  }
}
