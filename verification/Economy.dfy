/** The economy over whole runs: registrations, imports, trades, deactivations and
    recalibrations in any order. */
module Economy {
  import opened ExpLn
  import opened Lmsr
  import opened LiquidityTheory
  import opened Decimals
  import opened Trading
  import opened TradeTheory
  import opened Calibration
  import opened Sums

  const GRANT := 1000.0

  datatype Event =
    | Register(user: UserId)
    | Import(player: PlayerId, rBase: real, bMin: int)
    | Deactivate(player: PlayerId)
    | BuyOrder(floor: real, key: PosKey, budget: real)
    | SellOrder(floor: real, key: PosKey, shares: int)
    | Recalibrate(target: real)

  const GENESIS := State(map[], map[], map[], map[], [], [])

  /** A market row as the import writes it; the columns round to their own precision. */
  function SeedMarket(m: Maths, rBase: real, bMin: int): Market
    requires bMin > 0
  {
    var (qUp, qDown) := InitializeMarket(m, rBase, Milli4(bMin));
    Market(bMin, DEFAULT_ALPHA, HalfUp(qUp * 1000000.0), HalfUp(qDown * 1000000.0),
           HalfUp(Rating(m, qUp, qDown, Milli4(bMin)) * 10000.0))
  }

  /** One step.  Requests that the schemas reject (a budget or share count that is not
      positive) and rows that the column constraints reject change nothing. */
  ghost function Step(m: Maths, st: State, e: Event): State
    requires Positive(st.markets)
  {
    match e
    case Register(user) =>
      if user in st.points then st else st.(points := st.points[user := GRANT])
    case Import(player, rBase, bMin) =>
      if bMin <= 0 then st
      else
        var seeded := SeedMarket(m, rBase, bMin);
        st.(active := st.active[player := true],
            markets := if player in st.markets then st.markets else st.markets[player := seeded],
            history := st.history + [(player, seeded.rating)])
    case Deactivate(player) =>
      if player in st.active then st.(active := st.active[player := false]) else st
    case BuyOrder(floor, key, budget) =>
      if budget <= 0.0 then st else After(st, Buy(m, st, floor, key, budget))
    case SellOrder(floor, key, shares) =>
      if shares <= 0 then st else After(st, Sell(m, st, floor, key, shares))
    case Recalibrate(target) => RecalibrateAll(st, target)
  }

  // ---- The ledger ----

  function Signed(t: Trade): int { if t.side == BUY then t.shares else -t.shares }

  /** What the trade adds to its user's points. */
  function Delta(t: Trade): real { if t.side == BUY then -t.amount else t.amount }

  ghost function Cash(trades: seq<Trade>, user: UserId): real {
    if trades == [] then 0.0
    else
      var t := trades[|trades| - 1];
      Cash(trades[..|trades| - 1], user) + (if t.key.user == user then Delta(t) else 0.0)
  }

  ghost function Held(trades: seq<Trade>, key: PosKey): int {
    if trades == [] then 0
    else
      var t := trades[|trades| - 1];
      Held(trades[..|trades| - 1], key) + (if t.key == key then Signed(t) else 0)
  }

  /** Points spent on a position and the number of buys that did so. */
  ghost function Spent(trades: seq<Trade>, key: PosKey): real {
    if trades == [] then 0.0
    else
      var t := trades[|trades| - 1];
      Spent(trades[..|trades| - 1], key) + (if t.key == key && t.side == BUY then t.amount else 0.0)
  }

  ghost function Buys(trades: seq<Trade>, key: PosKey): nat {
    if trades == [] then 0
    else
      var t := trades[|trades| - 1];
      Buys(trades[..|trades| - 1], key) + (if t.key == key && t.side == BUY then 1 else 0)
  }

  ghost predicate NeverSold(trades: seq<Trade>, key: PosKey) {
    forall i :: 0 <= i < |trades| ==> trades[i].key == key ==> trades[i].side == BUY
  }

  lemma Append(trades: seq<Trade>, t: Trade, user: UserId, key: PosKey)
    ensures Cash(trades + [t], user) == Cash(trades, user) + (if t.key.user == user then Delta(t) else 0.0)
    ensures Held(trades + [t], key) == Held(trades, key) + (if t.key == key then Signed(t) else 0)
    ensures Spent(trades + [t], key) == Spent(trades, key) + (if t.key == key && t.side == BUY then t.amount else 0.0)
    ensures Buys(trades + [t], key) == Buys(trades, key) + (if t.key == key && t.side == BUY then 1 else 0)
    ensures NeverSold(trades + [t], key) <==> NeverSold(trades, key) && (t.key == key ==> t.side == BUY)
  {
    assert (trades + [t])[..|trades + [t]| - 1] == trades;
    assert forall i :: 0 <= i < |trades| ==> (trades + [t])[i] == trades[i];
    assert (trades + [t])[|trades|] == t;
  }

  // ---- Shares owned ----

  ghost function Holdings(positions: map<PosKey, Position>, player: PlayerId, dir: Direction): map<PosKey, real> {
    map k | k in positions && k.player == player && k.dir == dir :: Micro(positions[k].shares)
  }

  ghost function Owned(positions: map<PosKey, Position>, player: PlayerId, dir: Direction): real {
    Sum(Holdings(positions, player, dir))
  }

  lemma OwnedAfterPut(positions: map<PosKey, Position>, key: PosKey, p: Position, player: PlayerId, dir: Direction)
    ensures Owned(positions[key := p], player, dir)
            == Owned(positions, player, dir)
             + (if key.player == player && key.dir == dir
                then Micro(p.shares - HeldIn(Find(positions, key))) else 0.0)
  {
    var before, after := Holdings(positions, player, dir), Holdings(positions[key := p], player, dir);
    if key.player == player && key.dir == dir {
      assert after == before[key := Micro(p.shares)];
      SumPut(before, key, Micro(p.shares));
      MicroOrder(p.shares, HeldIn(Find(positions, key)));
    } else {
      assert after == before;
    }
  }

  // ---- The invariant ----

  /** Every market is valid, and its alpha is still the one the import gave it. */
  ghost predicate MarketsOk(st: State) {
    forall p :: p in st.markets ==> MarketOk(st.markets[p]) && st.markets[p].alpha == DEFAULT_ALPHA
  }

  ghost predicate Funded(st: State) {
    forall u :: u in st.points ==> st.points[u] >= 0.0
  }

  ghost predicate Keyed(st: State) {
    forall k :: k in st.positions ==>
      k.user in st.points && k.player in st.markets && st.positions[k].shares >= 0 && st.positions[k].average >= 0
  }

  /** Every share owned is covered by the market it was bought from. */
  ghost predicate Solvent(st: State) {
    forall p, dir :: p in st.markets ==> Owned(st.positions, p, dir) <= Micro(st.markets[p].Own(dir))
  }

  /** The ledger explains the balances and the holdings. */
  ghost predicate LedgerExplains(st: State) {
    && (forall u :: (if u in st.points then st.points[u] - GRANT else 0.0) == Cash(st.trades, u))
    && (forall k :: HeldIn(Find(st.positions, k)) == Held(st.trades, k))
  }

  /** While a position has only been bought, its basis shares x average lags the points
      spent by at most 1e-6 per buy and share. */
  ghost predicate BasisFollowsAt(trades: seq<Trade>, k: PosKey, p: Option<Position>) {
    NeverSold(trades, k) ==>
      0.0 <= Spent(trades, k) - Basis(p) <= Buys(trades, k) as real * (0.000001 * Micro(HeldIn(p)))
  }

  ghost predicate BasisFollows(st: State) {
    forall k :: BasisFollowsAt(st.trades, k, Find(st.positions, k))
  }

  /** Every trade names a user and a market that exist. */
  ghost predicate Referenced(st: State) {
    forall t :: t in st.trades ==> t.key.user in st.points && t.key.player in st.markets
  }

  ghost predicate Inv(st: State) {
    && MarketsOk(st) && Funded(st) && Keyed(st) && Referenced(st)
    && Solvent(st) && LedgerExplains(st) && BasisFollows(st)
  }

  /** What any committed trade writes, whichever side it is. */
  ghost predicate Faithful(st: State, w: Writes) {
    var key := w.trade.key;
    && key.player in st.markets && key.user in st.points
    && w.trade.shares > 0 && w.trade.amount >= 0.0
    && w.market == st.markets[key.player].Moved(key.dir, Signed(w.trade)).(rating := w.market.rating)
    && w.market.Own(key.dir) >= 0
    && w.points == st.points[key.user] + Delta(w.trade) && w.points >= 0.0
    && w.position.shares == HeldIn(Find(st.positions, key)) + Signed(w.trade) && w.position.shares >= 0
    && w.position.average >= 0
    && (w.trade.side == BUY ==> 0.0 <= Basis(Find(st.positions, key)) + w.trade.amount - Basis(Some(w.position))
                                    <= 0.000001 * Micro(w.position.shares))
    && (w.trade.side == SELL ==> key in st.positions && w.position.average == st.positions[key].average)
  }

  lemma BuyIsFaithful(m: Maths, st: State, floor: real, key: PosKey, budget: real)
    requires Inv(st) && budget > 0.0 && Buy(m, st, floor, key, budget).Ok?
    ensures var w := Buy(m, st, floor, key, budget).value;
            Faithful(st, w) && w.trade.side == BUY && w.trade.key == key && w.trade.amount == budget
  {
    hide EffectiveB, RawShares, DisplayRating, D6, NewAverage;
    var w := Buy(m, st, floor, key, budget).value;
    BasisAfterBuy(Find(st.positions, key), w.trade.shares, budget);
  }

  /** An owner's shares are covered by the market. */
  lemma OwnedIsCovered(st: State, key: PosKey)
    requires Inv(st) && key in st.positions
    ensures 0 <= st.positions[key].shares <= st.markets[key.player].Own(key.dir)
  {
    var holdings := Holdings(st.positions, key.player, key.dir);
    SumCovers(holdings, key);
    MicroOrder(st.positions[key].shares, st.markets[key.player].Own(key.dir));
  }

  lemma SellIsFaithful(m: Maths, st: State, floor: real, key: PosKey, shares: int)
    requires Valid(m) && Inv(st) && shares > 0 && Sell(m, st, floor, key, shares).Ok?
    ensures var w := Sell(m, st, floor, key, shares).value;
            Faithful(st, w) && w.trade.side == SELL && w.trade.key == key && w.trade.shares == shares
  {
    hide EffectiveB, RawRefund, DisplayRating, D6;
    var w := Sell(m, st, floor, key, shares).value;
    var market := st.markets[key.player];
    OwnedIsCovered(st, key);
    PositiveMarketB(market, floor);
    RefundIsCostReleased(m, market, market.B(floor), key.dir, shares);
    D6Exact(RawRefund(m, market, market.B(floor), key.dir, shares), 0);
  }

  lemma FaithfulKeepsSolvent(st: State, w: Writes)
    requires Inv(st) && Faithful(st, w)
    ensures Solvent(Apply(st, w))
  {
    var key := w.trade.key;
    var after := Apply(st, w);
    forall p, dir | p in after.markets
      ensures Owned(after.positions, p, dir) <= Micro(after.markets[p].Own(dir))
    {
      OwnedAfterPut(st.positions, key, w.position, p, dir);
      MicroOrder(st.markets[p].Own(dir), Signed(w.trade));
      assert Owned(st.positions, p, dir) <= Micro(st.markets[p].Own(dir));
    }
  }

  lemma CashFollows(st: State, w: Writes, u: UserId)
    requires Inv(st) && Faithful(st, w)
    ensures var points := Apply(st, w).points;
            (if u in points then points[u] - GRANT else 0.0) == Cash(st.trades + [w.trade], u)
  {
    Append(st.trades, w.trade, u, w.trade.key);
    assert (if u in st.points then st.points[u] - GRANT else 0.0) == Cash(st.trades, u);
  }

  lemma HeldFollows(st: State, w: Writes, k: PosKey)
    requires Inv(st) && Faithful(st, w)
    ensures HeldIn(Find(Apply(st, w).positions, k)) == Held(st.trades + [w.trade], k)
  {
    Append(st.trades, w.trade, w.trade.key.user, k);
    assert HeldIn(Find(st.positions, k)) == Held(st.trades, k);
  }

  lemma FaithfulKeepsLedger(st: State, w: Writes)
    requires Inv(st) && Faithful(st, w)
    ensures LedgerExplains(Apply(st, w))
  {
    var after := Apply(st, w);
    assert after.trades == st.trades + [w.trade];
    forall u ensures (if u in after.points then after.points[u] - GRANT else 0.0) == Cash(after.trades, u) {
      CashFollows(st, w, u);
    }
    forall k ensures HeldIn(Find(after.positions, k)) == Held(after.trades, k) {
      HeldFollows(st, w, k);
    }
  }

  lemma BasisElsewhere(trades: seq<Trade>, t: Trade, k: PosKey, p: Option<Position>)
    requires BasisFollowsAt(trades, k, p) && t.key != k
    ensures BasisFollowsAt(trades + [t], k, p)
  {
    hide Basis, HeldIn, Micro;
    Append(trades, t, k.user, k);
  }

  lemma BasisEnds(trades: seq<Trade>, t: Trade, p: Option<Position>)
    requires t.side == SELL
    ensures BasisFollowsAt(trades + [t], t.key, p)
  {
    hide Basis, HeldIn, Micro;
    Append(trades, t, t.key.user, t.key);
  }

  lemma BasisFollowsOne(st: State, w: Writes, k: PosKey)
    requires Inv(st) && Faithful(st, w)
    ensures BasisFollowsAt(st.trades + [w.trade], k, Find(Apply(st, w).positions, k))
  {
    var after := Find(Apply(st, w).positions, k);
    assert BasisFollowsAt(st.trades, k, Find(st.positions, k));
    if k != w.trade.key {
      assert after == Find(st.positions, k);
      hide *;
      BasisElsewhere(st.trades, w.trade, k, after);
    } else {
      assert after == Some(w.position);
      hide *;
      if w.trade.side == BUY {
        BasisStep(st, w);
      } else {
        BasisEnds(st.trades, w.trade, after);
      }
    }
  }

  lemma FaithfulKeepsBasis(st: State, w: Writes)
    requires Inv(st) && Faithful(st, w)
    ensures BasisFollows(Apply(st, w))
  {
    hide BasisFollowsAt;
    forall k ensures BasisFollowsAt(Apply(st, w).trades, k, Find(Apply(st, w).positions, k)) {
      BasisFollowsOne(st, w, k);
    }
  }

  lemma BasisStep(st: State, w: Writes)
    requires Faithful(st, w) && w.trade.side == BUY
    requires BasisFollowsAt(st.trades, w.trade.key, Find(st.positions, w.trade.key))
    ensures BasisFollowsAt(st.trades + [w.trade], w.trade.key, Some(w.position))
  {
    hide Basis, Micro;
    var k := w.trade.key;
    var before := Find(st.positions, k);
    Append(st.trades, w.trade, k.user, k);
    if NeverSold(st.trades, k) {
      MicroOrder(HeldIn(before), w.position.shares);
      DriftStep(Buys(st.trades, k), Micro(HeldIn(before)), Micro(w.position.shares),
                Spent(st.trades, k) - Basis(before), Basis(before) + w.trade.amount - Basis(Some(w.position)));
    }
  }

  lemma DriftStep(n: nat, held: real, more: real, drift: real, lost: real)
    requires held <= more && drift <= n as real * (0.000001 * held) && lost <= 0.000001 * more
    ensures drift + lost <= (n + 1) as real * (0.000001 * more)
  {
    assert n as real * (0.000001 * more) - n as real * (0.000001 * held) == n as real * (0.000001 * (more - held)) >= 0.0;
    assert (n + 1) as real * (0.000001 * more) == n as real * (0.000001 * more) + 0.000001 * more;
  }

  lemma FaithfulKeepsInv(st: State, w: Writes)
    requires Inv(st) && Faithful(st, w)
    ensures Inv(Apply(st, w))
  {
    FaithfulKeepsSolvent(st, w);
    FaithfulKeepsLedger(st, w);
    FaithfulKeepsBasis(st, w);
  }

  lemma SeedIsOk(m: Maths, rBase: real, bMin: int)
    requires Valid(m) && bMin > 0
    ensures MarketOk(SeedMarket(m, rBase, bMin)) && SeedMarket(m, rBase, bMin).alpha == DEFAULT_ALPHA
  {
    SeedingClamps(m, rBase, Milli4(bMin));
  }

  lemma ImportKeepsInv(m: Maths, st: State, player: PlayerId, rBase: real, bMin: int)
    requires Valid(m) && Inv(st) && Positive(st.markets) && bMin > 0
    ensures Inv(Step(m, st, Import(player, rBase, bMin)))
  {
    hide SeedMarket;
    SeedIsOk(m, rBase, bMin);
    if player !in st.markets {
      var after := Step(m, st, Import(player, rBase, bMin));
      forall p, dir | p in after.markets
        ensures Owned(after.positions, p, dir) <= Micro(after.markets[p].Own(dir))
      {
        if p == player {
          SumZero(Holdings(st.positions, p, dir));
        } else {
          assert Owned(st.positions, p, dir) <= Micro(st.markets[p].Own(dir));
        }
      }
    }
  }

  lemma RecalibrateKeepsInv(st: State, target: real)
    requires Inv(st) && Positive(st.markets)
    ensures Inv(RecalibrateAll(st, target))
  {
    hide Recalibrated;
    var after := RecalibrateAll(st, target);
    forall p | p in after.markets ensures MarketOk(after.markets[p]) && after.markets[p].alpha == DEFAULT_ALPHA {
      RatchetOnlyRises(st.markets[p], target);
    }
    forall p, dir | p in after.markets
      ensures Owned(after.positions, p, dir) <= Micro(after.markets[p].Own(dir))
    {
      RatchetOnlyRises(st.markets[p], target);
      MicroOrder(st.markets[p].Own(dir), after.markets[p].Own(dir));
      assert Owned(st.positions, p, dir) <= Micro(st.markets[p].Own(dir));
    }
  }

  lemma RegisterKeepsInv(m: Maths, st: State, user: UserId)
    requires Inv(st) && Positive(st.markets)
    ensures Inv(Step(m, st, Register(user)))
  {
    var after := Step(m, st, Register(user));
    forall u ensures (if u in after.points then after.points[u] - GRANT else 0.0) == Cash(after.trades, u) {
      assert (if u in st.points then st.points[u] - GRANT else 0.0) == Cash(st.trades, u);
    }
  }

  lemma InvIsPositive(st: State)
    requires Inv(st)
    ensures Positive(st.markets)
  {
  }

  /** Every step keeps the invariant. */
  lemma StepKeepsInv(m: Maths, st: State, e: Event)
    requires Valid(m) && Inv(st) && Positive(st.markets)
    ensures Inv(Step(m, st, e))
  {
    hide Buy, Sell, SeedMarket, RecalibrateAll;
    match e
    case Register(user) => RegisterKeepsInv(m, st, user);
    case Import(player, rBase, bMin) =>
      if bMin > 0 {
        ImportKeepsInv(m, st, player, rBase, bMin);
      }
    case Deactivate(player) =>
    case BuyOrder(floor, key, budget) =>
      if budget > 0.0 && Buy(m, st, floor, key, budget).Ok? {
        BuyIsFaithful(m, st, floor, key, budget);
        FaithfulKeepsInv(st, Buy(m, st, floor, key, budget).value);
      }
    case SellOrder(floor, key, shares) =>
      if shares > 0 && Sell(m, st, floor, key, shares).Ok? {
        SellIsFaithful(m, st, floor, key, shares);
        FaithfulKeepsInv(st, Sell(m, st, floor, key, shares).value);
      }
    case Recalibrate(target) => RecalibrateKeepsInv(st, target);
  }

  ghost function Run(m: Maths, st: State, events: seq<Event>): State
    requires Valid(m) && Inv(st)
    decreases |events|
  {
    if events == [] then st
    else
      InvIsPositive(st);
      StepKeepsInv(m, st, events[0]);
      Run(m, Step(m, st, events[0]), events[1..])
  }

  lemma GenesisInv()
    ensures Inv(GENESIS)
  {
  }

  lemma {:induction false} RunKeepsInv(m: Maths, st: State, events: seq<Event>)
    requires Valid(m) && Inv(st)
    ensures Inv(Run(m, st, events))
    decreases |events|
  {
    if events != [] {
      InvIsPositive(st);
      StepKeepsInv(m, st, events[0]);
      RunKeepsInv(m, Step(m, st, events[0]), events[1..]);
    }
  }

  /** From the empty database, whatever happens: balances and holdings are what the ledger
      says and never negative, every share is covered, and the cost basis follows. */
  lemma ReachableStates(m: Maths, events: seq<Event>)
    requires Valid(m)
    ensures Inv(GENESIS) && Inv(Run(m, GENESIS, events))
  {
    GenesisInv();
    RunKeepsInv(m, GENESIS, events);
  }

  /** Owners can always exit: in every reachable state any part of a holding can be sold,
      active player or not, whatever the floor; the dust buffer never refuses. */
  lemma OwnersCanAlwaysExit(m: Maths, st: State, floor: real, key: PosKey, shares: int)
    requires Valid(m) && Inv(st) && shares > 0
    ensures Sell(m, st, floor, key, shares).Ok?
            <==> key in st.positions && shares <= st.positions[key].shares
    ensures Sell(m, st, floor, key, shares) == Err(PortfolioMissing) <==> key.user !in st.points
    ensures Sell(m, st, floor, key, shares) == Err(InsufficientShares)
            <==> key.user in st.points && !(key in st.positions && shares <= st.positions[key].shares)
  {
    hide EffectiveB, RawRefund, DisplayRating, D6;
    if key in st.positions && shares <= st.positions[key].shares {
      var market := st.markets[key.player];
      OwnedIsCovered(st, key);
      MicroOrder(shares, market.Own(key.dir));
      PositiveMarketB(market, floor);
      MarketStaysOk(market, key.dir, -shares, market.rating);
      PositiveMarketB(market.Moved(key.dir, -shares), floor);
    }
  }

  /** Close-only mode: a deactivated player cannot be bought, is sold as before, and nothing
      else changes; importing the player again lifts it. */
  lemma DeactivationIsCloseOnly(m: Maths, st: State, player: PlayerId, key: PosKey, floor: real, budget: real, shares: int)
    requires Positive(st.markets) && player in st.active && shares > 0
    ensures var after := Step(m, st, Deactivate(player));
            && (key.player == player ==> Buy(m, after, floor, key, budget).Err?)
            && (key.player == player && key.user in st.points ==> Buy(m, after, floor, key, budget) == Err(InactivePlayer))
            && (key.player != player ==> Buy(m, after, floor, key, budget) == Buy(m, st, floor, key, budget))
            && Sell(m, after, floor, key, shares) == Sell(m, st, floor, key, shares)
            && after == st.(active := after.active)
    ensures forall rBase, bMin :: bMin > 0 ==>
              var back := Step(m, st, Import(player, rBase, bMin)); player in back.active && back.active[player]
  {
    hide SeedMarket, EffectiveB, RawShares, RawRefund, DisplayRating, D6, NewAverage;
  }

  /** A new user starts with a thousand points, once. */
  lemma RegistrationGrants(m: Maths, st: State, user: UserId)
    requires Positive(st.markets)
    ensures var after := Step(m, st, Register(user));
            && after == st.(points := after.points)
            && after.points == if user in st.points then st.points else st.points[user := 1000.0]
  {
  }
}
