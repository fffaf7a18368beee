/** Runs that mint points, with the floor of every order computed from the users there are: one
    in which b rises with the shares bought, which can be repeated without bound, and one from
    the empty database in which the floor falls as users join. */
module MintingRuns {
  import opened ExpLn
  import opened Arithmetic
  import opened Lmsr
  import opened LmsrTheory
  import opened BudgetTheory
  import opened Decimals
  import opened Trading
  import opened TradeTheory
  import opened Calibration
  import opened Sums
  import opened Economy
  import opened Minting
  import opened Drift
  import opened Fairness

  const N_TARGET := 100
  const N_MIN := 5

  /** The floor at the default settings. */
  ghost function LiveFloor(st: State): real {
    BFloorForUsers(|st.points|, B_BASE, N_TARGET, N_MIN)
  }

  /** Every order is priced with the floor of the users there are at that moment. */
  ghost predicate LiveFloors(m: Maths, st: State, events: seq<Event>)
    requires Valid(m) && Inv(st)
    decreases |events|
  {
    if events == [] then true
    else
      InvIsPositive(st);
      StepKeepsInv(m, st, events[0]);
      && (events[0].BuyOrder? || events[0].SellOrder? ==> events[0].floor == LiveFloor(st))
      && LiveFloors(m, Step(m, st, events[0]), events[1..])
  }

  lemma FloorOfMany(st: State)
    requires |st.points| >= N_TARGET
    ensures LiveFloor(st) == B_BASE
  {
    FloorFalls(|st.points|, |st.points|, B_BASE, N_TARGET, N_MIN);
  }

  // ---- Runs in sequence ----

  lemma {:induction false} RunAppends(m: Maths, st: State, first: seq<Event>, last: seq<Event>)
    requires Valid(m) && Inv(st)
    ensures Inv(Run(m, st, first))
    ensures Run(m, st, first + last) == Run(m, Run(m, st, first), last)
    ensures LiveFloors(m, st, first + last) <==>
              LiveFloors(m, st, first) && LiveFloors(m, Run(m, st, first), last)
    decreases |first|
  {
    hide Step, Inv, LiveFloor;
    RunKeepsInv(m, st, first);
    if first == [] {
      assert first + last == last;
    } else {
      InvIsPositive(st);
      StepKeepsInv(m, st, first[0]);
      assert (first + last)[1..] == first[1..] + last;
      RunAppends(m, Step(m, st, first[0]), first[1..], last);
    }
  }

  lemma OneStep(m: Maths, st: State, e: Event, end: State)
    requires Valid(m) && Inv(st) && Positive(st.markets) && Step(m, st, e) == end
    requires e.BuyOrder? || e.SellOrder? ==> e.floor == LiveFloor(st)
    ensures Run(m, st, [e]) == end && LiveFloors(m, st, [e])
  {
    hide Step, Inv, LiveFloor;
    StepKeepsInv(m, st, e);
    assert [e][1..] == [];
  }

  lemma TwoSteps(m: Maths, st: State, events: seq<Event>, mid: State, end: State)
    requires Valid(m) && Inv(st) && |events| == 2 && Positive(st.markets) && Inv(mid) && Positive(mid.markets)
    requires Step(m, st, events[0]) == mid && Step(m, mid, events[1]) == end
    requires forall i :: 0 <= i < 2 && (events[i].BuyOrder? || events[i].SellOrder?) ==>
               events[i].floor == LiveFloor(if i == 0 then st else mid)
    ensures Inv(end) && Run(m, st, events) == end && LiveFloors(m, st, events)
  {
    hide Step, Inv, LiveFloor;
    OneStep(m, st, events[0], mid);
    OneStep(m, mid, events[1], end);
    assert events == [events[0]] + [events[1]];
    RunAppends(m, st, [events[0]], [events[1]]);
    StepKeepsInv(m, mid, events[1]);
  }

  // ---- A rise of b ----

  /** The far market with at least a hundred users, one of them able to spend 1000 points. */
  ghost predicate Ready(st: State, key: PosKey) {
    && Inv(st) && key.dir == UP && |st.points| >= N_TARGET
    && key.player in st.markets && FarRow(st.markets[key.player])
    && key.player in st.active && st.active[key.player]
    && key.user in st.points && st.points[key.user] >= 1000.0
  }

  /** The state after one round: the same but for more points of the user. */
  ghost predicate Richer(st: State, end: State, user: UserId, gain: real) {
    && user in st.points && user in end.points
    && end.points == st.points[user := end.points[user]]
    && end.points[user] >= st.points[user] + gain
  }

  lemma OneRound(m: Maths, st: State, key: PosKey) returns (events: seq<Event>)
    requires Valid(m) && Ready(st, key)
    ensures |events| == 2 && events[0].BuyOrder? && events[1].SellOrder?
    ensures LiveFloors(m, st, events)
    ensures Ready(Run(m, st, events), key) && Richer(st, Run(m, st, events), key.user, 300.0)
  {
    hide Buy, Sell, LiveFloor, Inv;
    FloorOfMany(st);
    InvIsPositive(st);
    if key in st.positions {
      HeldNonNegative(st, key);
    }
    ResaleProfits(m, st, B_BASE, key);
    var buy := Buy(m, st, B_BASE, key, 1000.0);
    BuyIsFaithful(m, st, B_BASE, key, 1000.0);
    var mid := Apply(st, buy.value);
    FaithfulKeepsInv(st, buy.value);
    InvIsPositive(mid);
    SameUsers(st.points, mid.points);
    FloorOfMany(mid);
    var shares := buy.value.trade.shares;
    var sell := Sell(m, mid, B_BASE, key, shares);
    SellIsFaithful(m, mid, B_BASE, key, shares);
    var end := Apply(mid, sell.value);
    events := [BuyOrder(B_BASE, key, 1000.0), SellOrder(B_BASE, key, shares)];
    TwoSteps(m, st, events, mid, end);
    SameUsers(st.points, end.points);
  }

  lemma HeldNonNegative(st: State, key: PosKey)
    requires Inv(st) && key in st.positions
    ensures st.positions[key].shares >= 0
  {
  }

  lemma SameUsers(before: map<UserId, real>, after: map<UserId, real>)
    requires after.Keys == before.Keys
    ensures |after| == |before|
  {
    assert |after| == |after.Keys| && |before| == |before.Keys|;
  }

  /** Points can be minted without bound by one user alone: from any sound state with that
      market, for every n, 2n orders at the floor the code computes leave the user with at
      least 300 n points more and everybody else with the same. */
  lemma {:induction false} MintingWithoutBound(m: Maths, st: State, key: PosKey, n: nat) returns (events: seq<Event>)
    requires Valid(m) && Ready(st, key)
    ensures |events| == 2 * n && forall i :: 0 <= i < |events| ==> events[i].BuyOrder? || events[i].SellOrder?
    ensures LiveFloors(m, st, events)
    ensures Inv(Run(m, st, events)) && Ready(Run(m, st, events), key)
    ensures Richer(st, Run(m, st, events), key.user, 300.0 * n as real)
    ensures TotalPoints(Run(m, st, events)) >= TotalPoints(st) + 300.0 * n as real
    ensures Users(Run(m, st, events)) == Users(st)
    decreases n
  {
    hide Inv, Run, LiveFloors;
    if n == 0 {
      events := [];
      NoRun(m, st);
    } else {
      var round := OneRound(m, st, key);
      var mid := Run(m, st, round);
      var rest := MintingWithoutBound(m, mid, key, n - 1);
      events := round + rest;
      RunAppends(m, st, round, rest);
      RicherStill(st, mid, Run(m, mid, rest), key.user, 300.0, 300.0 * (n - 1) as real);
    }
    RicherInTotal(st, Run(m, st, events), key.user, 300.0 * n as real);
  }

  lemma NoRun(m: Maths, st: State)
    requires Valid(m) && Inv(st)
    ensures Run(m, st, []) == st && LiveFloors(m, st, [])
  {
  }

  lemma RicherStill(a: State, b: State, c: State, user: UserId, gain: real, more: real)
    requires Richer(a, b, user, gain) && Richer(b, c, user, more)
    ensures Richer(a, c, user, gain + more)
  {
  }

  lemma RicherInTotal(st: State, end: State, user: UserId, gain: real)
    requires Richer(st, end, user, gain)
    ensures TotalPoints(end) >= TotalPoints(st) + gain && Users(end) == Users(st)
  {
    SumPut(st.points, user, end.points[user]);
    assert end.points.Keys == st.points.Keys;
    SameUsers(st.points, end.points);
  }

  lemma FarMarketIsSound(users: set<UserId>, player: PlayerId)
    ensures Inv(FarMarket(users, player)) && Flat(FarMarket(users, player))
    ensures |FarMarket(users, player).points| == |users|
    ensures TotalPoints(FarMarket(users, player)) == GRANT * |users| as real
  {
    var st := FarMarket(users, player);
    forall p, dir | p in st.markets ensures Owned(st.positions, p, dir) <= Micro(st.markets[p].Own(dir)) {
      SumZero(Holdings(st.positions, p, dir));
    }
    assert st.points.Keys == users;
    SumOfGrants(st.points);
  }

  lemma {:induction false} SumOfGrants(points: map<UserId, real>)
    requires forall u :: u in points ==> points[u] == GRANT
    ensures Sum(points) == GRANT * |points| as real
    decreases points.Keys
  {
    if points.Keys != {} {
      var u := Pick(points);
      var rest := points - {u};
      SumExtract(points, u);
      SumOfGrants(rest);
      assert rest.Keys == points.Keys - {u};
      assert |points| == |points.Keys| == |rest.Keys| + 1 == |rest| + 1;
    }
  }

  /** In particular from a hundred users with nothing but their grants. */
  lemma RunThatMints(m: Maths, users: set<UserId>, user: UserId, player: PlayerId, n: nat)
    returns (events: seq<Event>)
    requires Valid(m) && user in users && |users| >= N_TARGET
    ensures Inv(FarMarket(users, player)) && Flat(FarMarket(users, player))
    ensures |events| == 2 * n && LiveFloors(m, FarMarket(users, player), events)
    ensures TotalPoints(FarMarket(users, player)) == GRANT * Users(FarMarket(users, player))
    ensures Users(Run(m, FarMarket(users, player), events)) == Users(FarMarket(users, player))
    ensures TotalPoints(Run(m, FarMarket(users, player), events))
            >= TotalPoints(FarMarket(users, player)) + 300.0 * n as real
  {
    hide Inv, Run, LiveFloors;
    FarMarketIsSound(users, player);
    events := MintingWithoutBound(m, FarMarket(users, player), PosKey(user, player, UP), n);
  }

  // ---- A fall of b ----

  const CROWDED := 200000.0

  /** A balanced market without shares, as the import seeds it for a rating of 5. */
  ghost predicate EvenRow(market: Market) {
    market.bMin == 1000000 && market.alpha == DEFAULT_ALPHA && market.qUp == 0 && market.qDown == 0
  }

  lemma SeedIsEven(m: Maths)
    requires Valid(m)
    ensures EvenRow(SeedMarket(m, 5.0, 1000000))
  {
    hide Rating;
    LnOne(m);
    assert 0.5 / (1.0 - 0.5) == 1.0;
  }

  /** The block that a thousand points buy at b = 200000 costs more than 1002 at b = 10000. */
  lemma EvenResale(m: Maths, s: real)
    requires Valid(m) && 999.99 < Cost(m, s, 0.0, CROWDED) - Cost(m, 0.0, 0.0, CROWDED) <= 1000.0
    ensures 0.0 < s < 2000.0 && SellRefundUp(m, s, 0.0, B_BASE, s) > 1002.5
  {
    hide Cost, Price;
    var z, half, most, b, b2 := 0.0, 980.0, 1960.0, CROWDED, B_BASE;
    CostMono(m, z, s, z, b);
    SlippageSandwich(m, z, s, z, b);
    PriceRange(m, z, z, b);
    PriceGap(m, z, z, b, s, z, b);
    ImbalanceOverB(s, z, b, s / b - z / b);
    EnoughShares(s, Price(m, s, z, b), s / b - z / b, Cost(m, s, z, b) - Cost(m, z, z, b));
    PriceRange(m, z, z, b2);
    SlippageSandwich(m, z, half, z, b2);
    SlippageSandwich(m, half, most, z, b2);
    HalfwayPrice(m, half, b2);
    CostMono(m, most, s, z, b2);
    assert s - s == z;
  }

  lemma EnoughShares(s: real, p: real, x: real, rise: real)
    requires s > 0.0 && 0.5 * s < rise <= 1000.0 && rise > 999.99 && rise < p * s
    requires p - 0.5 <= Gap(x, 0.0) && x * CROWDED == s
    ensures 1960.0 < s < 2000.0
  {
    assert x < 0.01;
    ScaleMono(p, 0.51, s);
  }

  lemma HalfwayPrice(m: Maths, u: real, b: real)
    requires Valid(m) && u == 980.0 && b == B_BASE
    ensures Price(m, u, 0.0, b) >= 0.523
  {
    var z := 0.0;
    OddsOf(m, u / b, z / b);
    WeightRange(m, u / b, z / b);
    ExpTangent(m, u / b - z / b);
    var rest := 1.0 - Weight(m, u / b, z / b);
    ScaleMono(2.098, 1.0 + Exp(m, u / b - z / b), rest);
  }

  lemma EvenShares(m: Maths, market: Market)
    requires Valid(m) && EvenRow(market)
    ensures market.B(CROWDED) == CROWDED
    ensures var shares := D6(RawShares(m, market, CROWDED, UP, 1000.0));
            && shares > 0 && market.Moved(UP, shares).B(B_BASE) == B_BASE
            && RawRefund(m, market.Moved(UP, shares), B_BASE, UP, shares) > 1002.5
  {
    hide Cost, D6, RawShares, SellRefundUp, SharesForBudget;
    assert market.B(CROWDED) == CROWDED;
    GrantIsLargest(m, market, CROWDED, UP, 1000.0);
    var shares := D6(RawShares(m, market, CROWDED, UP, 1000.0));
    InOwnTerms(m, market, UP, CROWDED, 1000.0, shares);
    assert Micro(market.qUp) == 0.0 && Micro(market.qDown) == 0.0;
    EvenResale(m, Micro(shares));
    var bought := market.Moved(UP, shares);
    assert Micro(bought.qUp) == Micro(shares);
    InOwnTerms(m, bought, UP, B_BASE, 1000.0, shares);
  }

  /** Bought at a floor of 200000, sold at one of 10000. */
  lemma EvenTrades(m: Maths, st: State, key: PosKey)
    requires Valid(m) && key.dir == UP
    requires key.player in st.markets && EvenRow(st.markets[key.player])
    requires key.player in st.active && st.active[key.player]
    requires key.user in st.points && st.points[key.user] >= 1000.0
    requires key in st.positions ==> st.positions[key].shares >= 0
    ensures var buy := Buy(m, st, CROWDED, key, 1000.0);
            && buy.Ok? && buy.value.trade.shares > 0
            && st.markets[key.player].B(CROWDED) == CROWDED && buy.value.market.B(B_BASE) == B_BASE
            && var sell := Sell(m, Apply(st, buy.value), B_BASE, key, buy.value.trade.shares);
               && sell.Ok? && sell.value.points > st.points[key.user] + 2.0
               && sell.value.trade.key == key && buy.value.trade.key == key
  {
    hide Cost, D6, RawShares, RawRefund, DisplayRating, NewAverage, EffectiveB;
    var market := st.markets[key.player];
    EvenShares(m, market);
    var shares := D6(RawShares(m, market, CROWDED, UP, 1000.0));
    MarketStaysOk(market, UP, shares, 0);
    PositiveMarketB(market.Moved(UP, shares), CROWDED);
    assert Buy(m, st, CROWDED, key, 1000.0).Ok?;
    ResaleGoesThrough(m, st, CROWDED, B_BASE, key, 1000.0);
    var bought := Buy(m, st, CROWDED, key, 1000.0).value.market;
    SameRefund(m, market.Moved(UP, shares), bought, B_BASE, UP, shares);
    var raw := RawRefund(m, bought, B_BASE, UP, shares);
    D6Exact(raw, D6(raw));
  }

  // ---- Users joining ----

  /** The registrations of n users with consecutive identifiers. */
  ghost function Joiners(start: nat, n: nat): seq<Event>
    decreases n
  {
    if n == 0 then [] else [Register(UserId(start))] + Joiners(start + 1, n - 1)
  }

  ghost predicate NoneFrom(st: State, start: nat) {
    forall i: nat :: i >= start ==> UserId(i) !in st.points
  }

  /** Joining adds users with their grants and touches nothing else. */
  ghost predicate Joined(st: State, end: State, n: nat) {
    && end.active == st.active && end.markets == st.markets && end.positions == st.positions
    && end.trades == st.trades
    && |end.points| == |st.points| + n
    && (forall u :: u in st.points ==> u in end.points && end.points[u] == st.points[u])
    && TotalPoints(end) == TotalPoints(st) + GRANT * n as real
  }

  lemma OneJoins(m: Maths, st: State, user: UserId)
    requires Inv(st) && Positive(st.markets) && user !in st.points
    ensures Joined(st, Step(m, st, Register(user)), 1)
    ensures Step(m, st, Register(user)).points == st.points[user := GRANT]
  {
    hide Inv, TotalPoints, Users, Buy, Sell, SeedMarket, RecalibrateAll;
    var end := st.(points := st.points[user := GRANT]);
    assert Step(m, st, Register(user)) == end;
    hide Step;
    RegisterBooks(st, user);
    OneMore(st, user);
  }

  lemma OneMore(st: State, user: UserId)
    requires user !in st.points
    ensures |st.points[user := GRANT]| == |st.points| + 1
    ensures Users(st.(points := st.points[user := GRANT])) == Users(st) + 1.0
  {
    assert st.points[user := GRANT].Keys == st.points.Keys + {user};
  }

  lemma JoinedMore(a: State, b: State, c: State, n: nat)
    requires Joined(a, b, 1) && Joined(b, c, n)
    ensures Joined(a, c, n + 1)
  {
    hide TotalPoints;
  }

  lemma JoinedMarkets(st: State, end: State, n: nat)
    requires Joined(st, end, n)
    ensures end.markets == st.markets
  {
  }

  lemma NobodyJoins(st: State)
    ensures Joined(st, st, 0)
  {
    hide TotalPoints;
  }

  lemma {:induction false} ManyJoin(m: Maths, st: State, start: nat, n: nat, p: PlayerId, a: Account)
    requires Valid(m) && Inv(st) && NoneFrom(st, start) && a.b > 0.0
    ensures Joined(st, Run(m, st, Joiners(start, n)), n)
    ensures LiveFloors(m, st, Joiners(start, n))
    ensures Audit(m, st, Joiners(start, n), p, a) == a
    decreases n
  {
    hide Inv, Step, Joined, LiveFloor, Trades;
    if n == 0 {
      NobodyJoins(st);
    } else {
      var e, rest := Register(UserId(start)), Joiners(start + 1, n - 1);
      InvIsPositive(st);
      StepKeepsInv(m, st, e);
      OneJoins(m, st, UserId(start));
      assert Joiners(start, n)[0] == e && Joiners(start, n)[1..] == rest;
      RegistersDoNotTick(m, st, e, p, a);
      ManyJoin(m, Step(m, st, e), start + 1, n - 1, p, a);
      JoinedMore(st, Step(m, st, e), Run(m, Step(m, st, e), rest), n - 1);
    }
  }

  lemma RegistersDoNotTick(m: Maths, st: State, e: Event, p: PlayerId, a: Account)
    requires Inv(st) && a.b > 0.0 && e.Register?
    ensures Tick(m, st, e, p, a) == a
  {
  }

  // ---- The run from the empty database ----

  /** One user, and one market imported with a rating of 5. */
  ghost function OneMarket(m: Maths, user: UserId, player: PlayerId): State
    requires Valid(m)
  {
    var seeded := SeedMarket(m, 5.0, 1000000);
    State(map[player := true], map[player := seeded], map[user := GRANT], map[], [], [(player, seeded.rating)])
  }

  lemma OpeningSteps(m: Maths, user: UserId, player: PlayerId)
    requires Valid(m)
    ensures Inv(GENESIS) && Inv(OneMarket(m, user, player))
    ensures var events := [Register(user), Import(player, 5.0, 1000000)];
            && Run(m, GENESIS, events) == OneMarket(m, user, player) && LiveFloors(m, GENESIS, events)
  {
    hide SeedMarket, Inv, Run, LiveFloors;
    GenesisInv();
    var mid := GENESIS.(points := map[user := GRANT]);
    InvIsPositive(GENESIS);
    StepKeepsInv(m, GENESIS, Register(user));
    assert Step(m, GENESIS, Register(user)) == mid;
    InvIsPositive(mid);
    var events := [Register(user), Import(player, 5.0, 1000000)];
    TwoSteps(m, GENESIS, events, mid, OneMarket(m, user, player));
  }

  /** What the account of the market shows after the whole run: b never rose. */
  lemma {:induction false} AuditAppends(m: Maths, st: State, first: seq<Event>, last: seq<Event>, p: PlayerId, a: Account)
    requires Valid(m) && Inv(st) && a.b > 0.0
    ensures Inv(Run(m, st, first))
    ensures Audit(m, st, first + last, p, a) == Audit(m, Run(m, st, first), last, p, Audit(m, st, first, p, a))
    decreases |first|
  {
    hide Step, Inv, Tick;
    RunKeepsInv(m, st, first);
    if first == [] {
      assert first + last == last;
    } else {
      InvIsPositive(st);
      StepKeepsInv(m, st, first[0]);
      assert (first + last)[1..] == first[1..] + last;
      AuditAppends(m, Step(m, st, first[0]), first[1..], last, p, Tick(m, st, first[0], p, a));
    }
  }

  lemma OneTick(m: Maths, st: State, e: Event, p: PlayerId, a: Account)
    requires Valid(m) && Inv(st) && a.b > 0.0
    ensures Audit(m, st, [e], p, a) == Tick(m, st, e, p, a)
  {
    hide Step, Inv, Tick;
    InvIsPositive(st);
    StepKeepsInv(m, st, e);
    assert [e][1..] == [];
  }

  lemma NoRise(m: Maths, st: State, e: Event, p: PlayerId, a: Account)
    requires Inv(st) && a.b > 0.0 && p in st.markets && (e.BuyOrder? || e.SellOrder?) && Trades(m, st, e, p)
    requires st.markets[p].B(e.floor) <= a.b
    ensures var next := Tick(m, st, e, p, a); next.rise == a.rise && next.b == st.markets[p].B(e.floor)
  {
    hide CostOf, Trades, Inv;
  }

  lemma OpeningTicks(m: Maths, user: UserId, player: PlayerId, a: Account)
    requires Valid(m) && a.b > 0.0 && Inv(GENESIS)
    ensures Audit(m, GENESIS, [Register(user), Import(player, 5.0, 1000000)], player, a) == a
  {
    hide SeedMarket, Inv, Trades;
    var events := [Register(user), Import(player, 5.0, 1000000)];
    InvIsPositive(GENESIS);
    StepKeepsInv(m, GENESIS, events[0]);
    assert events == [events[0]] + [events[1]];
    AuditAppends(m, GENESIS, [events[0]], [events[1]], player, a);
    OneTick(m, GENESIS, events[0], player, a);
    var mid := Run(m, GENESIS, [events[0]]);
    OneStep(m, GENESIS, events[0], Step(m, GENESIS, events[0]));
    OneTick(m, mid, events[1], player, a);
  }

  /** The rows of the buyer and the market are untouched by joining, so the sale is the same. */
  lemma SaleAfterJoining(m: Maths, st: State, end: State, n: nat, floor: real, key: PosKey, shares: int)
    requires Joined(st, end, n) && key.user in st.points && shares > 0
    ensures Sell(m, end, floor, key, shares) == Sell(m, st, floor, key, shares)
  {
    hide PlanSell, TotalPoints;
  }

  lemma SaleTotal(st: State, w: Writes)
    requires w.trade.key.user in st.points
    ensures TotalPoints(Apply(st, w)) == TotalPoints(st) - st.points[w.trade.key.user] + w.points
    ensures |Apply(st, w).points| == |st.points|
  {
    SumPut(st.points, w.trade.key.user, w.points);
    SameUsers(st.points, Apply(st, w).points);
  }

  lemma TotalOfOne(st: State, user: UserId)
    requires st.points.Keys == {user}
    ensures TotalPoints(st) == st.points[user] && |st.points| == 1
  {
    SumExtract(st.points, user);
    assert st.points - {user} == map[];
    assert |st.points| == |st.points.Keys|;
  }

  /** The buy that the run makes, and the state it leaves. */
  lemma FirstBuy(m: Maths, user: UserId, player: PlayerId) returns (w: Writes)
    requires Valid(m) && Inv(OneMarket(m, user, player))
    ensures var st, key := OneMarket(m, user, player), PosKey(user, player, UP);
            && player in st.markets && LiveFloor(st) == CROWDED && Buy(m, st, CROWDED, key, 1000.0) == Ok(w)
            && Inv(Apply(st, w)) && w.trade.shares > 0 && w.trade.key == key
            && st.markets[player].B(CROWDED) == CROWDED && w.market.B(B_BASE) == B_BASE
            && Apply(st, w).points.Keys == {user}
            && var sell := Sell(m, Apply(st, w), B_BASE, key, w.trade.shares);
               sell.Ok? && sell.value.points > GRANT + 2.0 && sell.value.trade.key == key
  {
    hide SeedMarket, Buy, Sell, Inv, EvenRow, EffectiveB;
    var st, key := OneMarket(m, user, player), PosKey(user, player, UP);
    SeedIsEven(m);
    EvenTrades(m, st, key);
    w := Buy(m, st, CROWDED, key, 1000.0).value;
    BuyIsFaithful(m, st, CROWDED, key, 1000.0);
    FaithfulKeepsInv(st, w);
    assert |st.points| == 1;
    FloorOfOne();
  }

  lemma FloorOfOne()
    ensures BFloorForUsers(1, B_BASE, N_TARGET, N_MIN) == CROWDED
  {
  }

  lemma FirstBuyStep(m: Maths, st: State, key: PosKey, w: Writes)
    requires Valid(m) && Inv(st) && Buy(m, st, CROWDED, key, 1000.0) == Ok(w) && LiveFloor(st) == CROWDED
    ensures Run(m, st, [BuyOrder(CROWDED, key, 1000.0)]) == Apply(st, w)
    ensures LiveFloors(m, st, [BuyOrder(CROWDED, key, 1000.0)])
  {
    hide Buy, Apply, Inv, LiveFloor;
    InvIsPositive(st);
    OneStep(m, st, BuyOrder(CROWDED, key, 1000.0), Apply(st, w));
  }

  lemma LastSale(m: Maths, st: State, joined: State, key: PosKey, shares: int, w: Writes)
    requires Valid(m) && Inv(joined) && Joined(st, joined, 99) && shares > 0
    requires key.user in st.points && |st.points| == 1 && TotalPoints(st) == st.points[key.user]
    requires Sell(m, joined, B_BASE, key, shares) == Ok(w) && w.trade.key == key && w.points > GRANT + 2.0
    ensures Run(m, joined, [SellOrder(B_BASE, key, shares)]) == Apply(joined, w)
    ensures LiveFloors(m, joined, [SellOrder(B_BASE, key, shares)])
    ensures Users(Apply(joined, w)) == 100.0 && TotalPoints(Apply(joined, w)) > GRANT * 100.0 + 2.0
  {
    hide Sell, Inv, LiveFloor, TotalPoints;
    InvIsPositive(joined);
    FloorOfMany(joined);
    SaleTotal(joined, w);
    OneStep(m, joined, SellOrder(B_BASE, key, shares), Apply(joined, w));
  }

  lemma NoRiseAtAll(m: Maths, st: State, joined: State, key: PosKey, w: Writes, shares: int, a: Account)
    requires Valid(m) && Inv(st) && Inv(joined) && key.player in st.markets && a.b == CROWDED
    requires Buy(m, st, CROWDED, key, 1000.0) == Ok(w) && st.markets[key.player].B(CROWDED) == CROWDED
    requires key.player in joined.markets && joined.markets[key.player] == w.market && w.market.B(B_BASE) == B_BASE
    requires shares > 0 && Sell(m, joined, B_BASE, key, shares).Ok?
    ensures var next := Tick(m, st, BuyOrder(CROWDED, key, 1000.0), key.player, a);
            Tick(m, joined, SellOrder(B_BASE, key, shares), key.player, next).rise == a.rise
  {
    hide Buy, Sell, Inv, Tick;
    NoRise(m, st, BuyOrder(CROWDED, key, 1000.0), key.player, a);
    NoRise(m, joined, SellOrder(B_BASE, key, shares), key.player,
           Tick(m, st, BuyOrder(CROWDED, key, 1000.0), key.player, a));
  }

  /** The fall of b mints as well.  From the empty database, every order priced with the floor of
      the users there are: one user registers, a player is imported, the user buys for the whole
      grant at a floor of 200000, ninety-nine users join, and the user sells at a floor of
      10000.  There are then more points than grants, although b never rose. */
  lemma FallingFloorMints(m: Maths, player: PlayerId) returns (events: seq<Event>)
    requires Valid(m)
    ensures Inv(GENESIS) && LiveFloors(m, GENESIS, events)
    ensures Users(Run(m, GENESIS, events)) == 100.0
    ensures TotalPoints(Run(m, GENESIS, events)) > GRANT * Users(Run(m, GENESIS, events)) + 2.0
    ensures Audit(m, GENESIS, events, player, Opened(CROWDED)).rise == 0.0
  {
    hide Inv, Run, LiveFloors, LiveFloor, Audit, Tick, Step, Buy, Sell, Joined, OneMarket, TotalPoints;
    var user, a := UserId(0), Opened(CROWDED);
    var key := PosKey(user, player, UP);
    OpeningSteps(m, user, player);
    var opening := [Register(user), Import(player, 5.0, 1000000)];
    var st1 := OneMarket(m, user, player);
    var w := FirstBuy(m, user, player);
    var st2 := Apply(st1, w);
    var buy, joins := [BuyOrder(CROWDED, key, 1000.0)], Joiners(1, 99);
    FirstBuyStep(m, st1, key, w);
    assert NoneFrom(st2, 1);
    ManyJoin(m, st2, 1, 99, player, Tick(m, st1, buy[0], player, a));
    RunKeepsInv(m, st2, joins);
    var st3 := Run(m, st2, joins);
    var sell := [SellOrder(B_BASE, key, w.trade.shares)];
    var w2 := Sell(m, st2, B_BASE, key, w.trade.shares).value;
    SaleAfterJoining(m, st2, st3, 99, B_BASE, key, w.trade.shares);
    TotalOfOne(st2, user);
    LastSale(m, st2, st3, key, w.trade.shares, w2);
    events := opening + (buy + (joins + sell));
    RunAppends(m, GENESIS, opening, buy + (joins + sell));
    RunAppends(m, st1, buy, joins + sell);
    RunAppends(m, st2, joins, sell);
    OpeningTicks(m, user, player, a);
    AuditAppends(m, GENESIS, opening, buy + (joins + sell), player, a);
    AuditAppends(m, st1, buy, joins + sell, player, a);
    OneTick(m, st1, buy[0], player, a);
    var a2 := Tick(m, st1, buy[0], player, a);
    AuditAppends(m, st2, joins, sell, player, a2);
    OneTick(m, st3, sell[0], player, a2);
    assert st3.markets == st2.markets by { JoinedMarkets(st2, st3, 99); }
    NoRiseAtAll(m, st1, st3, key, w, w.trade.shares, a);
  }
}
