/** Portfolio valuation: the simple one (one user, 6 decimals) and the batch one of the
    tournament workers (grouped positions, 4 decimals).  Both price at effective_b without
    the floor. */
module Valuation {
  import opened ExpLn
  import opened Lmsr
  import opened Decimals
  import opened Trading
  import opened LiquidityTheory
  import opened TradeTheory
  import opened Sums
  import Economy

  datatype Row = Row(key: PosKey, position: Position)

  ghost predicate Priced(markets: map<PlayerId, Market>) {
    forall p :: p in markets ==> MarketOk(markets[p])
  }

  /** The refund a position is valued at. */
  function Refund(m: Maths, market: Market, dir: Direction, shares: int): real
    requires MarketOk(market)
  {
    PositiveMarketB(market, 0.0);
    RawRefund(m, market, market.B(0.0), dir, shares)
  }

  function Quantised6(m: Maths, market: Market, dir: Direction, shares: int): real
    requires MarketOk(market)
  {
    Micro(Nearest6(Refund(m, market, dir, shares)))
  }

  function Quantised4(m: Maths, market: Market, dir: Direction, shares: int): real
    requires MarketOk(market)
  {
    Milli4(D4(Refund(m, market, dir, shares)))
  }

  ghost predicate IsOpen(st: State, user: UserId, k: PosKey) {
    k in st.positions && k.user == user && st.positions[k].shares > 0
  }

  ghost function Refunds6(m: Maths, st: State, user: UserId): map<PosKey, real>
    requires Priced(st.markets)
  {
    map k | k in st.positions && IsOpen(st, user, k) && k.player in st.markets
      :: Quantised6(m, st.markets[k.player], k.dir, st.positions[k].shares)
  }

  ghost function Refunds4(m: Maths, st: State, user: UserId): map<PosKey, real>
    requires Priced(st.markets)
  {
    map k | k in st.positions && IsOpen(st, user, k) && k.player in st.markets
      :: Quantised4(m, st.markets[k.player], k.dir, st.positions[k].shares)
  }

  /** Points plus the refunds of the open positions, each to 6 decimals. */
  ghost function TotalValue(m: Maths, st: State, user: UserId): real
    requires Priced(st.markets) && user in st.points
  {
    st.points[user] + Sum(Refunds6(m, st, user))
  }

  /** Points plus the refunds of the open positions, each and in total to 4 decimals. */
  ghost function MemberValue(m: Maths, st: State, user: UserId): real
    requires Priced(st.markets) && user in st.points
  {
    Milli4(D4(st.points[user] + Sum(Refunds4(m, st, user))))
  }

  /** Without open positions a portfolio is worth its cash. */
  lemma CashIsItsValue(m: Maths, st: State, user: UserId)
    requires Priced(st.markets) && user in st.points
    requires forall k :: k in st.positions && k.user == user ==> st.positions[k].shares <= 0
    ensures TotalValue(m, st, user) == st.points[user]
    ensures MemberValue(m, st, user) == Milli4(D4(st.points[user]))
  {
    hide D4;
    SumZero(Refunds6(m, st, user));
    SumZero(Refunds4(m, st, user));
  }

  /** One more open position of a user adds what it would release at effective_b without the
      floor, rounded to 6 decimals; a position without shares, without a market or of someone
      else adds nothing. */
  lemma PositionAddsItsRefund(m: Maths, st: State, user: UserId, key: PosKey, p: Position)
    requires Priced(st.markets) && user in st.points && key !in st.positions
    ensures var after := st.(positions := st.positions[key := p]);
            && (key.user == user && p.shares > 0 && key.player in st.markets ==>
                  var market := st.markets[key.player];
                  && market.B(0.0) > 0.0
                  && var raw := RawRefund(m, market, market.B(0.0), key.dir, p.shares);
                     && NearestEven(raw * 1000000.0, Nearest6(raw))
                     && TotalValue(m, after, user) == TotalValue(m, st, user) + Micro(Nearest6(raw)))
            && (!(key.user == user && p.shares > 0 && key.player in st.markets) ==>
                  TotalValue(m, after, user) == TotalValue(m, st, user))
  {
    hide RawRefund, Nearest6, EffectiveB;
    var after := st.(positions := st.positions[key := p]);
    var before, more := Refunds6(m, st, user), Refunds6(m, after, user);
    if key.user == user && p.shares > 0 && key.player in st.markets {
      PositiveMarketB(st.markets[key.player], 0.0);
      NearestIsEven(RawRefund(m, st.markets[key.player], st.markets[key.player].B(0.0), key.dir, p.shares));
      assert more == before[key := Quantised6(m, st.markets[key.player], key.dir, p.shares)];
      SumPut(before, key, Quantised6(m, st.markets[key.player], key.dir, p.shares));
    } else {
      assert more == before;
    }
  }

  lemma NearestIsEven(x: real)
    ensures NearestEven(x * 1000000.0, Nearest6(x))
    ensures NearestEven(x * 10000.0, D4(x))
  {
    HalfEvenExactly(x * 1000000.0, Nearest6(x));
    HalfEvenExactly(x * 10000.0, D4(x));
  }

  /** What a position is valued at is what selling all of it would pay, to within a tick and a
      half, whenever the floor does not act; such a sale always goes through. */
  lemma ValuedAtItsSale(m: Maths, st: State, floor: real, key: PosKey)
    requires Valid(m) && Economy.Inv(st) && IsOpen(st, key.user, key)
    requires st.markets[key.player].B(floor) == st.markets[key.player].B(0.0)
    ensures MarketOk(st.markets[key.player])
    ensures var shares := st.positions[key].shares;
            var sale := Sell(m, st, floor, key, shares);
            && sale.Ok?
            && -0.0000005 <= Quantised6(m, st.markets[key.player], key.dir, shares) - sale.value.trade.amount <= 0.0000015
  {
    hide EffectiveB, RawRefund, DisplayRating, D6, HalfEven;
    var market, shares := st.markets[key.player], st.positions[key].shares;
    Economy.OwnersCanAlwaysExit(m, st, floor, key, shares);
    PositiveMarketB(market, floor);
    var raw := RawRefund(m, market, market.B(floor), key.dir, shares);
    RefundIsCostReleased(m, market, market.B(floor), key.dir, shares);
    D6Exact(raw, 0);
    HalfEvenError(raw * 1000000.0);
  }

  /** A portfolio that holds both sides of a market is worth more than its valuation says: at
      the b it is valued at, closing both releases strictly more than the two refunds. */
  lemma BothSidesValuedLow(m: Maths, market: Market, s: int, t: int)
    requires Valid(m) && MarketOk(market) && s > 0 && t > 0
    ensures market.B(0.0) > 0.0
    ensures Refund(m, market, UP, s) + Refund(m, market, DOWN, t)
            < CostOf(m, market, market.B(0.0)) - CostOf(m, market.Moved(UP, -s).Moved(DOWN, -t), market.B(0.0))
  {
    hide CostOf, RawRefund;
    PositiveMarketB(market, 0.0);
    BothSidesPayMore(m, market, market.B(0.0), s, t);
  }

  /** And selling both, where the floor decides b, goes through and pays at least what the two
      sales would on their own, also after truncation. */
  lemma SellingBothSides(m: Maths, st: State, floor: real, user: UserId, player: PlayerId)
    requires Valid(m) && Economy.Inv(st)
    requires IsOpen(st, user, PosKey(user, player, UP)) && IsOpen(st, user, PosKey(user, player, DOWN))
    requires st.markets[player].B(0.0) <= floor
    ensures var up, down := PosKey(user, player, UP), PosKey(user, player, DOWN);
            var s, t := st.positions[up].shares, st.positions[down].shares;
            var first := Sell(m, st, floor, up, s);
            && first.Ok? && Sell(m, st, floor, down, t).Ok?
            && var second := Sell(m, Apply(st, first.value), floor, down, t);
               && second.Ok?
               && second.value.trade.amount >= Sell(m, st, floor, down, t).value.trade.amount
  {
    hide Sell, RawRefund, D6, EffectiveB;
    var up, down := PosKey(user, player, UP), PosKey(user, player, DOWN);
    var s, t, market := st.positions[up].shares, st.positions[down].shares, st.markets[player];
    assert MarketOk(market);
    hide Economy.Inv;
    Economy.OwnersCanAlwaysExit(m, st, floor, up, s);
    Economy.OwnersCanAlwaysExit(m, st, floor, down, t);
    Economy.SellIsFaithful(m, st, floor, up, s);
    var w := Sell(m, st, floor, up, s).value;
    Economy.FaithfulKeepsInv(st, w);
    Economy.OwnersCanAlwaysExit(m, Apply(st, w), floor, down, t);
    FloorDecidesBoth(market, floor, s);
    SaleAmount(m, st, floor, down, t);
    SaleAmount(m, Apply(st, w), floor, down, t);
    assert w.market == market.Moved(UP, -s).(rating := w.market.rating);
    BothSidesPayMore(m, market, floor, s, t);
    SameRefund(m, market.Moved(UP, -s), w.market, floor, DOWN, t);
    var apart, joint := RawRefund(m, market, floor, DOWN, t), RawRefund(m, w.market, floor, DOWN, t);
    RawRefundNonNegative(m, market, floor, DOWN, t);
    D6Mono(apart, joint);
    MicroOrder(D6(apart), D6(joint));
  }

  lemma SaleAmount(m: Maths, st: State, floor: real, key: PosKey, shares: int)
    requires shares > 0 && Sell(m, st, floor, key, shares).Ok?
    ensures var market := st.markets[key.player];
            && market.B(floor) > 0.0
            && Sell(m, st, floor, key, shares).value.trade.amount
               == Micro(D6(RawRefund(m, market, market.B(floor), key.dir, shares)))
  {
    hide RawRefund, D6, EffectiveB, DisplayRating;
  }

  lemma FloorDecidesBoth(market: Market, floor: real, s: int)
    requires MarketOk(market) && market.B(0.0) <= floor && s >= 0
    ensures market.B(floor) == floor && market.Moved(UP, -s).B(floor) == floor
  {
    MicroOrder(market.qUp, s);
    GrowingB(Milli4(market.bMin), market.alpha, Micro(market.qUp - s), Micro(market.qUp), Micro(market.qDown), 0.0);
  }

  // ---- The two valuations agree ----

  ghost function Times(n: nat, eps: real): real {
    if n == 0 then 0.0 else Times(n - 1, eps) + eps
  }

  lemma {:induction false} TimesIsProduct(n: nat, eps: real)
    ensures Times(n, eps) == n as real * eps
  {
    if n != 0 {
      TimesIsProduct(n - 1, eps);
      assert n as real * eps == (n - 1) as real * eps + eps;
    }
  }

  lemma {:induction false} SumsClose<K(!new)>(f: map<K, real>, g: map<K, real>, eps: real)
    requires f.Keys == g.Keys && forall k :: k in f ==> -eps <= f[k] - g[k] <= eps
    ensures -Times(|f.Keys|, eps) <= Sum(f) - Sum(g) <= Times(|f.Keys|, eps)
    decreases f.Keys
  {
    if f.Keys != {} {
      var k := Pick(f);
      var f1, g1 := f - {k}, g - {k};
      SumExtract(f, k);
      SumExtract(g, k);
      SumsClose(f1, g1, eps);
      assert f1.Keys == f.Keys - {k} && g1.Keys == g.Keys - {k};
      assert |f.Keys| == |f1.Keys| + 1;
    }
  }

  /** A multiple of 1e-4. */
  ghost predicate OnGrid(x: real) {
    x * 10000.0 == (x * 10000.0).Floor as real
  }

  lemma {:induction false} SumOnGrid<K(!new)>(f: map<K, real>)
    requires forall k :: k in f ==> OnGrid(f[k])
    ensures OnGrid(Sum(f))
    decreases f.Keys
  {
    if f.Keys != {} {
      var k := Pick(f);
      SumOnGrid(f - {k});
      assert OnGrid(f[k]);
      GridAdds(f[k], Sum(f - {k}));
    }
  }

  lemma GridAdds(x: real, y: real)
    requires OnGrid(x) && OnGrid(y)
    ensures OnGrid(x + y)
  {
    var a, c := (x * 10000.0).Floor, (y * 10000.0).Floor;
    assert (x + y) * 10000.0 == (a + c) as real;
  }

  lemma Milli4OnGrid(n: int)
    ensures OnGrid(Milli4(n))
  {
    assert Milli4(n) * 10000.0 == n as real;
  }

  lemma QuantisedClose(m: Maths, market: Market, dir: Direction, shares: int)
    requires MarketOk(market)
    ensures -0.0000505 <= Quantised4(m, market, dir, shares) - Quantised6(m, market, dir, shares) <= 0.0000505
    ensures OnGrid(Quantised4(m, market, dir, shares))
  {
    hide Refund, HalfEven, OnGrid;
    var refund := Refund(m, market, dir, shares);
    HalfEvenError(refund * 10000.0);
    HalfEvenError(refund * 1000000.0);
    Milli4OnGrid(D4(refund));
  }

  lemma RefundsClose(m: Maths, st: State, user: UserId)
    requires Priced(st.markets)
    ensures var f, g := Refunds4(m, st, user), Refunds6(m, st, user);
            && f.Keys == g.Keys
            && (forall k :: k in f ==> -0.0000505 <= f[k] - g[k] <= 0.0000505)
            && (forall k :: k in f ==> OnGrid(f[k]))
  {
    hide Quantised4, Quantised6, OnGrid;
    var f, g := Refunds4(m, st, user), Refunds6(m, st, user);
    forall k | k in f ensures k in g && -0.0000505 <= f[k] - g[k] <= 0.0000505 && OnGrid(f[k]) {
      QuantisedClose(m, st.markets[k.player], k.dir, st.positions[k].shares);
    }
  }

  /** The batch value refines the simple one: they differ by at most 0.0000505 per open
      position, plus the final rounding when the cash itself has more than 4 decimals. */
  lemma BatchRefinesSimple(m: Maths, st: State, user: UserId)
    requires Priced(st.markets) && user in st.points
    ensures var n := |Refunds6(m, st, user).Keys| as real;
            var gap := MemberValue(m, st, user) - TotalValue(m, st, user);
            && -(n * 0.0000505 + 0.00005) <= gap <= n * 0.0000505 + 0.00005
            && (OnGrid(st.points[user]) ==> -(n * 0.0000505) <= gap <= n * 0.0000505)
  {
    hide HalfEven, OnGrid, Refunds4, Refunds6;
    var f, g := Refunds4(m, st, user), Refunds6(m, st, user);
    RefundsClose(m, st, user);
    SumsClose(f, g, 0.0000505);
    TimesIsProduct(|f.Keys|, 0.0000505);
    var total := st.points[user] + Sum(f);
    HalfEvenError(total * 10000.0);
    if OnGrid(st.points[user]) {
      SumOnGrid(f);
      GridAdds(st.points[user], Sum(f));
      GridIsExact(total);
    }
  }

  lemma GridIsExact(x: real)
    requires OnGrid(x)
    ensures Milli4(D4(x)) == x
  {
    assert Milli4((x * 10000.0).Floor) == x;
  }

  // ---- Loops over rows ----

  /** Each row once. */
  ghost predicate DistinctRows(rows: seq<Row>) {
    forall i, j :: 0 <= i < j < |rows| ==> rows[i].key != rows[j].key
  }

  function OfUser(rows: seq<Row>, user: UserId): seq<Row> {
    if rows == [] then []
    else
      var last := rows[|rows| - 1];
      OfUser(rows[..|rows| - 1], user) + (if last.key.user == user then [last] else [])
  }

  function Lookup(groups: map<UserId, seq<Row>>, user: UserId): seq<Row> {
    if user in groups then groups[user] else []
  }

  /** The grouping loop (setdefault and append) gives every user exactly the filtered list
      of that user's rows, in row order. */
  method GroupByPortfolio(rows: seq<Row>) returns (groups: map<UserId, seq<Row>>)
    ensures forall user :: Lookup(groups, user) == OfUser(rows, user)
  {
    groups := map[];
    for i := 0 to |rows|
      invariant forall user :: Lookup(groups, user) == OfUser(rows[..i], user)
    {
      var row := rows[i];
      if row.key.user !in groups {
        groups := groups[row.key.user := []];
      }
      assert rows[..i + 1][..i] == rows[..i];
      groups := groups[row.key.user := groups[row.key.user] + [row]];
    }
    assert rows[..|rows|] == rows;
  }

  /** Sum over a list of rows of what the batch loop adds for each. */
  ghost function RowSum(m: Maths, rows: seq<Row>, markets: map<PlayerId, Market>): real
    requires Priced(markets)
  {
    if rows == [] then 0.0
    else
      var last := rows[|rows| - 1];
      RowSum(m, rows[..|rows| - 1], markets)
      + (if last.key.player in markets
         then Quantised4(m, markets[last.key.player], last.key.dir, last.position.shares) else 0.0)
  }

  method ComputeMemberValue(m: Maths, points: real, rows: seq<Row>, markets: map<PlayerId, Market>)
    returns (total: real)
    requires Priced(markets)
    ensures total == Milli4(D4(points + RowSum(m, rows, markets)))
  {
    hide Quantised4, D4;
    total := points;
    for i := 0 to |rows|
      invariant total == points + RowSum(m, rows[..i], markets)
    {
      assert rows[..i + 1][..i] == rows[..i];
      if rows[i].key.player in markets {
        var market := markets[rows[i].key.player];
        total := total + Quantised4(m, market, rows[i].key.dir, rows[i].position.shares);
      }
    }
    assert rows[..|rows|] == rows;
    total := Milli4(D4(total));
  }

  ghost function Keys(rows: seq<Row>): set<PosKey> {
    set i | 0 <= i < |rows| :: rows[i].key
  }

  /** The rows are the open positions of the given users, each once. */
  ghost predicate OpenRows(st: State, users: set<UserId>, rows: seq<Row>) {
    && DistinctRows(rows)
    && (forall i :: 0 <= i < |rows| ==>
          rows[i].key in st.positions && rows[i].position == st.positions[rows[i].key]
          && rows[i].position.shares > 0 && rows[i].key.user in users)
    && (forall k :: k in st.positions && st.positions[k].shares > 0 && k.user in users ==> k in Keys(rows))
  }

  /** The table the batch refunds of a list of one user's rows make up. */
  ghost function RowTable(m: Maths, rows: seq<Row>, user: UserId, markets: map<PlayerId, Market>): map<PosKey, real>
    requires Priced(markets)
  {
    if rows == [] then map[]
    else
      var last := rows[|rows| - 1];
      var before := RowTable(m, rows[..|rows| - 1], user, markets);
      if last.key.user == user && last.key.player in markets
      then before[last.key := Quantised4(m, markets[last.key.player], last.key.dir, last.position.shares)]
      else before
  }

  lemma {:induction false} RowTableIs(m: Maths, rows: seq<Row>, user: UserId, markets: map<PlayerId, Market>)
    requires Priced(markets) && DistinctRows(rows)
    ensures forall k :: k in RowTable(m, rows, user, markets) ==>
              k in Keys(rows) && k.user == user && k.player in markets
    ensures forall i :: 0 <= i < |rows| && rows[i].key.user == user && rows[i].key.player in markets ==>
              rows[i].key in RowTable(m, rows, user, markets)
              && RowTable(m, rows, user, markets)[rows[i].key]
                 == Quantised4(m, markets[rows[i].key.player], rows[i].key.dir, rows[i].position.shares)
    decreases |rows|
  {
    hide Quantised4;
    if rows != [] {
      var n := |rows| - 1;
      var front := rows[..n];
      RowTableIs(m, front, user, markets);
      KeysGrow(rows);
      forall i | 0 <= i < |rows| && rows[i].key.user == user && rows[i].key.player in markets
        ensures rows[i].key in RowTable(m, rows, user, markets)
             && RowTable(m, rows, user, markets)[rows[i].key]
                == Quantised4(m, markets[rows[i].key.player], rows[i].key.dir, rows[i].position.shares)
      {
        if i < n {
          assert front[i] == rows[i];
        }
      }
    }
  }

  lemma KeysGrow(rows: seq<Row>)
    requires rows != [] && DistinctRows(rows)
    ensures DistinctRows(rows[..|rows| - 1])
    ensures Keys(rows[..|rows| - 1]) <= Keys(rows)
    ensures rows[|rows| - 1].key in Keys(rows) && rows[|rows| - 1].key !in Keys(rows[..|rows| - 1])
  {
  }

  lemma {:induction false} RowTableSums(m: Maths, rows: seq<Row>, user: UserId, markets: map<PlayerId, Market>)
    requires Priced(markets) && DistinctRows(rows)
    ensures RowSum(m, OfUser(rows, user), markets) == Sum(RowTable(m, rows, user, markets))
    decreases |rows|
  {
    hide Quantised4, Keys;
    if rows != [] {
      var n := |rows| - 1;
      var last := rows[n];
      var front := rows[..n];
      KeysGrow(rows);
      RowTableSums(m, front, user, markets);
      if last.key.user == user {
        var mine := OfUser(rows, user);
        assert mine == OfUser(front, user) + [last];
        assert mine[..|mine| - 1] == OfUser(front, user);
        if last.key.player in markets {
          RowTableIs(m, front, user, markets);
          SumPut(RowTable(m, front, user, markets), last.key,
                 Quantised4(m, markets[last.key.player], last.key.dir, last.position.shares));
        }
      } else {
        assert OfUser(rows, user) == OfUser(front, user);
      }
    }
  }

  /** The loops compute the batch value: grouping the fetched rows and summing one group
      gives the member value of its owner. */
  lemma GroupedValueIsMemberValue(m: Maths, st: State, users: set<UserId>, rows: seq<Row>, user: UserId)
    requires Priced(st.markets) && OpenRows(st, users, rows) && user in users && user in st.points
    ensures Milli4(D4(st.points[user] + RowSum(m, OfUser(rows, user), st.markets))) == MemberValue(m, st, user)
  {
    hide Quantised4, D4, RowTable, Refunds4, RowSum;
    RowTableSums(m, rows, user, st.markets);
    RowTableIsRefunds(m, st, users, rows, user);
  }

  lemma RowTableIsRefunds(m: Maths, st: State, users: set<UserId>, rows: seq<Row>, user: UserId)
    requires Priced(st.markets) && OpenRows(st, users, rows) && user in users
    ensures RowTable(m, rows, user, st.markets) == Refunds4(m, st, user)
  {
    hide Quantised4, RowTable;
    RowTableIs(m, rows, user, st.markets);
    var table, refunds := RowTable(m, rows, user, st.markets), Refunds4(m, st, user);
    forall k | k in table ensures k in refunds && table[k] == refunds[k] {
      var i :| 0 <= i < |rows| && rows[i].key == k;
    }
    forall k | k in refunds ensures k in table {
      assert k in Keys(rows);
      var i :| 0 <= i < |rows| && rows[i].key == k;
    }
    assert table == refunds;
  }

  /** The simple valuation, as the code sums it over the joined rows. */
  method CalculateTotalValue(m: Maths, st: State, user: UserId) returns (r: Option<real>)
    requires Priced(st.markets)
    ensures r == if user in st.points then Some(TotalValue(m, st, user)) else None
  {
    hide Quantised6;
    if user !in st.points {
      return None;
    }
    var total := st.points[user];
    ghost var all := Refunds6(m, st, user);
    ghost var done: map<PosKey, real> := map[];
    var todo := set k | k in st.positions && k.user == user && st.positions[k].shares > 0 && k.player in st.markets;
    while todo != {}
      invariant todo <= all.Keys && done.Keys == all.Keys - todo
      invariant forall k :: k in done ==> done[k] == all[k]
      invariant total == st.points[user] + Sum(done)
      decreases todo
    {
      var k :| k in todo;
      var refund := Quantised6(m, st.markets[k.player], k.dir, st.positions[k].shares);
      SumPut(done, k, refund);
      total := total + refund;
      done := done[k := refund];
      todo := todo - {k};
    }
    assert done == all;
    r := Some(total);
  }

  /** Fetching the open positions of a set of users, in no particular order. */
  method FetchOpenPositions(st: State, users: set<UserId>) returns (rows: seq<Row>)
    ensures OpenRows(st, users, rows)
  {
    rows := [];
    var todo := set k | k in st.positions && st.positions[k].shares > 0 && k.user in users;
    ghost var all := todo;
    while todo != {}
      invariant todo <= all && Keys(rows) == all - todo
      invariant DistinctRows(rows)
      invariant forall i :: 0 <= i < |rows| ==>
                  rows[i].key in st.positions && rows[i].position == st.positions[rows[i].key]
                  && rows[i].position.shares > 0 && rows[i].key.user in users
      decreases todo
    {
      var k :| k in todo;
      KeysAppend(rows, Row(k, st.positions[k]));
      rows := rows + [Row(k, st.positions[k])];
      todo := todo - {k};
    }
  }

  lemma KeysAppend(rows: seq<Row>, row: Row)
    ensures Keys(rows + [row]) == Keys(rows) + {row.key}
    ensures row.key !in Keys(rows) && DistinctRows(rows) ==> DistinctRows(rows + [row])
  {
    var more := rows + [row];
    assert more[|rows|] == row;
    forall k | k in Keys(rows) ensures k in Keys(more) {
      var i :| 0 <= i < |rows| && rows[i].key == k;
      assert more[i] == rows[i];
    }
    if row.key !in Keys(rows) {
      assert forall i :: 0 <= i < |rows| ==> rows[i].key in Keys(rows);
    }
  }

  /** The batch: one fetch, one grouping pass, one sum per user. */
  method BatchValues(m: Maths, st: State, users: set<UserId>) returns (values: map<UserId, real>)
    requires Priced(st.markets)
    ensures values.Keys == users * st.points.Keys
    ensures forall user :: user in values ==> values[user] == MemberValue(m, st, user)
  {
    hide MemberValue, RowSum, D4, Priced;
    var rows := FetchOpenPositions(st, users);
    var groups := GroupByPortfolio(rows);
    values := map[];
    var todo := users * st.points.Keys;
    while todo != {}
      invariant todo <= users * st.points.Keys && values.Keys == users * st.points.Keys - todo
      invariant forall user :: user in values ==> values[user] == MemberValue(m, st, user)
      decreases todo
    {
      var user :| user in todo;
      var mine := Lookup(groups, user);
      var value := ComputeMemberValue(m, st.points[user], mine, st.markets);
      GroupedValueIsMemberValue(m, st, users, rows, user);
      values := values[user := value];
      todo := todo - {user};
    }
  }
}
