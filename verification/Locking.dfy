/** Concurrent trades.  A transaction locks its portfolio row, checks, locks its market row,
    plans from the rows it read, and commits; both locks are held to the end (INV-05).
    Reads see committed rows only.  A player's is_active flag is fixed during the run. */
module Locking {
  import opened ExpLn
  import opened Lmsr
  import opened Decimals
  import opened Trading
  import Economy

  datatype Order =
    | BuyOf(floor: real, key: PosKey, budget: real)
    | SellOf(floor: real, key: PosKey, shares: int)
  {
    ghost predicate Accepted() {
      match this
      case BuyOf(_, _, budget) => budget > 0.0
      case SellOf(_, _, shares) => shares > 0
    }
  }

  /** Where a transaction stands, with the rows it has read so far. */
  datatype Phase =
    | Start
    | PortfolioLocked(points: real)
    | Checked(points: real, position: Option<Position>)
    | MarketLocked(points: real, position: Option<Position>, market: Market)
    | Written(w: Writes)
    | Committed
    | Aborted(error: TradeError)
  {
    predicate HoldsPortfolio() { PortfolioLocked? || Checked? || MarketLocked? || Written? }
    predicate HoldsMarket() { MarketLocked? || Written? }
    predicate Finished() { Committed? || Aborted? }

    function Remaining(): nat {
      match this
      case Start => 5
      case PortfolioLocked(_) => 4
      case Checked(_, _) => 3
      case MarketLocked(_, _, _) => 2
      case Written(_) => 1
      case Committed => 0
      case Aborted(_) => 0
    }
  }

  datatype System = System(db: State, phases: seq<Phase>, log: seq<nat>)

  ghost predicate Accepted(orders: seq<Order>) {
    forall i :: 0 <= i < |orders| ==> orders[i].Accepted()
  }

  ghost predicate PortfolioBusy(orders: seq<Order>, s: System, i: nat)
    requires |s.phases| == |orders| && i < |orders|
  {
    exists j :: 0 <= j < |orders| && j != i && s.phases[j].HoldsPortfolio() && orders[j].key.user == orders[i].key.user
  }

  ghost predicate MarketBusy(orders: seq<Order>, s: System, i: nat)
    requires |s.phases| == |orders| && i < |orders|
  {
    exists j :: 0 <= j < |orders| && j != i && s.phases[j].HoldsMarket() && orders[j].key.player == orders[i].key.player
  }

  /** The checks made under the portfolio lock. */
  ghost function Check(order: Order, db: State, points: real): Phase {
    match order
    case BuyOf(_, key, budget) =>
      if key.player !in db.active then Aborted(PlayerNotFound)
      else if !db.active[key.player] then Aborted(InactivePlayer)
      else if budget > points then Aborted(InsufficientPoints)
      else Checked(points, None)
    case SellOf(_, key, shares) =>
      var position := Find(db.positions, key);
      if position.None? || position.value.shares < shares then Aborted(InsufficientShares)
      else Checked(points, position)
  }

  /** The plan made under both locks, from the rows read earlier; a buy reads its position
      row only now. */
  ghost function Plan(m: Maths, order: Order, db: State, points: real, position: Option<Position>,
                      market: Market): Phase
    requires order.Accepted()
  {
    var r := match order
      case BuyOf(floor, key, budget) =>
        PlanBuy(m, floor, key, budget, Some(points), Some(true), Some(market), Find(db.positions, key))
      case SellOf(floor, key, shares) =>
        PlanSell(m, floor, key, shares, Some(points), Some(market), position);
    match r
    case Ok(w) => Written(w)
    case Err(e) => Aborted(e)
  }

  /** Transaction i's next step; None when it is finished or waits for a lock. */
  ghost function Advance(m: Maths, orders: seq<Order>, s: System, i: nat): Option<System>
    requires Accepted(orders) && |s.phases| == |orders| && i < |orders|
  {
    var key := orders[i].key;
    match s.phases[i]
    case Start =>
      if PortfolioBusy(orders, s, i) then None
      else if key.user !in s.db.points then Some(s.(phases := s.phases[i := Aborted(PortfolioMissing)]))
      else Some(s.(phases := s.phases[i := PortfolioLocked(s.db.points[key.user])]))
    case PortfolioLocked(points) =>
      Some(s.(phases := s.phases[i := Check(orders[i], s.db, points)]))
    case Checked(points, position) =>
      if MarketBusy(orders, s, i) then None
      else if key.player !in s.db.markets then Some(s.(phases := s.phases[i := Aborted(MarketNotFound)]))
      else Some(s.(phases := s.phases[i := MarketLocked(points, position, s.db.markets[key.player])]))
    case MarketLocked(points, position, market) =>
      Some(s.(phases := s.phases[i := Plan(m, orders[i], s.db, points, position, market)]))
    case Written(w) =>
      Some(System(Apply(s.db, w), s.phases[i := Committed], s.log + [i]))
    case Committed => None
    case Aborted(_) => None
  }

  /** A schedule names the transaction that moves next; a blocked one waits. */
  ghost function Schedule(m: Maths, orders: seq<Order>, s: System, turns: seq<nat>): System
    requires Accepted(orders) && |s.phases| == |orders|
    decreases |turns|
  {
    if turns == [] then s
    else if turns[0] < |orders| && Advance(m, orders, s, turns[0]).Some? then
      Schedule(m, orders, Advance(m, orders, s, turns[0]).value, turns[1..])
    else
      Schedule(m, orders, s, turns[1..])
  }

  ghost function Initial(orders: seq<Order>, db: State): System {
    System(db, seq(|orders|, i => Start), [])
  }

  // ---- The atomic specification ----

  ghost function Atomic(m: Maths, order: Order, db: State): Result<Writes>
    requires order.Accepted()
  {
    match order
    case BuyOf(floor, key, budget) => Buy(m, db, floor, key, budget)
    case SellOf(floor, key, shares) => Sell(m, db, floor, key, shares)
  }

  ghost predicate InRange(orders: seq<Order>, log: seq<nat>) {
    forall k :: 0 <= k < |log| ==> log[k] < |orders|
  }

  /** Running the logged transactions one after the other, each in one step. */
  ghost function Replay(m: Maths, orders: seq<Order>, db: State, log: seq<nat>): State
    requires Accepted(orders) && InRange(orders, log)
    decreases |log|
  {
    if log == [] then db
    else
      var before := Replay(m, orders, db, log[..|log| - 1]);
      After(before, Atomic(m, orders[log[|log| - 1]], before))
  }

  ghost predicate AllSucceed(m: Maths, orders: seq<Order>, db: State, log: seq<nat>)
    requires Accepted(orders) && InRange(orders, log)
    decreases |log|
  {
    log == [] ||
    (AllSucceed(m, orders, db, log[..|log| - 1])
     && Atomic(m, orders[log[|log| - 1]], Replay(m, orders, db, log[..|log| - 1])).Ok?)
  }

  // ---- The invariant ----

  /** What a transaction read is still what the tables hold. */
  ghost predicate Fresh(m: Maths, order: Order, db: State, phase: Phase)
    requires order.Accepted()
  {
    var key := order.key;
    match phase
    case Start => true
    case PortfolioLocked(points) => Find(db.points, key.user) == Some(points)
    case Checked(points, position) =>
      Find(db.points, key.user) == Some(points) && Check(order, db, points) == phase
    case MarketLocked(points, position, market) =>
      && Find(db.points, key.user) == Some(points) && Check(order, db, points) == Checked(points, position)
      && Find(db.markets, key.player) == Some(market)
    case Written(w) => Atomic(m, order, db) == Ok(w)
    case Committed => true
    case Aborted(_) => true
  }

  ghost predicate Exclusive(orders: seq<Order>, s: System)
    requires |s.phases| == |orders|
  {
    forall i, j :: 0 <= i < |orders| && 0 <= j < |orders| && i != j ==>
      && (s.phases[i].HoldsPortfolio() && s.phases[j].HoldsPortfolio() ==> orders[i].key.user != orders[j].key.user)
      && (s.phases[i].HoldsMarket() && s.phases[j].HoldsMarket() ==> orders[i].key.player != orders[j].key.player)
  }

  ghost predicate AllFresh(m: Maths, orders: seq<Order>, s: System)
    requires Accepted(orders) && |s.phases| == |orders|
  {
    forall i :: 0 <= i < |orders| ==> Fresh(m, orders[i], s.db, s.phases[i])
  }

  /** Exactly the committed transactions are in the log, once each. */
  ghost predicate Logged(orders: seq<Order>, s: System)
    requires |s.phases| == |orders|
  {
    && InRange(orders, s.log)
    && (forall k :: 0 <= k < |s.log| ==> s.phases[s.log[k]].Committed?)
    && (forall i :: 0 <= i < |orders| && s.phases[i].Committed? ==> i in s.log)
    && (forall k, l :: 0 <= k < l < |s.log| ==> s.log[k] != s.log[l])
  }

  ghost predicate Inv(m: Maths, orders: seq<Order>, db0: State, s: System)
    requires Accepted(orders)
  {
    && |s.phases| == |orders|
    && Exclusive(orders, s)
    && AllFresh(m, orders, s)
    && Logged(orders, s)
    && s.db == Replay(m, orders, db0, s.log)
    && AllSucceed(m, orders, db0, s.log)
  }

  /** A trade reads only its own four rows. */
  lemma AtomicFrame(m: Maths, order: Order, db: State, db2: State)
    requires order.Accepted()
    requires Find(db.points, order.key.user) == Find(db2.points, order.key.user)
    requires Find(db.active, order.key.player) == Find(db2.active, order.key.player)
    requires Find(db.markets, order.key.player) == Find(db2.markets, order.key.player)
    requires Find(db.positions, order.key) == Find(db2.positions, order.key)
    ensures Atomic(m, order, db) == Atomic(m, order, db2)
  {
    hide PlanBuy, PlanSell;
  }

  /** A refused transaction would also have been refused in one atomic step, for the same
      reason, on the tables as they are when it gives up. */
  lemma AbortIsJustified(m: Maths, orders: seq<Order>, s: System, i: nat)
    requires Accepted(orders) && |s.phases| == |orders| && i < |orders| && AllFresh(m, orders, s)
    requires Advance(m, orders, s, i).Some? && Advance(m, orders, s, i).value.phases[i].Aborted?
    ensures var after := Advance(m, orders, s, i).value;
            && after.db == s.db && after.log == s.log
            && Atomic(m, orders[i], s.db) == Err(after.phases[i].error)
  {
    hide EffectiveB, RawShares, RawRefund, DisplayRating, D6, NewAverage;
    assert Fresh(m, orders[i], s.db, s.phases[i]);
  }

  lemma PlanIsAtomic(m: Maths, orders: seq<Order>, s: System, i: nat)
    requires Accepted(orders) && |s.phases| == |orders| && i < |orders| && AllFresh(m, orders, s)
    requires s.phases[i].MarketLocked?
    ensures var phase := s.phases[i];
            Fresh(m, orders[i], s.db, Plan(m, orders[i], s.db, phase.points, phase.position, phase.market))
  {
    hide EffectiveB, RawShares, RawRefund, DisplayRating, D6, NewAverage;
    assert Fresh(m, orders[i], s.db, s.phases[i]);
  }

  lemma WritesOwnRows(m: Maths, order: Order, db: State)
    requires order.Accepted() && Atomic(m, order, db).Ok?
    ensures Atomic(m, order, db).value.trade.key == order.key
  {
    hide EffectiveB, RawShares, RawRefund, DisplayRating, D6, NewAverage;
  }

  /** A commit leaves everything the other lock holders have read untouched. */
  lemma CommitKeepsFresh(m: Maths, order: Order, db: State, phase: Phase, w: Writes)
    requires order.Accepted() && Fresh(m, order, db, phase)
    requires phase.HoldsPortfolio() ==> order.key.user != w.trade.key.user
    requires phase.HoldsMarket() ==> order.key.player != w.trade.key.player
    ensures Fresh(m, order, Apply(db, w), phase)
  {
    hide Buy, Sell;
    if phase.Written? {
      AtomicFrame(m, order, db, Apply(db, w));
    }
  }

  lemma LogGrows(m: Maths, orders: seq<Order>, db0: State, log: seq<nat>, i: nat)
    requires Accepted(orders) && InRange(orders, log) && i < |orders|
    requires AllSucceed(m, orders, db0, log) && Atomic(m, orders[i], Replay(m, orders, db0, log)).Ok?
    ensures AllSucceed(m, orders, db0, log + [i])
    ensures Replay(m, orders, db0, log + [i])
            == Apply(Replay(m, orders, db0, log), Atomic(m, orders[i], Replay(m, orders, db0, log)).value)
  {
    assert (log + [i])[..|log + [i]| - 1] == log;
  }

  /** Every step of every transaction keeps the invariant. */
  lemma AdvanceKeepsInv(m: Maths, orders: seq<Order>, db0: State, s: System, i: nat)
    requires Accepted(orders) && Inv(m, orders, db0, s) && i < |orders|
    requires Advance(m, orders, s, i).Some?
    ensures Inv(m, orders, db0, Advance(m, orders, s, i).value)
  {
    hide Atomic, Plan, Apply;
    assert Fresh(m, orders[i], s.db, s.phases[i]);
    if s.phases[i].Written? {
      CommitKeepsInv(m, orders, db0, s, i);
    } else {
      if s.phases[i].MarketLocked? {
        PlanIsAtomic(m, orders, s, i);
        PlanEnds(m, orders[i], s.db, s.phases[i].points, s.phases[i].position, s.phases[i].market);
      }
      QuietStepKeepsInv(m, orders, db0, s, i, Advance(m, orders, s, i).value.phases[i]);
    }
  }

  lemma PlanEnds(m: Maths, order: Order, db: State, points: real, position: Option<Position>, market: Market)
    requires order.Accepted()
    ensures Plan(m, order, db, points, position, market).Written?
         || Plan(m, order, db, points, position, market).Aborted?
  {
    hide PlanBuy, PlanSell;
  }

  /** A step that only changes the transaction's own phase. */
  lemma QuietStepKeepsInv(m: Maths, orders: seq<Order>, db0: State, s: System, i: nat, phase: Phase)
    requires Accepted(orders) && Inv(m, orders, db0, s) && i < |orders|
    requires !s.phases[i].Committed? && !phase.Committed? && Fresh(m, orders[i], s.db, phase)
    requires phase.HoldsPortfolio() ==> s.phases[i].HoldsPortfolio() || !PortfolioBusy(orders, s, i)
    requires phase.HoldsMarket() ==> s.phases[i].HoldsMarket() || !MarketBusy(orders, s, i)
    ensures Inv(m, orders, db0, s.(phases := s.phases[i := phase]))
  {
    hide Atomic, Fresh, Replay, AllSucceed;
    var after := s.(phases := s.phases[i := phase]);
    forall a, c | 0 <= a < |orders| && 0 <= c < |orders| && a != c
      ensures after.phases[a].HoldsPortfolio() && after.phases[c].HoldsPortfolio() ==>
                orders[a].key.user != orders[c].key.user
      ensures after.phases[a].HoldsMarket() && after.phases[c].HoldsMarket() ==>
                orders[a].key.player != orders[c].key.player
    {
    }
  }

  lemma CommitKeepsInv(m: Maths, orders: seq<Order>, db0: State, s: System, i: nat)
    requires Accepted(orders) && Inv(m, orders, db0, s) && i < |orders| && s.phases[i].Written?
    ensures Inv(m, orders, db0, System(Apply(s.db, s.phases[i].w), s.phases[i := Committed], s.log + [i]))
  {
    hide Atomic, Fresh, Replay, AllSucceed, Apply;
    var w := s.phases[i].w;
    var after := System(Apply(s.db, w), s.phases[i := Committed], s.log + [i]);
    WrittenIsAtomic(m, orders, s, i);
    LogGrows(m, orders, db0, s.log, i);
    forall j | 0 <= j < |orders| ensures Fresh(m, orders[j], after.db, after.phases[j]) {
      if j == i {
        FinishedIsFresh(m, orders[j], after.db, Committed);
      } else {
        CommitKeepsFresh(m, orders[j], s.db, s.phases[j], w);
      }
    }
    assert forall k :: 0 <= k < |s.log| ==> s.log[k] != i;
  }

  lemma FinishedIsFresh(m: Maths, order: Order, db: State, phase: Phase)
    requires order.Accepted() && phase.Finished()
    ensures Fresh(m, order, db, phase)
  {
  }

  lemma WrittenIsAtomic(m: Maths, orders: seq<Order>, s: System, i: nat)
    requires Accepted(orders) && |s.phases| == |orders| && i < |orders| && AllFresh(m, orders, s)
    requires s.phases[i].Written?
    ensures Atomic(m, orders[i], s.db) == Ok(s.phases[i].w) && s.phases[i].w.trade.key == orders[i].key
  {
    hide Buy, Sell;
    assert Fresh(m, orders[i], s.db, s.phases[i]);
    WritesOwnRows(m, orders[i], s.db);
  }

  lemma {:induction false} ScheduleKeepsInv(m: Maths, orders: seq<Order>, db0: State, s: System, turns: seq<nat>)
    requires Accepted(orders) && Inv(m, orders, db0, s)
    ensures Inv(m, orders, db0, Schedule(m, orders, s, turns))
    decreases |turns|
  {
    hide Inv, Advance;
    if turns != [] {
      InvLength(m, orders, db0, s);
      if turns[0] < |orders| && Advance(m, orders, s, turns[0]).Some? {
        AdvanceKeepsInv(m, orders, db0, s, turns[0]);
        ScheduleKeepsInv(m, orders, db0, Advance(m, orders, s, turns[0]).value, turns[1..]);
      } else {
        ScheduleKeepsInv(m, orders, db0, s, turns[1..]);
      }
    }
  }

  lemma InvLength(m: Maths, orders: seq<Order>, db0: State, s: System)
    requires Accepted(orders) && Inv(m, orders, db0, s)
    ensures |s.phases| == |orders|
  {
  }

  /** Locked interleavings refine atomic trades: whatever the schedule, the tables are those
      reached by running the committed transactions atomically in commit order, each of them
      succeeding; the others have changed nothing. */
  lemma InterleavingsAreAtomic(m: Maths, orders: seq<Order>, db: State, turns: seq<nat>)
    requires Accepted(orders)
    ensures var end := Schedule(m, orders, Initial(orders, db), turns);
            && |end.phases| == |orders|
            && Logged(orders, end)
            && AllSucceed(m, orders, db, end.log)
            && end.db == Replay(m, orders, db, end.log)
  {
    ScheduleKeepsInv(m, orders, db, Initial(orders, db), turns);
  }

  // ---- Progress ----

  /** Lock order prevents deadlock: while a transaction is unfinished, some transaction can
      step. */
  lemma SomeoneCanStep(m: Maths, orders: seq<Order>, s: System, i: nat) returns (j: nat)
    requires Accepted(orders) && |s.phases| == |orders| && i < |orders| && !s.phases[i].Finished()
    ensures j < |orders| && Advance(m, orders, s, j).Some?
  {
    hide Check, Plan, Apply;
    if k :| 0 <= k < |orders| && s.phases[k].HoldsMarket() {
      return k;
    }
    if k :| 0 <= k < |orders| && s.phases[k].HoldsPortfolio() {
      return k;
    }
    return i;
  }

  ghost function Work(phases: seq<Phase>): nat {
    if phases == [] then 0 else phases[0].Remaining() + Work(phases[1..])
  }

  lemma {:induction false} WorkUpdate(phases: seq<Phase>, i: nat, phase: Phase)
    requires i < |phases|
    ensures Work(phases[i := phase]) == Work(phases) + phase.Remaining() - phases[i].Remaining()
  {
    if i == 0 {
      assert phases[i := phase][1..] == phases[1..];
    } else {
      assert phases[i := phase][1..] == phases[1..][i - 1 := phase];
      WorkUpdate(phases[1..], i - 1, phase);
    }
  }

  lemma AdvanceWorks(m: Maths, orders: seq<Order>, s: System, i: nat)
    requires Accepted(orders) && |s.phases| == |orders| && i < |orders| && Advance(m, orders, s, i).Some?
    ensures var after := Advance(m, orders, s, i).value;
            |after.phases| == |orders| && Work(after.phases) < Work(s.phases)
  {
    hide Apply, PlanBuy, PlanSell;
    WorkUpdate(s.phases, i, Advance(m, orders, s, i).value.phases[i]);
  }

  ghost predicate AllFinished(s: System) {
    forall i :: 0 <= i < |s.phases| ==> s.phases[i].Finished()
  }

  /** Every situation can be run to the end, within five steps per transaction. */
  lemma {:induction false} CanFinish(m: Maths, orders: seq<Order>, s: System) returns (turns: seq<nat>)
    requires Accepted(orders) && |s.phases| == |orders|
    ensures AllFinished(Schedule(m, orders, s, turns)) && |turns| <= Work(s.phases)
    decreases Work(s.phases)
  {
    hide Advance;
    if i :| 0 <= i < |orders| && !s.phases[i].Finished() {
      var j := SomeoneCanStep(m, orders, s, i);
      AdvanceWorks(m, orders, s, j);
      var rest := CanFinish(m, orders, Advance(m, orders, s, j).value);
      turns := [j] + rest;
      assert turns[1..] == rest;
    } else {
      turns := [];
    }
  }

  /** What holds of every reachable economy also holds under concurrency. */
  lemma {:induction false} ReplayKeepsEconomy(m: Maths, orders: seq<Order>, db: State, log: seq<nat>)
    requires Valid(m) && Accepted(orders) && InRange(orders, log) && Economy.Inv(db)
    ensures Economy.Inv(Replay(m, orders, db, log))
    decreases |log|
  {
    hide Buy, Sell, Economy.Inv;
    if log != [] {
      var before := Replay(m, orders, db, log[..|log| - 1]);
      ReplayKeepsEconomy(m, orders, db, log[..|log| - 1]);
      match orders[log[|log| - 1]]
      case BuyOf(floor, key, budget) =>
        if Buy(m, before, floor, key, budget).Ok? {
          Economy.BuyIsFaithful(m, before, floor, key, budget);
          Economy.FaithfulKeepsInv(before, Buy(m, before, floor, key, budget).value);
        }
      case SellOf(floor, key, shares) =>
        if Sell(m, before, floor, key, shares).Ok? {
          Economy.SellIsFaithful(m, before, floor, key, shares);
          Economy.FaithfulKeepsInv(before, Sell(m, before, floor, key, shares).value);
        }
    }
  }

  /** So concurrent trading keeps the ledger, the solvency of every market and the basis. */
  lemma ConcurrentTradingIsSound(m: Maths, orders: seq<Order>, db: State, turns: seq<nat>)
    requires Valid(m) && Accepted(orders) && Economy.Inv(db)
    ensures Economy.Inv(Schedule(m, orders, Initial(orders, db), turns).db)
  {
    InterleavingsAreAtomic(m, orders, db, turns);
    ReplayKeepsEconomy(m, orders, db, Schedule(m, orders, Initial(orders, db), turns).log);
  }
}
