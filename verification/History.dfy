/** The rating history: every displayed rating is on record and in range, and the newest
    record of a player is what the market shows, unless the import seeded it again. */
module History {
  import opened ExpLn
  import opened Lmsr
  import opened LiquidityTheory
  import opened Decimals
  import opened Trading
  import opened TradeTheory
  import opened Calibration
  import opened Economy

  /** The newest recorded rating of a player. */
  ghost function Latest(history: seq<(PlayerId, int)>, player: PlayerId): Option<int> {
    if history == [] then None
    else if history[|history| - 1].0 == player then Some(history[|history| - 1].1)
    else Latest(history[..|history| - 1], player)
  }

  lemma LatestAppend(history: seq<(PlayerId, int)>, entry: (PlayerId, int), player: PlayerId)
    ensures Latest(history + [entry], player) == if entry.0 == player then Some(entry.1) else Latest(history, player)
  {
    assert (history + [entry])[..|history + [entry]| - 1] == history;
  }

  ghost predicate InRange(rating: int) { 0 <= rating <= 100000 }

  ghost predicate Recorded(st: State) {
    && (forall i :: 0 <= i < |st.history| ==> InRange(st.history[i].1))
    && (forall p :: p in st.markets ==> Latest(st.history, p) == Some(st.markets[p].rating))
  }

  /** An import of a player who already has a market. */
  ghost predicate Reimport(st: State, e: Event) {
    e.Import? && e.bMin > 0 && e.player in st.markets
  }

  lemma TradeKeepsRecorded(st: State, w: Writes)
    requires Recorded(st) && InRange(w.market.rating)
    ensures Recorded(Apply(st, w))
  {
    var after := Apply(st, w);
    var entry := (w.trade.key.player, w.market.rating);
    forall p | p in after.markets ensures Latest(after.history, p) == Some(after.markets[p].rating) {
      LatestAppend(st.history, entry, p);
    }
  }

  lemma SeedInRange(m: Maths, rBase: real, bMin: int)
    requires Valid(m) && bMin > 0
    ensures InRange(SeedMarket(m, rBase, bMin).rating)
  {
    hide Rating;
    SeedingClamps(m, rBase, Milli4(bMin));
  }

  lemma ImportRecords(m: Maths, st: State, player: PlayerId, rBase: real, bMin: int)
    requires Valid(m) && Recorded(st) && Positive(st.markets) && bMin > 0
    ensures var seeded := SeedMarket(m, rBase, bMin);
            var after := Step(m, st, Import(player, rBase, bMin));
            Recorded(after) <==> player in st.markets ==> seeded.rating == st.markets[player].rating
  {
    hide SeedMarket, InRange;
    SeedInRange(m, rBase, bMin);
    var after := Step(m, st, Import(player, rBase, bMin));
    var entry := (player, SeedMarket(m, rBase, bMin).rating);
    LatestAppend(st.history, entry, player);
    forall p | p in after.markets && p != player ensures Latest(after.history, p) == Some(after.markets[p].rating) {
      LatestAppend(st.history, entry, p);
    }
    assert player in after.markets;
    assert after.markets[player].rating == if player in st.markets then st.markets[player].rating else entry.1;
  }

  lemma RecalibrationKeepsRecorded(st: State, target: real)
    requires Inv(st) && Positive(st.markets) && Recorded(st)
    ensures Recorded(RecalibrateAll(st, target))
  {
    hide Recalibrated, InRange;
    forall p | p in st.markets ensures Recalibrated(st.markets[p], target).rating == st.markets[p].rating {
      RatchetOnlyRises(st.markets[p], target);
    }
  }

  /** A step keeps the record straight, except that importing a player again does so exactly
      when the seed happens to show the rating the market already shows. */
  lemma StepRecords(m: Maths, st: State, e: Event)
    requires Valid(m) && Inv(st) && Positive(st.markets) && Recorded(st)
    ensures !Reimport(st, e) ==> Recorded(Step(m, st, e))
    ensures Reimport(st, e) ==>
              (Recorded(Step(m, st, e)) <==> SeedMarket(m, e.rBase, e.bMin).rating == st.markets[e.player].rating)
  {
    hide Buy, Sell, SeedMarket, RecalibrateAll, Recorded;
    match e
    case Register(_) => SameRecord(st, Step(m, st, e));
    case Deactivate(_) => SameRecord(st, Step(m, st, e));
    case Import(player, rBase, bMin) =>
      if bMin > 0 {
        ImportRecords(m, st, player, rBase, bMin);
      }
    case BuyOrder(floor, key, budget) =>
      if budget > 0.0 && Buy(m, st, floor, key, budget).Ok? {
        BuyIsFaithful(m, st, floor, key, budget);
        BuyMovesRating(m, st, floor, key, budget);
        TradeKeepsRecorded(st, Buy(m, st, floor, key, budget).value);
      }
    case SellOrder(floor, key, shares) =>
      if shares > 0 && Sell(m, st, floor, key, shares).Ok? {
        SellIsFaithful(m, st, floor, key, shares);
        OwnersCanAlwaysExit(m, st, floor, key, shares);
        OwnedIsCovered(st, key);
        SellMovesRating(m, st, floor, key, shares);
        TradeKeepsRecorded(st, Sell(m, st, floor, key, shares).value);
      }
    case Recalibrate(target) => RecalibrationKeepsRecorded(st, target);
  }

  lemma SameRecord(st: State, end: State)
    requires Recorded(st) && end.markets == st.markets && end.history == st.history
    ensures Recorded(end)
  {
  }

  ghost predicate NoReimports(m: Maths, st: State, events: seq<Event>)
    requires Valid(m) && Inv(st)
    decreases |events|
  {
    if events == [] then true
    else
      InvIsPositive(st);
      StepKeepsInv(m, st, events[0]);
      !Reimport(st, events[0]) && NoReimports(m, Step(m, st, events[0]), events[1..])
  }

  /** Over every run that imports no player twice, the newest history entry of every player
      is the rating its market shows, and all entries are in range. */
  lemma {:induction false} RunRecords(m: Maths, st: State, events: seq<Event>)
    requires Valid(m) && Inv(st) && Recorded(st) && NoReimports(m, st, events)
    ensures Recorded(Run(m, st, events))
    decreases |events|
  {
    hide Recorded, Inv, Step;
    if events != [] {
      InvIsPositive(st);
      StepKeepsInv(m, st, events[0]);
      StepRecords(m, st, events[0]);
      RunRecords(m, Step(m, st, events[0]), events[1..]);
    }
  }
}
