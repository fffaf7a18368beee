/** The three-layer oracle rating. */
module Oracle {
  import opened Arithmetic
  import opened Lmsr
  import opened Trading

  const LAYER1_WEIGHTS := [0.35, 0.25, 0.20, 0.12, 0.08]
  const LAYER3_DEFAULT := 6.5

  datatype StatWeight = StatWeight(stat: string, weight: real, inverse: bool)
  datatype Stats = Stats(group: string, values: map<string, real>)
  datatype Source = Layer1 | Layer2 | Layer3

  function PositionWeights(group: string): Option<seq<StatWeight>> {
    if group == "FW" then Some([
      StatWeight("goals", 0.25, false), StatWeight("shots_on_target", 0.20, false), StatWeight("xg", 0.20, false),
      StatWeight("key_passes", 0.15, false), StatWeight("dribbles_won", 0.10, false),
      StatWeight("minutes_played", 0.10, false)])
    else if group == "MF" then Some([
      StatWeight("goals", 0.15, false), StatWeight("shots_on_target", 0.10, false), StatWeight("xg", 0.15, false),
      StatWeight("key_passes", 0.15, false), StatWeight("dribbles_won", 0.10, false),
      StatWeight("pass_accuracy", 0.20, false), StatWeight("tackles", 0.15, false),
      StatWeight("minutes_played", 0.10, false)])
    else if group == "DF" then Some([
      StatWeight("goals", 0.05, false), StatWeight("key_passes", 0.05, false), StatWeight("pass_accuracy", 0.15, false),
      StatWeight("tackles", 0.25, false), StatWeight("interceptions", 0.20, false),
      StatWeight("clearances", 0.15, false), StatWeight("duels_won", 0.15, false),
      StatWeight("minutes_played", 0.10, false)])
    else if group == "GK" then Some([
      StatWeight("pass_accuracy", 0.15, false), StatWeight("saves", 0.30, false), StatWeight("clean_sheet", 0.25, false),
      StatWeight("goals_conceded", 0.20, true), StatWeight("minutes_played", 0.10, false)])
    else None
  }

  // ---- Layer 2: percentile ratings ----

  function CountEqual(pool: seq<real>, value: real): nat {
    if pool == [] then 0
    else CountEqual(pool[..|pool| - 1], value) + (if pool[|pool| - 1] == value then 1 else 0)
  }

  /** How many are worse: smaller, or larger when less is better. */
  function CountWorse(pool: seq<real>, value: real, inverse: bool): nat {
    if pool == [] then 0
    else
      var last := pool[|pool| - 1];
      CountWorse(pool[..|pool| - 1], value, inverse) + (if (if inverse then last > value else last < value) then 1 else 0)
  }

  function Largest(pool: seq<real>): real
    requires pool != []
  {
    if |pool| == 1 then pool[0] else Max(Largest(pool[..|pool| - 1]), pool[|pool| - 1])
  }

  function Smallest(pool: seq<real>): real
    requires pool != []
  {
    if |pool| == 1 then pool[0] else Min(Smallest(pool[..|pool| - 1]), pool[|pool| - 1])
  }

  /** The values that are worse, ties counted half. */
  function MidRank(pool: seq<real>, value: real, inverse: bool): real {
    CountWorse(pool, value, inverse) as real + 0.5 * CountEqual(pool, value) as real
  }

  function PercentileToRating(value: real, pool: seq<real>, inverse: bool): real {
    if pool == [] || Largest(pool) == Smallest(pool) then LAYER3_DEFAULT
    else
      var rank := MidRank(pool, value, inverse) / |pool| as real;
      Max(3.0, Min(10.0, 4.0 + rank * 5.0))
  }

  lemma {:induction false} CountsPartition(pool: seq<real>, value: real)
    ensures CountWorse(pool, value, false) + CountWorse(pool, value, true) + CountEqual(pool, value) == |pool|
  {
    if pool != [] {
      CountsPartition(pool[..|pool| - 1], value);
    }
  }

  lemma MidRankRange(pool: seq<real>, value: real, inverse: bool)
    ensures 0.0 <= MidRank(pool, value, inverse) <= |pool| as real
    ensures MidRank(pool, value, false) + MidRank(pool, value, true) == |pool| as real
  {
    CountsPartition(pool, value);
  }

  /** The rating arithmetic, with the clamp shown to be idle. */
  lemma RatingForm(x: real, n: real)
    requires n > 0.0 && 0.0 <= x <= n
    ensures Max(3.0, Min(10.0, 4.0 + x / n * 5.0)) == 4.0 + x / n * 5.0
    ensures 4.0 <= 4.0 + x / n * 5.0 <= 9.0
    ensures (4.0 + x / n * 5.0 - 4.0) * n == 5.0 * x
  {
    var rank := x / n;
    assert rank * n == x;
    FractionRange(rank, n);
    assert (4.0 + rank * 5.0 - 4.0) * n == 5.0 * (rank * n);
  }

  lemma FractionRange(rank: real, n: real)
    requires n > 0.0 && 0.0 <= rank * n <= n
    ensures 0.0 <= rank <= 1.0
  {
  }

  /** The clamp never acts: ratings lie in [4, 9], and with variation they are 4 + 5 times
      the mid-rank fraction. */
  lemma RatingRange(value: real, pool: seq<real>, inverse: bool)
    ensures 4.0 <= PercentileToRating(value, pool, inverse) <= 9.0
    ensures pool != [] && Largest(pool) != Smallest(pool) ==>
              (PercentileToRating(value, pool, inverse) - 4.0) * |pool| as real == 5.0 * MidRank(pool, value, inverse)
  {
    hide MidRank, Largest, Smallest, Max, Min;
    if pool != [] && Largest(pool) != Smallest(pool) {
      MidRankRange(pool, value, inverse);
      RatingForm(MidRank(pool, value, inverse), |pool| as real);
    }
  }

  /** Forward and inverse ratings of any value, in the pool or not, sum to 13. */
  lemma ForwardPlusInverse(value: real, pool: seq<real>)
    ensures PercentileToRating(value, pool, false) + PercentileToRating(value, pool, true) == 13.0
  {
    hide MidRank, Largest, Smallest;
    if pool != [] && Largest(pool) != Smallest(pool) {
      hide PercentileToRating;
      MidRankRange(pool, value, false);
      RatingRange(value, pool, false);
      RatingRange(value, pool, true);
      SumToThirteen(PercentileToRating(value, pool, false), PercentileToRating(value, pool, true), |pool| as real,
                    MidRank(pool, value, false), MidRank(pool, value, true));
    }
  }

  lemma SumToThirteen(r: real, s: real, n: real, x: real, y: real)
    requires n > 0.0 && x + y == n
    requires (r - 4.0) * n == 5.0 * x && (s - 4.0) * n == 5.0 * y
    ensures r + s == 13.0
  {
    Distribute(r - 4.0, s - 4.0, n);
    CancelPos(r - 4.0 + (s - 4.0), 5.0, n);
  }

  /** A better value never rates lower against the same pool: larger forwards, smaller when
      less is better.  */
  lemma PercentileMonotone(pool: seq<real>, lo: real, hi: real)
    requires lo <= hi
    ensures PercentileToRating(lo, pool, false) <= PercentileToRating(hi, pool, false)
    ensures PercentileToRating(hi, pool, true) <= PercentileToRating(lo, pool, true)
  {
    ForwardPlusInverse(lo, pool);
    ForwardPlusInverse(hi, pool);
    hide MidRank, Largest, Smallest;
    if pool != [] && Largest(pool) != Smallest(pool) {
      hide PercentileToRating;
      MidRankMonotone(pool, lo, hi);
      RatingRange(lo, pool, false);
      RatingRange(hi, pool, false);
      CancelPos(PercentileToRating(lo, pool, false) - 4.0, PercentileToRating(hi, pool, false) - 4.0, |pool| as real);
    }
  }

  lemma {:induction false} MidRankMonotone(pool: seq<real>, lo: real, hi: real)
    requires lo <= hi
    ensures MidRank(pool, lo, false) <= MidRank(pool, hi, false)
  {
    if pool != [] {
      MidRankMonotone(pool[..|pool| - 1], lo, hi);
    }
  }

  // ---- Parity ----

  ghost function RankTotal(pool: seq<real>, values: seq<real>, inverse: bool): real {
    if values == [] then 0.0
    else RankTotal(pool, values[..|values| - 1], inverse) + MidRank(pool, values[|values| - 1], inverse)
  }

  /** Adding x to the pool raises the total mid-rank of `values` by what x scores against them. */
  lemma {:induction false} PoolGrows(pool: seq<real>, x: real, values: seq<real>, inverse: bool)
    ensures RankTotal(pool + [x], values, inverse) == RankTotal(pool, values, inverse) + MidRank(values, x, !inverse)
  {
    if values != [] {
      PoolGrows(pool, x, values[..|values| - 1], inverse);
      assert (pool + [x])[..|pool + [x]| - 1] == pool;
    }
  }

  /** Double counting: over the pool itself the mid-ranks total n^2 / 2. */
  lemma {:induction false} RankTotalIsHalfSquare(pool: seq<real>, inverse: bool)
    ensures RankTotal(pool, pool, inverse) == 0.5 * (|pool| * |pool|) as real
  {
    if pool != [] {
      var n := |pool| - 1;
      var front, x := pool[..n], pool[n];
      assert pool == front + [x];
      RankTotalIsHalfSquare(front, inverse);
      PoolGrows(front, x, front, inverse);
      MidRankRange(front, x, inverse);
      assert MidRank(pool, x, inverse) == MidRank(front, x, inverse) + 0.5;
      assert MidRank(front, x, inverse) + MidRank(front, x, !inverse) == n as real;
      SquareStep(n);
    }
  }

  lemma SquareStep(n: nat)
    ensures 0.5 * ((n + 1) * (n + 1)) as real == 0.5 * (n * n) as real + n as real + 0.5
  {
    assert (n + 1) * (n + 1) == n * n + 2 * n + 1;
  }

  ghost function RatingTotal(pool: seq<real>, values: seq<real>, inverse: bool): real {
    if values == [] then 0.0
    else RatingTotal(pool, values[..|values| - 1], inverse) + PercentileToRating(values[|values| - 1], pool, inverse)
  }

  lemma {:induction false} RatingTotalIs(pool: seq<real>, values: seq<real>, inverse: bool)
    requires pool != []
    ensures Largest(pool) == Smallest(pool) ==>
              RatingTotal(pool, values, inverse) == 6.5 * |values| as real
    ensures Largest(pool) != Smallest(pool) ==>
              (RatingTotal(pool, values, inverse) - 4.0 * |values| as real) * |pool| as real
              == 5.0 * RankTotal(pool, values, inverse)
  {
    hide PercentileToRating, MidRank;
    if values != [] {
      var front, last := values[..|values| - 1], values[|values| - 1];
      RatingTotalIs(pool, front, inverse);
      if Largest(pool) == Smallest(pool) {
        FlatPool(pool, last, inverse);
      } else {
        RatingRange(last, pool, inverse);
        var n := |pool| as real;
        var a, r := RatingTotal(pool, front, inverse) - 4.0 * |front| as real, PercentileToRating(last, pool, inverse) - 4.0;
        assert (a + r) * n == a * n + r * n;
      }
    }
  }

  lemma FlatPool(pool: seq<real>, value: real, inverse: bool)
    requires pool != [] && Largest(pool) == Smallest(pool)
    ensures PercentileToRating(value, pool, inverse) == 6.5
  {
  }

  /** Parity with Layer 3: over any non-empty pool the ratings of its members average exactly
      6.5, in either direction of the scale. */
  lemma PercentileParity(pool: seq<real>, inverse: bool)
    requires pool != []
    ensures RatingTotal(pool, pool, inverse) == LAYER3_DEFAULT * |pool| as real
  {
    RatingTotalIs(pool, pool, inverse);
    if Largest(pool) != Smallest(pool) {
      RankTotalIsHalfSquare(pool, inverse);
      HalfSquareMean(RatingTotal(pool, pool, inverse), |pool|);
    }
  }

  lemma HalfSquareMean(total: real, n: nat)
    requires n > 0 && (total - 4.0 * n as real) * n as real == 5.0 * (0.5 * (n * n) as real)
    ensures total == 6.5 * n as real
  {
    var x := n as real;
    assert (n * n) as real == x * x;
    assert (total - 6.5 * x) * x == 0.0;
  }

  // ---- Layer 2: the weighted composite ----

  function PeerValues(peers: seq<Stats>, stat: string): seq<real> {
    if peers == [] then []
    else
      var last := peers[|peers| - 1];
      PeerValues(peers[..|peers| - 1], stat) + (if stat in last.values then [last.values[stat]] else [])
  }

  function Peers(all: seq<Stats>, group: string): seq<Stats> {
    if all == [] then []
    else
      var last := all[|all| - 1];
      Peers(all[..|all| - 1], group) + (if last.group == group then [last] else [])
  }

  function Normalised(player: map<string, real>, peers: seq<Stats>, w: StatWeight): real
    requires w.stat in player
  {
    PercentileToRating(player[w.stat], PeerValues(peers, w.stat), w.inverse)
  }

  ghost function WeightedSum(player: map<string, real>, peers: seq<Stats>, weights: seq<StatWeight>): real {
    if weights == [] then 0.0
    else
      var last := weights[|weights| - 1];
      WeightedSum(player, peers, weights[..|weights| - 1])
      + (if last.stat in player then last.weight * Normalised(player, peers, last) else 0.0)
  }

  ghost function UsedWeight(player: map<string, real>, weights: seq<StatWeight>): real {
    if weights == [] then 0.0
    else
      var last := weights[|weights| - 1];
      UsedWeight(player, weights[..|weights| - 1]) + (if last.stat in player then last.weight else 0.0)
  }

  ghost predicate AllPositive(weights: seq<StatWeight>) {
    forall i :: 0 <= i < |weights| ==> weights[i].weight > 0.0
  }

  lemma TablesArePositive(group: string)
    ensures PositionWeights(group).Some? ==> PositionWeights(group).value != [] && AllPositive(PositionWeights(group).value)
  {
  }

  ghost predicate HasSome(player: map<string, real>, weights: seq<StatWeight>) {
    exists i :: 0 <= i < |weights| && weights[i].stat in player
  }

  lemma {:induction false} UsedWeightPositive(player: map<string, real>, weights: seq<StatWeight>)
    requires AllPositive(weights)
    ensures UsedWeight(player, weights) >= 0.0
    ensures UsedWeight(player, weights) > 0.0 <==> HasSome(player, weights)
  {
    if weights != [] {
      var n := |weights| - 1;
      var front, last := weights[..n], weights[n];
      UsedWeightPositive(player, front);
      if last.stat !in player && HasSome(player, weights) {
        var i :| 0 <= i < |weights| && weights[i].stat in player;
        assert front[i].stat in player;
      }
      if HasSome(player, front) {
        var i :| 0 <= i < |front| && front[i].stat in player;
        assert weights[i].stat in player;
      }
    }
  }

  lemma NormalisedRange(player: map<string, real>, peers: seq<Stats>, w: StatWeight)
    requires w.stat in player
    ensures 4.0 <= Normalised(player, peers, w) <= 9.0
  {
    RatingRange(player[w.stat], PeerValues(peers, w.stat), w.inverse);
  }

  lemma {:induction false} CompositeBounds(player: map<string, real>, peers: seq<Stats>, weights: seq<StatWeight>)
    requires AllPositive(weights)
    ensures 4.0 * UsedWeight(player, weights) <= WeightedSum(player, peers, weights) <= 9.0 * UsedWeight(player, weights)
  {
    hide Normalised;
    if weights != [] {
      var n := |weights| - 1;
      var front, last := weights[..n], weights[n];
      CompositeBounds(player, peers, front);
      if last.stat in player {
        NormalisedRange(player, peers, last);
        AddScaled(UsedWeight(player, front), WeightedSum(player, peers, front), last.weight, Normalised(player, peers, last));
      }
    }
  }

  lemma AddScaled(u: real, s: real, w: real, r: real)
    requires 4.0 * u <= s <= 9.0 * u && w > 0.0 && 4.0 <= r <= 9.0
    ensures 4.0 * (u + w) <= s + w * r <= 9.0 * (u + w)
  {
    ScaledRange(w, r);
  }

  lemma ScaledRange(w: real, r: real)
    requires w > 0.0 && 4.0 <= r <= 9.0
    ensures 4.0 * w <= w * r <= 9.0 * w
  {
  }

  /** The composite loop.  It answers exactly when the group is known and the player has one
      of its stats; the answer is the weighted mean over the stats present, within [4, 9]. */
  method ComputeLayer2Composite(player: map<string, real>, group: string, all: seq<Stats>)
    returns (r: Option<real>)
    ensures r.Some? <==> PositionWeights(group).Some? && HasSome(player, PositionWeights(group).value)
    ensures r.Some? ==>
              var weights := PositionWeights(group).value;
              && AllPositive(weights) && r.value == Composite(player, Peers(all, group), weights)
              && r.value * UsedWeight(player, weights) == WeightedSum(player, Peers(all, group), weights)
              && 4.0 <= r.value <= 9.0
  {
    hide PositionWeights, PercentileToRating;
    TablesArePositive(group);
    var table := PositionWeights(group);
    if table.None? {
      return None;
    }
    var weights := table.value;
    var peers := Peers(all, group);
    var weightedSum := 0.0;
    var usedWeight := 0.0;
    for i := 0 to |weights|
      invariant weightedSum == WeightedSum(player, peers, weights[..i])
      invariant usedWeight == UsedWeight(player, weights[..i])
    {
      var w := weights[i];
      assert weights[..i + 1][..i] == weights[..i];
      if w.stat in player {
        var normalised := PercentileToRating(player[w.stat], PeerValues(peers, w.stat), w.inverse);
        weightedSum := weightedSum + w.weight * normalised;
        usedWeight := usedWeight + w.weight;
      }
    }
    assert weights[..|weights|] == weights;
    CompositeBounds(player, peers, weights);
    UsedWeightPositive(player, weights);
    if usedWeight == 0.0 {
      return None;
    }
    MeanRange(weightedSum, usedWeight);
    r := Some(weightedSum / usedWeight);
  }

  lemma MeanRange(sum: real, weight: real)
    requires weight > 0.0 && 4.0 * weight <= sum <= 9.0 * weight
    ensures sum / weight * weight == sum && 4.0 <= sum / weight <= 9.0
  {
  }

  // ---- Composite parity ----

  ghost function SumOver(peers: seq<Stats>, pool: seq<Stats>, weights: seq<StatWeight>): real {
    if peers == [] then 0.0
    else SumOver(peers[..|peers| - 1], pool, weights) + WeightedSum(peers[|peers| - 1].values, pool, weights)
  }

  ghost function UsedOver(peers: seq<Stats>, weights: seq<StatWeight>): real {
    if peers == [] then 0.0
    else UsedOver(peers[..|peers| - 1], weights) + UsedWeight(peers[|peers| - 1].values, weights)
  }

  /** The last stat of the table contributes its weight times the ratings of the peers that
      have it. */
  lemma {:induction false} LastStatRatings(peers: seq<Stats>, pool: seq<Stats>, weights: seq<StatWeight>)
    requires weights != []
    ensures var front, last := weights[..|weights| - 1], weights[|weights| - 1];
            SumOver(peers, pool, weights)
            == SumOver(peers, pool, front)
             + last.weight * RatingTotal(PeerValues(pool, last.stat), PeerValues(peers, last.stat), last.inverse)
  {
    hide PercentileToRating, RatingTotal, Normalised, PeerValues;
    var last := weights[|weights| - 1];
    var values := PeerValues(pool, last.stat);
    if peers == [] {
      NoValues(peers, last.stat);
      NoRatings(values, last.inverse);
    } else {
      var before, p := peers[..|peers| - 1], peers[|peers| - 1];
      LastStatRatings(before, pool, weights);
      if last.stat in p.values {
        RatingTotalStep(peers, pool, last);
        Distribute(RatingTotal(values, PeerValues(before, last.stat), last.inverse), Normalised(p.values, pool, last),
                   last.weight);
      } else {
        SkippedPeer(peers, last.stat);
      }
    }
  }

  /** And its weight times their number. */
  lemma {:induction false} LastStatWeight(peers: seq<Stats>, weights: seq<StatWeight>)
    requires weights != []
    ensures var front, last := weights[..|weights| - 1], weights[|weights| - 1];
            UsedOver(peers, weights) == UsedOver(peers, front) + last.weight * |PeerValues(peers, last.stat)| as real
  {
    hide PeerValues;
    var last := weights[|weights| - 1];
    if peers == [] {
      NoValues(peers, last.stat);
    } else {
      var before, p := peers[..|peers| - 1], peers[|peers| - 1];
      LastStatWeight(before, weights);
      if last.stat in p.values {
        RatingTotalStep(peers, peers, last);
        Distribute(|PeerValues(before, last.stat)| as real, 1.0, last.weight);
      } else {
        SkippedPeer(peers, last.stat);
      }
    }
  }

  lemma NoValues(peers: seq<Stats>, stat: string)
    requires peers == []
    ensures PeerValues(peers, stat) == []
  {
  }

  lemma SkippedPeer(peers: seq<Stats>, stat: string)
    requires peers != [] && stat !in peers[|peers| - 1].values
    ensures PeerValues(peers, stat) == PeerValues(peers[..|peers| - 1], stat)
  {
  }

  lemma NoRatings(pool: seq<real>, inverse: bool)
    ensures RatingTotal(pool, [], inverse) == 0.0
  {
  }

  lemma RatingTotalStep(peers: seq<Stats>, pool: seq<Stats>, w: StatWeight)
    requires peers != [] && w.stat in peers[|peers| - 1].values
    ensures RatingTotal(PeerValues(pool, w.stat), PeerValues(peers, w.stat), w.inverse)
         == RatingTotal(PeerValues(pool, w.stat), PeerValues(peers[..|peers| - 1], w.stat), w.inverse)
          + Normalised(peers[|peers| - 1].values, pool, w)
    ensures |PeerValues(peers, w.stat)| == |PeerValues(peers[..|peers| - 1], w.stat)| + 1
  {
    hide PercentileToRating;
    var values := PeerValues(peers, w.stat);
    assert values[..|values| - 1] == PeerValues(peers[..|peers| - 1], w.stat);
  }

  /** Whatever stats are missing, the peers' weighted sums total 6.5 times the weight used. */
  lemma {:induction false} WeightedSumsTotal(peers: seq<Stats>, weights: seq<StatWeight>)
    ensures SumOver(peers, peers, weights) == LAYER3_DEFAULT * UsedOver(peers, weights)
    decreases |weights|
  {
    hide PercentileToRating, PeerValues, SumOver, UsedOver, RatingTotal;
    if weights == [] {
      EmptyTable(peers, peers);
    } else {
      var front, last := weights[..|weights| - 1], weights[|weights| - 1];
      WeightedSumsTotal(peers, front);
      LastStatRatings(peers, peers, weights);
      LastStatWeight(peers, weights);
      var pool := PeerValues(peers, last.stat);
      if pool == [] {
        NoRatings(pool, last.inverse);
      } else {
        PercentileParity(pool, last.inverse);
      }
      WeightAdds(SumOver(peers, peers, front), UsedOver(peers, front), RatingTotal(pool, pool, last.inverse),
                 last.weight, |pool| as real);
    }
  }

  lemma WeightAdds(sum: real, used: real, total: real, w: real, n: real)
    requires sum == 6.5 * used && total == 6.5 * n
    ensures sum + w * total == 6.5 * (used + w * n)
  {
  }

  lemma {:induction false} EmptyTable(peers: seq<Stats>, pool: seq<Stats>)
    ensures SumOver(peers, pool, []) == 0.0 && UsedOver(peers, []) == 0.0
  {
    if peers != [] {
      EmptyTable(peers[..|peers| - 1], pool);
    }
  }

  /** The answer of the composite loop, where there is one. */
  ghost function Composite(player: map<string, real>, peers: seq<Stats>, weights: seq<StatWeight>): real
    requires AllPositive(weights) && HasSome(player, weights)
  {
    UsedWeightPositive(player, weights);
    WeightedSum(player, peers, weights) / UsedWeight(player, weights)
  }

  /** The composites of the peers that have one, each times the weight it used. */
  ghost function CompositeTotal(peers: seq<Stats>, pool: seq<Stats>, weights: seq<StatWeight>): real
    requires AllPositive(weights)
  {
    if peers == [] then 0.0
    else
      var player := peers[|peers| - 1].values;
      CompositeTotal(peers[..|peers| - 1], pool, weights)
      + (if HasSome(player, weights) then UsedWeight(player, weights) * Composite(player, pool, weights) else 0.0)
  }

  lemma {:induction false} CompositeTotalIs(peers: seq<Stats>, pool: seq<Stats>, weights: seq<StatWeight>)
    requires AllPositive(weights)
    ensures CompositeTotal(peers, pool, weights) == SumOver(peers, pool, weights)
  {
    hide WeightedSum, UsedWeight, HasSome;
    if peers != [] {
      var player := peers[|peers| - 1].values;
      CompositeTotalIs(peers[..|peers| - 1], pool, weights);
      UsedWeightPositive(player, weights);
      CompositeBounds(player, pool, weights);
    }
  }

  /** Composite parity: over the peers, whatever stats any of them lacks, the composites
      averaged by the weight each used come to exactly the Layer 3 default. */
  lemma CompositeParity(peers: seq<Stats>, weights: seq<StatWeight>)
    requires AllPositive(weights)
    ensures CompositeTotal(peers, peers, weights) == LAYER3_DEFAULT * UsedOver(peers, weights)
  {
    CompositeTotalIs(peers, peers, weights);
    WeightedSumsTotal(peers, weights);
  }

  ghost predicate Complete(peers: seq<Stats>, weights: seq<StatWeight>) {
    forall p, i :: 0 <= p < |peers| && 0 <= i < |weights| ==> weights[i].stat in peers[p].values
  }

  ghost function TotalWeight(weights: seq<StatWeight>): real {
    if weights == [] then 0.0 else TotalWeight(weights[..|weights| - 1]) + weights[|weights| - 1].weight
  }

  lemma {:induction false} AllWeightUsed(player: map<string, real>, weights: seq<StatWeight>)
    requires forall i :: 0 <= i < |weights| ==> weights[i].stat in player
    ensures UsedWeight(player, weights) == TotalWeight(weights)
  {
    if weights != [] {
      AllWeightUsed(player, weights[..|weights| - 1]);
    }
  }

  /** The plain sum of the peers' composites. */
  ghost function PlainTotal(peers: seq<Stats>, pool: seq<Stats>, weights: seq<StatWeight>): real
    requires AllPositive(weights) && weights != [] && Complete(peers, weights)
  {
    if peers == [] then 0.0
    else
      assert weights[0].stat in peers[|peers| - 1].values;
      PlainTotal(peers[..|peers| - 1], pool, weights) + Composite(peers[|peers| - 1].values, pool, weights)
  }

  lemma {:induction false} PlainTotalScales(peers: seq<Stats>, pool: seq<Stats>, weights: seq<StatWeight>)
    requires AllPositive(weights) && weights != [] && Complete(peers, weights)
    ensures PlainTotal(peers, pool, weights) * TotalWeight(weights) == CompositeTotal(peers, pool, weights)
    ensures UsedOver(peers, weights) == |peers| as real * TotalWeight(weights)
  {
    hide WeightedSum, UsedWeight, TotalWeight, Composite;
    if peers != [] {
      var before, player := peers[..|peers| - 1], peers[|peers| - 1].values;
      PlainTotalScales(before, pool, weights);
      assert weights[0].stat in player;
      AllWeightUsed(player, weights);
      Distribute(PlainTotal(before, pool, weights), Composite(player, pool, weights), TotalWeight(weights));
      Distribute(|before| as real, 1.0, TotalWeight(weights));
    }
  }

  /** When every peer has every stat, the plain average of the composites is the default too,
      whatever the table's weights add up to. */
  lemma CompleteCompositeParity(peers: seq<Stats>, weights: seq<StatWeight>)
    requires peers != [] && weights != [] && AllPositive(weights) && Complete(peers, weights)
    ensures PlainTotal(peers, peers, weights) == LAYER3_DEFAULT * |peers| as real
  {
    hide PlainTotal, CompositeTotal, UsedOver, UsedWeight, TotalWeight;
    PlainTotalScales(peers, peers, weights);
    CompositeParity(peers, weights);
    assert weights[0].stat in peers[0].values;
    AllWeightUsed(peers[0].values, weights);
    UsedWeightPositive(peers[0].values, weights);
    Reassociate(6.5, |peers| as real, TotalWeight(weights));
    CancelPos(PlainTotal(peers, peers, weights), 6.5 * |peers| as real, TotalWeight(weights));
  }

  // ---- Layer 1 and the fallback chain ----

  function Dot(weights: seq<real>, ratings: seq<real>): real {
    if weights == [] || ratings == [] then 0.0
    else weights[0] * ratings[0] + Dot(weights[1..], ratings[1..])
  }

  function SumOf(weights: seq<real>): real {
    if weights == [] then 0.0 else weights[0] + SumOf(weights[1..])
  }

  function Layer1Rating(ratings: seq<real>): Option<real> {
    if ratings == [] then None
    else
      var weights := LAYER1_WEIGHTS[..(if |ratings| < 5 then |ratings| else 5)];
      WeightsSum(weights);
      Some(Dot(weights, ratings) / SumOf(weights))
  }

  lemma {:induction false} WeightsSum(weights: seq<real>)
    requires weights <= LAYER1_WEIGHTS && weights != []
    ensures SumOf(weights) > 0.0
  {
    assert weights[0] == 0.35;
    PositiveSum(weights[1..]);
  }

  lemma {:induction false} PositiveSum(weights: seq<real>)
    requires forall i :: 0 <= i < |weights| ==> weights[i] > 0.0
    ensures SumOf(weights) >= 0.0
  {
    if weights != [] {
      PositiveSum(weights[1..]);
    }
  }

  ghost predicate Averages(dot: real, sum: real, low: real, high: real) {
    low * sum <= dot <= high * sum
  }

  lemma {:induction false} DotBetween(weights: seq<real>, ratings: seq<real>, low: real, high: real)
    requires |weights| <= |ratings| && forall i :: 0 <= i < |weights| ==> weights[i] > 0.0
    requires forall i :: 0 <= i < |weights| ==> low <= ratings[i] <= high
    ensures Averages(Dot(weights, ratings), SumOf(weights), low, high)
  {
    hide Averages;
    if weights == [] {
      NothingAverages(low, high);
    } else {
      var w, r, sum, dot := weights[0], ratings[0], SumOf(weights[1..]), Dot(weights[1..], ratings[1..]);
      DotBetween(weights[1..], ratings[1..], low, high);
      assert SumOf(weights) == w + sum && Dot(weights, ratings) == w * r + dot;
      AverageStep(w, r, low, high, sum, dot);
    }
  }

  lemma NothingAverages(low: real, high: real)
    ensures Averages(0.0, 0.0, low, high)
  {
  }

  lemma AverageStep(w: real, r: real, low: real, high: real, sum: real, dot: real)
    requires w > 0.0 && low <= r <= high && Averages(dot, sum, low, high)
    ensures Averages(w * r + dot, w + sum, low, high)
  {
    assert w * (r - low) >= 0.0 && w * (high - r) >= 0.0;
    assert low * (w + sum) == low * w + low * sum;
    assert high * (w + sum) == high * w + high * sum;
  }

  /** Layer 1 is an average of the (at most five) most recent ratings: it lies between any
      bounds they keep, and older ratings do not matter. */
  lemma Layer1Between(ratings: seq<real>, low: real, high: real)
    requires ratings != []
    requires forall i :: 0 <= i < |ratings| && i < 5 ==> low <= ratings[i] <= high
    ensures Layer1Rating(ratings).Some? && low <= Layer1Rating(ratings).value <= high
    ensures |ratings| > 5 ==> Layer1Rating(ratings) == Layer1Rating(ratings[..5])
  {
    var weights := LAYER1_WEIGHTS[..(if |ratings| < 5 then |ratings| else 5)];
    WeightsSum(weights);
    DotBetween(weights, ratings, low, high);
    QuotientBetween(Dot(weights, ratings), SumOf(weights), low, high);
    if |ratings| > 5 {
      DotPrefix(weights, ratings, ratings[..5]);
    }
  }

  lemma QuotientBetween(x: real, s: real, low: real, high: real)
    requires s > 0.0 && low * s <= x <= high * s
    ensures low <= x / s <= high
  {
    var q := x / s;
    assert q * s == x;
    CancelPos(low, q, s);
    CancelPos(q, high, s);
  }

  lemma {:induction false} DotPrefix(weights: seq<real>, ratings: seq<real>, cut: seq<real>)
    requires |weights| <= |cut| && cut <= ratings
    ensures Dot(weights, ratings) == Dot(weights, cut)
  {
    if weights != [] {
      DotPrefix(weights[1..], ratings[1..], cut[1..]);
    }
  }

  /** Layer 1 is not clamped: a rating below 3 goes straight through. */
  lemma Layer1IsUnclamped()
    ensures Layer1Rating([2.0]) == Some(2.0)
  {
    var weights := LAYER1_WEIGHTS[..1];
    assert weights == [0.35];
    Layer1Between([2.0], 2.0, 2.0);
  }

  function Rated(entries: seq<Option<real>>): seq<real> {
    if entries == [] then []
    else (if entries[0].Some? then [entries[0].value] else []) + Rated(entries[1..])
  }

  /** The fallback chain, with the layer that answered.  Layers 2 and 3 stay within [4, 9];
      Layer 3 answers exactly when no match was rated and there are no usable stats. */
  method ComputeOracleRating(entries: seq<Option<real>>, player: Option<map<string, real>>, group: string,
                             all: seq<Stats>)
    returns (rating: real, source: Source)
    ensures source == Layer1 <==> Rated(entries) != []
    ensures source == Layer1 ==> Some(rating) == Layer1Rating(Rated(entries))
    ensures source == Layer2 <==>
              && Rated(entries) == [] && entries != [] && player.Some?
              && PositionWeights(group).Some? && HasSome(player.value, PositionWeights(group).value)
    ensures source == Layer2 ==>
              rating * UsedWeight(player.value, PositionWeights(group).value)
              == WeightedSum(player.value, Peers(all, group), PositionWeights(group).value)
    ensures source == Layer3 ==> rating == LAYER3_DEFAULT
    ensures source != Layer1 ==> 4.0 <= rating <= 9.0
  {
    hide PositionWeights, WeightedSum, UsedWeight;
    var rated := Rated(entries);
    if rated != [] {
      return Layer1Rating(rated).value, Layer1;
    }
    if entries != [] && player.Some? {
      var composite := ComputeLayer2Composite(player.value, group, all);
      if composite.Some? {
        return composite.value, Layer2;
      }
    }
    return LAYER3_DEFAULT, Layer3;
  }
}
