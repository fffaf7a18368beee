/** What the oracle answers, without naming how it counts: percentiles by the entries of the
    pool, the composite by its table, recency by its weights. */
module OracleLaws {
  import opened Arithmetic
  import opened Trading
  import opened Oracle

  // ---- Percentiles ----

  ghost predicate IsWorse(entry: real, value: real, inverse: bool) {
    if inverse then entry > value else entry < value
  }

  ghost function WorseIn(pool: seq<real>, value: real, inverse: bool): set<nat> {
    set i: nat | i < |pool| && IsWorse(pool[i], value, inverse)
  }

  ghost function TiesIn(pool: seq<real>, value: real): set<nat> {
    set i: nat | i < |pool| && pool[i] == value
  }

  lemma WorseGrows(front: seq<real>, last: real, value: real, inverse: bool)
    ensures |WorseIn(front + [last], value, inverse)|
            == |WorseIn(front, value, inverse)| + (if IsWorse(last, value, inverse) then 1 else 0)
  {
    hide IsWorse;
    var n, pool := |front|, front + [last];
    var before, after := WorseIn(front, value, inverse), WorseIn(pool, value, inverse);
    if IsWorse(last, value, inverse) {
      assert after == before + {n};
    } else {
      assert after == before;
    }
  }

  lemma {:induction false} WorseIsCounted(pool: seq<real>, value: real, inverse: bool)
    ensures CountWorse(pool, value, inverse) == |WorseIn(pool, value, inverse)|
  {
    if pool != [] {
      var n := |pool| - 1;
      assert pool == pool[..n] + [pool[n]];
      WorseIsCounted(pool[..n], value, inverse);
      WorseGrows(pool[..n], pool[n], value, inverse);
      hide WorseIn;
    }
  }

  lemma TiesGrow(front: seq<real>, last: real, value: real)
    ensures |TiesIn(front + [last], value)| == |TiesIn(front, value)| + (if last == value then 1 else 0)
  {
    var n, pool := |front|, front + [last];
    var before, after := TiesIn(front, value), TiesIn(pool, value);
    if last == value {
      assert after == before + {n};
    } else {
      assert after == before;
    }
  }

  lemma {:induction false} TiesAreCounted(pool: seq<real>, value: real)
    ensures CountEqual(pool, value) == |TiesIn(pool, value)|
  {
    if pool != [] {
      var n := |pool| - 1;
      assert pool == pool[..n] + [pool[n]];
      TiesAreCounted(pool[..n], value);
      TiesGrow(pool[..n], pool[n], value);
      hide TiesIn;
    }
  }

  /** Two entries of the pool differ. */
  ghost predicate Varied(pool: seq<real>) {
    exists i, j :: 0 <= i < |pool| && 0 <= j < |pool| && pool[i] != pool[j]
  }

  lemma {:induction false} LargestIs(pool: seq<real>)
    requires pool != []
    ensures Largest(pool) in pool && forall i :: 0 <= i < |pool| ==> pool[i] <= Largest(pool)
    decreases |pool|
  {
    if |pool| > 1 {
      LargestIs(pool[..|pool| - 1]);
      assert forall i :: 0 <= i < |pool| - 1 ==> pool[i] == pool[..|pool| - 1][i];
    }
  }

  lemma {:induction false} SmallestIs(pool: seq<real>)
    requires pool != []
    ensures Smallest(pool) in pool && forall i :: 0 <= i < |pool| ==> pool[i] >= Smallest(pool)
    decreases |pool|
  {
    if |pool| > 1 {
      SmallestIs(pool[..|pool| - 1]);
      assert forall i :: 0 <= i < |pool| - 1 ==> pool[i] == pool[..|pool| - 1][i];
    }
  }

  lemma VariedExactly(pool: seq<real>)
    requires pool != []
    ensures Varied(pool) <==> Largest(pool) != Smallest(pool)
  {
    LargestIs(pool);
    SmallestIs(pool);
    var i :| 0 <= i < |pool| && pool[i] == Largest(pool);
    var j :| 0 <= j < |pool| && pool[j] == Smallest(pool);
  }

  /** The percentile rating exactly: with variation 4 plus five times the fraction of entries
      that are worse, ties counted half; without, the default. */
  lemma PercentileExactly(value: real, pool: seq<real>, inverse: bool)
    ensures Varied(pool) ==>
              (PercentileToRating(value, pool, inverse) - 4.0) * |pool| as real
              == 5.0 * (|WorseIn(pool, value, inverse)| as real + 0.5 * |TiesIn(pool, value)| as real)
    ensures !Varied(pool) ==> PercentileToRating(value, pool, inverse) == 6.5
  {
    if pool != [] {
      VariedExactly(pool);
      WorseIsCounted(pool, value, inverse);
      TiesAreCounted(pool, value);
      RatingRange(value, pool, inverse);
    }
  }

  /** Of two different members of a pool the better one rates strictly higher. */
  lemma BetterRatesHigher(pool: seq<real>, i: nat, j: nat)
    requires i < |pool| && j < |pool| && pool[i] < pool[j]
    ensures PercentileToRating(pool[i], pool, false) < PercentileToRating(pool[j], pool, false)
    ensures PercentileToRating(pool[j], pool, true) < PercentileToRating(pool[i], pool, true)
  {
    hide PercentileToRating, MidRank, Largest, Smallest;
    assert Varied(pool);
    VariedExactly(pool);
    MidRankStrict(pool, pool[i], pool[j]);
    RatingRange(pool[i], pool, false);
    RatingRange(pool[j], pool, false);
    CancelPos(PercentileToRating(pool[i], pool, false) - 4.0, PercentileToRating(pool[j], pool, false) - 4.0,
              |pool| as real);
    ForwardPlusInverse(pool[i], pool);
    ForwardPlusInverse(pool[j], pool);
  }

  lemma {:induction false} MidRankStrict(pool: seq<real>, lo: real, hi: real)
    requires lo < hi && lo in pool
    ensures MidRank(pool, lo, false) < MidRank(pool, hi, false)
  {
    var n := |pool| - 1;
    assert pool == pool[..n] + [pool[n]];
    MidRankMonotone(pool[..n], lo, hi);
    if pool[n] != lo {
      MidRankStrict(pool[..n], lo, hi);
    }
  }

  // ---- Peers ----

  lemma {:induction false} PeersAppend(a: seq<Stats>, b: seq<Stats>, group: string)
    ensures Peers(a + b, group) == Peers(a, group) + Peers(b, group)
  {
    if b == [] {
      assert a + b == a;
    } else {
      var n := |b| - 1;
      PeersAppend(a, b[..n], group);
      assert (a + b)[..|a + b| - 1] == a + b[..n];
    }
  }

  lemma PeersOfOne(x: Stats, group: string)
    ensures Peers([x], group) == if x.group == group then [x] else []
  {
    assert [x][..0] == [];
  }

  /** The peers are exactly the players of the group, in order: one of another group does not
      affect them, one of the group takes its place. */
  lemma PeersExactly(a: seq<Stats>, x: Stats, b: seq<Stats>, group: string)
    ensures x.group != group ==> Peers(a + [x] + b, group) == Peers(a + b, group)
    ensures x.group == group ==> Peers(a + [x] + b, group) == Peers(a, group) + [x] + Peers(b, group)
  {
    PeersAppend(a + [x], b, group);
    PeersAppend(a, [x], group);
    PeersAppend(a, b, group);
    PeersOfOne(x, group);
  }

  /** So players of other groups do not affect a composite. */
  lemma OtherGroupsDoNotMatter(player: map<string, real>, a: seq<Stats>, x: Stats, b: seq<Stats>, group: string,
                               weights: seq<StatWeight>)
    requires AllPositive(weights) && HasSome(player, weights) && x.group != group
    ensures Composite(player, Peers(a + [x] + b, group), weights) == Composite(player, Peers(a + b, group), weights)
  {
    hide Composite;
    PeersExactly(a, x, b, group);
  }

  /** The pool of a stat holds the value of every peer that has it, in order. */
  lemma {:induction false} PeerValuesAppend(a: seq<Stats>, b: seq<Stats>, stat: string)
    ensures PeerValues(a + b, stat) == PeerValues(a, stat) + PeerValues(b, stat)
  {
    if b == [] {
      assert a + b == a;
    } else {
      var n := |b| - 1;
      PeerValuesAppend(a, b[..n], stat);
      assert (a + b)[..|a + b| - 1] == a + b[..n];
    }
  }

  lemma PeerValuesExactly(a: seq<Stats>, x: Stats, b: seq<Stats>, stat: string)
    ensures stat in x.values ==>
              PeerValues(a + [x] + b, stat) == PeerValues(a, stat) + [x.values[stat]] + PeerValues(b, stat)
    ensures stat !in x.values ==> PeerValues(a + [x] + b, stat) == PeerValues(a, stat) + PeerValues(b, stat)
    ensures PeerValues([], stat) == []
  {
    PeerValuesAppend(a + [x], b, stat);
    PeerValuesAppend(a, [x], stat);
    assert [x][..0] == [];
    assert [x][0] == x;
  }

  // ---- The composite ----

  /** The composite by its stats: one more stat of the table enters with its weight against the
      weight used so far; a stat the player lacks changes nothing. */
  lemma CompositeAppends(player: map<string, real>, peers: seq<Stats>, front: seq<StatWeight>, w: StatWeight)
    requires AllPositive(front + [w]) && HasSome(player, front + [w])
    ensures AllPositive(front)
    ensures w.stat !in player ==>
              HasSome(player, front) && Composite(player, peers, front + [w]) == Composite(player, peers, front)
    ensures w.stat in player ==>
              var rating := PercentileToRating(player[w.stat], PeerValues(peers, w.stat), w.inverse);
              && (!HasSome(player, front) ==> Composite(player, peers, front + [w]) == rating)
              && (HasSome(player, front) ==>
                    Composite(player, peers, front + [w]) * (UsedWeight(player, front) + w.weight)
                    == Composite(player, peers, front) * UsedWeight(player, front) + rating * w.weight)
  {
    hide PercentileToRating, PeerValues, UsedWeight, WeightedSum, HasSome, AllPositive;
    var all := front + [w];
    PositiveFront(front, w);
    UsedWeightPositive(player, front);
    UsedWeightPositive(player, all);
    CompositeBounds(player, peers, front);
    SumsAppend(player, peers, front, w);
    if w.stat in player {
      var rating := PercentileToRating(player[w.stat], PeerValues(peers, w.stat), w.inverse);
      MeanAppends(WeightedSum(player, peers, front), UsedWeight(player, front), w.weight, rating,
                  Composite(player, peers, all));
    }
  }

  lemma PositiveFront(front: seq<StatWeight>, w: StatWeight)
    requires AllPositive(front + [w])
    ensures AllPositive(front) && w.weight > 0.0
  {
    var all := front + [w];
    assert all[|front|] == w;
    assert forall i :: 0 <= i < |front| ==> all[i] == front[i];
  }

  lemma SumsAppend(player: map<string, real>, peers: seq<Stats>, front: seq<StatWeight>, w: StatWeight)
    ensures UsedWeight(player, front + [w]) == UsedWeight(player, front) + (if w.stat in player then w.weight else 0.0)
    ensures WeightedSum(player, peers, front + [w]) == WeightedSum(player, peers, front)
            + (if w.stat in player
               then w.weight * PercentileToRating(player[w.stat], PeerValues(peers, w.stat), w.inverse) else 0.0)
  {
    hide PercentileToRating, PeerValues;
    assert (front + [w])[..|front + [w]| - 1] == front;
  }

  lemma MeanAppends(sum: real, used: real, w: real, rating: real, mean: real)
    requires w > 0.0 && used >= 0.0 && mean == (sum + w * rating) / (used + w)
    ensures mean * (used + w) == sum + rating * w
    ensures used == 0.0 && sum == 0.0 ==> mean == rating
    ensures used > 0.0 ==> sum / used * used == sum
  {
    assert mean * (used + w) == sum + w * rating;
    if used == 0.0 && sum == 0.0 {
      CancelPos(mean, rating, w);
    }
  }

  ghost predicate AtLeastAsGood(player: map<string, real>, better: map<string, real>, weights: seq<StatWeight>) {
    && player.Keys == better.Keys
    && forall i :: 0 <= i < |weights| && weights[i].stat in player ==>
         if weights[i].inverse then better[weights[i].stat] <= player[weights[i].stat]
         else player[weights[i].stat] <= better[weights[i].stat]
  }

  /** A player at least as good in every stat of the table is rated at least as high. */
  lemma CompositeMonotone(player: map<string, real>, better: map<string, real>, peers: seq<Stats>,
                          weights: seq<StatWeight>)
    requires AllPositive(weights) && HasSome(player, weights) && AtLeastAsGood(player, better, weights)
    ensures HasSome(better, weights)
    ensures Composite(player, peers, weights) <= Composite(better, peers, weights)
  {
    hide WeightedSum;
    SumsMonotone(player, better, peers, weights);
    var i :| 0 <= i < |weights| && weights[i].stat in player;
    assert weights[i].stat in better;
    UsedWeightPositive(player, weights);
    DivideReflects(WeightedSum(player, peers, weights), WeightedSum(better, peers, weights), UsedWeight(player, weights));
  }

  lemma {:induction false} SumsMonotone(player: map<string, real>, better: map<string, real>, peers: seq<Stats>,
                                        weights: seq<StatWeight>)
    requires AllPositive(weights) && AtLeastAsGood(player, better, weights)
    ensures UsedWeight(player, weights) == UsedWeight(better, weights)
    ensures WeightedSum(player, peers, weights) <= WeightedSum(better, peers, weights)
  {
    hide PercentileToRating, PeerValues;
    if weights != [] {
      var n := |weights| - 1;
      var front, w := weights[..n], weights[n];
      SumsMonotone(player, better, peers, front);
      if w.stat in player {
        var pool := PeerValues(peers, w.stat);
        if w.inverse {
          PercentileMonotone(pool, better[w.stat], player[w.stat]);
        } else {
          PercentileMonotone(pool, player[w.stat], better[w.stat]);
        }
        WeightedStep(w.weight, Normalised(player, peers, w), Normalised(better, peers, w),
                     WeightedSum(player, peers, front), WeightedSum(better, peers, front),
                     WeightedSum(player, peers, weights), WeightedSum(better, peers, weights));
      }
    }
  }

  lemma WeightedStep(w: real, x: real, y: real, before: real, before2: real, after: real, after2: real)
    requires w > 0.0 && x <= y && before <= before2 && after == before + w * x && after2 == before2 + w * y
    ensures after <= after2
  {
    ScaleMono(x, y, w);
    var p, q := w * x, w * y;
    assert x * w == p && y * w == q;
    assert p <= q;
  }

  // ---- The tables ----

  /** Which positions have a table, what each table adds up to, and the one stat of which less
      is better. */
  lemma TablesExactly(group: string)
    ensures PositionWeights(group).Some? <==> group == "FW" || group == "MF" || group == "DF" || group == "GK"
    ensures group == "FW" || group == "GK" ==> TotalWeight(PositionWeights(group).value) == 1.0
    ensures group == "MF" || group == "DF" ==> TotalWeight(PositionWeights(group).value) == 1.1
    ensures PositionWeights(group).Some? ==> InverseStats(PositionWeights(group).value)
  {
    hide InverseStats, TotalWeight;
    if group == "FW" {
      ForwardTable();
    } else if group == "MF" {
      MidfieldTable();
    } else if group == "DF" {
      DefenceTable();
    } else if group == "GK" {
      KeeperTable();
    }
  }

  /** The stat that weighs most. */
  ghost predicate Leads(weights: seq<StatWeight>, i: nat, stat: string) {
    i < |weights| && weights[i].stat == stat
    && forall j :: 0 <= j < |weights| && j != i ==> weights[j].weight < weights[i].weight
  }

  /** Goals count most for forwards, passing for midfielders, tackles for defenders and saves
      for keepers. */
  lemma LeadingStats()
    ensures Leads(PositionWeights("FW").value, 0, "goals") && Leads(PositionWeights("MF").value, 5, "pass_accuracy")
    ensures Leads(PositionWeights("DF").value, 3, "tackles") && Leads(PositionWeights("GK").value, 1, "saves")
  {
  }

  ghost predicate InverseStats(weights: seq<StatWeight>) {
    forall i :: 0 <= i < |weights| ==> (weights[i].inverse <==> weights[i].stat == "goals_conceded")
  }

  lemma ForwardTable()
    ensures TotalWeight(PositionWeights("FW").value) == 1.0 && InverseStats(PositionWeights("FW").value)
  {
    TotalOfTable(PositionWeights("FW").value);
  }

  lemma MidfieldTable()
    ensures TotalWeight(PositionWeights("MF").value) == 1.1 && InverseStats(PositionWeights("MF").value)
  {
    TotalOfTable(PositionWeights("MF").value);
  }

  lemma DefenceTable()
    ensures TotalWeight(PositionWeights("DF").value) == 1.1 && InverseStats(PositionWeights("DF").value)
  {
    TotalOfTable(PositionWeights("DF").value);
  }

  lemma KeeperTable()
    ensures TotalWeight(PositionWeights("GK").value) == 1.0 && InverseStats(PositionWeights("GK").value)
  {
    TotalOfTable(PositionWeights("GK").value);
  }

  ghost function TotalFromFront(weights: seq<StatWeight>): real {
    if weights == [] then 0.0 else weights[0].weight + TotalFromFront(weights[1..])
  }

  lemma {:induction false} TotalAppends(weights: seq<StatWeight>, w: StatWeight)
    ensures TotalFromFront(weights + [w]) == TotalFromFront(weights) + w.weight
  {
    if weights == [] {
      assert [w][1..] == [];
    } else {
      TotalAppends(weights[1..], w);
      assert (weights + [w])[1..] == weights[1..] + [w];
    }
  }

  lemma {:induction false} TotalOfTable(weights: seq<StatWeight>)
    ensures TotalWeight(weights) == TotalFromFront(weights)
  {
    if weights != [] {
      var n := |weights| - 1;
      TotalOfTable(weights[..n]);
      TotalAppends(weights[..n], weights[n]);
      assert weights == weights[..n] + [weights[n]];
    }
  }

  /** A keeper who concedes fewer goals never rates lower, a forward who scores more does not
      either. */
  lemma KeepersAndForwards(player: map<string, real>, peers: seq<Stats>, value: real)
    ensures AllPositive(PositionWeights("GK").value) && AllPositive(PositionWeights("FW").value)
    ensures "goals_conceded" in player && value <= player["goals_conceded"] ==>
              var better, table := player["goals_conceded" := value], PositionWeights("GK").value;
              HasSome(player, table) && HasSome(better, table)
              && Composite(player, peers, table) <= Composite(better, peers, table)
    ensures "goals" in player && value >= player["goals"] ==>
              var better, table := player["goals" := value], PositionWeights("FW").value;
              HasSome(player, table) && HasSome(better, table)
              && Composite(player, peers, table) <= Composite(better, peers, table)
  {
    hide Composite;
    TablesArePositive("GK");
    TablesArePositive("FW");
    if "goals_conceded" in player && value <= player["goals_conceded"] {
      var table := PositionWeights("GK").value;
      assert table[3].stat == "goals_conceded";
      assert table[3].stat in player;
      CompositeMonotone(player, player["goals_conceded" := value], peers, table);
    }
    if "goals" in player && value >= player["goals"] {
      var table := PositionWeights("FW").value;
      assert table[0].stat == "goals";
      assert table[0].stat in player;
      CompositeMonotone(player, player["goals" := value], peers, table);
    }
  }

  // ---- Recency ----

  /** Layer 1 exactly: the five most recent ratings at 35, 25, 20, 12 and 8 percent; with fewer,
      the weights of the most recent ones, renormalised. */
  lemma Layer1Exactly(ratings: seq<real>)
    requires ratings != []
    ensures Layer1Rating(ratings).Some?
    ensures var v, r := Layer1Rating(ratings).value, ratings;
            && (|r| == 1 ==> v == r[0])
            && (|r| == 2 ==> v * 0.60 == 0.35 * r[0] + 0.25 * r[1])
            && (|r| == 3 ==> v * 0.80 == 0.35 * r[0] + 0.25 * r[1] + 0.20 * r[2])
            && (|r| == 4 ==> v * 0.92 == 0.35 * r[0] + 0.25 * r[1] + 0.20 * r[2] + 0.12 * r[3])
            && (|r| >= 5 ==> v == 0.35 * r[0] + 0.25 * r[1] + 0.20 * r[2] + 0.12 * r[3] + 0.08 * r[4])
  {
    var n := if |ratings| < 5 then |ratings| else 5;
    var weights := LAYER1_WEIGHTS[..n];
    WeightsSum(weights);
    UnfoldDot(weights, ratings);
    UnfoldSum(weights);
    var dot, sum := Dot(weights, ratings), SumOf(weights);
    assert dot / sum * sum == dot;
  }

  ghost function Term(w: seq<real>, r: seq<real>, i: nat): real {
    if i < |w| && i < |r| then w[i] * r[i] else 0.0
  }

  lemma UnfoldDot(w: seq<real>, r: seq<real>)
    requires 0 < |w| <= 5 && |w| <= |r|
    ensures Dot(w, r) == Term(w, r, 0) + Term(w, r, 1) + Term(w, r, 2) + Term(w, r, 3) + Term(w, r, 4)
  {
    hide Dot, Term, DotAfter;
    DotFrom(w, r, 0);
    DotFrom(w, r, 1);
    DotFrom(w, r, 2);
    DotFrom(w, r, 3);
    DotFrom(w, r, 4);
    DotFrom(w, r, 5);
  }

  ghost function DotAfter(w: seq<real>, r: seq<real>, i: nat): real {
    if i <= |w| && i <= |r| then Dot(w[i..], r[i..]) else 0.0
  }

  lemma DotFrom(w: seq<real>, r: seq<real>, i: nat)
    requires |w| <= |r|
    ensures DotAfter(w, r, i) == Term(w, r, i) + DotAfter(w, r, i + 1)
    ensures DotAfter(w, r, 0) == Dot(w, r)
    ensures i >= |w| ==> DotAfter(w, r, i) == 0.0
  {
    assert DotAfter(w, r, 0) == Dot(w, r) by {
      assert w[0..] == w && r[0..] == r;
    }
    if i < |w| {
      DotTail(w, r, i);
    }
  }

  lemma DotTail(w: seq<real>, r: seq<real>, i: nat)
    requires i < |w| <= |r|
    ensures Dot(w[i..], r[i..]) == Term(w, r, i) + Dot(w[i + 1..], r[i + 1..])
  {
    var u, v := w[i..], r[i..];
    assert u[1..] == w[i + 1..] && v[1..] == r[i + 1..];
    assert Dot(u, v) == u[0] * v[0] + Dot(u[1..], v[1..]);
  }

  lemma UnfoldSum(w: seq<real>)
    requires 0 < |w| <= 5
    ensures SumOf(w) == w[0] + (if |w| > 1 then w[1] else 0.0) + (if |w| > 2 then w[2] else 0.0)
                        + (if |w| > 3 then w[3] else 0.0) + (if |w| > 4 then w[4] else 0.0)
  {
    var ones := seq(|w|, i => 1.0);
    SumIsDot(w, ones);
    UnfoldDot(w, ones);
  }

  lemma {:induction false} SumIsDot(w: seq<real>, ones: seq<real>)
    requires |w| == |ones| && forall i :: 0 <= i < |ones| ==> ones[i] == 1.0
    ensures SumOf(w) == Dot(w, ones)
  {
    if w != [] {
      SumIsDot(w[1..], ones[1..]);
    }
  }

  /** Raising a more recent rating by some amount raises the result by more. */
  lemma RecencyCounts(r: seq<real>, i: nat, j: nat, d: real)
    requires |r| == 5 && i < j < 5 && d > 0.0
    ensures Layer1Rating(r[i := r[i] + d]).value > Layer1Rating(r[j := r[j] + d]).value > Layer1Rating(r).value
  {
    Layer1Exactly(r);
    Layer1Exactly(r[i := r[i] + d]);
    Layer1Exactly(r[j := r[j] + d]);
  }

  lemma {:induction false} RatedAppends(a: seq<Option<real>>, b: seq<Option<real>>)
    ensures Rated(a + b) == Rated(a) + Rated(b)
  {
    if a == [] {
      assert a + b == b;
    } else {
      var first := if a[0].Some? then [a[0].value] else [];
      assert (a + b)[1..] == a[1..] + b && (a + b)[0] == a[0];
      assert Rated(a) == first + Rated(a[1..]) && Rated(a + b) == first + Rated(a[1..] + b);
      hide Rated;
      RatedAppends(a[1..], b);
    }
  }

  /** Of the matches, exactly the rated ones count, in order. */
  lemma RatedExactly(a: seq<Option<real>>, x: Option<real>, b: seq<Option<real>>)
    ensures Rated(a + [x] + b) == Rated(a) + (if x.Some? then [x.value] else []) + Rated(b)
    ensures Rated([]) == []
  {
    RatedAppends(a + [x], b);
    RatedAppends(a, [x]);
    assert [x][1..] == [];
  }
}
