/** The liquidity target and the one-way ratchet that applies it to a market. */
module Calibration {
  import opened Arithmetic
  import opened ExpLn
  import opened Lmsr
  import opened Decimals
  import opened Trading

  datatype Config = Config(baseLiquidity: real, nReference: int)

  /** The square root of a non-negative number, through the exponential. */
  function Sqrt(m: Maths, x: real): real {
    if x <= 0.0 then 0.0 else Exp(m, Ln(m, x) / 2.0)
  }

  /** None where the code raises ValueError. */
  function CalibrateBMin(m: Maths, config: Config, activeUsers: int): Option<real> {
    if config.nReference <= 0 then None
    else if activeUsers < 0 then None
    else
      var ratio := MaxInt(0, activeUsers) as real / config.nReference as real;
      Some(config.baseLiquidity * Sqrt(m, ratio))
  }

  /** One market under the ratchet: skipped unless the target exceeds its b_min, otherwise
      both share vectors are scaled by the same factor and everything is quantised. */
  function Recalibrated(market: Market, target: real): Market
    requires market.bMin > 0
  {
    var current := Milli4(market.bMin);
    var bNew := Max(current, target);
    if bNew <= current then market
    else
      var scale := Quotient(bNew, current);
      market.(bMin := D4(bNew), qUp := ScaledTicks(market.qUp, scale), qDown := ScaledTicks(market.qDown, scale))
  }

  function Quotient(x: real, y: real): real
    requires y != 0.0
  {
    x / y
  }

  function ScaledTicks(q: int, scale: real): int { Nearest6(Micro(q) * scale) }

  ghost predicate Positive(markets: map<PlayerId, Market>) {
    forall p :: p in markets ==> markets[p].bMin > 0
  }

  ghost function RecalibrateAll(st: State, target: real): State
    requires Positive(st.markets)
  {
    st.(markets := map p | p in st.markets :: Recalibrated(st.markets[p], target))
  }

  /** The markets a run updates. */
  ghost function Thin(markets: map<PlayerId, Market>, target: real): set<PlayerId> {
    set p | p in markets && Milli4(markets[p].bMin) < target
  }

  /** The table while the worker's loop still has the markets in `todo` to visit. */
  ghost function PartlyRecalibrated(table: map<PlayerId, Market>, todo: set<PlayerId>, target: real)
    : map<PlayerId, Market>
    requires Positive(table)
  {
    map p | p in table :: if p in todo then table[p] else Recalibrated(table[p], target)
  }

  lemma PartlyNext(table: map<PlayerId, Market>, todo: set<PlayerId>, p: PlayerId, target: real)
    requires Positive(table) && p in table && p in todo
    ensures PartlyRecalibrated(table, todo, target)[p] == table[p]
    ensures PartlyRecalibrated(table, todo, target)[p := Recalibrated(table[p], target)]
            == PartlyRecalibrated(table, todo - {p}, target)
    ensures |Thin(table, target) - (todo - {p})|
            == |Thin(table, target) - todo| + (if Milli4(table[p].bMin) < target then 1 else 0)
  {
    hide Recalibrated;
    var thin := Thin(table, target);
    if p in thin {
      assert thin - (todo - {p}) == (thin - todo) + {p};
    } else {
      assert thin - (todo - {p}) == thin - todo;
    }
  }

  lemma RecalibratedTable(st: State, target: real)
    requires Positive(st.markets)
    ensures PartlyRecalibrated(st.markets, st.markets.Keys, target) == st.markets
    ensures PartlyRecalibrated(st.markets, {}, target) == RecalibrateAll(st, target).markets
    ensures Thin(st.markets, target) - st.markets.Keys == {}
  {
    hide Recalibrated;
  }

  lemma SqrtSquares(m: Maths, x: real)
    requires Valid(m) && x >= 0.0
    ensures Sqrt(m, x) >= 0.0 && Sqrt(m, x) * Sqrt(m, x) == x
  {
    if x > 0.0 {
      var h := Ln(m, x) / 2.0;
      assert h + h == Ln(m, x);
      ExpSum(m, h, h);
      ExpOfLn(m, x);
      ExpPos(m, h);
    }
  }

  /** The target is base * sqrt(users / reference). */
  lemma TargetSquared(m: Maths, config: Config, users: int)
    requires Valid(m) && config.baseLiquidity > 0.0 && config.nReference > 0 && users >= 0
    ensures CalibrateBMin(m, config, users).Some?
    ensures var t := CalibrateBMin(m, config, users).value;
            && t >= 0.0
            && t * t * config.nReference as real == config.baseLiquidity * (config.baseLiquidity * users as real)
  {
    hide Sqrt;
    var n := config.nReference as real;
    var x := users as real / n;
    assert x * n == users as real;
    CancelPos(0.0, x, n);
    SqrtSquares(m, x);
    RootEquation(config.baseLiquidity, Sqrt(m, x), x, n, users as real);
  }

  /** It is strictly increasing in the users, equals the base at the reference population,
      and four times the users double it. */
  lemma TargetScalesWithRoot(m: Maths, config: Config, users: int, more: int)
    requires Valid(m) && config.baseLiquidity > 0.0 && config.nReference > 0 && 0 <= users < more
    ensures CalibrateBMin(m, config, users).Some? && CalibrateBMin(m, config, more).Some?
    ensures var t, u := CalibrateBMin(m, config, users).value, CalibrateBMin(m, config, more).value;
            && t < u
            && (users == config.nReference ==> t == config.baseLiquidity)
            && (more == 4 * users ==> u == 2.0 * t)
  {
    hide CalibrateBMin;
    var base, n := config.baseLiquidity, config.nReference as real;
    TargetSquared(m, config, users);
    TargetSquared(m, config, more);
    var t, u := CalibrateBMin(m, config, users).value, CalibrateBMin(m, config, more).value;
    SquareOrder(t, u, base, n, users as real, more as real);
    if users == config.nReference {
      CancelPos(t * t, base * base, n);
      RootUnique(t, base);
    }
    if more == 4 * users {
      FourTimes(t, u, base, n, users as real);
    }
  }

  /** The arguments that the code refuses with a ValueError. */
  lemma CalibrationRefuses(m: Maths, config: Config, users: int)
    ensures CalibrateBMin(m, config, users).None? <==> config.nReference <= 0 || users < 0
  {
    hide Sqrt;
  }

  /** The target is positive exactly when there are users. */
  lemma TargetPositiveExactly(m: Maths, config: Config, users: int)
    requires Valid(m) && config.baseLiquidity > 0.0 && config.nReference > 0 && users >= 0
    ensures CalibrateBMin(m, config, users).Some?
    ensures CalibrateBMin(m, config, users).value > 0.0 <==> users > 0
    ensures users == 0 ==> CalibrateBMin(m, config, users) == Some(0.0)
  {
    if users > 0 {
      TargetScalesWithRoot(m, config, 0, users);
      TargetSquared(m, config, 0);
    }
  }

  lemma SquareOrder(t: real, u: real, base: real, n: real, x: real, y: real)
    requires t >= 0.0 && u >= 0.0 && base > 0.0 && n > 0.0 && x < y
    requires t * t * n == base * (base * x) && u * u * n == base * (base * y)
    ensures t < u
  {
    CancelPos(x, y, base);
    CancelPos(base * x, base * y, base);
    CancelPos(t * t, u * u, n);
    if u <= t {
      SquareMono(u, t);
    }
  }

  lemma FourTimes(t: real, u: real, base: real, n: real, x: real)
    requires t >= 0.0 && u >= 0.0 && n > 0.0
    requires t * t * n == base * (base * x) && u * u * n == base * (base * (4.0 * x))
    ensures u == 2.0 * t
  {
    assert base * (base * (4.0 * x)) == 4.0 * (base * (base * x));
    assert 4.0 * (t * t) * n == 4.0 * (t * t * n);
    CancelPos(4.0 * (t * t), u * u, n);
    assert (2.0 * t) * (2.0 * t) == 4.0 * (t * t);
    RootUnique(2.0 * t, u);
  }

  lemma SquareMono(r: real, s: real)
    requires 0.0 <= r <= s
    ensures r * r <= s * s
    ensures r < s ==> r * r < s * s
  {
    ScaleMono(r, s, r);
    if r < s {
      calc {
        r * r;
      <=
        r * s;
      <  { CancelPos(r, s, s); }
        s * s;
      }
    }
  }

  lemma RootUnique(r: real, s: real)
    requires r >= 0.0 && s >= 0.0 && r * r == s * s
    ensures r == s
  {
    if r < s {
      SquareMono(r, s);
    } else {
      SquareMono(s, r);
    }
  }

  lemma RootEquation(base: real, r: real, x: real, n: real, users: real)
    requires r * r == x && x * n == users
    ensures (base * r) * (base * r) * n == base * (base * users)
  {
    calc {
      (base * r) * (base * r) * n;
    ==
      base * (base * ((r * r) * n));
    }
  }

  /** The ratchet: b_min and both share totals never fall, a market at or above the target
      is left alone, and each scaled total is within half a tick of the exact one. */
  lemma RatchetOnlyRises(market: Market, target: real)
    requires MarketOk(market)
    ensures var r := Recalibrated(market, target);
            && MarketOk(r)
            && r.bMin >= market.bMin && r.qUp >= market.qUp && r.qDown >= market.qDown
            && r.alpha == market.alpha && r.rating == market.rating
            && (target <= Milli4(market.bMin) ==> r == market)
            && (target > Milli4(market.bMin) ==>
                  var scale := Quotient(target, Milli4(market.bMin));
                  && scale > 1.0
                  && -0.00005 <= Milli4(r.bMin) - target <= 0.00005
                  && -0.0000005 <= Micro(r.qUp) - Micro(market.qUp) * scale <= 0.0000005
                  && -0.0000005 <= Micro(r.qDown) - Micro(market.qDown) * scale <= 0.0000005)
  {
    hide HalfEven, ScaledTicks;
    var current := Milli4(market.bMin);
    if target > current {
      var scale := Quotient(target, current);
      assert scale * current == target;
      QuotientAboveOne(scale, current, target);
      HalfEvenAbove(market.bMin, target * 10000.0);
      HalfEvenError(target * 10000.0);
      ScaledTicksRise(market.qUp, scale);
      ScaledTicksRise(market.qDown, scale);
    }
  }

  /** The ticks are those of the scaled shares, rounded half to even. */
  ghost predicate EvenTicks(q: int, scale: real, ticks: int) {
    NearestEven(Micro(q) * scale * 1000000.0, ticks)
  }

  /** The scaled row is rounded half to even, each column to its own precision. */
  lemma RatchetRoundsEven(market: Market, target: real)
    requires MarketOk(market) && target > Milli4(market.bMin)
    ensures var r, scale := Recalibrated(market, target), Quotient(target, Milli4(market.bMin));
            && NearestEven(target * 10000.0, r.bMin)
            && EvenTicks(market.qUp, scale, r.qUp) && EvenTicks(market.qDown, scale, r.qDown)
  {
    hide HalfEven, NearestEven, Quotient, ScaledTicks, EvenTicks;
    HalfEvenExactly(target * 10000.0, D4(target));
    var scale := Quotient(target, Milli4(market.bMin));
    ScaledTicksEven(market.qUp, scale);
    ScaledTicksEven(market.qDown, scale);
  }

  lemma ScaledTicksEven(q: int, scale: real)
    ensures EvenTicks(q, scale, ScaledTicks(q, scale))
  {
    hide HalfEven, NearestEven, Micro;
    HalfEvenExactly(Micro(q) * scale * 1000000.0, ScaledTicks(q, scale));
  }

  lemma QuotientAboveOne(scale: real, current: real, target: real)
    requires 0.0 < current < target && scale * current == target
    ensures scale > 1.0
  {
    if scale <= 1.0 {
      ScaleMono(scale, 1.0, current);
    }
  }

  lemma ScaledTicksRise(q: int, scale: real)
    requires q >= 0 && scale > 1.0
    ensures ScaledTicks(q, scale) >= q
    ensures -0.0000005 <= Micro(ScaledTicks(q, scale)) - Micro(q) * scale <= 0.0000005
  {
    hide HalfEven;
    var x := Micro(q) * scale;
    assert x * 1000000.0 == q as real * scale;
    assert q as real * scale - q as real == q as real * (scale - 1.0) >= 0.0;
    HalfEvenAbove(q, x * 1000000.0);
    HalfEvenError(x * 1000000.0);
  }
}
