/** The pricing functions of the liquidity-sensitive LMSR market maker, over exact reals. */
module Lmsr {
  import opened ExpLn

  const CLAMP := 0.000000000000001  // 1e-15

  function Max(x: real, y: real): real { if y > x then y else x }

  function Min(x: real, y: real): real { if y < x then y else x }

  function MaxInt(x: int, y: int): int { if y > x then y else x }

  /** The floor on b for a given user count.  A zero divisor is the one failing input. */
  function BFloorForUsers(nUsers: int, bBase: real, nTarget: int, nMin: int): real
    requires MaxInt(nMin, nUsers) != 0
  {
    var safeN := MaxInt(nMin, nUsers);
    bBase * Max(1.0, nTarget as real / safeN as real)
  }

  function NaturalB(bMin: real, alpha: real, qUp: real, qDown: real): real {
    bMin + alpha * (qUp + qDown)
  }

  function EffectiveB(bMin: real, alpha: real, qUp: real, qDown: real, bFloor: real): real {
    Max(NaturalB(bMin, alpha, qUp, qDown), bFloor)
  }

  /** Max-shifted log-sum-exp, as the code evaluates it. */
  function Cost(m: Maths, qUp: real, qDown: real, b: real): real
    requires b > 0.0
  {
    var xUp := qUp / b;
    var xDown := qDown / b;
    var shift := Max(xUp, xDown);
    b * (shift + Ln(m, Exp(m, xUp - shift) + Exp(m, xDown - shift)))
  }

  /** The clamped exponent of the log1p inverse. */
  function Exponent(other: real, newCost: real, b: real): real
    requires b > 0.0
  {
    Min(-CLAMP, (other - newCost) / b)
  }

  function SharesForBudget(m: Maths, qUp: real, qDown: real, b: real, budget: real, isUp: bool): real
    requires b > 0.0
  {
    var newCost := Cost(m, qUp, qDown, b) + budget;
    if isUp then
      var newUp := b * (newCost / b + Ln(m, 1.0 - Exp(m, Exponent(qDown, newCost, b))));
      Max(0.0, newUp - qUp)
    else
      var newDown := b * (newCost / b + Ln(m, 1.0 - Exp(m, Exponent(qUp, newCost, b))));
      Max(0.0, newDown - qDown)
  }

  function SellRefundUp(m: Maths, qUp: real, qDown: real, b: real, shares: real): real
    requires b > 0.0
  {
    Max(0.0, Cost(m, qUp, qDown, b) - Cost(m, qUp - shares, qDown, b))
  }

  function SellRefundDown(m: Maths, qUp: real, qDown: real, b: real, shares: real): real
    requires b > 0.0
  {
    Max(0.0, Cost(m, qUp, qDown, b) - Cost(m, qUp, qDown - shares, b))
  }

  /** The displayed rating.  A vanishing denominator cannot occur for a valid `m`; the code
      would raise there, and the value chosen below is never seen. */
  function Rating(m: Maths, qUp: real, qDown: real, b: real): real
    requires b > 0.0
  {
    var xUp := qUp / b;
    var xDown := qDown / b;
    var shift := Max(xUp, xDown);
    var expUp := Exp(m, xUp - shift);
    var expDown := Exp(m, xDown - shift);
    var pUp := if expUp + expDown == 0.0 then 0.0 else expUp / (expUp + expDown);
    Max(0.0, Min(10.0, pUp * 10.0))
  }

  /** Asymmetric seeding: the losing side starts at zero shares. */
  function InitializeMarket(m: Maths, rBase: real, bMin: real): (real, real) {
    SeedAt(m, Max(0.001, Min(0.999, rBase / 10.0)), bMin)
  }

  function SeedAt(m: Maths, p: real, bMin: real): (real, real)
    requires 0.0 < p < 1.0
  {
    if p >= 0.5 then
      (bMin * Ln(m, p / (1.0 - p)), 0.0)
    else
      (0.0, bMin * Ln(m, (1.0 - p) / p))
  }
}
