/** The exponential and logarithm the pricing code calls, as a value that every pricing
    function receives.  The functions themselves are unconstrained parameters; `Valid`
    states the only three laws that any theorem here relies on.  Positivity, monotonicity,
    injectivity and the laws of the logarithm are derived from these. */
module ExpLn {

  datatype Maths = Maths(expf: real -> real, lnf: real -> real)

  function Exp(m: Maths, x: real): real { m.expf(x) }

  function Ln(m: Maths, y: real): real { m.lnf(y) }

  // Each law is a predicate of its own, so that it is instantiated only where it is named.
  ghost predicate SumLaw(m: Maths, x: real, y: real) {
    Exp(m, x + y) == Exp(m, x) * Exp(m, y)
  }

  ghost predicate TangentLaw(m: Maths, x: real) {
    Exp(m, x) >= 1.0 + x
  }

  ghost predicate InverseLaw(m: Maths, y: real) {
    y > 0.0 ==> Exp(m, Ln(m, y)) == y
  }

  ghost predicate Valid(m: Maths) {
    && (forall x, y :: SumLaw(m, x, y))
    && (forall x :: TangentLaw(m, x))
    && (forall y :: InverseLaw(m, y))
  }

  lemma ExpSum(m: Maths, x: real, y: real)
    requires Valid(m)
    ensures Exp(m, x + y) == Exp(m, x) * Exp(m, y)
  {
    assert SumLaw(m, x, y);
  }

  lemma ExpTangent(m: Maths, x: real)
    requires Valid(m)
    ensures Exp(m, x) >= 1.0 + x
  {
    assert TangentLaw(m, x);
  }

  lemma ExpOfLn(m: Maths, y: real)
    requires Valid(m) && y > 0.0
    ensures Exp(m, Ln(m, y)) == y
  {
    assert InverseLaw(m, y);
  }

  lemma ExpZero(m: Maths, z: real)
    requires Valid(m) && z == 0.0
    ensures Exp(m, z) == 1.0
  {
    ExpTangent(m, z);
    ExpSum(m, z, z);
    assert z + z == z;
    FixedBySquaring(Exp(m, z), Exp(m, z + z));
  }

  lemma FixedBySquaring(e: real, f: real)
    requires e >= 1.0 && f == e * e && f == e
    ensures e == 1.0
  {
    if e > 1.0 {
      MulAbove(e, e);
    }
  }

  lemma ExpNeg(m: Maths, x: real)
    requires Valid(m)
    ensures Exp(m, x) * Exp(m, -x) == 1.0
  {
    ExpSum(m, x, -x);
    ExpZero(m, x + -x);
  }

  lemma ExpPos(m: Maths, x: real)
    requires Valid(m)
    ensures Exp(m, x) > 0.0
  {
    var e := Exp(m, x / 2.0);
    ExpSum(m, x / 2.0, x / 2.0);
    assert x / 2.0 + x / 2.0 == x;
    assert Exp(m, x) == e * e;
    ExpNeg(m, x);
    NonZeroSquare(e, Exp(m, -x));
  }

  lemma NonZeroSquare(e: real, f: real)
    ensures e * e >= 0.0
    ensures e * e * f != 0.0 ==> e * e > 0.0
  {
  }

  /** Away from zero the tangent law is strict: Exp(x) = Exp(x/2)^2 >= (1 + x/2)^2. */
  lemma ExpStrictTangent(m: Maths, x: real)
    requires Valid(m) && x != 0.0
    ensures Exp(m, x) > 1.0 + x
  {
    var h := x / 2.0;
    ExpPos(m, x);
    if 1.0 + h > 0.0 {
      var e := Exp(m, h);
      ExpSum(m, h, h);
      assert h + h == x;
      ExpTangent(m, h);
      SquareAbove(h, e);
    }
  }

  lemma SquareAbove(h: real, e: real)
    requires h != 0.0 && 0.0 < 1.0 + h <= e
    ensures e * e > 1.0 + 2.0 * h
  {
    var a := 1.0 + h;
    calc {
      e * e;
    >=
      a * e;
    >=
      a * a;
    ==
      1.0 + 2.0 * h + h * h;
    >
      1.0 + 2.0 * h;
    }
  }

  lemma ExpMono(m: Maths, x: real, y: real)
    requires Valid(m) && x < y
    ensures Exp(m, x) < Exp(m, y)
  {
    ExpSum(m, x, y - x);
    ExpStrictTangent(m, y - x);
    ExpPos(m, x);
    MulAbove(Exp(m, x), Exp(m, y - x));
  }

  lemma MulAbove(a: real, k: real)
    requires a > 0.0 && k > 1.0
    ensures a * k > a
  {
  }

  lemma ExpInjective(m: Maths, x: real, y: real)
    requires Valid(m) && Exp(m, x) == Exp(m, y)
    ensures x == y
  {
    if x < y {
      ExpMono(m, x, y);
    } else if y < x {
      ExpMono(m, y, x);
    }
  }

  /** The order of exponentials decides the order of their arguments. */
  lemma ExpReflects(m: Maths, x: real, y: real)
    requires Valid(m)
    ensures x < y <==> Exp(m, x) < Exp(m, y)
    ensures x <= y <==> Exp(m, x) <= Exp(m, y)
  {
    if x < y {
      ExpMono(m, x, y);
    } else if y < x {
      ExpMono(m, y, x);
    }
  }

  lemma LnOfExp(m: Maths, x: real)
    requires Valid(m)
    ensures Ln(m, Exp(m, x)) == x
  {
    ExpPos(m, x);
    ExpOfLn(m, Exp(m, x));
    ExpInjective(m, Ln(m, Exp(m, x)), x);
  }

  lemma LnReflects(m: Maths, x: real, y: real)
    requires Valid(m) && x > 0.0 && y > 0.0
    ensures Ln(m, x) < Ln(m, y) <==> x < y
    ensures Ln(m, x) <= Ln(m, y) <==> x <= y
  {
    ExpOfLn(m, x);
    ExpOfLn(m, y);
    ExpReflects(m, Ln(m, x), Ln(m, y));
  }

  lemma LnOne(m: Maths)
    requires Valid(m)
    ensures Ln(m, 1.0) == 0.0
  {
    var z := 0.0;
    ExpZero(m, z);
    LnOfExp(m, z);
  }
}
