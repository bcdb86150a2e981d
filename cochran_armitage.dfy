/** The Cochran-Armitage trend statistic in its textbook form, stated on the
    two levels of the evaluated variable: `a[k]` and `b[k]` are the counts of
    the first and the second level in trend category `k`, and `t[k]` is that
    category's score. This is the reference the table-level computation of
    module StatisticsTest is proved equal to, and the place where the
    statistic's own properties (level swap, affine scores, degenerate inputs,
    sign) are proved.

    Products that several lemmas talk about are named by functions
    (`Square`, `Discriminant`, `Ratio`, ...), so that one lemma's conclusion
    can be used by another without the solver re-deriving the algebra. */
module CochranArmitage {
  import opened Arrays

  /** The three vectors run over the same trend categories. */
  predicate Conformable(a: seq<real>, b: seq<real>, t: seq<real>)
  {
    |a| == |b| && |b| == |t|
  }

  /** `n`, the number of observations. */
  function Size(a: seq<real>, b: seq<real>): real
  {
    Sum(a) + Sum(b)
  }

  /** `N[k]`, the number of observations in trend category `k`. */
  function Margins(a: seq<real>, b: seq<real>): (r: seq<real>)
    requires |a| == |b|
    ensures |r| == |a|
  {
    Add(a, b)
  }

  /** `E[k] = n1 / n * N[k]`, the count of the first level that independence
      predicts in category `k`. */
  function ExpectedFirst(a: seq<real>, b: seq<real>): (r: seq<real>)
    requires |a| == |b| && Size(a, b) != 0.0
    ensures |r| == |a|
  {
    Scale(Sum(a) / Size(a, b), Margins(a, b))
  }

  /** `sum_k (a[k] - E[k]) * t[k]`, the score-weighted departure from
      independence. */
  function Trend(a: seq<real>, b: seq<real>, t: seq<real>): real
    requires Conformable(a, b, t) && Size(a, b) != 0.0
  {
    Sum(Mul(Sub(a, ExpectedFirst(a, b)), t))
  }

  /** `n * sum_k N[k] * t[k]^2 - (sum_k N[k] * t[k])^2`. */
  function Spread(a: seq<real>, b: seq<real>, t: seq<real>): real
    requires Conformable(a, b, t)
  {
    Discriminant(Size(a, b), Sum(Mul(Margins(a, b), t)), Sum(Mul(Margins(a, b), Squares(t))))
  }

  /** `n * s2 - s1^2`, for a total `n`, a first moment `s1` and a second
      moment `s2`. */
  function Discriminant(n: real, s1: real, s2: real): real
  {
    n * s2 - Square(s1)
  }

  /** `n1 * n2 * Spread`. */
  function Denominator(a: seq<real>, b: seq<real>, t: seq<real>): real
    requires Conformable(a, b, t)
  {
    Product3(Sum(a), Sum(b), Spread(a, b, t))
  }

  /** `x * y * z`, multiplied left to right. */
  function Product3(x: real, y: real, z: real): real
  {
    x * y * z
  }

  /** The statistic is a number: nothing is divided by zero. */
  predicate Defined(a: seq<real>, b: seq<real>, t: seq<real>)
  {
    Conformable(a, b, t) && Size(a, b) != 0.0 && Denominator(a, b, t) != 0.0
  }

  /** `n^3 * Trend^2 / (n1 * n2 * Spread)`. */
  function Statistic(a: seq<real>, b: seq<real>, t: seq<real>): real
    requires Defined(a, b, t)
  {
    Ratio(Size(a, b), Trend(a, b, t), Denominator(a, b, t))
  }

  /** `n^3 * d^2 / q`. */
  function Ratio(n: real, d: real, q: real): real
    requires q != 0.0
  {
    n * n * n * Square(d) / q
  }

  /** The scores `alpha + beta * t[k]`. */
  function Affine(alpha: real, beta: real, t: seq<real>): (r: seq<real>)
    ensures |r| == |t|
  {
    seq(|t|, k requires 0 <= k < |t| => alpha + beta * t[k])
  }

  /** `2 * alpha * beta`, the cross coefficient of `(alpha + beta * t)^2`. */
  function Cross(alpha: real, beta: real): real
  {
    2.0 * alpha * beta
  }

  /** `c^2 * x`. */
  function SquareScaled(c: real, x: real): real
  {
    Square(c) * x
  }

  /** The second moment of the scores `alpha + beta * t[k]`, from the moments
      `s0`, `s1`, `s2` of the scores `t[k]`. */
  function SquareCombination(alpha: real, beta: real, s0: real, s1: real, s2: real): real
  {
    Linear3(Square(alpha), s0, Cross(alpha, beta), s1, Square(beta), s2)
  }

  /** The margins add up to the number of observations. */
  lemma MarginsTotal(a: seq<real>, b: seq<real>)
    requires |a| == |b|
    ensures Sum(Margins(a, b)) == Size(a, b)
  {
    SumAdd(a, b);
  }

  /** The departures from independence cancel out over the categories. */
  lemma DeparturesCancel(a: seq<real>, b: seq<real>)
    requires |a| == |b| && Size(a, b) != 0.0
    ensures Sum(Sub(a, ExpectedFirst(a, b))) == 0.0
  {
    SumSub(a, ExpectedFirst(a, b));
    SumScale(Sum(a) / Size(a, b), Margins(a, b));
    MarginsTotal(a, b);
    DivMul(Sum(a), Size(a, b));
  }

  /** A weighted sum of affine scores expands into weighted sums of the
      original scores. */
  lemma SumAffine(w: seq<real>, t: seq<real>, alpha: real, beta: real)
    requires |w| == |t|
    ensures Sum(Mul(w, Affine(alpha, beta, t))) == Linear(alpha, Sum(w), beta, Sum(Mul(w, t)))
  {
    AffineProducts(w, t, alpha, beta);
    SumLinear(w, Mul(w, t), alpha, beta);
  }

  lemma AffineProducts(w: seq<real>, t: seq<real>, alpha: real, beta: real)
    requires |w| == |t|
    ensures Sum(Mul(w, Affine(alpha, beta, t))) == Sum(Add(Scale(alpha, w), Scale(beta, Mul(w, t))))
  {
    var lhs, rhs := Mul(w, Affine(alpha, beta, t)), Add(Scale(alpha, w), Scale(beta, Mul(w, t)));
    forall k | 0 <= k < |w|
      ensures lhs[k] == rhs[k]
    {
      AffineTerm(w[k], t[k], alpha, beta);
    }
    assert lhs == rhs;
  }

  /** The same for a weighted sum of squared affine scores. */
  lemma SumAffineSquares(w: seq<real>, t: seq<real>, alpha: real, beta: real)
    requires |w| == |t|
    ensures Sum(Mul(w, Squares(Affine(alpha, beta, t))))
         == SquareCombination(alpha, beta, Sum(w), Sum(Mul(w, t)), Sum(Mul(w, Squares(t))))
  {
    AffineSquareProducts(w, t, alpha, beta);
    SumLinear3(w, Mul(w, t), Mul(w, Squares(t)), Square(alpha), Cross(alpha, beta), Square(beta));
  }

  lemma AffineSquareProducts(w: seq<real>, t: seq<real>, alpha: real, beta: real)
    requires |w| == |t|
    ensures Sum(Mul(w, Squares(Affine(alpha, beta, t))))
         == Sum(Add(Add(Scale(Square(alpha), w), Scale(Cross(alpha, beta), Mul(w, t))), Scale(Square(beta), Mul(w, Squares(t)))))
  {
    var lhs := Mul(w, Squares(Affine(alpha, beta, t)));
    var rhs := Add(Add(Scale(Square(alpha), w), Scale(Cross(alpha, beta), Mul(w, t))), Scale(Square(beta), Mul(w, Squares(t))));
    forall k | 0 <= k < |w|
      ensures lhs[k] == rhs[k]
    {
      AffineSquareAt(w, t, alpha, beta, k);
    }
    assert lhs == rhs;
  }

  lemma AffineSquareAt(w: seq<real>, t: seq<real>, alpha: real, beta: real, k: nat)
    requires |w| == |t| && k < |w|
    ensures Mul(w, Squares(Affine(alpha, beta, t)))[k]
         == Add(Add(Scale(Square(alpha), w), Scale(Cross(alpha, beta), Mul(w, t))), Scale(Square(beta), Mul(w, Squares(t))))[k]
  {
    var x := Affine(alpha, beta, t)[k];
    var p1, p2 := Mul(w, t)[k], Mul(w, Squares(t))[k];
    assert Squares(Affine(alpha, beta, t))[k] == Square(x);
    AffineSquareTerm(w[k], t[k], x, p1, p2, alpha, beta);
  }

  /** Relabelling the two levels of the evaluated variable leaves the margins
      alone and flips the sign of the trend, so the squared statistic does
      not change. */
  lemma LevelSwap(a: seq<real>, b: seq<real>, t: seq<real>)
    requires Conformable(a, b, t) && Size(a, b) != 0.0
    ensures Conformable(b, a, t) && Size(b, a) == Size(a, b)
    ensures Trend(b, a, t) == -Trend(a, b, t)
    ensures Denominator(b, a, t) == Denominator(a, b, t)
    ensures Defined(b, a, t) <==> Defined(a, b, t)
    ensures Defined(a, b, t) ==> Statistic(b, a, t) == Statistic(a, b, t)
  {
    SwappedTrend(a, b, t);
    SwappedDenominator(a, b, t);
    if Defined(a, b, t) {
      RatioOfNegation(Size(a, b), Trend(a, b, t), Denominator(a, b, t));
    }
  }

  lemma SwappedTrend(a: seq<real>, b: seq<real>, t: seq<real>)
    requires Conformable(a, b, t) && Size(a, b) != 0.0
    ensures Size(b, a) == Size(a, b)
    ensures Trend(b, a, t) == -Trend(a, b, t)
  {
    SwappedDepartures(a, b, t);
    SumScale(-1.0, Mul(Sub(a, ExpectedFirst(a, b)), t));
  }

  lemma SwappedDenominator(a: seq<real>, b: seq<real>, t: seq<real>)
    requires Conformable(a, b, t)
    ensures Denominator(b, a, t) == Denominator(a, b, t)
  {
    assert Margins(b, a) == Margins(a, b);
    assert Spread(b, a, t) == Spread(a, b, t);
    Commute(Sum(b), Sum(a));
  }

  lemma SwappedDepartures(a: seq<real>, b: seq<real>, t: seq<real>)
    requires Conformable(a, b, t) && Size(a, b) != 0.0
    ensures Sum(Mul(Sub(b, ExpectedFirst(b, a)), t)) == Sum(Scale(-1.0, Mul(Sub(a, ExpectedFirst(a, b)), t)))
  {
    assert Margins(b, a) == Margins(a, b);
    var lhs, rhs := Mul(Sub(b, ExpectedFirst(b, a)), t), Scale(-1.0, Mul(Sub(a, ExpectedFirst(a, b)), t));
    forall k | 0 <= k < |a|
      ensures lhs[k] == rhs[k]
    {
      SwapDeparture(a[k], b[k], t[k], Sum(a), Sum(b));
    }
    assert lhs == rhs;
  }

  /** Affine scores scale the trend by `beta`: their constant part meets
      departures that cancel. */
  lemma AffineTrend(a: seq<real>, b: seq<real>, t: seq<real>, alpha: real, beta: real)
    requires Conformable(a, b, t) && Size(a, b) != 0.0
    ensures Conformable(a, b, Affine(alpha, beta, t))
    ensures Trend(a, b, Affine(alpha, beta, t)) == beta * Trend(a, b, t)
  {
    DeparturesCancel(a, b);
    CenteredAffine(Sub(a, ExpectedFirst(a, b)), t, alpha, beta);
  }

  /** Weights that add up to zero do not see the constant part of affine
      scores. */
  lemma CenteredAffine(d: seq<real>, t: seq<real>, alpha: real, beta: real)
    requires |d| == |t| && Sum(d) == 0.0
    ensures Sum(Mul(d, Affine(alpha, beta, t))) == beta * Sum(Mul(d, t))
  {
    SumAffine(d, t, alpha, beta);
    VanishingTerm(alpha, Sum(d), beta, Sum(Mul(d, t)));
  }

  /** Affine scores scale the spread by `beta^2`. */
  lemma AffineSpreadScaled(a: seq<real>, b: seq<real>, t: seq<real>, alpha: real, beta: real)
    requires Conformable(a, b, t)
    ensures Conformable(a, b, Affine(alpha, beta, t))
    ensures Spread(a, b, Affine(alpha, beta, t)) == SquareScaled(beta, Spread(a, b, t))
  {
    var N := Margins(a, b);
    AffineMoments(a, b, t, alpha, beta);
    AffineDiscriminant(Size(a, b), Sum(Mul(N, t)), Sum(Mul(N, Squares(t))), alpha, beta);
  }

  /** The moments that make up the spread, for affine scores. */
  lemma AffineMoments(a: seq<real>, b: seq<real>, t: seq<real>, alpha: real, beta: real)
    requires Conformable(a, b, t)
    ensures Sum(Mul(Margins(a, b), Affine(alpha, beta, t)))
         == Linear(alpha, Size(a, b), beta, Sum(Mul(Margins(a, b), t)))
    ensures Sum(Mul(Margins(a, b), Squares(Affine(alpha, beta, t))))
         == SquareCombination(alpha, beta, Size(a, b), Sum(Mul(Margins(a, b), t)), Sum(Mul(Margins(a, b), Squares(t))))
  {
    SumAffine(Margins(a, b), t, alpha, beta);
    SumAffineSquares(Margins(a, b), t, alpha, beta);
    MarginsTotal(a, b);
  }

  /** Affine scores scale the denominator by `beta^2`. */
  lemma AffineDenominator(a: seq<real>, b: seq<real>, t: seq<real>, alpha: real, beta: real)
    requires Conformable(a, b, t)
    ensures Conformable(a, b, Affine(alpha, beta, t))
    ensures Denominator(a, b, Affine(alpha, beta, t)) == SquareScaled(beta, Denominator(a, b, t))
  {
    AffineSpreadScaled(a, b, t, alpha, beta);
    ScaledFactor(Sum(a), Sum(b), Spread(a, b, t), Spread(a, b, Affine(alpha, beta, t)), beta);
  }

  /** Replacing every score `t[k]` by `alpha + beta * t[k]` with `beta != 0`
      changes neither whether the statistic is defined nor its value. */
  lemma AffineScores(a: seq<real>, b: seq<real>, t: seq<real>, alpha: real, beta: real)
    requires Conformable(a, b, t) && Size(a, b) != 0.0 && beta != 0.0
    ensures Conformable(a, b, Affine(alpha, beta, t))
    ensures Defined(a, b, Affine(alpha, beta, t)) <==> Defined(a, b, t)
    ensures Defined(a, b, t) ==> Statistic(a, b, Affine(alpha, beta, t)) == Statistic(a, b, t)
  {
    var t' := Affine(alpha, beta, t);
    AffineTrend(a, b, t, alpha, beta);
    AffineDenominator(a, b, t, alpha, beta);
    ScaledRatio(Size(a, b), Trend(a, b, t), Trend(a, b, t'), Denominator(a, b, t), Denominator(a, b, t'), beta);
  }

  /** The statistic is undefined when every category has the same score, or
      when one level of the evaluated variable is never observed. */
  lemma Degenerate(a: seq<real>, b: seq<real>, t: seq<real>, c: real)
    requires Conformable(a, b, t)
    requires Constant(t, c) || Sum(a) == 0.0 || Sum(b) == 0.0
    ensures Denominator(a, b, t) == 0.0 && !Defined(a, b, t)
  {
    if Constant(t, c) {
      ConstantSpreadVanishes(a, b, t, c);
    }
    ZeroFactor(Sum(a), Sum(b), Spread(a, b, t));
  }

  /** Every category has the score `c`. */
  predicate Constant(t: seq<real>, c: real)
  {
    forall k :: 0 <= k < |t| ==> t[k] == c
  }

  /** With a single score for every category the spread is zero. */
  lemma ConstantSpreadVanishes(a: seq<real>, b: seq<real>, t: seq<real>, c: real)
    requires Conformable(a, b, t) && Constant(t, c)
    ensures Spread(a, b, t) == 0.0
  {
    var N := Margins(a, b);
    ConstantScores(N, t, c);
    MarginsTotal(a, b);
    ConstantDiscriminant(Size(a, b), c);
  }

  lemma ConstantScores(w: seq<real>, t: seq<real>, c: real)
    requires |w| == |t| && Constant(t, c)
    ensures Sum(Mul(w, t)) == c * Sum(w)
    ensures Sum(Mul(w, Squares(t))) == Square(c) * Sum(w)
  {
    ConstantProducts(w, t, c);
    SumScale(c, w);
    SumScale(Square(c), w);
  }

  lemma ConstantProducts(w: seq<real>, t: seq<real>, c: real)
    requires |w| == |t| && Constant(t, c)
    ensures Mul(w, t) == Scale(c, w)
    ensures Mul(w, Squares(t)) == Scale(Square(c), w)
  {
    forall k | 0 <= k < |w|
      ensures Mul(w, t)[k] == Scale(c, w)[k] && Mul(w, Squares(t))[k] == Scale(Square(c), w)[k]
    {
      ConstantTerm(w[k], t[k], c);
    }
  }

  /** With non-negative counts the spread is `n` times the weighted sum of
      squared deviations of the scores from their weighted mean, so it is
      not negative. */
  lemma SpreadNonNegative(a: seq<real>, b: seq<real>, t: seq<real>)
    requires Conformable(a, b, t) && Size(a, b) > 0.0
    requires forall k :: 0 <= k < |a| ==> a[k] >= 0.0 && b[k] >= 0.0
    ensures Spread(a, b, t) >= 0.0
  {
    var N := Margins(a, b);
    var mu := Sum(Mul(N, t)) / Size(a, b);
    Deviations(N, t, mu);
    SumAffineSquares(N, t, -mu, 1.0);
    MarginsTotal(a, b);
    DivMul(Sum(Mul(N, t)), Size(a, b));
    VarianceAlgebra(Size(a, b), Sum(Mul(N, t)), Sum(Mul(N, Squares(t))), mu, Sum(Mul(N, Squares(Affine(-mu, 1.0, t)))));
  }

  /** A weighted sum of squares with non-negative weights is not negative. */
  lemma Deviations(w: seq<real>, t: seq<real>, mu: real)
    requires |w| == |t| && forall k :: 0 <= k < |w| ==> w[k] >= 0.0
    ensures Sum(Mul(w, Squares(Affine(-mu, 1.0, t)))) >= 0.0
  {
    var dev := Mul(w, Squares(Affine(-mu, 1.0, t)));
    forall k | 0 <= k < |dev|
      ensures dev[k] >= 0.0
    {
      NonNegativeSquare(w[k], Affine(-mu, 1.0, t)[k]);
    }
    SumNonNegative(dev);
  }

  lemma {:induction false} SumNonNegative(v: seq<real>)
    requires forall k :: 0 <= k < |v| ==> v[k] >= 0.0
    ensures Sum(v) >= 0.0
  {
    if |v| > 0 {
      SumNonNegative(v[1..]);
    }
  }

  /** With non-negative counts the statistic is non-negative: it is a
      chi-square value. */
  lemma StatisticNonNegative(a: seq<real>, b: seq<real>, t: seq<real>)
    requires Defined(a, b, t)
    requires forall k :: 0 <= k < |a| ==> a[k] >= 0.0 && b[k] >= 0.0
    ensures Statistic(a, b, t) >= 0.0
  {
    DenominatorNonNegative(a, b, t);
    NonNegativeRatio(Size(a, b), Trend(a, b, t), Denominator(a, b, t));
  }

  lemma DenominatorNonNegative(a: seq<real>, b: seq<real>, t: seq<real>)
    requires Defined(a, b, t)
    requires forall k :: 0 <= k < |a| ==> a[k] >= 0.0 && b[k] >= 0.0
    ensures Size(a, b) >= 0.0 && Denominator(a, b, t) >= 0.0
  {
    SumNonNegative(a);
    SumNonNegative(b);
    SpreadNonNegative(a, b, t);
    NonNegativeProduct(Sum(a), Sum(b), Spread(a, b, t));
  }

  // Facts of real arithmetic the proofs above use, each on plain numbers.

  lemma Commute(x: real, y: real)
    ensures x * y == y * x
  {
  }

  lemma DivMul(x: real, n: real)
    requires n != 0.0
    ensures x / n * n == x
  {
  }

  lemma VanishingTerm(alpha: real, z: real, beta: real, y: real)
    requires z == 0.0
    ensures Linear(alpha, z, beta, y) == beta * y
  {
  }

  lemma AffineTerm(w: real, t: real, alpha: real, beta: real)
    ensures w * (alpha + beta * t) == alpha * w + beta * (w * t)
  {
  }

  lemma AffineSquareTerm(w: real, t: real, x: real, p1: real, p2: real, alpha: real, beta: real)
    requires x == alpha + beta * t && p1 == w * t && p2 == w * Square(t)
    ensures w * Square(x) == Linear3(Square(alpha), w, Cross(alpha, beta), p1, Square(beta), p2)
  {
  }

  lemma ConstantTerm(w: real, x: real, c: real)
    requires x == c
    ensures w * x == c * w && w * Square(x) == Square(c) * w
  {
  }

  lemma SwapDeparture(x: real, y: real, t: real, sx: real, sy: real)
    requires sx + sy != 0.0
    ensures (y - sy / (sy + sx) * (y + x)) * t == -1.0 * ((x - sx / (sx + sy) * (x + y)) * t)
  {
    var n := sx + sy;
    var u, v := sy / n, sx / n;
    assert u * n == sy;
    assert v * n == sx;
    assert (u + v) * n == u * n + v * n;
    assert (u + v - 1.0) * n == u * n + v * n - n;
    ZeroProduct(u + v - 1.0, n);
    assert sy / (sy + sx) == u;
    assert y - u * (y + x) == -1.0 * (x - v * (x + y));
  }

  lemma ZeroProduct(x: real, n: real)
    requires n != 0.0 && x * n == 0.0
    ensures x == 0.0
  {
  }

  lemma RatioOfNegation(n: real, d: real, q: real)
    requires q != 0.0
    ensures Ratio(n, -d, q) == Ratio(n, d, q)
  {
    assert Square(-d) == Square(d);
  }

  lemma AffineDiscriminant(n: real, s1: real, s2: real, alpha: real, beta: real)
    ensures Discriminant(n, Linear(alpha, n, beta, s1), SquareCombination(alpha, beta, n, s1, s2))
         == SquareScaled(beta, Discriminant(n, s1, s2))
  {
  }

  lemma ScaledFactor(x: real, y: real, z: real, z': real, c: real)
    requires z' == SquareScaled(c, z)
    ensures Product3(x, y, z') == SquareScaled(c, Product3(x, y, z))
  {
  }

  lemma ScaledRatio(n: real, d: real, d': real, q: real, q': real, beta: real)
    requires beta != 0.0 && d' == beta * d && q' == SquareScaled(beta, q)
    ensures q' != 0.0 <==> q != 0.0
    ensures q != 0.0 ==> Ratio(n, d', q') == Ratio(n, d, q)
  {
    NonZeroScale(beta, q);
    if q != 0.0 {
      RatioScale(n, d, q, beta);
    }
  }

  lemma RatioScale(n: real, d: real, q: real, c: real)
    requires q != 0.0 && c != 0.0
    ensures SquareScaled(c, q) != 0.0 && Ratio(n, c * d, SquareScaled(c, q)) == Ratio(n, d, q)
  {
    NonZeroScale(c, q);
    var r := Ratio(n, d, q);
    assert r * q == n * n * n * Square(d);
    assert r * SquareScaled(c, q) == n * n * n * Square(c * d);
  }

  lemma NonZeroScale(c: real, q: real)
    requires c != 0.0
    ensures SquareScaled(c, q) != 0.0 <==> q != 0.0
  {
    assert SquareScaled(c, q) == c * (c * q);
    if q != 0.0 {
      assert c * q != 0.0;
      var r := c * q;
      assert c * r != 0.0;
    }
  }

  lemma ConstantDiscriminant(n: real, c: real)
    ensures Discriminant(n, c * n, Square(c) * n) == 0.0
  {
  }

  lemma ZeroFactor(x: real, y: real, z: real)
    requires x == 0.0 || y == 0.0 || z == 0.0
    ensures Product3(x, y, z) == 0.0
  {
  }

  lemma NonNegativeSquare(w: real, x: real)
    requires w >= 0.0
    ensures w * Square(x) >= 0.0
  {
  }

  lemma VarianceAlgebra(n: real, s1: real, s2: real, mu: real, v: real)
    requires n > 0.0 && mu * n == s1 && v >= 0.0
    requires v == SquareCombination(-mu, 1.0, n, s1, s2)
    ensures Discriminant(n, s1, s2) >= 0.0
  {
    assert v == s2 - mu * s1;
    assert n * v == n * s2 - Square(s1);
  }

  lemma NonNegativeProduct(x: real, y: real, z: real)
    requires x >= 0.0 && y >= 0.0 && z >= 0.0
    ensures Product3(x, y, z) >= 0.0
  {
  }

  lemma NonNegativeRatio(n: real, d: real, q: real)
    requires n >= 0.0 && q >= 0.0 && q != 0.0
    ensures Ratio(n, d, q) >= 0.0
  {
  }
}
