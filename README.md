# Cochran-Armitage trend test on a contingency table

This project models `chisquare_trend_contingency`, the one function of the
`statisticsTest` package. It applies the Cochran-Armitage chi-square test
for trend. The input is a contingency table whose evaluated variable has
two levels along one axis, plus a score for each category along the other
axis. The function:

- checks its inputs;
- picks the axis that holds the two-level variable;
- builds the table of expected counts from the margins;
- warns when an expected count is below 5;
- computes the trend statistic, which has one degree of freedom.

The model is pure: Dafny functions over exact `real` numbers, with lemmas
about them. There are three modules.

- `Arrays` (`arrays.dfy`): the NumPy operations the function is written
  with. These are:
  - sums and element-wise arithmetic on 1-D arrays;
  - the `reduce(mul, ...)` fold;
  - a 2-D `Table` that carries its shape, with its axis sums
    (`a.sum(axis = k)`), its grand total and its slices
    (`np.take(a, index, axis)`).
- `CochranArmitage` (`cochran_armitage.dfy`): the statistic in its textbook
  form, written over the two levels' count vectors `a` and `b` and the
  scores `t`:
  `n^3 * (sum_k (a[k] - n1/n * N[k]) * t[k])^2 / (n1 * n2 * (n * sum_k N[k] t[k]^2 - (sum_k N[k] t[k])^2))`.
  The statistic's own properties are proved here:
  - exchanging the levels does not change it;
  - affine rescaling of the scores does not change it;
  - constant scores or an empty level leave it undefined;
  - it is not negative.
- `StatisticsTest` (`statistics_test.dfy`): the function as written.
  - `Validate` is the input checks and `ResolveAxis` the choice of axis.
  - `Expected` is the expected table and `Warn` the advisory.
  - `Statistic` is the statistic computed from the table exactly as the
    source does it, through axis sums, `np.take` slices and the product of
    the other axis' sums.
  - `ChiSquareTrend` chains them and returns `Result<TrendResult>`. Its
    failures are the function's four exceptions.
  - `StatisticIsClosedForm` proves that the table computation equals the
    textbook statistic of the two slices along the resolved axis.

Three points where the model follows the code rather than the
documentation:

- Line 60 accepts a tendency vector whose length equals *either*
  dimension of the table. The docstring suggests it must match the
  categories. `Validate` does what the code does. The check also lets
  through a length that matches only the two-level axis. NumPy then fails
  to broadcast, unless the other axis has length 1. In that case it
  broadcasts and returns a number: for `[[3], [5]]` with scores `[1, 2]`
  the statistic is 0. The model does not represent that number. Both
  cases are excluded by the precondition `Computable`, through
  `Admissible`, which asks the scores to run along the other axis.
- `type(axis_id) != type(int())` rejects `None`, `bool` values, floats and
  NumPy integers alike. `AxisArg` has `NoAxis`, `IntAxis` and
  `OtherAxis`, and only `IntAxis` passes.
- The function does not check that `n` or the denominator is zero; NumPy
  then returns `inf` or `nan`. The model raises no error for this. It
  requires both to be non-zero instead (`Admissible`, `Defined`).

## Model

| member | source | states |
|---|---|---|
| StatisticsTest.BinaryAxes | statisticsTest/__init__.py:51-52 | the count of length-2 dimensions is 0 exactly when neither dimension is 2, and 2 exactly when both are |
| StatisticsTest.Validate | statisticsTest/__init__.py:51-61 | fails with `NoBinaryAxis` iff no dimension is 2; then with `ScoresNotVector` iff the scores are not 1-D; then with `ScoresLengthMismatch` iff their length is neither dimension; succeeds iff all three checks pass, returning the score vector |
| StatisticsTest.ResolveAxis | statisticsTest/__init__.py:67-76 | with exactly one length-2 dimension, resolves to that dimension's index (0 or 1), whatever `axis` is; otherwise succeeds iff `axis` is an `int` and returns it; the only failure is `AxisNotInt` |
| StatisticsTest.AxisArgumentIgnored | statisticsTest/__init__.py:68-70 | with exactly one length-2 dimension, any two `axis` arguments give the same resolution |
| StatisticsTest.ResolvedAxisIsBinary | statisticsTest/__init__.py:67-76 | after validation, a resolved axis that is 0 or 1 has length 2 |
| StatisticsTest.Expected | statisticsTest/__init__.py:79 | the expected table has the shape of `observed`, and cell `(i, j)` is `rowsum_i / n * colsum_j` |
| StatisticsTest.ExpectedMarginals | statisticsTest/__init__.py:79 | the expected table has the row sums, column sums and grand total of `observed` |
| StatisticsTest.ExpectedRowSums | statisticsTest/__init__.py:79 | each row of the expected table adds up to the observed row total |
| StatisticsTest.ExpectedColSums | statisticsTest/__init__.py:79 | each column of the expected table adds up to the observed column total |
| StatisticsTest.ExpectedColumn | statisticsTest/__init__.py:79 | column `j` of the expected table is the row totals scaled by `colsum_j / n` |
| StatisticsTest.WarnIff | statisticsTest/__init__.py:84-87 | the warning is raised iff some expected cell is below 5 |
| StatisticsTest.NoneBelow | statisticsTest/__init__.py:86 | `(expected < bound).sum()` is zero iff every cell is at least `bound` |
| StatisticsTest.NoneBelowInRow | statisticsTest/__init__.py:86 | the count of cells below `bound` in one row is zero iff none of them is below it |
| StatisticsTest.StatisticIsClosedForm | statisticsTest/__init__.py:90-101 | the two index slices along the resolved axis have the table's total as their size; the source's denominator (`reduce(mul, ...)` times the spread) is `n1 * n2 * Spread`; the statistic is defined iff the textbook one is, and then equal to it |
| StatisticsTest.DenominatorIsClosedForm | statisticsTest/__init__.py:95-99 | the source's denominator equals `n1 * n2 * (n * sum N t^2 - (sum N t)^2)` of the two slices |
| StatisticsTest.Levels | statisticsTest/__init__.py:93-98 | summing along the resolved axis gives the slices' margins `N`; summing along the other axis gives their totals `[n1, n2]`; the grand total is `n1 + n2` |
| StatisticsTest.ExpectedSlice | statisticsTest/__init__.py:93 | `np.take(expected, 0, axis)` is `n1 / n * N` |
| StatisticsTest.TwoRows | statisticsTest/__init__.py:95 | for a table with two rows, the column sums are the sum of the rows, and the row sums and total are those of the two rows |
| StatisticsTest.TwoColumns | statisticsTest/__init__.py:95 | for a table with two columns, the row sums are the sum of the columns, and the column sums and total are those of the two columns |
| StatisticsTest.PairProduct | statisticsTest/__init__.py:95 | `reduce(mul, [x, y]) * z` is `x * y * z` |
| StatisticsTest.StatisticNonNegative | statisticsTest/__init__.py:90-101 | with non-negative counts the table statistic is not negative |
| StatisticsTest.SwapLevels | statisticsTest/__init__.py:93 | exchanging the two levels keeps the shape and exchanges the slices at index 0 and 1 along the resolved axis |
| StatisticsTest.LevelOrderIrrelevant | statisticsTest/__init__.py:90-101 | exchanging the two levels changes neither whether the statistic is defined nor its value |
| StatisticsTest.ChiSquareTrend | statisticsTest/__init__.py:13-101 | each of the four exceptions is raised exactly under its condition, in the source's order; the call succeeds iff validation and axis resolution do; `dof` is 1 |
| StatisticsTest.TrendTestAxis | statisticsTest/__init__.py:67-76 | on success the evaluated axis is 0 or 1 and has length 2, and it is the caller's `axis` or the only length-2 dimension |
| StatisticsTest.TrendTestExpected | statisticsTest/__init__.py:79 | on success `n` is not zero and the returned `expected` is `Expected(observed)`, with the observed row and column sums |
| StatisticsTest.TrendTestWarning | statisticsTest/__init__.py:84-87 | on success the warning flag is set iff some returned expected cell is below 5 |
| StatisticsTest.TrendTestStatistic | statisticsTest/__init__.py:82-101 | on success the statistic is the textbook Cochran-Armitage statistic of the two slices along the evaluated axis, and `dof` is 1 |
| StatisticsTest.Succeeded | statisticsTest/__init__.py:78-101 | a successful result is exactly the statistic, `dof = 1`, the expected table and its warning flag computed from the validated inputs |
| StatisticsTest.Example | statisticsTest/__init__.py:13-101 | on `[[10, 8, 6, 4], [2, 4, 6, 8]]` with scores 1..4 and no `axis`, the result is statistic 48/7, `dof` 1, expected rows of 7s and 5s, and no warning |
| StatisticsTest.ExampleExpected | statisticsTest/__init__.py:79-87 | the example's expected table is rows of 7s and 5s, and no cell is below 5 |
| StatisticsTest.ExampleStatistic | statisticsTest/__init__.py:90-101 | the example's statistic is defined and equals 48/7 |
| StatisticsTest.ExampleTrend | statisticsTest/__init__.py:93 | the example has `n1 = 28`, `n2 = 20`, `n = 48`, and its trend is -10 |
| StatisticsTest.ExampleSpread | statisticsTest/__init__.py:97-98 | the example's spread is 2880 |
| StatisticsTest.ExampleSquareTableNeedsAxis | statisticsTest/__init__.py:71-76 | a 2 x 2 table with no `axis`, or with a non-`int` one, fails with `AxisNotInt` |
| CochranArmitage.Margins | statisticsTest/__init__.py:97 | `N` runs over the same categories as the counts |
| CochranArmitage.ExpectedFirst | statisticsTest/__init__.py:79 | `n1 / n * N` runs over the same categories as the counts |
| CochranArmitage.MarginsTotal | statisticsTest/__init__.py:97 | the margins `N` add up to `n` |
| CochranArmitage.DeparturesCancel | statisticsTest/__init__.py:93 | the departures `a[k] - E[k]` add up to zero |
| CochranArmitage.LevelSwap | statisticsTest/__init__.py:90-101 | exchanging the two levels keeps `n` and the denominator, negates the trend, and leaves definedness and the statistic unchanged |
| CochranArmitage.SwappedTrend | statisticsTest/__init__.py:93 | exchanging the levels negates the trend |
| CochranArmitage.SwappedDenominator | statisticsTest/__init__.py:95-99 | exchanging the levels keeps the denominator |
| CochranArmitage.SwappedDepartures | statisticsTest/__init__.py:93 | the departures of the second level are the negated departures of the first |
| CochranArmitage.AffineScores | statisticsTest/__init__.py:90-101 | scores `alpha + beta * t` with `beta != 0` give the same definedness and the same statistic as `t` |
| CochranArmitage.AffineTrend | statisticsTest/__init__.py:93 | scores `alpha + beta * t` multiply the trend by `beta` |
| CochranArmitage.CenteredAffine | statisticsTest/__init__.py:93 | weights that add up to zero, as the departures `a - E` do, turn scores `alpha + beta * t` into `beta` times the weighted sum of `t` |
| CochranArmitage.AffineSpreadScaled | statisticsTest/__init__.py:97-98 | scores `alpha + beta * t` multiply the spread by `beta^2` |
| CochranArmitage.AffineDenominator | statisticsTest/__init__.py:95-99 | scores `alpha + beta * t` multiply the denominator by `beta^2` |
| CochranArmitage.AffineMoments | statisticsTest/__init__.py:97-98 | the first and second moments of affine scores over `N`, from those of `t` |
| CochranArmitage.SumAffine | statisticsTest/__init__.py:97-98 | a weighted sum of affine scores is `alpha * sum w + beta * sum w t` |
| CochranArmitage.SumAffineSquares | statisticsTest/__init__.py:97 | a weighted sum of squared affine scores expands into `sum w`, `sum w t` and `sum w t^2` |
| CochranArmitage.AffineProducts | statisticsTest/__init__.py:97-98 | element-wise, `w * (alpha + beta * t)` is `alpha * w + beta * (w * t)` |
| CochranArmitage.AffineSquareProducts | statisticsTest/__init__.py:97 | element-wise expansion of `w * (alpha + beta * t)^2` |
| CochranArmitage.Degenerate | statisticsTest/__init__.py:95-99 | with constant scores, or with a level that has no observations, the denominator is zero and so the statistic is undefined |
| CochranArmitage.ConstantSpreadVanishes | statisticsTest/__init__.py:97-98 | constant scores make the spread zero |
| CochranArmitage.ConstantScores | statisticsTest/__init__.py:97-98 | with constant scores `c`, `sum N t = c * n` and `sum N t^2 = c^2 * n` |
| CochranArmitage.ConstantProducts | statisticsTest/__init__.py:97-98 | with constant scores `c`, `w * t` is `c * w` and `w * t^2` is `c^2 * w` |
| CochranArmitage.SpreadNonNegative | statisticsTest/__init__.py:97-98 | with non-negative counts and `n > 0` the spread is not negative: it is `n` times the weighted squared deviation from the mean score |
| CochranArmitage.Deviations | statisticsTest/__init__.py:97-98 | a weighted sum of squared deviations with non-negative weights is not negative |
| CochranArmitage.SumNonNegative | statisticsTest/__init__.py:95 | a sum of non-negative values is not negative, so the level totals `n1`, `n2` that `reduce(mul, ...)` multiplies are not negative |
| CochranArmitage.StatisticNonNegative | statisticsTest/__init__.py:90-101 | with non-negative counts a defined statistic is not negative |
| CochranArmitage.DenominatorNonNegative | statisticsTest/__init__.py:95-99 | with non-negative counts `n` and the denominator are not negative |
| Arrays.SumAdd | statisticsTest/__init__.py:97 | the sum of `u + v` is `sum u + sum v`, so the margins `N = a + b` add up to `n1 + n2` |
| Arrays.SumSub | statisticsTest/__init__.py:93 | the sum of `u - v` is `sum u - sum v` |
| Arrays.SumScale | statisticsTest/__init__.py:79 | the sum of `c * v` is `c * sum v` |
| Arrays.SumLinear | statisticsTest/__init__.py:97-98 | the sum of `p * x + q * y` is `p * sum x + q * sum y` |
| Arrays.SumLinear3 | statisticsTest/__init__.py:97 | the same for three terms |
| Arrays.SumMulCommutes | statisticsTest/__init__.py:93 | `sum(u * v) == sum(v * u)` |
| Arrays.SumOfZeros | statisticsTest/__init__.py:79 | a sum of zeros is zero, so the column sums of a table without rows add up to 0 |
| Arrays.SumPair | statisticsTest/__init__.py:95 | the sum of `[x, y]` is `x + y` |
| Arrays.Column | statisticsTest/__init__.py:93 | a column has one entry per row |
| Arrays.RowSums | statisticsTest/__init__.py:79 | `a.sum(axis = 1)` has one entry per row |
| Arrays.ColSums | statisticsTest/__init__.py:79 | `a.sum(axis = 0)` has one entry per column |
| Arrays.SumAlong | statisticsTest/__init__.py:95-98 | summing along an axis leaves the length of the other axis |
| Arrays.Take | statisticsTest/__init__.py:93 | `np.take(a, index, axis)` has the length of the other axis |
| Arrays.TotalByColumns | statisticsTest/__init__.py:79 | adding the column totals gives the grand total, as adding the row totals does |

## Left out

- The p-value `chi2.sf(chi2_parameter, dof)` (line 104): a SciPy special
  function on floats. The model returns everything else the function
  returns.
- The `np.array` coercion of array-likes (lines 45-46): ragged input,
  tables of more than two dimensions, and non-numeric entries. The model
  takes a rectangular 2-D `Table` and scores that are a 1-D vector or
  flagged as not 1-D (`Scores.NotVector`).
- Floating-point rounding and int64 wrap-around: all arithmetic is exact
  over `real`. With integer counts and integer scores, every product at
  lines 92-98 is int64 arithmetic and can wrap silently:
  - `np.power(n, 3)`;
  - `reduce(mul, observed.sum(axis = 1 - axis_id))`;
  - `n * (N * t^2).sum()` and `np.square((N * t).sum())`;
  - the denominator's final product.

  The denominator wraps first, once `n1 * n2 * Spread` passes about
  `9.2e18`. With balanced levels and scores 1 to 4 that happens at about
  `n = 7 * 10^4`, long before `np.power(n, 3)` wraps at `n >= 2^21`.
- The `warnings.warn` side channel: it is the boolean `warn` in the result.
  The warning cannot affect `stat`, `dof` or `expected`, because each of
  them is computed without it (`StatisticsTest.Succeeded`).
- StatisticsTest.ChiSquareTrend: requires `Computable`. So the following
  are outside the model:
  - an `int` axis outside 0 and 1 on a 2 x 2 table: NumPy raises an
    `AxisError`;
  - a tendency vector whose length matches only the two-level axis: NumPy
    fails to broadcast, unless the other axis has length 1, when it
    broadcasts and returns a number the model does not represent;
  - `n = 0` or a zero denominator: NumPy returns `inf` or `nan`.

  None of these is an exception the function raises itself.
- StatisticsTest.Expected: requires `n != 0`. With `n = 0` NumPy divides by
  zero and fills the table with `nan`.
- StatisticsTest.Statistic and StatisticsTest.Denominator carry no contract
  of their own. `StatisticIsClosedForm` states what they compute.
