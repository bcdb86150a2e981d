/** Exact-arithmetic stand-ins for the NumPy operations the trend test is
    written with: sums and element-wise arithmetic on 1-D arrays, and a 2-D
    table with its axis sums (`a.sum(axis = k)`) and slices
    (`np.take(a, index, axis)`). Counts are `real`, so nothing is rounded. */
module Arrays {

  /** `sum(v)` / `v.sum()` of a 1-D array. */
  function Sum(v: seq<real>): real
  {
    if |v| == 0 then 0.0 else v[0] + Sum(v[1..])
  }

  /** `reduce(mul, v)`: a left fold of `*`; Python raises on an empty sequence. */
  function Product(v: seq<real>): real
    requires |v| > 0
  {
    if |v| == 1 then v[0] else Product(v[..|v| - 1]) * v[|v| - 1]
  }

  /** `u + v` on two arrays of the same length. */
  function Add(u: seq<real>, v: seq<real>): (r: seq<real>)
    requires |u| == |v|
    ensures |r| == |u|
  {
    seq(|u|, k requires 0 <= k < |u| => u[k] + v[k])
  }

  /** `u - v` on two arrays of the same length. */
  function Sub(u: seq<real>, v: seq<real>): (r: seq<real>)
    requires |u| == |v|
    ensures |r| == |u|
  {
    seq(|u|, k requires 0 <= k < |u| => u[k] - v[k])
  }

  /** `u * v`, the element-wise product. */
  function Mul(u: seq<real>, v: seq<real>): (r: seq<real>)
    requires |u| == |v|
    ensures |r| == |u|
  {
    seq(|u|, k requires 0 <= k < |u| => u[k] * v[k])
  }

  /** `c * v` for a scalar `c`. */
  function Scale(c: real, v: seq<real>): (r: seq<real>)
    ensures |r| == |v|
  {
    seq(|v|, k requires 0 <= k < |v| => c * v[k])
  }

  /** `x ** 2`. */
  function Square(x: real): real
  {
    x * x
  }

  /** `np.square(v)`. */
  function Squares(v: seq<real>): (r: seq<real>)
    ensures |r| == |v|
  {
    seq(|v|, k requires 0 <= k < |v| => Square(v[k]))
  }

  lemma {:induction false} SumAdd(u: seq<real>, v: seq<real>)
    requires |u| == |v|
    ensures Sum(Add(u, v)) == Sum(u) + Sum(v)
  {
    if |u| > 0 {
      assert Add(u, v)[1..] == Add(u[1..], v[1..]);
      SumAdd(u[1..], v[1..]);
    }
  }

  lemma {:induction false} SumSub(u: seq<real>, v: seq<real>)
    requires |u| == |v|
    ensures Sum(Sub(u, v)) == Sum(u) - Sum(v)
  {
    if |u| > 0 {
      assert Sub(u, v)[1..] == Sub(u[1..], v[1..]);
      SumSub(u[1..], v[1..]);
    }
  }

  lemma {:induction false} SumScale(c: real, v: seq<real>)
    ensures Sum(Scale(c, v)) == c * Sum(v)
  {
    if |v| > 0 {
      forall k | 0 <= k < |v| - 1 ensures Scale(c, v)[1..][k] == Scale(c, v[1..])[k] {
      }
      assert Scale(c, v)[1..] == Scale(c, v[1..]);
      SumScale(c, v[1..]);
    }
  }

  /** `p * x + q * y`. */
  function Linear(p: real, x: real, q: real, y: real): real
  {
    p * x + q * y
  }

  /** `p * x + q * y + r * z`. */
  function Linear3(p: real, x: real, q: real, y: real, r: real, z: real): real
  {
    p * x + q * y + r * z
  }

  /** Sums of linear combinations of arrays. */
  lemma SumLinear(x: seq<real>, y: seq<real>, p: real, q: real)
    requires |x| == |y|
    ensures Sum(Add(Scale(p, x), Scale(q, y))) == Linear(p, Sum(x), q, Sum(y))
  {
    SumAdd(Scale(p, x), Scale(q, y));
    SumScale(p, x);
    SumScale(q, y);
  }

  lemma SumLinear3(x: seq<real>, y: seq<real>, z: seq<real>, p: real, q: real, r: real)
    requires |x| == |y| == |z|
    ensures Sum(Add(Add(Scale(p, x), Scale(q, y)), Scale(r, z))) == Linear3(p, Sum(x), q, Sum(y), r, Sum(z))
  {
    SumAdd(Add(Scale(p, x), Scale(q, y)), Scale(r, z));
    SumAdd(Scale(p, x), Scale(q, y));
    SumScale(p, x);
    SumScale(q, y);
    SumScale(r, z);
  }

  lemma SumMulCommutes(u: seq<real>, v: seq<real>)
    requires |u| == |v|
    ensures Sum(Mul(u, v)) == Sum(Mul(v, u))
  {
    assert Mul(u, v) == Mul(v, u);
  }

  lemma {:induction false} SumOfZeros(v: seq<real>)
    requires forall k :: 0 <= k < |v| ==> v[k] == 0.0
    ensures Sum(v) == 0.0
  {
    if |v| > 0 {
      SumOfZeros(v[1..]);
    }
  }

  lemma SumPair(x: real, y: real)
    ensures Sum([x, y]) == x + y
  {
    assert [x, y][1..] == [y];
    assert [y][1..] == [];
    assert Sum([y]) == y;
  }

  /** A 2-D array of shape `(rows, cols)`. The shape is kept apart from the
      cells because NumPy keeps it too: a `(0, 3)` array has no rows yet
      three columns. */
  datatype Table = Table(rows: nat, cols: nat, cells: seq<seq<real>>)
  {
    /** The cells form a `rows` by `cols` rectangle. */
    predicate Valid()
    {
      |cells| == rows && forall i :: 0 <= i < rows ==> |cells[i]| == cols
    }

    /** `shape[axis]`. */
    function Dim(axis: int): nat
      requires 0 <= axis <= 1
    {
      if axis == 0 then rows else cols
    }
  }

  /** Column `j` of the table, `a[:, j]`. */
  function Column(m: Table, j: nat): (r: seq<real>)
    requires m.Valid() && j < m.cols
    ensures |r| == m.rows
  {
    seq(m.rows, i requires 0 <= i < m.rows => m.cells[i][j])
  }

  /** `a.sum(axis = 1)`: one total per row. */
  function RowSums(m: Table): (r: seq<real>)
    requires m.Valid()
    ensures |r| == m.rows
  {
    seq(m.rows, i requires 0 <= i < m.rows => Sum(m.cells[i]))
  }

  /** `a.sum(axis = 0)`: one total per column. */
  function ColSums(m: Table): (r: seq<real>)
    requires m.Valid()
    ensures |r| == m.cols
  {
    seq(m.cols, j requires 0 <= j < m.cols => Sum(Column(m, j)))
  }

  /** `a.sum()`: the grand total of all cells, added row by row. */
  function Total(m: Table): real
    requires m.Valid()
  {
    Sum(RowSums(m))
  }

  /** `a.sum(axis = axis)`: summing along an axis removes it, so what is left
      runs along the other axis. */
  function SumAlong(m: Table, axis: int): (r: seq<real>)
    requires m.Valid() && 0 <= axis <= 1
    ensures |r| == m.Dim(1 - axis)
  {
    if axis == 0 then ColSums(m) else RowSums(m)
  }

  /** `np.take(a, index, axis)`: the slice at `index` along `axis`, which runs
      along the other axis. */
  function Take(m: Table, index: nat, axis: int): (r: seq<real>)
    requires m.Valid() && 0 <= axis <= 1 && index < m.Dim(axis)
    ensures |r| == m.Dim(1 - axis)
  {
    if axis == 0 then m.cells[index] else Column(m, index)
  }

  /** The grand total does not depend on the order of summation: adding the
      column totals gives the same number as adding the row totals. */
  lemma {:induction false} TotalByColumns(m: Table)
    requires m.Valid()
    ensures Sum(ColSums(m)) == Total(m)
    decreases m.rows
  {
    if m.rows == 0 {
      SumOfZeros(ColSums(m));
    } else {
      var rest := Table(m.rows - 1, m.cols, m.cells[1..]);
      assert rest.Valid();
      TotalByColumns(rest);
      forall j | 0 <= j < m.cols
        ensures ColSums(m)[j] == m.cells[0][j] + ColSums(rest)[j]
      {
        assert Column(m, j)[1..] == Column(rest, j);
      }
      assert ColSums(m) == Add(m.cells[0], ColSums(rest));
      SumAdd(m.cells[0], ColSums(rest));
      assert RowSums(m)[1..] == RowSums(rest);
    }
  }
}
