/** The matrix builtins: determinant and inverse over scratch grids, products column by column. */
module MatrixKernels {
  import opened Determinant

  /** A matrix value: its columns. */
  type Columns = seq<seq<real>>

  const REALS := Product((a: real, b: real) => a * b)

  lemma RealsLawful()
    ensures Lawful(REALS)
  {
    forall a, b, c ensures Distributes(REALS, a, b, c) {}
    forall a, b, c ensures Associates(REALS, a, b, c) {}
  }

  predicate Shaped(m: Columns, cols: nat, rows: nat) {
    |m| == cols && forall c | 0 <= c < cols :: |m[c]| == rows
  }

  /** A scratch grid as rows. */
  function Rows(g: array2<real>): (m: Grid)
    requires g.Length0 == g.Length1
    reads g
    ensures Square(m, g.Length0)
    ensures forall i, j | 0 <= i < g.Length0 && 0 <= j < g.Length0 :: m[i][j] == g[i, j]
  {
    seq(g.Length0, i requires 0 <= i < g.Length0 && g.Length0 == g.Length1 reads g =>
      seq(g.Length0, j requires 0 <= j < g.Length0 && 0 <= i < g.Length0 && g.Length0 == g.Length1 reads g => g[i, j]))
  }

  /** The grid without one row and one column, filled with running indices. */
  method SubGrid(g: array2<real>, row: nat, col: nat) returns (sub: array2<real>)
    requires g.Length0 == g.Length1 && row < g.Length0 && col < g.Length0
    ensures fresh(sub) && sub.Length0 == sub.Length1 == g.Length0 - 1
    ensures Rows(sub) == Minor(Rows(g), row, col)
  {
    var n := g.Length0;
    sub := new real[n - 1, n - 1];
    var ri := 0;
    for i := 0 to n
      invariant ri == if i <= row then i else i - 1
      invariant forall a, b | 0 <= a < ri && 0 <= b < n - 1 :: sub[a, b] == g[Skip(row, a), Skip(col, b)]
    {
      if i != row {
        var rj := 0;
        for j := 0 to n
          invariant rj == if j <= col then j else j - 1
          invariant forall a, b | 0 <= a < ri && 0 <= b < n - 1 :: sub[a, b] == g[Skip(row, a), Skip(col, b)]
          invariant forall b | 0 <= b < rj :: sub[ri, b] == g[i, Skip(col, b)]
        {
          if j != col {
            sub[ri, rj] := g[i, j];
            rj := rj + 1;
          }
        }
        ri := ri + 1;
      }
    }
    var a, b := Rows(sub), Minor(Rows(g), row, col);
    forall i | 0 <= i < n - 1 ensures a[i] == b[i] {
      forall j | 0 <= j < n - 1 ensures a[i][j] == b[i][j] {}
    }
  }

  /** mbDetGrid. */
  method DetGrid(g: array2<real>) returns (acc: real)
    requires g.Length0 == g.Length1 && g.Length0 > 0
    ensures acc == Det(REALS, Rows(g))
    decreases g.Length0, 1
  {
    RealsLawful();
    if g.Length0 == 1 {
      One(REALS, Rows(g));
      return g[0, 0];
    }
    if g.Length0 == 2 {
      Two(REALS, Rows(g));
      return g[0, 0] * g[1, 1] - g[0, 1] * g[1, 0];
    }
    acc := 0.0;
    for j := 0 to g.Length0
      invariant acc == Sum(j, FirstRow(REALS, Rows(g)))
    {
      var term := LaplaceTerm(g, j);
      acc := if j % 2 == 1 then acc - term else acc + term;
    }
  }

  method LaplaceTerm(g: array2<real>, j: nat) returns (term: real)
    requires g.Length0 == g.Length1 && j < g.Length0 && g.Length0 > 1
    ensures FirstRow(REALS, Rows(g))(j) == Signed(Odd(j), term)
    decreases g.Length0, 0
  {
    var sub := SubGrid(g, 0, j);
    var minor := DetGrid(sub);
    assert Rows(g)[0][j] == g[0, j];
    term := REALS.mul(g[0, j], minor);
  }

  /** mbGrid. */
  method GridOf(m: Columns) returns (g: array2<real>)
    requires Shaped(m, |m|, |m|)
    ensures fresh(g) && g.Length0 == g.Length1 == |m|
    ensures forall r, c | 0 <= r < |m| && 0 <= c < |m| :: g[r, c] == m[c][r]
  {
    var n := |m|;
    g := new real[n, n];
    for c := 0 to n
      invariant forall i, j | 0 <= i < n && 0 <= j < c :: g[i, j] == m[j][i]
    {
      for r := 0 to n
        invariant forall i, j | 0 <= i < n && 0 <= j < c :: g[i, j] == m[j][i]
        invariant forall i | 0 <= i < r :: g[i, c] == m[c][i]
      {
        g[r, c] := m[c][r];
      }
    }
  }

  /** The rows of a matrix. */
  function GridView(m: Columns): (g: Grid)
    requires Shaped(m, |m|, |m|)
    ensures Square(g, |m|) && forall r, c | 0 <= r < |m| && 0 <= c < |m| :: g[r][c] == m[c][r]
  {
    Transpose(m)
  }

  /** Column `c`, row `r` of the result is a cofactor of row `c` and column `r`, times `t`. */
  ghost predicate IsAdjugate(p: Product, g: Grid, out: Columns, t: real)
    requires Square(g, |g|)
  {
    && Shaped(out, |g|, |g|)
    && forall c, r | 0 <= c < |g| && 0 <= r < |g| :: out[c][r] == p.mul(Cofactor(p, g, c, r), t)
  }

  /** mbInverse. */
  method Inverse(m: Columns) returns (out: Columns)
    requires Shaped(m, |m|, |m|) && |m| > 1 && Det(REALS, GridView(m)) != 0.0
    ensures IsAdjugate(REALS, GridView(m), out, 1.0 / Det(REALS, GridView(m)))
  {
    var g := GridOf(m);
    ghost var v := GridView(m);
    assert Rows(g) == v by { forall i | 0 <= i < |m| ensures Rows(g)[i] == v[i] {} }
    var det := DetGrid(g);
    out := Adjugate(g, 1.0 / det);
  }

  method Adjugate(g: array2<real>, invDet: real) returns (out: Columns)
    requires g.Length0 == g.Length1 && g.Length0 > 1
    ensures IsAdjugate(REALS, Rows(g), out, invDet)
  {
    var n := g.Length0;
    ghost var v := Rows(g);
    out := [];
    for c := 0 to n
      invariant Rows(g) == v && Shaped(out, c, n)
      invariant forall a, r | 0 <= a < c && 0 <= r < n :: out[a][r] == REALS.mul(Cofactor(REALS, v, a, r), invDet)
    {
      var col := [];
      for r := 0 to n
        invariant Rows(g) == v && |col| == r
        invariant forall i | 0 <= i < r :: col[i] == REALS.mul(Cofactor(REALS, v, c, i), invDet)
      {
        var cof := SignedMinor(g, c, r, v);
        col := col + [REALS.mul(cof, invDet)];
      }
      out := out + [col];
    }
  }

  method SignedMinor(g: array2<real>, c: nat, r: nat, ghost v: Grid) returns (cof: real)
    requires g.Length0 == g.Length1 && g.Length0 > 1 && c < g.Length0 && r < g.Length0 && v == Rows(g)
    ensures cof == Cofactor(REALS, v, c, r)
  {
    var sub := SubGrid(g, c, r);
    cof := DetGrid(sub);
    SumParity(c, r);
    if (c + r) % 2 == 1 { cof := -cof; }
  }

  lemma SumParity(c: nat, r: nat)
    ensures (c + r) % 2 == 1 <==> Odd(c) != Odd(r)
  {
  }

  // ---- products ----

  /** The terms of entry `r` of matrix times vector. */
  function Dot(p: Product, m: Columns, v: seq<real>, r: nat): int -> real
    requires |v| == |m| && forall c | 0 <= c < |m| :: r < |m[c]|
  {
    c => if 0 <= c < |m| then p.mul(m[c][r], v[c]) else 0.0
  }

  /** matTimesVec: the columns, scaled and accumulated. */
  method MatTimesVec(m: Columns, v: seq<real>, rows: nat) returns (acc: seq<real>)
    requires Shaped(m, |m|, rows) && |v| == |m|
    ensures |acc| == rows && forall r | 0 <= r < rows :: acc[r] == Sum(|m|, Dot(REALS, m, v, r))
  {
    acc := seq(rows, _ => 0.0);
    for c := 0 to |m|
      invariant |acc| == rows && forall r | 0 <= r < rows :: acc[r] == Sum(c, Dot(REALS, m, v, r))
    {
      acc := seq(rows, r requires 0 <= r < rows && |acc| == rows => acc[r] + REALS.mul(m[c][r], v[c]));
    }
  }

  /** matTimesMat: column `k` of the result is `m` times column `k`. */
  method MatTimesMat(m: Columns, n: Columns, rows: nat) returns (res: Columns)
    requires Shaped(m, |m|, rows) && Shaped(n, |n|, |m|)
    ensures IsProduct(REALS, m, n, rows, res)
  {
    res := [];
    for k := 0 to |n|
      invariant Shaped(res, k, rows)
      invariant forall j, r | 0 <= j < k && 0 <= r < rows :: res[j][r] == Sum(|m|, Dot(REALS, m, n[j], r))
    {
      var col := MatTimesVec(m, n[k], rows);
      res := res + [col];
    }
  }

  ghost predicate IsProduct(p: Product, m: Columns, n: Columns, rows: nat, res: Columns)
    requires Shaped(m, |m|, rows) && Shaped(n, |n|, |m|)
  {
    Shaped(res, |n|, rows)
    && forall k, r | 0 <= k < |n| && 0 <= r < rows :: res[k][r] == Sum(|m|, Dot(p, m, n[k], r))
  }

  function Identity(n: nat): Columns {
    seq(n, c => seq(n, r => if r == c then 1.0 else 0.0))
  }

  // ---- the inverse is an inverse ----

  lemma Reciprocal(d: real)
    requires d != 0.0
    ensures REALS.mul(1.0 / d, d) == 1.0
  {
  }

  lemma RightEntry(p: Product, m: Columns, inv: Columns, t: real, r: nat, k: nat)
    requires Lawful(p) && Shaped(m, |m|, |m|) && IsAdjugate(p, GridView(m), inv, t) && r < |m| && k < |m|
    ensures Sum(|m|, Dot(p, m, inv[k], r)) == p.mul(t, if r == k then Det(p, GridView(m)) else 0.0)
  {
    RowAgainstCofactors(p, GridView(m), r, k, t, Dot(p, m, inv[k], r));
  }

  lemma LeftEntry(p: Product, m: Columns, inv: Columns, t: real, r: nat, k: nat)
    requires Lawful(p) && Shaped(m, |m|, |m|) && IsAdjugate(p, GridView(m), inv, t) && r < |m| && k < |m|
    ensures Sum(|m|, Dot(p, inv, m[k], r)) == p.mul(t, if k == r then Det(p, GridView(m)) else 0.0)
  {
    ColumnAgainstCofactors(p, GridView(m), r, k, t, Dot(p, inv, m[k], r));
  }

  /** For every size, the adjugate scaled by the reciprocal of the determinant is the inverse on both sides. */
  lemma InverseOnBothSides(p: Product, m: Columns, inv: Columns, t: real, left: Columns, right: Columns)
    requires Lawful(p) && Shaped(m, |m|, |m|) && IsAdjugate(p, GridView(m), inv, t)
    requires p.mul(t, Det(p, GridView(m))) == 1.0
    requires IsProduct(p, inv, m, |m|, left) && IsProduct(p, m, inv, |m|, right)
    ensures left == Identity(|m|) && right == Identity(|m|)
  {
    TimesZero(p, t);
    forall k | 0 <= k < |m| ensures left[k] == Identity(|m|)[k] && right[k] == Identity(|m|)[k] {
      forall r | 0 <= r < |m| ensures left[k][r] == Identity(|m|)[k][r] && right[k][r] == Identity(|m|)[k][r] {
        RightEntry(p, m, inv, t, r, k);
        LeftEntry(p, m, inv, t, r, k);
      }
    }
  }

  /** The code's own inverse, multiplied by the code's own product, on either side. */
  method InverseTimesMatrix(m: Columns) returns (left: Columns, right: Columns)
    requires Shaped(m, |m|, |m|) && |m| > 1 && Det(REALS, GridView(m)) != 0.0
    ensures left == Identity(|m|) && right == Identity(|m|)
  {
    var inv := Inverse(m);
    left := MatTimesMat(inv, m, |m|);
    right := MatTimesMat(m, inv, |m|);
    RealsLawful();
    Reciprocal(Det(REALS, GridView(m)));
    InverseOnBothSides(REALS, m, inv, 1.0 / Det(REALS, GridView(m)), left, right);
  }
}
