/** Determinants by expansion along the first row, and what follows for every other row and column. */
module Determinant {

  /** A grid of rows. */
  type Grid = seq<seq<real>>

  predicate Square(m: Grid, n: nat) {
    |m| == n && forall i | 0 <= i < n :: |m[i]| == n
  }

  // ---- the arithmetic ----

  /** A product of numbers; all that is used of it are the laws below. */
  datatype Product = Product(mul: (real, real) -> real)

  ghost predicate Distributes(r: Product, a: real, b: real, c: real) {
    r.mul(a, b + c) == r.mul(a, b) + r.mul(a, c)
  }

  ghost predicate Associates(r: Product, a: real, b: real, c: real) {
    r.mul(a, r.mul(b, c)) == r.mul(r.mul(a, b), c)
  }

  ghost predicate Commutes(r: Product, a: real, b: real) {
    r.mul(a, b) == r.mul(b, a)
  }

  ghost predicate HasUnit(r: Product, a: real) {
    r.mul(a, 1.0) == a
  }

  ghost predicate Lawful(r: Product) {
    && (forall a, b, c :: Distributes(r, a, b, c)) && (forall a, b, c :: Associates(r, a, b, c))
    && (forall a, b :: Commutes(r, a, b)) && (forall a :: HasUnit(r, a))
  }

  lemma TimesZero(r: Product, a: real)
    requires Lawful(r)
    ensures r.mul(a, 0.0) == 0.0 && r.mul(0.0, a) == 0.0
  {
    assert Distributes(r, a, 0.0, 0.0) && Commutes(r, a, 0.0);
  }

  lemma TimesNeg(r: Product, a: real, b: real)
    requires Lawful(r)
    ensures r.mul(a, -b) == -r.mul(a, b) && r.mul(-a, b) == -r.mul(a, b)
  {
    assert Distributes(r, a, b, -b) && Distributes(r, b, a, -a);
    assert Commutes(r, a, b) && Commutes(r, -a, b);
    TimesZero(r, a);
    TimesZero(r, b);
  }

  predicate Odd(k: int) {
    k % 2 == 1
  }

  /** Even terms are added, odd terms subtracted. */
  function Signed(odd: bool, x: real): real {
    if odd then -x else x
  }

  lemma SignedTimes(r: Product, e: bool, k: bool, x: real, y: real, d: real)
    requires Lawful(r)
    ensures Signed(e, r.mul(x, Signed(k, r.mul(y, d)))) == Signed(e != k, r.mul(r.mul(x, y), d))
  {
    TimesNeg(r, x, r.mul(y, d));
    assert Associates(r, x, y, d);
  }

  // ---- finite sums ----

  function Sum(n: nat, f: int -> real): real {
    if n == 0 then 0.0 else Sum(n - 1, f) + f(n - 1)
  }

  lemma {:induction false} SumSame(n: nat, f: int -> real, g: int -> real)
    requires forall i | 0 <= i < n :: f(i) == g(i)
    ensures Sum(n, f) == Sum(n, g)
  {
    if n > 0 { SumSame(n - 1, f, g); }
  }

  lemma {:induction false} SumScaled(r: Product, n: nat, e: bool, a: real, f: int -> real, g: int -> real)
    requires Lawful(r) && forall i | 0 <= i < n :: g(i) == Signed(e, r.mul(a, f(i)))
    ensures Sum(n, g) == Signed(e, r.mul(a, Sum(n, f)))
  {
    if n == 0 {
      TimesZero(r, a);
    } else {
      SumScaled(r, n - 1, e, a, f, g);
      assert Distributes(r, a, Sum(n - 1, f), f(n - 1));
    }
  }

  lemma {:induction false} SumAdded(n: nat, f: int -> real, g: int -> real, h: int -> real)
    requires forall i | 0 <= i < n :: h(i) == f(i) + g(i)
    ensures Sum(n, h) == Sum(n, f) + Sum(n, g)
  {
    if n > 0 { SumAdded(n - 1, f, g, h); }
  }

  lemma {:induction false} SumZero(n: nat, f: int -> real)
    requires forall i | 0 <= i < n :: f(i) == 0.0
    ensures Sum(n, f) == 0.0
  {
    if n > 0 { SumZero(n - 1, f); }
  }

  /** The sum of the row sums is the sum of the column sums. */
  lemma {:induction false} SumSwap(n: nat, k: nat, f: int -> int -> real, rows: int -> real, cols: int -> real,
                                   column: int -> int -> real)
    requires forall i, j | 0 <= i < n && 0 <= j < k :: f(i)(j) == column(j)(i)
    requires forall i | 0 <= i < n :: rows(i) == Sum(k, f(i))
    requires forall j | 0 <= j < k :: cols(j) == Sum(n, column(j))
    ensures Sum(n, rows) == Sum(k, cols)
  {
    if n == 0 {
      SumZero(k, cols);
    } else {
      var before := (j: int) => Sum(n - 1, column(j));
      SumSwap(n - 1, k, f, rows, before, column);
      SumAdded(k, before, f(n - 1), cols);
    }
  }

  /** The index that comes `c`-th when `j` is left out. */
  function Skip(j: int, c: int): int {
    if c < j then c else c + 1
  }

  /** A sum that leaves out one index. */
  lemma {:induction false} SumSkip(n: nat, j: nat, f: int -> real, g: int -> real)
    requires j < n
    requires forall c | 0 <= c < n - 1 :: g(c) == f(Skip(j, c))
    requires f(j) == 0.0
    ensures Sum(n - 1, g) == Sum(n, f)
  {
    if j == n - 1 {
      SumSame(n - 1, g, f);
    } else {
      SumSkip(n - 1, j, f, g);
    }
  }

  // ---- minors ----

  function Without<T>(s: seq<T>, j: nat): (r: seq<T>)
    requires j < |s|
    ensures |r| == |s| - 1
    ensures forall c | 0 <= c < |r| :: r[c] == s[Skip(j, c)]
  {
    s[..j] + s[j + 1..]
  }

  /** The grid without row `i` and column `j`. */
  function Minor(m: Grid, i: nat, j: nat): (r: Grid)
    requires Square(m, |m|) && i < |m| && j < |m|
    ensures Square(r, |m| - 1)
    ensures forall a, b | 0 <= a < |m| - 1 && 0 <= b < |m| - 1 :: r[a][b] == m[Skip(i, a)][Skip(j, b)]
  {
    var rows := Without(m, i);
    seq(|m| - 1, a requires 0 <= a < |m| - 1 => Without(rows[a], j))
  }

  /** Expansion along the first row. */
  function Det(r: Product, m: Grid): real
    requires Square(m, |m|)
    decreases |m|, 1
  {
    if |m| == 0 then 1.0 else Sum(|m|, FirstRow(r, m))
  }

  function FirstRow(r: Product, m: Grid): int -> real
    requires Square(m, |m|)
    decreases |m|, 0
  {
    j => if 0 <= j < |m| then Signed(Odd(j), r.mul(m[0][j], Det(r, Minor(m, 0, j)))) else 0.0
  }

  /** The terms of the cofactor expansion along row `i`, with the entries of `row` in its place. */
  function RowTerms(r: Product, m: Grid, i: nat, row: seq<real>): int -> real
    requires Square(m, |m|) && i < |m| && |row| == |m|
  {
    j => if 0 <= j < |m| then Signed(Odd(i) != Odd(j), r.mul(row[j], Det(r, Minor(m, i, j)))) else 0.0
  }

  function ColTerms(r: Product, m: Grid, j: nat, col: seq<real>): int -> real
    requires Square(m, |m|) && j < |m| && |col| == |m|
  {
    i => if 0 <= i < |m| then Signed(Odd(i) != Odd(j), r.mul(col[i], Det(r, Minor(m, i, j)))) else 0.0
  }

  // ---- every row gives the same expansion ----

  /** The place of column `k` once the column that comes `c`-th without it is gone. */
  function Place(k: nat, c: nat): nat {
    if c < k then k - 1 else k
  }

  /** Rows 0 and `i` and two columns can be taken out in either order. */
  lemma MinorsCommute(m: Grid, i: nat, k: nat, c: nat)
    requires Square(m, |m|) && 0 < i < |m| && k < |m| && c < |m| - 1
    ensures Minor(Minor(m, i, Skip(k, c)), 0, Place(k, c)) == Minor(Minor(m, 0, k), i - 1, c)
  {
    var a, b := Minor(Minor(m, i, Skip(k, c)), 0, Place(k, c)), Minor(Minor(m, 0, k), i - 1, c);
    forall p | 0 <= p < |a| ensures a[p] == b[p] {
      forall q | 0 <= q < |a| ensures a[p][q] == b[p][q] {
        SkipsCommute(i, k, c, p, q);
        MinorTwice(m, i, Skip(k, c), 0, Place(k, c), p, q);
        MinorTwice(m, 0, k, i - 1, c, p, q);
      }
    }
  }

  lemma SkipsCommute(i: nat, k: nat, c: nat, p: nat, q: nat)
    requires i > 0
    ensures Skip(i, Skip(0, p)) == Skip(0, Skip(i - 1, p))
    ensures Skip(Skip(k, c), Skip(Place(k, c), q)) == Skip(k, Skip(c, q))
  {
  }

  lemma MinorTwice(m: Grid, i: nat, j: nat, i': nat, j': nat, r: nat, c: nat)
    requires Square(m, |m|) && i < |m| && j < |m| && i' < |m| - 1 && j' < |m| - 1 && r < |m| - 2 && c < |m| - 2
    ensures Minor(Minor(m, i, j), i', j')[r][c] == m[Skip(i, Skip(i', r))][Skip(j, Skip(j', c))]
  {
    var s := Minor(m, i, j);
    assert Minor(s, i', j')[r][c] == s[Skip(i', r)][Skip(j', c)];
  }

  /** The term of the double expansion along rows `i` and 0 that takes column `j` in row `i` and `k` in row 0. */
  function PairTerm(r: Product, m: Grid, i: nat, j: int, k: int): real
    requires Square(m, |m|) && 0 < i < |m|
  {
    if 0 <= j < |m| && 0 <= k < |m| && j != k then
      var k' := if k < j then k else k - 1;
      Signed((Odd(i) != Odd(j)) != Odd(k'), r.mul(r.mul(m[i][j], m[0][k]), Det(r, Minor(Minor(m, i, j), 0, k'))))
    else 0.0
  }

  /** `f` is zero at `j`, and elsewhere the signed multiples by `x` of what `first` gives in turn. */
  ghost predicate Spread(r: Product, n: nat, j: nat, e: bool, x: real, first: int -> real, f: int -> real) {
    j < n && f(j) == 0.0 && forall c | 0 <= c < n - 1 :: f(Skip(j, c)) == Signed(e, r.mul(x, first(c)))
  }

  /** A signed multiple of a sum, over all indices but one. */
  lemma SpreadSum(r: Product, n: nat, j: nat, e: bool, x: real, first: int -> real, f: int -> real)
    requires Lawful(r) && Spread(r, n, j, e, x, first, f)
    ensures Signed(e, r.mul(x, Sum(n - 1, first))) == Sum(n, f)
  {
    var g := (c: int) => f(Skip(j, c));
    SumScaled(r, n - 1, e, x, first, g);
    SumSkip(n, j, f, g);
  }

  /** The same for a determinant that is the sum of its terms. */
  lemma SpreadDet(r: Product, n: nat, j: nat, e: bool, x: real, d: real, first: int -> real, f: int -> real)
    requires Lawful(r) && Spread(r, n, j, e, x, first, f) && d == Sum(n - 1, first)
    ensures Signed(e, r.mul(x, d)) == Sum(n, f)
  {
    SpreadSum(r, n, j, e, x, first, f);
  }

  /** Expanding a minor of row `i` along its first row. */
  lemma RowThenFirst(r: Product, m: Grid, i: nat, j: nat, f: int -> real)
    requires Lawful(r) && Square(m, |m|) && 0 < i < |m| && j < |m|
    requires Spread(r, |m|, j, Odd(i) != Odd(j), m[i][j], FirstRow(r, Minor(m, i, j)), f)
    ensures Signed(Odd(i) != Odd(j), r.mul(m[i][j], Det(r, Minor(m, i, j)))) == Sum(|m|, f)
  {
    var s := Minor(m, i, j);
    DetIsFirstRow(r, s);
    SpreadDet(r, |m|, j, Odd(i) != Odd(j), m[i][j], Det(r, s), FirstRow(r, s), f);
  }

  lemma DetIsFirstRow(r: Product, m: Grid)
    requires Square(m, |m|) && |m| > 0
    ensures Det(r, m) == Sum(|m|, FirstRow(r, m))
  {
  }

  lemma RowSpread(r: Product, m: Grid, i: nat, j: nat, f: int -> real)
    requires Lawful(r) && Square(m, |m|) && 0 < i < |m| && j < |m|
    requires forall k | 0 <= k < |m| :: f(k) == PairTerm(r, m, i, j, k)
    ensures Spread(r, |m|, j, Odd(i) != Odd(j), m[i][j], FirstRow(r, Minor(m, i, j)), f)
  {
    var first := FirstRow(r, Minor(m, i, j));
    forall c | 0 <= c < |m| - 1 ensures f(Skip(j, c)) == Signed(Odd(i) != Odd(j), r.mul(m[i][j], first(c))) {
      PairTermAt(r, m, i, j, c);
    }
  }

  lemma PairTermAt(r: Product, m: Grid, i: nat, j: nat, c: nat)
    requires Lawful(r) && Square(m, |m|) && 0 < i < |m| && j < |m| && c < |m| - 1
    ensures PairTerm(r, m, i, j, Skip(j, c)) == Signed(Odd(i) != Odd(j), r.mul(m[i][j], FirstRow(r, Minor(m, i, j))(c)))
  {
    var s := Minor(m, i, j);
    assert s[0][c] == m[0][Skip(j, c)];
    SignedTimes(r, Odd(i) != Odd(j), Odd(c), m[i][j], s[0][c], Det(r, Minor(s, 0, c)));
  }

  lemma FirstTermAt(r: Product, m: Grid, i: nat, k: nat, c: nat)
    requires Lawful(r) && Square(m, |m|) && 0 < i < |m| && k < |m| && c < |m| - 1
    ensures
      var s := Minor(m, 0, k);
      PairTerm(r, m, i, Skip(k, c), k) == Signed(Odd(k), r.mul(m[0][k], RowTerms(r, s, i - 1, s[i - 1])(c)))
  {
    var x, y, d := m[0][k], m[i][Skip(k, c)], Det(r, Minor(Minor(m, 0, k), i - 1, c));
    RowTermAt(r, m, i, k, c);
    PairTermIs(r, m, i, k, c);
    SignedTimes(r, Odd(k), Odd(i - 1) != Odd(c), x, y, d);
    assert Commutes(r, x, y);
  }

  lemma RowTermAt(r: Product, m: Grid, i: nat, k: nat, c: nat)
    requires Square(m, |m|) && 0 < i < |m| && k < |m| && c < |m| - 1
    ensures
      var s := Minor(m, 0, k);
      RowTerms(r, s, i - 1, s[i - 1])(c)
      == Signed(Odd(i - 1) != Odd(c), r.mul(m[i][Skip(k, c)], Det(r, Minor(s, i - 1, c))))
  {
    var s := Minor(m, 0, k);
    assert s[i - 1][c] == m[i][Skip(k, c)];
  }

  lemma PairTermIs(r: Product, m: Grid, i: nat, k: nat, c: nat)
    requires Square(m, |m|) && 0 < i < |m| && k < |m| && c < |m| - 1
    ensures
      var j := Skip(k, c);
      PairTerm(r, m, i, j, k)
      == Signed(Odd(k) != (Odd(i - 1) != Odd(c)), r.mul(r.mul(m[i][j], m[0][k]), Det(r, Minor(Minor(m, 0, k), i - 1, c))))
  {
    MinorsCommute(m, i, k, c);
    var j, d := Skip(k, c), Det(r, Minor(Minor(m, 0, k), i - 1, c));
    assert PairTerm(r, m, i, j, k) == Signed((Odd(i) != Odd(j)) != Odd(Place(k, c)), r.mul(r.mul(m[i][j], m[0][k]), d));
    OddBefore(i);
    if c < k { OddBefore(k); } else { OddBefore(c + 1); }
  }

  lemma OddBefore(k: int)
    ensures Odd(k - 1) <==> !Odd(k)
  {
  }

  /** Expanding a minor of row 0 along what was row `i`. */
  lemma FirstThenRow(r: Product, m: Grid, i: nat, k: nat, f: int -> real)
    requires Lawful(r) && Square(m, |m|) && 0 < i < |m| && k < |m|
    requires
      var s := Minor(m, 0, k);
      && Spread(r, |m|, k, Odd(k), m[0][k], RowTerms(r, s, i - 1, s[i - 1]), f)
      && Det(r, s) == Sum(|s|, RowTerms(r, s, i - 1, s[i - 1]))
    ensures Signed(Odd(k), r.mul(m[0][k], Det(r, Minor(m, 0, k)))) == Sum(|m|, f)
  {
    var s := Minor(m, 0, k);
    SpreadDet(r, |m|, k, Odd(k), m[0][k], Det(r, s), RowTerms(r, s, i - 1, s[i - 1]), f);
  }

  lemma FirstSpread(r: Product, m: Grid, i: nat, k: nat, f: int -> real)
    requires Lawful(r) && Square(m, |m|) && 0 < i < |m| && k < |m|
    requires forall j | 0 <= j < |m| :: f(j) == PairTerm(r, m, i, j, k)
    ensures
      var s := Minor(m, 0, k);
      Spread(r, |m|, k, Odd(k), m[0][k], RowTerms(r, s, i - 1, s[i - 1]), f)
  {
    var s := Minor(m, 0, k);
    var row := RowTerms(r, s, i - 1, s[i - 1]);
    forall c | 0 <= c < |m| - 1 ensures f(Skip(k, c)) == Signed(Odd(k), r.mul(m[0][k], row(c))) {
      FirstTermAt(r, m, i, k, c);
    }
  }

  /** The cofactor expansion along any row is the determinant. */
  lemma {:induction false} RowExpansion(r: Product, m: Grid, i: nat)
    requires Lawful(r) && Square(m, |m|) && i < |m|
    ensures Sum(|m|, RowTerms(r, m, i, m[i])) == Det(r, m)
    decreases |m|
  {
    if i == 0 {
      assert !Odd(0);
      SumSame(|m|, RowTerms(r, m, 0, m[0]), FirstRow(r, m));
    } else {
      var byRow := (j: int) => (k: int) => PairTerm(r, m, i, j, k);
      var byFirst := (k: int) => (j: int) => PairTerm(r, m, i, j, k);
      forall j | 0 <= j < |m| ensures RowTerms(r, m, i, m[i])(j) == Sum(|m|, byRow(j)) {
        RowSpread(r, m, i, j, byRow(j));
        RowThenFirst(r, m, i, j, byRow(j));
      }
      forall k | 0 <= k < |m| ensures FirstRow(r, m)(k) == Sum(|m|, byFirst(k)) {
        RowExpansion(r, Minor(m, 0, k), i - 1);
        FirstSpread(r, m, i, k, byFirst(k));
        FirstThenRow(r, m, i, k, byFirst(k));
      }
      SumSwap(|m|, |m|, byRow, RowTerms(r, m, i, m[i]), FirstRow(r, m), byFirst);
    }
  }

  // ---- repeated rows ----

  /** Where row `a` goes when row `t` is taken out. */
  function After(t: nat, a: nat): nat
    requires a != t
    ensures After(t, a) >= 0 && Skip(t, After(t, a)) == a
  {
    if a < t then a else a - 1
  }

  /** A grid with a repeated row has determinant zero. */
  lemma {:induction false} RepeatedRow(r: Product, m: Grid, a: nat, b: nat)
    requires Lawful(r) && Square(m, |m|) && a < b < |m| && m[a] == m[b]
    ensures Det(r, m) == 0.0
    decreases |m|
  {
    if |m| == 2 {
      RepeatedPair(r, m);
    } else {
      var t: nat := if a != 0 then 0 else if b != 1 then 1 else 2;
      var terms := RowTerms(r, m, t, m[t]);
      forall j | 0 <= j < |m| ensures terms(j) == 0.0 {
        var s := Minor(m, t, j);
        assert s[After(t, a)] == s[After(t, b)];
        RepeatedRow(r, s, After(t, a), After(t, b));
        TimesZero(r, m[t][j]);
      }
      RowExpansion(r, m, t);
      SumZero(|m|, terms);
    }
  }

  lemma One(r: Product, m: Grid)
    requires Lawful(r) && Square(m, 1)
    ensures Det(r, m) == m[0][0]
  {
    assert HasUnit(r, m[0][0]) && !Odd(0);
    assert Det(r, Minor(m, 0, 0)) == 1.0;
    assert Sum(1, FirstRow(r, m)) == Sum(0, FirstRow(r, m)) + FirstRow(r, m)(0);
  }

  /** The case of two rows, which the recursion ends on. */
  lemma Two(r: Product, m: Grid)
    requires Lawful(r) && Square(m, 2)
    ensures Det(r, m) == r.mul(m[0][0], m[1][1]) - r.mul(m[0][1], m[1][0])
  {
    One(r, Minor(m, 0, 0));
    One(r, Minor(m, 0, 1));
    assert Odd(1) && !Odd(0);
    var f := FirstRow(r, m);
    assert Sum(2, f) == Sum(1, f) + f(1) && Sum(1, f) == Sum(0, f) + f(0);
  }

  lemma RepeatedPair(r: Product, m: Grid)
    requires Lawful(r) && Square(m, 2) && m[0] == m[1]
    ensures Det(r, m) == 0.0
  {
    Two(r, m);
    assert Commutes(r, m[0][0], m[0][1]);
  }

  /** Expanding along row `k` with the entries of another row gives zero. */
  lemma ForeignRow(r: Product, m: Grid, k: nat, i: nat)
    requires Lawful(r) && Square(m, |m|) && k < |m| && i < |m| && i != k
    ensures Sum(|m|, RowTerms(r, m, k, m[i])) == 0.0
  {
    var z := m[k := m[i]];
    forall j | 0 <= j < |m| ensures RowTerms(r, m, k, m[i])(j) == RowTerms(r, z, k, z[k])(j) {
      assert Minor(z, k, j) == Minor(m, k, j);
    }
    SumSame(|m|, RowTerms(r, m, k, m[i]), RowTerms(r, z, k, z[k]));
    RowExpansion(r, z, k);
    if i < k { RepeatedRow(r, z, i, k); } else { RepeatedRow(r, z, k, i); }
  }

  // ---- columns ----

  function Column(m: Grid, j: nat): (c: seq<real>)
    requires Square(m, |m|) && j < |m|
    ensures |c| == |m| && forall i | 0 <= i < |m| :: c[i] == m[i][j]
  {
    seq(|m|, i requires 0 <= i < |m| => m[i][j])
  }

  function Transpose(m: Grid): (t: Grid)
    requires Square(m, |m|)
    ensures Square(t, |m|) && forall i, j | 0 <= i < |m| && 0 <= j < |m| :: t[i][j] == m[j][i]
  {
    seq(|m|, j requires 0 <= j < |m| => Column(m, j))
  }

  lemma MinorOfTranspose(m: Grid, i: nat, j: nat)
    requires Square(m, |m|) && i < |m| && j < |m|
    ensures Minor(Transpose(m), j, i) == Transpose(Minor(m, i, j))
  {
    var a, b := Minor(Transpose(m), j, i), Transpose(Minor(m, i, j));
    forall p | 0 <= p < |a| ensures a[p] == b[p] {
      forall q | 0 <= q < |a| ensures a[p][q] == b[p][q] {
        assert b[p][q] == Minor(m, i, j)[q][p];
      }
    }
  }

  /** Row `i` and column `j` taken out together with the first column and the first row. */
  function CrossTerm(r: Product, m: Grid, i: int, j: int): real
    requires Square(m, |m|)
  {
    if 0 < i < |m| && 0 < j < |m| then
      Signed(Odd(i) != Odd(j - 1), r.mul(r.mul(m[i][0], m[0][j]), Det(r, Minor(Minor(m, i, 0), 0, j - 1))))
    else 0.0
  }

  lemma ColumnThenFirst(r: Product, m: Grid, i: nat, f: int -> real)
    requires Lawful(r) && Square(m, |m|) && 0 < i < |m|
    requires forall j | 0 <= j < |m| :: f(j) == CrossTerm(r, m, i, j)
    ensures ColTerms(r, m, 0, Column(m, 0))(i) == Sum(|m|, f)
  {
    var first := FirstRow(r, Minor(m, i, 0));
    forall c | 0 <= c < |m| - 1 ensures f(Skip(0, c)) == Signed(Odd(i), r.mul(m[i][0], first(c))) {
      CrossTermByRow(r, m, i, c);
    }
    SpreadSum(r, |m|, 0, Odd(i), m[i][0], first, f);
    FirstColumnTerm(r, m, i);
  }

  lemma FirstColumnTerm(r: Product, m: Grid, i: nat)
    requires Square(m, |m|) && i < |m|
    ensures ColTerms(r, m, 0, Column(m, 0))(i) == Signed(Odd(i), r.mul(m[i][0], Det(r, Minor(m, i, 0))))
  {
    assert !Odd(0) && Column(m, 0)[i] == m[i][0];
  }

  lemma CrossTermByRow(r: Product, m: Grid, i: nat, c: nat)
    requires Lawful(r) && Square(m, |m|) && 0 < i < |m| && c < |m| - 1
    ensures CrossTerm(r, m, i, c + 1) == Signed(Odd(i), r.mul(m[i][0], FirstRow(r, Minor(m, i, 0))(c)))
  {
    var s := Minor(m, i, 0);
    assert s[0][c] == m[0][c + 1];
    SignedTimes(r, Odd(i), Odd(c), m[i][0], s[0][c], Det(r, Minor(s, 0, c)));
  }

  lemma FirstThenColumn(r: Product, m: Grid, j: nat, f: int -> real)
    requires Lawful(r) && Square(m, |m|) && 0 < j < |m|
    requires forall i | 0 <= i < |m| :: f(i) == CrossTerm(r, m, i, j)
    requires
      var s := Minor(m, 0, j);
      Det(r, s) == Sum(|s|, ColTerms(r, s, 0, Column(s, 0)))
    ensures FirstRow(r, m)(j) == Sum(|m|, f)
  {
    var s := Minor(m, 0, j);
    var col := ColTerms(r, s, 0, Column(s, 0));
    forall c | 0 <= c < |m| - 1 ensures f(Skip(0, c)) == Signed(Odd(j), r.mul(m[0][j], col(c))) {
      CrossTermByColumn(r, m, j, c);
    }
    SpreadSum(r, |m|, 0, Odd(j), m[0][j], col, f);
  }

  lemma ColTermAt(r: Product, m: Grid, j: nat, c: nat)
    requires Square(m, |m|) && 0 < j < |m| && c < |m| - 1
    ensures
      var s := Minor(m, 0, j);
      ColTerms(r, s, 0, Column(s, 0))(c) == Signed(Odd(c), r.mul(m[c + 1][0], Det(r, Minor(s, c, 0))))
  {
    assert Column(Minor(m, 0, j), 0)[c] == m[c + 1][0] && !Odd(0);
  }

  lemma CrossTermAt(r: Product, m: Grid, j: nat, c: nat)
    requires Square(m, |m|) && 0 < j < |m| && c < |m| - 1
    ensures
      CrossTerm(r, m, c + 1, j)
      == Signed(Odd(j) != Odd(c), r.mul(r.mul(m[c + 1][0], m[0][j]), Det(r, Minor(Minor(m, 0, j), c, 0))))
  {
    MinorsCommute(m, c + 1, j, 0);
    OddBefore(c + 1);
    OddBefore(j);
  }

  lemma CrossTermByColumn(r: Product, m: Grid, j: nat, c: nat)
    requires Lawful(r) && Square(m, |m|) && 0 < j < |m| && c < |m| - 1
    ensures
      var s := Minor(m, 0, j);
      CrossTerm(r, m, c + 1, j) == Signed(Odd(j), r.mul(m[0][j], ColTerms(r, s, 0, Column(s, 0))(c)))
  {
    var x, y, d := m[0][j], m[c + 1][0], Det(r, Minor(Minor(m, 0, j), c, 0));
    ColTermAt(r, m, j, c);
    CrossTermAt(r, m, j, c);
    SignedTimes(r, Odd(j), Odd(c), x, y, d);
    assert Commutes(r, x, y);
  }

  /** A sum whose term at 0 is set apart. */
  lemma {:induction false} SumApart(n: nat, f: int -> real, g: int -> real)
    requires n > 0 && g(0) == 0.0 && forall i | 0 < i < n :: g(i) == f(i)
    ensures Sum(n, f) == f(0) + Sum(n, g)
  {
    if n > 1 { SumApart(n - 1, f, g); }
  }

  /** Expansion along the first column is the determinant. */
  lemma {:induction false} FirstColumn(r: Product, m: Grid)
    requires Lawful(r) && Square(m, |m|) && |m| > 0
    ensures Sum(|m|, ColTerms(r, m, 0, Column(m, 0))) == Det(r, m)
    decreases |m|
  {
    var n, byCol, byRow := |m|, ColTerms(r, m, 0, Column(m, 0)), FirstRow(r, m);
    var cols, rows := (i: int) => if i == 0 then 0.0 else byCol(i), (j: int) => if j == 0 then 0.0 else byRow(j);
    var cross, crossed := (i: int) => (j: int) => CrossTerm(r, m, i, j), (j: int) => (i: int) => CrossTerm(r, m, i, j);
    forall i | 0 <= i < n ensures cols(i) == Sum(n, cross(i)) {
      if i == 0 { SumZero(n, cross(0)); } else { ColumnThenFirst(r, m, i, cross(i)); }
    }
    forall j | 0 <= j < n ensures rows(j) == Sum(n, crossed(j)) {
      if j == 0 {
        SumZero(n, crossed(0));
      } else {
        FirstColumn(r, Minor(m, 0, j));
        FirstThenColumn(r, m, j, crossed(j));
      }
    }
    SumSwap(n, n, cross, cols, rows, crossed);
    SumApart(n, byCol, cols);
    SumApart(n, byRow, rows);
    assert byCol(0) == byRow(0) by { assert !Odd(0) && Column(m, 0)[0] == m[0][0]; }
  }

  /** A grid and its transpose have the same determinant. */
  lemma {:induction false} DetOfTranspose(r: Product, m: Grid)
    requires Lawful(r) && Square(m, |m|)
    ensures Det(r, Transpose(m)) == Det(r, m)
    decreases |m|
  {
    if |m| > 0 {
      var t := Transpose(m);
      forall i | 0 <= i < |m| ensures FirstRow(r, t)(i) == ColTerms(r, m, 0, Column(m, 0))(i) {
        MinorOfTranspose(m, i, 0);
        DetOfTranspose(r, Minor(m, i, 0));
        assert !Odd(0) && t[0][i] == Column(m, 0)[i];
      }
      SumSame(|m|, FirstRow(r, t), ColTerms(r, m, 0, Column(m, 0)));
      FirstColumn(r, m);
    }
  }

  /** Expansion along column `j` is the determinant with that column's entries, and zero with another's. */
  lemma ColumnExpansion(r: Product, m: Grid, j: nat, l: nat)
    requires Lawful(r) && Square(m, |m|) && j < |m| && l < |m|
    ensures Sum(|m|, ColTerms(r, m, j, Column(m, l))) == if l == j then Det(r, m) else 0.0
  {
    var t := Transpose(m);
    assert t[l] == Column(m, l);
    forall i | 0 <= i < |m| ensures ColTerms(r, m, j, Column(m, l))(i) == RowTerms(r, t, j, t[l])(i) {
      MinorOfTranspose(m, i, j);
      DetOfTranspose(r, Minor(m, i, j));
    }
    SumSame(|m|, ColTerms(r, m, j, Column(m, l)), RowTerms(r, t, j, t[l]));
    DetOfTranspose(r, m);
    if l == j { RowExpansion(r, t, j); } else { ForeignRow(r, t, j, l); }
  }

  // ---- the adjugate ----

  /** The cofactor of row `i` and column `j`. */
  function Cofactor(r: Product, m: Grid, i: nat, j: nat): real
    requires Square(m, |m|) && i < |m| && j < |m|
  {
    Signed(Odd(i) != Odd(j), Det(r, Minor(m, i, j)))
  }

  lemma Rearrange(r: Product, odd: bool, x: real, d: real, t: real)
    requires Lawful(r)
    ensures r.mul(x, r.mul(Signed(odd, d), t)) == r.mul(t, Signed(odd, r.mul(x, d)))
    ensures r.mul(r.mul(Signed(odd, d), t), x) == r.mul(t, Signed(odd, r.mul(x, d)))
  {
    TimesNeg(r, x, d);
    assert Associates(r, x, Signed(odd, d), t) && Commutes(r, r.mul(x, Signed(odd, d)), t);
    assert Commutes(r, x, r.mul(Signed(odd, d), t));
  }

  /** Row `i` against the cofactors of row `k`, each scaled by `t`: the determinant on the diagonal, zero off it. */
  lemma RowAgainstCofactors(r: Product, m: Grid, i: nat, k: nat, t: real, dot: int -> real)
    requires Lawful(r) && Square(m, |m|) && i < |m| && k < |m|
    requires forall c | 0 <= c < |m| :: dot(c) == r.mul(m[i][c], r.mul(Cofactor(r, m, k, c), t))
    ensures Sum(|m|, dot) == r.mul(t, if i == k then Det(r, m) else 0.0)
  {
    var row := RowTerms(r, m, k, m[i]);
    forall c | 0 <= c < |m| ensures dot(c) == r.mul(t, row(c)) {
      Rearrange(r, Odd(k) != Odd(c), m[i][c], Det(r, Minor(m, k, c)), t);
    }
    SumScaled(r, |m|, false, t, row, dot);
    if i == k { RowExpansion(r, m, k); } else { ForeignRow(r, m, k, i); }
  }

  /** Column `l` against the cofactors of column `j`. */
  lemma ColumnAgainstCofactors(r: Product, m: Grid, j: nat, l: nat, t: real, dot: int -> real)
    requires Lawful(r) && Square(m, |m|) && j < |m| && l < |m|
    requires forall c | 0 <= c < |m| :: dot(c) == r.mul(r.mul(Cofactor(r, m, c, j), t), m[c][l])
    ensures Sum(|m|, dot) == r.mul(t, if l == j then Det(r, m) else 0.0)
  {
    var col := ColTerms(r, m, j, Column(m, l));
    forall c | 0 <= c < |m| ensures dot(c) == r.mul(t, col(c)) {
      Rearrange(r, Odd(c) != Odd(j), m[c][l], Det(r, Minor(m, c, j)), t);
    }
    SumScaled(r, |m|, false, t, col, dot);
    ColumnExpansion(r, m, j, l);
  }
}
