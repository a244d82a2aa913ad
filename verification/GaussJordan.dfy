/** Matrix inversion by Gauss-Jordan elimination with partial pivoting (`mat4_invert` in doppler_pos.c), over the reals. */
module GaussJordan {

  type Row = seq<real>
  type Matrix = seq<Row>

  const TINY := 0.000000000000000000000000000001

  ghost predicate Square(m: Matrix, n: nat) { |m| == n && forall i :: 0 <= i < n ==> |m[i]| == n }

  function Unit(i: int, j: int): (x: real) { if i == j then 1.0 else 0.0 }

  function Mul(x: real, y: real): (z: real) { x * y }

  /** Entry `j` of the combination of the first `k` rows of `m` with weights `w`. */
  function Combined(w: Row, m: Matrix, j: nat, k: nat): (x: real)
    requires k <= |w| && k <= |m| && forall i :: 0 <= i < |m| ==> j < |m[i]|
  {
    if k == 0 then 0.0 else Combined(w, m, j, k - 1) + Mul(w[k - 1], m[k - 1][j])
  }

  /** `p` times `m` is `q`. */
  ghost predicate Product(p: Matrix, m: Matrix, q: Matrix, n: nat)
    requires Square(p, n) && Square(m, n) && Square(q, n)
  {
    forall i, j :: 0 <= i < n && 0 <= j < n ==> q[i][j] == Combined(p[i], m, j, n)
  }

  ghost predicate IsUnit(m: Matrix, n: nat)
    requires Square(m, n)
  {
    forall i, j :: 0 <= i < n && 0 <= j < n ==> m[i][j] == Unit(i, j)
  }

  function Identity(n: nat): (m: Matrix)
    ensures Square(m, n) && IsUnit(m, n)
  {
    seq(n, i => seq(n, j => Unit(i, j)))
  }

  // ---------- rows ----------

  function Scaled(r: Row, d: real): (s: Row)
    requires d != 0.0
    ensures |s| == |r|
  {
    seq(|r|, j requires 0 <= j < |r| => r[j] / d)
  }

  function Less(r: Row, f: real, u: Row): (s: Row)
    requires |u| == |r|
    ensures |s| == |r|
  {
    seq(|r|, j requires 0 <= j < |r| => r[j] - Mul(f, u[j]))
  }

  lemma DivTimes(x: real, d: real, y: real)
    requires d != 0.0
    ensures Mul(x / d, y) == Mul(x, y) / d
  {
    var q := x / d;
    assert x == q * d;
    assert x * y == (q * y) * d;
  }

  lemma DivPlus(x: real, y: real, d: real)
    requires d != 0.0
    ensures x / d + y / d == (x + y) / d
  {
  }

  lemma {:induction false} CombinedScaled(w: Row, m: Matrix, j: nat, k: nat, d: real)
    requires k <= |w| && k <= |m| && d != 0.0 && forall i :: 0 <= i < |m| ==> j < |m[i]|
    ensures Combined(Scaled(w, d), m, j, k) == Combined(w, m, j, k) / d
  {
    hide Mul;
    if k > 0 {
      CombinedScaled(w, m, j, k - 1, d);
      DivTimes(w[k - 1], d, m[k - 1][j]);
      DivPlus(Combined(w, m, j, k - 1), Mul(w[k - 1], m[k - 1][j]), d);
    }
  }

  lemma LessTimes(x: real, f: real, u: real, y: real)
    ensures Mul(x - Mul(f, u), y) == Mul(x, y) - Mul(f, Mul(u, y))
  {
  }

  lemma TimesPlus(f: real, x: real, y: real)
    ensures Mul(f, x + y) == Mul(f, x) + Mul(f, y)
  {
  }

  lemma {:induction false} CombinedLess(w: Row, u: Row, m: Matrix, j: nat, k: nat, f: real)
    requires k <= |w| && |u| == |w| && k <= |m| && forall i :: 0 <= i < |m| ==> j < |m[i]|
    ensures Combined(Less(w, f, u), m, j, k) == Combined(w, m, j, k) - Mul(f, Combined(u, m, j, k))
  {
    if k > 0 {
      hide Mul;
      CombinedLess(w, u, m, j, k - 1, f);
      LessTimes(w[k - 1], f, u[k - 1], m[k - 1][j]);
      TimesPlus(f, Combined(u, m, j, k - 1), Mul(u[k - 1], m[k - 1][j]));
    }
  }

  // ---------- row operations ----------

  function Swapped(m: Matrix, p: nat, q: nat): (r: Matrix)
    requires p < |m| && q < |m|
  {
    m[p := m[q]][q := m[p]]
  }

  function RowScaled(m: Matrix, c: nat, d: real): (r: Matrix)
    requires c < |m| && d != 0.0
  {
    m[c := Scaled(m[c], d)]
  }

  /** Row `r` less `f` times row `c`. */
  function RowLess(m: Matrix, r: nat, c: nat, f: real): (s: Matrix)
    requires r < |m| && c < |m| && |m[c]| == |m[r]|
  {
    m[r := Less(m[r], f, m[c])]
  }

  /** A row operation on both factors keeps a product. */
  lemma ProductSwapped(b: Matrix, a0: Matrix, a: Matrix, n: nat, p: nat, q: nat)
    requires Square(b, n) && Square(a0, n) && Square(a, n) && Product(b, a0, a, n) && p < n && q < n
    ensures Square(Swapped(b, p, q), n) && Square(Swapped(a, p, q), n) && Product(Swapped(b, p, q), a0, Swapped(a, p, q), n)
  {
  }

  lemma ProductScaled(b: Matrix, a0: Matrix, a: Matrix, n: nat, c: nat, d: real)
    requires Square(b, n) && Square(a0, n) && Square(a, n) && Product(b, a0, a, n) && c < n && d != 0.0
    ensures Square(RowScaled(b, c, d), n) && Square(RowScaled(a, c, d), n)
    ensures Product(RowScaled(b, c, d), a0, RowScaled(a, c, d), n)
  {
    forall j | 0 <= j < n
      ensures Scaled(a[c], d)[j] == Combined(Scaled(b[c], d), a0, j, n)
    {
      CombinedScaled(b[c], a0, j, n, d);
    }
  }

  lemma ProductLess(b: Matrix, a0: Matrix, a: Matrix, n: nat, r: nat, c: nat, f: real)
    requires Square(b, n) && Square(a0, n) && Square(a, n) && Product(b, a0, a, n) && r < n && c < n
    ensures Square(RowLess(b, r, c, f), n) && Square(RowLess(a, r, c, f), n)
    ensures Product(RowLess(b, r, c, f), a0, RowLess(a, r, c, f), n)
  {
    forall j | 0 <= j < n
      ensures Less(a[r], f, a[c])[j] == Combined(Less(b[r], f, b[c]), a0, j, n)
    {
      CombinedLess(b[r], b[c], a0, j, n, f);
    }
  }

  // ---------- and their inverses on columns ----------

  function WeightsSwapped(w: Row, p: nat, q: nat): (r: Row)
    requires p < |w| && q < |w|
  {
    w[p := w[q]][q := w[p]]
  }

  lemma {:induction false} CombinedSwapped(w: Row, m: Matrix, j: nat, k: nat, p: nat, q: nat)
    requires |w| == |m| && k <= |m| && p < q < |m| && forall i :: 0 <= i < |m| ==> j < |m[i]|
    ensures var x, y := Mul(w[p], m[p][j]), Mul(w[q], m[q][j]);
      Combined(WeightsSwapped(w, p, q), Swapped(m, p, q), j, k) ==
      Combined(w, m, j, k) + (if p < k then y - x else 0.0) + (if q < k then x - y else 0.0)
  {
    hide Mul;
    if k > 0 { CombinedSwapped(w, m, j, k - 1, p, q); }
  }

  function WeightScaled(w: Row, c: nat, d: real): (r: Row)
    requires c < |w|
  {
    w[c := Mul(w[c], d)]
  }

  function WeightMore(w: Row, r: nat, c: nat, f: real): (s: Row)
    requires c < |w| && r < |w|
  {
    w[c := w[c] + Mul(f, w[r])]
  }

  lemma TimesDiv(x: real, d: real, y: real)
    requires d != 0.0
    ensures Mul(Mul(x, d), y / d) == Mul(x, y)
  {
    var q := y / d;
    assert y == q * d;
  }

  lemma {:induction false} CombinedRowScaled(w: Row, m: Matrix, j: nat, k: nat, c: nat, d: real)
    requires |w| == |m| && k <= |m| && c < |m| && d != 0.0 && forall i :: 0 <= i < |m| ==> j < |m[i]|
    ensures Combined(WeightScaled(w, c, d), RowScaled(m, c, d), j, k) == Combined(w, m, j, k)
  {
    hide Mul;
    if k > 0 {
      CombinedRowScaled(w, m, j, k - 1, c, d);
      if k - 1 == c { TimesDiv(w[c], d, m[c][j]); }
    }
  }

  lemma PlusTimes(x: real, f: real, u: real, y: real)
    ensures Mul(x + Mul(f, u), y) == Mul(x, y) + Mul(f, Mul(u, y))
  {
  }

  lemma TimesLess(u: real, x: real, f: real, y: real)
    ensures Mul(u, x - Mul(f, y)) == Mul(u, x) - Mul(f, Mul(u, y))
  {
  }

  lemma {:induction false} CombinedRowLess(w: Row, m: Matrix, j: nat, k: nat, r: nat, c: nat, f: real)
    requires |w| == |m| && k <= |m| && r < |m| && c < |m| && r != c && |m[c]| == |m[r]| && forall i :: 0 <= i < |m| ==> j < |m[i]|
    ensures var x := Mul(f, Mul(w[r], m[c][j]));
      Combined(WeightMore(w, r, c, f), RowLess(m, r, c, f), j, k) ==
      Combined(w, m, j, k) + (if c < k then x else 0.0) - (if r < k then x else 0.0)
  {
    hide Mul;
    if k > 0 {
      CombinedRowLess(w, m, j, k - 1, r, c, f);
      if k - 1 == c {
        PlusTimes(w[c], f, w[r], m[c][j]);
      } else if k - 1 == r {
        TimesLess(w[r], m[r][j], f, m[c][j]);
      }
    }
  }

  // ---------- elimination ----------

  /**
   What elimination has reached: `b` times the original matrix is the current one, and `w` leads back: times the
   current matrix it is the original, times `b` the identity.
   */
  ghost predicate Reached(a0: Matrix, a: Matrix, b: Matrix, w: Matrix, n: nat) {
    && Square(a0, n) && Square(a, n) && Square(b, n) && Square(w, n)
    && Product(b, a0, a, n) && Product(w, a, a0, n) && Product(w, b, Identity(n), n)
  }

  function ColumnsSwapped(w: Matrix, p: nat, q: nat): (r: Matrix)
    requires forall i :: 0 <= i < |w| ==> p < |w[i]| && q < |w[i]|
  {
    seq(|w|, i requires 0 <= i < |w| => WeightsSwapped(w[i], p, q))
  }

  function ColumnScaled(w: Matrix, c: nat, d: real): (r: Matrix)
    requires forall i :: 0 <= i < |w| ==> c < |w[i]|
  {
    seq(|w|, i requires 0 <= i < |w| => WeightScaled(w[i], c, d))
  }

  function ColumnMore(w: Matrix, r: nat, c: nat, f: real): (s: Matrix)
    requires forall i :: 0 <= i < |w| ==> c < |w[i]| && r < |w[i]|
  {
    seq(|w|, i requires 0 <= i < |w| => WeightMore(w[i], r, c, f))
  }

  lemma BackSwapped(w: Matrix, m: Matrix, x: Matrix, n: nat, p: nat, q: nat)
    requires Square(w, n) && Square(m, n) && Square(x, n) && Product(w, m, x, n) && p < q < n
    ensures Square(ColumnsSwapped(w, p, q), n) && Square(Swapped(m, p, q), n)
    ensures Product(ColumnsSwapped(w, p, q), Swapped(m, p, q), x, n)
  {
    forall i, j | 0 <= i < n && 0 <= j < n
      ensures x[i][j] == Combined(ColumnsSwapped(w, p, q)[i], Swapped(m, p, q), j, n)
    {
      CombinedSwapped(w[i], m, j, n, p, q);
    }
  }

  lemma BackScaled(w: Matrix, m: Matrix, x: Matrix, n: nat, c: nat, d: real)
    requires Square(w, n) && Square(m, n) && Square(x, n) && Product(w, m, x, n) && c < n && d != 0.0
    ensures Square(ColumnScaled(w, c, d), n) && Square(RowScaled(m, c, d), n)
    ensures Product(ColumnScaled(w, c, d), RowScaled(m, c, d), x, n)
  {
    forall i, j | 0 <= i < n && 0 <= j < n
      ensures x[i][j] == Combined(ColumnScaled(w, c, d)[i], RowScaled(m, c, d), j, n)
    {
      CombinedRowScaled(w[i], m, j, n, c, d);
    }
  }

  lemma BackLess(w: Matrix, m: Matrix, x: Matrix, n: nat, r: nat, c: nat, f: real)
    requires Square(w, n) && Square(m, n) && Square(x, n) && Product(w, m, x, n) && r < n && c < n && r != c
    ensures Square(ColumnMore(w, r, c, f), n) && Square(RowLess(m, r, c, f), n)
    ensures Product(ColumnMore(w, r, c, f), RowLess(m, r, c, f), x, n)
  {
    forall i, j | 0 <= i < n && 0 <= j < n
      ensures x[i][j] == Combined(ColumnMore(w, r, c, f)[i], RowLess(m, r, c, f), j, n)
    {
      CombinedRowLess(w[i], m, j, n, r, c, f);
    }
  }

  lemma ReachedSwapped(a0: Matrix, a: Matrix, b: Matrix, w: Matrix, n: nat, p: nat, q: nat)
    requires Reached(a0, a, b, w, n) && p < q < n
    ensures Reached(a0, Swapped(a, p, q), Swapped(b, p, q), ColumnsSwapped(w, p, q), n)
  {
    ProductSwapped(b, a0, a, n, p, q);
    BackSwapped(w, a, a0, n, p, q);
    BackSwapped(w, b, Identity(n), n, p, q);
  }

  lemma ReachedScaled(a0: Matrix, a: Matrix, b: Matrix, w: Matrix, n: nat, c: nat, d: real)
    requires Reached(a0, a, b, w, n) && c < n && d != 0.0
    ensures Reached(a0, RowScaled(a, c, d), RowScaled(b, c, d), ColumnScaled(w, c, d), n)
  {
    ProductScaled(b, a0, a, n, c, d);
    BackScaled(w, a, a0, n, c, d);
    BackScaled(w, b, Identity(n), n, c, d);
  }

  lemma ReachedLess(a0: Matrix, a: Matrix, b: Matrix, w: Matrix, n: nat, r: nat, c: nat, f: real)
    requires Reached(a0, a, b, w, n) && r < n && c < n && r != c
    ensures Reached(a0, RowLess(a, r, c, f), RowLess(b, r, c, f), ColumnMore(w, r, c, f), n)
  {
    ProductLess(b, a0, a, n, r, c, f);
    BackLess(w, a, a0, n, r, c, f);
    BackLess(w, b, Identity(n), n, r, c, f);
  }

  // ---------- the identity on the way ----------

  /** The first `c` columns are those of the identity. */
  ghost predicate Cleared(a: Matrix, n: nat, c: nat)
    requires Square(a, n)
  {
    forall i, j :: 0 <= i < n && 0 <= j < c && j < n ==> a[i][j] == Unit(i, j)
  }

  lemma {:induction false} CombinedUnit(m: Matrix, n: nat, i: nat, j: nat, k: nat)
    requires Square(m, n) && IsUnit(m, n) && i < n && j < n && k <= n
    ensures forall w: Row :: |w| == n ==> Combined(w, m, j, k) == if j < k then w[j] else 0.0
  {
    if k > 0 { CombinedUnit(m, n, i, j, k - 1); }
  }

  /** At the end both products are the identity. */
  lemma InverseBothSides(a0: Matrix, a: Matrix, b: Matrix, w: Matrix, n: nat)
    requires Reached(a0, a, b, w, n) && Cleared(a, n, n)
    ensures Product(b, a0, Identity(n), n) && Product(a0, b, Identity(n), n)
  {
    assert IsUnit(a, n);
    forall i, j | 0 <= i < n && 0 <= j < n
      ensures a0[i][j] == w[i][j]
    {
      CombinedUnit(a, n, i, j, n);
      assert Combined(w[i], a, j, n) == w[i][j];
    }
    forall i | 0 <= i < n
      ensures a0[i] == w[i]
    {
    }
    assert a0 == w;
  }

  // ---------- one column ----------

  lemma SwapClears(a: Matrix, n: nat, c: nat, p: nat)
    requires Square(a, n) && Cleared(a, n, c) && c <= p < n
    ensures Square(Swapped(a, c, p), n) && Cleared(Swapped(a, c, p), n, c)
  {
  }

  lemma ScaleClears(a: Matrix, n: nat, c: nat)
    requires Square(a, n) && Cleared(a, n, c) && c < n && a[c][c] != 0.0
    ensures var s := RowScaled(a, c, a[c][c]); Square(s, n) && Cleared(s, n, c) && s[c][c] == 1.0
  {
    forall j | 0 <= j < c
      ensures Scaled(a[c], a[c][c])[j] == Unit(c, j)
    {
      assert a[c][j] == 0.0;
    }
  }

  /** The column `c` is cleared in the rows before `r`, but for the pivot's. */
  ghost predicate ColumnCleared(a: Matrix, n: nat, c: nat, r: nat)
    requires Square(a, n) && c < n
  {
    a[c][c] == 1.0 && forall i :: 0 <= i < r && i < n && i != c ==> a[i][c] == 0.0
  }

  lemma LessClears(a: Matrix, n: nat, c: nat, r: nat)
    requires Square(a, n) && c < n && r < n && r != c && Cleared(a, n, c) && ColumnCleared(a, n, c, r)
    ensures var s := RowLess(a, r, c, a[r][c]); Square(s, n) && Cleared(s, n, c) && ColumnCleared(s, n, c, r + 1)
  {
    forall j | 0 <= j < c
      ensures Less(a[r], a[r][c], a[c])[j] == Unit(r, j)
    {
      assert a[c][j] == 0.0;
    }
  }

  // ---------- the elimination as a function of the input ----------

  function Abs(x: real): (y: real) { if x < 0.0 then -x else x }

  /** The two matrices of the program. */
  datatype Work = Work(a: Matrix, inv: Matrix)

  ghost predicate Fit(s: Work, n: nat) { Square(s.a, n) && Square(s.inv, n) }

  /** The first of the largest entries of the column from the diagonal down, among the rows before `k`. */
  ghost function Pivot(a: Matrix, n: nat, col: nat, k: nat): (p: nat)
    requires Square(a, n) && col < k <= n
    ensures col <= p < k
    ensures forall i :: col <= i < k ==> Abs(a[i][col]) <= Abs(a[p][col])
    ensures forall i :: col <= i < p ==> Abs(a[i][col]) < Abs(a[p][col])
  {
    if k == col + 1 then col
    else
      var p := Pivot(a, n, col, k - 1);
      if Abs(a[k - 1][col]) > Abs(a[p][col]) then k - 1 else p
  }

  /** The pivot's row brought to the diagonal. */
  ghost function Lifted(s: Work, n: nat, col: nat, p: nat): (t: Work)
    requires Fit(s, n) && col < n && p < n
    ensures Fit(t, n)
  {
    if p == col then s else Work(Swapped(s.a, col, p), Swapped(s.inv, col, p))
  }

  /** The row of the diagonal divided by the pivot. */
  ghost function Normal(s: Work, n: nat, col: nat, d: real): (t: Work)
    requires Fit(s, n) && col < n && d != 0.0
    ensures Fit(t, n)
  {
    Work(RowScaled(s.a, col, d), RowScaled(s.inv, col, d))
  }

  /** Column `col` eliminated from the rows before `k`, but the pivot's. */
  ghost function Cut(s: Work, n: nat, col: nat, k: nat): (t: Work)
    requires Fit(s, n) && col < n && k <= n
    ensures Fit(t, n)
  {
    if k == 0 then s
    else
      var t := Cut(s, n, col, k - 1);
      if k - 1 == col then t
      else
        var f := t.a[k - 1][col];
        Work(RowLess(t.a, k - 1, col, f), RowLess(t.inv, k - 1, col, f))
  }

  /** What one column does. A column without a pivot changes nothing. */
  ghost function Column(s: Work, n: nat, col: nat): (t: Work)
    requires Fit(s, n) && col < n
    ensures Fit(t, n)
  {
    var u := Lifted(s, n, col, Pivot(s.a, n, col, n));
    var d := u.a[col][col];
    if d == 0.0 then s else Cut(Normal(u, n, col, d), n, col, n)
  }

  /** The matrices before column `col`. */
  ghost function Stage(a0: Matrix, n: nat, col: nat): (s: Work)
    requires Square(a0, n) && col <= n
    ensures Fit(s, n)
  {
    if col == 0 then Work(a0, Identity(n)) else Column(Stage(a0, n, col - 1), n, col - 1)
  }

  /** Every entry of the column from the diagonal down is below the threshold. */
  ghost predicate Below(a: Matrix, n: nat, col: nat)
    requires Square(a, n) && col < n
  {
    forall i :: col <= i < n ==> Abs(a[i][col]) < 0.000000000000000000000000000001
  }

  /** At column `col` every entry from the diagonal down is below the threshold. */
  ghost predicate Faint(a0: Matrix, n: nat, col: nat)
    requires Square(a0, n) && col < n
  {
    Below(Stage(a0, n, col).a, n, col)
  }

  /** At column `col` every entry from the diagonal down is zero. */
  ghost predicate Empty(a0: Matrix, n: nat, col: nat)
    requires Square(a0, n) && col < n
  {
    forall i :: col <= i < n ==> Stage(a0, n, col).a[i][col] == 0.0
  }

  /** Some column reached is below the threshold. */
  ghost predicate Refuses(a0: Matrix, n: nat)
    requires Square(a0, n)
  {
    exists col :: 0 <= col < n && Faint(a0, n, col)
  }

  /** The first such column is `col`. */
  ghost predicate StopsAt(a0: Matrix, n: nat, col: nat)
    requires Square(a0, n)
  {
    col < n && Faint(a0, n, col) && forall c :: 0 <= c < col ==> !Faint(a0, n, c)
  }

  // ---------- what the elimination keeps ----------

  lemma LiftedReached(a0: Matrix, s: Work, w: Matrix, n: nat, col: nat, p: nat) returns (w': Matrix)
    requires Reached(a0, s.a, s.inv, w, n) && Cleared(s.a, n, col) && col <= p < n
    ensures var t := Lifted(s, n, col, p); Reached(a0, t.a, t.inv, w', n) && Cleared(t.a, n, col)
  {
    w' := w;
    if p != col {
      ReachedSwapped(a0, s.a, s.inv, w, n, col, p);
      SwapClears(s.a, n, col, p);
      w' := ColumnsSwapped(w, col, p);
    }
  }

  lemma NormalReached(a0: Matrix, s: Work, w: Matrix, n: nat, col: nat) returns (w': Matrix)
    requires Reached(a0, s.a, s.inv, w, n) && col < n && Cleared(s.a, n, col) && s.a[col][col] != 0.0
    ensures var t := Normal(s, n, col, s.a[col][col]);
      Reached(a0, t.a, t.inv, w', n) && Cleared(t.a, n, col) && ColumnCleared(t.a, n, col, 0)
  {
    ReachedScaled(a0, s.a, s.inv, w, n, col, s.a[col][col]);
    ScaleClears(s.a, n, col);
    w' := ColumnScaled(w, col, s.a[col][col]);
  }

  lemma CutRow(a0: Matrix, t: Work, w: Matrix, n: nat, col: nat, r: nat) returns (w': Matrix)
    requires Reached(a0, t.a, t.inv, w, n) && col < n && r < n && r != col && Cleared(t.a, n, col) && ColumnCleared(t.a, n, col, r)
    ensures var f := t.a[r][col];
      && Reached(a0, RowLess(t.a, r, col, f), RowLess(t.inv, r, col, f), w', n)
      && Cleared(RowLess(t.a, r, col, f), n, col) && ColumnCleared(RowLess(t.a, r, col, f), n, col, r + 1)
  {
    ReachedLess(a0, t.a, t.inv, w, n, r, col, t.a[r][col]);
    LessClears(t.a, n, col, r);
    w' := ColumnMore(w, r, col, t.a[r][col]);
  }

  lemma {:induction false} CutReached(a0: Matrix, s: Work, w: Matrix, n: nat, col: nat, k: nat) returns (w': Matrix)
    requires Reached(a0, s.a, s.inv, w, n) && col < n && k <= n && Cleared(s.a, n, col) && ColumnCleared(s.a, n, col, 0)
    ensures var t := Cut(s, n, col, k);
      Reached(a0, t.a, t.inv, w', n) && Cleared(t.a, n, col) && ColumnCleared(t.a, n, col, k)
  {
    w' := w;
    if k > 0 {
      w' := CutReached(a0, s, w, n, col, k - 1);
      if k - 1 != col {
        hide Reached, Cleared;
        w' := CutRow(a0, Cut(s, n, col, k - 1), w', n, col, k - 1);
      }
    }
  }

  lemma ColumnReached(a0: Matrix, s: Work, w: Matrix, n: nat, col: nat) returns (w': Matrix)
    requires Reached(a0, s.a, s.inv, w, n) && col < n && Cleared(s.a, n, col)
    requires exists i :: col <= i < n && s.a[i][col] != 0.0
    ensures var t := Column(s, n, col); Reached(a0, t.a, t.inv, w', n) && Cleared(t.a, n, col + 1)
  {
    hide Pivot, Cut, Product;
    var p := Pivot(s.a, n, col, n);
    var i :| col <= i < n && s.a[i][col] != 0.0;
    assert Abs(s.a[i][col]) <= Abs(s.a[p][col]);
    w' := LiftedReached(a0, s, w, n, col, p);
    var u := Lifted(s, n, col, p);
    assert u.a[col][col] == s.a[p][col];
    w' := NormalReached(a0, u, w', n, col);
    w' := CutReached(a0, Normal(u, n, col, u.a[col][col]), w', n, col, n);
  }

  lemma NothingCleared(a: Matrix, n: nat, col: nat)
    requires Square(a, n) && col == 0
    ensures Cleared(a, n, col)
  {
  }

  lemma HasPivot(a0: Matrix, n: nat, col: nat)
    requires Square(a0, n) && col < n && !Empty(a0, n, col)
    ensures exists i :: col <= i < n && Stage(a0, n, col).a[i][col] != 0.0
  {
  }

  /** As long as columns have a pivot, the stages are reached from the input and their columns are done. */
  lemma {:induction false} StageReached(a0: Matrix, n: nat, col: nat) returns (w: Matrix)
    requires Square(a0, n) && col <= n && forall c :: 0 <= c < col ==> !Empty(a0, n, c)
    ensures var s := Stage(a0, n, col); Reached(a0, s.a, s.inv, w, n) && Cleared(s.a, n, col)
  {
    hide Reached, Column, Empty, Cleared, Identity;
    if col == 0 {
      StartReached(a0, n);
      NothingCleared(a0, n, col);
      w := Identity(n);
    } else {
      w := StageReached(a0, n, col - 1);
      HasPivot(a0, n, col - 1);
      w := ColumnReached(a0, Stage(a0, n, col - 1), w, n, col - 1);
    }
  }

  // ---------- the program ----------

  /** The search for the pivot. */
  method FindPivot(a: array<Row>, n: nat, col: nat) returns (pivot: nat, maxVal: real)
    requires a.Length == n && Square(a[..], n) && col < n
    ensures pivot == Pivot(a[..], n, col, n) && maxVal == Abs(a[pivot][col])
    ensures forall i :: col <= i < n ==> Abs(a[i][col]) <= maxVal
  {
    ghost var m := a[..];
    assert forall i :: 0 <= i < n ==> m[i] == a[i];
    pivot := col;
    maxVal := Abs(a[col][col]);
    for row := col + 1 to n
      invariant pivot == Pivot(m, n, col, row) && maxVal == Abs(m[pivot][col])
    {
      if Abs(a[row][col]) > maxVal {
        maxVal := Abs(a[row][col]);
        pivot := row;
      }
    }
  }

  /** The exchange of two rows, entry by entry. */
  method SwapRows(m: array<Row>, n: nat, p: nat, q: nat)
    requires m.Length == n && Square(m[..], n) && p < n && q < n && p != q
    modifies m
    ensures m[..] == Swapped(old(m[..]), p, q)
  {
    ghost var was := m[..];
    assert m[p] == was[p] && m[q] == was[q];
    for j := 0 to n
      invariant |m[p]| == n && |m[q]| == n
      invariant forall k :: 0 <= k < n ==> m[p][k] == if k < j then was[q][k] else was[p][k]
      invariant forall k :: 0 <= k < n ==> m[q][k] == if k < j then was[p][k] else was[q][k]
      invariant forall i :: 0 <= i < n && i != p && i != q ==> m[i] == was[i]
    {
      var tmp := m[p][j];
      m[p] := m[p][j := m[q][j]];
      m[q] := m[q][j := tmp];
    }
    assert m[p] == was[q] && m[q] == was[p];
  }

  /** A row divided by `d`, entry by entry. */
  method ScaleRow(m: array<Row>, n: nat, c: nat, d: real)
    requires m.Length == n && Square(m[..], n) && c < n && d != 0.0
    modifies m
    ensures m[..] == RowScaled(old(m[..]), c, d)
  {
    ghost var was := m[..];
    assert m[c] == was[c];
    for j := 0 to n
      invariant |m[c]| == n
      invariant forall k :: 0 <= k < n ==> m[c][k] == if k < j then was[c][k] / d else was[c][k]
      invariant forall i :: 0 <= i < n && i != c ==> m[i] == was[i]
    {
      m[c] := m[c][j := m[c][j] / d];
    }
    assert m[c] == Scaled(was[c], d);
  }

  /** Row `r` less `f` times row `c`, entry by entry. */
  method SubtractRow(m: array<Row>, n: nat, r: nat, c: nat, f: real)
    requires m.Length == n && Square(m[..], n) && r < n && c < n && r != c
    modifies m
    ensures m[..] == RowLess(old(m[..]), r, c, f)
  {
    ghost var was := m[..];
    ghost var goal := Less(was[r], f, was[c]);
    assert m[r] == was[r] && m[c] == was[c];
    for j := 0 to n
      invariant |m[r]| == n
      invariant forall k :: 0 <= k < n ==> m[r][k] == if k < j then goal[k] else was[r][k]
      invariant forall i :: 0 <= i < n && i != r ==> m[i] == was[i]
    {
      m[r] := m[r][j := m[r][j] - f * m[c][j]];
    }
    assert m[r] == goal;
  }

  /** Elimination of column `col` from the other rows. */
  method Eliminate(a: array<Row>, inv: array<Row>, n: nat, col: nat)
    requires a.Length == n && inv.Length == n && a != inv && col < n && Square(a[..], n) && Square(inv[..], n)
    modifies a, inv
    ensures Work(a[..], inv[..]) == Cut(old(Work(a[..], inv[..])), n, col, n)
  {
    ghost var s := Work(a[..], inv[..]);
    for row := 0 to n
      invariant Work(a[..], inv[..]) == Cut(s, n, col, row)
    {
      if row != col {
        assert a[..][row] == a[row] && a[..][col] == a[col];
        var factor := a[row][col];
        SubtractRow(a, n, row, col, factor);
        SubtractRow(inv, n, row, col, factor);
      }
    }
  }

  /** The pivot's row brought to the diagonal and divided by the pivot. */
  method Normalize(a: array<Row>, inv: array<Row>, n: nat, col: nat, pivot: nat)
    requires a.Length == n && inv.Length == n && a != inv && col <= pivot < n && Square(a[..], n) && Square(inv[..], n)
    requires a[..][pivot][col] != 0.0
    modifies a, inv
    ensures var u := old(Lifted(Work(a[..], inv[..]), n, col, pivot));
      u.a[col][col] != 0.0 && Work(a[..], inv[..]) == Normal(u, n, col, u.a[col][col])
  {
    if pivot != col {
      SwapRows(a, n, col, pivot);
      SwapRows(inv, n, col, pivot);
    }
    assert a[..][col] == a[col] && |a[col]| == n;
    var diag := a[col][col];
    ScaleRow(a, n, col, diag);
    ScaleRow(inv, n, col, diag);
  }

  /** One turn of the loop over the columns. */
  method DoColumn(a: array<Row>, inv: array<Row>, n: nat, col: nat) returns (ok: bool)
    requires a.Length == n && inv.Length == n && a != inv && col < n && Square(a[..], n) && Square(inv[..], n)
    modifies a, inv
    ensures ok <==> !Below(old(a[..]), n, col)
    ensures Work(a[..], inv[..]) == if ok then Column(old(Work(a[..], inv[..])), n, col) else old(Work(a[..], inv[..]))
  {
    var pivot, maxVal := FindPivot(a, n, col);
    assert forall i :: 0 <= i < n ==> a[i] == a[..][i];
    if maxVal < TINY {
      return false;
    }
    hide Cut, Pivot;
    Normalize(a, inv, n, col, pivot);
    Eliminate(a, inv, n, col);
    return true;
  }

  /** `mat4_invert`, for any size. Both matrices end as at the column `stop`, which is refused unless it is past the last. */
  method Invert(a: array<Row>, inv: array<Row>) returns (ok: bool, ghost stop: nat)
    requires a.Length == inv.Length && a != inv && Square(a[..], a.Length) && Square(inv[..], a.Length)
    modifies a, inv
    ensures ok <==> !Refuses(old(a[..]), a.Length)
    ensures stop <= a.Length && Work(a[..], inv[..]) == Stage(old(a[..]), a.Length, stop)
    ensures if ok then stop == a.Length else StopsAt(old(a[..]), a.Length, stop)
    ensures ok ==> Inverse(inv[..], old(a[..]), a.Length)
  {
    hide Column, Below, Inverse, Empty;
    var n := a.Length;
    ghost var a0 := a[..];
    SetIdentity(inv);
    for col := 0 to n
      invariant Work(a[..], inv[..]) == Stage(a0, n, col)
      invariant forall c :: 0 <= c < col ==> !Faint(a0, n, c)
    {
      assert a[..] == Stage(a0, n, col).a && inv[..] == Stage(a0, n, col).inv;
      var more := DoColumn(a, inv, n, col);
      if !more {
        assert Faint(a0, n, col);
        return false, col;
      }
    }
    NotFaintNotEmpty(a0, n);
    SuccessInverts(a0, n);
    return true, n;
  }

  lemma NotFaintNotEmpty(a0: Matrix, n: nat)
    requires Square(a0, n) && forall c :: 0 <= c < n ==> !Faint(a0, n, c)
    ensures forall c :: 0 <= c < n ==> !Empty(a0, n, c)
  {
    forall c | 0 <= c < n
      ensures !Empty(a0, n, c)
    {
      assert !Faint(a0, n, c);
    }
  }

  method SetIdentity(inv: array<Row>)
    modifies inv
    ensures inv[..] == Identity(inv.Length)
  {
    var n := inv.Length;
    for i := 0 to n
      invariant forall k :: 0 <= k < i ==> inv[k] == Identity(n)[k]
    {
      inv[i] := seq(n, j => if i == j then 1.0 else 0.0);
      assert inv[i] == Identity(n)[i];
    }
  }

  lemma StartReached(a0: Matrix, n: nat)
    requires Square(a0, n)
    ensures Reached(a0, a0, Identity(n), Identity(n), n)
  {
    forall i, j | 0 <= i < n && 0 <= j < n
      ensures a0[i][j] == Combined(Identity(n)[i], a0, j, n) && Identity(n)[i][j] == Combined(Identity(n)[i], Identity(n), j, n)
    {
      UnitCombined(a0, n, i, j, n);
      UnitCombined(Identity(n), n, i, j, n);
    }
  }

  lemma {:induction false} UnitCombined(m: Matrix, n: nat, i: nat, j: nat, k: nat)
    requires Square(m, n) && i < n && j < n && k <= n
    ensures Combined(Identity(n)[i], m, j, k) == if i < k then m[i][j] else 0.0
  {
    if k > 0 { UnitCombined(m, n, i, j, k - 1); }
  }

  // ---------- the threshold ----------

  const D := 10_000_000_000_000_000_000_000_000_000_000.0

  function Diagonal(n: nat, d: real): (m: Matrix)
    requires d != 0.0
    ensures Square(m, n)
  {
    seq(n, i requires 0 <= i < n => Scaled(Identity(n)[i], d))
  }

  /** A matrix can be invertible and yet refused: the identity times 10^-31. */
  lemma SmallIsRefused(n: nat)
    requires n > 0
    ensures Refuses(Diagonal(n, D), n) && !Singular(Diagonal(n, D), n)
  {
    assert Faint(Diagonal(n, D), n, 0);
    DiagonalTimes(n, 1.0 / D, D);
    DiagonalTimes(n, D, 1.0 / D);
    assert Inverse(Diagonal(n, 1.0 / D), Diagonal(n, D), n);
  }

  lemma DiagonalTimes(n: nat, d: real, e: real)
    requires d != 0.0 && e != 0.0 && d * e == 1.0
    ensures Product(Diagonal(n, d), Diagonal(n, e), Identity(n), n)
  {
    forall i, j | 0 <= i < n && 0 <= j < n
      ensures Identity(n)[i][j] == Combined(Diagonal(n, d)[i], Diagonal(n, e), j, n)
    {
      CombinedScaled(Identity(n)[i], Diagonal(n, e), j, n, d);
      UnitCombined(Diagonal(n, e), n, i, j, n);
      DivDiv(Unit(i, j), d, e);
    }
  }

  lemma DivDiv(x: real, d: real, e: real)
    requires d != 0.0 && e != 0.0 && d * e == 1.0
    ensures x / e / d == x
  {
    assert x / e * e == x;
    assert x == x / e * e == x * d * e;
  }

  // ---------- which matrices are refused ----------

  /** The first `k` terms of the product of a row and a column. */
  function Dot(r: Row, v: Row, k: nat): (x: real)
    requires k <= |r| && k <= |v|
  {
    if k == 0 then 0.0 else Dot(r, v, k - 1) + Mul(r[k - 1], v[k - 1])
  }

  lemma {:induction false} DotPlus(r: Row, f: real, u: Row, s: Row, v: Row, k: nat)
    requires k <= |r| && k <= |u| && k <= |s| && k <= |v| && forall j :: 0 <= j < k ==> s[j] == r[j] + Mul(f, u[j])
    ensures Dot(s, v, k) == Dot(r, v, k) + Mul(f, Dot(u, v, k))
  {
    if k > 0 {
      DotPlus(r, f, u, s, v, k - 1);
      PlusTimes(r[k - 1], f, u[k - 1], v[k - 1]);
      TimesPlus(f, Dot(u, v, k - 1), Mul(u[k - 1], v[k - 1]));
    }
  }

  /** A column that every row of `m` sends to zero is sent to zero by their combinations. */
  lemma {:induction false} CombinedVanishes(w: Row, m: Matrix, r: Row, v: Row, n: nat, k: nat)
    requires Square(m, n) && |w| == n && |r| == n && |v| == n && k <= n
    requires forall i :: 0 <= i < n ==> Dot(m[i], v, n) == 0.0
    requires forall j :: 0 <= j < n ==> r[j] == Combined(w, m, j, k)
    ensures Dot(r, v, n) == 0.0
    decreases k
  {
    if k == 0 {
      ZeroDot(r, v, n);
    } else {
      var before := seq(n, j requires 0 <= j < n => Combined(w, m, j, k - 1));
      CombinedVanishes(w, m, before, v, n, k - 1);
      DotPlus(before, w[k - 1], m[k - 1], r, v, n);
    }
  }

  lemma {:induction false} ZeroDot(r: Row, v: Row, k: nat)
    requires k <= |r| && k <= |v| && forall j :: 0 <= j < k ==> Mul(r[j], v[j]) == 0.0
    ensures Dot(r, v, k) == 0.0
  {
    if k > 0 { ZeroDot(r, v, k - 1); }
  }

  /** The column that a matrix cleared up to `col` sends to zero, when the rest of column `col` is zero. */
  function Kernel(a: Matrix, n: nat, col: nat): (v: Row)
    requires |a| == n && col < n && forall i :: 0 <= i < n ==> |a[i]| == n
    ensures |v| == n
  {
    seq(n, j requires 0 <= j < n => if j < col then -a[j][col] else if j == col then 1.0 else 0.0)
  }

  lemma {:induction false} KernelDot(a: Matrix, n: nat, col: nat, i: nat, k: nat)
    requires Square(a, n) && col < n && i < n && k <= n && Cleared(a, n, col)
    ensures Dot(a[i], Kernel(a, n, col), k) ==
      (if i < col && i < k then -a[i][col] else 0.0) + (if col < k then a[i][col] else 0.0)
  {
    if k > 0 { KernelDot(a, n, col, i, k - 1); }
  }

  lemma {:induction false} UnitDot(n: nat, i: nat, v: Row, k: nat)
    requires i < n && |v| == n && k <= n
    ensures Dot(Identity(n)[i], v, k) == if i < k then v[i] else 0.0
  {
    if k > 0 { UnitDot(n, i, v, k - 1); }
  }

  ghost predicate Inverse(x: Matrix, a0: Matrix, n: nat)
    requires Square(a0, n)
  {
    Square(x, n) && Product(x, a0, Identity(n), n) && Product(a0, x, Identity(n), n)
  }

  ghost predicate Singular(a0: Matrix, n: nat)
    requires Square(a0, n)
  {
    forall x :: !Inverse(x, a0, n)
  }

  lemma SuccessInverts(a0: Matrix, n: nat)
    requires Square(a0, n) && forall c :: 0 <= c < n ==> !Empty(a0, n, c)
    ensures Inverse(Stage(a0, n, n).inv, a0, n)
  {
    var w := StageReached(a0, n, n);
    InverseBothSides(a0, Stage(a0, n, n).a, Stage(a0, n, n).inv, w, n);
  }

  /** A column without a pivot leaves a vector that the input sends to zero. */
  lemma EmptyIsSingular(a0: Matrix, n: nat, col: nat, x: Matrix)
    requires Square(a0, n) && col < n && Empty(a0, n, col) && forall c :: 0 <= c < col ==> !Empty(a0, n, c)
    ensures !Inverse(x, a0, n)
  {
    if Inverse(x, a0, n) {
      var w := StageReached(a0, n, col);
      var a := Stage(a0, n, col).a;
      var v := Kernel(a, n, col);
      forall i | 0 <= i < n
        ensures Dot(a[i], v, n) == 0.0
      {
        KernelDot(a, n, col, i, n);
      }
      forall i | 0 <= i < n
        ensures Dot(a0[i], v, n) == 0.0
      {
        CombinedVanishes(w[i], a, a0[i], v, n, n);
      }
      CombinedVanishes(x[col], a0, Identity(n)[col], v, n, n);
      UnitDot(n, col, v, n);
      assert false;
    }
  }

  lemma {:induction false} FirstEmpty(a0: Matrix, n: nat, col: nat) returns (c: nat)
    requires Square(a0, n) && col < n && Empty(a0, n, col)
    ensures c <= col && Empty(a0, n, c) && forall k :: 0 <= k < c ==> !Empty(a0, n, k)
  {
    if k :| 0 <= k < col && Empty(a0, n, k) {
      c := FirstEmpty(a0, n, k);
    } else {
      c := col;
    }
  }

  /** The input is singular exactly when elimination meets a column without a pivot. */
  lemma SingularIff(a0: Matrix, n: nat)
    requires Square(a0, n)
    ensures Singular(a0, n) <==> exists col :: 0 <= col < n && Empty(a0, n, col)
  {
    if col :| 0 <= col < n && Empty(a0, n, col) {
      var c := FirstEmpty(a0, n, col);
      forall x
        ensures !Inverse(x, a0, n)
      {
        EmptyIsSingular(a0, n, c, x);
      }
    } else {
      SuccessInverts(a0, n);
    }
  }

  /** An invertible matrix is refused only over an entry that is not zero and yet below the threshold. */
  lemma RefusedInvertible(a0: Matrix, n: nat, col: nat, x: Matrix)
    requires Square(a0, n) && StopsAt(a0, n, col) && Inverse(x, a0, n)
    ensures exists i :: col <= i < n && 0.0 < Abs(Stage(a0, n, col).a[i][col]) < TINY
  {
    if Empty(a0, n, col) {
      var c := FirstEmpty(a0, n, col);
      EmptyIsSingular(a0, n, c, x);
      assert false;
    }
  }

  /**
   The comment, "-1 if singular", is met on an input exactly when elimination meets a column without a pivot or every
   column has an entry of at least the threshold from the diagonal down.
   */
  lemma CommentMetIff(a0: Matrix, n: nat)
    requires Square(a0, n)
    ensures (Refuses(a0, n) <==> Singular(a0, n)) <==>
      (exists col :: 0 <= col < n && Empty(a0, n, col)) || forall col :: 0 <= col < n ==> !Faint(a0, n, col)
    ensures Singular(a0, n) ==> Refuses(a0, n)
  {
    SingularIff(a0, n);
    if col :| 0 <= col < n && Empty(a0, n, col) { assert Faint(a0, n, col); }
  }
}
