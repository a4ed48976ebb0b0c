/**
 * The mixture fit of the combinatorial analysis (src/CombinatoricsSuper.cc):
 * the process efficiencies read off the Monte Carlo density matrix, the
 * Expectation-Maximization iteration that unmixes a bootstrapped data vector
 * into process counts, the aggregation of the bootstrap replicas into cross
 * sections, the (delta, xi_max) grid argmin of EstimateEM and the
 * efficiency grid search of the final round.
 */
module CombinatoricsSuper {
  import VecOper
  import Combinatorics

  /** Number of bootstrap replicas (src/Combinatorics.cc) and of EM passes
      per replica. */
  const N_BOOTSTRAP: nat := 300
  const N_EM_ITER: nat := 50

  // ---------------------------------------------------------------------
  // Prefix sums over vectors and matrices

  /** Sum of the first n entries, first to last. */
  function PSum(v: seq<real>, n: nat): real
    requires n <= |v|
  {
    if n == 0 then 0.0 else PSum(v, n - 1) + v[n - 1]
  }

  lemma {:induction false} PSumIsSum(v: seq<real>, n: nat)
    requires n <= |v|
    ensures PSum(v, n) == VecOper.Sum(v[..n])
  {
    if n > 0 {
      assert v[..n][..n - 1] == v[..n - 1];
      PSumIsSum(v, n - 1);
    }
  }

  lemma {:induction false} PSumNonNeg(v: seq<real>, n: nat)
    requires n <= |v| && VecOper.NonNeg(v)
    ensures PSum(v, n) >= 0.0
  {
    if n > 0 {
      PSumNonNeg(v, n - 1);
    }
  }

  /** The first m rows of a each hold at least n entries. */
  predicate Rect(a: seq<seq<real>>, m: nat, n: nat)
  {
    m <= |a| && forall j :: 0 <= j < m ==> n <= |a[j]|
  }

  /** Sum of column i over the first m rows. */
  function CSum(a: seq<seq<real>>, i: nat, m: nat): real
    requires Rect(a, m, i + 1)
  {
    if m == 0 then 0.0 else CSum(a, i, m - 1) + a[m - 1][i]
  }

  /** Sum of the row sums (first m rows, first n columns). */
  function RowTotal(a: seq<seq<real>>, m: nat, n: nat): real
    requires Rect(a, m, n)
  {
    if m == 0 then 0.0 else RowTotal(a, m - 1, n) + PSum(a[m - 1], n)
  }

  /** Sum of the column sums (first n columns, first m rows). */
  function ColTotal(a: seq<seq<real>>, m: nat, n: nat): real
    requires Rect(a, m, n)
  {
    if n == 0 then 0.0 else ColTotal(a, m, n - 1) + CSum(a, n - 1, m)
  }

  /** Dropping the last column from every row removes that column's sum. */
  lemma {:induction false} RowTotalLastColumn(a: seq<seq<real>>, m: nat, n: nat)
    requires Rect(a, m, n) && n > 0
    ensures RowTotal(a, m, n) == RowTotal(a, m, n - 1) + CSum(a, n - 1, m)
  {
    if m > 0 {
      RowTotalLastColumn(a, m - 1, n);
    }
  }

  /** Adding up a matrix row by row or column by column gives the same total. */
  lemma {:induction false} TotalSwap(a: seq<seq<real>>, m: nat, n: nat)
    requires Rect(a, m, n)
    ensures RowTotal(a, m, n) == ColTotal(a, m, n)
  {
    if n == 0 {
      RowTotalZero(a, m);
    } else {
      RowTotalLastColumn(a, m, n);
      TotalSwap(a, m, n - 1);
    }
  }

  lemma {:induction false} RowTotalZero(a: seq<seq<real>>, m: nat)
    requires Rect(a, m, 0)
    ensures RowTotal(a, m, 0) == 0.0
  {
    if m > 0 {
      RowTotalZero(a, m - 1);
    }
  }

  /** A column sum over the first m rows is the sum of the column's first m
      entries. */
  lemma {:induction false} CSumIsColumnSum(a: seq<seq<real>>, i: nat, m: nat)
    requires m <= |a| && forall j :: 0 <= j < |a| ==> i < |a[j]|
    ensures CSum(a, i, m) == PSum(VecOper.GetColVec(a, i), m)
  {
    if m > 0 {
      CSumIsColumnSum(a, i, m - 1);
    }
  }

  // ---------------------------------------------------------------------
  // Efficiencies and the density matrix of the fit

  /** The density matrix with the 0-bin row nullified, which the visible
      (1) and fiducial (2) extraction levels do before normalising. */
  function ZeroBinRemoved(f: seq<seq<real>>, level: nat): (z: seq<seq<real>>)
    requires |f| > 0
    ensures |z| == |f| && z[1..] == f[1..] && |z[0]| == |f[0]|
    ensures forall j :: 0 <= j < |f[0]| ==> z[0][j] == (if level == 1 || level == 2 then 0.0 else f[0][j])
  {
    if level == 1 || level == 2 then f[0 := seq(|f[0]|, _ => 0.0)] else f
  }

  /** The density matrix after the row-0 treatment keeps the shape and the
      non-negativity of the Monte Carlo one. */
  lemma ZeroBinRemovedShape(f: seq<seq<real>>, level: nat)
    requires VecOper.IsMatrix(f, Combinatorics.NCOMB, Combinatorics.C) && Combinatorics.NonNegMatrix(f)
    ensures VecOper.IsMatrix(ZeroBinRemoved(f, level), Combinatorics.NCOMB, Combinatorics.C)
    ensures Combinatorics.NonNegMatrix(ZeroBinRemoved(f, level))
  {
    var z := ZeroBinRemoved(f, level);
    forall i | 0 <= i < Combinatorics.NCOMB
      ensures |z[i]| == Combinatorics.C && forall j :: 0 <= j < Combinatorics.C ==> z[i][j] >= 0.0
    {
      if i > 0 {
        assert z[i] == z[1..][i - 1] == f[1..][i - 1] == f[i];
      }
    }
  }

  /** Column j of the density matrix after the row-0 treatment, before its
      normalisation; its floored sum is a safe divisor. */
  function DensityColumn(f: seq<seq<real>>, level: nat, j: nat): (col: seq<real>)
    requires VecOper.IsMatrix(f, Combinatorics.NCOMB, Combinatorics.C) && Combinatorics.NonNegMatrix(f)
    requires j < Combinatorics.C
    ensures |col| == Combinatorics.NCOMB && VecOper.NonNeg(col) && VecOper.VSum(col) > 0.0
  {
    ZeroBinRemovedShape(f, level);
    var col := VecOper.GetColVec(ZeroBinRemoved(f, level), j);
    VecOper.VSumPositive(col);
    col
  }

  /** The normalised density matrix of the fit: column j is nvec of the
      column after the row-0 treatment. */
  function NormalizedDensity(f: seq<seq<real>>, level: nat): (fn: seq<seq<real>>)
    requires VecOper.IsMatrix(f, Combinatorics.NCOMB, Combinatorics.C) && Combinatorics.NonNegMatrix(f)
    ensures VecOper.IsMatrix(fn, Combinatorics.NCOMB, Combinatorics.C) && Combinatorics.NonNegMatrix(fn)
  {
    DensityEntries(f, level);
    seq(Combinatorics.NCOMB, i requires 0 <= i < Combinatorics.NCOMB =>
      seq(Combinatorics.C, j requires 0 <= j < Combinatorics.C => VecOper.NVec(DensityColumn(f, level, j))[i]))
  }

  /** Every normalised density column holds fractions in [0, 1). */
  lemma DensityEntries(f: seq<seq<real>>, level: nat)
    requires VecOper.IsMatrix(f, Combinatorics.NCOMB, Combinatorics.C) && Combinatorics.NonNegMatrix(f)
    ensures forall j, i :: 0 <= j < Combinatorics.C && 0 <= i < Combinatorics.NCOMB ==>
      0.0 <= VecOper.NVec(DensityColumn(f, level, j))[i] < 1.0
  {
    forall j | 0 <= j < Combinatorics.C
      ensures forall i :: 0 <= i < Combinatorics.NCOMB ==> 0.0 <= VecOper.NVec(DensityColumn(f, level, j))[i] < 1.0
    {
      VecOper.NVecEntries(DensityColumn(f, level, j));
    }
  }

  /** A matrix whose columns are the normalised density columns is the
      normalised density matrix. */
  lemma NormalizedDensityIs(f: seq<seq<real>>, level: nat, fn: seq<seq<real>>)
    requires VecOper.IsMatrix(f, Combinatorics.NCOMB, Combinatorics.C) && Combinatorics.NonNegMatrix(f)
    requires VecOper.IsMatrix(fn, Combinatorics.NCOMB, Combinatorics.C)
    requires forall j :: 0 <= j < Combinatorics.C ==>
      VecOper.GetColVec(fn, j) == VecOper.NVec(DensityColumn(f, level, j))
    ensures fn == NormalizedDensity(f, level)
  {
    var g := NormalizedDensity(f, level);
    forall i | 0 <= i < Combinatorics.NCOMB
      ensures fn[i] == g[i]
    {
      forall j | 0 <= j < Combinatorics.C
        ensures fn[i][j] == g[i][j]
      {
        assert fn[i][j] == VecOper.GetColVec(fn, j)[i];
      }
    }
  }

  /** Process efficiency of column j: one minus the Monte Carlo 0-bin density,
      read before the 0-bin is nullified, and zero when the column (after the
      0-bin treatment) holds no density at all. */
  function Efficiency(f: seq<seq<real>>, level: nat, j: nat): real
    requires VecOper.IsMatrix(f, Combinatorics.NCOMB, Combinatorics.C) && j < Combinatorics.C
  {
    var z := ZeroBinRemoved(f, level);
    ZeroBinRemovedWidth(f, level);
    if VecOper.Sum(VecOper.GetColVec(z, j)) > 0.0 then 1.0 - f[0][j] else 0.0
  }

  lemma ZeroBinRemovedWidth(f: seq<seq<real>>, level: nat)
    requires VecOper.IsMatrix(f, Combinatorics.NCOMB, Combinatorics.C)
    ensures VecOper.IsMatrix(ZeroBinRemoved(f, level), Combinatorics.NCOMB, Combinatorics.C)
  {
    var z := ZeroBinRemoved(f, level);
    forall i | 1 <= i < Combinatorics.NCOMB
      ensures |z[i]| == Combinatorics.C
    {
      assert z[i] == z[1..][i - 1] == f[1..][i - 1];
    }
  }

  /** The efficiency extraction of EMsub: for every process column j, eff[j]
      is taken from the 0-bin, the 0-bin is nullified at levels 1 and 2, the
      column is divided by 1e-12 plus its sum (nvec), and eff[j] is reset to
      zero when that sum is not above the floor. */
  method ExtractEfficiencies(f: seq<seq<real>>, level: nat) returns (fn: seq<seq<real>>, eff: seq<real>)
    requires VecOper.IsMatrix(f, Combinatorics.NCOMB, Combinatorics.C) && Combinatorics.NonNegMatrix(f)
    ensures VecOper.IsMatrix(fn, Combinatorics.NCOMB, Combinatorics.C)
    ensures forall j :: 0 <= j < Combinatorics.C ==>
      VecOper.GetColVec(fn, j) == VecOper.NVec(DensityColumn(f, level, j))
    ensures fn == NormalizedDensity(f, level) && Combinatorics.NonNegMatrix(fn)
    ensures |eff| == Combinatorics.C
    ensures forall j :: 0 <= j < Combinatorics.C ==> eff[j] == Efficiency(f, level, j)
  {
    fn := f;
    eff := seq(Combinatorics.C, _ => 1.0);
    var j := 0;
    while j < Combinatorics.C
      invariant 0 <= j <= Combinatorics.C && |eff| == Combinatorics.C
      invariant VecOper.IsMatrix(fn, Combinatorics.NCOMB, Combinatorics.C)
      invariant forall k :: 0 <= k < j ==> VecOper.GetColVec(fn, k) == VecOper.NVec(DensityColumn(f, level, k))
      invariant forall k :: j <= k < Combinatorics.C ==> VecOper.GetColVec(fn, k) == VecOper.GetColVec(f, k)
      invariant forall k :: 0 <= k < j ==> eff[k] == Efficiency(f, level, k)
    {
      var e;
      fn, e := ExtractColumn(f, level, fn, j);
      eff := eff[j := e];
      j := j + 1;
    }
    NormalizedDensityIs(f, level, fn);
  }

  /** One column of the extraction: the efficiency read from the 0-bin, the
      0-bin nullified at levels 1 and 2, the column divided by its floored
      sum; the other columns are left alone. */
  method ExtractColumn(f: seq<seq<real>>, level: nat, fn: seq<seq<real>>, j: nat)
    returns (r: seq<seq<real>>, e: real)
    requires VecOper.IsMatrix(f, Combinatorics.NCOMB, Combinatorics.C) && Combinatorics.NonNegMatrix(f)
    requires VecOper.IsMatrix(fn, Combinatorics.NCOMB, Combinatorics.C) && j < Combinatorics.C
    requires VecOper.GetColVec(fn, j) == VecOper.GetColVec(f, j)
    ensures VecOper.IsMatrix(r, Combinatorics.NCOMB, Combinatorics.C)
    ensures VecOper.GetColVec(r, j) == VecOper.NVec(DensityColumn(f, level, j))
    ensures forall k :: 0 <= k < Combinatorics.C && k != j ==> VecOper.GetColVec(r, k) == VecOper.GetColVec(fn, k)
    ensures e == Efficiency(f, level, j)
  {
    assert forall i :: 0 <= i < Combinatorics.NCOMB ==> fn[i][j] == VecOper.GetColVec(f, j)[i];
    e := 1.0 - fn[0][j];
    r := fn;
    if level == 1 || level == 2 {
      r := r[0 := r[0][j := 0.0]];
      forall k | 0 <= k < Combinatorics.C && k != j
        ensures VecOper.GetColVec(r, k) == VecOper.GetColVec(fn, k)
      {
      }
    }
    ZeroedColumn(f, level, r, j);
    var sum := Combinatorics.ColumnVSum(r, Combinatorics.NCOMB, Combinatorics.C, j);
    r := Combinatorics.DivideColumn(r, Combinatorics.NCOMB, Combinatorics.C, j, sum);
    if !(sum > VecOper.EPS) {
      e := 0.0;
    }
  }

  /** A column that still holds the Monte Carlo values below the 0-bin, and
      the row-0 treatment in its 0-bin, is the density column. */
  lemma ZeroedColumn(f: seq<seq<real>>, level: nat, fn: seq<seq<real>>, j: nat)
    requires VecOper.IsMatrix(f, Combinatorics.NCOMB, Combinatorics.C) && Combinatorics.NonNegMatrix(f)
    requires VecOper.IsMatrix(fn, Combinatorics.NCOMB, Combinatorics.C) && j < Combinatorics.C
    requires forall i :: 1 <= i < Combinatorics.NCOMB ==> fn[i][j] == f[i][j]
    requires fn[0][j] == (if level == 1 || level == 2 then 0.0 else f[0][j])
    ensures VecOper.GetColVec(fn, j) == DensityColumn(f, level, j)
  {
    var z := ZeroBinRemoved(f, level);
    forall i | 1 <= i < Combinatorics.NCOMB
      ensures z[i][j] == f[i][j]
    {
      assert z[i] == z[1..][i - 1] == f[1..][i - 1] == f[i];
    }
  }

  /** When every column of the Monte Carlo matrix is a density (non-negative,
      total at most one), every efficiency lies in [0, 1]; and a column that
      is empty after the 0-bin treatment has efficiency zero. */
  lemma EfficiencyBounds(f: seq<seq<real>>, level: nat, j: nat)
    requires VecOper.IsMatrix(f, Combinatorics.NCOMB, Combinatorics.C) && Combinatorics.NonNegMatrix(f)
    requires j < Combinatorics.C && VecOper.Sum(VecOper.GetColVec(f, j)) <= 1.0
    ensures 0.0 <= Efficiency(f, level, j) <= 1.0
  {
    var col := VecOper.GetColVec(f, j);
    VecOper.SumBoundsEntry(col, 0);
  }

  /** After normalisation every density column holds fractions in [0, 1)
      whose total is below one, and at levels 1 and 2 its 0-bin is zero. */
  lemma NormalizedDensities(f: seq<seq<real>>, level: nat, fn: seq<seq<real>>, j: nat)
    requires VecOper.IsMatrix(f, Combinatorics.NCOMB, Combinatorics.C) && Combinatorics.NonNegMatrix(f)
    requires VecOper.IsMatrix(fn, Combinatorics.NCOMB, Combinatorics.C) && j < Combinatorics.C
    requires VecOper.GetColVec(fn, j) == VecOper.NVec(DensityColumn(f, level, j))
    ensures forall i :: 0 <= i < Combinatorics.NCOMB ==> 0.0 <= fn[i][j] < 1.0
    ensures 0.0 <= VecOper.Sum(VecOper.GetColVec(fn, j)) < 1.0
    ensures level == 1 || level == 2 ==> fn[0][j] == 0.0
  {
    var zc := DensityColumn(f, level, j);
    VecOper.NVecSum(zc);
    assert forall i :: 0 <= i < Combinatorics.NCOMB ==> fn[i][j] == VecOper.GetColVec(fn, j)[i];
  }

  // ---------------------------------------------------------------------
  // Expectation-Maximization

  /** Diagonal matrix with p on the diagonal (the prior matrix Pmat). */
  function Diag(p: seq<real>): (d: seq<seq<real>>)
    ensures VecOper.IsMatrix(d, |p|, |p|)
  {
    seq(|p|, i requires 0 <= i < |p| => seq(|p|, j requires 0 <= j < |p| => if i == j then p[i] else 0.0))
  }

  /** Entry (row, j) of a matrix product: sum over k < n of row[k] m[k][j]. */
  function Dot(row: seq<real>, m: seq<seq<real>>, j: nat, n: nat): real
    requires n <= |row| && Rect(m, n, j + 1)
  {
    if n == 0 then 0.0 else Dot(row, m, j, n - 1) + row[n - 1] * m[n - 1][j]
  }

  /** Multiplying by a diagonal matrix scales column j by its diagonal entry. */
  lemma {:induction false} DotDiag(row: seq<real>, p: seq<real>, j: nat, n: nat)
    requires n <= |p| == |row| && j < |p|
    ensures Dot(row, Diag(p), j, n) == if j < n then row[j] * p[j] else 0.0
  {
    if n > 0 {
      DotDiag(row, p, j, n - 1);
    }
  }

  /** Kmat = Fmat * Pmat with the diagonal prior: cell (i, j) is the density
      of bin i under process j times that process's count. */
  function Likelihood(fmat: seq<seq<real>>, prior: seq<real>): (k: seq<seq<real>>)
    requires VecOper.IsMatrix(fmat, Combinatorics.NCOMB, Combinatorics.C) && |prior| == Combinatorics.C
    ensures VecOper.IsMatrix(k, Combinatorics.NCOMB, Combinatorics.C)
  {
    seq(Combinatorics.NCOMB, i requires 0 <= i < Combinatorics.NCOMB =>
      seq(Combinatorics.C, j requires 0 <= j < Combinatorics.C => fmat[i][j] * prior[j]))
  }

  /** The likelihood matrix is the product of Fmat with the diagonal prior
      matrix. */
  lemma LikelihoodIsProduct(fmat: seq<seq<real>>, prior: seq<real>, i: nat, j: nat)
    requires VecOper.IsMatrix(fmat, Combinatorics.NCOMB, Combinatorics.C) && |prior| == Combinatorics.C
    requires i < Combinatorics.NCOMB && j < Combinatorics.C
    ensures Likelihood(fmat, prior)[i][j] == Dot(fmat[i], Diag(prior), j, Combinatorics.C)
  {
    DotDiag(fmat[i], prior, j, Combinatorics.C);
  }

  lemma LikelihoodNonNeg(fmat: seq<seq<real>>, prior: seq<real>)
    requires VecOper.IsMatrix(fmat, Combinatorics.NCOMB, Combinatorics.C) && |prior| == Combinatorics.C
    requires Combinatorics.NonNegMatrix(fmat) && VecOper.NonNeg(prior)
    ensures Combinatorics.NonNegMatrix(Likelihood(fmat, prior))
  {
    var k := Likelihood(fmat, prior);
    forall i, j | 0 <= i < Combinatorics.NCOMB && 0 <= j < Combinatorics.C
      ensures k[i][j] >= 0.0
    {
      assert k[i][j] == fmat[i][j] * prior[j];
    }
  }

  /** The transpose of a rows x cols matrix; column i of it is row i. */
  function Transpose(m: seq<seq<real>>, rows: nat, cols: nat): (t: seq<seq<real>>)
    requires VecOper.IsMatrix(m, rows, cols)
    ensures VecOper.IsMatrix(t, cols, rows)
    ensures forall j, i :: 0 <= j < cols && 0 <= i < rows ==> t[j][i] == m[i][j]
  {
    seq(cols, j requires 0 <= j < cols => seq(rows, i requires 0 <= i < rows => m[i][j]))
  }

  lemma TransposeColumn(m: seq<seq<real>>, rows: nat, cols: nat, i: nat)
    requires VecOper.IsMatrix(m, rows, cols) && i < rows
    ensures VecOper.GetColVec(Transpose(m, rows, cols), i) == m[i]
  {
  }

  /** nvec of a non-negative vector: every entry divided by 1e-12 plus the
      sum. Applied to a likelihood row it gives that bin's posteriors. */
  function Fractions(row: seq<real>): (r: seq<real>)
    requires VecOper.NonNeg(row)
    ensures |r| == |row|
  {
    VecOper.VSumPositive(row);
    VecOper.NVec(row)
  }

  /** KmatT after normalisation: process j's posterior for bin i. */
  function Posteriors(k: seq<seq<real>>): (kt: seq<seq<real>>)
    requires VecOper.IsMatrix(k, Combinatorics.NCOMB, Combinatorics.C) && Combinatorics.NonNegMatrix(k)
    ensures VecOper.IsMatrix(kt, Combinatorics.C, Combinatorics.NCOMB)
  {
    seq(Combinatorics.C, j requires 0 <= j < Combinatorics.C =>
      seq(Combinatorics.NCOMB, i requires 0 <= i < Combinatorics.NCOMB => Fractions(k[i])[j]))
  }

  /** Each bin's posteriors are fractions in [0, 1) that add up to less than
      one (the 1e-12 floor keeps the total just below one). */
  lemma PosteriorBounds(k: seq<seq<real>>, i: nat)
    requires VecOper.IsMatrix(k, Combinatorics.NCOMB, Combinatorics.C) && Combinatorics.NonNegMatrix(k)
    requires i < Combinatorics.NCOMB
    ensures forall j :: 0 <= j < Combinatorics.C ==> 0.0 <= Posteriors(k)[j][i] < 1.0
    ensures 0.0 <= CSum(Posteriors(k), i, Combinatorics.C) < 1.0
  {
    var kt := Posteriors(k);
    VecOper.NVecSum(k[i]);
    assert VecOper.GetColVec(kt, i) == Fractions(k[i]);
    CSumIsColumnSum(kt, i, Combinatorics.C);
    PSumIsSum(VecOper.GetColVec(kt, i), Combinatorics.C);
    assert VecOper.GetColVec(kt, i)[..Combinatorics.C] == VecOper.GetColVec(kt, i);
  }

  /** The bin-weighted posteriors: cell (j, i) is process j's share of the
      events in bin i. */
  function Contrib(kt: seq<seq<real>>, x: seq<real>): (a: seq<seq<real>>)
    requires VecOper.IsMatrix(kt, Combinatorics.C, Combinatorics.NCOMB) && |x| == Combinatorics.NCOMB
    ensures VecOper.IsMatrix(a, Combinatorics.C, Combinatorics.NCOMB)
  {
    seq(Combinatorics.C, j requires 0 <= j < Combinatorics.C =>
      seq(Combinatorics.NCOMB, i requires 0 <= i < Combinatorics.NCOMB => kt[j][i] * x[i]))
  }

  /** Pvec = KmatT * Xvec: the new event count of every process. */
  function NewCounts(kt: seq<seq<real>>, x: seq<real>): (pvec: seq<real>)
    requires VecOper.IsMatrix(kt, Combinatorics.C, Combinatorics.NCOMB) && |x| == Combinatorics.NCOMB
    ensures |pvec| == Combinatorics.C
  {
    var a := Contrib(kt, x);
    seq(Combinatorics.C, j requires 0 <= j < Combinatorics.C => PSum(a[j], Combinatorics.NCOMB))
  }

  /** The column of bin i in the weighted posteriors adds up to the bin's
      count times its total posterior. */
  lemma {:induction false} ContribColumn(kt: seq<seq<real>>, x: seq<real>, i: nat, m: nat)
    requires VecOper.IsMatrix(kt, Combinatorics.C, Combinatorics.NCOMB) && |x| == Combinatorics.NCOMB
    requires i < Combinatorics.NCOMB && m <= Combinatorics.C
    ensures CSum(Contrib(kt, x), i, m) == x[i] * CSum(kt, i, m)
  {
    if m > 0 {
      ContribColumn(kt, x, i, m - 1);
      assert Contrib(kt, x)[m - 1][i] == kt[m - 1][i] * x[i];
    }
  }

  lemma {:induction false} NewCountsTotal(kt: seq<seq<real>>, x: seq<real>, m: nat)
    requires VecOper.IsMatrix(kt, Combinatorics.C, Combinatorics.NCOMB) && |x| == Combinatorics.NCOMB
    requires m <= Combinatorics.C
    ensures PSum(NewCounts(kt, x), m) == RowTotal(Contrib(kt, x), m, Combinatorics.NCOMB)
  {
    if m > 0 {
      NewCountsTotal(kt, x, m - 1);
    }
  }

  /** With every bin's posteriors adding up to at most one, the column totals
      of the weighted posteriors over the first n bins are at most the events
      in those bins. */
  lemma {:induction false} ColTotalBound(kt: seq<seq<real>>, x: seq<real>, n: nat)
    requires VecOper.IsMatrix(kt, Combinatorics.C, Combinatorics.NCOMB) && |x| == Combinatorics.NCOMB
    requires VecOper.NonNeg(x) && n <= Combinatorics.NCOMB
    requires forall i :: 0 <= i < Combinatorics.NCOMB ==> 0.0 <= CSum(kt, i, Combinatorics.C) <= 1.0
    ensures ColTotal(Contrib(kt, x), Combinatorics.C, n) <= PSum(x, n)
  {
    if n > 0 {
      ColTotalBound(kt, x, n - 1);
      ContribColumn(kt, x, n - 1, Combinatorics.C);
      BinShareBound(x[n - 1], CSum(kt, n - 1, Combinatorics.C));
    }
  }

  lemma BinShareBound(x: real, s: real)
    requires x >= 0.0 && 0.0 <= s <= 1.0
    ensures x * s <= x
  {
  }

  lemma NewCountsNonNeg(kt: seq<seq<real>>, x: seq<real>)
    requires VecOper.IsMatrix(kt, Combinatorics.C, Combinatorics.NCOMB) && |x| == Combinatorics.NCOMB
    requires VecOper.NonNeg(x) && Combinatorics.NonNegMatrix(kt)
    ensures VecOper.NonNeg(NewCounts(kt, x))
  {
    var a := Contrib(kt, x);
    forall j | 0 <= j < Combinatorics.C
      ensures NewCounts(kt, x)[j] >= 0.0
    {
      forall i | 0 <= i < Combinatorics.NCOMB
        ensures a[j][i] >= 0.0
      {
        assert a[j][i] == kt[j][i] * x[i];
      }
      PSumNonNeg(a[j], Combinatorics.NCOMB);
    }
  }

  /** The new process counts never exceed the events they are made of: every
      count is non-negative and their total is at most the total of x. */
  lemma NewCountsBound(kt: seq<seq<real>>, x: seq<real>)
    requires VecOper.IsMatrix(kt, Combinatorics.C, Combinatorics.NCOMB) && |x| == Combinatorics.NCOMB
    requires VecOper.NonNeg(x) && Combinatorics.NonNegMatrix(kt)
    requires forall i :: 0 <= i < Combinatorics.NCOMB ==> 0.0 <= CSum(kt, i, Combinatorics.C) <= 1.0
    ensures VecOper.NonNeg(NewCounts(kt, x))
    ensures VecOper.Sum(NewCounts(kt, x)) <= VecOper.Sum(x)
  {
    var pvec := NewCounts(kt, x);
    NewCountsNonNeg(kt, x);
    NewCountsTotal(kt, x, Combinatorics.C);
    TotalSwap(Contrib(kt, x), Combinatorics.C, Combinatorics.NCOMB);
    ColTotalBound(kt, x, Combinatorics.NCOMB);
    PSumIsSum(pvec, Combinatorics.C);
    PSumIsSum(x, Combinatorics.NCOMB);
    assert pvec[..Combinatorics.C] == pvec;
    assert x[..Combinatorics.NCOMB] == x;
  }

  /** One EM pass as a value: the posteriors of the likelihood under the
      current prior, weighted by the data. The counts it returns are
      non-negative and add up to at most the events of x. */
  function EMPass(fmat: seq<seq<real>>, prior: seq<real>, x: seq<real>): (pvec: seq<real>)
    requires VecOper.IsMatrix(fmat, Combinatorics.NCOMB, Combinatorics.C) && Combinatorics.NonNegMatrix(fmat)
    requires |prior| == Combinatorics.C && VecOper.NonNeg(prior)
    requires |x| == Combinatorics.NCOMB && VecOper.NonNeg(x)
    ensures |pvec| == Combinatorics.C && VecOper.NonNeg(pvec)
    ensures VecOper.Sum(pvec) <= VecOper.Sum(x)
  {
    LikelihoodNonNeg(fmat, prior);
    var k := Likelihood(fmat, prior);
    PosteriorsNonNeg(k);
    NewCountsBound(Posteriors(k), x);
    NewCounts(Posteriors(k), x)
  }

  lemma PosteriorsNonNeg(k: seq<seq<real>>)
    requires VecOper.IsMatrix(k, Combinatorics.NCOMB, Combinatorics.C) && Combinatorics.NonNegMatrix(k)
    ensures Combinatorics.NonNegMatrix(Posteriors(k))
    ensures forall i :: 0 <= i < Combinatorics.NCOMB ==> 0.0 <= CSum(Posteriors(k), i, Combinatorics.C) <= 1.0
  {
    forall i | 0 <= i < Combinatorics.NCOMB
      ensures forall j :: 0 <= j < Combinatorics.C ==> 0.0 <= Posteriors(k)[j][i] < 1.0
      ensures 0.0 <= CSum(Posteriors(k), i, Combinatorics.C) <= 1.0
    {
      PosteriorBounds(k, i);
    }
    forall j, i | 0 <= j < Combinatorics.C && 0 <= i < Combinatorics.NCOMB
      ensures Posteriors(k)[j][i] >= 0.0
    {
      PosteriorBounds(k, i);
    }
  }

  /** n EM passes from the given prior. */
  function EMIterate(fmat: seq<seq<real>>, prior: seq<real>, x: seq<real>, n: nat): (p: seq<real>)
    requires VecOper.IsMatrix(fmat, Combinatorics.NCOMB, Combinatorics.C) && Combinatorics.NonNegMatrix(fmat)
    requires |prior| == Combinatorics.C && VecOper.NonNeg(prior)
    requires |x| == Combinatorics.NCOMB && VecOper.NonNeg(x)
    ensures |p| == Combinatorics.C && VecOper.NonNeg(p)
  {
    if n == 0 then prior else EMPass(fmat, EMIterate(fmat, prior, x, n - 1), x)
  }

  /** After at least one pass the process counts add up to at most the
      events of the replica, whatever the starting prior. */
  lemma EMIterateBound(fmat: seq<seq<real>>, prior: seq<real>, x: seq<real>, n: nat)
    requires VecOper.IsMatrix(fmat, Combinatorics.NCOMB, Combinatorics.C) && Combinatorics.NonNegMatrix(fmat)
    requires |prior| == Combinatorics.C && VecOper.NonNeg(prior)
    requires |x| == Combinatorics.NCOMB && VecOper.NonNeg(x)
    requires n > 0
    ensures 0.0 <= VecOper.Sum(EMIterate(fmat, prior, x, n)) <= VecOper.Sum(x)
  {
    VecOper.SumNonNeg(EMIterate(fmat, prior, x, n));
  }

  /** One EM iteration: Kmat = Fmat Pmat, transposed, every bin (column of
      KmatT) divided by 1e-12 plus its sum, then Pvec = KmatT Xvec. */
  method EMStep(fmat: seq<seq<real>>, prior: seq<real>, x: seq<real>) returns (kt: seq<seq<real>>, pvec: seq<real>)
    requires VecOper.IsMatrix(fmat, Combinatorics.NCOMB, Combinatorics.C) && Combinatorics.NonNegMatrix(fmat)
    requires |prior| == Combinatorics.C && VecOper.NonNeg(prior)
    requires |x| == Combinatorics.NCOMB && VecOper.NonNeg(x)
    ensures kt == Posteriors(Likelihood(fmat, prior))
    ensures pvec == EMPass(fmat, prior, x)
  {
    LikelihoodNonNeg(fmat, prior);
    var k := Likelihood(fmat, prior);
    var t := Transpose(k, Combinatorics.NCOMB, Combinatorics.C);
    forall i | 0 <= i < Combinatorics.NCOMB
      ensures VecOper.VSum(VecOper.GetColVec(t, i)) != 0.0
    {
      TransposeColumn(k, Combinatorics.NCOMB, Combinatorics.C, i);
      VecOper.VSumPositive(k[i]);
    }
    kt := Combinatorics.NormalizeColumns(t, Combinatorics.C, Combinatorics.NCOMB);
    PosteriorsAre(k, t, kt);
    pvec := NewCounts(kt, x);
  }

  lemma PosteriorsAre(k: seq<seq<real>>, t: seq<seq<real>>, kt: seq<seq<real>>)
    requires VecOper.IsMatrix(k, Combinatorics.NCOMB, Combinatorics.C) && Combinatorics.NonNegMatrix(k)
    requires t == Transpose(k, Combinatorics.NCOMB, Combinatorics.C)
    requires VecOper.IsMatrix(kt, Combinatorics.C, Combinatorics.NCOMB)
    requires forall i :: 0 <= i < Combinatorics.NCOMB ==>
      VecOper.VSum(VecOper.GetColVec(t, i)) != 0.0 &&
      VecOper.GetColVec(kt, i) == VecOper.NVec(VecOper.GetColVec(t, i))
    ensures kt == Posteriors(k)
  {
    var p := Posteriors(k);
    forall j | 0 <= j < Combinatorics.C
      ensures kt[j] == p[j]
    {
      forall i | 0 <= i < Combinatorics.NCOMB
        ensures kt[j][i] == p[j][i]
      {
        TransposeColumn(k, Combinatorics.NCOMB, Combinatorics.C, i);
        assert kt[j][i] == VecOper.GetColVec(kt, i)[j];
        assert VecOper.GetColVec(kt, i) == Fractions(k[i]);
      }
    }
  }

  /** n EM iterations from the given prior; the prior matrix's diagonal is
      overwritten with the new counts after every pass. */
  method RunEM(fmat: seq<seq<real>>, prior0: seq<real>, x: seq<real>, n: nat) returns (pvec: seq<real>)
    requires VecOper.IsMatrix(fmat, Combinatorics.NCOMB, Combinatorics.C) && Combinatorics.NonNegMatrix(fmat)
    requires |prior0| == Combinatorics.C && VecOper.NonNeg(prior0)
    requires |x| == Combinatorics.NCOMB && VecOper.NonNeg(x)
    ensures pvec == EMIterate(fmat, prior0, x, n)
  {
    pvec := prior0;
    var it := 0;
    while it < n
      invariant 0 <= it <= n
      invariant pvec == EMIterate(fmat, prior0, x, it)
    {
      var kt;
      kt, pvec := EMStep(fmat, pvec, x);
      it := it + 1;
    }
  }

  // ---------------------------------------------------------------------
  // The random initial prior of a bootstrap replica

  /** Draws of the generator's uniform stream lie in (0, 1]. */
  predicate UniformDraws(rnd: seq<real>)
  {
    |rnd| == Combinatorics.C && forall i :: 0 <= i < |rnd| ==> 0.0 < rnd[i] <= 1.0
  }

  lemma DrawsPositive(rnd: seq<real>)
    requires UniformDraws(rnd)
    ensures VecOper.Sum(rnd) > 0.0
  {
    VecOper.SumBoundsEntry(rnd, 0);
  }

  /** The diagonal of the per-replica prior: each draw divided by the draw
      total times vsum of the replica. */
  function Prior(rnd: seq<real>, x: seq<real>): (p: seq<real>)
    requires UniformDraws(rnd) && VecOper.NonNeg(x)
    ensures |p| == Combinatorics.C
  {
    DrawsPositive(rnd);
    VecOper.VSumPositive(x);
    seq(Combinatorics.C, i requires 0 <= i < Combinatorics.C => rnd[i] / (VecOper.Sum(rnd) * VecOper.VSum(x)))
  }

  /** The prior is positive on the diagonal, and its diagonal adds up to
      1 / vsum(x): the normalisation divides by the event total instead of
      multiplying by it. */
  lemma PriorProperties(rnd: seq<real>, x: seq<real>)
    requires UniformDraws(rnd) && VecOper.NonNeg(x)
    ensures forall i :: 0 <= i < Combinatorics.C ==> Prior(rnd, x)[i] > 0.0
    ensures VecOper.Sum(Prior(rnd, x)) * VecOper.VSum(x) == 1.0
  {
    DrawsPositive(rnd);
    VecOper.VSumPositive(x);
    var r, v := VecOper.Sum(rnd), VecOper.VSum(x);
    var q := 1.0 / (r * v);
    var p := Prior(rnd, x);
    forall i | 0 <= i < Combinatorics.C
      ensures p[i] == VecOper.ScaleVec(rnd, q)[i] && p[i] > 0.0
    {
      VecOper.DivIsMulInverse(rnd[i], r * v);
    }
    assert p == VecOper.ScaleVec(rnd, q);
    VecOper.ScaleVecSum(rnd, q);
    InverseOfProduct(r, v);
  }

  lemma InverseOfProduct(r: real, v: real)
    requires r > 0.0 && v > 0.0
    ensures r * (1.0 / (r * v)) * v == 1.0
  {
    var q := 1.0 / (r * v);
    assert q * (r * v) == 1.0;
  }

  /** The random initialisation of Pmat inside the bootstrap loop: diagonal
      draws summed into rsum, then divided by rsum * vsum(x_boot). */
  method InitialPrior(rnd: seq<real>, x: seq<real>) returns (prior: seq<real>)
    requires UniformDraws(rnd) && VecOper.NonNeg(x)
    ensures prior == Prior(rnd, x)
  {
    DrawsPositive(rnd);
    VecOper.VSumPositive(x);
    prior := seq(Combinatorics.C, _ => 0.0);
    var rsum := 0.0;
    var i := 0;
    while i < Combinatorics.C
      invariant 0 <= i <= Combinatorics.C && |prior| == Combinatorics.C
      invariant rsum == VecOper.Sum(rnd[..i])
      invariant forall k :: 0 <= k < i ==> prior[k] == rnd[k]
    {
      assert rnd[..i + 1][..i] == rnd[..i];
      prior := prior[i := rnd[i]];
      rsum := rsum + prior[i];
      i := i + 1;
    }
    assert rnd[..Combinatorics.C] == rnd;
    i := 0;
    while i < Combinatorics.C
      invariant 0 <= i <= Combinatorics.C && |prior| == Combinatorics.C
      invariant forall k :: 0 <= k < i ==> prior[k] == Prior(rnd, x)[k]
      invariant forall k :: i <= k < Combinatorics.C ==> prior[k] == rnd[k]
    {
      assert Prior(rnd, x)[i] == rnd[i] / (rsum * VecOper.VSum(x));
      prior := prior[i := prior[i] / (rsum * VecOper.VSum(x))];
      i := i + 1;
    }
  }

  // ---------------------------------------------------------------------
  // One bootstrap replica

  /** Fit measures of one replica. */
  datatype Metrics = Metrics(logL: real, kl: real, ks: real, chi2: real)

  /** Process fractions of one replica: nvec of the counts after N_EM_ITER
      EM passes from the random prior. */
  function ReplicaFractions(fmat: seq<seq<real>>, x: seq<real>, rnd: seq<real>): (p: seq<real>)
    requires VecOper.IsMatrix(fmat, Combinatorics.NCOMB, Combinatorics.C) && Combinatorics.NonNegMatrix(fmat)
    requires |x| == Combinatorics.NCOMB && VecOper.NonNeg(x) && UniformDraws(rnd)
    ensures |p| == Combinatorics.C
  {
    PriorProperties(rnd, x);
    Fractions(EMIterate(fmat, Prior(rnd, x), x, N_EM_ITER))
  }

  /** A replica's process fractions lie in [0, 1) and add up to less than one. */
  lemma ReplicaFractionBounds(fmat: seq<seq<real>>, x: seq<real>, rnd: seq<real>)
    requires VecOper.IsMatrix(fmat, Combinatorics.NCOMB, Combinatorics.C) && Combinatorics.NonNegMatrix(fmat)
    requires |x| == Combinatorics.NCOMB && VecOper.NonNeg(x) && UniformDraws(rnd)
    ensures FractionRow(ReplicaFractions(fmat, x, rnd))
  {
    PriorProperties(rnd, x);
    VecOper.NVecSum(EMIterate(fmat, Prior(rnd, x), x, N_EM_ITER));
  }

  /** A vector of process fractions: C non-negative entries adding up to at
      most one. */
  predicate FractionRow(r: seq<real>)
  {
    |r| == Combinatorics.C && VecOper.NonNeg(r) && VecOper.Sum(r) <= 1.0
  }

  /** Every replica is a vector of fractions. */
  predicate FractionRows(cprob: seq<seq<real>>)
  {
    (forall k :: 0 <= k < |cprob| ==> |cprob[k]| == Combinatorics.C) &&
    forall k :: 0 <= k < |cprob| ==> FractionRow(cprob[k])
  }

  /** Fit measures of one replica: the log-likelihood of its fractions, and
      the KL, Kolmogorov-Smirnov and chi^2 distances of the normalised
      replica from the normalised synthesized measurement
      x_hat = F p vsum(x) (chi^2 on the unnormalised vectors). KL and the
      log-likelihood are the given functions. The KS and chi^2 distances
      are never negative. */
  function ReplicaMetrics(fmat: seq<seq<real>>, x: seq<real>, rnd: seq<real>,
                          kl: (seq<real>, seq<real>) -> real,
                          logL: (seq<real>, seq<real>, seq<seq<real>>) -> real): (met: Metrics)
    requires VecOper.IsMatrix(fmat, Combinatorics.NCOMB, Combinatorics.C) && Combinatorics.NonNegMatrix(fmat)
    requires |x| == Combinatorics.NCOMB && VecOper.NonNeg(x) && UniformDraws(rnd)
    ensures met.ks >= 0.0 && met.chi2 >= 0.0
  {
    var p := ReplicaFractions(fmat, x, rnd);
    ReplicaFractionBounds(fmat, x, rnd);
    VecOper.VSumPositive(x);
    var xhat := VecOper.XHat(fmat, p, VecOper.VSum(x));
    VecOper.XHatNonNeg(fmat, p, VecOper.VSum(x));
    VecOper.VSumPositive(xhat);
    var xn := VecOper.NVec(x);
    var xhatn := VecOper.NVec(xhat);
    VecOper.KSProperties(xn, xhatn);
    VecOper.Chi2NonNeg(x, xhat, |x|);
    Metrics(logL(x, p, fmat), kl(xn, xhatn), VecOper.KSFold(xn, xhatn, |xn|), VecOper.Chi2(x, xhat, |x|))
  }

  /** The body of the bootstrap loop for replica x: random prior, EM passes,
      process fractions, then the synthesized measurement x_hat = F p vsum(x)
      and the fit measures. KL and the log-likelihood are the given
      functions. */
  method FitReplica(fmat: seq<seq<real>>, x: seq<real>, rnd: seq<real>,
                    kl: (seq<real>, seq<real>) -> real,
                    logL: (seq<real>, seq<real>, seq<seq<real>>) -> real)
    returns (p: seq<real>, met: Metrics)
    requires VecOper.IsMatrix(fmat, Combinatorics.NCOMB, Combinatorics.C) && Combinatorics.NonNegMatrix(fmat)
    requires |x| == Combinatorics.NCOMB && VecOper.NonNeg(x) && UniformDraws(rnd)
    ensures p == ReplicaFractions(fmat, x, rnd)
    ensures met == ReplicaMetrics(fmat, x, rnd, kl, logL)
  {
    var prior := InitialPrior(rnd, x);
    PriorProperties(rnd, x);
    var pvec := RunEM(fmat, prior, x, N_EM_ITER);
    VecOper.NVecSum(pvec);
    p := VecOper.NVec(pvec);
    VecOper.VSumPositive(x);
    var xhat := VecOper.GenerateXHat(fmat, p, VecOper.VSum(x));
    VecOper.VSumPositive(xhat);
    var xn := VecOper.NVec(x);
    var xhatn := VecOper.NVec(xhat);
    var ks := VecOper.CalcKS(xn, xhatn);
    var chi2 := VecOper.CalcChi2(x, xhat);
    met := Metrics(logL(x, p, fmat), kl(xn, xhatn), ks, chi2);
  }

  // ---------------------------------------------------------------------
  // Aggregation of the replicas

  /** A cross section with its uncertainties, the Monte Carlo efficiency and
      the fit measures averaged over the replicas. */
  datatype CrossSection = CrossSection(value: real, stat: real, lumi: real, eff: real, fit: Metrics)

  /** Bootstrap mean of process fraction p over the replicas. */
  function BootMean(cprob: seq<seq<real>>, p: nat): real
    requires |cprob| == N_BOOTSTRAP && p < Combinatorics.C
    requires forall k :: 0 <= k < |cprob| ==> |cprob[k]| == Combinatorics.C
  {
    CSum(cprob, p, N_BOOTSTRAP) / N_BOOTSTRAP as real
  }

  /** Sum over the first n replicas of the squared deviation of the scaled
      fraction from the value. */
  function SqDev(cprob: seq<seq<real>>, p: nat, value: real, norm: real, n: nat): real
    requires n <= |cprob| && p < Combinatorics.C
    requires forall k :: 0 <= k < |cprob| ==> |cprob[k]| == Combinatorics.C
  {
    if n == 0 then 0.0
    else
      var d := value - cprob[n - 1][p] * norm;
      SqDev(cprob, p, value, norm, n - 1) + d * d
  }

  lemma {:induction false} SqDevNonNeg(cprob: seq<seq<real>>, p: nat, value: real, norm: real, n: nat)
    requires n <= |cprob| && p < Combinatorics.C
    requires forall k :: 0 <= k < |cprob| ==> |cprob[k]| == Combinatorics.C
    ensures SqDev(cprob, p, value, norm, n) >= 0.0
  {
    if n > 0 {
      SqDevNonNeg(cprob, p, value, norm, n - 1);
      var d := value - cprob[n - 1][p] * norm;
      assert d * d >= 0.0;
    }
  }

  /** Mean of a metric over the replicas: vsum (with its 1e-12 floor) over
      the count. */
  function MetricMean(v: seq<real>): real
    requires |v| > 0
  {
    VecOper.VSum(v) / |v| as real
  }

  /** The four fit measures averaged over the replicas. */
  function MeanMetrics(mets: seq<Metrics>): Metrics
    requires |mets| > 0
  {
    Metrics(MetricMean(seq(|mets|, k requires 0 <= k < |mets| => mets[k].logL)),
            MetricMean(seq(|mets|, k requires 0 <= k < |mets| => mets[k].kl)),
            MetricMean(seq(|mets|, k requires 0 <= k < |mets| => mets[k].ks)),
            MetricMean(seq(|mets|, k requires 0 <= k < |mets| => mets[k].chi2)))
  }

  /** The cross-section values of every process. */
  function Values(xs: seq<CrossSection>): (v: seq<real>)
    ensures |v| == |xs|
  {
    seq(|xs|, p requires 0 <= p < |xs| => xs[p].value)
  }

  /** x is the cross section of process p: value = bootstrap mean times the
      normalization, stat = the square root of the population variance of
      the scaled fractions, lumi = value times the relative normalization
      error. */
  predicate Summarises(x: CrossSection, cprob: seq<seq<real>>, p: nat, norm: real, relErr: real,
                       eff: real, fit: Metrics, sqrt: real -> real)
    requires |cprob| == N_BOOTSTRAP && p < Combinatorics.C
    requires forall k :: 0 <= k < |cprob| ==> |cprob[k]| == Combinatorics.C
  {
    && x.value == BootMean(cprob, p) * norm
    && x.stat == sqrt(SqDev(cprob, p, x.value, norm, N_BOOTSTRAP) / N_BOOTSTRAP as real)
    && x.lumi == x.value * relErr
    && x.eff == eff && x.fit == fit
  }

  /** Aggregation of EMsub: one cross section per process, every one carrying
      the replica-averaged fit measures. The statistical uncertainty is never
      negative. */
  method Aggregate(cprob: seq<seq<real>>, mets: seq<Metrics>, eff: seq<real>, norm: real, relErr: real,
                   sqrt: real -> real) returns (xs: seq<CrossSection>)
    requires |cprob| == N_BOOTSTRAP && |mets| == N_BOOTSTRAP && |eff| == Combinatorics.C
    requires forall k :: 0 <= k < |cprob| ==> |cprob[k]| == Combinatorics.C
    requires forall v :: v >= 0.0 ==> sqrt(v) >= 0.0
    ensures |xs| == Combinatorics.C
    ensures forall p :: 0 <= p < Combinatorics.C ==>
      Summarises(xs[p], cprob, p, norm, relErr, eff[p], MeanMetrics(mets), sqrt) && xs[p].stat >= 0.0
  {
    var fit := MeanMetrics(mets);
    xs := [];
    var p := 0;
    while p < Combinatorics.C
      invariant 0 <= p <= Combinatorics.C && |xs| == p
      invariant forall q :: 0 <= q < p ==>
        Summarises(xs[q], cprob, q, norm, relErr, eff[q], fit, sqrt) && xs[q].stat >= 0.0
    {
      var value := ProcessValue(cprob, p, norm);
      var variance := ProcessVariance(cprob, p, value, norm);
      SqDevNonNeg(cprob, p, value, norm, N_BOOTSTRAP);
      xs := xs + [CrossSection(value, sqrt(variance), value * relErr, eff[p], fit)];
      p := p + 1;
    }
  }

  /** Mean of process p over the replicas, scaled to the normalization. */
  method ProcessValue(cprob: seq<seq<real>>, p: nat, norm: real) returns (value: real)
    requires |cprob| == N_BOOTSTRAP && p < Combinatorics.C
    requires forall k :: 0 <= k < |cprob| ==> |cprob[k]| == Combinatorics.C
    ensures value == BootMean(cprob, p) * norm
  {
    value := 0.0;
    var k := 0;
    while k < N_BOOTSTRAP
      invariant 0 <= k <= N_BOOTSTRAP && value == CSum(cprob, p, k)
    {
      value := value + cprob[k][p];
      k := k + 1;
    }
    value := value / N_BOOTSTRAP as real;
    value := value * norm;
  }

  /** Population variance of the scaled fractions of process p. */
  method ProcessVariance(cprob: seq<seq<real>>, p: nat, value: real, norm: real) returns (variance: real)
    requires |cprob| == N_BOOTSTRAP && p < Combinatorics.C
    requires forall k :: 0 <= k < |cprob| ==> |cprob[k]| == Combinatorics.C
    ensures variance == SqDev(cprob, p, value, norm, N_BOOTSTRAP) / N_BOOTSTRAP as real
  {
    variance := 0.0;
    var k := 0;
    while k < N_BOOTSTRAP
      invariant 0 <= k <= N_BOOTSTRAP && variance == SqDev(cprob, p, value, norm, k)
    {
      var d := value - cprob[k][p] * norm;
      variance := variance + d * d;
      k := k + 1;
    }
    variance := variance / N_BOOTSTRAP as real;
  }

  /** With every replica a vector of fractions and a non-negative
      normalization, each value lies in [0, normalization] and the values of
      all processes add up to at most the normalization. */
  lemma ValueBounds(cprob: seq<seq<real>>, norm: real, vals: seq<real>)
    requires |cprob| == N_BOOTSTRAP && FractionRows(cprob) && norm >= 0.0
    requires |vals| == Combinatorics.C
    requires forall p :: 0 <= p < Combinatorics.C ==> vals[p] == BootMean(cprob, p) * norm
    ensures forall p :: 0 <= p < Combinatorics.C ==> 0.0 <= vals[p] <= norm
    ensures VecOper.Sum(vals) <= norm
  {
    var n := N_BOOTSTRAP as real;
    RowTotalBound(cprob, N_BOOTSTRAP);
    TotalSwap(cprob, N_BOOTSTRAP, Combinatorics.C);
    forall p | 0 <= p < Combinatorics.C
      ensures 0.0 <= vals[p] <= norm
    {
      ColumnBound(cprob, p, N_BOOTSTRAP);
      MeanScaled(CSum(cprob, p, N_BOOTSTRAP), n, norm);
      var t := CSum(cprob, p, N_BOOTSTRAP);
      assert vals[p] == t / n * norm;
      assert 0.0 <= t / n * norm <= norm;
    }
    ValuesTotal(cprob, norm, vals, Combinatorics.C);
    ColTotalNonNeg(cprob, Combinatorics.C);
    MeanScaled(ColTotal(cprob, N_BOOTSTRAP, Combinatorics.C), n, norm);
    PSumIsSum(vals, Combinatorics.C);
    assert vals[..Combinatorics.C] == vals;
  }

  lemma MeanScaled(t: real, n: real, norm: real)
    requires 0.0 <= t <= n && n > 0.0 && norm >= 0.0
    ensures 0.0 <= t / n * norm <= norm
  {
    assert t / n <= 1.0;
    assert t / n * norm <= 1.0 * norm;
  }

  lemma {:induction false} ValuesTotal(cprob: seq<seq<real>>, norm: real, vals: seq<real>, m: nat)
    requires |cprob| == N_BOOTSTRAP && forall k :: 0 <= k < |cprob| ==> |cprob[k]| == Combinatorics.C
    requires m <= Combinatorics.C
    requires |vals| == Combinatorics.C
    requires forall p :: 0 <= p < Combinatorics.C ==> vals[p] == BootMean(cprob, p) * norm
    ensures PSum(vals, m) == ColTotal(cprob, N_BOOTSTRAP, m) / N_BOOTSTRAP as real * norm
  {
    if m > 0 {
      ValuesTotal(cprob, norm, vals, m - 1);
      MeanAdd(ColTotal(cprob, N_BOOTSTRAP, m - 1), CSum(cprob, m - 1, N_BOOTSTRAP), N_BOOTSTRAP as real, norm);
    }
  }

  lemma MeanAdd(a: real, b: real, n: real, norm: real)
    requires n > 0.0
    ensures a / n * norm + b / n * norm == (a + b) / n * norm
  {
  }

  /** Every fraction of a replica is at most one, so a column sum over n
      replicas is at most n. */
  lemma {:induction false} ColumnBound(cprob: seq<seq<real>>, p: nat, n: nat)
    requires n <= |cprob| && p < Combinatorics.C && FractionRows(cprob)
    ensures 0.0 <= CSum(cprob, p, n) <= n as real
  {
    if n > 0 {
      ColumnBound(cprob, p, n - 1);
      VecOper.SumBoundsEntry(cprob[n - 1], p);
    }
  }

  lemma {:induction false} RowTotalBound(cprob: seq<seq<real>>, n: nat)
    requires n <= |cprob| && FractionRows(cprob)
    ensures RowTotal(cprob, n, Combinatorics.C) <= n as real
  {
    if n > 0 {
      RowTotalBound(cprob, n - 1);
      PSumIsSum(cprob[n - 1], Combinatorics.C);
      assert cprob[n - 1][..Combinatorics.C] == cprob[n - 1];
    }
  }

  lemma {:induction false} ColTotalNonNeg(cprob: seq<seq<real>>, m: nat)
    requires |cprob| == N_BOOTSTRAP && FractionRows(cprob)
    requires m <= Combinatorics.C
    ensures ColTotal(cprob, N_BOOTSTRAP, m) >= 0.0
  {
    if m > 0 {
      ColTotalNonNeg(cprob, m - 1);
      ColumnBound(cprob, m - 1, N_BOOTSTRAP);
    }
  }

  // ---------------------------------------------------------------------
  // First minimum of a grid scan

  /** (i, j) comes before (ni, nj) in the row-by-row scan order. */
  predicate Before(i: nat, j: nat, ni: nat, nj: nat)
  {
    i < ni || (i == ni && j < nj)
  }

  /** The state of a scan that started from (top, 0, 0) and has visited every
      point before (ni, nj): m is the smallest cost seen (or top), (bi, bj)
      the first point that attains it, and every earlier point costs more. */
  predicate Scanned(cols: nat, cost: (nat, nat) -> real, top: real, ni: nat, nj: nat, m: real, bi: nat, bj: nat)
  {
    && m <= top
    && (forall i: nat, j: nat :: i <= ni && j < cols && Before(i, j, ni, nj) ==> cost(i, j) >= m)
    && (m < top ==> bj < cols && Before(bi, bj, ni, nj) && cost(bi, bj) == m
                    && forall i: nat, j: nat :: i <= bi && j < cols && Before(i, j, bi, bj) ==> cost(i, j) > m)
    && (m == top ==> bi == 0 && bj == 0)
  }

  /** The inner loop of a scan: row i, column by column, keeping a point
      only when it is strictly below the current minimum. */
  method ScanRow(cols: nat, cost: (nat, nat) -> real, top: real, i: nat, m0: real, bi0: nat, bj0: nat)
    returns (m: real, bi: nat, bj: nat)
    requires Scanned(cols, cost, top, i, 0, m0, bi0, bj0)
    ensures Scanned(cols, cost, top, i + 1, 0, m, bi, bj)
  {
    m, bi, bj := m0, bi0, bj0;
    var j := 0;
    while j < cols
      invariant 0 <= j <= cols
      invariant Scanned(cols, cost, top, i, j, m, bi, bj)
    {
      if cost(i, j) < m {
        m, bi, bj := cost(i, j), i, j;
      }
      j := j + 1;
    }
  }

  /** Scan of a rows x cols grid from the initial minimum top: the result is
      the smallest cost (or top when no point is below it) and the
      lexicographically first point attaining it; (0, 0) when none is. */
  method FirstMinimum(rows: nat, cols: nat, cost: (nat, nat) -> real, top: real) returns (m: real, bi: nat, bj: nat)
    ensures m <= top
    ensures forall i: nat, j: nat :: i < rows && j < cols ==> cost(i, j) >= m
    ensures m < top ==> bi < rows && bj < cols && cost(bi, bj) == m
    ensures m < top ==> forall i: nat, j: nat :: i <= bi && j < cols && Before(i, j, bi, bj) ==> cost(i, j) > m
    ensures m == top ==> bi == 0 && bj == 0
  {
    m, bi, bj := top, 0, 0;
    var i := 0;
    while i < rows
      invariant 0 <= i <= rows
      invariant Scanned(cols, cost, top, i, 0, m, bi, bj)
    {
      m, bi, bj := ScanRow(cols, cost, top, i, m, bi, bj);
      i := i + 1;
    }
  }

  /** Initial minimum of the (delta, xi_max) scan. */
  const KL_TOP: real := 100000000000000000000000000000000.0

  /** The optimal grid point of EstimateEM for one extraction level: the
      first (delta, xi_max) point in scan order whose mean KL divergence is
      strictly the smallest; (0, 0) if no mean is below 1e32. */
  method BestGridPoint(klMean: seq<seq<real>>, rows: nat, cols: nat) returns (minKL: real, bi: nat, bj: nat)
    requires VecOper.IsMatrix(klMean, rows, cols)
    ensures minKL <= KL_TOP
    ensures forall i, j :: 0 <= i < rows && 0 <= j < cols ==> klMean[i][j] >= minKL
    ensures minKL < KL_TOP ==> bi < rows && bj < cols && klMean[bi][bj] == minKL
    ensures minKL < KL_TOP ==> forall i, j :: 0 <= i < rows && 0 <= j < cols && Before(i, j, bi, bj) ==> klMean[i][j] > minKL
    ensures minKL == KL_TOP ==> bi == 0 && bj == 0
  {
    var cost := (i: nat, j: nat) => if i < |klMean| && j < |klMean[i]| then klMean[i][j] else 0.0;
    minKL, bi, bj := FirstMinimum(rows, cols, cost, KL_TOP);
    assert forall i, j :: 0 <= i < rows && 0 <= j < cols ==> cost(i, j) == klMean[i][j];
  }

  // ---------------------------------------------------------------------
  // Efficiency grid search of the final round

  /** Floating-point control weight of the SDL = SDR term, and the initial
      minimum of the search. */
  const LAMBDA: real := 0.05
  const L_TOP: real := 1000000000000000000000000000000000000000000000000000000000000000000000000000000000000000000000000000.0

  /** Double-diffractive efficiency from the two single-diffractive ones,
      assuming independence: P(A or B) = P(A) + P(B) - P(A) P(B). */
  function EffDD(a: real, b: real): real
  {
    (a + b) - a * b
  }

  /** For efficiencies in [0, 1] the double-diffractive one is at least
      either single one and at most one. */
  lemma EffDDBounds(a: real, b: real)
    requires 0.0 <= a <= 1.0 && 0.0 <= b <= 1.0
    ensures VecOper.Max(a, b) <= EffDD(a, b) <= 1.0
  {
    MulNonNeg(b, 1.0 - a);
    MulNonNeg(a, 1.0 - b);
    MulNonNeg(1.0 - a, 1.0 - b);
  }

  lemma MulNonNeg(x: real, y: real)
    requires x >= 0.0 && y >= 0.0
    ensures x * y >= 0.0
  {
  }

  /** Cost of an efficiency pair for an assumed total inelastic cross
      section: the squared miss of the extrapolated total plus the weighted
      squared SDL - SDR difference, divided twice by the total (over the
      reals the same as dividing by its square). */
  function Lagrangian(pv: seq<real>, a: real, b: real, effCD: real, effND: real, total: real): real
    requires |pv| == Combinatorics.C
    requires a != 0.0 && b != 0.0 && EffDD(a, b) != 0.0 && effCD != 0.0 && effND != 0.0 && total != 0.0
  {
    var t1 := pv[0] / a + pv[1] / b + pv[2] / EffDD(a, b) + pv[3] / effCD + pv[4] / effND - total;
    var t2 := pv[0] / a - pv[1] / b;
    (t1 * t1 + LAMBDA * (t2 * t2)) / total / total
  }

  lemma LagrangianNonNeg(pv: seq<real>, a: real, b: real, effCD: real, effND: real, total: real)
    requires |pv| == Combinatorics.C
    requires a != 0.0 && b != 0.0 && EffDD(a, b) != 0.0 && effCD != 0.0 && effND != 0.0 && total != 0.0
    ensures Lagrangian(pv, a, b, effCD, effND, total) >= 0.0
  {
    var t1 := pv[0] / a + pv[1] / b + pv[2] / EffDD(a, b) + pv[3] / effCD + pv[4] / effND - total;
    var t2 := pv[0] / a - pv[1] / b;
    WeightedSquaresNonNeg(t1, t2);
    DivTwiceNonNeg(t1 * t1 + LAMBDA * (t2 * t2), total);
  }

  lemma WeightedSquaresNonNeg(t1: real, t2: real)
    ensures t1 * t1 + LAMBDA * (t2 * t2) >= 0.0
  {
  }

  lemma DivTwiceNonNeg(x: real, t: real)
    requires x >= 0.0 && t != 0.0
    ensures x / t / t >= 0.0
  {
  }

  /** The single-diffractive efficiency grid: values in [0.5, 0.99). */
  predicate EffGrid(grid: seq<real>)
  {
    forall i :: 0 <= i < |grid| ==> 0.5 <= grid[i] < 0.99
  }

  lemma GridPairValid(a: real, b: real)
    requires 0.5 <= a < 0.99 && 0.5 <= b < 0.99
    ensures EffDD(a, b) > 0.0
  {
    EffDDBounds(a, b);
  }

  /** The CD efficiency with its 1e-12 floor. */
  function FlooredEff(e: real): real
  {
    e + VecOper.EPS
  }

  /** The Lagrangian at grid point (i, j), zero off the grid. */
  function GridCost(pv: seq<real>, effCD: real, effND: real, total: real, grid: seq<real>, i: nat, j: nat): real
    requires |pv| == Combinatorics.C && EffGrid(grid)
    requires effCD != 0.0 && effND != 0.0 && total != 0.0
  {
    if i < |grid| && j < |grid| then
      GridPairValid(grid[i], grid[j]);
      Lagrangian(pv, grid[i], grid[j], effCD, effND, total)
    else 0.0
  }

  /** One pass of the efficiency search for an assumed total inelastic cross
      section: best = (SDL, SDR, DD, CD, ND) efficiencies, CD and ND fixed
      from the Monte Carlo (CD with the 1e-12 floor), SDL and SDR the first
      grid pair in scan order with the strictly smallest Lagrangian, DD
      derived from them. The indices of that pair are returned as well.
      pv stands for the process counts the source's sweep reads: Pvec after
      the last EM pass of the last bootstrap replica (K^T x of that pass,
      not normalised). */
  method BestEfficiencies(pv: seq<real>, effCD: real, effND: real, total: real, grid: seq<real>)
    returns (minL: real, best: seq<real>, si: nat, sj: nat)
    requires |pv| == Combinatorics.C && EffGrid(grid)
    requires effCD >= 0.0 && effND != 0.0 && total > 0.0
    ensures |best| == 5 && best[3] == FlooredEff(effCD) && best[4] == effND
    ensures 0.0 <= minL <= L_TOP
    ensures forall i, j :: 0 <= i < |grid| && 0 <= j < |grid| ==>
      GridCost(pv, FlooredEff(effCD), effND, total, grid, i, j) >= minL
    ensures minL < L_TOP ==>
      && si < |grid| && sj < |grid|
      && minL == GridCost(pv, FlooredEff(effCD), effND, total, grid, si, sj)
      && best[0] == grid[si] && best[1] == grid[sj] && best[2] == EffDD(grid[si], grid[sj])
      && VecOper.Max(best[0], best[1]) <= best[2] <= 1.0
    ensures minL < L_TOP ==> forall i, j :: 0 <= i < |grid| && 0 <= j < |grid| && Before(i, j, si, sj) ==>
      GridCost(pv, FlooredEff(effCD), effND, total, grid, i, j) > minL
    ensures minL == L_TOP ==> best[0] == 0.0 && best[1] == 0.0 && best[2] == 0.0
  {
    var cd := FlooredEff(effCD);
    best := [0.0, 0.0, 0.0, cd, effND];
    var cost := (i: nat, j: nat) => GridCost(pv, cd, effND, total, grid, i, j);
    minL, si, sj := FirstMinimum(|grid|, |grid|, cost, L_TOP);
    forall i, j | 0 <= i < |grid| && 0 <= j < |grid|
      ensures GridCost(pv, cd, effND, total, grid, i, j) >= minL
    {
      assert cost(i, j) >= minL;
    }
    if minL < L_TOP {
      best := best[0 := grid[si]][1 := grid[sj]][2 := EffDD(grid[si], grid[sj])];
      EffDDBounds(grid[si], grid[sj]);
      GridPairValid(grid[si], grid[sj]);
      LagrangianNonNeg(pv, grid[si], grid[sj], cd, effND, total);
    }
  }

  // ---------------------------------------------------------------------
  // The fit driver

  /** What the fit reads from one analysed source: the Monte Carlo density
      matrices, the bootstrapped data matrices (bins x replicas) and the
      normalization cross sections. */
  datatype Source = Source(f: seq<seq<real>>, fGen: seq<seq<real>>,
                           bootXCorrected: seq<seq<real>>, bootXUnfolded: seq<seq<real>>,
                           visSigmaInel: real, visSigmaInelError: real,
                           fidSigmaInelUnfolded: real, totSigmaInelUnfolded: real)

  predicate DensityShape(f: seq<seq<real>>)
  {
    VecOper.IsMatrix(f, Combinatorics.NCOMB, Combinatorics.C) && Combinatorics.NonNegMatrix(f)
  }

  predicate BootShape(b: seq<seq<real>>)
  {
    VecOper.IsMatrix(b, Combinatorics.NCOMB, N_BOOTSTRAP) && Combinatorics.NonNegMatrix(b)
  }

  predicate SourceShape(s: Source)
  {
    DensityShape(s.f) && DensityShape(s.fGen) && BootShape(s.bootXCorrected) && BootShape(s.bootXUnfolded)
  }

  /** The density matrix of an extraction level: detector level for 1,
      generator level for 2 and 3. */
  function LevelDensity(s: Source, level: nat): seq<seq<real>>
  {
    if level == 1 then s.f else s.fGen
  }

  /** The normalization of an extraction level: visible, fiducial unfolded
      or total unfolded inelastic cross section. */
  function Normalization(s: Source, level: nat): real
  {
    if level == 2 then s.fidSigmaInelUnfolded else if level == 3 then s.totSigmaInelUnfolded else s.visSigmaInel
  }

  /** Relative luminosity error, taken from the visible cross section at
      every level. */
  function RelativeError(s: Source): real
    requires s.visSigmaInel != 0.0
  {
    s.visSigmaInelError / s.visSigmaInel
  }

  /** Bootstrap replica k: column k of a bootstrapped data matrix. */
  function Replica(b: seq<seq<real>>, k: nat): (x: seq<real>)
    requires BootShape(b) && k < N_BOOTSTRAP
    ensures |x| == Combinatorics.NCOMB && VecOper.NonNeg(x)
  {
    VecOper.GetColVec(b, k)
  }

  /** The process fractions of every replica. */
  function ReplicaMatrix(fn: seq<seq<real>>, b: seq<seq<real>>, draws: seq<seq<real>>): (cprob: seq<seq<real>>)
    requires DensityShape(fn) && BootShape(b)
    requires |draws| == N_BOOTSTRAP && forall k :: 0 <= k < N_BOOTSTRAP ==> UniformDraws(draws[k])
    ensures |cprob| == N_BOOTSTRAP && forall k :: 0 <= k < N_BOOTSTRAP ==> |cprob[k]| == Combinatorics.C
  {
    seq(N_BOOTSTRAP, k requires 0 <= k < N_BOOTSTRAP => ReplicaFractions(fn, Replica(b, k), draws[k]))
  }

  /** The fit measures of every replica. */
  function MetricsMatrix(fn: seq<seq<real>>, b: seq<seq<real>>, draws: seq<seq<real>>,
                         kl: (seq<real>, seq<real>) -> real,
                         logL: (seq<real>, seq<real>, seq<seq<real>>) -> real): (mets: seq<Metrics>)
    requires DensityShape(fn) && BootShape(b)
    requires |draws| == N_BOOTSTRAP && forall k :: 0 <= k < N_BOOTSTRAP ==> UniformDraws(draws[k])
    ensures |mets| == N_BOOTSTRAP
  {
    seq(N_BOOTSTRAP, k requires 0 <= k < N_BOOTSTRAP => ReplicaMetrics(fn, Replica(b, k), draws[k], kl, logL))
  }

  /** (int)(size - 1) with size an unsigned 64-bit count: the low 32 bits
      of size - 1 read as a signed integer (-1 for an empty list). */
  function LastIndex(size: nat): int
  {
    var w := (size + 0xFFFF_FFFF) % 0x1_0000_0000;
    if w >= 0x8000_0000 then w - 0x1_0000_0000 else w
  }

  /** The index test of EstimateEM. */
  predicate IndexAccepted(idx: int, size: nat)
  {
    !(idx > LastIndex(size) || idx < 0)
  }

  /** For any list of at most 2^31 sources the test accepts exactly the
      valid indices; an empty list rejects every index. */
  lemma IndexCheck(idx: int, size: nat)
    requires size <= 0x8000_0000
    ensures IndexAccepted(idx, size) <==> 0 <= idx < size
  {
    if size == 0 {
      assert LastIndex(size) == -1;
    } else {
      assert LastIndex(size) == size - 1;
    }
  }

  /** The level-2 preparation: the 0-bin row of every bootstrap replica set
      to zero, in place. */
  method ZeroBinRow(m: seq<seq<real>>) returns (r: seq<seq<real>>)
    requires |m| > 0
    ensures r == ZeroBinRemoved(m, 2)
  {
    r := m;
    var j := 0;
    while j < |m[0]|
      invariant 0 <= j <= |m[0]| && |r| == |m| && r[1..] == m[1..] && |r[0]| == |m[0]|
      invariant forall k :: 0 <= k < j ==> r[0][k] == 0.0
      invariant forall k :: j <= k < |m[0]| ==> r[0][k] == m[0][k]
    {
      r := r[0 := r[0][j := 0.0]];
      j := j + 1;
    }
    assert r[0] == seq(|m[0]|, _ => 0.0);
  }

  /** Driver of the fit over a list of sources. */
  class CombinatoricsSuper {
    const sources: seq<Source>
    /** Bootstrapped data matrices of the three extraction levels. */
    var bs1: seq<seq<real>>
    var bs2: seq<seq<real>>
    var bs3: seq<seq<real>>
    /** Cross sections per level, per delta and xi_max grid point. */
    var xsLevel1: seq<seq<seq<CrossSection>>>
    var xsLevel2: seq<seq<seq<CrossSection>>>
    var xsLevel3: seq<seq<seq<CrossSection>>>

    constructor (sources: seq<Source>)
      ensures this.sources == sources
      ensures bs1 == [] && bs2 == [] && bs3 == []
      ensures xsLevel1 == [] && xsLevel2 == [] && xsLevel3 == []
    {
      this.sources := sources;
      bs1, bs2, bs3 := [], [], [];
      xsLevel1, xsLevel2, xsLevel3 := [], [], [];
    }

    /** The bootstrapped data matrix of an extraction level. */
    function LevelBoot(level: nat): seq<seq<real>>
      reads this
    {
      if level == 1 then bs1 else if level == 2 then bs2 else bs3
    }

    /** The opening of EstimateEM: both indices are tested first and an
        invalid one returns with nothing touched; otherwise the level
        results are cleared and the three bootstrap matrices prepared (the
        corrected detector-level matrix, the unfolded matrix with its 0-bin
        zeroed, and the unfolded matrix as it is). */
    method EstimateEM(dataIndex: int, mcIndex: int) returns (ok: bool)
      requires 0 <= dataIndex < |sources| ==> |sources[dataIndex].bootXUnfolded| > 0
      modifies this
      ensures ok <==> IndexAccepted(dataIndex, |sources|) && IndexAccepted(mcIndex, |sources|)
      ensures !ok ==> bs1 == old(bs1) && bs2 == old(bs2) && bs3 == old(bs3)
      ensures !ok ==> xsLevel1 == old(xsLevel1) && xsLevel2 == old(xsLevel2) && xsLevel3 == old(xsLevel3)
      ensures ok ==> 0 <= dataIndex < |sources| && xsLevel1 == [] && xsLevel2 == [] && xsLevel3 == []
      ensures ok ==> bs1 == sources[dataIndex].bootXCorrected
      ensures ok ==> bs2 == ZeroBinRemoved(sources[dataIndex].bootXUnfolded, 2)
      ensures ok ==> bs3 == sources[dataIndex].bootXUnfolded
    {
      if dataIndex > LastIndex(|sources|) || dataIndex < 0 {
        return false;
      }
      if mcIndex > LastIndex(|sources|) || mcIndex < 0 {
        return false;
      }
      xsLevel1, xsLevel2, xsLevel3 := [], [], [];
      bs1 := sources[dataIndex].bootXCorrected;
      bs2 := ZeroBinRow(sources[dataIndex].bootXUnfolded);
      bs3 := sources[dataIndex].bootXUnfolded;
      ok := true;
    }

    /** EMsub at one extraction level, with the Monte Carlo source mcIndex
        and the data source dataIndex (see FitLevel). */
    method EMsub(dataIndex: nat, mcIndex: nat, level: nat, draws: seq<seq<real>>,
                 kl: (seq<real>, seq<real>) -> real,
                 logL: (seq<real>, seq<real>, seq<seq<real>>) -> real,
                 sqrt: real -> real)
      returns (xs: seq<CrossSection>, klv: seq<real>)
      requires dataIndex < |sources| && mcIndex < |sources| && 1 <= level <= 3
      requires SourceShape(sources[mcIndex]) && BootShape(LevelBoot(level))
      requires sources[dataIndex].visSigmaInel != 0.0
      requires |draws| == N_BOOTSTRAP && forall k :: 0 <= k < N_BOOTSTRAP ==> UniformDraws(draws[k])
      requires forall v :: v >= 0.0 ==> sqrt(v) >= 0.0
      ensures |xs| == Combinatorics.C && |klv| == N_BOOTSTRAP
      ensures FitsLevel(xs, LevelReplicas(sources[mcIndex], level, LevelBoot(level), draws),
                        LevelDensity(sources[mcIndex], level), level,
                        Normalization(sources[dataIndex], level), RelativeError(sources[dataIndex]),
                        MeanMetrics(LevelMetrics(sources[mcIndex], level, LevelBoot(level), draws, kl, logL)), sqrt)
      ensures forall k :: 0 <= k < N_BOOTSTRAP ==>
        klv[k] == LevelMetrics(sources[mcIndex], level, LevelBoot(level), draws, kl, logL)[k].kl
      ensures Normalization(sources[dataIndex], level) >= 0.0 ==>
        (forall p :: 0 <= p < Combinatorics.C ==> 0.0 <= xs[p].value <= Normalization(sources[dataIndex], level))
        && VecOper.Sum(Values(xs)) <= Normalization(sources[dataIndex], level)
    {
      xs, klv := FitLevel(sources[mcIndex], sources[dataIndex], level, LevelBoot(level), draws, kl, logL, sqrt);
    }
  }

  /** The process fractions of every bootstrap replica at one extraction
      level, fitted with the normalised density of the Monte Carlo source. */
  function LevelReplicas(mc: Source, level: nat, b: seq<seq<real>>, draws: seq<seq<real>>): (cprob: seq<seq<real>>)
    requires SourceShape(mc) && BootShape(b)
    requires |draws| == N_BOOTSTRAP && forall k :: 0 <= k < N_BOOTSTRAP ==> UniformDraws(draws[k])
    ensures |cprob| == N_BOOTSTRAP && forall k :: 0 <= k < N_BOOTSTRAP ==> |cprob[k]| == Combinatorics.C
  {
    ReplicaMatrix(NormalizedDensity(LevelDensity(mc, level), level), b, draws)
  }

  /** The cross sections of one extraction level: each value is the
      normalization times the bootstrap mean of the replicas' fractions;
      the efficiency is the one read from the Monte Carlo density f; the
      statistical error is the population standard deviation of the scaled
      fractions, so not negative; the luminosity error is the value times
      the relative normalization error; every process carries the fit
      measures averaged over the replicas. */
  predicate FitsLevel(xs: seq<CrossSection>, cprob: seq<seq<real>>, f: seq<seq<real>>, level: nat,
                      norm: real, relErr: real, fit: Metrics, sqrt: real -> real)
    requires |xs| == Combinatorics.C && VecOper.IsMatrix(f, Combinatorics.NCOMB, Combinatorics.C)
    requires |cprob| == N_BOOTSTRAP && forall k :: 0 <= k < N_BOOTSTRAP ==> |cprob[k]| == Combinatorics.C
  {
    forall p :: 0 <= p < Combinatorics.C ==>
      && xs[p].value == BootMean(cprob, p) * norm
      && xs[p].eff == Efficiency(f, level, p)
      && xs[p].stat == sqrt(SqDev(cprob, p, xs[p].value, norm, N_BOOTSTRAP) / N_BOOTSTRAP as real)
      && xs[p].stat >= 0.0
      && xs[p].lumi == xs[p].value * relErr
      && xs[p].fit == fit
  }

  /** The fit measures of every replica at one extraction level. */
  function LevelMetrics(mc: Source, level: nat, b: seq<seq<real>>, draws: seq<seq<real>>,
                        kl: (seq<real>, seq<real>) -> real,
                        logL: (seq<real>, seq<real>, seq<seq<real>>) -> real): (mets: seq<Metrics>)
    requires SourceShape(mc) && BootShape(b)
    requires |draws| == N_BOOTSTRAP && forall k :: 0 <= k < N_BOOTSTRAP ==> UniformDraws(draws[k])
    ensures |mets| == N_BOOTSTRAP
  {
    MetricsMatrix(NormalizedDensity(LevelDensity(mc, level), level), b, draws, kl, logL)
  }

  /** EMsub: the efficiencies and normalised densities of the Monte Carlo
      source, one EM fit per bootstrap replica of the data (draws[k] are the
      generator's draws for replica k), then the aggregation; klv holds the
      KL divergence of every replica. With a
      non-negative normalization every value lies in [0, normalization] and
      all of them add up to at most the normalization. */
  method FitLevel(mc: Source, data: Source, level: nat, b: seq<seq<real>>, draws: seq<seq<real>>,
                  kl: (seq<real>, seq<real>) -> real,
                  logL: (seq<real>, seq<real>, seq<seq<real>>) -> real,
                  sqrt: real -> real)
    returns (xs: seq<CrossSection>, klv: seq<real>)
    requires 1 <= level <= 3 && SourceShape(mc) && BootShape(b) && data.visSigmaInel != 0.0
    requires |draws| == N_BOOTSTRAP && forall k :: 0 <= k < N_BOOTSTRAP ==> UniformDraws(draws[k])
    requires forall v :: v >= 0.0 ==> sqrt(v) >= 0.0
    ensures |xs| == Combinatorics.C && |klv| == N_BOOTSTRAP
    ensures FitsLevel(xs, LevelReplicas(mc, level, b, draws), LevelDensity(mc, level), level,
                      Normalization(data, level), RelativeError(data),
                      MeanMetrics(LevelMetrics(mc, level, b, draws, kl, logL)), sqrt)
    ensures forall k :: 0 <= k < N_BOOTSTRAP ==> klv[k] == LevelMetrics(mc, level, b, draws, kl, logL)[k].kl
    ensures Normalization(data, level) >= 0.0 ==>
      (forall p :: 0 <= p < Combinatorics.C ==> 0.0 <= xs[p].value <= Normalization(data, level))
      && VecOper.Sum(Values(xs)) <= Normalization(data, level)
  {
    var f := LevelDensity(mc, level);
    var fn, eff := ExtractEfficiencies(f, level);
    var cprob, mets;
    cprob, mets, klv := FitReplicas(fn, b, draws, kl, logL);
    var norm := Normalization(data, level);
    var relErr := RelativeError(data);
    xs := Aggregate(cprob, mets, eff, norm, relErr, sqrt);
    SummaryFits(xs, cprob, f, level, norm, relErr, eff, MeanMetrics(mets), sqrt);
    assert mets == LevelMetrics(mc, level, b, draws, kl, logL);
    if norm >= 0.0 {
      ReplicaRows(fn, b, draws);
      SummaryBounds(cprob, xs, norm, relErr, eff, MeanMetrics(mets), sqrt);
    }
  }

  /** The bootstrap loop of EMsub: one fit per replica, the fractions
      collected row by row, the KL divergences kept for the caller. */
  method FitReplicas(fn: seq<seq<real>>, b: seq<seq<real>>, draws: seq<seq<real>>,
                     kl: (seq<real>, seq<real>) -> real,
                     logL: (seq<real>, seq<real>, seq<seq<real>>) -> real)
    returns (cprob: seq<seq<real>>, mets: seq<Metrics>, klv: seq<real>)
    requires DensityShape(fn) && BootShape(b)
    requires |draws| == N_BOOTSTRAP && forall k :: 0 <= k < N_BOOTSTRAP ==> UniformDraws(draws[k])
    ensures cprob == ReplicaMatrix(fn, b, draws)
    ensures mets == MetricsMatrix(fn, b, draws, kl, logL)
    ensures |klv| == N_BOOTSTRAP && forall k :: 0 <= k < N_BOOTSTRAP ==> klv[k] == mets[k].kl
  {
    cprob, mets, klv := [], [], [];
    var k := 0;
    while k < N_BOOTSTRAP
      invariant 0 <= k <= N_BOOTSTRAP && |cprob| == k && |mets| == k && |klv| == k
      invariant forall q :: 0 <= q < k ==> cprob[q] == ReplicaFractions(fn, Replica(b, q), draws[q])
      invariant forall q :: 0 <= q < k ==> mets[q] == ReplicaMetrics(fn, Replica(b, q), draws[q], kl, logL)
      invariant forall q :: 0 <= q < k ==> klv[q] == mets[q].kl
    {
      var p, met := FitReplica(fn, Replica(b, k), draws[k], kl, logL);
      cprob := cprob + [p];
      mets := mets + [met];
      klv := klv + [met.kl];
      k := k + 1;
    }
  }

  /** An aggregation with the efficiencies read from f gives the cross
      sections of that level. */
  lemma SummaryFits(xs: seq<CrossSection>, cprob: seq<seq<real>>, f: seq<seq<real>>, level: nat,
                    norm: real, relErr: real, eff: seq<real>, fit: Metrics, sqrt: real -> real)
    requires |cprob| == N_BOOTSTRAP && forall k :: 0 <= k < N_BOOTSTRAP ==> |cprob[k]| == Combinatorics.C
    requires VecOper.IsMatrix(f, Combinatorics.NCOMB, Combinatorics.C)
    requires |xs| == Combinatorics.C && |eff| == Combinatorics.C
    requires forall j :: 0 <= j < Combinatorics.C ==> eff[j] == Efficiency(f, level, j)
    requires forall p :: 0 <= p < Combinatorics.C ==>
      Summarises(xs[p], cprob, p, norm, relErr, eff[p], fit, sqrt) && xs[p].stat >= 0.0
    ensures FitsLevel(xs, cprob, f, level, norm, relErr, fit, sqrt)
  {
    forall p | 0 <= p < Combinatorics.C
      ensures xs[p].value == BootMean(cprob, p) * norm && xs[p].eff == Efficiency(f, level, p)
      ensures xs[p].stat == sqrt(SqDev(cprob, p, xs[p].value, norm, N_BOOTSTRAP) / N_BOOTSTRAP as real)
      ensures xs[p].lumi == xs[p].value * relErr && xs[p].fit == fit
    {
      assert Summarises(xs[p], cprob, p, norm, relErr, eff[p], fit, sqrt);
    }
  }

  /** The values of an aggregation of fraction rows with a non-negative
      normalization lie in [0, normalization] and add up to at most it. */
  lemma SummaryBounds(cprob: seq<seq<real>>, xs: seq<CrossSection>, norm: real, relErr: real,
                      eff: seq<real>, fit: Metrics, sqrt: real -> real)
    requires |cprob| == N_BOOTSTRAP && FractionRows(cprob) && norm >= 0.0
    requires |xs| == Combinatorics.C && |eff| == Combinatorics.C
    requires forall p :: 0 <= p < Combinatorics.C ==> Summarises(xs[p], cprob, p, norm, relErr, eff[p], fit, sqrt)
    ensures forall p :: 0 <= p < Combinatorics.C ==> 0.0 <= xs[p].value <= norm
    ensures VecOper.Sum(Values(xs)) <= norm
  {
    var vals := Values(xs);
    forall p | 0 <= p < Combinatorics.C
      ensures vals[p] == BootMean(cprob, p) * norm
    {
      assert Summarises(xs[p], cprob, p, norm, relErr, eff[p], fit, sqrt);
    }
    ValueBounds(cprob, norm, vals);
  }

  /** The replica matrix holds a vector of fractions in every row. */
  lemma ReplicaRows(fn: seq<seq<real>>, b: seq<seq<real>>, draws: seq<seq<real>>)
    requires DensityShape(fn) && BootShape(b)
    requires |draws| == N_BOOTSTRAP && forall k :: 0 <= k < N_BOOTSTRAP ==> UniformDraws(draws[k])
    ensures FractionRows(ReplicaMatrix(fn, b, draws))
  {
    forall k | 0 <= k < N_BOOTSTRAP
      ensures FractionRow(ReplicaMatrix(fn, b, draws)[k])
    {
      ReplicaFractionBounds(fn, Replica(b, k), draws[k]);
    }
  }
}
