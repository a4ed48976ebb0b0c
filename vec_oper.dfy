/**
 * Vector and matrix helpers of the combinatorial analysis (the numeric half
 * of src/VecOper.cc): sums with the 1e-12 floor, normalisation, beam-gas
 * subtraction, synthesized measurement vectors, multinomial and Poisson
 * bootstrap resampling (the random generator is an oracle), column access on
 * row-major matrices, sort indices, and the chi^2 and Kolmogorov-Smirnov
 * metrics. Doubles are modelled as reals.
 */
module VecOper {

  /** The 1e-12 floor the source adds to sums before dividing by them. */
  const EPS: real := 0.000000000001

  function Abs(x: real): real
  {
    if x < 0.0 then -x else x
  }

  function Max(a: real, b: real): real
  {
    if a < b then b else a
  }

  /** Plain sum of the entries, first to last. */
  function Sum(v: seq<real>): real
  {
    if v == [] then 0.0 else Sum(v[..|v| - 1]) + v[|v| - 1]
  }

  predicate NonNeg(v: seq<real>)
  {
    forall i :: 0 <= i < |v| ==> v[i] >= 0.0
  }

  /** A whole, non-negative number of events stored in a double. */
  predicate IsCount(x: real)
  {
    x >= 0.0 && x == x.Floor as real
  }

  predicate IsMatrix(m: seq<seq<real>>, rows: nat, cols: nat)
  {
    |m| == rows && forall i :: 0 <= i < rows ==> |m[i]| == cols
  }

  lemma {:induction false} SumNonNeg(v: seq<real>)
    requires NonNeg(v)
    ensures Sum(v) >= 0.0
  {
    if v != [] {
      SumNonNeg(v[..|v| - 1]);
    }
  }

  /** Adding d to one entry adds d to the sum. */
  lemma {:induction false} SumUpdate(v: seq<real>, k: nat, d: real)
    requires k < |v|
    ensures Sum(v[k := v[k] + d]) == Sum(v) + d
  {
    var w := v[k := v[k] + d];
    if k < |v| - 1 {
      assert w[..|w| - 1] == v[..|v| - 1][k := v[k] + d];
      SumUpdate(v[..|v| - 1], k, d);
    } else {
      assert w[..|w| - 1] == v[..|v| - 1];
    }
  }

  /** Every entry of a zero vector is zero, and so is its sum. */
  lemma {:induction false} SumZeros(n: nat)
    ensures Sum(seq(n, _ => 0.0)) == 0.0
  {
    if n > 0 {
      assert seq(n, _ => 0.0)[..n - 1] == seq(n - 1, _ => 0.0);
      SumZeros(n - 1);
    }
  }

  /** Sum of the entries plus the 1e-12 floor (vsum). */
  function VSum(v: seq<real>): real
  {
    EPS + Sum(v)
  }

  /** vsum of a non-negative vector is at least the floor, so it is a safe divisor. */
  lemma VSumPositive(v: seq<real>)
    requires NonNeg(v)
    ensures VSum(v) >= EPS
  {
    SumNonNeg(v);
  }

  /** The vector divided by its floored sum (nvec). Scaling back by that sum
      gives the input again. */
  function NVec(a: seq<real>): (r: seq<real>)
    requires VSum(a) != 0.0
    ensures |r| == |a|
    ensures forall i :: 0 <= i < |a| ==> r[i] * VSum(a) == a[i]
  {
    seq(|a|, i requires 0 <= i < |a| => a[i] / VSum(a))
  }

  /** The vector with every entry multiplied by s (scalevec). */
  function ScaleVec(a: seq<real>, s: real): (r: seq<real>)
    ensures |r| == |a|
  {
    seq(|a|, i requires 0 <= i < |a| => a[i] * s)
  }

  /** Scaling a vector scales its sum. */
  lemma {:induction false} ScaleVecSum(a: seq<real>, s: real)
    ensures Sum(ScaleVec(a, s)) == Sum(a) * s
  {
    if a != [] {
      var r, init := ScaleVec(a, s), a[..|a| - 1];
      assert r[..|a| - 1] == ScaleVec(init, s) by {
        forall i | 0 <= i < |a| - 1
          ensures r[i] == ScaleVec(init, s)[i]
        {
          assert r[i] == a[i] * s;
        }
      }
      ScaleVecSum(init, s);
      assert r[|a| - 1] == a[|a| - 1] * s;
    }
  }

  /** nvec is scalevec by the reciprocal of vsum. */
  lemma NVecIsScale(a: seq<real>)
    requires VSum(a) > 0.0
    ensures NVec(a) == ScaleVec(a, 1.0 / VSum(a))
  {
    var s := VSum(a);
    forall i | 0 <= i < |a|
      ensures NVec(a)[i] == ScaleVec(a, 1.0 / s)[i]
    {
      DivIsMulInverse(a[i], s);
    }
  }

  lemma DivIsMulInverse(x: real, s: real)
    requires s > 0.0
    ensures x / s == x * (1.0 / s)
  {
  }

  /** The entries of nvec(a) add up to sum(a) / vsum(a); for a non-negative
      vector they are fractions in [0, 1) whose total is below one. */
  lemma NVecSum(a: seq<real>)
    requires NonNeg(a)
    ensures VSum(a) > 0.0
    ensures Sum(NVec(a)) * VSum(a) == Sum(a)
    ensures 0.0 <= Sum(NVec(a)) < 1.0
    ensures forall i :: 0 <= i < |a| ==> 0.0 <= NVec(a)[i] < 1.0
  {
    VSumPositive(a);
    NVecScaleBack(a);
    NVecEntries(a);
  }

  lemma NVecScaleBack(a: seq<real>)
    requires NonNeg(a)
    ensures VSum(a) > 0.0
    ensures Sum(NVec(a)) * VSum(a) == Sum(a) && 0.0 <= Sum(NVec(a)) < 1.0
  {
    VSumPositive(a);
    SumNonNeg(a);
    NVecTotal(a);
    ScaledTotal(Sum(NVec(a)), Sum(a), VSum(a));
  }

  lemma NVecEntries(a: seq<real>)
    requires NonNeg(a)
    ensures VSum(a) > 0.0
    ensures forall i :: 0 <= i < |a| ==> 0.0 <= NVec(a)[i] < 1.0
  {
    VSumPositive(a);
    forall i | 0 <= i < |a|
      ensures 0.0 <= NVec(a)[i] < 1.0
    {
      NVecEntry(a, i);
    }
  }

  /** The entries of nvec(a) add up to sum(a) times the reciprocal of vsum(a). */
  lemma NVecTotal(a: seq<real>)
    requires VSum(a) > 0.0
    ensures Sum(NVec(a)) == Sum(a) * (1.0 / VSum(a))
  {
    NVecIsScale(a);
    ScaleVecSum(a, 1.0 / VSum(a));
  }

  lemma ScaledTotal(t: real, x: real, s: real)
    requires 0.0 <= x && x + EPS <= s && t == x * (1.0 / s)
    ensures t * s == x && 0.0 <= t < 1.0
  {
    FractionBelowOne(x, s);
    InverseCancel(x, s);
  }

  lemma NVecEntry(a: seq<real>, i: nat)
    requires NonNeg(a) && i < |a| && VSum(a) != 0.0
    ensures 0.0 <= NVec(a)[i] < 1.0
  {
    VSumPositive(a);
    SumBoundsEntry(a, i);
    FractionBelowOne(a[i], VSum(a));
  }

  lemma FractionBelowOne(x: real, s: real)
    requires 0.0 <= x && x + EPS <= s
    ensures 0.0 <= x * (1.0 / s) < 1.0 && x / s == x * (1.0 / s)
  {
    var q := 1.0 / s;
    assert q > 0.0;
    assert x / s == x * q;
    MulMono(x, s, q);
    assert s * q == 1.0;
  }

  lemma InverseCancel(x: real, s: real)
    requires s > 0.0
    ensures x * (1.0 / s) * s == x
  {
    var q := 1.0 / s;
    assert q * s == 1.0;
    assert x * q * s == x * (q * s);
  }

  lemma MulMono(a: real, b: real, q: real)
    requires a < b && q > 0.0
    ensures a * q < b * q
  {
  }

  /** An entry of a non-negative vector is at most its sum. */
  lemma {:induction false} SumBoundsEntry(a: seq<real>, i: nat)
    requires NonNeg(a) && i < |a|
    ensures a[i] <= Sum(a)
  {
    var init := a[..|a| - 1];
    if i < |a| - 1 {
      SumBoundsEntry(init, i);
      assert a[|a| - 1] >= 0.0;
    } else {
      SumNonNeg(init);
    }
  }

  /** std::round: nearest integer, halves rounded away from zero. */
  function Round(x: real): int
  {
    if x >= 0.0 then (x + 0.5).Floor else -((-x + 0.5).Floor)
  }

  /** Rounding leaves a whole non-negative number unchanged. */
  lemma RoundCount(x: real)
    requires IsCount(x)
    ensures Round(x) == x.Floor
  {
    assert (x + 0.5).Floor == x.Floor;
  }

  /** One entry of the beam-gas subtraction. */
  function BGEntry(b: real, xa: real, xc: real, xe: real, a: real, c: real, e: real): real
  {
    var y := Round(b - a * xa - c * xc + 2.0 * e * xe);
    if y < 0 then 0.0 else y as real
  }

  /** Statistical beam-gas subtraction Y = B - aA - cC + 2eE, rounded to whole
      events and floored at zero (BGSubstract). Every entry is a count; it is
      zero exactly when the raw estimate is below one half, and otherwise the
      integer nearest to the raw estimate. */
  function BGSubstract(xB: seq<real>, xA: seq<real>, xC: seq<real>, xE: seq<real>,
                       a: real, c: real, e: real): (y: seq<real>)
    requires |xA| >= |xB| && |xC| >= |xB| && |xE| >= |xB|
    ensures |y| == |xB|
    ensures forall i :: 0 <= i < |y| ==> IsCount(y[i])
    ensures forall i :: 0 <= i < |y| ==>
      var raw := xB[i] - a * xA[i] - c * xC[i] + 2.0 * e * xE[i];
      (y[i] == 0.0 <==> raw < 0.5) && (y[i] > 0.0 ==> y[i] - 0.5 <= raw < y[i] + 0.5)
  {
    seq(|xB|, i requires 0 <= i < |xB| => BGEntry(xB[i], xA[i], xC[i], xE[i], a, c, e))
  }

  /** Without beam-gas background the subtraction leaves a vector of counts
      unchanged. */
  lemma BGSubstractNoBackground(xB: seq<real>, zeros: seq<real>, a: real, c: real, e: real)
    requires forall i :: 0 <= i < |xB| ==> IsCount(xB[i])
    requires |zeros| >= |xB| && forall i :: 0 <= i < |zeros| ==> zeros[i] == 0.0
    ensures BGSubstract(xB, zeros, zeros, zeros, a, c, e) == xB
  {
    var y := BGSubstract(xB, zeros, zeros, zeros, a, c, e);
    forall i | 0 <= i < |xB|
      ensures y[i] == xB[i]
    {
      var z := zeros[i];
      assert z == 0.0;
      assert a * z == 0.0 && c * z == 0.0 && 2.0 * e * z == 0.0;
      RoundCount(xB[i]);
    }
  }

  /** Entry i of the synthesized measurement vector: row i of F weighted by the
      process fractions P and the scale, over the first n processes. */
  function RowFold(row: seq<real>, p: seq<real>, scale: real, n: nat): real
    requires n <= |p| && n <= |row|
  {
    if n == 0 then 0.0 else RowFold(row, p, scale, n - 1) + row[n - 1] * p[n - 1] * scale
  }

  lemma {:induction false} RowFoldNonNeg(row: seq<real>, p: seq<real>, scale: real, n: nat)
    requires n <= |p| && n <= |row| && NonNeg(row) && NonNeg(p) && scale >= 0.0
    ensures RowFold(row, p, scale, n) >= 0.0
  {
    if n > 0 {
      RowFoldNonNeg(row, p, scale, n - 1);
      assert row[n - 1] * p[n - 1] >= 0.0;
    }
  }

  /** The synthesized measurement vector x_hat = F P scale, one entry per
      row of F. */
  function XHat(f: seq<seq<real>>, p: seq<real>, scale: real): (xhat: seq<real>)
    requires forall i :: 0 <= i < |f| ==> |f[i]| >= |p|
    ensures |xhat| == |f|
  {
    seq(|f|, i requires 0 <= i < |f| => RowFold(f[i], p, scale, |p|))
  }

  /** With non-negative F, P and scale the synthesized measurement is
      non-negative. */
  lemma XHatNonNeg(f: seq<seq<real>>, p: seq<real>, scale: real)
    requires forall i :: 0 <= i < |f| ==> |f[i]| >= |p| && NonNeg(f[i])
    requires NonNeg(p) && scale >= 0.0
    ensures NonNeg(XHat(f, p, scale))
  {
    forall k | 0 <= k < |f|
      ensures XHat(f, p, scale)[k] >= 0.0
    {
      RowFoldNonNeg(f[k], p, scale, |p|);
    }
  }

  /** Monte Carlo synthesized measurement vector x_hat = F P scale
      (GenerateXHat): one entry per row of F. With non-negative F, P and scale
      it is non-negative. */
  method GenerateXHat(f: seq<seq<real>>, p: seq<real>, scale: real) returns (xhat: seq<real>)
    requires forall i :: 0 <= i < |f| ==> |f[i]| >= |p|
    ensures |xhat| == |f|
    ensures forall i :: 0 <= i < |f| ==> xhat[i] == RowFold(f[i], p, scale, |p|)
    ensures xhat == XHat(f, p, scale)
    ensures (forall i :: 0 <= i < |f| ==> NonNeg(f[i])) && NonNeg(p) && scale >= 0.0 ==> NonNeg(xhat)
  {
    xhat := seq(|f|, _ => 0.0);
    var i := 0;
    while i < |f|
      invariant 0 <= i <= |f| && |xhat| == |f|
      invariant forall k :: 0 <= k < i ==> xhat[k] == RowFold(f[k], p, scale, |p|)
    {
      var j := 0;
      var acc := 0.0;
      while j < |p|
        invariant 0 <= j <= |p|
        invariant acc == RowFold(f[i], p, scale, j)
      {
        acc := acc + f[i][j] * p[j] * scale;
        j := j + 1;
      }
      xhat := xhat[i := acc];
      i := i + 1;
    }
    if (forall i :: 0 <= i < |f| ==> NonNeg(f[i])) && NonNeg(p) && scale >= 0.0 {
      forall k | 0 <= k < |f|
        ensures xhat[k] >= 0.0
      {
        RowFoldNonNeg(f[k], p, scale, |p|);
      }
    }
  }

  /** One draw of the multinomial bootstrap: a bin from Integer(n) and a
      uniform number from Rndm(). */
  datatype Draw = Draw(bin: nat, u: real)

  /** The draws are what the generator can return for a vector of n bins:
      bins in [0, n) and uniform numbers strictly inside (0, 1). */
  predicate ValidDraws(draws: seq<Draw>, n: nat)
  {
    forall k :: 0 <= k < |draws| ==> draws[k].bin < n && 0.0 < draws[k].u < 1.0
  }

  /** Per-bin counts of the accepted draws: a draw is accepted when its
      uniform number is below the probability of its bin. */
  function Tally(prob: seq<real>, draws: seq<Draw>): (t: seq<real>)
    requires ValidDraws(draws, |prob|)
    ensures |t| == |prob|
  {
    if draws == [] then seq(|prob|, _ => 0.0)
    else
      var t := Tally(prob, draws[..|draws| - 1]);
      var d := draws[|draws| - 1];
      if d.u < prob[d.bin] then t[d.bin := t[d.bin] + 1.0] else t
  }

  /** Number of accepted draws. */
  function Accepted(prob: seq<real>, draws: seq<Draw>): nat
    requires ValidDraws(draws, |prob|)
  {
    if draws == [] then 0
    else
      var d := draws[|draws| - 1];
      Accepted(prob, draws[..|draws| - 1]) + (if d.u < prob[d.bin] then 1 else 0)
  }

  /** The tally holds whole counts adding up to the number of accepted draws,
      and a bin whose probability is not positive is never filled. */
  lemma {:induction false} TallyShape(prob: seq<real>, draws: seq<Draw>)
    requires ValidDraws(draws, |prob|)
    ensures Sum(Tally(prob, draws)) == Accepted(prob, draws) as real
    ensures forall i :: 0 <= i < |prob| ==> IsCount(Tally(prob, draws)[i])
    ensures forall i :: 0 <= i < |prob| && prob[i] <= 0.0 ==> Tally(prob, draws)[i] == 0.0
  {
    if draws == [] {
      SumZeros(|prob|);
    } else {
      var init := draws[..|draws| - 1];
      TallyShape(prob, init);
      var t := Tally(prob, init);
      var d := draws[|draws| - 1];
      if d.u < prob[d.bin] {
        SumUpdate(t, d.bin, 1.0);
        assert (t[d.bin] + 1.0).Floor == t[d.bin].Floor + 1;
      }
    }
  }

  /** One multinomial bootstrap vector (BootStrap): draws bins until nEvents
      draws were accepted. The generator is the oracle `draws`; if it runs dry
      first, `done` is false and every draw was used (the source would keep
      drawing, and never stops when no probability is positive). */
  method BootStrap(prob: seq<real>, nEvents: nat, draws: seq<Draw>)
    returns (vec: seq<real>, used: nat, done: bool)
    requires ValidDraws(draws, |prob|)
    ensures used <= |draws|
    ensures vec == Tally(prob, draws[..used])
    ensures done ==> Sum(vec) == nEvents as real
    ensures !done ==> used == |draws| && Sum(vec) < nEvents as real
    ensures forall i :: 0 <= i < |vec| ==> IsCount(vec[i])
    ensures forall i :: 0 <= i < |vec| && prob[i] <= 0.0 ==> vec[i] == 0.0
  {
    vec := seq(|prob|, _ => 0.0);
    var events: nat := 0;
    used := 0;
    assert draws[..0] == [];
    while events < nEvents && used < |draws|
      invariant used <= |draws|
      invariant vec == Tally(prob, draws[..used])
      invariant events == Accepted(prob, draws[..used])
      invariant events <= nEvents
    {
      var d := draws[used];
      assert draws[..used + 1][..used] == draws[..used];
      if d.u < prob[d.bin] {
        vec := vec[d.bin := vec[d.bin] + 1.0];
        events := events + 1;
      }
      used := used + 1;
    }
    done := events == nEvents;
    TallyShape(prob, draws[..used]);
  }

  /** Mean of the Poisson draw of a bin with probability p in a sample of n events. */
  function PoissonMean(p: real, n: nat): real
  {
    p * n as real
  }

  /** One Poisson bootstrap vector (BootStrapFast): bin i gets a Poisson draw
      with mean prob[i] * nEvents; `poisson(i, mean)` is the generator's draw
      for bin i. */
  method BootStrapFast(prob: seq<real>, nEvents: nat, poisson: (nat, real) -> nat)
    returns (vec: seq<real>)
    ensures |vec| == |prob|
    ensures forall i: nat :: i < |prob| ==> vec[i] == poisson(i, PoissonMean(prob[i], nEvents)) as real
    ensures forall i :: 0 <= i < |prob| ==> IsCount(vec[i])
  {
    vec := seq(|prob|, _ => 0.0);
    var i: nat := 0;
    while i < |prob|
      invariant 0 <= i <= |prob| && |vec| == |prob|
      invariant forall k: nat :: k < i ==> vec[k] == poisson(k, PoissonMean(prob[k], nEvents)) as real
    {
      var lambda := prob[i] * nEvents as real;
      vec := vec[i := poisson(i, lambda) as real];
      i := i + 1;
    }
  }

  /** The generator seen by one bootstrap matrix: the multinomial draws of
      every replica, and the Poisson draw poisson(j, i, mean) of bin i in
      replica j. */
  datatype BootOracle = BootOracle(draws: seq<seq<Draw>>, poisson: (nat, nat, real) -> nat)

  /** A replica column of the bootstrap matrix: whole counts; in multinomial
      mode the tally of a prefix of replica j's own draws, none in a bin of
      non-positive probability and exactly nEvents of them when the draws
      sufficed; in fast mode the bin's Poisson draw. */
  predicate ReplicaColumn(xrix: seq<seq<real>>, j: nat, prob: seq<real>, nEvents: nat,
                          fast: bool, oracle: BootOracle, complete: bool)
    requires |xrix| == |prob| && forall i :: 0 <= i < |xrix| ==> j < |xrix[i]|
  {
    (forall i :: 0 <= i < |prob| ==> IsCount(xrix[i][j]))
    && (fast ==> forall i: nat :: i < |prob| ==> xrix[i][j] == oracle.poisson(j, i, PoissonMean(prob[i], nEvents)) as real)
    && (!fast ==> forall i :: 0 <= i < |prob| && prob[i] <= 0.0 ==> xrix[i][j] == 0.0)
    && (!fast ==> j < |oracle.draws|)
    && (!fast ==> exists u: nat :: (j < |oracle.draws| && u <= |oracle.draws[j]|
                                     && ValidDraws(oracle.draws[j][..u], |prob|)
                                     && GetColVec(xrix, j) == Tally(prob, oracle.draws[j][..u])))
    && (!fast && complete ==> Sum(GetColVec(xrix, j)) == nEvents as real)
  }

  /** A bootstrap matrix with one row per bin and one column per replica
      (CreateBootStrapSample); `done` tells whether every multinomial replica
      got its nEvents accepted draws from the oracle. */
  method CreateBootStrapSample(prob: seq<real>, nEvents: nat, nSample: nat, fast: bool, oracle: BootOracle)
    returns (xrix: seq<seq<real>>, done: bool)
    requires !fast ==> |oracle.draws| >= nSample && forall j :: 0 <= j < nSample ==> ValidDraws(oracle.draws[j], |prob|)
    ensures IsMatrix(xrix, |prob|, nSample)
    ensures forall j :: 0 <= j < nSample ==> ReplicaColumn(xrix, j, prob, nEvents, fast, oracle, done)
  {
    xrix := seq(|prob|, _ => seq(nSample, _ => 0.0));
    done := true;
    var j := 0;
    while j < nSample
      invariant 0 <= j <= nSample
      invariant IsMatrix(xrix, |prob|, nSample)
      invariant forall k :: 0 <= k < j ==> ReplicaColumn(xrix, k, prob, nEvents, fast, oracle, done)
    {
      var vec;
      var ok := true;
      if fast {
        vec := BootStrapFast(prob, nEvents, (i: nat, lambda: real) => oracle.poisson(j, i, lambda));
      } else {
        var used;
        vec, used, ok := BootStrap(prob, nEvents, oracle.draws[j]);
        assert ValidDraws(oracle.draws[j][..used], |prob|);
      }
      var before, doneBefore := xrix, done;
      done := done && ok;
      xrix := FillColumn(xrix, vec, j, nSample);
      forall k | 0 <= k < j
        ensures ReplicaColumn(xrix, k, prob, nEvents, fast, oracle, done)
      {
        assert GetColVec(xrix, k) == GetColVec(before, k);
        assert ReplicaColumn(before, k, prob, nEvents, fast, oracle, doneBefore);
      }
      assert GetColVec(xrix, j) == vec;
      assert ReplicaColumn(xrix, j, prob, nEvents, fast, oracle, done);
      j := j + 1;
    }
  }

  /** The column-copy loop of CreateBootStrapSample: column j becomes vec and
      every other column keeps its cells. */
  method FillColumn(xrix: seq<seq<real>>, vec: seq<real>, j: nat, nSample: nat) returns (r: seq<seq<real>>)
    requires IsMatrix(xrix, |vec|, nSample) && j < nSample
    ensures IsMatrix(r, |vec|, nSample)
    ensures forall i :: 0 <= i < |vec| ==> r[i][j] == vec[i]
    ensures forall i, k :: 0 <= i < |vec| && 0 <= k < nSample && k != j ==> r[i][k] == xrix[i][k]
  {
    r := xrix;
    var i := 0;
    while i < |vec|
      invariant 0 <= i <= |vec|
      invariant IsMatrix(r, |vec|, nSample)
      invariant forall l :: 0 <= l < i ==> r[l][j] == vec[l]
      invariant forall l, k :: 0 <= l < |vec| && 0 <= k < nSample && (l >= i || k != j) ==> r[l][k] == xrix[l][k]
    {
      r := r[i := r[i][j := vec[i]]];
      i := i + 1;
    }
  }

  /** Column j of a matrix (getcolvec). */
  function GetColVec(m: seq<seq<real>>, j: nat): (v: seq<real>)
    requires forall i :: 0 <= i < |m| ==> j < |m[i]|
    ensures |v| == |m|
    ensures forall i :: 0 <= i < |m| ==> v[i] == m[i][j]
  {
    seq(|m|, i requires 0 <= i < |m| => m[i][j])
  }

  /** Writes vec into column j of the matrix (setcolvec); the matrix is the
      in-out argument. Reading the column back gives vec, and no other cell
      changes. */
  method SetColVec(m: seq<seq<real>>, vec: seq<real>, j: nat) returns (r: seq<seq<real>>)
    requires |vec| <= |m|
    requires forall i :: 0 <= i < |vec| ==> j < |m[i]|
    ensures |r| == |m|
    ensures forall i :: 0 <= i < |m| ==> |r[i]| == |m[i]|
    ensures forall i :: 0 <= i < |vec| ==> r[i][j] == vec[i]
    ensures forall i, k :: 0 <= i < |m| && 0 <= k < |m[i]| && (i >= |vec| || k != j) ==> r[i][k] == m[i][k]
    ensures |vec| == |m| ==> GetColVec(r, j) == vec
  {
    r := m;
    var i := 0;
    while i < |vec|
      invariant 0 <= i <= |vec|
      invariant |r| == |m|
      invariant forall k :: 0 <= k < |m| ==> |r[k]| == |m[k]|
      invariant forall k :: 0 <= k < i ==> r[k][j] == vec[k]
      invariant forall k, l :: 0 <= k < |m| && 0 <= l < |m[k]| && (k >= i || l != j) ==> r[k][l] == m[k][l]
    {
      r := r[i := r[i][j := vec[i]]];
      i := i + 1;
    }
  }

  /** Rewrites v in place as v[sortInd[0]], v[sortInd[1]], ... (vsort); the
      vector is the in-out argument. */
  method VSort(v: seq<real>, sortInd: seq<nat>) returns (r: seq<real>)
    requires |sortInd| >= |v|
    requires forall i :: 0 <= i < |v| ==> sortInd[i] < |v|
    ensures |r| == |v|
    ensures forall i :: 0 <= i < |v| ==> r[i] == v[sortInd[i]]
  {
    var reordered: seq<real> := [];
    var i := 0;
    while i < |v|
      invariant 0 <= i <= |v| && |reordered| == i
      invariant forall k :: 0 <= k < i ==> reordered[k] == v[sortInd[k]]
    {
      reordered := reordered + [v[sortInd[i]]];
      i := i + 1;
    }
    r := v;
    i := 0;
    while i < |v|
      invariant 0 <= i <= |v| && |r| == |v|
      invariant forall k :: 0 <= k < i ==> r[k] == reordered[k]
    {
      r := r[i := reordered[i]];
      i := i + 1;
    }
  }

  /** Index a precedes index b in the ascending (value, position) order that
      a multimap keyed by value builds when the indices are inserted in
      increasing order. */
  predicate KeyLess(v: seq<real>, a: nat, b: nat)
    requires a < |v| && b < |v|
  {
    v[a] < v[b] || (v[a] == v[b] && a < b)
  }

  /** Indices that order v from largest to smallest value (vsortind); among
      equal values the later index comes first. The result is a permutation
      of 0 .. |v|-1. */
  method VSortInd(v: seq<real>) returns (s: seq<nat>)
    ensures |s| == |v|
    ensures forall i :: 0 <= i < |s| ==> s[i] < |v|
    ensures forall i, j :: 0 <= i < j < |s| ==> s[i] != s[j]
    ensures forall i, j :: 0 <= i < j < |s| ==> KeyLess(v, s[j], s[i])
  {
    var m: seq<nat> := [];
    var k := 0;
    while k < |v|
      invariant 0 <= k <= |v| && |m| == k
      invariant forall i :: 0 <= i < |m| ==> m[i] < k
      invariant forall i, j :: 0 <= i < j < |m| ==> KeyLess(v, m[i], m[j])
    {
      var p := 0;
      while p < |m| && v[m[p]] <= v[k]
        invariant 0 <= p <= |m|
        invariant forall i :: 0 <= i < p ==> v[m[i]] <= v[k]
      {
        p := p + 1;
      }
      assert forall i :: p <= i < |m| ==> v[k] < v[m[i]] by {
        if p < |m| {
          forall i | p <= i < |m|
            ensures v[k] < v[m[i]]
          {
            if i > p { assert KeyLess(v, m[p], m[i]); }
          }
        }
      }
      m := m[..p] + [k] + m[p..];
      k := k + 1;
    }
    s := seq(|m|, i requires 0 <= i < |m| => m[|m| - 1 - i]);
    forall i, j | 0 <= i < j < |s|
      ensures s[i] != s[j]
    {
      assert KeyLess(v, m[|m| - 1 - j], m[|m| - 1 - i]);
    }
  }

  /** Term k of the chi^2 sum: bins whose expectation is within 1e-12 of
      zero are skipped. */
  function Chi2Term(o: real, e: real): real
  {
    if Abs(e) > EPS then (o - e) * (o - e) / e else 0.0
  }

  /** Chi^2 over the first n bins. */
  function Chi2(obs: seq<real>, exp: seq<real>, n: nat): real
    requires n <= |obs| && n <= |exp|
  {
    if n == 0 then 0.0 else Chi2(obs, exp, n - 1) + Chi2Term(obs[n - 1], exp[n - 1])
  }

  /** With non-negative expectations every chi^2 term is non-negative. */
  lemma {:induction false} Chi2NonNeg(obs: seq<real>, exp: seq<real>, n: nat)
    requires n <= |obs| && n <= |exp| && NonNeg(exp)
    ensures Chi2(obs, exp, n) >= 0.0
  {
    if n > 0 {
      Chi2NonNeg(obs, exp, n - 1);
      var o, e := obs[n - 1], exp[n - 1];
      if Abs(e) > EPS {
        assert (o - e) * (o - e) >= 0.0;
      }
    }
  }

  /** A vector compared with itself has chi^2 zero. */
  lemma {:induction false} Chi2Self(x: seq<real>, n: nat)
    requires n <= |x|
    ensures Chi2(x, x, n) == 0.0
  {
    if n > 0 {
      Chi2Self(x, n - 1);
    }
  }

  /** Bin-by-bin chi^2 of observed against expected counts (calchi2). */
  method CalcChi2(obs: seq<real>, exp: seq<real>) returns (chi2: real)
    requires |exp| >= |obs|
    ensures chi2 == Chi2(obs, exp, |obs|)
    ensures NonNeg(exp) ==> chi2 >= 0.0
  {
    chi2 := 0.0;
    var k := 0;
    while k < |obs|
      invariant 0 <= k <= |obs|
      invariant chi2 == Chi2(obs, exp, k)
    {
      if Abs(exp[k]) > EPS {
        var term := (obs[k] - exp[k]) * (obs[k] - exp[k]) / exp[k];
        assert term == Chi2Term(obs[k], exp[k]);
        chi2 := chi2 + term;
      }
      k := k + 1;
    }
    if NonNeg(exp) {
      Chi2NonNeg(obs, exp, |obs|);
    }
  }

  /** Cumulative distribution of x at bin i: the running sum, except that the
      last bin is set to one. */
  function Cdf(x: seq<real>, i: nat): real
    requires i < |x|
  {
    if i == |x| - 1 then 1.0 else Sum(x[..i + 1])
  }

  /** The running maximum of |F_x(i) - F_y(i)| over the first n bins, started
      from -1e9. */
  function KSFold(x: seq<real>, y: seq<real>, n: nat): real
    requires |x| == |y| && n <= |x|
  {
    if n == 0 then -1000000000.0
    else Max(KSFold(x, y, n - 1), Abs(Cdf(x, n - 1) - Cdf(y, n - 1)))
  }

  /** KSFold is the largest distance between the two cumulative distributions
      over the first n > 0 bins. */
  lemma {:induction false} KSFoldIsMax(x: seq<real>, y: seq<real>, n: nat)
    requires |x| == |y| && 0 < n <= |x|
    ensures forall i :: 0 <= i < n ==> Abs(Cdf(x, i) - Cdf(y, i)) <= KSFold(x, y, n)
    ensures exists i :: 0 <= i < n && KSFold(x, y, n) == Abs(Cdf(x, i) - Cdf(y, i))
  {
    if n > 1 {
      KSFoldIsMax(x, y, n - 1);
    }
  }

  /** The Kolmogorov-Smirnov distance is non-negative and symmetric, and the
      last bin (both distributions forced to one) contributes zero. */
  lemma KSProperties(x: seq<real>, y: seq<real>)
    requires |x| == |y| && |x| > 0
    ensures KSFold(x, y, |x|) >= 0.0
    ensures KSFold(x, y, |x|) == KSFold(y, x, |x|)
    ensures Cdf(x, |x| - 1) - Cdf(y, |x| - 1) == 0.0
  {
    KSFoldIsMax(x, y, |x|);
    KSSymmetric(x, y, |x|);
  }

  lemma {:induction false} KSSymmetric(x: seq<real>, y: seq<real>, n: nat)
    requires |x| == |y| && n <= |x|
    ensures KSFold(x, y, n) == KSFold(y, x, n)
  {
    if n > 0 {
      KSSymmetric(x, y, n - 1);
    }
  }

  /** Kolmogorov-Smirnov distance between two discrete distributions of the
      same length (calcKS): the largest gap between their cumulative sums. */
  method CalcKS(x: seq<real>, y: seq<real>) returns (ks: real)
    requires |x| == |y| && |x| > 0
    ensures ks == KSFold(x, y, |x|)
    ensures ks >= 0.0
    ensures forall i :: 0 <= i < |x| ==> Abs(Cdf(x, i) - Cdf(y, i)) <= ks
  {
    ks := -1000000000.0;
    var xF := seq(|x|, _ => 0.0);
    var yF := seq(|y|, _ => 0.0);
    var i := 0;
    while i < |x| - 1
      invariant 0 <= i <= |x| - 1
      invariant |xF| == |x| && |yF| == |y|
      invariant forall k :: 0 <= k < i ==> xF[k] == Cdf(x, k) && yF[k] == Cdf(y, k)
    {
      var cx, cy := 0.0, 0.0;
      var j := 0;
      while j < i + 1
        invariant 0 <= j <= i + 1
        invariant cx == Sum(x[..j]) && cy == Sum(y[..j])
      {
        assert x[..j + 1][..j] == x[..j] && y[..j + 1][..j] == y[..j];
        cx := cx + x[j];
        cy := cy + y[j];
        j := j + 1;
      }
      xF := xF[i := cx];
      yF := yF[i := cy];
      i := i + 1;
    }
    xF := xF[|xF| - 1 := 1.0];
    yF := yF[|yF| - 1 := 1.0];
    i := 0;
    while i < |xF|
      invariant 0 <= i <= |xF|
      invariant ks == KSFold(x, y, i)
    {
      var eval := Abs(xF[i] - yF[i]);
      if eval > ks {
        ks := eval;
      }
      i := i + 1;
    }
    KSProperties(x, y);
    KSFoldIsMax(x, y, |x|);
  }

  /** n! for the 32-bit int of the source. */
  function Fact(n: int): int
  {
    if n <= 0 then 1 else n * Fact(n - 1)
  }

  /** Every k in 1..n divides n!: n! = k * q for the returned q. */
  lemma {:induction false} FactDivisible(n: int, k: int) returns (q: int)
    requires 1 <= k <= n
    ensures Fact(n) == k * q
  {
    var f := Fact(n - 1);
    assert Fact(n) == n * f;
    if k < n {
      var q' := FactDivisible(n - 1, k);
      q := n * q';
      assert n * (k * q') == k * (n * q');
    } else {
      q := f;
    }
  }

  /** n! by a running product (Factorial). The int result stays exact (below
      2^31) up to n = 12, which is all the model admits. */
  method Factorial(n: int) returns (r: int)
    requires n <= 12
    ensures r == Fact(n)
    ensures 1 <= r < 0x8000_0000
  {
    r := 1;
    var i := 1;
    while i <= n
      invariant 1 <= i <= (if n >= 0 then n + 1 else 1)
      invariant r == Fact(i - 1)
    {
      assert Fact(i) == i * Fact(i - 1);
      r := r * i;
      i := i + 1;
    }
    FactBound(n);
  }

  lemma {:induction false} FactBound(n: int)
    requires n <= 12
    ensures 1 <= Fact(n) <= Fact(12) && Fact(12) == 479001600
  {
    if n > 0 {
      FactBound(n - 1);
      assert Fact(n) == n * Fact(n - 1);
    }
  }

  /** Closed-interval selector (IsInRange): both end points are inside, and
      no value is inside an empty interval. */
  function IsInRange(value: real, min: real, max: real): (r: bool)
    ensures r ==> min <= max
    ensures value == min && min <= max ==> r
    ensures value == max && min <= max ==> r
  {
    value >= min && value <= max
  }
}
