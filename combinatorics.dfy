/**
 * Event-model accumulation of the combinatorial analysis (src/Combinatorics.cc
 * and include/Combinatorics.h): the 2^6 detector-combination counts of data,
 * the per-process density matrix F of Monte Carlo, the unfolding response
 * counters, the beam-gas corrected bootstrap matrix and the event
 * classification of the tree reader.
 */
module Combinatorics {
  import Bits
  import VecOper
  import Selection
  import CutFlow

  /** Dimension of the detector vector space and the number of its binary
      combinations. */
  const DIM: nat := 6
  const NCOMB: nat := 64

  /** Number of process classes: SDL, SDR, DD, CD, ND. */
  const C: nat := 5

  lemma NcombIsPow2()
    ensures NCOMB == Bits.Pow2(DIM)
  {
  }

  /** TMath::Nint: nearest integer, halves to the even neighbour. */
  function Nint(x: real): (r: int)
    ensures -0.5 <= r as real - x <= 0.5
    ensures (r as real - x == 0.5 || x - r as real == 0.5) ==> r % 2 == 0
    ensures x >= 0.0 ==> r >= 0
  {
    var f := x.Floor;
    var d := x - f as real;
    if d < 0.5 then f else if d > 0.5 then f + 1 else if f % 2 == 0 then f else f + 1
  }

  predicate NonNegMatrix(m: seq<seq<real>>)
  {
    forall i, j :: 0 <= i < |m| && 0 <= j < |m[i]| ==> m[i][j] >= 0.0
  }

  /** Sum of column p of a matrix. */
  function ColSum(m: seq<seq<real>>, p: nat): real
    requires forall i :: 0 <= i < |m| ==> p < |m[i]|
  {
    VecOper.Sum(VecOper.GetColVec(m, p))
  }

  /** The matrix with w added to cell (i, j). */
  function AddAt(m: seq<seq<real>>, i: nat, j: nat, w: real): (r: seq<seq<real>>)
    requires i < |m| && j < |m[i]|
    ensures |r| == |m| && forall k :: 0 <= k < |m| ==> |r[k]| == |m[k]|
  {
    m[i := m[i][j := m[i][j] + w]]
  }

  /** Adding w to a cell of column j adds w to that column's sum and leaves
      the other columns' sums alone. */
  lemma AddAtColSum(m: seq<seq<real>>, i: nat, j: nat, w: real, p: nat)
    requires i < |m| && j < |m[i]|
    requires forall k :: 0 <= k < |m| ==> p < |m[k]|
    ensures ColSum(AddAt(m, i, j, w), p) == ColSum(m, p) + (if p == j then w else 0.0)
  {
    var col := VecOper.GetColVec(m, p);
    var d := if p == j then w else 0.0;
    assert VecOper.GetColVec(AddAt(m, i, j, w), p) == col[i := col[i] + d];
    VecOper.SumUpdate(col, i, d);
  }

  /** The counts and densities GenerateModel accumulates. */
  datatype Model = Model(processCount: seq<real>, f: seq<seq<real>>, fGen: seq<seq<real>>,
                         x: seq<real>, xGen: seq<real>, det: seq<nat>)

  predicate ModelShape(m: Model)
  {
    |m.processCount| == C && VecOper.IsMatrix(m.f, NCOMB, C) && VecOper.IsMatrix(m.fGen, NCOMB, C)
    && |m.x| == NCOMB && |m.xGen| == NCOMB && |m.det| == NCOMB
  }

  /** A recorded event indexes the count vectors (and, for Monte Carlo, the
      generator vector and the process classes). */
  predicate EventInRange(ev: Selection.Evec, isMC: bool)
  {
    ev.c < NCOMB && (isMC ==> ev.cGen < NCOMB && ev.proc < C)
  }

  /** Settings of one GenerateModel pass. reweight stands for the mass
      distribution re-weighting of Monte Carlo events. */
  datatype Config = Config(isMC: bool, mcName: string, xiMax: real, ddMode: int, delta: real,
                           reweight: (Selection.Evec, real) -> real)

  /** EPOS-LHC samples fill x and x_gen directly, one unweighted count per
      event, and CalculateF leaves them alone; their F and F_gen still gain
      the re-weighted event weights. */
  predicate IsEPOS(mcName: string)
  {
    Selection.Contains(mcName, "EPOS-LHC")
  }

  /** A Monte Carlo event survives the mass cut-off. */
  predicate Kept(cfg: Config, ev: Selection.Evec)
  {
    Selection.MassCutOff(ev, cfg.xiMax, cfg.mcName, cfg.ddMode)
  }

  /** One event of the GenerateModel loop. A kept Monte Carlo event counts once
      for its process and adds its weight to F_gen at its generator index and
      to F at its detector index (EPOS also fills x and x_gen directly); a
      data event with a non-zero index counts once in x and in hxDet. */
  function FillEvent(m: Model, ev: Selection.Evec, cfg: Config): (r: Model)
    requires ModelShape(m) && EventInRange(ev, cfg.isMC)
    ensures ModelShape(r)
  {
    if cfg.isMC then
      if !Kept(cfg, ev) then m
      else
        var w := cfg.reweight(ev, cfg.delta);
        var m1 := m.(processCount := m.processCount[ev.proc := m.processCount[ev.proc] + 1.0],
                     fGen := AddAt(m.fGen, ev.cGen, ev.proc, w),
                     f := AddAt(m.f, ev.c, ev.proc, w));
        if IsEPOS(cfg.mcName) then m1.(x := m1.x[ev.c := m1.x[ev.c] + 1.0], xGen := m1.xGen[ev.cGen := m1.xGen[ev.cGen] + 1.0])
        else m1
    else if ev.c != 0 then m.(x := m.x[ev.c := m.x[ev.c] + 1.0], det := m.det[ev.c := m.det[ev.c] + 1])
    else m
  }

  /** The GenerateModel loop over the first n events, from the state m0. */
  function FillEvents(m0: Model, events: seq<Selection.Evec>, n: nat, cfg: Config): (r: Model)
    requires ModelShape(m0) && n <= |events|
    requires forall k :: 0 <= k < |events| ==> EventInRange(events[k], cfg.isMC)
    ensures ModelShape(r)
  {
    if n == 0 then m0 else FillEvent(FillEvents(m0, events, n - 1, cfg), events[n - 1], cfg)
  }

  /** Number of data events among the first n with a non-zero index. */
  function Visible(events: seq<Selection.Evec>, n: nat): nat
    requires n <= |events|
  {
    if n == 0 then 0 else Visible(events, n - 1) + (if events[n - 1].c != 0 then 1 else 0)
  }

  /** Number of Monte Carlo events among the first n that pass the mass cut-off. */
  function KeptCount(events: seq<Selection.Evec>, n: nat, cfg: Config): nat
    requires n <= |events|
  {
    if n == 0 then 0 else KeptCount(events, n - 1, cfg) + (if Kept(cfg, events[n - 1]) then 1 else 0)
  }

  /** What the GenerateModel loop adds up on data: x grows by one per
      visible event, bin 0 never grows, hxDet mirrors x, and the Monte Carlo
      state is untouched. */
  lemma FillDataTotals(m0: Model, events: seq<Selection.Evec>, n: nat, cfg: Config)
    requires ModelShape(m0) && n <= |events| && !cfg.isMC
    requires forall k :: 0 <= k < |events| ==> EventInRange(events[k], cfg.isMC)
    ensures VecOper.Sum(FillEvents(m0, events, n, cfg).x) == VecOper.Sum(m0.x) + Visible(events, n) as real
    ensures Bits.SumNat(FillEvents(m0, events, n, cfg).det) == Bits.SumNat(m0.det) + Visible(events, n)
    ensures FillEvents(m0, events, n, cfg).x[0] == m0.x[0]
    ensures FillEvents(m0, events, n, cfg).processCount == m0.processCount
    ensures FillEvents(m0, events, n, cfg).f == m0.f && FillEvents(m0, events, n, cfg).fGen == m0.fGen
  {
    FillDataX(m0, events, n, cfg);
    FillDataDet(m0, events, n, cfg);
    FillDataKeeps(m0, events, n, cfg);
  }

  lemma {:induction false} FillDataX(m0: Model, events: seq<Selection.Evec>, n: nat, cfg: Config)
    requires ModelShape(m0) && n <= |events| && !cfg.isMC
    requires forall k :: 0 <= k < |events| ==> EventInRange(events[k], cfg.isMC)
    ensures VecOper.Sum(FillEvents(m0, events, n, cfg).x) == VecOper.Sum(m0.x) + Visible(events, n) as real
  {
    if n > 0 {
      FillDataX(m0, events, n - 1, cfg);
      FillDataXStep(FillEvents(m0, events, n - 1, cfg), events[n - 1], cfg);
    }
  }

  lemma FillDataXStep(m: Model, ev: Selection.Evec, cfg: Config)
    requires ModelShape(m) && EventInRange(ev, cfg.isMC) && !cfg.isMC
    ensures VecOper.Sum(FillEvent(m, ev, cfg).x) == VecOper.Sum(m.x) + (if ev.c != 0 then 1.0 else 0.0)
  {
    if ev.c != 0 {
      VecOper.SumUpdate(m.x, ev.c, 1.0);
    }
  }

  lemma {:induction false} FillDataDet(m0: Model, events: seq<Selection.Evec>, n: nat, cfg: Config)
    requires ModelShape(m0) && n <= |events| && !cfg.isMC
    requires forall k :: 0 <= k < |events| ==> EventInRange(events[k], cfg.isMC)
    ensures Bits.SumNat(FillEvents(m0, events, n, cfg).det) == Bits.SumNat(m0.det) + Visible(events, n)
  {
    if n > 0 {
      FillDataDet(m0, events, n - 1, cfg);
      FillDataDetStep(FillEvents(m0, events, n - 1, cfg), events[n - 1], cfg);
    }
  }

  lemma FillDataDetStep(m: Model, ev: Selection.Evec, cfg: Config)
    requires ModelShape(m) && EventInRange(ev, cfg.isMC) && !cfg.isMC
    ensures Bits.SumNat(FillEvent(m, ev, cfg).det) == Bits.SumNat(m.det) + (if ev.c != 0 then 1 else 0)
  {
    if ev.c != 0 {
      Bits.SumNatIncrement(m.det, ev.c);
    }
  }

  lemma {:induction false} FillDataKeeps(m0: Model, events: seq<Selection.Evec>, n: nat, cfg: Config)
    requires ModelShape(m0) && n <= |events| && !cfg.isMC
    requires forall k :: 0 <= k < |events| ==> EventInRange(events[k], cfg.isMC)
    ensures FillEvents(m0, events, n, cfg).x[0] == m0.x[0]
    ensures FillEvents(m0, events, n, cfg).processCount == m0.processCount
    ensures FillEvents(m0, events, n, cfg).f == m0.f && FillEvents(m0, events, n, cfg).fGen == m0.fGen
  {
    if n > 0 {
      FillDataKeeps(m0, events, n - 1, cfg);
    }
  }

  /** What the GenerateModel loop adds up on Monte Carlo: the process counts
      grow by the number of kept events, hxDet is untouched, and F and F_gen
      gain the same weight in every process column. */
  lemma FillMCTotals(m0: Model, events: seq<Selection.Evec>, n: nat, cfg: Config)
    requires ModelShape(m0) && n <= |events| && cfg.isMC
    requires forall k :: 0 <= k < |events| ==> EventInRange(events[k], cfg.isMC)
    ensures VecOper.Sum(FillEvents(m0, events, n, cfg).processCount)
         == VecOper.Sum(m0.processCount) + KeptCount(events, n, cfg) as real
    ensures FillEvents(m0, events, n, cfg).det == m0.det
    ensures forall p :: 0 <= p < C ==>
      ColSum(FillEvents(m0, events, n, cfg).f, p) - ColSum(m0.f, p)
      == ColSum(FillEvents(m0, events, n, cfg).fGen, p) - ColSum(m0.fGen, p)
  {
    FillMCCounts(m0, events, n, cfg);
    FillMCKeepsDet(m0, events, n, cfg);
    forall p | 0 <= p < C
      ensures ColSum(FillEvents(m0, events, n, cfg).f, p) - ColSum(m0.f, p)
           == ColSum(FillEvents(m0, events, n, cfg).fGen, p) - ColSum(m0.fGen, p)
    {
      FillMCColumn(m0, events, n, cfg, p);
    }
  }

  lemma {:induction false} FillMCCounts(m0: Model, events: seq<Selection.Evec>, n: nat, cfg: Config)
    requires ModelShape(m0) && n <= |events| && cfg.isMC
    requires forall k :: 0 <= k < |events| ==> EventInRange(events[k], cfg.isMC)
    ensures VecOper.Sum(FillEvents(m0, events, n, cfg).processCount)
         == VecOper.Sum(m0.processCount) + KeptCount(events, n, cfg) as real
  {
    if n > 0 {
      FillMCCounts(m0, events, n - 1, cfg);
      FillMCCountsStep(FillEvents(m0, events, n - 1, cfg), events[n - 1], cfg);
    }
  }

  lemma FillMCCountsStep(m: Model, ev: Selection.Evec, cfg: Config)
    requires ModelShape(m) && EventInRange(ev, cfg.isMC) && cfg.isMC
    ensures VecOper.Sum(FillEvent(m, ev, cfg).processCount)
         == VecOper.Sum(m.processCount) + (if Kept(cfg, ev) then 1.0 else 0.0)
  {
    if Kept(cfg, ev) {
      VecOper.SumUpdate(m.processCount, ev.proc, 1.0);
    }
  }

  lemma {:induction false} FillMCColumn(m0: Model, events: seq<Selection.Evec>, n: nat, cfg: Config, p: nat)
    requires ModelShape(m0) && n <= |events| && cfg.isMC && p < C
    requires forall k :: 0 <= k < |events| ==> EventInRange(events[k], cfg.isMC)
    ensures ColSum(FillEvents(m0, events, n, cfg).f, p) - ColSum(m0.f, p)
         == ColSum(FillEvents(m0, events, n, cfg).fGen, p) - ColSum(m0.fGen, p)
  {
    if n > 0 {
      FillMCColumn(m0, events, n - 1, cfg, p);
      FillMCColumnStep(FillEvents(m0, events, n - 1, cfg), events[n - 1], cfg, p);
    }
  }

  lemma FillMCColumnStep(m: Model, ev: Selection.Evec, cfg: Config, p: nat)
    requires ModelShape(m) && EventInRange(ev, cfg.isMC) && cfg.isMC && p < C
    ensures ColSum(FillEvent(m, ev, cfg).f, p) - ColSum(m.f, p)
         == ColSum(FillEvent(m, ev, cfg).fGen, p) - ColSum(m.fGen, p)
  {
    if Kept(cfg, ev) {
      var w := cfg.reweight(ev, cfg.delta);
      AddAtColSum(m.f, ev.c, ev.proc, w, p);
      AddAtColSum(m.fGen, ev.cGen, ev.proc, w, p);
    }
  }

  /** On Monte Carlo the event loop leaves hxDet alone. */
  lemma {:induction false} FillMCKeepsDet(m0: Model, events: seq<Selection.Evec>, n: nat, cfg: Config)
    requires ModelShape(m0) && n <= |events| && cfg.isMC
    requires forall k :: 0 <= k < |events| ==> EventInRange(events[k], cfg.isMC)
    ensures FillEvents(m0, events, n, cfg).det == m0.det
  {
    if n > 0 {
      FillMCKeepsDet(m0, events, n - 1, cfg);
    }
  }

  /** Adding a non-negative weight keeps a matrix non-negative. */
  lemma AddAtNonNeg(m: seq<seq<real>>, i: nat, j: nat, w: real)
    requires i < |m| && j < |m[i]| && NonNegMatrix(m) && w >= 0.0
    ensures NonNegMatrix(AddAt(m, i, j, w))
  {
    var r := AddAt(m, i, j, w);
    forall a, b | 0 <= a < |r| && 0 <= b < |r[a]|
      ensures r[a][b] >= 0.0
    {
      if a == i && b == j {
        assert r[a][b] == m[i][j] + w;
      } else {
        assert r[a][b] == m[a][b];
      }
    }
  }

  /** With non-negative weights every density cell stays non-negative. */
  lemma {:induction false} FillEventsNonNeg(m0: Model, events: seq<Selection.Evec>, n: nat, cfg: Config)
    requires ModelShape(m0) && n <= |events|
    requires forall k :: 0 <= k < |events| ==> EventInRange(events[k], cfg.isMC)
    requires NonNegMatrix(m0.f) && NonNegMatrix(m0.fGen)
    requires forall k :: 0 <= k < |events| ==> cfg.reweight(events[k], cfg.delta) >= 0.0
    ensures NonNegMatrix(FillEvents(m0, events, n, cfg).f) && NonNegMatrix(FillEvents(m0, events, n, cfg).fGen)
  {
    if n > 0 {
      FillEventsNonNeg(m0, events, n - 1, cfg);
      FillNonNegStep(FillEvents(m0, events, n - 1, cfg), events[n - 1], cfg);
    }
  }

  lemma FillNonNegStep(m: Model, ev: Selection.Evec, cfg: Config)
    requires ModelShape(m) && EventInRange(ev, cfg.isMC)
    requires NonNegMatrix(m.f) && NonNegMatrix(m.fGen) && cfg.reweight(ev, cfg.delta) >= 0.0
    ensures NonNegMatrix(FillEvent(m, ev, cfg).f) && NonNegMatrix(FillEvent(m, ev, cfg).fGen)
  {
    if cfg.isMC && Kept(cfg, ev) {
      var w := cfg.reweight(ev, cfg.delta);
      AddAtNonNeg(m.f, ev.c, ev.proc, w);
      AddAtNonNeg(m.fGen, ev.cGen, ev.proc, w);
    }
  }

  /** Column normalisation of CalculateF: every cell of column j is divided by
      1e-12 plus the column sum, so each column becomes nvec of itself. */
  method NormalizeColumns(m: seq<seq<real>>, rows: nat, cols: nat) returns (r: seq<seq<real>>)
    requires VecOper.IsMatrix(m, rows, cols)
    requires forall j :: 0 <= j < cols ==> VecOper.VSum(VecOper.GetColVec(m, j)) != 0.0
    ensures VecOper.IsMatrix(r, rows, cols)
    ensures forall j :: 0 <= j < cols ==> VecOper.GetColVec(r, j) == VecOper.NVec(VecOper.GetColVec(m, j))
  {
    r := m;
    var j := 0;
    while j < cols
      invariant 0 <= j <= cols
      invariant VecOper.IsMatrix(r, rows, cols)
      invariant forall k :: 0 <= k < j ==> VecOper.GetColVec(r, k) == VecOper.NVec(VecOper.GetColVec(m, k))
      invariant forall k :: j <= k < cols ==> VecOper.GetColVec(r, k) == VecOper.GetColVec(m, k)
    {
      var sum := ColumnVSum(r, rows, cols, j);
      r := DivideColumn(r, rows, cols, j, sum);
      j := j + 1;
    }
  }

  /** The floored sum of column j, added up row by row. */
  method ColumnVSum(m: seq<seq<real>>, rows: nat, cols: nat, j: nat) returns (sum: real)
    requires VecOper.IsMatrix(m, rows, cols) && j < cols
    ensures sum == VecOper.VSum(VecOper.GetColVec(m, j))
  {
    var col := VecOper.GetColVec(m, j);
    sum := VecOper.EPS;
    var i := 0;
    while i < rows
      invariant 0 <= i <= rows
      invariant sum == VecOper.EPS + VecOper.Sum(col[..i])
    {
      assert col[..i + 1][..i] == col[..i];
      sum := sum + m[i][j];
      i := i + 1;
    }
    assert col[..rows] == col;
  }

  /** Column j with every cell divided by d; the other columns unchanged. */
  method DivideColumn(m: seq<seq<real>>, rows: nat, cols: nat, j: nat, d: real) returns (r: seq<seq<real>>)
    requires VecOper.IsMatrix(m, rows, cols) && j < cols
    requires d == VecOper.VSum(VecOper.GetColVec(m, j)) && d != 0.0
    ensures VecOper.IsMatrix(r, rows, cols)
    ensures VecOper.GetColVec(r, j) == VecOper.NVec(VecOper.GetColVec(m, j))
    ensures forall k :: 0 <= k < cols && k != j ==> VecOper.GetColVec(r, k) == VecOper.GetColVec(m, k)
  {
    r := m;
    var i := 0;
    while i < rows
      invariant 0 <= i <= rows
      invariant VecOper.IsMatrix(r, rows, cols)
      invariant forall l :: 0 <= l < i ==> r[l][j] == m[l][j] / d
      invariant forall l, k :: 0 <= l < rows && 0 <= k < cols && (l >= i || k != j) ==> r[l][k] == m[l][k]
    {
      r := r[i := r[i][j := r[i][j] / d]];
      i := i + 1;
    }
  }

  /** Synthetic counts of CalculateF: bin i is the process counts weighted by
      row i of the normalised densities, rounded with Nint. */
  method Synthesize(counts: seq<real>, m: seq<seq<real>>, rows: nat) returns (xs: seq<real>)
    requires VecOper.IsMatrix(m, rows, |counts|)
    ensures |xs| == rows
    ensures forall i :: 0 <= i < rows ==> xs[i] == Nint(VecOper.RowFold(m[i], counts, 1.0, |counts|)) as real
    ensures VecOper.NonNeg(counts) && NonNegMatrix(m) ==> forall i :: 0 <= i < rows ==> VecOper.IsCount(xs[i])
  {
    xs := seq(rows, _ => 0.0);
    var i := 0;
    while i < rows
      invariant 0 <= i <= rows && |xs| == rows
      invariant forall k :: 0 <= k < i ==> xs[k] == Nint(VecOper.RowFold(m[k], counts, 1.0, |counts|)) as real
    {
      var sum := 0.0;
      var j := 0;
      while j < |counts|
        invariant 0 <= j <= |counts|
        invariant sum == VecOper.RowFold(m[i], counts, 1.0, j)
      {
        sum := sum + counts[j] * m[i][j];
        j := j + 1;
      }
      xs := xs[i := Nint(sum) as real];
      i := i + 1;
    }
    if VecOper.NonNeg(counts) && NonNegMatrix(m) {
      forall k | 0 <= k < rows
        ensures VecOper.IsCount(xs[k])
      {
        VecOper.RowFoldNonNeg(m[k], counts, 1.0, |counts|);
      }
    }
  }

  /** Fill counters of the unfolding response: detector- and generator-level
      histograms, response fills (detector bin x generator bin) and misses
      (per generator bin). */
  datatype Unfold = Unfold(det: seq<nat>, gen: seq<nat>, fill: seq<seq<nat>>, miss: seq<nat>)

  predicate UnfoldShape(u: Unfold)
  {
    |u.det| == NCOMB && |u.gen| == NCOMB && |u.miss| == NCOMB
    && |u.fill| == NCOMB && forall i :: 0 <= i < NCOMB ==> |u.fill[i]| == NCOMB
  }

  /** One event of ConstructUnfolding: a visible event (c != 0) is a response
      fill and is counted at both levels, a lost one is a miss counted at
      generator level only. */
  function UnfoldEvent(u: Unfold, ev: Selection.Evec): (r: Unfold)
    requires UnfoldShape(u) && EventInRange(ev, true)
    ensures UnfoldShape(r)
  {
    if ev.c != 0 then
      u.(fill := u.fill[ev.c := u.fill[ev.c][ev.cGen := u.fill[ev.c][ev.cGen] + 1]],
         det := u.det[ev.c := u.det[ev.c] + 1],
         gen := u.gen[ev.cGen := u.gen[ev.cGen] + 1])
    else
      u.(miss := u.miss[ev.cGen := u.miss[ev.cGen] + 1],
         gen := u.gen[ev.cGen := u.gen[ev.cGen] + 1])
  }

  function UnfoldEvents(u0: Unfold, events: seq<Selection.Evec>, n: nat): (r: Unfold)
    requires UnfoldShape(u0) && n <= |events|
    requires forall k :: 0 <= k < |events| ==> EventInRange(events[k], true)
    ensures UnfoldShape(r)
  {
    if n == 0 then u0 else UnfoldEvent(UnfoldEvents(u0, events, n - 1), events[n - 1])
  }

  /** Every event reaches the generator-level histogram, and exactly the
      visible ones the detector-level histogram. */
  lemma UnfoldHistograms(u0: Unfold, events: seq<Selection.Evec>, n: nat)
    requires UnfoldShape(u0) && n <= |events|
    requires forall k :: 0 <= k < |events| ==> EventInRange(events[k], true)
    ensures Bits.SumNat(UnfoldEvents(u0, events, n).gen) == Bits.SumNat(u0.gen) + n
    ensures Bits.SumNat(UnfoldEvents(u0, events, n).det) == Bits.SumNat(u0.det) + Visible(events, n)
  {
    UnfoldGen(u0, events, n);
    UnfoldDet(u0, events, n);
  }

  lemma {:induction false} UnfoldGen(u0: Unfold, events: seq<Selection.Evec>, n: nat)
    requires UnfoldShape(u0) && n <= |events|
    requires forall k :: 0 <= k < |events| ==> EventInRange(events[k], true)
    ensures Bits.SumNat(UnfoldEvents(u0, events, n).gen) == Bits.SumNat(u0.gen) + n
  {
    if n > 0 {
      UnfoldGen(u0, events, n - 1);
      UnfoldGenStep(UnfoldEvents(u0, events, n - 1), events[n - 1]);
    }
  }

  lemma UnfoldGenStep(u: Unfold, ev: Selection.Evec)
    requires UnfoldShape(u) && EventInRange(ev, true)
    ensures Bits.SumNat(UnfoldEvent(u, ev).gen) == Bits.SumNat(u.gen) + 1
  {
    Bits.SumNatIncrement(u.gen, ev.cGen);
  }

  lemma {:induction false} UnfoldDet(u0: Unfold, events: seq<Selection.Evec>, n: nat)
    requires UnfoldShape(u0) && n <= |events|
    requires forall k :: 0 <= k < |events| ==> EventInRange(events[k], true)
    ensures Bits.SumNat(UnfoldEvents(u0, events, n).det) == Bits.SumNat(u0.det) + Visible(events, n)
  {
    if n > 0 {
      UnfoldDet(u0, events, n - 1);
      UnfoldDetStep(UnfoldEvents(u0, events, n - 1), events[n - 1]);
    }
  }

  lemma UnfoldDetStep(u: Unfold, ev: Selection.Evec)
    requires UnfoldShape(u) && EventInRange(ev, true)
    ensures Bits.SumNat(UnfoldEvent(u, ev).det) == Bits.SumNat(u.det) + (if ev.c != 0 then 1 else 0)
  {
    if ev.c != 0 {
      Bits.SumNatIncrement(u.det, ev.c);
    }
  }

  /** The invisible events are the misses, and response row 0 (the
      invisible detector bin) is never filled. */
  lemma {:induction false} UnfoldMisses(u0: Unfold, events: seq<Selection.Evec>, n: nat)
    requires UnfoldShape(u0) && n <= |events|
    requires forall k :: 0 <= k < |events| ==> EventInRange(events[k], true)
    ensures Visible(events, n) <= n
    ensures Bits.SumNat(UnfoldEvents(u0, events, n).miss) == Bits.SumNat(u0.miss) + (n - Visible(events, n))
    ensures UnfoldEvents(u0, events, n).fill[0] == u0.fill[0]
  {
    if n > 0 {
      UnfoldMisses(u0, events, n - 1);
      UnfoldMissStep(UnfoldEvents(u0, events, n - 1), events[n - 1]);
    }
  }

  lemma UnfoldMissStep(u: Unfold, ev: Selection.Evec)
    requires UnfoldShape(u) && EventInRange(ev, true)
    ensures Bits.SumNat(UnfoldEvent(u, ev).miss) == Bits.SumNat(u.miss) + (if ev.c == 0 then 1 else 0)
    ensures UnfoldEvent(u, ev).fill[0] == u.fill[0]
  {
    if ev.c == 0 {
      Bits.SumNatIncrement(u.miss, ev.cGen);
    }
  }

  lemma {:induction false} VisibleBound(events: seq<Selection.Evec>, n: nat)
    requires n <= |events|
    ensures Visible(events, n) <= n
  {
    if n > 0 {
      VisibleBound(events, n - 1);
    }
  }

  /** Non-negative weights keep the process counts non-negative. */
  lemma {:induction false} FillEventsCountsNonNeg(m0: Model, events: seq<Selection.Evec>, n: nat, cfg: Config)
    requires ModelShape(m0) && n <= |events|
    requires forall k :: 0 <= k < |events| ==> EventInRange(events[k], cfg.isMC)
    requires VecOper.NonNeg(m0.processCount)
    ensures VecOper.NonNeg(FillEvents(m0, events, n, cfg).processCount)
  {
    if n > 0 {
      FillEventsCountsNonNeg(m0, events, n - 1, cfg);
    }
  }

  function Zeros(n: nat): (v: seq<real>)
    ensures |v| == n && forall i :: 0 <= i < n ==> v[i] == 0.0
  {
    seq(n, _ => 0.0)
  }

  function ZeroCounts(n: nat): (v: seq<nat>)
    ensures |v| == n && forall i :: 0 <= i < n ==> v[i] == 0
  {
    seq(n, _ => 0)
  }

  function ZeroMatrix(rows: nat, cols: nat): (m: seq<seq<real>>)
    ensures VecOper.IsMatrix(m, rows, cols)
  {
    seq(rows, _ => Zeros(cols))
  }

  /** What EmptyData clears: x, x_gen and hxDet always, and on Monte Carlo
      the process counts and both density matrices as well. */
  function Cleared(m: Model, isMC: bool): (r: Model)
    ensures ModelShape(m) ==> ModelShape(r)
    ensures r.x == Zeros(NCOMB) && r.xGen == Zeros(NCOMB) && r.det == ZeroCounts(NCOMB)
    ensures isMC ==> r.processCount == Zeros(C) && r.f == ZeroMatrix(NCOMB, C) && r.fGen == ZeroMatrix(NCOMB, C)
    ensures !isMC ==> r.processCount == m.processCount && r.f == m.f && r.fGen == m.fGen
  {
    var r0 := m.(x := Zeros(NCOMB), xGen := Zeros(NCOMB), det := ZeroCounts(NCOMB));
    if isMC then r0.(processCount := Zeros(C), f := ZeroMatrix(NCOMB, C), fGen := ZeroMatrix(NCOMB, C)) else r0
  }

  /** Every column of a non-negative matrix has a positive floored sum. */
  lemma ColumnsPositive(m: seq<seq<real>>, rows: nat, cols: nat)
    requires VecOper.IsMatrix(m, rows, cols) && NonNegMatrix(m)
    ensures forall j :: 0 <= j < cols ==> VecOper.VSum(VecOper.GetColVec(m, j)) >= VecOper.EPS
  {
    forall j | 0 <= j < cols
      ensures VecOper.VSum(VecOper.GetColVec(m, j)) >= VecOper.EPS
    {
      VecOper.VSumPositive(VecOper.GetColVec(m, j));
    }
  }

  /** The state CalculateF leaves from the accumulated state m: both density
      matrices normalised column by column (nvec), and x_gen and x
      re-synthesised from the process counts through them. */
  predicate Calculated(m: Model, r: Model)
    requires ModelShape(m) && ModelShape(r)
  {
    r.processCount == m.processCount
    && (forall j :: 0 <= j < C ==>
          VecOper.VSum(VecOper.GetColVec(m.fGen, j)) != 0.0
          && VecOper.GetColVec(r.fGen, j) == VecOper.NVec(VecOper.GetColVec(m.fGen, j)))
    && (forall j :: 0 <= j < C ==>
          VecOper.VSum(VecOper.GetColVec(m.f, j)) != 0.0
          && VecOper.GetColVec(r.f, j) == VecOper.NVec(VecOper.GetColVec(m.f, j)))
    && (forall i :: 0 <= i < NCOMB ==> r.xGen[i] == Nint(VecOper.RowFold(r.fGen[i], m.processCount, 1.0, C)) as real)
    && (forall i :: 0 <= i < NCOMB ==> r.x[i] == Nint(VecOper.RowFold(r.f[i], m.processCount, 1.0, C)) as real)
  }

  /** A column normalised with nvec is a distribution: its sum, times the
      floored original column sum, gives the original sum back, so it lies
      in [0, 1), and so does every cell. */
  lemma NormalizedColumn(m: seq<seq<real>>, r: seq<seq<real>>, j: nat)
    requires VecOper.IsMatrix(m, NCOMB, C) && VecOper.IsMatrix(r, NCOMB, C) && j < C && NonNegMatrix(m)
    requires VecOper.VSum(VecOper.GetColVec(m, j)) != 0.0
    requires VecOper.GetColVec(r, j) == VecOper.NVec(VecOper.GetColVec(m, j))
    ensures 0.0 <= ColSum(r, j) < 1.0
    ensures ColSum(r, j) * VecOper.VSum(VecOper.GetColVec(m, j)) == ColSum(m, j)
    ensures forall i :: 0 <= i < NCOMB ==> 0.0 <= r[i][j] < 1.0
  {
    var col := VecOper.GetColVec(m, j);
    VecOper.NVecSum(col);
    forall i | 0 <= i < NCOMB
      ensures 0.0 <= r[i][j] < 1.0
    {
      assert r[i][j] == VecOper.GetColVec(r, j)[i];
    }
  }

  /** Meaning of CalculateF on non-negative accumulations: every column of F
      and F_gen becomes a distribution (see NormalizedColumn) and the
      synthetic x and x_gen are whole event counts. */
  lemma CalculatedDensities(m: Model, r: Model)
    requires ModelShape(m) && ModelShape(r) && Calculated(m, r)
    requires NonNegMatrix(m.f) && NonNegMatrix(m.fGen) && VecOper.NonNeg(m.processCount)
    ensures forall j :: 0 <= j < C ==> 0.0 <= ColSum(r.f, j) < 1.0 && 0.0 <= ColSum(r.fGen, j) < 1.0
    ensures forall j :: 0 <= j < C ==>
      ColSum(r.f, j) * VecOper.VSum(VecOper.GetColVec(m.f, j)) == ColSum(m.f, j)
      && ColSum(r.fGen, j) * VecOper.VSum(VecOper.GetColVec(m.fGen, j)) == ColSum(m.fGen, j)
    ensures forall i, j :: 0 <= i < NCOMB && 0 <= j < C ==> 0.0 <= r.f[i][j] < 1.0 && 0.0 <= r.fGen[i][j] < 1.0
    ensures forall i :: 0 <= i < NCOMB ==> VecOper.IsCount(r.x[i]) && VecOper.IsCount(r.xGen[i])
  {
    forall j | 0 <= j < C
      ensures 0.0 <= ColSum(r.f, j) < 1.0 && 0.0 <= ColSum(r.fGen, j) < 1.0
      ensures ColSum(r.f, j) * VecOper.VSum(VecOper.GetColVec(m.f, j)) == ColSum(m.f, j)
      ensures ColSum(r.fGen, j) * VecOper.VSum(VecOper.GetColVec(m.fGen, j)) == ColSum(m.fGen, j)
      ensures forall i :: 0 <= i < NCOMB ==> 0.0 <= r.f[i][j] < 1.0 && 0.0 <= r.fGen[i][j] < 1.0
    {
      NormalizedColumn(m.f, r.f, j);
      NormalizedColumn(m.fGen, r.fGen, j);
    }
    forall i, j | 0 <= i < NCOMB && 0 <= j < C
      ensures 0.0 <= r.f[i][j] < 1.0 && 0.0 <= r.fGen[i][j] < 1.0
    {
      NormalizedColumn(m.f, r.f, j);
      NormalizedColumn(m.fGen, r.fGen, j);
    }
    forall i | 0 <= i < NCOMB
      ensures VecOper.IsCount(r.x[i]) && VecOper.IsCount(r.xGen[i])
    {
      assert VecOper.NonNeg(r.f[i]) && VecOper.NonNeg(r.fGen[i]);
      VecOper.RowFoldNonNeg(r.f[i], m.processCount, 1.0, C);
      VecOper.RowFoldNonNeg(r.fGen[i], m.processCount, 1.0, C);
    }
  }

  /** The state GenerateModel leaves, from the state m0 with response
      counters u0: the cleared model filled with every recorded event; on
      Monte Carlo other than EPOS, CalculateF applied to it; on Monte Carlo
      x_cor equal to x and the unfolding counters rebuilt from cleared
      histograms (the response is not reset); on data x_cor cleared and
      hxDet holding the filled counts. */
  ghost predicate Generated(m0: Model, u0: Unfold, events: seq<Selection.Evec>, cfg: Config,
                            m: Model, u: Unfold, xCor: seq<real>)
    requires ModelShape(m0) && UnfoldShape(u0) && ModelShape(m)
    requires forall k :: 0 <= k < |events| ==> EventInRange(events[k], cfg.isMC)
  {
    var filled := FillEvents(Cleared(m0, cfg.isMC), events, |events|, cfg);
    (if cfg.isMC && !IsEPOS(cfg.mcName) then Calculated(filled, m) else m.(det := filled.det) == filled)
    && (cfg.isMC ==>
          xCor == m.x
          && u == UnfoldEvents(Unfold(ZeroCounts(NCOMB), ZeroCounts(NCOMB), u0.fill, u0.miss), events, |events|))
    && (!cfg.isMC ==>
          m == filled && xCor == Zeros(NCOMB) && u == Unfold(m.det, ZeroCounts(NCOMB), u0.fill, u0.miss))
  }

  /** Whether the oracle holds enough valid multinomial draws for nBoot
      replicas over n bins. */
  predicate OracleFits(o: VecOper.BootOracle, n: nat, nBoot: nat, fast: bool)
  {
    !fast ==> |o.draws| >= nBoot && forall j :: 0 <= j < nBoot ==> VecOper.ValidDraws(o.draws[j], n)
  }

  /** How many times SetXCorrected fills a bin holding v: round(v) when
      positive, else none. */
  function RoundedCount(v: real): (n: nat)
    ensures n as real <= (if v > 0.0 then v + 0.5 else 0.5)
    ensures VecOper.IsCount(v) ==> n as real == v
  {
    var r := VecOper.Round(v);
    if VecOper.IsCount(v) then VecOper.RoundCount(v); if r > 0 then r else 0
    else if r > 0 then r else 0
  }

  /** Number of events a bootstrap replica of v draws: the rounded floored sum. */
  function BootCount(v: seq<real>): (n: nat)
    requires VecOper.NonNeg(v)
    ensures n as real - 0.5 <= VecOper.VSum(v) < n as real + 0.5
  {
    VecOper.VSumPositive(v);
    VecOper.Round(VecOper.VSum(v))
  }

  /** Body of the GenerateModel event loop on the accumulated vectors. */
  method AddEvent(m: Model, ev: Selection.Evec, cfg: Config, epos: bool) returns (r: Model)
    requires ModelShape(m) && EventInRange(ev, cfg.isMC) && epos == IsEPOS(cfg.mcName)
    ensures r == FillEvent(m, ev, cfg)
  {
    var pc, nf, ng, nx, nxg, det := m.processCount, m.f, m.fGen, m.x, m.xGen, m.det;
    if cfg.isMC {
      if Selection.MassCutOff(ev, cfg.xiMax, cfg.mcName, cfg.ddMode) {
        var w := cfg.reweight(ev, cfg.delta);
        pc := pc[ev.proc := pc[ev.proc] + 1.0];
        ng := ng[ev.cGen := ng[ev.cGen][ev.proc := ng[ev.cGen][ev.proc] + w]];
        nf := nf[ev.c := nf[ev.c][ev.proc := nf[ev.c][ev.proc] + w]];
        if epos {
          nx := nx[ev.c := nx[ev.c] + 1.0];
          nxg := nxg[ev.cGen := nxg[ev.cGen] + 1.0];
        }
      }
    } else if ev.c != 0 {
      nx := nx[ev.c := nx[ev.c] + 1.0];
      det := det[ev.c := det[ev.c] + 1];
    }
    r := Model(pc, nf, ng, nx, nxg, det);
  }

  /** The event loop of GenerateModel on values. */
  method FillAll(m0: Model, events: seq<Selection.Evec>, cfg: Config, epos: bool) returns (m: Model)
    requires ModelShape(m0) && epos == IsEPOS(cfg.mcName)
    requires forall k :: 0 <= k < |events| ==> EventInRange(events[k], cfg.isMC)
    ensures m == FillEvents(m0, events, |events|, cfg)
  {
    m := m0;
    var i := 0;
    while i < |events|
      invariant 0 <= i <= |events|
      invariant m == FillEvents(m0, events, i, cfg)
    {
      m := AddEvent(m, events[i], cfg, epos);
      i := i + 1;
    }
  }

  /** The event loop of ConstructUnfolding on values: a visible event is a
      response fill counted at both levels, a lost one a miss counted at
      generator level. */
  method UnfoldAll(u0: Unfold, events: seq<Selection.Evec>) returns (u: Unfold)
    requires UnfoldShape(u0)
    requires forall k :: 0 <= k < |events| ==> EventInRange(events[k], true)
    ensures u == UnfoldEvents(u0, events, |events|)
  {
    var det, gen, fill, miss := u0.det, u0.gen, u0.fill, u0.miss;
    var i := 0;
    while i < |events|
      invariant 0 <= i <= |events|
      invariant Unfold(det, gen, fill, miss) == UnfoldEvents(u0, events, i)
    {
      var c := events[i].c;
      var cGen := events[i].cGen;
      if c != 0 {
        fill := fill[c := fill[c][cGen := fill[c][cGen] + 1]];
        det := det[c := det[c] + 1];
        gen := gen[cGen := gen[cGen] + 1];
      } else {
        miss := miss[cGen := miss[cGen] + 1];
        gen := gen[cGen := gen[cGen] + 1];
      }
      i := i + 1;
    }
    u := Unfold(det, gen, fill, miss);
  }

  /** The column normalisation and re-synthesis of CalculateF on values. */
  method CalculateDensities(m: Model) returns (r: Model)
    requires ModelShape(m) && NonNegMatrix(m.f) && NonNegMatrix(m.fGen)
    ensures ModelShape(r) && Calculated(m, r) && r.det == m.det
  {
    ColumnsPositive(m.fGen, NCOMB, C);
    var fGen := NormalizeColumns(m.fGen, NCOMB, C);
    var xGen := Synthesize(m.processCount, fGen, NCOMB);
    ColumnsPositive(m.f, NCOMB, C);
    var f := NormalizeColumns(m.f, NCOMB, C);
    var x := Synthesize(m.processCount, f, NCOMB);
    r := m.(f := f, fGen := fGen, x := x, xGen := xGen);
  }

  /** The vector clearing loop of EmptyData: x, x_cor and x_gen set to zero
      bin by bin. */
  method ZeroVectors(x: seq<real>, xCor: seq<real>, xGen: seq<real>) returns (nx: seq<real>, nc: seq<real>, ng: seq<real>)
    requires |xCor| == |x| && |xGen| == |x|
    ensures nx == Zeros(|x|) && nc == Zeros(|x|) && ng == Zeros(|x|)
  {
    nx, nc, ng := x, xCor, xGen;
    var i := 0;
    while i < |nx|
      invariant 0 <= i <= |x| && |nx| == |x| && |nc| == |x| && |ng| == |x|
      invariant forall k :: 0 <= k < i ==> nx[k] == 0.0 && nc[k] == 0.0 && ng[k] == 0.0
    {
      nx := nx[i := 0.0];
      nc := nc[i := 0.0];
      ng := ng[i := 0.0];
      i := i + 1;
    }
  }

  /** The process-count clearing loop of EmptyData. */
  method ZeroProcessCounts(pc: seq<real>) returns (r: seq<real>)
    requires |pc| == C
    ensures r == Zeros(C)
  {
    r := pc;
    var j := 0;
    while j < C
      invariant 0 <= j <= C && |r| == C
      invariant forall k :: 0 <= k < j ==> r[k] == 0.0
    {
      r := r[j := 0.0];
      j := j + 1;
    }
  }

  /** The density-matrix clearing loop of EmptyData: every cell of F and
      F_gen set to zero. */
  method ZeroDensities(f: seq<seq<real>>, fGen: seq<seq<real>>) returns (rf: seq<seq<real>>, rg: seq<seq<real>>)
    requires VecOper.IsMatrix(f, NCOMB, C) && VecOper.IsMatrix(fGen, NCOMB, C)
    ensures rf == ZeroMatrix(NCOMB, C) && rg == ZeroMatrix(NCOMB, C)
  {
    rf, rg := f, fGen;
    var r := 0;
    while r < NCOMB
      invariant 0 <= r <= NCOMB
      invariant VecOper.IsMatrix(rf, NCOMB, C) && VecOper.IsMatrix(rg, NCOMB, C)
      invariant forall a :: 0 <= a < r ==> rf[a] == Zeros(C) && rg[a] == Zeros(C)
    {
      var j := 0;
      while j < C
        invariant 0 <= j <= C
        invariant VecOper.IsMatrix(rf, NCOMB, C) && VecOper.IsMatrix(rg, NCOMB, C)
        invariant forall a :: 0 <= a < r ==> rf[a] == Zeros(C) && rg[a] == Zeros(C)
        invariant forall b :: 0 <= b < j ==> rf[r][b] == 0.0 && rg[r][b] == 0.0
      {
        rf := rf[r := rf[r][j := 0.0]];
        rg := rg[r := rg[r][j := 0.0]];
        j := j + 1;
      }
      assert rf[r] == Zeros(C) && rg[r] == Zeros(C);
      r := r + 1;
    }
  }

  datatype Option<T> = None | Some(value: T)

  /** What the tree reader takes from one tree entry: the simulated process
      and diffractive masses, the generator- and detector-level signal
      vectors (their construction from the detector read-out is not part of
      this model), the trigger class mask, the simulated online decisions,
      the offline AD/V0 decisions and the signal arrival times. */
  datatype RawEvent = RawEvent(proc: nat, massL: real, massR: real, sGen: seq<bool>, sDet: seq<bool>,
                               classMask: nat, mc: Selection.MCOnline, offline: Selection.Offline,
                               times: Selection.Times)

  /** The signal vectors span the detector space; a simulated process is one
      of the C classes. */
  predicate RawInRange(raw: RawEvent, isMC: bool)
  {
    |raw.sDet| == DIM && (isMC ==> |raw.sGen| == DIM && raw.proc < C)
  }

  /** The run-wide settings of the tree reader. skipCD drops central
      diffraction from Monte Carlo, generatorLevel replaces the detector
      index by the generator one. */
  datatype TreeSettings = TreeSettings(run: int, bcMask: string, isMC: bool, skipCD: bool, generatorLevel: bool)

  /** Name of the trigger class read for a run and bunch-crossing mask; an
      unknown run has none and the reader stops. */
  function TriggerName(run: int, bcMask: string): (name: Option<string>)
    ensures name.Some? <==> run in {226062, 234039, 274593, 274594, 274595}
    ensures name.Some? ==> |name.value| > |bcMask|
  {
    if run == 226062 then Some("TEC0SMB-" + bcMask + "-NOPF-ALLNOTRD_CINT10-" + bcMask + "-NOPF-ALLNOTRD")
    else if run == 234039 then Some("TECINT11-" + bcMask + "-NOPF-ALLNOTRD")
    else if run == 274593 || run == 274594 || run == 274595 then Some("TECINT11-" + bcMask + "-NOPF-CENTNOTRD")
    else None
  }

  /** The five cuts of the reader, their names and which are switched on:
      the late-interaction veto is recorded but never enforced. */
  const N_CUTS: nat := 5
  const CUT_NAMES: seq<string> := ["Online trigger", "!Beam-Gas VETO", "!Early Interactions (timing)",
                                   "!Late Interactions (timing)", "Offline minimum conditions"]
  const CUT_STATUS: seq<bool> := [true, true, true, false, true]

  /** Outcome of each cut for one event: online trigger, beam-gas veto,
      early and late timing vetoes, and the offline minimum-bias condition
      (some detector fired). */
  function CutResults(raw: RawEvent, st: TreeSettings): (r: seq<bool>)
    ensures |r| == N_CUTS
    ensures r[4] <==> Bits.Vec2Ind(raw.sDet) != 0
  {
    [Selection.OnlineTrigger(st.run, st.bcMask, raw.classMask, st.isMC, raw.mc),
     Selection.BGVeto(raw.offline),
     Selection.EarlyInteractionVeto(raw.times, Selection.V0_CUT_T, Selection.AD_CUT_T),
     Selection.LateInteractionVeto(raw.times, Selection.V0_CUT_T, Selection.AD_CUT_T),
     Bits.Vec2Ind(raw.sDet) != 0]
  }

  /** The event survives every switched-on cut. */
  predicate EventOK(raw: RawEvent, st: TreeSettings)
  {
    forall k :: 0 <= k < N_CUTS && CUT_STATUS[k] ==> CutResults(raw, st)[k]
  }

  /** A Monte Carlo central-diffractive event dropped before it is recorded. */
  predicate Skipped(raw: RawEvent, st: TreeSettings)
  {
    st.isMC && st.skipCD && raw.proc == 3
  }

  /** The recorded nano-event of a tree entry: on Monte Carlo the process,
      the squared masses and the generator index; the detector index, or 0
      when a switched-on cut fails; in generator-level mode the generator
      index instead. */
  function Classify(raw: RawEvent, st: TreeSettings): (ev: Selection.Evec)
    requires RawInRange(raw, st.isMC)
    ensures EventInRange(ev, st.isMC)
  {
    NcombIsPow2();
    var base :=
      if st.isMC then Selection.DEFAULT_EVEC.(proc := raw.proc, m2L := raw.massL * raw.massL,
                                               m2R := raw.massR * raw.massR, cGen := Bits.Vec2Ind(raw.sGen))
      else Selection.DEFAULT_EVEC;
    if st.isMC && st.generatorLevel then base.(c := base.cGen)
    else base.(c := if EventOK(raw, st) then Bits.Vec2Ind(raw.sDet) else 0)
  }

  /** Outside generator-level mode an event is visible (index not 0)
      exactly when it passes the online trigger, the beam-gas veto and the
      early-interaction veto and some detector fired; the late-interaction
      veto never matters. A visible event keeps its detector index. */
  lemma ClassifyVisible(raw: RawEvent, st: TreeSettings)
    requires RawInRange(raw, st.isMC) && !(st.isMC && st.generatorLevel)
    ensures Classify(raw, st).c != 0 <==>
      Selection.OnlineTrigger(st.run, st.bcMask, raw.classMask, st.isMC, raw.mc)
      && Selection.BGVeto(raw.offline)
      && Selection.EarlyInteractionVeto(raw.times, Selection.V0_CUT_T, Selection.AD_CUT_T)
      && exists i :: 0 <= i < |raw.sDet| && raw.sDet[i]
    ensures Classify(raw, st).c != 0 ==> Classify(raw, st).c == Bits.Vec2Ind(raw.sDet)
  {
    var r := CutResults(raw, st);
    Bits.Vec2IndZero(raw.sDet);
    assert EventOK(raw, st) <==> r[0] && r[1] && r[2] && r[4] by {
      if r[0] && r[1] && r[2] && r[4] {
        forall k | 0 <= k < N_CUTS && CUT_STATUS[k]
          ensures r[k]
        {
        }
      }
    }
  }

  /** Cell of the cut matrix for cut k and one event: -1 when the event was
      dropped, else 1 or 0 for the cut's outcome. */
  function CutCell(raw: RawEvent, st: TreeSettings, k: nat): int
    requires k < N_CUTS
  {
    if Skipped(raw, st) then -1 else if CutResults(raw, st)[k] then 1 else 0
  }

  /** The nano-events recorded from the first n tree entries. */
  function Recorded(raws: seq<RawEvent>, n: nat, st: TreeSettings): (evs: seq<Selection.Evec>)
    requires n <= |raws| && forall k :: 0 <= k < |raws| ==> RawInRange(raws[k], st.isMC)
    ensures |evs| <= n
    ensures forall k :: 0 <= k < |evs| ==> EventInRange(evs[k], st.isMC)
  {
    if n == 0 then []
    else
      var prev := Recorded(raws, n - 1, st);
      if Skipped(raws[n - 1], st) then prev else prev + [Classify(raws[n - 1], st)]
  }

  /** Every entry that is not dropped is recorded. */
  lemma {:induction false} RecordedCount(raws: seq<RawEvent>, n: nat, st: TreeSettings)
    requires n <= |raws| && forall k :: 0 <= k < |raws| ==> RawInRange(raws[k], st.isMC)
    ensures |Recorded(raws, n, st)| == n - |set k | 0 <= k < n && Skipped(raws[k], st)|
  {
    if n > 0 {
      RecordedCount(raws, n - 1, st);
      var before := set k | 0 <= k < n - 1 && Skipped(raws[k], st);
      var after := set k | 0 <= k < n && Skipped(raws[k], st);
      if Skipped(raws[n - 1], st) {
        assert after == before + {n - 1};
      } else {
        assert after == before;
      }
    }
  }

  /** With skipCD no recorded Monte Carlo event is central-diffractive. */
  lemma {:induction false} RecordedNoCD(raws: seq<RawEvent>, n: nat, st: TreeSettings)
    requires n <= |raws| && forall k :: 0 <= k < |raws| ==> RawInRange(raws[k], st.isMC)
    requires st.isMC && st.skipCD
    ensures forall k :: 0 <= k < |Recorded(raws, n, st)| ==> Recorded(raws, n, st)[k].proc != 3
  {
    if n > 0 {
      RecordedNoCD(raws, n - 1, st);
    }
  }

  /** One entry of the reader's event loop: the five cuts are evaluated and
      recorded for the event, and the nano-event is built. */
  method ClassifyOne(cuts: CutFlow.CutFlow, e: nat, raw: RawEvent, st: TreeSettings) returns (ev: Selection.Evec)
    requires cuts.Valid() && |cuts.cmat| == N_CUTS && cuts.status == CUT_STATUS && e < cuts.nEvents
    requires RawInRange(raw, st.isMC) && !Skipped(raw, st)
    modifies cuts
    ensures cuts.Valid() && cuts.nEvents == old(cuts.nEvents) && |cuts.cmat| == N_CUTS
    ensures cuts.status == old(cuts.status) && cuts.names == old(cuts.names) && cuts.inputName == old(cuts.inputName)
    ensures forall k, j :: 0 <= k < N_CUTS && 0 <= j < cuts.nEvents ==>
      cuts.cmat[k][j] == if j == e then CutCell(raw, st, k) else old(cuts.cmat)[k][j]
    ensures ev == Classify(raw, st)
  {
    NcombIsPow2();
    ev := Selection.DEFAULT_EVEC;
    if st.isMC {
      ev := ev.(proc := raw.proc, m2L := raw.massL * raw.massL, m2R := raw.massR * raw.massR,
                cGen := Bits.Vec2Ind(raw.sGen));
    }
    var r := CutResults(raw, st);
    var ok := true;
    var k := 0;
    while k < N_CUTS
      invariant 0 <= k <= N_CUTS
      invariant cuts.Valid() && cuts.nEvents == old(cuts.nEvents) && |cuts.cmat| == N_CUTS
      invariant cuts.status == old(cuts.status) && cuts.names == old(cuts.names) && cuts.inputName == old(cuts.inputName)
      invariant forall l, j :: 0 <= l < N_CUTS && 0 <= j < cuts.nEvents ==>
        cuts.cmat[l][j] == if j == e && l < k then CutCell(raw, st, l) else old(cuts.cmat)[l][j]
      invariant ok <==> forall l :: 0 <= l < k && CUT_STATUS[l] ==> r[l]
    {
      var pass := cuts.Cut(e, k, r[k]);
      if !pass {
        ok := false;
      }
      k := k + 1;
    }
    ev := ev.(c := if ok then Bits.Vec2Ind(raw.sDet) else 0);
    if st.isMC && st.generatorLevel {
      ev := ev.(c := ev.cGen);
    }
  }

  /** Names the five cuts of the reader and switches them on or off. */
  method NameCuts(cuts: CutFlow.CutFlow)
    requires cuts.Valid() && |cuts.cmat| == N_CUTS
    modifies cuts
    ensures cuts.Valid() && cuts.nEvents == old(cuts.nEvents)
    ensures cuts.cmat == old(cuts.cmat) && cuts.inputName == old(cuts.inputName)
    ensures cuts.names == CUT_NAMES && cuts.status == CUT_STATUS
  {
    var k := 0;
    while k < N_CUTS
      invariant 0 <= k <= N_CUTS
      invariant cuts.Valid() && cuts.nEvents == old(cuts.nEvents)
      invariant cuts.cmat == old(cuts.cmat) && cuts.inputName == old(cuts.inputName)
      invariant |cuts.names| == N_CUTS && |cuts.status| == N_CUTS
      invariant forall l :: 0 <= l < k ==> cuts.names[l] == CUT_NAMES[l] && cuts.status[l] == CUT_STATUS[l]
    {
      cuts.NameCut(k, CUT_NAMES[k], CUT_STATUS[k]);
      k := k + 1;
    }
  }

  /** The event loop of the tree reader: a cut flow over every entry with
      the five named cuts, and the recorded nano-events. A dropped entry
      keeps its cut cells unevaluated. */
  method ClassifyEvents(raws: seq<RawEvent>, st: TreeSettings, name: string)
    returns (evs: seq<Selection.Evec>, cuts: CutFlow.CutFlow)
    requires forall k :: 0 <= k < |raws| ==> RawInRange(raws[k], st.isMC)
    ensures fresh(cuts) && cuts.Valid() && cuts.nEvents == |raws|
    ensures cuts.names == CUT_NAMES && cuts.status == CUT_STATUS && cuts.inputName == name
    ensures |cuts.cmat| == N_CUTS
    ensures forall k, j :: 0 <= k < N_CUTS && 0 <= j < |raws| ==> cuts.cmat[k][j] == CutCell(raws[j], st, k)
    ensures evs == Recorded(raws, |raws|, st)
  {
    cuts := new CutFlow.CutFlow(|raws|, N_CUTS, name);
    NameCuts(cuts);
    evs := [];
    var e := 0;
    while e < |raws|
      invariant 0 <= e <= |raws| && fresh(cuts)
      invariant cuts.Valid() && cuts.nEvents == |raws| && |cuts.cmat| == N_CUTS
      invariant cuts.names == CUT_NAMES && cuts.status == CUT_STATUS && cuts.inputName == name
      invariant forall l, j :: 0 <= l < N_CUTS && 0 <= j < |raws| ==>
        cuts.cmat[l][j] == if j < e then CutCell(raws[j], st, l) else -1
      invariant evs == Recorded(raws, e, st)
    {
      var raw := raws[e];
      if !Skipped(raw, st) {
        var ev := ClassifyOne(cuts, e, raw, st);
        evs := evs + [ev];
      }
      e := e + 1;
    }
  }

  /** Per-process event counts, detector-level and generator-level count
      vectors, the density matrices, the unfolding counters and the
      bootstrap matrix of one data or Monte Carlo sample. */
  class Combinatorics {
    const isMC: bool
    const mcName: string
    /** Run number and bunch-crossing mask (B, A, C or E) of the sample. */
    const run: int
    const bcMask: string
    /** Measured (data) or synthesised (Monte Carlo) counts per combination. */
    var x: seq<real>
    /** Beam-gas corrected counts. */
    var xCor: seq<real>
    /** Generator-level counts (Monte Carlo). */
    var xGen: seq<real>
    /** Unfolded counts; never cleared by EmptyData. */
    var xUnf: seq<real>
    /** Beam-gas (A, C) and empty (E) bunch-crossing counts and their scales. */
    var xA: seq<real>
    var xC: seq<real>
    var xE: seq<real>
    var bgA: real
    var bgC: real
    var bgE: real
    /** Number of Monte Carlo events per process. */
    var processCount: seq<real>
    /** Detector- and generator-level process density matrices (NCOMB x C). */
    var f: seq<seq<real>>
    var fGen: seq<seq<real>>
    /** The recorded events. */
    var events: seq<Selection.Evec>
    /** Beam-gas corrected bootstrap replicas, one column per replica. */
    var bootXCor: seq<seq<real>>
    /** Detector-level, generator-level and empty unfolding histograms. */
    var hxDet: seq<nat>
    var hxGen: seq<nat>
    var hxEmpty: seq<nat>
    /** Response counters: fills (detector bin x generator bin) and misses. */
    var respFill: seq<seq<nat>>
    var respMiss: seq<nat>

    function ModelOf(): Model
      reads this
    {
      Model(processCount, f, fGen, x, xGen, hxDet)
    }

    function UnfoldOf(): Unfold
      reads this
    {
      Unfold(hxDet, hxGen, respFill, respMiss)
    }

    ghost predicate Valid()
      reads this`processCount, this`f, this`fGen, this`x, this`xGen, this`xCor, this`xUnf, this`events
      reads this`hxDet, this`hxGen, this`hxEmpty, this`respFill, this`respMiss
    {
      |processCount| == C && VecOper.IsMatrix(f, NCOMB, C) && VecOper.IsMatrix(fGen, NCOMB, C)
      && |x| == NCOMB && |xGen| == NCOMB && |hxDet| == NCOMB
      && |hxGen| == NCOMB && |respMiss| == NCOMB && |respFill| == NCOMB
      && (forall i :: 0 <= i < NCOMB ==> |respFill[i]| == NCOMB)
      && |xCor| == NCOMB && |xUnf| == NCOMB && |hxEmpty| == NCOMB
      && VecOper.NonNeg(processCount)
      && forall k :: 0 <= k < |events| ==> EventInRange(events[k], isMC)
    }

    /** A sample with every vector, matrix and counter zero and no events. */
    constructor (mcName: string, isMC: bool, run: int, bcMask: string)
      ensures Valid() && this.isMC == isMC && this.mcName == mcName && this.run == run && this.bcMask == bcMask
      ensures x == Zeros(NCOMB) && xCor == Zeros(NCOMB) && xGen == Zeros(NCOMB) && xUnf == Zeros(NCOMB)
      ensures processCount == Zeros(C) && f == ZeroMatrix(NCOMB, C) && fGen == ZeroMatrix(NCOMB, C)
      ensures events == [] && hxDet == ZeroCounts(NCOMB) && hxGen == ZeroCounts(NCOMB)
      ensures respFill == seq(NCOMB, _ => ZeroCounts(NCOMB)) && respMiss == ZeroCounts(NCOMB)
    {
      this.isMC := isMC;
      this.mcName := mcName;
      this.run := run;
      this.bcMask := bcMask;
      x := Zeros(NCOMB);
      xCor := Zeros(NCOMB);
      xGen := Zeros(NCOMB);
      xUnf := Zeros(NCOMB);
      xA := [];
      xC := [];
      xE := [];
      bgA := 0.0;
      bgC := 0.0;
      bgE := 0.0;
      processCount := Zeros(C);
      f := ZeroMatrix(NCOMB, C);
      fGen := ZeroMatrix(NCOMB, C);
      events := [];
      bootXCor := [];
      hxDet := ZeroCounts(NCOMB);
      hxGen := ZeroCounts(NCOMB);
      hxEmpty := ZeroCounts(NCOMB);
      respFill := seq(NCOMB, _ => ZeroCounts(NCOMB));
      respMiss := ZeroCounts(NCOMB);
    }

    /** Clears x, x_cor, x_gen and the histograms, and on Monte Carlo the
        process counts and density matrices (EmptyData). x_unf and the
        response counters are kept. */
    method EmptyData()
      requires Valid()
      modifies this`x, this`xCor, this`xGen, this`hxDet, this`hxGen, this`hxEmpty, this`processCount, this`f, this`fGen
      ensures Valid()
      ensures ModelOf() == Cleared(old(ModelOf()), isMC)
      ensures xCor == Zeros(NCOMB) && hxGen == ZeroCounts(NCOMB) && hxEmpty == ZeroCounts(NCOMB)
    {
      ClearCounts();
      if isMC {
        ClearProcesses();
      }
    }

    /** The count-vector and histogram half of EmptyData. */
    method ClearCounts()
      requires Valid()
      modifies this`x, this`xCor, this`xGen, this`hxDet, this`hxGen, this`hxEmpty
      ensures Valid()
      ensures x == Zeros(NCOMB) && xCor == Zeros(NCOMB) && xGen == Zeros(NCOMB)
      ensures hxDet == ZeroCounts(NCOMB) && hxGen == ZeroCounts(NCOMB) && hxEmpty == ZeroCounts(NCOMB)
    {
      x, xCor, xGen := ZeroVectors(x, xCor, xGen);
      hxDet, hxGen, hxEmpty := ZeroCounts(NCOMB), ZeroCounts(NCOMB), ZeroCounts(NCOMB);
    }

    /** The Monte Carlo half of EmptyData. */
    method ClearProcesses()
      requires Valid()
      modifies this`processCount, this`f, this`fGen
      ensures Valid()
      ensures processCount == Zeros(C) && f == ZeroMatrix(NCOMB, C) && fGen == ZeroMatrix(NCOMB, C)
    {
      processCount := ZeroProcessCounts(processCount);
      f, fGen := ZeroDensities(f, fGen);
    }

    /** The event loop of GenerateModel: every recorded event is added to
        the model as FillEvent describes. */
    method FillModel(xiMax: real, ddMode: int, delta: real, reweight: (Selection.Evec, real) -> real)
      requires Valid()
      modifies this`x, this`xGen, this`hxDet, this`processCount, this`f, this`fGen
      ensures Valid()
      ensures ModelOf() == FillEvents(old(ModelOf()), events, |events|, Config(isMC, mcName, xiMax, ddMode, delta, reweight))
    {
      var cfg := Config(isMC, mcName, xiMax, ddMode, delta, reweight);
      var epos := Selection.Contains(mcName, "EPOS-LHC");
      var m0 := ModelOf();
      var m := FillAll(m0, events, cfg, epos);
      FillEventsCountsNonNeg(m0, events, |events|, cfg);
      SetModel(m);
    }

    /** Stores an accumulated model into the member vectors. */
    method SetModel(m: Model)
      requires Valid() && ModelShape(m) && VecOper.NonNeg(m.processCount)
      modifies this`x, this`xGen, this`hxDet, this`processCount, this`f, this`fGen
      ensures Valid() && ModelOf() == m
    {
      processCount, f, fGen, x, xGen, hxDet := m.processCount, m.f, m.fGen, m.x, m.xGen, m.det;
    }

    /** Turns the accumulated Monte Carlo densities into per-process
        distributions and re-synthesises x_gen and x from them
        (CalculateF); data and EPOS are left alone. */
    method CalculateF()
      requires Valid()
      requires isMC && !IsEPOS(mcName) ==> NonNegMatrix(f) && NonNegMatrix(fGen)
      modifies this`x, this`xGen, this`hxDet, this`processCount, this`f, this`fGen
      ensures Valid()
      ensures if isMC && !IsEPOS(mcName) then Calculated(old(ModelOf()), ModelOf()) && hxDet == old(hxDet)
              else ModelOf() == old(ModelOf())
    {
      if isMC && !Selection.Contains(mcName, "EPOS-LHC") {
        var r := CalculateDensities(ModelOf());
        SetModel(r);
      }
    }

    /** Fills the unfolding counters from every recorded Monte Carlo event
        (ConstructUnfolding). */
    method ConstructUnfolding()
      requires Valid() && forall k :: 0 <= k < |events| ==> EventInRange(events[k], true)
      modifies this`hxDet, this`hxGen, this`respFill, this`respMiss
      ensures Valid()
      ensures UnfoldOf() == UnfoldEvents(old(UnfoldOf()), events, |events|)
    {
      var u := UnfoldAll(UnfoldOf(), events);
      SetUnfold(u);
    }

    /** Stores unfolding counters into the histograms and the response. */
    method SetUnfold(u: Unfold)
      requires Valid() && UnfoldShape(u)
      modifies this`hxDet, this`hxGen, this`respFill, this`respMiss
      ensures Valid() && UnfoldOf() == u
    {
      hxDet, hxGen, respFill, respMiss := u.det, u.gen, u.fill, u.miss;
    }

    /** Rebuilds the model from the recorded events (GenerateModel): clear,
        fill, and on Monte Carlo normalise, copy x to x_cor and construct
        the unfolding counters. */
    method GenerateModel(delta: real, xiMax: real, ddMode: int, reweight: (Selection.Evec, real) -> real)
      requires Valid()
      requires isMC ==> forall k :: 0 <= k < |events| ==> reweight(events[k], delta) >= 0.0
      modifies this`x, this`xCor, this`xGen, this`hxDet, this`hxGen, this`hxEmpty, this`processCount, this`f, this`fGen,
               this`respFill, this`respMiss
      ensures Valid()
      ensures Generated(old(ModelOf()), old(UnfoldOf()), events, Config(isMC, mcName, xiMax, ddMode, delta, reweight),
                        ModelOf(), UnfoldOf(), xCor)
      ensures hxEmpty == ZeroCounts(NCOMB)
    {
      ghost var cfg := Config(isMC, mcName, xiMax, ddMode, delta, reweight);
      EmptyData();
      ghost var m1 := ModelOf();
      FillModel(xiMax, ddMode, delta, reweight);
      if isMC {
        FillEventsNonNeg(m1, events, |events|, cfg);
        FillMCKeepsDet(m1, events, |events|, cfg);
        FinishMonteCarlo();
      }
    }

    /** The Monte Carlo tail of GenerateModel: CalculateF, x_cor := x, and
        ConstructUnfolding. */
    method FinishMonteCarlo()
      requires Valid() && isMC && NonNegMatrix(f) && NonNegMatrix(fGen)
      requires forall k :: 0 <= k < |events| ==> EventInRange(events[k], true)
      modifies this`x, this`xCor, this`xGen, this`hxDet, this`hxGen, this`processCount, this`f, this`fGen,
               this`respFill, this`respMiss
      ensures Valid()
      ensures if IsEPOS(mcName) then ModelOf().(det := old(hxDet)) == old(ModelOf())
              else Calculated(old(ModelOf()), ModelOf())
      ensures xCor == x
      ensures UnfoldOf() == UnfoldEvents(old(UnfoldOf()), events, |events|)
    {
      CalculateF();
      xCor := x;
      ConstructUnfolding();
    }

    /** A fresh, empty unfolding response with cleared detector- and
        generator-level histograms (NewUnfoldResponse). */
    method NewUnfoldResponse()
      requires Valid()
      modifies this`hxDet, this`hxGen, this`respFill, this`respMiss
      ensures Valid()
      ensures UnfoldOf() == Unfold(ZeroCounts(NCOMB), ZeroCounts(NCOMB), seq(NCOMB, _ => ZeroCounts(NCOMB)), ZeroCounts(NCOMB))
    {
      hxDet, hxGen := ZeroCounts(NCOMB), ZeroCounts(NCOMB);
      respFill, respMiss := seq(NCOMB, _ => ZeroCounts(NCOMB)), ZeroCounts(NCOMB);
    }

    /** Reads a sample (ReadTree): a new unfolding response, then, for a
        known run, every tree entry classified through the five cuts and
        recorded after the earlier events, and the default model generated
        (delta 0, xi_max 1). The cut flow of the reading is returned; an
        unknown run stops after the response reset and returns none. */
    method ReadTree(raws: seq<RawEvent>, skipCD: bool, generatorLevel: bool, ddMode: int,
                    reweight: (Selection.Evec, real) -> real) returns (cuts: CutFlow.CutFlow?)
      requires Valid()
      requires forall k :: 0 <= k < |raws| ==> RawInRange(raws[k], isMC)
      requires isMC ==> forall ev: Selection.Evec :: reweight(ev, 0.0) >= 0.0
      modifies this`x, this`xCor, this`xGen, this`hxDet, this`hxGen, this`hxEmpty, this`processCount, this`f, this`fGen,
               this`respFill, this`respMiss, this`events
      ensures Valid()
      ensures TriggerName(run, bcMask).None? ==>
        cuts == null && events == old(events) && ModelOf().(det := old(hxDet)) == old(ModelOf())
        && UnfoldOf() == Unfold(ZeroCounts(NCOMB), ZeroCounts(NCOMB), seq(NCOMB, _ => ZeroCounts(NCOMB)), ZeroCounts(NCOMB))
      ensures TriggerName(run, bcMask).Some? ==>
        cuts != null && fresh(cuts) && cuts.Valid() && cuts.nEvents == |raws|
        && cuts.names == CUT_NAMES && cuts.status == CUT_STATUS && cuts.inputName == TriggerName(run, bcMask).value
        && (forall k, j :: 0 <= k < N_CUTS && 0 <= j < |raws| ==>
              cuts.cmat[k][j] == CutCell(raws[j], TreeSettings(run, bcMask, isMC, skipCD, generatorLevel), k))
        && events == old(events) + Recorded(raws, |raws|, TreeSettings(run, bcMask, isMC, skipCD, generatorLevel))
        && Generated(old(ModelOf()).(det := ZeroCounts(NCOMB)),
                     Unfold(ZeroCounts(NCOMB), ZeroCounts(NCOMB), seq(NCOMB, _ => ZeroCounts(NCOMB)), ZeroCounts(NCOMB)),
                     events, Config(isMC, mcName, 1.0, ddMode, 0.0, reweight), ModelOf(), UnfoldOf(), xCor)
    {
      NewUnfoldResponse();
      var name := TriggerName(run, bcMask);
      if name.None? {
        return null;
      }
      var st := TreeSettings(run, bcMask, isMC, skipCD, generatorLevel);
      var evs, flow := ClassifyEvents(raws, st, name.value);
      AddEvents(evs);
      GenerateModel(0.0, 1.0, ddMode, reweight);
      cuts := flow;
    }

    /** Appends recorded events after the earlier ones. */
    method AddEvents(evs: seq<Selection.Evec>)
      requires Valid() && forall k :: 0 <= k < |evs| ==> EventInRange(evs[k], isMC)
      modifies this`events
      ensures Valid() && events == old(events) + evs
    {
      events := events + evs;
    }

    /** The process counts, or their shares of the floored total
        (GetTotalProcessCount). */
    method GetTotalProcessCount(normalize: bool) returns (r: seq<real>)
      requires Valid()
      ensures normalize ==> VecOper.VSum(processCount) > 0.0 && r == VecOper.NVec(processCount)
      ensures !normalize ==> r == processCount
    {
      if normalize {
        var totsum := 0.0;
        var i := 0;
        while i < |processCount|
          invariant 0 <= i <= |processCount|
          invariant totsum == VecOper.Sum(processCount[..i])
        {
          assert processCount[..i + 1][..i] == processCount[..i];
          totsum := totsum + processCount[i];
          i := i + 1;
        }
        assert processCount[..|processCount|] == processCount;
        VecOper.VSumPositive(processCount);
        r := seq(C, _ => 0.0);
        i := 0;
        while i < |processCount|
          invariant 0 <= i <= |processCount| && |r| == C
          invariant forall k :: 0 <= k < i ==> r[k] == processCount[k] / VecOper.VSum(processCount)
        {
          r := r[i := processCount[i] / (totsum + VecOper.EPS)];
          i := i + 1;
        }
      } else {
        r := processCount;
      }
    }

    /** Stores a beam-gas corrected vector and refills hxDet with round(x_cor)
        entries per bin, none for a non-positive rounding (SetXCorrected). */
    method SetXCorrected(xIn: seq<real>)
      requires Valid() && |xIn| == NCOMB
      modifies this`xCor, this`hxDet
      ensures Valid()
      ensures xCor == xIn
      ensures forall c :: 0 <= c < NCOMB ==> hxDet[c] == RoundedCount(xIn[c])
    {
      xCor := xIn;
      var det := ZeroCounts(NCOMB);
      var c := 0;
      while c < |xIn|
        invariant 0 <= c <= NCOMB && |det| == NCOMB
        invariant forall k :: 0 <= k < c ==> det[k] == RoundedCount(xIn[k])
        invariant forall k :: c <= k < NCOMB ==> det[k] == 0
      {
        var n := 0;
        while n < VecOper.Round(xIn[c])
          invariant 0 <= n <= RoundedCount(xIn[c])
          invariant |det| == NCOMB && det[c] == n
          invariant forall k :: 0 <= k < c ==> det[k] == RoundedCount(xIn[k])
          invariant forall k :: c < k < NCOMB ==> det[k] == 0
          decreases VecOper.Round(xIn[c]) - n
        {
          det := det[c := det[c] + 1];
          n := n + 1;
        }
        c := c + 1;
      }
      hxDet := det;
    }

    /** Stores the beam-gas inputs and sets x_cor to the beam-gas subtracted
        x (SetBeamGasX). hxDet then holds exactly x_cor. */
    method SetBeamGasX(xa: seq<real>, xc: seq<real>, xe: seq<real>, scaleA: real, scaleC: real, scaleE: real)
      requires Valid() && |xa| >= NCOMB && |xc| >= NCOMB && |xe| >= NCOMB
      modifies this`xA, this`xC, this`xE, this`bgA, this`bgC, this`bgE, this`xCor, this`hxDet
      ensures Valid()
      ensures xA == xa && xC == xc && xE == xe && bgA == scaleA && bgC == scaleC && bgE == scaleE
      ensures xCor == VecOper.BGSubstract(x, xa, xc, xe, scaleA, scaleC, scaleE)
      ensures forall c :: 0 <= c < NCOMB ==> hxDet[c] as real == xCor[c]
    {
      var corrected := VecOper.BGSubstract(x, xa, xc, xe, scaleA, scaleC, scaleE);
      SetXCorrected(corrected);
      xA, xC, xE, bgA, bgC, bgE := xa, xc, xe, scaleA, scaleC, scaleE;
    }

    /** Bootstrap replicas of the beam-beam counts, beam-gas corrected
        replica by replica on data (GenerateBootStrap). The replica matrices
        of the four bunch-crossing masks are returned for the contract: on
        data each mask's replicas are drawn from that mask's own normalised
        counts, rounded total and generator oracle. */
    method GenerateBootStrap(nBoot: nat, fast: bool, oB: VecOper.BootOracle, oA: VecOper.BootOracle,
                             oC: VecOper.BootOracle, oE: VecOper.BootOracle)
      returns (ghost bootB: seq<seq<real>>, ghost bootA: seq<seq<real>>, ghost bootC: seq<seq<real>>,
               ghost bootE: seq<seq<real>>, ghost done: bool,
               ghost doneA: bool, ghost doneC: bool, ghost doneE: bool)
      requires Valid() && VecOper.NonNeg(x) && OracleFits(oB, NCOMB, nBoot, fast)
      requires !isMC ==> |xA| >= NCOMB && |xC| >= NCOMB && |xE| >= NCOMB
      requires !isMC ==> VecOper.NonNeg(xA) && VecOper.NonNeg(xC) && VecOper.NonNeg(xE)
      requires !isMC ==> OracleFits(oA, |xA|, nBoot, fast) && OracleFits(oC, |xC|, nBoot, fast) && OracleFits(oE, |xE|, nBoot, fast)
      modifies this`bootXCor
      ensures VecOper.VSum(x) >= VecOper.EPS
      ensures VecOper.IsMatrix(bootB, NCOMB, nBoot) && VecOper.IsMatrix(bootXCor, NCOMB, nBoot)
      ensures forall j :: 0 <= j < nBoot ==>
        VecOper.ReplicaColumn(bootB, j, VecOper.NVec(x), BootCount(x), fast, oB, done)
      ensures isMC ==> bootXCor == bootB
      ensures !isMC ==>
        VecOper.IsMatrix(bootA, |xA|, nBoot) && VecOper.IsMatrix(bootC, |xC|, nBoot) && VecOper.IsMatrix(bootE, |xE|, nBoot)
        && (forall j :: 0 <= j < nBoot ==>
              VecOper.GetColVec(bootXCor, j)
              == VecOper.BGSubstract(VecOper.GetColVec(bootB, j), VecOper.GetColVec(bootA, j),
                                     VecOper.GetColVec(bootC, j), VecOper.GetColVec(bootE, j), bgA, bgC, bgE))
      ensures !isMC ==> forall i, j :: 0 <= i < NCOMB && 0 <= j < nBoot ==> VecOper.IsCount(bootXCor[i][j])
      ensures !isMC ==> VecOper.VSum(xA) >= VecOper.EPS && VecOper.VSum(xC) >= VecOper.EPS && VecOper.VSum(xE) >= VecOper.EPS
      ensures !isMC ==> forall j :: 0 <= j < nBoot ==>
        VecOper.ReplicaColumn(bootA, j, VecOper.NVec(xA), BootCount(xA), fast, oA, doneA)
      ensures !isMC ==> forall j :: 0 <= j < nBoot ==>
        VecOper.ReplicaColumn(bootC, j, VecOper.NVec(xC), BootCount(xC), fast, oC, doneC)
      ensures !isMC ==> forall j :: 0 <= j < nBoot ==>
        VecOper.ReplicaColumn(bootE, j, VecOper.NVec(xE), BootCount(xE), fast, oE, doneE)
    {
      bootXCor := ZeroMatrix(|x|, nBoot);
      VecOper.VSumPositive(x);
      var b, okB := VecOper.CreateBootStrapSample(VecOper.NVec(x), BootCount(x), nBoot, fast, oB);
      bootB, done := b, okB;
      bootA, bootC, bootE := [], [], [];
      doneA, doneC, doneE := true, true, true;
      if isMC {
        bootXCor := b;
        return;
      }
      VecOper.VSumPositive(xA);
      VecOper.VSumPositive(xC);
      VecOper.VSumPositive(xE);
      var a, okA := VecOper.CreateBootStrapSample(VecOper.NVec(xA), BootCount(xA), nBoot, fast, oA);
      var c, okC := VecOper.CreateBootStrapSample(VecOper.NVec(xC), BootCount(xC), nBoot, fast, oC);
      var e, okE := VecOper.CreateBootStrapSample(VecOper.NVec(xE), BootCount(xE), nBoot, fast, oE);
      bootA, bootC, bootE := a, c, e;
      doneA, doneC, doneE := okA, okC, okE;
      var j := 0;
      while j < nBoot
        invariant 0 <= j <= nBoot
        invariant VecOper.IsMatrix(bootXCor, NCOMB, nBoot)
        invariant forall k :: 0 <= k < j ==>
          VecOper.GetColVec(bootXCor, k)
          == VecOper.BGSubstract(VecOper.GetColVec(b, k), VecOper.GetColVec(a, k),
                                 VecOper.GetColVec(c, k), VecOper.GetColVec(e, k), bgA, bgC, bgE)
      {
        var y := VecOper.BGSubstract(VecOper.GetColVec(b, j), VecOper.GetColVec(a, j),
                                     VecOper.GetColVec(c, j), VecOper.GetColVec(e, j), bgA, bgC, bgE);
        var before := bootXCor;
        bootXCor := VecOper.SetColVec(bootXCor, y, j);
        forall k | 0 <= k < j
          ensures VecOper.GetColVec(bootXCor, k) == VecOper.GetColVec(before, k)
        {
        }
        j := j + 1;
      }
      forall i, k | 0 <= i < NCOMB && 0 <= k < nBoot
        ensures VecOper.IsCount(bootXCor[i][k])
      {
        assert bootXCor[i][k] == VecOper.GetColVec(bootXCor, k)[i];
      }
    }
  }
}
