/**
 * The combinatorial coding of detector hit patterns: a combination index in
 * [0, 2^d) and its d-long boolean vector (most significant bit first), the
 * left/right bit-reversal permutation of the indices, the binary-reflected
 * Gray code, the binary lookup matrix and the counting of sub-space
 * combinations (the bit-level half of src/VecOper.cc).
 */
module Bits {

  /** 2^d */
  function Pow2(d: nat): (r: nat)
    ensures r >= 1
  {
    if d == 0 then 1 else 2 * Pow2(d - 1)
  }

  /** Index of a boolean vector: the last entry is the least significant bit. */
  function Vec2Ind(v: seq<bool>): (ind: nat)
    ensures ind < Pow2(|v|)
  {
    if v == [] then 0 else 2 * Vec2Ind(v[..|v| - 1]) + (if v[|v| - 1] then 1 else 0)
  }

  /** Index 0 is exactly the all-false vector: no detector fired. */
  lemma {:induction false} Vec2IndZero(v: seq<bool>)
    ensures Vec2Ind(v) == 0 <==> forall i :: 0 <= i < |v| ==> !v[i]
  {
    if v != [] {
      var init := v[..|v| - 1];
      Vec2IndZero(init);
      assert forall i :: 0 <= i < |init| ==> init[i] == v[i];
    }
  }

  /** The d-long boolean vector of ind, most significant bit first. An index
      of 2^d or more has no such vector: the source's bounds-checked write fails. */
  function Ind2Vec(ind: nat, d: nat): (v: seq<bool>)
    requires ind < Pow2(d)
    ensures |v| == d
    ensures Vec2Ind(v) == ind
  {
    if d == 0 then []
    else
      var v := Ind2Vec(ind / 2, d - 1) + [ind % 2 == 1];
      assert v[..|v| - 1] == Ind2Vec(ind / 2, d - 1);
      v
  }

  /** Vec2Ind is injective on vectors of one length: decoding after encoding
      gives the vector back. */
  lemma {:induction false} Ind2VecOfVec2Ind(v: seq<bool>)
    ensures Ind2Vec(Vec2Ind(v), |v|) == v
  {
    if v != [] {
      var init := v[..|v| - 1];
      Ind2VecOfVec2Ind(init);
      var ind := Vec2Ind(v);
      assert ind / 2 == Vec2Ind(init);
      assert (ind % 2 == 1) == v[|v| - 1];
      assert v == init + [v[|v| - 1]];
    }
  }

  lemma MulAtLeast(b: int, k: int)
    requires b > 0 && k >= 1
    ensures b * k >= b
  {
    assert b * k == b + b * (k - 1);
    if k > 1 { MulAtLeast(b, k - 1); }
  }

  /** Euclidean division is determined by quotient and remainder. */
  lemma DivUnique(x: int, b: int, q: int, s: int)
    requires b > 0 && x == b * q + s && 0 <= s < b
    ensures x / b == q
  {
    var q', s' := x / b, x % b;
    assert x == b * q' + s' && 0 <= s' < b;
    assert b * q' - b * q == s - s';
    assert b * (q' - q) == b * q' - b * q;
    if q' > q { MulAtLeast(b, q' - q); }
    if q' < q { MulAtLeast(b, q - q'); }
  }

  lemma DivDiv(a: nat, b: nat)
    requires b > 0
    ensures (a / 2) / b == a / (2 * b)
  {
    var q := a / (2 * b);
    var r := a % (2 * b);
    assert a == 2 * b * q + r && 0 <= r < 2 * b;
    assert a / 2 == b * q + r / 2;
    DivUnique(a / 2, b, q, r / 2);
  }

  /** Entry j of Ind2Vec(ind, d) is bit d-1-j of ind: the vector is written
      most significant bit first. */
  lemma {:induction false} Ind2VecBit(ind: nat, d: nat, j: nat)
    requires ind < Pow2(d) && j < d
    ensures Ind2Vec(ind, d)[j] == ((ind / Pow2(d - 1 - j)) % 2 == 1)
  {
    var v := Ind2Vec(ind / 2, d - 1);
    assert Ind2Vec(ind, d) == v + [ind % 2 == 1];
    if j < d - 1 {
      assert Ind2Vec(ind, d)[j] == v[j];
      Ind2VecBit(ind / 2, d - 1, j);
      HalfShift(ind, d - 2 - j);
    }
  }

  /** Halving and then dividing by 2^e is dividing by 2^(e+1). */
  lemma HalfShift(ind: nat, e: nat)
    ensures (ind / 2) / Pow2(e) == ind / Pow2(e + 1)
  {
    DivDiv(ind, Pow2(e));
    assert Pow2(e + 1) == 2 * Pow2(e);
  }

  /** The vector read backwards. */
  function Reverse(v: seq<bool>): (r: seq<bool>)
    ensures |r| == |v|
    ensures forall i :: 0 <= i < |v| ==> r[i] == v[|v| - 1 - i]
  {
    seq(|v|, i requires 0 <= i < |v| => v[|v| - 1 - i])
  }

  /** The left/right bit-reversed sequence of dimension dim: entry i is the
      index of i's vector read backwards. */
  function LRSequence(dim: nat): (s: seq<nat>)
    ensures |s| == Pow2(dim)
  {
    seq(Pow2(dim), i requires 0 <= i < Pow2(dim) => Vec2Ind(Reverse(Ind2Vec(i, dim))))
  }

  /** Entry i of LRSequence(dim) is an index whose own entry is i. */
  lemma LRSequenceAt(dim: nat, i: nat)
    requires i < Pow2(dim)
    ensures LRSequence(dim)[i] < Pow2(dim)
    ensures LRSequence(dim)[LRSequence(dim)[i]] == i
  {
    var v := Ind2Vec(i, dim);
    var w := Reverse(v);
    var j := Vec2Ind(w);
    Ind2VecOfVec2Ind(w);
    assert Ind2Vec(j, dim) == w;
    assert Reverse(w) == v;
    assert LRSequence(dim)[j] == Vec2Ind(v);
  }

  /** LRSequence(dim) stays inside [0, 2^dim), undoes itself, and so is a
      permutation of the indices. */
  lemma LRSequenceInvolution(dim: nat)
    ensures forall i :: 0 <= i < Pow2(dim) ==> LRSequence(dim)[i] < Pow2(dim)
    ensures forall i :: 0 <= i < Pow2(dim) ==> LRSequence(dim)[LRSequence(dim)[i]] == i
    ensures forall i, j :: 0 <= i < j < Pow2(dim) ==> LRSequence(dim)[i] != LRSequence(dim)[j]
  {
    var s := LRSequence(dim);
    forall i | 0 <= i < Pow2(dim)
      ensures s[i] < Pow2(dim) && s[s[i]] == i
    {
      LRSequenceAt(dim, i);
    }
    forall i, j | 0 <= i < j < Pow2(dim)
      ensures s[i] != s[j]
    {
      LRSequenceAt(dim, i);
      LRSequenceAt(dim, j);
    }
  }

  /** Bitwise exclusive or of two naturals (the unsigned `^`). */
  function Xor(a: nat, b: nat): nat
    decreases a + b
  {
    if a == 0 && b == 0 then 0
    else 2 * Xor(a / 2, b / 2) + (if a % 2 != b % 2 then 1 else 0)
  }

  /** Exclusive or works bit by bit: its lowest bit and the rest. */
  lemma XorSplit(a: nat, b: nat)
    ensures Xor(a, b) % 2 == (if a % 2 != b % 2 then 1 else 0)
    ensures Xor(a, b) / 2 == Xor(a / 2, b / 2)
  {
  }

  /** A natural is determined by its lowest bit and the rest. */
  lemma SameBits(x: nat, y: nat)
    requires x % 2 == y % 2 && x / 2 == y / 2
    ensures x == y
  {
  }

  lemma {:induction false} XorComm(a: nat, b: nat)
    ensures Xor(a, b) == Xor(b, a)
    decreases a + b
  {
    if a != 0 || b != 0 {
      XorComm(a / 2, b / 2);
    }
  }

  lemma {:induction false} XorAssoc(a: nat, b: nat, c: nat)
    ensures Xor(Xor(a, b), c) == Xor(a, Xor(b, c))
    decreases a + b + c
  {
    if a != 0 || b != 0 || c != 0 {
      XorAssoc(a / 2, b / 2, c / 2);
      XorSplit(a, b); XorSplit(Xor(a, b), c);
      XorSplit(b, c); XorSplit(a, Xor(b, c));
      SameBits(Xor(Xor(a, b), c), Xor(a, Xor(b, c)));
    }
  }

  lemma {:induction false} XorSelf(a: nat)
    ensures Xor(a, a) == 0
    decreases a
  {
    if a != 0 {
      XorSelf(a / 2);
    }
  }

  lemma {:induction false} XorZero(a: nat)
    ensures Xor(a, 0) == a
    decreases a
  {
    if a != 0 {
      XorZero(a / 2);
    }
  }

  /** Exclusive or is zero only for equal arguments. */
  lemma {:induction false} XorZeroEq(a: nat, b: nat)
    requires Xor(a, b) == 0
    ensures a == b
    decreases a + b
  {
    if a != 0 || b != 0 {
      XorSplit(a, b);
      XorZeroEq(a / 2, b / 2);
    }
  }

  /** Exclusive or of two numbers below 2^k stays below 2^k. */
  lemma {:induction false} XorBound(a: nat, b: nat, k: nat)
    requires a < Pow2(k) && b < Pow2(k)
    ensures Xor(a, b) < Pow2(k)
    decreases k
  {
    if k > 0 && (a != 0 || b != 0) {
      XorBound(a / 2, b / 2, k - 1);
    }
  }

  /** Bound of the unsigned 32-bit integers. */
  const UINT_LIMIT: nat := 0x1_0000_0000

  /** Binary-reflected Gray code of an unsigned number: the number exclusive-or
      its right shift by one (for unsigned numbers the shift is halving). */
  function Binary2Gray(n: nat): (g: nat)
    requires n < UINT_LIMIT
    ensures g < UINT_LIMIT
  {
    assert UINT_LIMIT == Pow2(32) by { Pow2Value32(); }
    XorBound(n, n / 2, 32);
    Xor(n, n / 2)
  }

  lemma Pow2Value32()
    ensures Pow2(32) == 0x1_0000_0000
  {
    assert Pow2(8) == 256;
    assert Pow2(16) == 65536;
    assert Pow2(24) == 16777216;
  }

  /** The Gray code is linear over exclusive or. */
  lemma GrayXor(a: nat, b: nat)
    requires a < UINT_LIMIT && b < UINT_LIMIT
    ensures Xor(a, b) < UINT_LIMIT
    ensures Binary2Gray(Xor(a, b)) == Xor(Binary2Gray(a), Binary2Gray(b))
  {
    Pow2Value32();
    XorBound(a, b, 32);
    XorSplit(a, b);
    var ha, hb := a / 2, b / 2;
    calc {
      Xor(Xor(a, b), Xor(ha, hb));
    == { XorAssoc(a, b, Xor(ha, hb)); }
      Xor(a, Xor(b, Xor(ha, hb)));
    == { XorAssoc(b, ha, hb); XorComm(b, ha); XorAssoc(ha, b, hb); }
      Xor(a, Xor(ha, Xor(b, hb)));
    == { XorAssoc(a, ha, Xor(b, hb)); }
      Xor(Xor(a, ha), Xor(b, hb));
    }
  }

  /** Different unsigned numbers have different Gray codes. */
  lemma GrayInjective(a: nat, b: nat)
    requires a < UINT_LIMIT && b < UINT_LIMIT
    requires Binary2Gray(a) == Binary2Gray(b)
    ensures a == b
  {
    var c := Xor(a, b);
    GrayXor(a, b);
    XorSelf(Binary2Gray(a));
    XorZeroEq(c, c / 2);
    assert c == 0;
    XorZeroEq(a, b);
  }

  /** A Gray code's lowest bit and the Gray code of the remaining bits. */
  lemma GraySplit(n: nat)
    requires n < UINT_LIMIT
    ensures Binary2Gray(n) == 2 * Binary2Gray(n / 2) + (if n % 2 != (n / 2) % 2 then 1 else 0)
  {
    XorSplit(n, n / 2);
  }

  /** Consecutive unsigned numbers have Gray codes that differ in exactly one
      bit: the codes walk the edges of the hypercube. */
  lemma {:induction false} GrayAdjacent(n: nat)
    requires n + 1 < UINT_LIMIT
    ensures exists k: nat :: Xor(Binary2Gray(n), Binary2Gray(n + 1)) == Pow2(k)
  {
    if n % 2 == 0 {
      GrayAdjacentEven(n);
    } else {
      GrayAdjacent(n / 2);
      var k: nat :| Xor(Binary2Gray(n / 2), Binary2Gray(n / 2 + 1)) == Pow2(k);
      GrayAdjacentOdd(n, k);
    }
  }

  /** From an even number to the next only the lowest Gray bit changes. */
  lemma GrayAdjacentEven(n: nat)
    requires n + 1 < UINT_LIMIT && n % 2 == 0
    ensures Xor(Binary2Gray(n), Binary2Gray(n + 1)) == Pow2(0)
  {
    var g0, g1 := Binary2Gray(n), Binary2Gray(n + 1);
    var h := n / 2;
    GraySplit(n);
    GraySplit(n + 1);
    XorSplit(g0, g1);
    var x := Xor(g0, g1);
    assert (n + 1) / 2 == h;
    assert g0 / 2 == Binary2Gray(h) && g1 / 2 == Binary2Gray(h);
    XorSelf(Binary2Gray(h));
    assert x % 2 == 1 && x / 2 == 0;
  }

  /** From an odd number to the next the Gray codes agree in the lowest bit
      and differ above it as those of the halves do. */
  lemma GrayAdjacentOdd(n: nat, k: nat)
    requires n + 1 < UINT_LIMIT && n % 2 == 1
    requires Xor(Binary2Gray(n / 2), Binary2Gray(n / 2 + 1)) == Pow2(k)
    ensures Xor(Binary2Gray(n), Binary2Gray(n + 1)) == Pow2(k + 1)
  {
    var g0, g1 := Binary2Gray(n), Binary2Gray(n + 1);
    var h := n / 2;
    GraySplit(n);
    GraySplit(n + 1);
    XorSplit(g0, g1);
    var x := Xor(g0, g1);
    assert (n + 1) / 2 == h + 1;
    OddStepLowBit(n);
    assert g0 / 2 == Binary2Gray(h) && g1 / 2 == Binary2Gray(h + 1);
    var p := Pow2(k + 1);
    assert p == 2 * Pow2(k);
    SameBits(x, p);
  }

  /** From an odd number to the next the lowest Gray bit stays. */
  lemma OddStepLowBit(n: nat)
    requires n + 1 < UINT_LIMIT && n % 2 == 1
    ensures Binary2Gray(n) % 2 == Binary2Gray(n + 1) % 2
  {
    var h := n / 2;
    GraySplit(n);
    GraySplit(n + 1);
    assert (n + 1) / 2 == h + 1 && (n + 1) % 2 == 0;
    var c0 := if 1 != h % 2 then 1 else 0;
    var c1 := if 0 != (h + 1) % 2 then 1 else 0;
    assert c0 == c1;
    assert Binary2Gray(n) % 2 == c0;
    assert Binary2Gray(n + 1) % 2 == c1;
  }

  /** Decodes a Gray code by folding in every more significant bit. */
  method Gray2Binary(g: nat) returns (n: nat)
    requires g < UINT_LIMIT
    ensures n < UINT_LIMIT && Binary2Gray(n) == g
    ensures forall m: nat :: m < UINT_LIMIT && Binary2Gray(m) == g ==> n == m
  {
    n := g;
    var mask: nat := g / 2;
    XorZero(g);
    while mask != 0
      invariant n < UINT_LIMIT && mask < UINT_LIMIT
      invariant Binary2Gray(n) == Xor(g, mask)
    {
      GrayXor(n, mask);
      XorAssoc(g, mask, Binary2Gray(mask));
      XorAssoc(mask, mask, mask / 2);
      XorSelf(mask);
      XorComm(0, mask / 2);
      XorZero(mask / 2);
      n := Xor(n, mask);
      mask := mask / 2;
    }
    XorZero(g);
    forall m: nat | m < UINT_LIMIT && Binary2Gray(m) == g
      ensures n == m
    {
      GrayInjective(m, n);
    }
  }

  /** The 2^d x d lookup matrix whose row i holds the bits of i, most
      significant first, as 0/1 integers. */
  method ConstructB(d: nat) returns (b: seq<seq<int>>)
    ensures |b| == Pow2(d)
    ensures forall i :: 0 <= i < |b| ==> |b[i]| == d
    ensures forall i, j :: 0 <= i < |b| && 0 <= j < d ==>
      b[i][j] == if (i / Pow2(d - 1 - j)) % 2 == 1 then 1 else 0
  {
    var n := Pow2(d);
    var zeros := seq(d, _ => 0);
    b := [];
    var i := 0;
    while i < n
      invariant 0 <= i <= n
      invariant |b| == i
      invariant forall k :: 0 <= k < i ==> b[k] == zeros
    {
      b := b + [zeros];
      i := i + 1;
    }
    i := 0;
    while i < n
      invariant 0 <= i <= n
      invariant |b| == n
      invariant forall k :: 0 <= k < n ==> |b[k]| == d
      invariant forall k, j :: 0 <= k < i && 0 <= j < d ==>
        b[k][j] == if (k / Pow2(d - 1 - j)) % 2 == 1 then 1 else 0
    {
      var binvec := Ind2Vec(i, d);
      var row := b[i];
      var j := 0;
      while j < d
        invariant 0 <= j <= d
        invariant |row| == d
        invariant forall m :: 0 <= m < j ==> row[m] == if binvec[m] then 1 else 0
      {
        row := row[j := if binvec[j] then 1 else 0];
        j := j + 1;
      }
      forall m | 0 <= m < d
        ensures row[m] == if (i / Pow2(d - 1 - m)) % 2 == 1 then 1 else 0
      {
        Ind2VecBit(i, d, m);
      }
      b := b[i := row];
      i := i + 1;
    }
  }

  /** Sum of unsigned counts. */
  function SumNat(s: seq<nat>): nat
  {
    if s == [] then 0 else SumNat(s[..|s| - 1]) + s[|s| - 1]
  }

  /** Incrementing one entry increments the sum. */
  lemma {:induction false} SumNatIncrement(s: seq<nat>, k: nat)
    requires k < |s|
    ensures SumNat(s[k := s[k] + 1]) == SumNat(s) + 1
  {
    var w := s[k := s[k] + 1];
    if k < |s| - 1 {
      assert w[..|w| - 1] == s[..|s| - 1][k := s[k] + 1];
      SumNatIncrement(s[..|s| - 1], k);
    } else {
      assert w[..|w| - 1] == s[..|s| - 1];
    }
  }

  /** The sum of a sequence is the sum of its prefix plus its last entry. */
  lemma {:induction false} SumNatSplit(s: seq<nat>, n: nat)
    requires n <= |s|
    ensures SumNat(s) == SumNat(s[..n]) + SumNat(s[n..])
  {
    if n < |s| {
      var init := s[..|s| - 1];
      SumNatSplit(init, n);
      assert init[..n] == s[..n];
      assert s[n..][..|s[n..]| - 1] == init[n..];
    } else {
      assert s[..n] == s;
      assert s[n..] == [];
    }
  }

  /** Counts x over a full space of dims detectors, and a list of detectors
      (each below dims) that spans a sub-space. */
  predicate SubspaceInput(x: seq<nat>, dims: nat, subind: seq<nat>)
  {
    |x| == Pow2(dims) && forall z :: 0 <= z < |subind| ==> subind[z] < dims
  }

  /** Full-space combination k agrees with sub-space combination i on every
      detector listed in subind. */
  predicate Matches(dims: nat, subind: seq<nat>, k: nat, i: nat)
    requires k < Pow2(dims) && i < Pow2(|subind|)
    requires forall z :: 0 <= z < |subind| ==> subind[z] < dims
  {
    forall z :: 0 <= z < |subind| ==> Ind2Vec(k, dims)[subind[z]] == Ind2Vec(i, |subind|)[z]
  }

  /** The sub-space combination of full-space combination k: its bits on the
      listed detectors. */
  function Project(dims: nat, subind: seq<nat>, k: nat): (i: nat)
    requires k < Pow2(dims)
    requires forall z :: 0 <= z < |subind| ==> subind[z] < dims
    ensures i < Pow2(|subind|)
  {
    Vec2Ind(seq(|subind|, z requires 0 <= z < |subind| => Ind2Vec(k, dims)[subind[z]]))
  }

  /** Each full-space combination matches exactly one sub-space combination:
      its projection. */
  lemma MatchesProject(dims: nat, subind: seq<nat>, k: nat, i: nat)
    requires k < Pow2(dims) && i < Pow2(|subind|)
    requires forall z :: 0 <= z < |subind| ==> subind[z] < dims
    ensures Matches(dims, subind, k, i) <==> i == Project(dims, subind, k)
  {
    var p := seq(|subind|, z requires 0 <= z < |subind| => Ind2Vec(k, dims)[subind[z]]);
    Ind2VecOfVec2Ind(p);
    if Matches(dims, subind, k, i) {
      assert Ind2Vec(i, |subind|) == p;
    }
  }

  /** Events of x, among the first n combinations, that fall in sub-space
      combination i. */
  function CountIn(x: seq<nat>, dims: nat, subind: seq<nat>, i: nat, n: nat): nat
    requires SubspaceInput(x, dims, subind) && i < Pow2(|subind|) && n <= |x|
  {
    if n == 0 then 0
    else CountIn(x, dims, subind, i, n - 1) + (if Project(dims, subind, n - 1) == i then x[n - 1] else 0)
  }

  /** What combination k contributes to the counts of the first m sub-space
      combinations. */
  function Hits(x: seq<nat>, dims: nat, subind: seq<nat>, k: nat, m: nat): nat
    requires SubspaceInput(x, dims, subind) && k < |x| && m <= Pow2(|subind|)
  {
    if m == 0 then 0
    else Hits(x, dims, subind, k, m - 1) + (if Project(dims, subind, k) == m - 1 then x[k] else 0)
  }

  lemma {:induction false} HitsOnce(x: seq<nat>, dims: nat, subind: seq<nat>, k: nat, m: nat)
    requires SubspaceInput(x, dims, subind) && k < |x| && m <= Pow2(|subind|)
    ensures Hits(x, dims, subind, k, m) == if Project(dims, subind, k) < m then x[k] else 0
  {
    if m > 0 {
      HitsOnce(x, dims, subind, k, m - 1);
    }
  }

  /** Total of the first m sub-space counts over the first n combinations. */
  function SumCounts(x: seq<nat>, dims: nat, subind: seq<nat>, m: nat, n: nat): nat
    requires SubspaceInput(x, dims, subind) && m <= Pow2(|subind|) && n <= |x|
  {
    if m == 0 then 0 else SumCounts(x, dims, subind, m - 1, n) + CountIn(x, dims, subind, m - 1, n)
  }

  lemma {:induction false} SumCountsStep(x: seq<nat>, dims: nat, subind: seq<nat>, m: nat, n: nat)
    requires SubspaceInput(x, dims, subind) && m <= Pow2(|subind|) && n < |x|
    ensures SumCounts(x, dims, subind, m, n + 1) == SumCounts(x, dims, subind, m, n) + Hits(x, dims, subind, n, m)
  {
    if m > 0 {
      SumCountsStep(x, dims, subind, m - 1, n);
    }
  }

  lemma {:induction false} SumCountsEmpty(x: seq<nat>, dims: nat, subind: seq<nat>, m: nat)
    requires SubspaceInput(x, dims, subind) && m <= Pow2(|subind|)
    ensures SumCounts(x, dims, subind, m, 0) == 0
  {
    if m > 0 {
      SumCountsEmpty(x, dims, subind, m - 1);
    }
  }

  /** The sub-space combinations partition the events: their counts add up to
      all events. */
  lemma {:induction false} SubspacePartition(x: seq<nat>, dims: nat, subind: seq<nat>, n: nat)
    requires SubspaceInput(x, dims, subind) && n <= |x|
    ensures SumCounts(x, dims, subind, Pow2(|subind|), n) == SumNat(x[..n])
  {
    if n > 0 {
      SubspacePartition(x, dims, subind, n - 1);
      SumCountsStep(x, dims, subind, Pow2(|subind|), n - 1);
      HitsOnce(x, dims, subind, n - 1, Pow2(|subind|));
      assert x[..n][..n - 1] == x[..n - 1];
    } else {
      SumCountsEmpty(x, dims, subind, Pow2(|subind|));
    }
  }

  /** Number of listed detectors on which the full-space vector agrees with
      the sub-space vector; it equals the number of listed detectors exactly
      when they agree on all of them. */
  method Agreements(fullvec: seq<bool>, subvec: seq<bool>, subind: seq<nat>) returns (ok: nat)
    requires |subvec| == |subind|
    requires forall z :: 0 <= z < |subind| ==> subind[z] < |fullvec|
    ensures ok <= |subind|
    ensures ok == |subind| <==> forall z :: 0 <= z < |subind| ==> fullvec[subind[z]] == subvec[z]
  {
    ok := 0;
    var z := 0;
    while z < |subind|
      invariant 0 <= z <= |subind| && ok <= z
      invariant ok == z <==> forall y :: 0 <= y < z ==> fullvec[subind[y]] == subvec[y]
    {
      if fullvec[subind[z]] == subvec[z] {
        ok := ok + 1;
      }
      z := z + 1;
    }
  }

  /** Events in sub-space combination i: the counts of every full-space
      combination that agrees with it on the listed detectors. */
  method SubspaceCount(x: seq<nat>, dims: nat, subind: seq<nat>, i: nat) returns (nThis: nat)
    requires SubspaceInput(x, dims, subind) && i < Pow2(|subind|)
    ensures nThis == CountIn(x, dims, subind, i, |x|)
  {
    var subvec := Ind2Vec(i, |subind|);
    nThis := 0;
    var k := 0;
    while k < |x|
      invariant 0 <= k <= |x|
      invariant nThis == CountIn(x, dims, subind, i, k)
    {
      var fullvec := Ind2Vec(k, dims);
      var ok := Agreements(fullvec, subvec, subind);
      MatchesProject(dims, subind, k, i);
      if ok == |subind| {
        nThis := nThis + x[k];
      }
      k := k + 1;
    }
  }

  /** The sub-space table: the number of events in every sub-space
      combination, the total, and the events seen by at least one of the
      listed detectors (every combination but the empty one). */
  method Subspace(x: seq<nat>, dims: nat, subind: seq<nat>)
    returns (nEvents: nat, counts: seq<nat>, nVisible: nat)
    requires SubspaceInput(x, dims, subind)
    ensures nEvents == SumNat(x)
    ensures |counts| == Pow2(|subind|)
    ensures forall i :: 0 <= i < |counts| ==> counts[i] == CountIn(x, dims, subind, i, |x|)
    ensures nVisible + counts[0] == nEvents
  {
    nEvents := 0;
    var k := 0;
    while k < |x|
      invariant 0 <= k <= |x|
      invariant nEvents == SumNat(x[..k])
    {
      assert x[..k + 1][..k] == x[..k];
      nEvents := nEvents + x[k];
      k := k + 1;
    }
    assert x[..|x|] == x;
    counts := [];
    nVisible := 0;
    var i := 0;
    while i < Pow2(|subind|)
      invariant 0 <= i <= Pow2(|subind|)
      invariant |counts| == i
      invariant forall j :: 0 <= j < i ==> counts[j] == CountIn(x, dims, subind, j, |x|)
      invariant nVisible + (if i > 0 then counts[0] else 0) == SumCounts(x, dims, subind, i, |x|)
    {
      var nThis := SubspaceCount(x, dims, subind, i);
      counts := counts + [nThis];
      if i != 0 {
        nVisible := nVisible + nThis;
      }
      i := i + 1;
    }
    SubspacePartition(x, dims, subind, |x|);
  }
}
