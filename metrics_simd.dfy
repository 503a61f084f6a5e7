/**
 * The AVX versions of `dot_score` and `jaccard_score`. A 256-bit register of eight f32
 * accumulators is an eight-element sequence of reals; each intrinsic is its lane-wise meaning.
 * The first eight elements are loaded before the loop ("loop peeling"), the vector loop then
 * consumes eight elements per step, and a scalar loop handles the tail.
 */
module MetricsSimd {
  import opened Wrappers
  import opened RealSeqs
  import Metrics

  /** A `__m256` register: eight single-precision lanes. */
  type Lanes = s: seq<real> | |s| == 8 witness [0.0, 0.0, 0.0, 0.0, 0.0, 0.0, 0.0, 0.0]

  /** A `__m128` register: four lanes. */
  type Lanes4 = s: seq<real> | |s| == 4 witness [0.0, 0.0, 0.0, 0.0]

  /** The panic raised by `assert_eq!(xs.len(), ys.len())`. */
  datatype SimdError = LengthMismatch

  /** `_mm256_loadu_ps(ptr.add(i))`: eight consecutive elements. */
  function LoadU(xs: seq<real>, i: nat): Lanes
    requires i + 8 <= |xs|
  {
    xs[i..i + 8]
  }

  function AddPs(a: Lanes, b: Lanes): Lanes { seq(8, k requires 0 <= k < 8 => a[k] + b[k]) }

  function MulPs(a: Lanes, b: Lanes): Lanes { seq(8, k requires 0 <= k < 8 => a[k] * b[k]) }

  function MinPs(a: Lanes, b: Lanes): Lanes { seq(8, k requires 0 <= k < 8 => Min(a[k], b[k])) }

  function MaxPs(a: Lanes, b: Lanes): Lanes { seq(8, k requires 0 <= k < 8 => Max(a[k], b[k])) }

  /** `_mm256_fmadd_ps(a, b, c)`: a·b + c in every lane (exact here, so no rounding difference). */
  function FmaddPs(a: Lanes, b: Lanes, c: Lanes): Lanes { seq(8, k requires 0 <= k < 8 => a[k] * b[k] + c[k]) }

  /** `_mm_hadd_ps(a, b)`: pairwise sums of `a`, then of `b`. */
  function HaddPs(a: Lanes4, b: Lanes4): Lanes4 { [a[0] + a[1], a[2] + a[3], b[0] + b[1], b[2] + b[3]] }

  /**
   * `_mm256_reduce_sum`: add the high half to the low half, two horizontal adds, take lane 0.
   * Whatever order the additions happen in, the result is the sum of the eight lanes.
   */
  function ReduceSum(v: Lanes): (r: real)
    ensures r == Sum(v)
  {
    var low: Lanes4 := v[..4];
    var high: Lanes4 := v[4..];
    var s: Lanes4 := seq(4, k requires 0 <= k < 4 => low[k] + high[k]);
    var h := HaddPs(s, s);
    var h2 := HaddPs(h, h);
    SumEight(v);
    h2[0]
  }

  /** Lane-wise sums add up. */
  lemma SumAddPs(a: Lanes, b: Lanes)
    ensures Sum(AddPs(a, b)) == Sum(a) + Sum(b)
  {
    SumEight(a);
    SumEight(b);
    SumEight(AddPs(a, b));
  }

  lemma SumFmaddPs(a: Lanes, b: Lanes, c: Lanes)
    ensures Sum(FmaddPs(a, b, c)) == Sum(MulPs(a, b)) + Sum(c)
  {
    SumEight(MulPs(a, b));
    SumEight(c);
    SumEight(FmaddPs(a, b, c));
  }

  /** Eight loaded lanes multiplied together are the corresponding slice of the scalar products. */
  lemma MulPsIsProducts(xs: seq<real>, ys: seq<real>, i: nat)
    requires |xs| == |ys| && i + 8 <= |xs|
    ensures MulPs(LoadU(xs, i), LoadU(ys, i)) == Metrics.Products(xs, ys)[i..i + 8]
  {
  }

  lemma MinPsIsMins(xs: seq<real>, ys: seq<real>, i: nat)
    requires |xs| == |ys| && i + 8 <= |xs|
    ensures MinPs(LoadU(xs, i), LoadU(ys, i)) == Metrics.Mins(xs, ys)[i..i + 8]
  {
  }

  lemma MaxPsIsMaxs(xs: seq<real>, ys: seq<real>, i: nat)
    requires |xs| == |ys| && i + 8 <= |xs|
    ensures MaxPs(LoadU(xs, i), LoadU(ys, i)) == Metrics.Maxs(xs, ys)[i..i + 8]
  {
  }

  /**
   * The vectorised `dot_score` computes exactly the scalar reference Σ xᵢ·yᵢ. Fewer than eight
   * elements is outside its contract: the unconditional first load would read past the slices.
   */
  method DotScore(xs: seq<real>, ys: seq<real>) returns (r: Result<real, SimdError>)
    requires |xs| == |ys| ==> |xs| >= 8
    ensures r == if |xs| != |ys| then Err(LengthMismatch) else Ok(Metrics.DotScore(xs, ys))
  {
    if |xs| != |ys| {
      return Err(LengthMismatch);
    }
    ghost var p := Metrics.Products(xs, ys);
    var i, sums := DotLanes(xs, ys);
    var total := ReduceSum(sums);
    while i < |xs|
      invariant i <= |xs|
      invariant total == Sum(p[..i])
    {
      SumPrefixStep(p, i);
      total := total + xs[i] * ys[i];
      i := i + 1;
    }
    assert p[..i] == p;
    return Ok(total);
  }

  /**
   * The peeled first load and the vector loop of `dot_score`: i is the largest multiple of
   * eight that fits, and the eight accumulators hold the products before i between them.
   */
  method DotLanes(xs: seq<real>, ys: seq<real>) returns (i: nat, sums: Lanes)
    requires |xs| == |ys| && |xs| >= 8
    ensures 8 <= i <= |xs| < i + 8 && i % 8 == 0
    ensures Sum(sums) == Sum(Metrics.Products(xs, ys)[..i])
  {
    ghost var p := Metrics.Products(xs, ys);
    i := 8;
    sums := MulPs(LoadU(xs, 0), LoadU(ys, 0));
    MulPsIsProducts(xs, ys, 0);
    assert p[..8] == p[0..8];
    while i + 8 <= |xs|
      invariant 8 <= i <= |xs| && i % 8 == 0
      invariant Sum(sums) == Sum(p[..i])
    {
      var xsData, ysData := LoadU(xs, i), LoadU(ys, i);
      SumFmaddPs(xsData, ysData, sums);
      MulPsIsProducts(xs, ys, i);
      SumSegment(p, i, i + 8);
      sums := FmaddPs(xsData, ysData, sums);
      i := i + 8;
    }
  }

  /**
   * The vectorised `jaccard_score` computes exactly the scalar reference Σmin/Σmax,
   * undefined where that is undefined.
   */
  method JaccardScore(xs: seq<real>, ys: seq<real>) returns (r: Result<Option<real>, SimdError>)
    requires |xs| == |ys| ==> |xs| >= 8
    ensures r == if |xs| != |ys| then Err(LengthMismatch) else Ok(Metrics.JaccardScore(xs, ys))
  {
    if |xs| != |ys| {
      return Err(LengthMismatch);
    }
    ghost var lo, hi := Metrics.Mins(xs, ys), Metrics.Maxs(xs, ys);
    var i, minSum, maxSum := JaccardLanes(xs, ys);
    var intersectionSum := ReduceSum(minSum);
    var unionSum := ReduceSum(maxSum);
    while i < |xs|
      invariant i <= |xs|
      invariant intersectionSum == Sum(lo[..i])
      invariant unionSum == Sum(hi[..i])
    {
      SumPrefixStep(lo, i);
      SumPrefixStep(hi, i);
      intersectionSum := intersectionSum + Min(xs[i], ys[i]);
      unionSum := unionSum + Max(xs[i], ys[i]);
      i := i + 1;
    }
    assert lo[..i] == lo && hi[..i] == hi;
    return Ok(Div(intersectionSum, unionSum));
  }

  /**
   * The peeled first loads and the vector loop of `jaccard_score`: the two accumulators hold
   * the pairwise minima and maxima before i between them.
   */
  method JaccardLanes(xs: seq<real>, ys: seq<real>) returns (i: nat, minSum: Lanes, maxSum: Lanes)
    requires |xs| == |ys| && |xs| >= 8
    ensures 8 <= i <= |xs| < i + 8 && i % 8 == 0
    ensures Sum(minSum) == Sum(Metrics.Mins(xs, ys)[..i])
    ensures Sum(maxSum) == Sum(Metrics.Maxs(xs, ys)[..i])
  {
    ghost var lo, hi := Metrics.Mins(xs, ys), Metrics.Maxs(xs, ys);
    i := 8;
    minSum := MinPs(LoadU(xs, 0), LoadU(ys, 0));
    maxSum := MaxPs(LoadU(xs, 0), LoadU(ys, 0));
    MinPsIsMins(xs, ys, 0);
    MaxPsIsMaxs(xs, ys, 0);
    assert lo[..8] == lo[0..8] && hi[..8] == hi[0..8];
    while i + 8 <= |xs|
      invariant 8 <= i <= |xs| && i % 8 == 0
      invariant Sum(minSum) == Sum(lo[..i])
      invariant Sum(maxSum) == Sum(hi[..i])
    {
      var xsData, ysData := LoadU(xs, i), LoadU(ys, i);
      var mins, maxs := MinPs(xsData, ysData), MaxPs(xsData, ysData);
      MinPsIsMins(xs, ys, i);
      MaxPsIsMaxs(xs, ys, i);
      SumAddPs(mins, minSum);
      SumAddPs(maxs, maxSum);
      SumSegment(lo, i, i + 8);
      SumSegment(hi, i, i + 8);
      minSum := AddPs(mins, minSum);
      maxSum := AddPs(maxs, maxSum);
      i := i + 8;
    }
  }

  /** The two unit tests: both vectorised scores on the eleven-element test vectors. */
  method TestVectors() returns (dot: Result<real, SimdError>, jaccard: Result<Option<real>, SimdError>)
    ensures dot == Ok(55.0)
    ensures jaccard == Ok(Some(13.0 / 36.0))
  {
    Metrics.TestVectorScores();
    dot := DotScore(Metrics.TestXs, Metrics.TestYs);
    jaccard := JaccardScore(Metrics.TestXs, Metrics.TestYs);
  }
}
