/**
 * The scalar scoring functions that rate how well a pixel chunk matches a glyph bitmap.
 * Every one of them zips the two vectors (stopping at the shorter one) or sums each vector
 * on its own; a quotient whose divisor is zero is the undefined result `None`.
 */
module Metrics {
  import opened Wrappers
  import opened RealSeqs

  /** A whole-vector score: higher means a better match. */
  type Metric = (seq<real>, seq<real>) -> real

  function Mul(x: real, y: real): real { x * y }

  /** One position's contribution to an occlusion sum: 1 - (x - y). */
  function Occlusion(x: real, y: real): real { 1.0 - (x - y) }

  /** One position's contribution to the clear-movement numerator. */
  function Uncleared(x: real, y: real): real { if y > 0.0 then 0.0 else x }

  function Products(xs: seq<real>, ys: seq<real>): seq<real> { ZipWith(xs, ys, Mul) }

  function Mins(xs: seq<real>, ys: seq<real>): seq<real> { ZipWith(xs, ys, Min) }

  function Maxs(xs: seq<real>, ys: seq<real>): seq<real> { ZipWith(xs, ys, Max) }

  /** The clear-movement numerator's sum: chunk values where the glyph is not positive. */
  function UnclearedSum(xs: seq<real>, ys: seq<real>): real { Sum(ZipWith(xs, ys, Uncleared)) }

  /** `dot_score`: the sum of the pairwise products. */
  function DotScore(xs: seq<real>, ys: seq<real>): (r: real)
    ensures xs == [] || ys == [] ==> r == 0.0
  {
    Sum(Products(xs, ys))
  }

  /** `jaccard_score`: sum of pairwise minima over sum of pairwise maxima, unguarded. */
  function JaccardScore(xs: seq<real>, ys: seq<real>): (r: Option<real>)
    ensures r.None? <==> Sum(Maxs(xs, ys)) == 0.0
  {
    Div(Sum(Mins(xs, ys)), Sum(Maxs(xs, ys)))
  }

  /** `occlusion_score`: the smaller of the two one-sided occlusion sums. */
  function OcclusionScore(xs: seq<real>, ys: seq<real>): (r: real)
    ensures r <= Sum(ZipWith(xs, ys, Occlusion)) && r <= Sum(ZipWith(ys, xs, Occlusion))
    ensures r == Sum(ZipWith(xs, ys, Occlusion)) || r == Sum(ZipWith(ys, xs, Occlusion))
  {
    var a := Sum(ZipWith(xs, ys, Occlusion));
    var b := Sum(ZipWith(ys, xs, Occlusion));
    Min(a, b)
  }

  /** `avg_color_score`: uses `xs.len()` and the two whole-vector sums; an empty `xs` divides by a zero length. */
  function AvgColorScore(xs: seq<real>, ys: seq<real>): (r: Option<real>)
    ensures r.None? <==> xs == []
  {
    var len := |xs| as real;
    Div(len - Abs(Sum(xs) - Sum(ys)), len)
  }

  /** `movement_toward_clear`: positions whose glyph value is positive count as 0 in the numerator. */
  function MovementTowardClear(xs: seq<real>, ys: seq<real>): (r: Option<real>)
    ensures r.None? <==> (|xs| as real) == Sum(xs)
  {
    var len := |xs| as real;
    Div(len - UnclearedSum(xs, ys), len - Sum(xs))
  }

  // ---------------------------------------------------------------------------------------
  // Properties

  lemma DotScoreSymmetric(xs: seq<real>, ys: seq<real>)
    ensures DotScore(xs, ys) == DotScore(ys, xs)
  {
    assert Products(xs, ys) == Products(ys, xs);
  }

  lemma JaccardScoreSymmetric(xs: seq<real>, ys: seq<real>)
    ensures JaccardScore(xs, ys) == JaccardScore(ys, xs)
  {
    assert Mins(xs, ys) == Mins(ys, xs);
    assert Maxs(xs, ys) == Maxs(ys, xs);
  }

  /** A vector compared with itself scores exactly 1, provided its sum is not zero. */
  lemma JaccardScoreSelf(xs: seq<real>)
    requires Sum(xs) != 0.0
    ensures JaccardScore(xs, xs) == Some(1.0)
  {
    assert Mins(xs, xs) == xs;
    assert Maxs(xs, xs) == xs;
    QuotientSelf(Sum(xs));
  }

  /** For non-negative inputs with a non-zero union the score lies in [0, 1]. */
  lemma JaccardScoreBounds(xs: seq<real>, ys: seq<real>)
    requires forall i :: 0 <= i < |xs| ==> xs[i] >= 0.0
    requires forall i :: 0 <= i < |ys| ==> ys[i] >= 0.0
    requires Sum(Maxs(xs, ys)) != 0.0
    ensures JaccardScore(xs, ys).Some?
    ensures 0.0 <= JaccardScore(xs, ys).value <= 1.0
  {
    var lo, hi := Mins(xs, ys), Maxs(xs, ys);
    var zero := seq(|lo|, i => 0.0);
    SumMonotone(lo, hi);
    SumMonotone(zero, lo);
    SumZeros(zero);
    QuotientInUnit(Sum(lo), Sum(hi));
  }

  lemma QuotientInUnit(a: real, b: real)
    requires 0.0 <= a <= b && b != 0.0
    ensures 0.0 <= a / b <= 1.0
  {
    assert a / b * b == a;
  }

  lemma QuotientSelf(a: real)
    requires a != 0.0
    ensures a / a == 1.0
  {
  }

  /** All-zero inputs leave the quotient undefined (0/0). */
  lemma JaccardScoreAllZero(n: nat)
    ensures JaccardScore(seq(n, i => 0.0), seq(n, i => 0.0)).None?
  {
    var z := seq(n, i => 0.0);
    assert Maxs(z, z) == z;
    SumZeros(z);
  }

  /** On equal-length inputs the occlusion score is n - |Σx - Σy|. */
  lemma OcclusionScoreClosedForm(xs: seq<real>, ys: seq<real>)
    requires |xs| == |ys|
    ensures OcclusionScore(xs, ys) == (|xs| as real) - Abs(Sum(xs) - Sum(ys))
  {
    OcclusionSum(xs, ys);
    OcclusionSum(ys, xs);
  }

  /** One occlusion sum telescopes to n - Σx + Σy. */
  lemma {:induction false} OcclusionSum(xs: seq<real>, ys: seq<real>)
    requires |xs| == |ys|
    ensures Sum(ZipWith(xs, ys, Occlusion)) == (|xs| as real) - Sum(xs) + Sum(ys)
    decreases |xs|
  {
    if xs != [] {
      var n := |xs| - 1;
      OcclusionSum(xs[..n], ys[..n]);
      assert ZipWith(xs, ys, Occlusion)[..n] == ZipWith(xs[..n], ys[..n], Occlusion);
    }
  }

  lemma OcclusionScoreSymmetric(xs: seq<real>, ys: seq<real>)
    ensures OcclusionScore(xs, ys) == OcclusionScore(ys, xs)
  {
  }

  /** On equal, non-zero lengths the average colour score is the occlusion score over n. */
  lemma AvgColorIsScaledOcclusion(xs: seq<real>, ys: seq<real>)
    requires |xs| == |ys| && xs != []
    ensures AvgColorScore(xs, ys) == Some(OcclusionScore(xs, ys) / (|xs| as real))
  {
    OcclusionScoreClosedForm(xs, ys);
  }

  lemma AvgColorScoreSymmetric(xs: seq<real>, ys: seq<real>)
    requires |xs| == |ys|
    ensures AvgColorScore(xs, ys) == AvgColorScore(ys, xs)
  {
    assert Abs(Sum(xs) - Sum(ys)) == Abs(Sum(ys) - Sum(xs));
  }

  /** If no glyph position is positive, every chunk value counts and the score is 1. */
  lemma MovementTowardClearOpaque(xs: seq<real>, ys: seq<real>)
    requires |xs| == |ys|
    requires forall i :: 0 <= i < |ys| ==> ys[i] <= 0.0
    requires (|xs| as real) != Sum(xs)
    ensures MovementTowardClear(xs, ys) == Some(1.0)
  {
    assert ZipWith(xs, ys, Uncleared) == xs;
    QuotientSelf((|xs| as real) - Sum(xs));
  }

  /** If every glyph position is positive, nothing counts in the numerator. */
  lemma MovementTowardClearTransparent(xs: seq<real>, ys: seq<real>)
    requires |xs| <= |ys|
    requires forall i :: 0 <= i < |ys| ==> ys[i] > 0.0
    ensures MovementTowardClear(xs, ys) == Div(|xs| as real, (|xs| as real) - Sum(xs))
  {
    NothingUncleared(xs, ys);
  }

  lemma NothingUncleared(xs: seq<real>, ys: seq<real>)
    requires |xs| <= |ys|
    requires forall i :: 0 <= i < |ys| ==> ys[i] > 0.0
    ensures UnclearedSum(xs, ys) == 0.0
  {
    var cleared := ZipWith(xs, ys, Uncleared);
    forall i | 0 <= i < |cleared|
      ensures cleared[i] == 0.0
    {
      assert cleared[i] == Uncleared(xs[i], ys[i]);
    }
    SumZeros(cleared);
  }

  /** The two vectors of the unit tests of the Rust code. */
  const TestXs: seq<real> := [1.0, 2.0, 3.0, 4.0, 5.0, -1.0, 2.0, 0.0, 3.0, 1.0, 1.0]
  const TestYs: seq<real> := [-1.0, 3.0, 4.0, 5.0, -1.0, 3.0, 4.0, 3.0, 5.0, 2.0, 1.0]

  lemma TestVectorScores()
    ensures DotScore(TestXs, TestYs) == 55.0
    ensures JaccardScore(TestXs, TestYs) == Some(13.0 / 36.0)
  {
    var p, lo, hi := Products(TestXs, TestYs), Mins(TestXs, TestYs), Maxs(TestXs, TestYs);
    TestProducts();
    SumEleven(p);
    TestMinsMaxs();
    SumEleven(lo);
    SumEleven(hi);
  }

  lemma TestProducts()
    ensures Products(TestXs, TestYs) == [-1.0, 6.0, 12.0, 20.0, -5.0, -3.0, 8.0, 0.0, 15.0, 2.0, 1.0]
  {
  }

  lemma TestMinsMaxs()
    ensures Mins(TestXs, TestYs) == [-1.0, 2.0, 3.0, 4.0, -1.0, -1.0, 2.0, 0.0, 3.0, 1.0, 1.0]
    ensures Maxs(TestXs, TestYs) == [1.0, 3.0, 4.0, 5.0, 5.0, 3.0, 4.0, 3.0, 5.0, 2.0, 1.0]
  {
  }

  lemma SumEleven(v: seq<real>)
    requires |v| == 11
    ensures Sum(v) == v[0] + v[1] + v[2] + v[3] + v[4] + v[5] + v[6] + v[7] + v[8] + v[9] + v[10]
  {
    assert v[..10][..8] == v[..8];
    SumEight(v[..8]);
    assert v[..9][..8] == v[..8];
    SumPrefixStep(v, 8);
    SumPrefixStep(v, 9);
    SumPrefixStep(v, 10);
    assert v[..11] == v;
  }
}
