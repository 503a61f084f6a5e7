/** Sums over sequences of reals and the element-wise zips the metrics are built from. */
module RealSeqs {
  import opened Wrappers

  /** Left-to-right sum, as `Iterator::sum` folds it. */
  function Sum(s: seq<real>): real
    decreases |s|
  {
    if s == [] then 0.0 else Sum(s[..|s| - 1]) + s[|s| - 1]
  }

  function Abs(x: real): real { if x < 0.0 then -x else x }

  function Min(a: real, b: real): real { if a <= b then a else b }

  function Max(a: real, b: real): real { if a >= b then a else b }

  /** Real quotient; a zero divisor gives the undefined result `None` (NaN or infinity in f32). */
  function Div(a: real, b: real): Option<real> { if b == 0.0 then None else Some(a / b) }

  function MinLen(xs: seq<real>, ys: seq<real>): nat { if |xs| <= |ys| then |xs| else |ys| }

  /** `xs.iter().zip(ys).map(f)`: the zip stops at the shorter input. */
  function ZipWith(xs: seq<real>, ys: seq<real>, f: (real, real) -> real): (r: seq<real>)
    ensures |r| == MinLen(xs, ys)
    ensures forall i :: 0 <= i < |r| ==> r[i] == f(xs[i], ys[i])
  {
    seq(MinLen(xs, ys), i requires 0 <= i < MinLen(xs, ys) => f(xs[i], ys[i]))
  }

  /** The product of two non-negative reals is non-negative. */
  lemma ProductNonNegative(a: real, b: real)
    requires a >= 0.0 && b >= 0.0
    ensures a * b >= 0.0
  {
  }

  /** The product of two numbers in [0, 1] is in [0, 1]. */
  lemma ProductInUnit(a: real, b: real)
    requires 0.0 <= a <= 1.0 && 0.0 <= b <= 1.0
    ensures 0.0 <= a * b <= 1.0
  {
    ProductNonNegative(a, b);
    ProductNonNegative(1.0 - a, b);
    ProductNonNegative(1.0, 1.0 - b);
  }

  lemma {:induction false} SumConcat(a: seq<real>, b: seq<real>)
    ensures Sum(a + b) == Sum(a) + Sum(b)
    decreases |b|
  {
    if b == [] {
      assert a + b == a;
    } else {
      assert (a + b)[..|a + b| - 1] == a + b[..|b| - 1];
      SumConcat(a, b[..|b| - 1]);
    }
  }

  /** Extending a prefix by one element adds that element to the sum. */
  lemma SumPrefixStep(s: seq<real>, i: nat)
    requires i < |s|
    ensures Sum(s[..i + 1]) == Sum(s[..i]) + s[i]
  {
    assert s[..i + 1][..i] == s[..i];
  }

  /** The sum of a segment is the difference of two prefix sums. */
  lemma SumSegment(s: seq<real>, i: nat, j: nat)
    requires i <= j <= |s|
    ensures Sum(s[..j]) == Sum(s[..i]) + Sum(s[i..j])
  {
    assert s[..j] == s[..i] + s[i..j];
    SumConcat(s[..i], s[i..j]);
  }

  /** Sums respect a pointwise order. */
  lemma {:induction false} SumMonotone(a: seq<real>, b: seq<real>)
    requires |a| == |b|
    requires forall i :: 0 <= i < |a| ==> a[i] <= b[i]
    ensures Sum(a) <= Sum(b)
    decreases |a|
  {
    if a != [] {
      SumMonotone(a[..|a| - 1], b[..|b| - 1]);
    }
  }

  lemma {:induction false} SumZeros(s: seq<real>)
    requires forall i :: 0 <= i < |s| ==> s[i] == 0.0
    ensures Sum(s) == 0.0
    decreases |s|
  {
    if s != [] {
      SumZeros(s[..|s| - 1]);
    }
  }

  /** The sum of eight lanes, written out. */
  lemma SumEight(v: seq<real>)
    requires |v| == 8
    ensures Sum(v) == v[0] + v[1] + v[2] + v[3] + v[4] + v[5] + v[6] + v[7]
  {
    assert v[..0] == [];
    SumPrefixStep(v, 0);
    SumPrefixStep(v, 1);
    SumPrefixStep(v, 2);
    SumPrefixStep(v, 3);
    SumPrefixStep(v, 4);
    SumPrefixStep(v, 5);
    SumPrefixStep(v, 6);
    SumPrefixStep(v, 7);
    assert v[..8] == v;
  }
}
