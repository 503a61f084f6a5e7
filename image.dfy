/**
 * The grayscale pixel buffer: a width × height image stored row-major, pixel (x, y) at index
 * width·y + x. The two separable convolution passes rewrite the buffer in place; the 2-D
 * convolution, edge detection and resizing fill a fresh buffer.
 *
 * Each operation that works by loops is specified by a function over the flat pixel sequence;
 * the functions below the class say what those specifications mean.
 */
module Image {
  import opened Wrappers
  import opened RealSeqs
  import opened Seqs

  // ---------------------------------------------------------------------------------------
  // The separable passes

  /** Which way a 1-D kernel is laid over the image. */
  datatype Axis = Horizontal | Vertical

  /** `(kernel.len() - 1) / 2`: the tap that lands on the pixel itself. */
  function KernelOffset(kernel: seq<real>): int
    requires |kernel| > 0
  {
    (|kernel| - 1) / 2
  }

  /**
   * Tap k of the kernel at (x, y), read from buffer p: it lands on column x + k − offset (or
   * row y + k − offset), and contributes nothing when that falls outside the image.
   */
  function Tap(p: seq<real>, width: nat, height: nat, axis: Axis, kernel: seq<real>, x: nat, y: nat, k: nat): real
    requires |p| == width * height && x < width && y < height
    requires k < |kernel|
  {
    match axis
    case Horizontal =>
      var dx := x + k - KernelOffset(kernel);
      if 0 <= dx < width then At(p, width, height, dx, y) * kernel[k] else 0.0
    case Vertical =>
      var dy := y + k - KernelOffset(kernel);
      if 0 <= dy < height then At(p, width, height, x, dy) * kernel[k] else 0.0
  }

  /** The first n taps of the kernel at (x, y), in kernel order. */
  function Taps(p: seq<real>, width: nat, height: nat, axis: Axis, kernel: seq<real>, x: nat, y: nat, n: nat): real
    requires |p| == width * height && x < width && y < height
    requires n <= |kernel|
  {
    if n == 0 then 0.0 else Taps(p, width, height, axis, kernel, x, y, n - 1) + Tap(p, width, height, axis, kernel, x, y, n - 1)
  }

  /**
   * The buffer while a pass is in progress: rows above y and the first x pixels of row y have
   * been overwritten, in row-major order, each with the taps read from the buffer as it was at
   * that moment; nothing else has changed yet.
   */
  function PassState(p: seq<real>, width: nat, height: nat, axis: Axis, kernel: seq<real>, x: nat, y: nat): (s: seq<real>)
    requires |p| == width * height && 0 < |kernel|
    requires x <= width && y <= height && (y == height ==> x == 0)
    ensures |s| == |p|
    decreases y, x
  {
    if x == 0 then
      if y == 0 then p else PassState(p, width, height, axis, kernel, width, y - 1)
    else
      var s := PassState(p, width, height, axis, kernel, x - 1, y);
      RowFits(width, height, y);
      s[width * y + (x - 1) := Taps(s, width, height, axis, kernel, x - 1, y, |kernel|)]
  }

  /** The buffer after a whole in-place pass. */
  function Pass(p: seq<real>, width: nat, height: nat, axis: Axis, kernel: seq<real>): (s: seq<real>)
    requires |p| == width * height && 0 < |kernel|
    ensures |s| == |p|
  {
    PassState(p, width, height, axis, kernel, 0, height)
  }

  /** Positions at or after the cursor still hold their original values. */
  lemma {:induction false} PassStateUntouched(p: seq<real>, width: nat, height: nat, axis: Axis, kernel: seq<real>,
                                              x: nat, y: nat, j: nat)
    requires |p| == width * height && 0 < |kernel|
    requires x <= width && y <= height && (y == height ==> x == 0)
    requires width * y + x <= j < |p|
    ensures PassState(p, width, height, axis, kernel, x, y)[j] == p[j]
    decreases y, x
  {
    if x == 0 {
      if y > 0 {
        PassStateUntouched(p, width, height, axis, kernel, width, y - 1, j);
      }
    } else {
      PassStateUntouched(p, width, height, axis, kernel, x - 1, y, j);
    }
  }

  /** Positions before the cursor already hold their final values. */
  lemma {:induction false} PassStateSettled(p: seq<real>, width: nat, height: nat, axis: Axis, kernel: seq<real>,
                                            x: nat, y: nat, j: nat)
    requires |p| == width * height && 0 < |kernel|
    requires x <= width && y <= height && (y == height ==> x == 0)
    requires j < width * y + x
    ensures j < |p|
    ensures PassState(p, width, height, axis, kernel, x, y)[j] == Pass(p, width, height, axis, kernel)[j]
    decreases height - y, width - x
  {
    if y < height {
      RowFits(width, height, y);
      if x < width {
        PassStateSettled(p, width, height, axis, kernel, x + 1, y, j);
        var s := PassState(p, width, height, axis, kernel, x, y);
        assert PassState(p, width, height, axis, kernel, x + 1, y)
            == s[width * y + x := Taps(s, width, height, axis, kernel, x, y, |kernel|)];
      } else {
        StepMul(width, y);
        PassStateSettled(p, width, height, axis, kernel, 0, y + 1, j);
      }
    }
  }

  /**
   * The in-place behaviour of a pass: the new value at (x, y) is the kernel applied to a buffer
   * whose positions before (x, y) in row-major order already hold their NEW values and whose
   * positions from (x, y) on still hold the old ones.
   */
  lemma PassInPlace(p: seq<real>, width: nat, height: nat, axis: Axis, kernel: seq<real>, x: nat, y: nat)
    requires |p| == width * height && 0 < |kernel|
    requires x < width && y < height
    ensures width * y + x < |p|
    ensures var r := Pass(p, width, height, axis, kernel);
      var i := width * y + x;
      r[i] == Taps(r[..i] + p[i..], width, height, axis, kernel, x, y, |kernel|)
  {
    RowFits(width, height, y);
    var i := width * y + x;
    var s := PassState(p, width, height, axis, kernel, x, y);
    PassStateSplit(p, width, height, axis, kernel, x, y);
    assert PassState(p, width, height, axis, kernel, x + 1, y)
        == s[i := Taps(s, width, height, axis, kernel, x, y, |kernel|)];
    PassStateSettled(p, width, height, axis, kernel, x + 1, y, i);
  }

  /** Mid-pass, the buffer is the finished prefix followed by the untouched suffix. */
  lemma PassStateSplit(p: seq<real>, width: nat, height: nat, axis: Axis, kernel: seq<real>, x: nat, y: nat)
    requires |p| == width * height && 0 < |kernel|
    requires x < width && y < height
    ensures width * y + x < |p|
    ensures var i := width * y + x;
      PassState(p, width, height, axis, kernel, x, y) == Pass(p, width, height, axis, kernel)[..i] + p[i..]
  {
    RowFits(width, height, y);
    var r := Pass(p, width, height, axis, kernel);
    var i := width * y + x;
    var s := PassState(p, width, height, axis, kernel, x, y);
    forall j | 0 <= j < |p| ensures s[j] == (r[..i] + p[i..])[j] {
      if j < i {
        PassStateSettled(p, width, height, axis, kernel, x, y, j);
      } else {
        PassStateUntouched(p, width, height, axis, kernel, x, y, j);
      }
    }
  }

  /**
   * A three-tap horizontal kernel [a, b, c]: the left neighbour is read AFTER it was rewritten,
   * the pixel and its right neighbour before; taps beyond the row ends are skipped.
   */
  lemma HorizontalThreeTaps(p: seq<real>, width: nat, height: nat, a: real, b: real, c: real, x: nat, y: nat)
    requires |p| == width * height && x < width && y < height
    ensures width * y + x < |p|
    ensures var r := Pass(p, width, height, Horizontal, [a, b, c]);
      var i := width * y + x;
      r[i] == (if x > 0 then r[i - 1] * a else 0.0) + p[i] * b + (if x + 1 < width then p[i + 1] * c else 0.0)
  {
    var k := [a, b, c];
    PassInPlace(p, width, height, Horizontal, k, x, y);
    var r := Pass(p, width, height, Horizontal, k);
    var i := width * y + x;
    var m := r[..i] + p[i..];
    RowFits(width, height, y);
    assert Taps(m, width, height, Horizontal, k, x, y, 1) == (if x > 0 then r[i - 1] * a else 0.0);
    assert Taps(m, width, height, Horizontal, k, x, y, 2) == (if x > 0 then r[i - 1] * a else 0.0) + p[i] * b;
  }

  /**
   * A three-tap vertical kernel [a, b, c]: the pixel above is read AFTER it was rewritten, the
   * pixel and the one below before; taps beyond the top and bottom rows are skipped.
   */
  lemma VerticalThreeTaps(p: seq<real>, width: nat, height: nat, a: real, b: real, c: real, x: nat, y: nat)
    requires |p| == width * height && x < width && y < height
    ensures width * y + x < |p|
    ensures y + 1 < height ==> width * y + x + width < |p|
    ensures var r := Pass(p, width, height, Vertical, [a, b, c]);
      var i := width * y + x;
      r[i] == (if y > 0 then r[i - width] * a else 0.0) + p[i] * b
              + (if y + 1 < height then p[i + width] * c else 0.0)
  {
    var k := [a, b, c];
    PassInPlace(p, width, height, Vertical, k, x, y);
    var r := Pass(p, width, height, Vertical, k);
    var i := width * y + x;
    var m := r[..i] + p[i..];
    VerticalTapValues(m, width, height, a, b, c, x, y);
    ThreeTapsSum(m, width, height, Vertical, k, x, y);
    if y > 0 {
      assert m[i - width] == r[i - width];
    }
    if y + 1 < height {
      assert m[i + width] == p[i + width];
    }
    assert m[i] == p[i];
  }

  /** A three-tap kernel's sum is its three taps added in kernel order. */
  lemma ThreeTapsSum(m: seq<real>, width: nat, height: nat, axis: Axis, k: seq<real>, x: nat, y: nat)
    requires |m| == width * height && x < width && y < height && |k| == 3
    ensures Taps(m, width, height, axis, k, x, y, 3)
         == Tap(m, width, height, axis, k, x, y, 0) + Tap(m, width, height, axis, k, x, y, 1)
            + Tap(m, width, height, axis, k, x, y, 2)
  {
    assert Taps(m, width, height, axis, k, x, y, 1) == Tap(m, width, height, axis, k, x, y, 0);
    assert Taps(m, width, height, axis, k, x, y, 2)
        == Tap(m, width, height, axis, k, x, y, 0) + Tap(m, width, height, axis, k, x, y, 1);
  }

  /** The three taps of [a, b, c] at (x, y): the pixel above, the pixel itself and the one below. */
  lemma VerticalTapValues(m: seq<real>, width: nat, height: nat, a: real, b: real, c: real, x: nat, y: nat)
    requires |m| == width * height && x < width && y < height
    ensures width * y + x < |m|
    ensures y > 0 ==> width * y + x >= width
    ensures y + 1 < height ==> width * y + x + width < |m|
    ensures Tap(m, width, height, Vertical, [a, b, c], x, y, 0)
         == if y > 0 then m[width * y + x - width] * a else 0.0
    ensures Tap(m, width, height, Vertical, [a, b, c], x, y, 1) == m[width * y + x] * b
    ensures Tap(m, width, height, Vertical, [a, b, c], x, y, 2)
         == if y + 1 < height then m[width * y + x + width] * c else 0.0
  {
    RowFits(width, height, y);
    if y > 0 {
      StepMul(width, y - 1);
    }
    if y + 1 < height {
      RowFits(width, height, y + 1);
      StepMul(width, y);
    }
  }

  // ---------------------------------------------------------------------------------------
  // Pixels by coordinate

  /** The pixel at column x of row y of a row-major buffer. */
  function At(p: seq<real>, width: nat, height: nat, x: nat, y: nat): real
    requires |p| == width * height && x < width && y < height
  {
    RowFits(width, height, y);
    p[width * y + x]
  }

  /** Writing the slot of (x, y) changes the pixel at (x, y) and no other pixel. */
  lemma SetOnlyThatSlot(p: seq<real>, width: nat, height: nat, x: nat, y: nat, v: real, x': nat, y': nat)
    requires |p| == width * height && x < width && y < height && x' < width && y' < height
    ensures width * y + x < |p|
    ensures At(p[width * y + x := v], width, height, x', y') == if x' == x && y' == y then v else At(p, width, height, x', y')
  {
    RowFits(width, height, y);
    RowFits(width, height, y');
    if width * y' + x' == width * y + x {
      IndexInjective(width, x', y', x, y);
    }
  }

  // ---------------------------------------------------------------------------------------
  // The two-dimensional convolution

  /** A kernel `convolve_2d` can index: a first row exists and no row is shorter than it. */
  predicate Kernel2D(kernel: seq<seq<real>>) {
    |kernel| > 0 && |kernel[0]| > 0 && forall ky :: 0 <= ky < |kernel| ==> |kernel[ky]| >= |kernel[0]|
  }

  /** Tap (ky, kx) of the kernel at (x, y): zero when it falls outside the image. */
  function Tap2D(p: seq<real>, width: nat, height: nat, kernel: seq<seq<real>>, x: nat, y: nat, ky: nat, kx: nat): real
    requires |p| == width * height && x < width && y < height
    requires Kernel2D(kernel) && ky < |kernel| && kx < |kernel[0]|
  {
    var dy := y + ky - (|kernel| - 1) / 2;
    var dx := x + kx - (|kernel[0]| - 1) / 2;
    if 0 <= dy < height && 0 <= dx < width then At(p, width, height, dx, dy) * kernel[ky][kx] else 0.0
  }

  /** The first n taps of kernel row ky at (x, y). */
  function RowTaps2D(p: seq<real>, width: nat, height: nat, kernel: seq<seq<real>>, x: nat, y: nat, ky: nat, n: nat): real
    requires |p| == width * height && x < width && y < height
    requires Kernel2D(kernel) && ky < |kernel| && n <= |kernel[0]|
  {
    if n == 0 then 0.0
    else RowTaps2D(p, width, height, kernel, x, y, ky, n - 1) + Tap2D(p, width, height, kernel, x, y, ky, n - 1)
  }

  /** All taps of the first m kernel rows at (x, y); with m = |kernel| this is the output pixel. */
  function Taps2D(p: seq<real>, width: nat, height: nat, kernel: seq<seq<real>>, x: nat, y: nat, m: nat): real
    requires |p| == width * height && x < width && y < height
    requires Kernel2D(kernel) && m <= |kernel|
  {
    if m == 0 then 0.0
    else Taps2D(p, width, height, kernel, x, y, m - 1) + RowTaps2D(p, width, height, kernel, x, y, m - 1, |kernel[0]|)
  }

  /** The edge-detection kernel: a discrete Laplacian with the four direct neighbours. */
  const Laplacian: seq<seq<real>> := [[0.0, -1.0, 0.0], [-1.0, 4.0, -1.0], [0.0, -1.0, 0.0]]

  /** The pixel at (x, y) if it lies inside the image, zero otherwise. */
  function Neighbour(p: seq<real>, width: nat, height: nat, x: int, y: int): real
    requires |p| == width * height
  {
    if 0 <= x < width && 0 <= y < height then At(p, width, height, x, y) else 0.0
  }

  /**
   * Edge detection at (x, y) is four times the pixel minus its in-image direct neighbours;
   * neighbours beyond the border count as zero.
   */
  lemma LaplacianAt(p: seq<real>, width: nat, height: nat, x: nat, y: nat)
    requires |p| == width * height && x < width && y < height
    ensures Kernel2D(Laplacian)
    ensures Taps2D(p, width, height, Laplacian, x, y, 3)
         == 4.0 * At(p, width, height, x, y)
            - Neighbour(p, width, height, x - 1, y) - Neighbour(p, width, height, x + 1, y)
            - Neighbour(p, width, height, x, y - 1) - Neighbour(p, width, height, x, y + 1)
  {
    var k := Laplacian;
    assert |k| == 3 && |k[0]| == 3 && |k[1]| == 3 && |k[2]| == 3;
    NineTaps(p, width, height, k, x, y);
    ZeroTap(p, width, height, k, x, y, 0, 0);
    WeightedTap(p, width, height, k, x, y, 0, 1, x, y - 1, -1.0);
    ZeroTap(p, width, height, k, x, y, 0, 2);
    WeightedTap(p, width, height, k, x, y, 1, 0, x - 1, y, -1.0);
    WeightedTap(p, width, height, k, x, y, 1, 1, x, y, 4.0);
    WeightedTap(p, width, height, k, x, y, 1, 2, x + 1, y, -1.0);
    ZeroTap(p, width, height, k, x, y, 2, 0);
    WeightedTap(p, width, height, k, x, y, 2, 1, x, y + 1, -1.0);
    ZeroTap(p, width, height, k, x, y, 2, 2);
  }

  lemma ZeroTap(p: seq<real>, width: nat, height: nat, kernel: seq<seq<real>>, x: nat, y: nat, ky: nat, kx: nat)
    requires |p| == width * height && x < width && y < height
    requires Kernel2D(kernel) && ky < |kernel| && kx < |kernel[0]| && kernel[ky][kx] == 0.0
    ensures Tap2D(p, width, height, kernel, x, y, ky, kx) == 0.0
  {
  }

  /** Tap (ky, kx) landing on (dx, dy) with kernel entry w contributes w times that neighbour. */
  lemma WeightedTap(p: seq<real>, width: nat, height: nat, kernel: seq<seq<real>>, x: nat, y: nat, ky: nat, kx: nat,
                    dx: int, dy: int, w: real)
    requires |p| == width * height && x < width && y < height
    requires Kernel2D(kernel) && ky < |kernel| && kx < |kernel[0]|
    requires dx == x + kx - (|kernel[0]| - 1) / 2 && dy == y + ky - (|kernel| - 1) / 2 && kernel[ky][kx] == w
    ensures Tap2D(p, width, height, kernel, x, y, ky, kx) == w * Neighbour(p, width, height, dx, dy)
    ensures dx == x && dy == y ==> Neighbour(p, width, height, dx, dy) == At(p, width, height, x, y)
  {
  }

  /** A 3 × 3 kernel contributes exactly its nine taps. */
  lemma NineTaps(p: seq<real>, width: nat, height: nat, kernel: seq<seq<real>>, x: nat, y: nat)
    requires |p| == width * height && x < width && y < height
    requires Kernel2D(kernel) && |kernel| == 3 && |kernel[0]| == 3
    ensures Taps2D(p, width, height, kernel, x, y, 3)
         == Tap2D(p, width, height, kernel, x, y, 0, 0) + Tap2D(p, width, height, kernel, x, y, 0, 1)
            + Tap2D(p, width, height, kernel, x, y, 0, 2) + Tap2D(p, width, height, kernel, x, y, 1, 0)
            + Tap2D(p, width, height, kernel, x, y, 1, 1) + Tap2D(p, width, height, kernel, x, y, 1, 2)
            + Tap2D(p, width, height, kernel, x, y, 2, 0) + Tap2D(p, width, height, kernel, x, y, 2, 1)
            + Tap2D(p, width, height, kernel, x, y, 2, 2)
  {
    forall ky: nat | ky < 3
      ensures RowTaps2D(p, width, height, kernel, x, y, ky, 3) == Tap2D(p, width, height, kernel, x, y, ky, 0)
        + Tap2D(p, width, height, kernel, x, y, ky, 1) + Tap2D(p, width, height, kernel, x, y, ky, 2)
    {
      assert RowTaps2D(p, width, height, kernel, x, y, ky, 1) == Tap2D(p, width, height, kernel, x, y, ky, 0);
      assert RowTaps2D(p, width, height, kernel, x, y, ky, 2)
          == RowTaps2D(p, width, height, kernel, x, y, ky, 1) + Tap2D(p, width, height, kernel, x, y, ky, 1);
    }
    assert Taps2D(p, width, height, kernel, x, y, 1) == RowTaps2D(p, width, height, kernel, x, y, 0, 3);
    assert Taps2D(p, width, height, kernel, x, y, 2)
        == Taps2D(p, width, height, kernel, x, y, 1) + RowTaps2D(p, width, height, kernel, x, y, 1, 3);
  }

  /** On a flat image, edge detection gives zero inside the image and 2c at a corner. */
  lemma LaplacianOfFlat(p: seq<real>, width: nat, height: nat, c: real, x: nat, y: nat)
    requires |p| == width * height && x < width && y < height
    requires forall i :: 0 <= i < |p| ==> p[i] == c
    ensures Kernel2D(Laplacian)
    ensures 0 < x < width - 1 && 0 < y < height - 1 ==> Taps2D(p, width, height, Laplacian, x, y, 3) == 0.0
    ensures x == 0 && y == 0 && width > 1 && height > 1 ==> Taps2D(p, width, height, Laplacian, x, y, 3) == 2.0 * c
  {
    LaplacianAt(p, width, height, x, y);
    forall dx: int, dy: int | 0 <= dx < width && 0 <= dy < height
      ensures Neighbour(p, width, height, dx, dy) == c
    {
      RowFits(width, height, dy);
    }
    var here, left, right, up, down := At(p, width, height, x, y), Neighbour(p, width, height, x - 1, y),
      Neighbour(p, width, height, x + 1, y), Neighbour(p, width, height, x, y - 1), Neighbour(p, width, height, x, y + 1);
    assert here == Neighbour(p, width, height, x, y) == c;
    if 0 < x < width - 1 && 0 < y < height - 1 {
      assert left == c && right == c && up == c && down == c;
    }
    if x == 0 && y == 0 && width > 1 && height > 1 {
      assert left == 0.0 && up == 0.0 && right == c && down == c;
    }
  }

  // ---------------------------------------------------------------------------------------
  // Bilinear resizing

  /** `a + t * (b - a)`. */
  function Lerp(a: real, t: real, b: real): (r: real)
    ensures t == 0.0 ==> r == a
    ensures t == 1.0 ==> r == b
    ensures r == (1.0 - t) * a + t * b
  {
    a + t * (b - a)
  }

  /** For t in [0, 1] the interpolation stays between its end points. */
  lemma LerpBetween(a: real, t: real, b: real, lo: real, hi: real)
    requires 0.0 <= t <= 1.0 && lo <= a <= hi && lo <= b <= hi
    ensures lo <= Lerp(a, t, b) <= hi
  {
    ProductNonNegative(1.0 - t, a - lo);
    ProductNonNegative(t, b - lo);
    ProductNonNegative(1.0 - t, hi - a);
    ProductNonNegative(t, hi - b);
    assert Lerp(a, t, b) - lo == (1.0 - t) * (a - lo) + t * (b - lo);
    assert hi - Lerp(a, t, b) == (1.0 - t) * (hi - a) + t * (hi - b);
  }

  /** The source coordinate sampled for output coordinate i: `i * (n / out)`. */
  function Sample(n: nat, out: nat, i: nat): real
    requires i < out
  {
    (i as real) * ((n as real) / (out as real))
  }

  /** The sampled coordinate lies in [0, n), so its floor indexes the source. */
  lemma SampleInside(n: nat, out: nat, i: nat)
    requires i < out && n > 0
    ensures 0.0 <= Sample(n, out, i) < n as real
    ensures 0 <= Sample(n, out, i).Floor < n
  {
    var ratio := (n as real) / (out as real);
    assert (out as real) * ratio == n as real;
    assert (i as real) * ratio < (out as real) * ratio;
  }

  /** `(u + 1).min(n - 1)`: the next sample index, clamped to the last one. */
  function ClampNext(u: nat, n: nat): (r: nat)
    requires u < n
    ensures r < n && u <= r <= u + 1
    ensures r == u + 1 <==> u + 1 < n
  {
    if u + 1 <= n - 1 then u + 1 else n - 1
  }

  /**
   * Output pixel (x, y) of resizing a width × height buffer to outWidth × outHeight: the
   * bilinear blend of the source pixel under the sampled point, its right and lower
   * neighbours and the one diagonally below, with both neighbours clamped to the border.
   */
  function ResizeAt(p: seq<real>, width: nat, height: nat, outWidth: nat, outHeight: nat, x: nat, y: nat): real
    requires |p| == width * height && width > 0 && height > 0 && x < outWidth && y < outHeight
  {
    var (ux, tx) := SourcePoint(width, outWidth, x);
    var (uy, ty) := SourcePoint(height, outHeight, y);
    Bilinear(p, width, height, ux, uy, tx, ty)
  }

  /**
   * The sampled coordinate `in_x = x · (n / out)` split into its floor, the source index
   * `in_x.floor()`, and the fractional remainder `in_x − floor` used as the blend weight.
   */
  function SourcePoint(n: nat, out: nat, i: nat): (point: (nat, real))
    requires i < out && n > 0
    ensures point.0 < n && 0.0 <= point.1 < 1.0
    ensures point.0 as real + point.1 == Sample(n, out, i)
  {
    SampleInside(n, out, i);
    var inX := Sample(n, out, i);
    (inX.Floor, inX - inX.Floor as real)
  }

  /**
   * The blend at fractional offsets (tx, ty) from pixel (ux, uy) towards its right and lower
   * neighbours, each clamped to the border.
   */
  function Bilinear(p: seq<real>, width: nat, height: nat, ux: nat, uy: nat, tx: real, ty: real): real
    requires |p| == width * height && ux < width && uy < height
  {
    var tl := At(p, width, height, ux, uy);
    var tr := At(p, width, height, ClampNext(ux, width), uy);
    var bl := At(p, width, height, ux, ClampNext(uy, height));
    var br := At(p, width, height, ClampNext(ux, width), ClampNext(uy, height));
    Lerp(Lerp(tl, tx, tr), ty, Lerp(bl, tx, br))
  }

  /** Resizing to the same dimensions samples every pixel exactly. */
  lemma ResizeIdentity(p: seq<real>, width: nat, height: nat, x: nat, y: nat)
    requires |p| == width * height && x < width && y < height
    ensures ResizeAt(p, width, height, width, height, x, y) == At(p, width, height, x, y)
  {
    SampleSame(width, x);
    SampleSame(height, y);
    assert ResizeAt(p, width, height, width, height, x, y) == Bilinear(p, width, height, x, y, 0.0, 0.0);
  }

  /** Sampling at the source's own size lands on the point itself, with no remainder. */
  lemma SampleSame(n: nat, i: nat)
    requires i < n
    ensures SourcePoint(n, n, i) == (i, 0.0)
  {
    assert (n as real) / (n as real) == 1.0;
    assert Sample(n, n, i) == i as real;
  }

  /** A resized pixel never leaves the range of the source pixels. */
  lemma ResizeWithinRange(p: seq<real>, width: nat, height: nat, outWidth: nat, outHeight: nat, x: nat, y: nat,
                          lo: real, hi: real)
    requires |p| == width * height && width > 0 && height > 0 && x < outWidth && y < outHeight
    requires forall i :: 0 <= i < |p| ==> lo <= p[i] <= hi
    ensures lo <= ResizeAt(p, width, height, outWidth, outHeight, x, y) <= hi
  {
    var (ux, tx) := SourcePoint(width, outWidth, x);
    var (uy, ty) := SourcePoint(height, outHeight, y);
    var ux1 := ClampNext(ux, width);
    var uy1 := ClampNext(uy, height);
    forall x': nat, y': nat | x' < width && y' < height
      ensures lo <= At(p, width, height, x', y') <= hi
    {
      RowFits(width, height, y');
    }
    LerpBetween(At(p, width, height, ux, uy), tx, At(p, width, height, ux1, uy), lo, hi);
    LerpBetween(At(p, width, height, ux, uy1), tx, At(p, width, height, ux1, uy1), lo, hi);
    LerpBetween(Lerp(At(p, width, height, ux, uy), tx, At(p, width, height, ux1, uy)), ty,
                Lerp(At(p, width, height, ux, uy1), tx, At(p, width, height, ux1, uy1)), lo, hi);
  }

  // ---------------------------------------------------------------------------------------
  // Kernels

  /**
   * What the model needs of the Gaussian profile `g(n) = b · exp(n / −a)` (a = 2σ²,
   * b = 1 / sqrt(π·a)): it is positive for every n. The profile is a parameter because exp
   * and sqrt are floating-point library functions.
   */
  ghost predicate PositiveProfile(gauss: real -> real) {
    forall n :: gauss(n) > 0.0
  }

  /** The Gaussian sampled at x = −size ..= size: tap i is the profile at (i − size)². */
  function GaussianKernel(size: int, gauss: real -> real): (k: seq<real>)
    ensures |k| == if size < 0 then 0 else 2 * size + 1
  {
    if size < 0 then []
    else seq(2 * size + 1, i requires 0 <= i < 2 * size + 1 => gauss(((i - size) * (i - size)) as real))
  }

  /** The kernel is mirror-symmetric about its centre tap. */
  lemma GaussianKernelSymmetric(size: int, gauss: real -> real)
    ensures var k := GaussianKernel(size, gauss);
      forall i :: 0 <= i < |k| ==> k[i] == k[|k| - 1 - i]
  {
    var k := GaussianKernel(size, gauss);
    forall i | 0 <= i < |k| ensures k[i] == k[|k| - 1 - i] {
      var d := i - size;
      assert |k| - 1 - i - size == -d;
      assert (-d) * (-d) == d * d;
    }
  }

  /** Every tap is positive when the profile is. */
  lemma GaussianKernelPositive(size: int, gauss: real -> real)
    requires PositiveProfile(gauss)
    ensures var k := GaussianKernel(size, gauss);
      forall i :: 0 <= i < |k| ==> k[i] > 0.0
  {
  }

  /** `v` scaled by c, element by element. */
  function Scale(v: seq<real>, c: real): (r: seq<real>)
    ensures |r| == |v| && forall i :: 0 <= i < |r| ==> r[i] == v[i] * c
  {
    seq(|v|, i requires 0 <= i < |v| => v[i] * c)
  }

  lemma {:induction false} SumScale(v: seq<real>, c: real)
    ensures Sum(Scale(v, c)) == Sum(v) * c
    decreases |v|
  {
    if v != [] {
      var n := |v| - 1;
      assert Scale(v, c)[..n] == Scale(v[..n], c) by {
        forall i | 0 <= i < n ensures Scale(v, c)[..n][i] == Scale(v[..n], c)[i] {}
      }
      SumScale(v[..n], c);
    }
  }

  /**
   * Each entry divided by the total. A non-empty input whose total is zero gives the undefined
   * result `None` (an infinite reciprocal, so infinities or NaN in f32); the empty input gives
   * the empty kernel.
   */
  function NormalizeF32(v: seq<real>): (r: Option<seq<real>>)
    ensures r.None? <==> v != [] && Sum(v) == 0.0
    ensures r.Some? ==> |r.value| == |v|
  {
    if v == [] then Some([])
    else
      match Div(1.0, Sum(v))
      case None => None
      case Some(inv) => Some(Scale(v, inv))
  }

  /** A normalised kernel sums to one and keeps the proportions of its input. */
  lemma NormalizeSumsToOne(v: seq<real>)
    requires Sum(v) != 0.0
    ensures NormalizeF32(v).Some?
    ensures Sum(NormalizeF32(v).value) == 1.0
  {
    ScaledSum(v);
    assert v != [];
    assert NormalizeF32(v) == Some(Scale(v, 1.0 / Sum(v)));
  }

  lemma ScaledSum(v: seq<real>)
    requires Sum(v) != 0.0
    ensures Sum(Scale(v, 1.0 / Sum(v))) == 1.0
  {
    var total := Sum(v);
    SumScale(v, 1.0 / total);
    ReciprocalCancels(total);
  }

  /** Normalising keeps the proportions: entry i times the total is the original entry. */
  lemma ScaledEntry(v: seq<real>, i: nat)
    requires Sum(v) != 0.0 && i < |v|
    ensures Scale(v, 1.0 / Sum(v))[i] * Sum(v) == v[i]
  {
    MulCancel(v[i], Sum(v));
  }

  lemma ReciprocalCancels(s: real)
    requires s != 0.0
    ensures s * (1.0 / s) == 1.0
  {
  }

  lemma MulCancel(x: real, s: real)
    requires s != 0.0
    ensures x * (1.0 / s) * s == x
  {
    assert x * (1.0 / s) * s == x * ((1.0 / s) * s);
  }

  lemma {:induction false} SumPositive(v: seq<real>)
    requires v != [] && forall i :: 0 <= i < |v| ==> v[i] > 0.0
    ensures Sum(v) > 0.0
    decreases |v|
  {
    if |v| > 1 {
      SumPositive(v[..|v| - 1]);
    }
  }

  /**
   * The kernel `blur` convolves with: the normalised Gaussian, which has 2·size + 1 taps and
   * sums to one.
   */
  function BlurKernel(size: int, gauss: real -> real): (k: seq<real>)
    requires size >= 0 && PositiveProfile(gauss)
    ensures |k| == 2 * size + 1 && Sum(k) == 1.0
  {
    var g := GaussianKernel(size, gauss);
    GaussianKernelPositive(size, gauss);
    SumPositive(g);
    NormalizeSumsToOne(g);
    NormalizeF32(g).value
  }

  // ---------------------------------------------------------------------------------------
  // Grayscale conversion

  /** One 8-bit RGBA pixel of a decoded image. */
  datatype Rgba = Rgba(r: Byte, g: Byte, b: Byte, a: Byte)

  /** A decoded colour image; its pixels are listed row by row. */
  datatype ColorImage = ColorImage(width: nat, height: nat, pixels: seq<Rgba>)

  /** The mean of the three channels, scaled by opacity, in [0, 1]. */
  function NaiveLuma(c: Rgba): (l: real)
    ensures 0.0 <= l <= 1.0
    ensures c.a == 0 ==> l == 0.0
    ensures c == Rgba(255, 255, 255, 255) ==> l == 1.0
  {
    var sum := c.r as real + c.g as real + c.b as real;
    var alpha := c.a as real;
    assert 0.0 <= sum <= 765.0 && 0.0 <= alpha <= 255.0;
    ProductNonNegative(sum, alpha);
    ProductNonNegative(765.0 - sum, alpha);
    ProductNonNegative(765.0, 255.0 - alpha);
    sum * alpha / (3.0 * 255.0 * 255.0)
  }

  /** The sRGB transfer function's inverse, with the power curve supplied as `powf`. */
  function RgbComponentToLinear(component: Byte, powf: (real, real) -> real): real {
    var c := component as real / 255.0;
    if c <= 0.04045 then c / 12.92 else powf((c + 0.055) / 1.055, 2.4)
  }

  /** Relative luminance of the linearised channels, scaled by opacity. */
  function ColorimetricLuma(c: Rgba, powf: (real, real) -> real): real {
    var luma := 0.2126 * RgbComponentToLinear(c.r, powf) + 0.7152 * RgbComponentToLinear(c.g, powf)
      + 0.0722 * RgbComponentToLinear(c.b, powf);
    luma * (c.a as real / 255.0)
  }

  /** What the model needs of `powf`: raising a number in [0, 1] to 2.4 stays in [0, 1]. */
  ghost predicate PowfInUnit(powf: (real, real) -> real) {
    forall base :: 0.0 <= base <= 1.0 ==> 0.0 <= powf(base, 2.4) <= 1.0
  }

  lemma LinearInUnit(component: Byte, powf: (real, real) -> real)
    requires PowfInUnit(powf)
    ensures 0.0 <= RgbComponentToLinear(component, powf) <= 1.0
  {
    var c := component as real / 255.0;
    assert 0.0 <= c <= 1.0;
    if c > 0.04045 {
      assert 0.0 <= (c + 0.055) / 1.055 <= 1.0;
    }
  }

  /**
   * Colorimetric luminance lies in [0, 1] whenever the power curve maps [0, 1] into itself;
   * the weights 0.2126, 0.7152 and 0.0722 sum to one, so opaque white has luminance 1 when
   * 1^2.4 = 1, and a fully transparent pixel has luminance 0.
   */
  lemma ColorimetricLumaInUnit(c: Rgba, powf: (real, real) -> real)
    requires PowfInUnit(powf)
    ensures 0.0 <= ColorimetricLuma(c, powf) <= 1.0
    ensures c.a == 0 ==> ColorimetricLuma(c, powf) == 0.0
    ensures c == Rgba(255, 255, 255, 255) && powf(1.0, 2.4) == 1.0 ==> ColorimetricLuma(c, powf) == 1.0
  {
    var lr, lg, lb := RgbComponentToLinear(c.r, powf), RgbComponentToLinear(c.g, powf), RgbComponentToLinear(c.b, powf);
    LinearInUnit(c.r, powf);
    LinearInUnit(c.g, powf);
    LinearInUnit(c.b, powf);
    var luma := 0.2126 * lr + 0.7152 * lg + 0.0722 * lb;
    var alpha := c.a as real / 255.0;
    assert ColorimetricLuma(c, powf) == luma * alpha;
    ProductInUnit(luma, alpha);
    if c == Rgba(255, 255, 255, 255) && powf(1.0, 2.4) == 1.0 {
      WhiteIsLinearOne(powf);
    }
  }

  lemma WhiteIsLinearOne(powf: (real, real) -> real)
    requires powf(1.0, 2.4) == 1.0
    ensures RgbComponentToLinear(255, powf) == 1.0
  {
    assert (255 as real / 255.0 + 0.055) / 1.055 == 1.0;
  }

  // ---------------------------------------------------------------------------------------
  // The buffer

  /** `LumaImage<f32>`: a width × height grayscale buffer stored row-major. */
  class LumaImage {
    const width: nat
    const height: nat
    const pixels: array<real>

    predicate Valid() {
      pixels.Length == width * height
    }

    /** The zero-filled buffer the operations that build a fresh image start from. */
    constructor Blank(width: nat, height: nat)
      ensures this.width == width && this.height == height && Valid()
      ensures fresh(pixels) && forall i :: 0 <= i < pixels.Length ==> pixels[i] == 0.0
    {
      this.width := width;
      this.height := height;
      pixels := new real[width * height](_ => 0.0);
    }

    /** `naive_grayscale_from`: one naive luma per decoded pixel, in the same order. */
    constructor NaiveGrayscaleFrom(image: ColorImage)
      requires |image.pixels| == image.width * image.height
      ensures width == image.width && height == image.height && Valid() && fresh(pixels)
      ensures forall i :: 0 <= i < pixels.Length ==> pixels[i] == NaiveLuma(image.pixels[i])
    {
      width := image.width;
      height := image.height;
      pixels := new real[|image.pixels|](i requires 0 <= i < |image.pixels| => NaiveLuma(image.pixels[i]));
    }

    /** `colorimetric_grayscale_from`: one colorimetric luma per decoded pixel, in the same order. */
    constructor ColorimetricGrayscaleFrom(image: ColorImage, powf: (real, real) -> real)
      requires |image.pixels| == image.width * image.height
      ensures width == image.width && height == image.height && Valid() && fresh(pixels)
      ensures forall i :: 0 <= i < pixels.Length ==> pixels[i] == ColorimetricLuma(image.pixels[i], powf)
    {
      width := image.width;
      height := image.height;
      pixels := new real[|image.pixels|](i requires 0 <= i < |image.pixels| => ColorimetricLuma(image.pixels[i], powf));
    }

    /** The pixel at column x of row y; only the flat index has to be in range. */
    function GetPixel(x: nat, y: nat): real
      reads pixels
      requires width * y + x < pixels.Length
    {
      pixels[width * y + x]
    }

    /** `get_pixel` inside the image reads pixel (x, y) of the flat buffer. */
    lemma PixelIsAt(x: nat, y: nat)
      requires Valid() && x < width && y < height
      ensures width * y + x < pixels.Length
      ensures GetPixel(x, y) == At(pixels[..], width, height, x, y)
    {
      RowFits(width, height, y);
    }

    /** Overwrites the slot of (x, y); see `SetOnlyThatSlot` for what that means per pixel. */
    method SetPixel(x: nat, y: nat, v: real)
      requires width * y + x < pixels.Length
      modifies pixels
      ensures pixels[..] == old(pixels[..])[width * y + x := v]
    {
      pixels[width * y + x] := v;
    }

    /** The horizontal pass, in place, row by row and left to right. */
    method ConvolveHorizontal(kernel: seq<real>)
      requires Valid() && 0 < |kernel|
      modifies pixels
      ensures pixels[..] == Pass(old(pixels[..]), width, height, Horizontal, kernel)
    {
      ghost var p := pixels[..];
      var y := 0;
      while y < height
        invariant y <= height
        invariant pixels[..] == PassState(p, width, height, Horizontal, kernel, 0, y)
      {
        var x := 0;
        while x < width
          invariant x <= width
          invariant pixels[..] == PassState(p, width, height, Horizontal, kernel, x, y)
        {
          var total := HorizontalTapsAt(kernel, x, y);
          RowFits(width, height, y);
          SetPixel(x, y, total);
          x := x + 1;
        }
        y := y + 1;
      }
    }

    /** The vertical pass, in place, in the same row-major order as the horizontal one. */
    method ConvolveVertical(kernel: seq<real>)
      requires Valid() && 0 < |kernel|
      modifies pixels
      ensures pixels[..] == Pass(old(pixels[..]), width, height, Vertical, kernel)
    {
      ghost var p := pixels[..];
      var y := 0;
      while y < height
        invariant y <= height
        invariant pixels[..] == PassState(p, width, height, Vertical, kernel, 0, y)
      {
        var x := 0;
        while x < width
          invariant x <= width
          invariant pixels[..] == PassState(p, width, height, Vertical, kernel, x, y)
        {
          var total := VerticalTapsAt(kernel, x, y);
          RowFits(width, height, y);
          SetPixel(x, y, total);
          x := x + 1;
        }
        y := y + 1;
      }
    }

    /** The inner loop of the horizontal pass: the kernel's taps at (x, y) on the current buffer. */
    method HorizontalTapsAt(kernel: seq<real>, x: nat, y: nat) returns (total: real)
      requires Valid() && 0 < |kernel| && x < width && y < height
      ensures total == Taps(pixels[..], width, height, Horizontal, kernel, x, y, |kernel|)
    {
      var offset := (|kernel| - 1) / 2;
      total := 0.0;
      var kx := 0;
      while kx < |kernel|
        invariant kx <= |kernel|
        invariant total == Taps(pixels[..], width, height, Horizontal, kernel, x, y, kx)
      {
        var dx := x + kx - offset;
        if 0 <= dx < width {
          PixelIsAt(dx, y);
          var pixel := GetPixel(dx, y);
          assert Tap(pixels[..], width, height, Horizontal, kernel, x, y, kx) == pixel * kernel[kx];
          total := total + pixel * kernel[kx];
        }
        kx := kx + 1;
      }
    }

    /** The inner loop of the vertical pass: the kernel's taps at (x, y) on the current buffer. */
    method VerticalTapsAt(kernel: seq<real>, x: nat, y: nat) returns (total: real)
      requires Valid() && 0 < |kernel| && x < width && y < height
      ensures total == Taps(pixels[..], width, height, Vertical, kernel, x, y, |kernel|)
    {
      var offset := (|kernel| - 1) / 2;
      total := 0.0;
      var ky := 0;
      while ky < |kernel|
        invariant ky <= |kernel|
        invariant total == Taps(pixels[..], width, height, Vertical, kernel, x, y, ky)
      {
        var dy := y + ky - offset;
        if 0 <= dy < height {
          PixelIsAt(x, dy);
          var pixel := GetPixel(x, dy);
          assert Tap(pixels[..], width, height, Vertical, kernel, x, y, ky) == pixel * kernel[ky];
          total := total + pixel * kernel[ky];
        }
        ky := ky + 1;
      }
    }

    /** A vertical then a horizontal pass with the normalised Gaussian kernel. */
    method Blur(size: int, gauss: real -> real)
      requires Valid() && size >= 0 && PositiveProfile(gauss)
      modifies pixels
      ensures var k := BlurKernel(size, gauss);
        pixels[..] == Pass(Pass(old(pixels[..]), width, height, Vertical, k), width, height, Horizontal, k)
    {
      var kernel := NormalizeF32(GaussianKernel(size, gauss));
      GaussianKernelPositive(size, gauss);
      SumPositive(GaussianKernel(size, gauss));
      NormalizeSumsToOne(GaussianKernel(size, gauss));
      ConvolveVertical(kernel.value);
      ConvolveHorizontal(kernel.value);
    }

    /** `convolve_2d`: a fresh buffer of the same size holding the full kernel sum at every pixel. */
    method Convolve2D(kernel: seq<seq<real>>) returns (r: LumaImage)
      requires Valid() && Kernel2D(kernel)
      ensures fresh(r) && fresh(r.pixels) && r.Valid() && r.width == width && r.height == height
      ensures forall x: nat, y: nat :: x < width && y < height ==>
        At(r.pixels[..], width, height, x, y) == Taps2D(pixels[..], width, height, kernel, x, y, |kernel|)
    {
      r := new LumaImage.Blank(width, height);
      var y := 0;
      while y < height
        invariant y <= height
        invariant fresh(r) && fresh(r.pixels) && r.Valid() && r.width == width && r.height == height
        invariant forall x': nat, y': nat :: x' < width && y' < y ==>
          At(r.pixels[..], width, height, x', y') == Taps2D(pixels[..], width, height, kernel, x', y', |kernel|)
      {
        var x := 0;
        while x < width
          invariant x <= width
          invariant fresh(r) && fresh(r.pixels) && r.Valid() && r.width == width && r.height == height
          invariant forall x': nat, y': nat :: x' < width && (y' < y || (y' == y && x' < x)) ==>
            At(r.pixels[..], width, height, x', y') == Taps2D(pixels[..], width, height, kernel, x', y', |kernel|)
        {
          var total := Taps2DAt(kernel, x, y);
          ghost var before := r.pixels[..];
          RowFits(width, height, y);
          r.SetPixel(x, y, total);
          forall x': nat, y': nat | x' < width && y' < height
            ensures At(r.pixels[..], width, height, x', y')
                 == if x' == x && y' == y then total else At(before, width, height, x', y')
          {
            SetOnlyThatSlot(before, width, height, x, y, total, x', y');
          }
          x := x + 1;
        }
        y := y + 1;
      }
    }

    /** The two kernel loops of `convolve_2d` at (x, y). */
    method Taps2DAt(kernel: seq<seq<real>>, x: nat, y: nat) returns (total: real)
      requires Valid() && Kernel2D(kernel) && x < width && y < height
      ensures total == Taps2D(pixels[..], width, height, kernel, x, y, |kernel|)
    {
      total := 0.0;
      var ky := 0;
      while ky < |kernel|
        invariant ky <= |kernel|
        invariant total == Taps2D(pixels[..], width, height, kernel, x, y, ky)
      {
        var row := RowTaps2DAt(kernel, x, y, ky);
        total := total + row;
        ky := ky + 1;
      }
    }

    /** The innermost loop of `convolve_2d`: the taps of kernel row ky at (x, y). */
    method RowTaps2DAt(kernel: seq<seq<real>>, x: nat, y: nat, ky: nat) returns (total: real)
      requires Valid() && Kernel2D(kernel) && x < width && y < height && ky < |kernel|
      ensures total == RowTaps2D(pixels[..], width, height, kernel, x, y, ky, |kernel[0]|)
    {
      var rowOffset := (|kernel| - 1) / 2;
      var colOffset := (|kernel[0]| - 1) / 2;
      total := 0.0;
      var kx := 0;
      while kx < |kernel[0]|
        invariant kx <= |kernel[0]|
        invariant total == RowTaps2D(pixels[..], width, height, kernel, x, y, ky, kx)
      {
        var dy := y + ky - rowOffset;
        var dx := x + kx - colOffset;
        if 0 <= dy < height && 0 <= dx < width {
          PixelIsAt(dx, dy);
          var pixel := GetPixel(dx, dy);
          assert Tap2D(pixels[..], width, height, kernel, x, y, ky, kx) == pixel * kernel[ky][kx];
          total := total + pixel * kernel[ky][kx];
        }
        kx := kx + 1;
      }
    }

    /** `detect_edges`: the 2-D convolution with the Laplacian kernel. */
    method DetectEdges() returns (r: LumaImage)
      requires Valid()
      ensures fresh(r) && fresh(r.pixels) && r.Valid() && r.width == width && r.height == height
      ensures forall x: nat, y: nat :: x < width && y < height ==>
        At(r.pixels[..], width, height, x, y)
          == 4.0 * At(pixels[..], width, height, x, y)
             - Neighbour(pixels[..], width, height, x - 1, y) - Neighbour(pixels[..], width, height, x + 1, y)
             - Neighbour(pixels[..], width, height, x, y - 1) - Neighbour(pixels[..], width, height, x, y + 1)
    {
      assert Kernel2D(Laplacian);
      r := Convolve2D(Laplacian);
      forall x: nat, y: nat | x < width && y < height
        ensures At(r.pixels[..], width, height, x, y)
          == 4.0 * At(pixels[..], width, height, x, y)
             - Neighbour(pixels[..], width, height, x - 1, y) - Neighbour(pixels[..], width, height, x + 1, y)
             - Neighbour(pixels[..], width, height, x, y - 1) - Neighbour(pixels[..], width, height, x, y + 1)
      {
        LaplacianAt(pixels[..], width, height, x, y);
      }
    }

    /** `resize`: a fresh outWidth × outHeight buffer of bilinear samples of this one. */
    method Resize(outWidth: nat, outHeight: nat) returns (r: LumaImage)
      requires Valid() && (outWidth > 0 && outHeight > 0 ==> width > 0 && height > 0)
      ensures fresh(r) && fresh(r.pixels) && r.Valid() && r.width == outWidth && r.height == outHeight
      ensures forall x: nat, y: nat :: x < outWidth && y < outHeight ==>
        At(r.pixels[..], outWidth, outHeight, x, y) == ResizeAt(pixels[..], width, height, outWidth, outHeight, x, y)
    {
      r := new LumaImage.Blank(outWidth, outHeight);
      var y := 0;
      while y < outHeight
        invariant y <= outHeight
        invariant fresh(r) && fresh(r.pixels) && r.Valid() && r.width == outWidth && r.height == outHeight
        invariant forall x': nat, y': nat :: x' < outWidth && y' < y ==>
          At(r.pixels[..], outWidth, outHeight, x', y') == ResizeAt(pixels[..], width, height, outWidth, outHeight, x', y')
      {
        var x := 0;
        while x < outWidth
          invariant x <= outWidth
          invariant fresh(r) && fresh(r.pixels) && r.Valid() && r.width == outWidth && r.height == outHeight
          invariant forall x': nat, y': nat :: x' < outWidth && (y' < y || (y' == y && x' < x)) ==>
            At(r.pixels[..], outWidth, outHeight, x', y') == ResizeAt(pixels[..], width, height, outWidth, outHeight, x', y')
        {
          var v := ResizeSample(outWidth, outHeight, x, y);
          ghost var before := r.pixels[..];
          RowFits(outWidth, outHeight, y);
          r.SetPixel(x, y, v);
          forall x': nat, y': nat | x' < outWidth && y' < outHeight
            ensures At(r.pixels[..], outWidth, outHeight, x', y')
                 == if x' == x && y' == y then v else At(before, outWidth, outHeight, x', y')
          {
            SetOnlyThatSlot(before, outWidth, outHeight, x, y, v, x', y');
          }
          x := x + 1;
        }
        y := y + 1;
      }
    }

    /** The body of `resize`'s loops: the four neighbours of the sampled point, blended. */
    method ResizeSample(outWidth: nat, outHeight: nat, x: nat, y: nat) returns (v: real)
      requires Valid() && width > 0 && height > 0 && x < outWidth && y < outHeight
      ensures v == ResizeAt(pixels[..], width, height, outWidth, outHeight, x, y)
    {
      var (ux, tx) := SourcePoint(width, outWidth, x);
      var (uy, ty) := SourcePoint(height, outHeight, y);
      v := Blend(ux, uy, tx, ty);
    }

    /** The four `get_pixel` reads around (ux, uy) and the three `lerp_f32` calls of `resize`. */
    method Blend(ux: nat, uy: nat, tx: real, ty: real) returns (v: real)
      requires Valid() && ux < width && uy < height
      ensures v == Bilinear(pixels[..], width, height, ux, uy, tx, ty)
    {
      var ux1 := ClampNext(ux, width);
      var uy1 := ClampNext(uy, height);
      var tl := PixelAt(ux, uy);
      var tr := PixelAt(ux1, uy);
      var bl := PixelAt(ux, uy1);
      var br := PixelAt(ux1, uy1);
      v := Lerp(Lerp(tl, tx, tr), ty, Lerp(bl, tx, br));
    }

    /** `get_pixel` at a coordinate inside the image. */
    method PixelAt(x: nat, y: nat) returns (v: real)
      requires Valid() && x < width && y < height
      ensures v == At(pixels[..], width, height, x, y)
    {
      PixelIsAt(x, y);
      v := GetPixel(x, y);
    }

    /** `grid`: the buffer cut into `height` rows of `width` pixels, read in storage order. */
    method Grid() returns (rows: seq<seq<real>>)
      requires Valid()
      ensures |rows| == height && Uniform(rows, width) && Flatten(rows) == pixels[..]
    {
      var i := 0;
      rows := [];
      var y := 0;
      while y < height
        invariant y <= height && |rows| == y && Uniform(rows, width)
        invariant i == width * y && i <= pixels.Length && Flatten(rows) == pixels[..i]
      {
        RowFits(width, height, y);
        var row: seq<real> := [];
        var x := 0;
        while x < width
          invariant x <= width && |row| == x && i == width * y + x
          invariant row == pixels[width * y .. i]
        {
          row := row + [pixels[i]];
          i := i + 1;
          x := x + 1;
        }
        FlattenAppend(rows, row);
        assert pixels[..i] == pixels[..width * y] + row;
        rows := rows + [row];
        y := y + 1;
      }
    }
  }

  /** Cell (x, y) of a grid that flattens to the buffer is the buffer's pixel (x, y). */
  lemma GridCell(rows: seq<seq<real>>, p: seq<real>, width: nat, height: nat, x: nat, y: nat)
    requires |rows| == height && Uniform(rows, width) && Flatten(rows) == p
    requires x < width && y < height
    ensures |p| == width * height && |rows[y]| == width
    ensures rows[y][x] == At(p, width, height, x, y)
  {
    FlattenUniform(rows, width, y);
    assert rows[y][x] == Flatten(rows)[width * y + x];
  }
}
