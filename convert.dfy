/**
 * The conversion engine: a grayscale buffer is cut into glyph-sized chunks, each chunk is
 * matched to a glyph of the font, and the chosen characters are assembled into rows of text.
 *
 * Randomness is an explicit input: `draws` holds the values in [0, 1) the generator would
 * have produced, one per glyph scored, and the noise added to a score is draw · noiseScale.
 * The square root used by the direction scores is a parameter as well.
 */
module Convert {
  import opened Wrappers
  import opened RealSeqs
  import opened Seqs

  // ---------------------------------------------------------------------------------------
  // The font as the converters see it

  /** A glyph: its character, its bitmap, its total intensity and its contour direction. */
  datatype Glyph = Glyph(value: char, bitmap: seq<real>, intensity: real, direction: (real, real))

  /**
   * The font fields the converters read: glyph size, the glyphs in font order and the
   * glyphs ordered by intensity for the fast lookup.
   */
  datatype GlyphFont = GlyphFont(width: nat, height: nat, chars: seq<Glyph>, intensityChars: seq<Glyph>)

  // ---------------------------------------------------------------------------------------
  // Picking a maximum

  /** Index i holds a maximum of the scores and no later index ties with it. */
  predicate IsLastMax(scores: seq<real>, i: nat) {
    i < |scores|
    && (forall j :: 0 <= j < |scores| ==> scores[j] <= scores[i])
    && (forall j :: i < j < |scores| ==> scores[j] < scores[i])
  }

  /** `Iterator::max_by`: the last of the maximal elements. */
  function ArgMaxLast(scores: seq<real>): (i: nat)
    requires |scores| > 0
    ensures IsLastMax(scores, i)
  {
    if |scores| == 1 then 0
    else
      var j := ArgMaxLast(scores[..|scores| - 1]);
      assert forall k :: 0 <= k < |scores| - 1 ==> scores[..|scores| - 1][k] == scores[k];
      if scores[|scores| - 1] >= scores[j] then |scores| - 1 else j
  }

  /** Only one index can be the last maximum, so `ArgMaxLast` is the only such choice. */
  lemma LastMaxUnique(scores: seq<real>, i: nat, j: nat)
    requires IsLastMax(scores, i) && IsLastMax(scores, j)
    ensures i == j
  {
    assert scores[i] <= scores[j] && scores[j] <= scores[i];
  }

  /** The noise added to score i: the i-th draw scaled by `noiseScale`. */
  function Noise(draws: seq<real>, noiseScale: real, i: nat): real
    requires i < |draws|
  {
    draws[i] * noiseScale
  }

  // ---------------------------------------------------------------------------------------
  // score_convert

  /** The characters of the glyphs, in font order. */
  function Values(glyphs: seq<Glyph>): (vs: seq<char>)
    ensures |vs| == |glyphs| && forall i :: 0 <= i < |glyphs| ==> vs[i] == glyphs[i].value
  {
    seq(|glyphs|, i requires 0 <= i < |glyphs| => glyphs[i].value)
  }

  /**
   * The map from character to noisy score that `score_convert` collects: glyphs are inserted
   * in font order, so a character carried by several glyphs keeps its last glyph's score.
   */
  function ScoreMap(score: (seq<real>, seq<real>) -> real, glyphs: seq<Glyph>, chunk: seq<real>,
                    draws: seq<real>, noiseScale: real): (m: map<char, real>)
    requires |draws| == |glyphs|
    ensures forall c :: c in m <==> c in Values(glyphs)
    decreases |glyphs|
  {
    if glyphs == [] then map[]
    else
      var n := |glyphs| - 1;
      var m := ScoreMap(score, glyphs[..n], chunk, draws[..n], noiseScale);
      assert Values(glyphs) == Values(glyphs[..n]) + [glyphs[n].value];
      m[glyphs[n].value := score(chunk, glyphs[n].bitmap) + Noise(draws, noiseScale, n)]
  }

  /** The score kept for a character is that of the last glyph carrying it. */
  lemma {:induction false} ScoreMapLastWins(score: (seq<real>, seq<real>) -> real, glyphs: seq<Glyph>, chunk: seq<real>,
                                            draws: seq<real>, noiseScale: real, i: nat)
    requires |draws| == |glyphs| && i < |glyphs|
    requires forall j :: i < j < |glyphs| ==> glyphs[j].value != glyphs[i].value
    ensures glyphs[i].value in ScoreMap(score, glyphs, chunk, draws, noiseScale)
    ensures ScoreMap(score, glyphs, chunk, draws, noiseScale)[glyphs[i].value]
         == score(chunk, glyphs[i].bitmap) + Noise(draws, noiseScale, i)
    decreases |glyphs|
  {
    var n := |glyphs| - 1;
    ScoreMapUnfold(score, glyphs, chunk, draws, noiseScale);
    if i < n {
      ScoreMapLastWins(score, glyphs[..n], chunk, draws[..n], noiseScale, i);
      NoiseOfPrefix(draws, noiseScale, n, i);
    }
  }

  lemma NoiseOfPrefix(draws: seq<real>, noiseScale: real, n: nat, i: nat)
    requires i < n <= |draws|
    ensures Noise(draws[..n], noiseScale, i) == Noise(draws, noiseScale, i)
  {
    assert draws[..n][i] == draws[i];
  }

  lemma ScoreMapUnfold(score: (seq<real>, seq<real>) -> real, glyphs: seq<Glyph>, chunk: seq<real>,
                       draws: seq<real>, noiseScale: real)
    requires |draws| == |glyphs| > 0
    ensures var n := |glyphs| - 1;
      ScoreMap(score, glyphs, chunk, draws, noiseScale)
        == ScoreMap(score, glyphs[..n], chunk, draws[..n], noiseScale)[glyphs[n].value :=
             score(chunk, glyphs[n].bitmap) + Noise(draws, noiseScale, n)]
  {
  }

  /** A key of `m` among `keys` whose value no other key in `keys` exceeds. */
  function MaxKey(keys: seq<char>, m: map<char, real>): (k: char)
    requires |keys| > 0 && forall i :: 0 <= i < |keys| ==> keys[i] in m
    ensures k in keys && forall i :: 0 <= i < |keys| ==> m[keys[i]] <= m[k]
  {
    if |keys| == 1 then keys[0]
    else
      var k := MaxKey(keys[1..], m);
      assert forall i :: 1 <= i < |keys| ==> keys[1..][i - 1] == keys[i];
      if m[keys[0]] > m[k] then keys[0] else k
  }

  /**
   * `score_convert`: a character whose noisy score is maximal among all characters of the
   * font; None (a panic) for a font without glyphs. Which maximal character is returned
   * depends on the hash map's iteration order, so only maximality is promised.
   */
  function ScoreConvert(score: (seq<real>, seq<real>) -> real, font: GlyphFont, chunk: seq<real>,
                        draws: seq<real>, noiseScale: real): (r: Option<char>)
    requires |draws| == |font.chars|
    ensures r.None? <==> font.chars == []
    ensures r.Some? ==>
      var m := ScoreMap(score, font.chars, chunk, draws, noiseScale);
      r.value in m && forall c :: c in m ==> m[c] <= m[r.value]
  {
    if font.chars == [] then None
    else
      var m := ScoreMap(score, font.chars, chunk, draws, noiseScale);
      var vs := Values(font.chars);
      var k := MaxKey(vs, m);
      assert forall c :: c in m ==> c in vs;
      Some(k)
  }

  // ---------------------------------------------------------------------------------------
  // fast_convert

  /**
   * `f as usize` for a finite value: truncation toward zero, with negative values saturating
   * to 0.
   */
  function CastToUsize(v: real): (n: nat)
    ensures v >= 0.0 ==> n as real <= v < n as real + 1.0
    ensures v < 1.0 ==> n == 0
  {
    if v < 0.0 then 0 else v.Floor
  }

  /** The cast never decreases as its argument grows. */
  lemma CastMonotone(u: real, v: real)
    requires u <= v
    ensures CastToUsize(u) <= CastToUsize(v)
  {
  }

  /**
   * `fast_convert`: the glyph at position ⌊Σ chunk + noise⌋ of the intensity-ordered glyphs;
   * None (a panic) when that position is past the end.
   */
  function FastConvert(font: GlyphFont, chunk: seq<real>, draw: real, noiseScale: real): (r: Option<char>)
    ensures var index := CastToUsize(Sum(chunk) + draw * noiseScale);
      (r.Some? <==> index < |font.intensityChars|)
      && (r.Some? ==> r.value == font.intensityChars[index].value)
  {
    var index := CastToUsize(Sum(chunk) + draw * noiseScale);
    if index < |font.intensityChars| then Some(font.intensityChars[index].value) else None
  }

  /**
   * Without noise a brighter chunk never selects an earlier intensity glyph, and every chunk
   * with a total below 1 selects the first one.
   */
  lemma FastConvertMonotone(font: GlyphFont, dim: seq<real>, bright: seq<real>)
    requires Sum(dim) <= Sum(bright)
    requires FastConvert(font, bright, 0.0, 0.0).Some?
    ensures FastConvert(font, dim, 0.0, 0.0).Some?
    ensures CastToUsize(Sum(dim)) <= CastToUsize(Sum(bright))
    ensures Sum(bright) < 1.0 ==> FastConvert(font, bright, 0.0, 0.0) == Some(font.intensityChars[0].value)
  {
    CastMonotone(Sum(dim), Sum(bright));
  }

  // ---------------------------------------------------------------------------------------
  // chunk_direction

  /** Σ over j < n of the step chunk[row·width + j + 1] − chunk[row·width + j]. */
  function RowSteps(chunk: seq<real>, width: nat, row: nat, n: nat): real
    requires n < width && width * row + width <= |chunk|
  {
    if n == 0 then 0.0
    else RowSteps(chunk, width, row, n - 1) + (chunk[width * row + n] - chunk[width * row + n - 1])
  }

  /** The horizontal gradient of the first m rows: their summed left-to-right steps. */
  function XGrad(chunk: seq<real>, width: nat, height: nat, m: nat): real
    requires width > 0 && m <= height && width * height <= |chunk|
  {
    if m == 0 then 0.0
    else
      RowFits(width, height, m - 1);
      XGrad(chunk, width, height, m - 1) + RowSteps(chunk, width, m - 1, width - 1)
  }

  /** Σ over j < n of the step chunk[(row + 1)·width + j] − chunk[row·width + j]. */
  function ColumnSteps(chunk: seq<real>, width: nat, row: nat, n: nat): real
    requires n <= width && width * (row + 1) + width <= |chunk|
  {
    if n == 0 then 0.0
    else ColumnSteps(chunk, width, row, n - 1) + (chunk[width * (row + 1) + n - 1] - chunk[width * row + n - 1])
  }

  /** The vertical gradient of the first m row pairs: their summed top-to-bottom steps. */
  function YGrad(chunk: seq<real>, width: nat, height: nat, m: nat): real
    requires height > 0 && m <= height - 1 && width * height <= |chunk|
  {
    if m == 0 then 0.0
    else
      RowFits(width, height, m);
      YGrad(chunk, width, height, m - 1) + ColumnSteps(chunk, width, m - 1, width)
  }

  /** The left-to-right steps of a row telescope to its last value minus its first. */
  lemma {:induction false} RowStepsTelescope(chunk: seq<real>, width: nat, row: nat, n: nat)
    requires n < width && width * row + width <= |chunk|
    ensures RowSteps(chunk, width, row, n) == chunk[width * row + n] - chunk[width * row]
  {
    if n > 0 {
      RowStepsTelescope(chunk, width, row, n - 1);
    }
  }

  /** Σ over j < n of chunk[row·width + j]. */
  function RowSum(chunk: seq<real>, width: nat, row: nat, n: nat): real
    requires n <= width && width * row + width <= |chunk|
  {
    if n == 0 then 0.0 else RowSum(chunk, width, row, n - 1) + chunk[width * row + n - 1]
  }

  /** The column steps between two rows are the difference of the two row sums. */
  lemma {:induction false} ColumnStepsTelescope(chunk: seq<real>, width: nat, row: nat, n: nat)
    requires n <= width && width * (row + 1) + width <= |chunk|
    ensures ColumnSteps(chunk, width, row, n) == RowSum(chunk, width, row + 1, n) - RowSum(chunk, width, row, n)
  {
    if n > 0 {
      ColumnStepsTelescope(chunk, width, row, n - 1);
    }
  }

  /** Σ over rows i < m of chunk[i·width + column]. */
  function ColumnSum(chunk: seq<real>, width: nat, height: nat, column: nat, m: nat): real
    requires column < width && m <= height && width * height <= |chunk|
  {
    if m == 0 then 0.0
    else
      RowFits(width, height, m - 1);
      ColumnSum(chunk, width, height, column, m - 1) + chunk[width * (m - 1) + column]
  }

  /**
   * The horizontal gradient is the summed last column minus the summed first column, and
   * the vertical gradient the summed last row minus the summed first row.
   */
  lemma {:induction false} GradientsTelescope(chunk: seq<real>, width: nat, height: nat, m: nat)
    requires width > 0 && 0 < m <= height && width * height <= |chunk|
    ensures XGrad(chunk, width, height, m)
         == ColumnSum(chunk, width, height, width - 1, m) - ColumnSum(chunk, width, height, 0, m)
    ensures width * (m - 1) + width <= |chunk|
    ensures YGrad(chunk, width, height, m - 1) == RowSum(chunk, width, m - 1, width) - RowSum(chunk, width, 0, width)
  {
    RowFits(width, height, m - 1);
    RowStepsTelescope(chunk, width, m - 1, width - 1);
    if m > 1 {
      GradientsTelescope(chunk, width, height, m - 1);
      RowFits(width, height, m - 2);
      ColumnStepsTelescope(chunk, width, m - 2, width);
    }
  }

  /**
   * `chunk_direction`: the contour direction (−y_grad, x_grad), perpendicular to the summed
   * gradient of a width × height chunk.
   */
  method ChunkDirection(chunk: seq<real>, width: nat, height: nat) returns (x: real, y: real)
    requires width > 0 && height > 0 && width * height <= |chunk|
    ensures (x, y) == ChunkDirectionOf(chunk, width, height)
  {
    var xGrad := HorizontalGradient(chunk, width, height);
    var yGrad := VerticalGradient(chunk, width, height);
    x, y := -yGrad, xGrad;
  }

  /** The first loop nest of `chunk_direction`: every left-to-right step of every row, summed. */
  method HorizontalGradient(chunk: seq<real>, width: nat, height: nat) returns (xGrad: real)
    requires width > 0 && width * height <= |chunk|
    ensures xGrad == XGrad(chunk, width, height, height)
  {
    xGrad := 0.0;
    var i := 0;
    while i < height
      invariant i <= height && xGrad == XGrad(chunk, width, height, i)
    {
      RowFits(width, height, i);
      var j := 0;
      while j < width - 1
        invariant j <= width - 1
        invariant xGrad == XGrad(chunk, width, height, i) + RowSteps(chunk, width, i, j)
      {
        xGrad := xGrad + (chunk[width * i + 1 + j] - chunk[width * i + j]);
        j := j + 1;
      }
      i := i + 1;
    }
  }

  /** The second loop nest of `chunk_direction`: every top-to-bottom step of every row pair, summed. */
  method VerticalGradient(chunk: seq<real>, width: nat, height: nat) returns (yGrad: real)
    requires height > 0 && width * height <= |chunk|
    ensures yGrad == YGrad(chunk, width, height, height - 1)
  {
    yGrad := 0.0;
    var i := 0;
    while i < height - 1
      invariant i <= height - 1 && yGrad == YGrad(chunk, width, height, i)
    {
      RowFits(width, height, i + 1);
      var j := 0;
      while j < width
        invariant j <= width
        invariant yGrad == YGrad(chunk, width, height, i) + ColumnSteps(chunk, width, i, j)
      {
        yGrad := yGrad + (chunk[width * (i + 1) + j] - chunk[width * i + j]);
        j := j + 1;
      }
      i := i + 1;
    }
  }

  /** The direction `chunk_direction` returns, as a function of the chunk. */
  function ChunkDirectionOf(chunk: seq<real>, width: nat, height: nat): (real, real)
    requires width > 0 && height > 0 && width * height <= |chunk|
  {
    (-YGrad(chunk, width, height, height - 1), XGrad(chunk, width, height, height))
  }

  /** On a chunk of one value there is no gradient in either direction. */
  lemma FlatChunkHasNoDirection(chunk: seq<real>, width: nat, height: nat, v: real)
    requires width > 0 && height > 0 && width * height <= |chunk|
    requires forall i :: 0 <= i < |chunk| ==> chunk[i] == v
    ensures ChunkDirectionOf(chunk, width, height) == (0.0, 0.0)
  {
    GradientsTelescope(chunk, width, height, height);
    ConstantColumnSum(chunk, width, height, width - 1, height, v);
    ConstantColumnSum(chunk, width, height, 0, height, v);
    RowFits(width, height, height - 1);
    ConstantRowSum(chunk, width, height - 1, width, v);
    ConstantRowSum(chunk, width, 0, width, v);
  }

  lemma {:induction false} ConstantColumnSum(chunk: seq<real>, width: nat, height: nat, column: nat, m: nat, v: real)
    requires column < width && m <= height && width * height <= |chunk|
    requires forall i :: 0 <= i < |chunk| ==> chunk[i] == v
    ensures ColumnSum(chunk, width, height, column, m) == (m as real) * v
  {
    if m > 0 {
      ConstantColumnSum(chunk, width, height, column, m - 1, v);
      RowFits(width, height, m - 1);
    }
  }

  lemma {:induction false} ConstantRowSum(chunk: seq<real>, width: nat, row: nat, n: nat, v: real)
    requires n <= width && width * row + width <= |chunk|
    requires forall i :: 0 <= i < |chunk| ==> chunk[i] == v
    ensures RowSum(chunk, width, row, n) == (n as real) * v
  {
    if n > 0 {
      ConstantRowSum(chunk, width, row, n - 1, v);
    }
  }

  // ---------------------------------------------------------------------------------------
  // direction_convert and direction_and_intensity_convert

  /** A square is never negative. */
  lemma SquareNonNegative(x: real)
    ensures x * x >= 0.0
  {
    if x >= 0.0 {
      ProductNonNegative(x, x);
    } else {
      ProductNonNegative(-x, -x);
      assert (-x) * (-x) == x * x;
    }
  }

  /** `dx² + dy²`. */
  function SquaredNorm(dx: real, dy: real): (d: real)
    ensures d >= 0.0
    ensures dx == 0.0 && dy == 0.0 ==> d == 0.0
  {
    SquareNonNegative(dx);
    SquareNonNegative(dy);
    dx * dx + dy * dy
  }

  /** What the model needs of the square root: it is zero at zero and never negative. */
  ghost predicate SqrtLike(sqrt: real -> real) {
    sqrt(0.0) == 0.0 && forall v :: v >= 0.0 ==> sqrt(v) >= 0.0
  }

  /** Euclidean distance between the chunk's direction and a glyph's. */
  function Distance(dir: (real, real), g: Glyph, sqrt: real -> real): real {
    sqrt(SquaredNorm(dir.0 - g.direction.0, dir.1 - g.direction.1))
  }

  /** The noisy `direction_convert` score of every glyph: the negated distance plus noise. */
  function DirectionScores(font: GlyphFont, dir: (real, real), sqrt: real -> real, draws: seq<real>,
                           noiseScale: real): (scores: seq<real>)
    requires |draws| == |font.chars|
    ensures |scores| == |font.chars|
  {
    seq(|font.chars|, i requires 0 <= i < |font.chars| =>
      -Distance(dir, font.chars[i], sqrt) + Noise(draws, noiseScale, i))
  }

  /**
   * `direction_convert`: the character of the last glyph whose noisy direction score is
   * maximal; None (a panic) for a font without glyphs.
   */
  function DirectionConvert(font: GlyphFont, chunk: seq<real>, sqrt: real -> real, draws: seq<real>,
                            noiseScale: real): (r: Option<char>)
    requires font.width > 0 && font.height > 0 && font.width * font.height <= |chunk|
    requires |draws| == |font.chars|
    ensures r.None? <==> font.chars == []
    ensures r.Some? ==> exists i :: (0 <= i < |font.chars| && font.chars[i].value == r.value
      && IsLastMax(DirectionScores(font, ChunkDirectionOf(chunk, font.width, font.height), sqrt, draws, noiseScale), i))
  {
    if font.chars == [] then None
    else
      var scores := DirectionScores(font, ChunkDirectionOf(chunk, font.width, font.height), sqrt, draws, noiseScale);
      Some(font.chars[ArgMaxLast(scores)].value)
  }

  /**
   * Without noise, a glyph whose direction is exactly the chunk's is chosen when every later
   * glyph lies at a non-zero distance.
   */
  lemma DirectionConvertExactMatch(font: GlyphFont, chunk: seq<real>, sqrt: real -> real, draws: seq<real>, i: nat)
    requires font.width > 0 && font.height > 0 && font.width * font.height <= |chunk|
    requires |draws| == |font.chars| && i < |font.chars| && SqrtLike(sqrt)
    requires font.chars[i].direction == ChunkDirectionOf(chunk, font.width, font.height)
    requires forall j :: i < j < |font.chars| ==>
      Distance(ChunkDirectionOf(chunk, font.width, font.height), font.chars[j], sqrt) != 0.0
    ensures DirectionConvert(font, chunk, sqrt, draws, 0.0) == Some(font.chars[i].value)
  {
    var dir := ChunkDirectionOf(chunk, font.width, font.height);
    var scores := DirectionScores(font, dir, sqrt, draws, 0.0);
    forall j | 0 <= j < |font.chars|
      ensures scores[j] == -Distance(dir, font.chars[j], sqrt) && Distance(dir, font.chars[j], sqrt) >= 0.0
      ensures j > i ==> Distance(dir, font.chars[j], sqrt) > 0.0
    {
      assert Noise(draws, 0.0, j) == 0.0;
    }
    assert Distance(dir, font.chars[i], sqrt) == 0.0;
    assert IsLastMax(scores, i);
    LastMaxUnique(scores, i, ArgMaxLast(scores));
  }

  /** `(font.width * font.height * 4) as f32`: the bound the comment puts on a direction. */
  function MaxDirection(font: GlyphFont): real {
    (font.width * font.height * 4) as real
  }

  /** `1 + (intensity − c.intensity)²`, the intensity penalty the score is divided by. */
  function IntensityPenalty(intensity: real, g: Glyph): (p: real)
    ensures p >= 1.0
  {
    SquareNonNegative(intensity - g.intensity);
    1.0 + (intensity - g.intensity) * (intensity - g.intensity)
  }

  /**
   * The `direction_and_intensity_convert` score of a glyph without noise. `grad` is the
   * negated distance, so the numerator `max_direction − grad` is max_direction + distance.
   */
  function DirectionIntensityScore(font: GlyphFont, dir: (real, real), intensity: real, g: Glyph,
                                   sqrt: real -> real): (s: real)
    ensures s * IntensityPenalty(intensity, g) == MaxDirection(font) + Distance(dir, g, sqrt)
  {
    var grad := -Distance(dir, g, sqrt);
    (MaxDirection(font) - grad) / IntensityPenalty(intensity, g)
  }

  /** The noisy `direction_and_intensity_convert` score of every glyph. */
  function DirectionIntensityScores(font: GlyphFont, dir: (real, real), intensity: real, sqrt: real -> real,
                                    draws: seq<real>, noiseScale: real): (scores: seq<real>)
    requires |draws| == |font.chars|
    ensures |scores| == |font.chars|
  {
    seq(|font.chars|, i requires 0 <= i < |font.chars| =>
      DirectionIntensityScore(font, dir, intensity, font.chars[i], sqrt) + Noise(draws, noiseScale, i))
  }

  /**
   * `direction_and_intensity_convert`: the character of the last glyph whose noisy score is
   * maximal; None (a panic) for a font without glyphs.
   */
  function DirectionAndIntensityConvert(font: GlyphFont, chunk: seq<real>, sqrt: real -> real, draws: seq<real>,
                                        noiseScale: real): (r: Option<char>)
    requires font.width > 0 && font.height > 0 && font.width * font.height <= |chunk|
    requires |draws| == |font.chars|
    ensures r.None? <==> font.chars == []
    ensures r.Some? ==> exists i :: (0 <= i < |font.chars| && font.chars[i].value == r.value
      && IsLastMax(DirectionIntensityScores(font, ChunkDirectionOf(chunk, font.width, font.height), Sum(chunk),
                                            sqrt, draws, noiseScale), i))
  {
    if font.chars == [] then None
    else
      var scores := DirectionIntensityScores(font, ChunkDirectionOf(chunk, font.width, font.height), Sum(chunk),
                                             sqrt, draws, noiseScale);
      Some(font.chars[ArgMaxLast(scores)].value)
  }

  /**
   * Between two glyphs of the same intensity, the one whose direction is farther from the
   * chunk's scores at least as high.
   */
  lemma FartherDirectionScoresHigher(font: GlyphFont, dir: (real, real), intensity: real, near: Glyph, far: Glyph,
                                     sqrt: real -> real)
    requires near.intensity == far.intensity
    requires Distance(dir, near, sqrt) <= Distance(dir, far, sqrt)
    ensures DirectionIntensityScore(font, dir, intensity, near, sqrt) <= DirectionIntensityScore(font, dir, intensity, far, sqrt)
    ensures Distance(dir, near, sqrt) < Distance(dir, far, sqrt)
        ==> DirectionIntensityScore(font, dir, intensity, near, sqrt) < DirectionIntensityScore(font, dir, intensity, far, sqrt)
  {
    var p := IntensityPenalty(intensity, near);
    assert p == IntensityPenalty(intensity, far);
    var a := DirectionIntensityScore(font, dir, intensity, near, sqrt);
    var b := DirectionIntensityScore(font, dir, intensity, far, sqrt);
    QuotientOrder(a, b, p);
  }

  /** Dividing by the same positive penalty keeps the order of two numerators, strictly or not. */
  lemma QuotientOrder(a: real, b: real, p: real)
    requires p > 0.0
    ensures a * p <= b * p ==> a <= b
    ensures a * p < b * p ==> a < b
  {
  }

  /** Of two scores the later one wins ties: `ArgMaxLast` on a pair. */
  lemma ArgMaxLastOfTwo(scores: seq<real>)
    requires |scores| == 2
    ensures ArgMaxLast(scores) == if scores[1] >= scores[0] then 1 else 0
  {
    assert ArgMaxLast(scores[..1]) == 0;
  }

  /**
   * Of two glyphs of the same intensity, the one farther from the chunk's direction is chosen
   * (without noise), so a glyph pointing exactly the chunk's way loses to any other.
   */
  lemma FarGlyphChosen(font: GlyphFont, chunk: seq<real>, sqrt: real -> real, draws: seq<real>)
    requires font.width > 0 && font.height > 0 && font.width * font.height <= |chunk|
    requires |font.chars| == 2 && |draws| == 2 && font.chars[0].intensity == font.chars[1].intensity
    requires var dir := ChunkDirectionOf(chunk, font.width, font.height);
      Distance(dir, font.chars[1], sqrt) < Distance(dir, font.chars[0], sqrt)
    ensures DirectionAndIntensityConvert(font, chunk, sqrt, draws, 0.0) == Some(font.chars[0].value)
  {
    var dir := ChunkDirectionOf(chunk, font.width, font.height);
    var scores := DirectionIntensityScores(font, dir, Sum(chunk), sqrt, draws, 0.0);
    FartherDirectionScoresHigher(font, dir, Sum(chunk), font.chars[1], font.chars[0], sqrt);
    assert Noise(draws, 0.0, 0) == 0.0 && Noise(draws, 0.0, 1) == 0.0;
    assert scores[1] < scores[0];
    ArgMaxLastOfTwo(scores);
  }

  /**
   * The score with the numerator the bound on directions suggests, max_direction − distance:
   * a glyph closer to the chunk's direction scores higher, as in `direction_convert`.
   */
  function IntendedDirectionIntensityScore(font: GlyphFont, dir: (real, real), intensity: real, g: Glyph,
                                           sqrt: real -> real): (s: real)
    ensures s * IntensityPenalty(intensity, g) == MaxDirection(font) - Distance(dir, g, sqrt)
  {
    (MaxDirection(font) - Distance(dir, g, sqrt)) / IntensityPenalty(intensity, g)
  }

  function IntendedDirectionIntensityScores(font: GlyphFont, dir: (real, real), intensity: real,
                                            sqrt: real -> real, draws: seq<real>, noiseScale: real): (scores: seq<real>)
    requires |draws| == |font.chars|
    ensures |scores| == |font.chars|
  {
    seq(|font.chars|, i requires 0 <= i < |font.chars| =>
      IntendedDirectionIntensityScore(font, dir, intensity, font.chars[i], sqrt) + Noise(draws, noiseScale, i))
  }

  /** `direction_and_intensity_convert` with the corrected numerator. */
  function IntendedDirectionAndIntensityConvert(font: GlyphFont, chunk: seq<real>, sqrt: real -> real,
                                                draws: seq<real>, noiseScale: real): (r: Option<char>)
    requires font.width > 0 && font.height > 0 && font.width * font.height <= |chunk|
    requires |draws| == |font.chars|
    ensures r.None? <==> font.chars == []
    ensures r.Some? ==> exists i :: (0 <= i < |font.chars| && font.chars[i].value == r.value
      && IsLastMax(IntendedDirectionIntensityScores(font, ChunkDirectionOf(chunk, font.width, font.height),
                                                    Sum(chunk), sqrt, draws, noiseScale), i))
  {
    if font.chars == [] then None
    else
      var scores := IntendedDirectionIntensityScores(font, ChunkDirectionOf(chunk, font.width, font.height),
                                                     Sum(chunk), sqrt, draws, noiseScale);
      Some(font.chars[ArgMaxLast(scores)].value)
  }

  /** Between two glyphs of the same intensity, the closer one scores at least as high. */
  lemma CloserDirectionScoresHigher(font: GlyphFont, dir: (real, real), intensity: real, near: Glyph, far: Glyph,
                                    sqrt: real -> real)
    requires near.intensity == far.intensity
    requires Distance(dir, near, sqrt) <= Distance(dir, far, sqrt)
    ensures IntendedDirectionIntensityScore(font, dir, intensity, far, sqrt)
         <= IntendedDirectionIntensityScore(font, dir, intensity, near, sqrt)
    ensures Distance(dir, near, sqrt) < Distance(dir, far, sqrt)
        ==> (IntendedDirectionIntensityScore(font, dir, intensity, far, sqrt)
             < IntendedDirectionIntensityScore(font, dir, intensity, near, sqrt))
  {
    var p := IntensityPenalty(intensity, near);
    assert p == IntensityPenalty(intensity, far);
    var a := IntendedDirectionIntensityScore(font, dir, intensity, far, sqrt);
    var b := IntendedDirectionIntensityScore(font, dir, intensity, near, sqrt);
    QuotientOrder(a, b, p);
  }

  /** On the inputs of FarGlyphChosen the corrected score picks the closer glyph. */
  lemma NearGlyphChosen(font: GlyphFont, chunk: seq<real>, sqrt: real -> real, draws: seq<real>)
    requires font.width > 0 && font.height > 0 && font.width * font.height <= |chunk|
    requires |font.chars| == 2 && |draws| == 2 && font.chars[0].intensity == font.chars[1].intensity
    requires var dir := ChunkDirectionOf(chunk, font.width, font.height);
      Distance(dir, font.chars[1], sqrt) < Distance(dir, font.chars[0], sqrt)
    ensures IntendedDirectionAndIntensityConvert(font, chunk, sqrt, draws, 0.0) == Some(font.chars[1].value)
  {
    var dir := ChunkDirectionOf(chunk, font.width, font.height);
    var scores := IntendedDirectionIntensityScores(font, dir, Sum(chunk), sqrt, draws, 0.0);
    CloserDirectionScoresHigher(font, dir, Sum(chunk), font.chars[1], font.chars[0], sqrt);
    assert Noise(draws, 0.0, 0) == 0.0 && Noise(draws, 0.0, 1) == 0.0;
    assert scores[0] < scores[1];
    ArgMaxLastOfTwo(scores);
  }

  // ---------------------------------------------------------------------------------------
  // get_converter and get_conversion_algorithm

  /** The converters `get_converter` can return. */
  datatype ConverterKind = Dot | Jaccard | Occlusion | Color | Clear | Fast | DirectionAndIntensity | Direction

  /** The name each converter is selected by; `"grad"` is a second name for DirectionAndIntensity. */
  function ConverterName(k: ConverterKind): string {
    match k
    case Dot => "dot"
    case Jaccard => "jaccard"
    case Occlusion => "occlusion"
    case Color => "color"
    case Clear => "clear"
    case Fast => "fast"
    case DirectionAndIntensity => "direction-and-intensity"
    case Direction => "direction"
  }

  /** The names `get_converter` accepts. */
  const ConverterNames: set<string> :=
    {"dot", "jaccard", "occlusion", "color", "clear", "fast", "grad", "direction", "direction-and-intensity"}

  /** `get_converter`: the converter named by `metric`; None (a panic) for any other name. */
  function GetConverter(metric: string): (r: Option<ConverterKind>)
    ensures r.Some? <==> metric in ConverterNames
    ensures r.Some? ==> ConverterName(r.value) == metric || (metric == "grad" && r.value == DirectionAndIntensity)
  {
    match metric
    case "dot" => Some(Dot)
    case "jaccard" => Some(Jaccard)
    case "occlusion" => Some(Occlusion)
    case "color" => Some(Color)
    case "clear" => Some(Clear)
    case "fast" => Some(Fast)
    case "grad" => Some(DirectionAndIntensity)
    case "direction" => Some(Direction)
    case "direction-and-intensity" => Some(DirectionAndIntensity)
    case _ => None
  }

  /** Every converter is found again under its name, and `"grad"` is the same converter as `"direction-and-intensity"`. */
  lemma GetConverterRoundTrip(k: ConverterKind)
    ensures GetConverter(ConverterName(k)) == Some(k)
    ensures GetConverter("grad") == GetConverter("direction-and-intensity")
  {
  }

  /** The three conversion pipelines of `img_to_char_rows`. */
  datatype ConversionAlgorithm = Base | Edge | TwoPass

  function AlgorithmName(a: ConversionAlgorithm): string {
    match a
    case Base => "base"
    case Edge => "edge"
    case TwoPass => "two-pass"
  }

  /** `get_conversion_algorithm`: the algorithm named by `algorithm`; None (a panic) otherwise. */
  function GetConversionAlgorithm(algorithm: string): (r: Option<ConversionAlgorithm>)
    ensures r.Some? <==> algorithm in {"base", "edge", "two-pass"}
    ensures r.Some? ==> AlgorithmName(r.value) == algorithm
  {
    match algorithm
    case "base" => Some(Base)
    case "edge" => Some(Edge)
    case "two-pass" => Some(TwoPass)
    case _ => None
  }

  lemma GetConversionAlgorithmRoundTrip(a: ConversionAlgorithm)
    ensures GetConversionAlgorithm(AlgorithmName(a)) == Some(a)
  {
  }

  // ---------------------------------------------------------------------------------------
  // pixels_to_chunks

  /**
   * How a buffer of the given width is cut: chunkWidth × chunkHeight chunks, `rows` of them
   * down and `columns` across.
   */
  datatype Geometry = Geometry(width: nat, chunkWidth: nat, chunkHeight: nat, rows: nat, columns: nat) {
    /**
     * One past the last pixel the loops read: the end of the last line of the last chunk
     * (nothing is read when there are no chunks, or they have no lines).
     */
    function ReadEnd(): nat {
      if rows == 0 || columns == 0 || chunkHeight == 0 then 0
      else width * (chunkHeight * (rows - 1) + chunkHeight - 1) + chunkWidth * columns
    }
  }

  /**
   * The cut `pixels_to_chunks` makes of a width × height buffer: only full chunks, so a
   * partial band at the bottom and one at the right are dropped.
   */
  function Cut(width: nat, height: nat, chunkWidth: nat, chunkHeight: nat): (g: Geometry)
    requires chunkWidth > 0 && chunkHeight > 0
    ensures g.rows * chunkHeight <= height < g.rows * chunkHeight + chunkHeight
    ensures g.columns * chunkWidth <= width < g.columns * chunkWidth + chunkWidth
  {
    Geometry(width, chunkWidth, chunkHeight, height / chunkHeight, width / chunkWidth)
  }

  /** Every pixel the loops read lies inside a width × height buffer. */
  lemma ReadEndWithin(width: nat, height: nat, chunkWidth: nat, chunkHeight: nat)
    requires chunkWidth > 0 && chunkHeight > 0
    ensures Cut(width, height, chunkWidth, chunkHeight).ReadEnd() <= width * height
  {
    var g := Cut(width, height, chunkWidth, chunkHeight);
    if g.rows > 0 && g.columns > 0 {
      var last := chunkHeight * (g.rows - 1) + chunkHeight - 1;
      assert last <= height - 1;
      MulLe(width, last, height - 1);
    }
  }

  /** Where line `line` of the chunk in chunk row r and chunk column c starts in the buffer. */
  function LineStart(g: Geometry, r: nat, c: nat, line: nat): nat {
    g.width * (g.chunkHeight * r + line) + g.chunkWidth * c
  }

  /** The slice of pixels that is line `line` of the chunk in chunk row r and chunk column c. */
  function ChunkLine(pixels: seq<real>, g: Geometry, r: nat, c: nat, line: nat): (s: seq<real>)
    requires g.ReadEnd() <= |pixels|
    requires r < g.rows && c < g.columns && line < g.chunkHeight
    ensures |s| == g.chunkWidth
  {
    LineInBounds(g, r, c, line);
    pixels[LineStart(g, r, c, line) .. LineStart(g, r, c, line) + g.chunkWidth]
  }

  lemma LineInBounds(g: Geometry, r: nat, c: nat, line: nat)
    requires r < g.rows && c < g.columns && line < g.chunkHeight
    ensures LineStart(g, r, c, line) + g.chunkWidth <= g.ReadEnd()
  {
    MulLe(g.chunkHeight, r, g.rows - 1);
    MulLe(g.width, g.chunkHeight * r + line, g.chunkHeight * (g.rows - 1) + g.chunkHeight - 1);
    MulLe(g.chunkWidth, c + 1, g.columns);
  }

  /** The first n lines of a chunk. */
  function ChunkLines(pixels: seq<real>, g: Geometry, r: nat, c: nat, n: nat): (lines: seq<seq<real>>)
    requires g.ReadEnd() <= |pixels|
    requires r < g.rows && c < g.columns && n <= g.chunkHeight
    ensures |lines| == n && Uniform(lines, g.chunkWidth)
  {
    seq(n, line requires 0 <= line < n => ChunkLine(pixels, g, r, c, line))
  }

  /** The chunk in chunk row r and chunk column c: its lines, top to bottom, concatenated. */
  function Chunk(pixels: seq<real>, g: Geometry, r: nat, c: nat): seq<real>
    requires g.ReadEnd() <= |pixels|
    requires r < g.rows && c < g.columns
  {
    Flatten(ChunkLines(pixels, g, r, c, g.chunkHeight))
  }

  /** The chunks of chunk row r, left to right. */
  function ChunkRow(pixels: seq<real>, g: Geometry, r: nat): (row: seq<seq<real>>)
    requires g.ReadEnd() <= |pixels| && r < g.rows
    ensures |row| == g.columns
  {
    seq(g.columns, c requires 0 <= c < g.columns => Chunk(pixels, g, r, c))
  }

  /** The first n chunk rows. */
  function ChunkRows(pixels: seq<real>, g: Geometry, n: nat): (rows: seq<seq<seq<real>>>)
    requires g.ReadEnd() <= |pixels| && n <= g.rows
    ensures |rows| == n
  {
    seq(n, r requires 0 <= r < n => ChunkRow(pixels, g, r))
  }

  /** All chunks in row-major chunk order: what `pixels_to_chunks` returns. */
  function Chunks(pixels: seq<real>, g: Geometry): (chunks: seq<seq<real>>)
    requires g.ReadEnd() <= |pixels|
    ensures |chunks| == g.columns * g.rows
  {
    var rows := ChunkRows(pixels, g, g.rows);
    assert Uniform(rows, g.columns);
    FlattenLength(rows, g.columns);
    Flatten(rows)
  }

  /**
   * `pixels_to_chunks`: walks the buffer chunk row by chunk row and, inside one, line by line,
   * appending each line's slice to the chunk it belongs to, with running offsets in place of
   * multiplications.
   */
  method PixelsToChunks(pixels: seq<real>, width: nat, height: nat, chunkWidth: nat, chunkHeight: nat)
    returns (chunks: seq<seq<real>>)
    requires chunkWidth > 0 && chunkHeight > 0
    requires Cut(width, height, chunkWidth, chunkHeight).ReadEnd() <= |pixels|
    ensures chunks == Chunks(pixels, Cut(width, height, chunkWidth, chunkHeight))
  {
    var g := Cut(width, height, chunkWidth, chunkHeight);
    var verticalChunks, horizontalChunks := g.rows, g.columns;
    chunks := [];
    var yOffset := 0;
    var cy := 0;
    while cy < verticalChunks
      invariant cy <= verticalChunks
      invariant yOffset == width * (chunkHeight * cy)
      invariant chunks == Flatten(ChunkRows(pixels, g, cy))
    {
      var chunkRow: seq<seq<real>> := seq(horizontalChunks, _ => []);
      var line := 0;
      while line < chunkHeight
        invariant line <= chunkHeight
        invariant yOffset == width * (chunkHeight * cy + line)
        invariant |chunkRow| == horizontalChunks
        invariant forall c :: 0 <= c < horizontalChunks ==> chunkRow[c] == Flatten(ChunkLines(pixels, g, cy, c, line))
      {
        chunkRow := AppendChunkLines(pixels, g, cy, line, yOffset, chunkRow);
        StepMul(width, chunkHeight * cy + line);
        yOffset := yOffset + width;
        line := line + 1;
      }
      assert chunkRow == ChunkRow(pixels, g, cy);
      ChunkRowsStep(pixels, g, cy);
      assert chunkHeight * cy + chunkHeight == chunkHeight * (cy + 1);
      chunks := chunks + chunkRow;
      cy := cy + 1;
    }
  }

  /**
   * One pass of the innermost loop of `pixels_to_chunks`: line `line` of every chunk in chunk
   * row cy, read from the buffer row starting at yOffset, is appended to that chunk.
   */
  method AppendChunkLines(pixels: seq<real>, g: Geometry, cy: nat, line: nat, yOffset: nat,
                          chunkRow: seq<seq<real>>) returns (next: seq<seq<real>>)
    requires g.ReadEnd() <= |pixels| && cy < g.rows && line < g.chunkHeight
    requires yOffset == g.width * (g.chunkHeight * cy + line)
    requires |chunkRow| == g.columns
    requires forall c :: 0 <= c < |chunkRow| ==> chunkRow[c] == Flatten(ChunkLines(pixels, g, cy, c, line))
    ensures |next| == |chunkRow|
    ensures forall c :: 0 <= c < |next| ==> next[c] == Flatten(ChunkLines(pixels, g, cy, c, line + 1))
  {
    var horizontalChunks := g.columns;
    next := chunkRow;
    var xOffset := 0;
    var x := 0;
    while x < horizontalChunks
      invariant x <= horizontalChunks && xOffset == g.chunkWidth * x
      invariant |next| == horizontalChunks
      invariant forall c :: 0 <= c < x ==> next[c] == Flatten(ChunkLines(pixels, g, cy, c, line + 1))
      invariant forall c :: x <= c < horizontalChunks ==> next[c] == Flatten(ChunkLines(pixels, g, cy, c, line))
    {
      var start := yOffset + xOffset;
      assert start == LineStart(g, cy, x, line);
      LineInBounds(g, cy, x, line);
      ChunkLinesStep(pixels, g, cy, x, line);
      next := next[x := next[x] + pixels[start .. start + g.chunkWidth]];
      StepMul(g.chunkWidth, x);
      xOffset := xOffset + g.chunkWidth;
      x := x + 1;
    }
  }

  /** Adding a line to a chunk appends that line's slice. */
  lemma ChunkLinesStep(pixels: seq<real>, g: Geometry, r: nat, c: nat, line: nat)
    requires g.ReadEnd() <= |pixels|
    requires r < g.rows && c < g.columns && line < g.chunkHeight
    ensures Flatten(ChunkLines(pixels, g, r, c, line + 1))
         == Flatten(ChunkLines(pixels, g, r, c, line)) + ChunkLine(pixels, g, r, c, line)
  {
    assert ChunkLines(pixels, g, r, c, line + 1) == ChunkLines(pixels, g, r, c, line) + [ChunkLine(pixels, g, r, c, line)];
    FlattenAppend(ChunkLines(pixels, g, r, c, line), ChunkLine(pixels, g, r, c, line));
  }

  lemma ChunkRowsStep(pixels: seq<real>, g: Geometry, n: nat)
    requires g.ReadEnd() <= |pixels| && n < g.rows
    ensures Flatten(ChunkRows(pixels, g, n + 1)) == Flatten(ChunkRows(pixels, g, n)) + ChunkRow(pixels, g, n)
  {
    assert ChunkRows(pixels, g, n + 1) == ChunkRows(pixels, g, n) + [ChunkRow(pixels, g, n)];
    FlattenAppend(ChunkRows(pixels, g, n), ChunkRow(pixels, g, n));
  }

  lemma FactorPositive(a: nat, b: nat)
    requires a * b > 0
    ensures a > 0
  {
  }

  /** Euclidean division recovers the row and column of a flat index k < w·n. */
  lemma DivModSplit(k: nat, w: nat, n: nat)
    requires w > 0 && k < w * n
    ensures k / w < n && k % w < w && k == w * (k / w) + k % w
  {
    if k / w >= n {
      MulLe(w, n, k / w);
    }
  }

  /** Chunk columns·r + c of the result is the chunk in chunk row r and chunk column c. */
  lemma ChunkAt(pixels: seq<real>, g: Geometry, r: nat, c: nat)
    requires g.ReadEnd() <= |pixels| && r < g.rows && c < g.columns
    ensures g.columns * r + c < |Chunks(pixels, g)|
    ensures Chunks(pixels, g)[g.columns * r + c] == Chunk(pixels, g, r, c)
  {
    var rows := ChunkRows(pixels, g, g.rows);
    assert Uniform(rows, g.columns);
    FlattenUniformAt(rows, g.columns, r, c);
  }

  /** Every chunk holds chunkWidth · chunkHeight pixels. */
  lemma ChunkLength(pixels: seq<real>, g: Geometry, r: nat, c: nat)
    requires g.ReadEnd() <= |pixels| && r < g.rows && c < g.columns
    ensures |Chunk(pixels, g, r, c)| == g.chunkWidth * g.chunkHeight
  {
    FlattenLength(ChunkLines(pixels, g, r, c, g.chunkHeight), g.chunkWidth);
  }

  /** There are exactly Rows · Columns chunks, of chunkWidth · chunkHeight pixels each. */
  lemma ChunksShape(pixels: seq<real>, g: Geometry)
    requires g.chunkWidth > 0 && g.chunkHeight > 0 && g.ReadEnd() <= |pixels|
    ensures |Chunks(pixels, g)| == g.rows * g.columns
    ensures forall i :: 0 <= i < |Chunks(pixels, g)| ==> |Chunks(pixels, g)[i]| == g.chunkWidth * g.chunkHeight
  {
    var rows := ChunkRows(pixels, g, g.rows);
    assert Uniform(rows, g.columns);
    if g.rows > 0 {
      FlattenUniform(rows, g.columns, 0);
    }
    forall i | 0 <= i < |Chunks(pixels, g)|
      ensures |Chunks(pixels, g)[i]| == g.chunkWidth * g.chunkHeight
    {
      FactorPositive(g.columns, g.rows);
      DivModSplit(i, g.columns, g.rows);
      ChunkAt(pixels, g, i / g.columns, i % g.columns);
      ChunkLength(pixels, g, i / g.columns, i % g.columns);
    }
  }

  /**
   * Element chunkWidth·line + t of chunk Columns·r + c is the pixel in buffer row
   * chunkHeight·r + line and buffer column chunkWidth·c + t.
   */
  lemma ChunkElement(pixels: seq<real>, g: Geometry, r: nat, c: nat, line: nat, t: nat)
    requires g.ReadEnd() <= |pixels|
    requires r < g.rows && c < g.columns && line < g.chunkHeight && t < g.chunkWidth
    ensures g.columns * r + c < |Chunks(pixels, g)|
    ensures g.chunkWidth * line + t < |Chunks(pixels, g)[g.columns * r + c]|
    ensures LineStart(g, r, c, line) + t < |pixels|
    ensures Chunks(pixels, g)[g.columns * r + c][g.chunkWidth * line + t] == pixels[LineStart(g, r, c, line) + t]
  {
    ChunkAt(pixels, g, r, c);
    var lines := ChunkLines(pixels, g, r, c, g.chunkHeight);
    FlattenUniformAt(lines, g.chunkWidth, line, t);
    assert LineStart(g, r, c, line) + g.chunkWidth <= |pixels| by {
      LineInBounds(g, r, c, line);
    }
    assert lines[line][t] == pixels[LineStart(g, r, c, line) + t];
  }

  /** A 5 × 3 buffer cut into 2 × 2 chunks has one chunk row of two chunks, read up to pixel 9. */
  lemma SmallGeometry()
    ensures Cut(5, 3, 2, 2) == Geometry(5, 2, 2, 1, 2)
    ensures Geometry(5, 2, 2, 1, 2).ReadEnd() == 9
  {
  }

  /**
   * Cutting a 5 × 3 buffer into 2 × 2 chunks gives two chunks; the last column and the last
   * row are dropped, and the second chunk is pixels 2, 3 of the first row and 7, 8 of the second.
   */
  lemma PartialChunksDropped(pixels: seq<real>, g: Geometry)
    requires g == Cut(5, 3, 2, 2) && |pixels| == 15
    ensures g.ReadEnd() == 9
    ensures |Chunks(pixels, g)| == 2
    ensures Chunks(pixels, g)[1] == [pixels[2], pixels[3], pixels[7], pixels[8]]
  {
    SmallGeometry();
    ChunksShape(pixels, g);
    var chunk := Chunks(pixels, g)[1];
    ChunkElement(pixels, g, 0, 1, 0, 0);
    ChunkElement(pixels, g, 0, 1, 0, 1);
    ChunkElement(pixels, g, 0, 1, 1, 0);
    ChunkElement(pixels, g, 0, 1, 1, 1);
    assert LineStart(g, 0, 1, 0) == 2 && LineStart(g, 0, 1, 1) == 7;
    assert |chunk| == 4;
  }

  // ---------------------------------------------------------------------------------------
  // chunks_to_chars

  /** Every chunk converted, in order: what the single-threaded branch computes. */
  function Converted(convert: seq<real> -> char, chunks: seq<seq<real>>): (cs: seq<char>)
    ensures |cs| == |chunks|
    ensures forall i :: 0 <= i < |chunks| ==> cs[i] == convert(chunks[i])
  {
    seq(|chunks|, i requires 0 <= i < |chunks| => convert(chunks[i]))
  }

  lemma ConvertedConcat(convert: seq<real> -> char, a: seq<seq<real>>, b: seq<seq<real>>)
    ensures Converted(convert, a + b) == Converted(convert, a) + Converted(convert, b)
  {
  }

  /** The number of chunks each worker thread is given. */
  function ChunkLen(count: nat, threads: nat): nat
    requires threads > 0
  {
    count / threads + 1
  }

  /** Thread i's slice starts at i·len, clamped into the chunk list. */
  function SliceStart(count: nat, threads: nat, i: nat): nat
    requires threads > 0
  {
    if i * ChunkLen(count, threads) <= count then i * ChunkLen(count, threads) else count
  }

  /** Thread i's slice ends at (i+1)·len, clamped into the chunk list, as `min` does. */
  function SliceEnd(count: nat, threads: nat, i: nat): nat
    requires threads > 0
  {
    if (i + 1) * ChunkLen(count, threads) <= count then (i + 1) * ChunkLen(count, threads) else count
  }

  /** Every slice start lies inside the chunk list, so no slice expression panics. */
  predicate SlicesFit(count: nat, threads: nat)
    requires threads > 0
  {
    (threads - 1) * ChunkLen(count, threads) <= count
  }

  /**
   * Exactly which inputs make the slices fit: with q = count / threads and r = count % threads,
   * the last start (threads - 1) · (q + 1) stays within the list iff threads - 1 <= q + r.
   */
  lemma SlicesFitClosedForm(count: nat, threads: nat)
    requires threads > 0
    ensures SlicesFit(count, threads) <==> threads - 1 <= count / threads + count % threads
  {
    var q, r := count / threads, count % threads;
    assert count == threads * q + r;
    assert (threads - 1) * (q + 1) == threads * q + threads - q - 1;
  }

  /** The threads between them are given at least every chunk. */
  lemma ThreadsCoverAll(count: nat, threads: nat)
    requires threads > 0
    ensures threads * ChunkLen(count, threads) > count
  {
    assert count == threads * (count / threads) + count % threads;
    assert threads * ChunkLen(count, threads) == threads * (count / threads) + threads;
  }

  /** The characters worker i produces: its clamped slice of chunks, converted. */
  function WorkerOutput(convert: seq<real> -> char, chunks: seq<seq<real>>, threads: nat, i: nat): seq<char>
    requires threads > 0
  {
    Converted(convert, chunks[SliceStart(|chunks|, threads, i) .. SliceEnd(|chunks|, threads, i)])
  }

  /** Consecutive slices meet: each ends where the next begins. */
  lemma SliceEndIsNextStart(count: nat, threads: nat, i: nat)
    requires threads > 0
    ensures SliceStart(count, threads, i) <= SliceEnd(count, threads, i) <= count
    ensures SliceEnd(count, threads, i) == SliceStart(count, threads, i + 1)
  {
    var len := ChunkLen(count, threads);
    assert (i + 1) * len == i * len + len;
  }

  /** Any m worker outputs, concatenated in thread order, are the first chunks converted. */
  lemma {:induction false} SlicesCover(convert: seq<real> -> char, chunks: seq<seq<real>>, threads: nat,
                                       parts: seq<seq<char>>)
    requires 0 < threads && |parts| <= threads
    requires forall k :: 0 <= k < |parts| ==> parts[k] == WorkerOutput(convert, chunks, threads, k)
    ensures SliceStart(|chunks|, threads, |parts|) <= |chunks|
    ensures Flatten(parts) == Converted(convert, chunks[..SliceStart(|chunks|, threads, |parts|)])
    decreases |parts|
  {
    var n, m := |chunks|, |parts|;
    if m > 0 {
      var prev := parts[..m - 1];
      SlicesCover(convert, chunks, threads, prev);
      var a, b := SliceStart(n, threads, m - 1), SliceEnd(n, threads, m - 1);
      SliceEndIsNextStart(n, threads, m - 1);
      assert chunks[..b] == chunks[..a] + chunks[a..b];
      ConvertedConcat(convert, chunks[..a], chunks[a..b]);
      assert Flatten(parts) == Flatten(prev) + parts[m - 1];
    }
  }

  /** Each worker's message: its index and its slice's characters. */
  type Message = (nat, seq<char>)

  /** Keys strictly increase along s. */
  predicate KeysSorted(s: seq<Message>) {
    forall i, j :: 0 <= i < j < |s| ==> s[i].0 < s[j].0
  }

  /** No two messages share a key. */
  predicate KeysDistinct(s: seq<Message>) {
    forall i, j :: 0 <= i < j < |s| ==> s[i].0 != s[j].0
  }

  /**
   * Insertion of one message into a key-sorted list. `char_vecs.sort()` orders the pairs
   * lexicographically; their keys are distinct, so the key alone decides.
   */
  function InsertByKey(m: Message, s: seq<Message>): seq<Message> {
    if s == [] then [m]
    else if m.0 <= s[0].0 then [m] + s
    else [s[0]] + InsertByKey(m, s[1..])
  }

  function SortByKey(s: seq<Message>): seq<Message> {
    if s == [] then [] else InsertByKey(s[0], SortByKey(s[1..]))
  }

  lemma {:induction false} InsertByKeySorted(m: Message, s: seq<Message>)
    requires KeysSorted(s) && forall k :: 0 <= k < |s| ==> s[k].0 != m.0
    ensures |InsertByKey(m, s)| == |s| + 1 && KeysSorted(InsertByKey(m, s))
    ensures forall e :: e in InsertByKey(m, s) <==> e == m || e in s
  {
    if s != [] && m.0 > s[0].0 {
      InsertByKeySorted(m, s[1..]);
      var rest := InsertByKey(m, s[1..]);
      forall k | 0 <= k < |rest|
        ensures s[0].0 < rest[k].0
      {
        if rest[k] != m {
          assert rest[k] in s[1..];
        }
      }
      assert InsertByKey(m, s) == [s[0]] + rest;
      assert s == [s[0]] + s[1..];
    }
  }

  /** The sort keeps exactly the messages it is given and orders them by key. */
  lemma {:induction false} SortByKeySorted(s: seq<Message>)
    requires KeysDistinct(s)
    ensures |SortByKey(s)| == |s| && KeysSorted(SortByKey(s))
    ensures forall e :: e in SortByKey(s) <==> e in s
  {
    if s != [] {
      assert KeysDistinct(s[1..]);
      SortByKeySorted(s[1..]);
      var rest := SortByKey(s[1..]);
      forall k | 0 <= k < |rest|
        ensures rest[k].0 != s[0].0
      {
        assert rest[k] in s[1..];
        var j :| 0 <= j < |s[1..]| && s[1..][j] == rest[k];
        assert s[j + 1] == rest[k];
      }
      InsertByKeySorted(s[0], rest);
      assert s == [s[0]] + s[1..];
    }
  }

  lemma {:induction false} KeysFromBelow(s: seq<Message>, k: nat)
    requires KeysSorted(s) && k < |s|
    ensures s[k].0 >= k
  {
    if k > 0 {
      KeysFromBelow(s, k - 1);
    }
  }

  lemma {:induction false} KeysFromAbove(s: seq<Message>, k: nat)
    requires KeysSorted(s) && k < |s| && forall i :: 0 <= i < |s| ==> s[i].0 < |s|
    ensures s[k].0 <= k
    decreases |s| - k
  {
    if k + 1 < |s| {
      KeysFromAbove(s, k + 1);
    }
  }

  /** n messages with strictly increasing keys below n carry the keys 0, 1, …, n - 1. */
  lemma KeysAreIndices(s: seq<Message>)
    requires KeysSorted(s) && forall i :: 0 <= i < |s| ==> s[i].0 < |s|
    ensures forall k :: 0 <= k < |s| ==> s[k].0 == k
  {
    forall k | 0 <= k < |s|
      ensures s[k].0 == k
    {
      KeysFromBelow(s, k);
      KeysFromAbove(s, k);
    }
  }

  /** The order in which n workers' messages reach the receiver: a permutation of 0 .. n - 1. */
  predicate IsArrivalOrder(arrival: seq<nat>, n: nat) {
    |arrival| == n
    && (forall j :: 0 <= j < n ==> arrival[j] < n)
    && (forall j, k :: 0 <= j < k < n ==> arrival[j] != arrival[k])
  }

  /**
   * The receiving half of `chunks_to_chars`: collects the workers' messages in the order they
   * arrive, sorts them by worker index and concatenates their characters. Whatever the
   * arrival order, the result is the workers' outputs in worker order.
   */
  method Reassemble(sent: seq<seq<char>>, arrival: seq<nat>) returns (chars: seq<char>)
    requires IsArrivalOrder(arrival, |sent|)
    ensures chars == Flatten(sent)
  {
    var received: seq<Message> := [];
    var j := 0;
    while j < |arrival|
      invariant j <= |arrival| && |received| == j
      invariant forall k :: 0 <= k < j ==> received[k] == (arrival[k], sent[arrival[k]])
    {
      received := received + [(arrival[j], sent[arrival[j]])];
      j := j + 1;
    }
    assert KeysDistinct(received);
    SortByKeySorted(received);
    var sorted := SortByKey(received);
    forall i | 0 <= i < |sorted|
      ensures sorted[i].0 < |sorted| && sorted[i].1 == sent[sorted[i].0]
    {
      assert sorted[i] in received;
      var k :| 0 <= k < |received| && received[k] == sorted[i];
    }
    KeysAreIndices(sorted);
    chars := [];
    var k := 0;
    while k < |sorted|
      invariant k <= |sorted| && chars == Flatten(sent[..k])
    {
      assert sent[..k + 1] == sent[..k] + [sent[k]];
      FlattenAppend(sent[..k], sent[k]);
      chars := chars + sorted[k].1;
      k := k + 1;
    }
    assert sent[..k] == sent;
  }

  /** A slice start that fits is i·len, and the slice then ends at i·len + len clamped. */
  lemma WorkerSlice(convert: seq<real> -> char, chunks: seq<seq<real>>, threads: nat, i: nat)
    requires threads > 0 && i * ChunkLen(|chunks|, threads) <= |chunks|
    ensures var (start, len) := (i * ChunkLen(|chunks|, threads), ChunkLen(|chunks|, threads));
      WorkerOutput(convert, chunks, threads, i)
      == Converted(convert, chunks[start .. if start + len <= |chunks| then start + len else |chunks|])
  {
    StepMul(ChunkLen(|chunks|, threads), i);
  }

  /** Slice starts grow with the thread index. */
  lemma StartsIncrease(len: nat, i: nat, j: nat)
    requires i <= j
    ensures i * len <= j * len
  {
    MulLe(len, i, j);
  }

  /**
   * The spawning loop of `chunks_to_chars`: slices the chunk list for each thread in turn, the
   * slice expression panicking (the error, carrying the thread index) once a start lies past
   * the end; otherwise the outputs of all the workers, in worker order.
   */
  method SpawnWorkers(chunks: seq<seq<real>>, convert: seq<real> -> char, threads: nat)
    returns (r: Result<seq<seq<char>>, nat>)
    requires threads > 1
    ensures r.Err? <==> !SlicesFit(|chunks|, threads)
    ensures r.Err? ==> r.error < threads && r.error * ChunkLen(|chunks|, threads) > |chunks|
                       && forall i :: 0 <= i < r.error ==> i * ChunkLen(|chunks|, threads) <= |chunks|
    ensures r.Ok? ==> |r.value| == threads
                      && forall k :: 0 <= k < threads ==> r.value[k] == WorkerOutput(convert, chunks, threads, k)
  {
    var chunkLen := |chunks| / threads + 1;
    var sent: seq<seq<char>> := [];
    var i := 0;
    while i < threads
      invariant i <= threads && |sent| == i && chunkLen == ChunkLen(|chunks|, threads)
      invariant forall k :: 0 <= k < i ==> k * chunkLen <= |chunks|
      invariant forall k :: 0 <= k < i ==> sent[k] == WorkerOutput(convert, chunks, threads, k)
    {
      var start := i * chunkLen;
      if start > |chunks| {
        StartsIncrease(chunkLen, i, threads - 1);
        return Err(i);
      }
      var end := if start + chunkLen <= |chunks| then start + chunkLen else |chunks|;
      WorkerSlice(convert, chunks, threads, i);
      sent := sent + [Converted(convert, chunks[start .. end])];
      i := i + 1;
    }
    r := Ok(sent);
  }

  /**
   * `chunks_to_chars`. With more than one thread the chunk list is cut into one slice of
   * ChunkLen chunks per thread; the slice expression for thread i panics when i · ChunkLen lies
   * past the end of the list, which is the error, carrying the first such i. Otherwise the
   * result is every chunk converted, in order, whatever order the workers finish in.
   */
  method ChunksToChars(chunks: seq<seq<real>>, convert: seq<real> -> char, threads: nat, arrival: seq<nat>)
    returns (r: Result<seq<char>, nat>)
    requires threads > 1 ==> IsArrivalOrder(arrival, threads)
    ensures r.Err? <==> threads > 1 && !SlicesFit(|chunks|, threads)
    ensures r.Err? ==> r.error < threads && r.error * ChunkLen(|chunks|, threads) > |chunks|
                       && forall i :: 0 <= i < r.error ==> i * ChunkLen(|chunks|, threads) <= |chunks|
    ensures r.Ok? ==> r.value == Converted(convert, chunks)
  {
    if threads > 1 {
      var spawned := SpawnWorkers(chunks, convert, threads);
      if spawned.Err? {
        return Err(spawned.error);
      }
      var sent := spawned.value;
      ThreadsCoverAll(|chunks|, threads);
      SlicesCover(convert, chunks, threads, sent);
      assert chunks[..SliceStart(|chunks|, threads, threads)] == chunks;
      var chars := Reassemble(sent, arrival);
      r := Ok(chars);
    } else {
      r := Ok(Converted(convert, chunks));
    }
  }

  /**
   * Five chunks on four threads: each slice is 5 / 4 + 1 = 2 chunks long, and thread 3's slice
   * would start at 6, past the end of the list, so `chunks_to_chars` panics.
   */
  lemma FiveChunksFourThreadsPanic()
    ensures ChunkLen(5, 4) == 2 && 3 * ChunkLen(5, 4) > 5 && !SlicesFit(5, 4)
  {
  }

  /**
   * An even split can panic too: 8 chunks on 4 threads give slices of 8 / 4 + 1 = 3 chunks,
   * and thread 3's slice would start at 9.
   */
  lemma EightChunksFourThreadsPanic()
    ensures ChunkLen(8, 4) == 3 && 3 * ChunkLen(8, 4) > 8 && !SlicesFit(8, 4)
  {
  }

  /**
   * `chunks_to_chars` with every slice start clamped into the chunk list, as `min` already
   * clamps the ends: threads whose slice would start past the end get no chunks, and the
   * result is every chunk converted, in order, for any thread count.
   */
  method ClampedChunksToChars(chunks: seq<seq<real>>, convert: seq<real> -> char, threads: nat, arrival: seq<nat>)
    returns (chars: seq<char>)
    requires threads > 1 ==> IsArrivalOrder(arrival, threads)
    ensures chars == Converted(convert, chunks)
  {
    if threads > 1 {
      var sent: seq<seq<char>> := [];
      var i := 0;
      while i < threads
        invariant i <= threads && |sent| == i
        invariant forall k :: 0 <= k < i ==> sent[k] == WorkerOutput(convert, chunks, threads, k)
      {
        var start := SliceStart(|chunks|, threads, i);
        var end := SliceEnd(|chunks|, threads, i);
        sent := sent + [Converted(convert, chunks[start .. end])];
        i := i + 1;
      }
      ThreadsCoverAll(|chunks|, threads);
      SlicesCover(convert, chunks, threads, sent);
      assert chunks[..SliceStart(|chunks|, threads, threads)] == chunks;
      chars := Reassemble(sent, arrival);
    } else {
      chars := Converted(convert, chunks);
    }
  }

  // ---------------------------------------------------------------------------------------
  // img_to_char_rows: the TwoPass merge and the row split

  /**
   * The TwoPass merge: zipping the luma-pass and edge-pass characters, a cell takes the edge
   * character unless that is a space.
   */
  function TwoPassMerge(luma: seq<char>, edge: seq<char>): (m: seq<char>)
    ensures |m| == if |luma| <= |edge| then |luma| else |edge|
  {
    var n := if |luma| <= |edge| then |luma| else |edge|;
    seq(n, i requires 0 <= i < n => if edge[i] == ' ' then luma[i] else edge[i])
  }

  /**
   * A merged cell is blank exactly when both passes left it blank, it is the edge character
   * when that is not blank, and otherwise the luma character.
   */
  lemma TwoPassCells(luma: seq<char>, edge: seq<char>, i: nat)
    requires i < |luma| && i < |edge|
    ensures i < |TwoPassMerge(luma, edge)|
    ensures TwoPassMerge(luma, edge)[i] == ' ' <==> luma[i] == ' ' && edge[i] == ' '
    ensures edge[i] != ' ' ==> TwoPassMerge(luma, edge)[i] == edge[i]
    ensures edge[i] == ' ' ==> TwoPassMerge(luma, edge)[i] == luma[i]
  {
  }

  /** Merging the same edge pass again changes nothing. */
  lemma TwoPassIdempotent(luma: seq<char>, edge: seq<char>)
    ensures TwoPassMerge(TwoPassMerge(luma, edge), edge) == TwoPassMerge(luma, edge)
  {
  }

  /** An edge pass without edges leaves the luma pass as it is. */
  lemma TwoPassBlankEdges(luma: seq<char>, edge: seq<char>)
    requires |luma| <= |edge| && forall i :: 0 <= i < |edge| ==> edge[i] == ' '
    ensures TwoPassMerge(luma, edge) == luma
  {
  }

  /** An edge pass without blanks overrides the luma pass entirely. */
  lemma TwoPassFullEdges(luma: seq<char>, edge: seq<char>)
    requires |edge| <= |luma| && forall i :: 0 <= i < |edge| ==> edge[i] != ' '
    ensures TwoPassMerge(luma, edge) == edge
  {
  }

  /** The first n rows of width w cut from chars, row i being chars[w·i .. w·i + w]. */
  function RowSlices(chars: seq<char>, w: nat, n: nat): (rows: seq<seq<char>>)
    requires w * n <= |chars|
    ensures |rows| == n && Uniform(rows, w)
  {
    if n == 0 then []
    else
      MulLe(w, n - 1, n);
      StepMul(w, n - 1);
      RowSlices(chars, w, n - 1) + [chars[w * (n - 1) .. w * (n - 1) + w]]
  }

  lemma {:induction false} RowSlicesFlatten(chars: seq<char>, w: nat, n: nat)
    requires w * n <= |chars|
    ensures Flatten(RowSlices(chars, w, n)) == chars[..w * n]
  {
    if n > 0 {
      MulLe(w, n - 1, n);
      RowSlicesFlatten(chars, w, n - 1);
      FlattenAppend(RowSlices(chars, w, n - 1), chars[w * (n - 1) .. w * (n - 1) + w]);
      StepMul(w, n - 1);
      assert chars[..w * n] == chars[..w * (n - 1)] + chars[w * (n - 1) .. w * (n - 1) + w];
    } else {
      assert RowSlices(chars, w, 0) == [];
    }
  }

  /**
   * The row split at the end of `img_to_char_rows`: `step_by(out_width)` panics on a zero
   * width, and a slice panics when fewer than out_height · out_width characters are left;
   * otherwise out_height rows of out_width characters whose concatenation is the characters
   * up to out_height · out_width.
   */
  function SplitRows(chars: seq<char>, outWidth: nat, outHeight: nat): (r: Option<seq<seq<char>>>)
    ensures r.None? <==> outWidth == 0 || outHeight * outWidth > |chars|
    ensures r.Some? ==> |r.value| == outHeight && Uniform(r.value, outWidth)
                        && outHeight * outWidth <= |chars|
                        && Flatten(r.value) == chars[..outHeight * outWidth]
  {
    if outWidth == 0 || outHeight * outWidth > |chars| then None
    else
      RowSlicesFlatten(chars, outWidth, outHeight);
      Some(RowSlices(chars, outWidth, outHeight))
  }

  // ---------------------------------------------------------------------------------------
  // char_rows_to_string

  /** `char_rows_to_string`: the rows joined by line breaks. */
  function Join(rows: seq<seq<char>>): string
    decreases |rows|
  {
    if |rows| == 0 then ""
    else if |rows| == 1 then rows[0]
    else Join(rows[..|rows| - 1]) + "\n" + rows[|rows| - 1]
  }

  /** No row holds a line break. */
  predicate Unbroken(rows: seq<seq<char>>) {
    forall i :: 0 <= i < |rows| ==> '\n' !in rows[i]
  }

  /** Splitting at every line break, as `str::split('\n')` does: the empty string is one empty line. */
  function SplitLines(s: string): (lines: seq<string>)
    ensures |lines| >= 1
    decreases |s|
  {
    if s == [] then [[]]
    else
      var rest := SplitLines(s[..|s| - 1]);
      if s[|s| - 1] == '\n' then rest + [[]]
      else rest[..|rest| - 1] + [rest[|rest| - 1] + [s[|s| - 1]]]
  }

  /** Text without line breaks extends the last line. */
  lemma {:induction false} SplitLinesExtend(s: string, t: string)
    requires '\n' !in t
    ensures var lines := SplitLines(s);
      SplitLines(s + t) == lines[..|lines| - 1] + [lines[|lines| - 1] + t]
    decreases |t|
  {
    var lines := SplitLines(s);
    if t == [] {
      assert s + t == s;
      assert lines[|lines| - 1] + t == lines[|lines| - 1];
      assert lines == lines[..|lines| - 1] + [lines[|lines| - 1]];
    } else {
      var u := t[..|t| - 1];
      assert '\n' !in u by {
        forall k | 0 <= k < |u|
          ensures u[k] != '\n'
        {
          assert u[k] == t[k];
        }
      }
      SplitLinesExtend(s, u);
      var rest := SplitLines(s + u);
      assert rest[..|rest| - 1] == lines[..|lines| - 1];
      assert rest[|rest| - 1] == lines[|lines| - 1] + u;
      assert (s + t)[..|s + t| - 1] == s + u;
      assert (s + t)[|s + t| - 1] == t[|t| - 1];
      assert t[|t| - 1] in t;
      assert t == u + [t[|t| - 1]];
      assert lines[|lines| - 1] + u + [t[|t| - 1]] == lines[|lines| - 1] + t;
    }
  }

  lemma UnbrokenInit(rows: seq<seq<char>>)
    requires |rows| > 0 && Unbroken(rows)
    ensures Unbroken(rows[..|rows| - 1])
  {
    forall i | 0 <= i < |rows| - 1
      ensures '\n' !in rows[i]
    {
    }
  }

  /** A line break starts a new, empty line. */
  lemma SplitAtBreak(s: string)
    ensures SplitLines(s + "\n") == SplitLines(s) + [[]]
  {
    assert (s + "\n")[..|s|] == s;
  }

  /** A joined string has one line break fewer than it has rows, when no row holds one. */
  lemma {:induction false} JoinSeparators(rows: seq<seq<char>>)
    requires |rows| > 0 && Unbroken(rows)
    ensures multiset(Join(rows))['\n'] == |rows| - 1
    decreases |rows|
  {
    if |rows| == 1 {
      assert multiset(rows[0])['\n'] == 0;
    } else {
      var init := rows[..|rows| - 1];
      UnbrokenInit(rows);
      JoinSeparators(init);
      assert '\n' !in rows[|rows| - 1];
      assert multiset(rows[|rows| - 1])['\n'] == 0;
      assert multiset(Join(rows)) == multiset(Join(init)) + multiset("\n") + multiset(rows[|rows| - 1]);
    }
  }

  /** Text without line breaks is one line. */
  lemma SplitUnbroken(t: string)
    requires '\n' !in t
    ensures SplitLines(t) == [t]
  {
    SplitLinesExtend([], t);
    assert [] + t == t;
  }

  /** Splitting a joined string at its line breaks gives the rows back. */
  lemma {:induction false} SplitJoin(rows: seq<seq<char>>)
    requires |rows| > 0 && Unbroken(rows)
    ensures SplitLines(Join(rows)) == rows
    decreases |rows|
  {
    var last := rows[|rows| - 1];
    if |rows| == 1 {
      SplitUnbroken(last);
    } else {
      var init := rows[..|rows| - 1];
      var joined := Join(init);
      assert Join(rows) == (joined + "\n") + last;
      UnbrokenInit(rows);
      SplitJoin(init);
      SplitAtBreak(joined);
      var lines := SplitLines(joined + "\n");
      assert lines == init + [[]];
      SplitLinesExtend(joined + "\n", last);
      assert lines[..|lines| - 1] == init;
      assert lines[|lines| - 1] + last == last;
      InitLast(rows);
    }
  }
}
