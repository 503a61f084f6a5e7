# image-to-ascii: a verified model of the conversion engine

This project models, in Dafny, the engine that turns a grayscale picture into text. It covers:

- **Chunking** (`convert.rs`). The row-major luma buffer is cut into glyph-sized chunks using only offset arithmetic.
- **Glyph choice** (`convert.rs`). Each chunk is matched to a glyph of the font by one of the converters:
  - a score metric, over a hash map of characters;
  - the intensity lookup;
  - contour direction;
  - direction and intensity.
- **Assembly** (`convert.rs`). The chunk list is split between worker threads, and the workers' characters are put back together by worker index. The TwoPass algorithm overlays edge characters on luma characters. The characters are cut into rows and joined with line breaks.
- **The luma image** (`image.rs`), a class over a pixel array:
  - pixel access;
  - the in-place separable convolution passes, including how they read already-rewritten pixels;
  - the 2-D convolution and edge detection;
  - blur with a normalised Gaussian kernel;
  - bilinear resize with clamped sample indices;
  - the row grid and the grayscale conversions.
- **The scalar metrics** (`metrics.rs`) and the **8-lane vectorised** dot and Jaccard scores (`metrics_simd.rs`). The SIMD versions are proved equal to the scalar references.
- **Font validation** (`font.rs`). A font is accepted only when all glyphs share one height and one width.

`f32` values are exact `real`s. Randomness is an explicit input: `draws`, one value per glyph scored by the score-based converters, with noise = draw · noiseScale; `fast_convert` draws once per chunk, so `Convert.FastConvert` takes a single `draw`. The mathematical functions the source calls are parameters, each with only the property the proofs need:

- `sqrt` (`SqrtLike`);
- `powf(·, 2.4)` (`PowfInUnit`);
- the Gaussian profile (`PositiveProfile`).

Panics of public operations are modelled as the error side of `Option`/`Result`:

- `Font::new`;
- the fast lookup's index;
- the thread slicing;
- the SIMD length assertion;
- the converter and algorithm name tables;
- the row split's `step_by(0)`.

Modules, one per source file plus three helper modules:

- `Wrappers`: `Option` and `Result`.
- `RealSeqs`: sums and zips over reals.
- `Seqs`: flattening and row-major index arithmetic.
- `Metrics`, `MetricsSimd`, `Image`, `Fonts`, `Convert`: one each for the five source files.

## Model

| member | source | states |
|---|---|---|
| Convert.ArgMaxLast | src/convert.rs:118-124 | the chosen index holds a maximal score and no later index ties it: `max_by` keeps the last maximum |
| Convert.LastMaxUnique | src/convert.rs:118-124 | only one index can be the last maximum, so the choice is fully determined |
| Convert.ArgMaxLastOfTwo | src/convert.rs:118-124 | of two scores the second is chosen when it is at least the first, otherwise the first |
| Convert.ScoreMap | src/convert.rs:31-39 | the collected map has exactly the glyph characters as keys |
| Convert.ScoreMapLastWins | src/convert.rs:31-39 | a character's entry is the score plus noise of its last glyph in font order, since collecting overwrites earlier duplicates |
| Convert.ScoreMapUnfold | src/convert.rs:31-39 | collecting one more glyph sets its character to that glyph's score plus its noise and leaves the map of the earlier glyphs otherwise unchanged |
| Convert.NoiseOfPrefix | src/convert.rs:36 | the noise of glyph i depends only on the draws up to i |
| Convert.MaxKey | src/convert.rs:40-43 | the key returned is one of the keys and its score is at least every key's score |
| Convert.ScoreConvert | src/convert.rs:24-44 | None (the unwrap panic) exactly when the font has no glyphs; otherwise a character of the map whose score plus noise is maximal |
| Convert.CastToUsize | src/convert.rs:74 | `as usize` truncates: n ≤ v < n + 1 for v ≥ 0, and 0 for every v below 1 |
| Convert.CastMonotone | src/convert.rs:74 | the cast never decreases as its argument grows |
| Convert.FastConvert | src/convert.rs:71-76 | None (the index panic) exactly when ⌊Σ chunk + noise⌋ is past the intensity glyphs; otherwise that glyph's character |
| Convert.FastConvertMonotone | src/convert.rs:71-76 | without noise a brighter chunk never selects an earlier intensity glyph, and a total below 1 selects the first |
| Convert.RowStepsTelescope | src/convert.rs:81-85 | the neighbour differences along one row add up to last minus first |
| Convert.ColumnStepsTelescope | src/convert.rs:86-90 | the differences between two adjacent rows add up to the lower row's sum minus the upper row's |
| Convert.GradientsTelescope | src/convert.rs:78-94 | x_grad is the last column's sum minus the first column's; y_grad is the bottom row's sum minus the top row's |
| Convert.HorizontalGradient | src/convert.rs:81-85 | the first loop nest computes x_grad over all rows |
| Convert.VerticalGradient | src/convert.rs:86-90 | the second loop nest computes y_grad over all adjacent row pairs |
| Convert.ChunkDirection | src/convert.rs:78-94 | `chunk_direction` returns (−y_grad, x_grad) of the telescoped gradients |
| Convert.FlatChunkHasNoDirection | src/convert.rs:78-94 | a constant chunk has direction (0, 0) |
| Convert.SquaredNorm | src/convert.rs:139 | the sum of the two squared differences is non-negative and zero at the origin |
| Convert.DirectionConvert | src/convert.rs:127-152 | None (the unwrap panic) exactly when the font has no glyphs; otherwise the character of a glyph that is the last maximum of −distance + noise |
| Convert.DirectionConvertExactMatch | src/convert.rs:127-152 | without noise, a glyph whose direction equals the chunk's is chosen when no later glyph is also at distance 0 |
| Convert.IntensityPenalty | src/convert.rs:112 | the divisor 1 + (intensity − glyph intensity)² is at least 1 |
| Convert.DirectionIntensityScore | src/convert.rs:110-112 | score · penalty = max_direction + distance: the negated distance is subtracted |
| Convert.DirectionAndIntensityConvert | src/convert.rs:96-125 | None exactly when the font has no glyphs; otherwise the character of a glyph that is the last maximum of the scores plus noise |
| Convert.FartherDirectionScoresHigher | src/convert.rs:110-112 | between glyphs of equal intensity the one farther from the chunk's direction scores at least as high, and strictly higher when strictly farther |
| Convert.FarGlyphChosen | src/convert.rs:96-125 | with two glyphs of equal intensity and no noise, the glyph whose direction is FARTHER from the chunk's is returned |
| Convert.IntendedDirectionIntensityScore | src/convert.rs:110-112 | corrected score: score · penalty = max_direction − distance |
| Convert.IntendedDirectionAndIntensityConvert | src/convert.rs:96-125 | corrected converter: None exactly when there are no glyphs; otherwise the last maximum of the corrected scores plus noise |
| Convert.CloserDirectionScoresHigher | src/convert.rs:110-112 | with the corrected score, the glyph closer to the chunk's direction scores at least as high, strictly when strictly closer |
| Convert.NearGlyphChosen | src/convert.rs:96-125 | with the corrected score, two glyphs of equal intensity and no noise, the closer glyph is returned |
| Convert.GetConverter | src/convert.rs:154-167 | Some exactly for the nine accepted names; the result is the tag of the converter of that name (the model has no function from tag to converter), and "grad" is direction-and-intensity |
| Convert.GetConverterRoundTrip | src/convert.rs:154-167 | every converter's name looks up that converter, and "grad" looks up the same converter as "direction-and-intensity" |
| Convert.GetConversionAlgorithm | src/convert.rs:169-176 | Some exactly for "base", "edge" and "two-pass", and the variant's name is the argument |
| Convert.GetConversionAlgorithmRoundTrip | src/convert.rs:169-176 | every algorithm's name looks up that algorithm |
| Convert.Cut | src/convert.rs:185-187 | the chunk rows and columns are the floors of height / chunk_height and width / chunk_width |
| Convert.ReadEndWithin | src/convert.rs:194-211 | every pixel the loops read lies inside a width × height buffer |
| Convert.LineInBounds | src/convert.rs:201-203 | each line slice start..start + chunk_width ends at or before the last pixel read |
| Convert.Chunks | src/convert.rs:178-215 | the chunk list has columns · rows entries |
| Convert.PixelsToChunks | src/convert.rs:178-215 | the offset-walking loops build exactly the row-major chunk list of the cut, whose shape and elements the lemmas below give |
| Convert.AppendChunkLines | src/convert.rs:199-208 | one pass over the chunk columns appends line `line` of every chunk in the chunk row, with x_offset = chunk_width · x |
| Convert.ChunkAt | src/convert.rs:194-211 | entry columns · r + c of the list is the chunk in chunk row r and chunk column c |
| Convert.ChunkLength | src/convert.rs:185-206 | every chunk holds chunk_width · chunk_height pixels |
| Convert.ChunksShape | src/convert.rs:185-214 | there are rows · columns chunks, each of chunk_width · chunk_height pixels |
| Convert.ChunkElement | src/convert.rs:194-211 | element chunk_width · line + t of chunk columns · r + c is pixel width · (chunk_height · r + line) + chunk_width · c + t |
| Convert.SmallGeometry | src/convert.rs:185-187 | a 5 × 3 buffer cut into 2 × 2 chunks has one chunk row of two chunks, read up to pixel 9 |
| Convert.PartialChunksDropped | src/convert.rs:185-214 | that cut gives two chunks, the last column and row are dropped, and the second chunk is pixels 2, 3, 7, 8 |
| Convert.Converted | src/convert.rs:254-257 | the sequential branch converts every chunk, in order |
| Convert.ConvertedConcat | src/convert.rs:248-250 | converting a concatenation of chunk lists is concatenating their conversions |
| Convert.ThreadsCoverAll | src/convert.rs:229 | n_threads slices of length N / n_threads + 1 together reach past all N chunks |
| Convert.SliceEndIsNextStart | src/convert.rs:233 | each clamped slice lies inside the list and ends where the next slice starts |
| Convert.SlicesCover | src/convert.rs:229-233 | the outputs of workers 0..k, concatenated, are the conversion of the chunks before worker k's start |
| Convert.WorkerSlice | src/convert.rs:233-239 | when its start fits, worker i converts chunks[i · len .. min((i + 1) · len, N)] |
| Convert.InsertByKeySorted | src/convert.rs:246 | inserting a message with a fresh key into a key-sorted list keeps it sorted and adds exactly that message |
| Convert.SortByKeySorted | src/convert.rs:246 | sorting messages with distinct keys gives a key-sorted list of the same messages |
| Convert.KeysAreIndices | src/convert.rs:245-246 | a key-sorted list whose keys are below its length has key k at position k |
| Convert.Reassemble | src/convert.rs:245-250 | whatever order the messages arrive in, receiving, sorting and concatenating gives the workers' outputs in worker order |
| Convert.SpawnWorkers | src/convert.rs:229-242 | fails exactly when some worker's slice start is past the end, and reports the first such worker; otherwise returns each worker's output |
| Convert.ChunksToChars | src/convert.rs:217-261 | for a converter that always returns: a panic (Err) exactly when there is more than one thread and some slice start i · len exceeds N; otherwise the result equals the sequential conversion |
| Convert.FiveChunksFourThreadsPanic | src/convert.rs:229-233 | with 5 chunks and 4 threads the slice length is 2 and thread 3's start 6 is past the end |
| Convert.EightChunksFourThreadsPanic | src/convert.rs:229-233 | with 8 chunks and 4 threads the slice length is 3 and thread 3's start 9 is past the end |
| Convert.SlicesFitClosedForm | src/convert.rs:229-233 | with q = N / n and r = N % n, every slice start fits exactly when n − 1 ≤ q + r, so the panic happens exactly when q + r < n − 1 |
| Convert.ClampedChunksToChars | src/convert.rs:217-261 | with slice starts clamped as well, the threaded branch always equals the sequential conversion |
| Convert.TwoPassMerge | src/convert.rs:378-382 | the merged length is the shorter of the two inputs |
| Convert.TwoPassCells | src/convert.rs:378-382 | cell i is the edge character unless that is a space, then the luma character; it is a space exactly when both are |
| Convert.TwoPassIdempotent | src/convert.rs:378-382 | merging the same edge characters twice changes nothing more |
| Convert.TwoPassBlankEdges | src/convert.rs:378-382 | all-blank edge characters leave the luma characters as they are |
| Convert.TwoPassFullEdges | src/convert.rs:378-382 | edge characters without blanks replace the luma characters entirely |
| Convert.RowSlices | src/convert.rs:386-389 | the row split gives n rows of exactly w characters |
| Convert.RowSlicesFlatten | src/convert.rs:386-389 | the rows, concatenated, are the first w · n characters in order |
| Convert.SplitRows | src/convert.rs:386-389 | None (a panic) exactly when out_width is 0 or there are fewer than out_height · out_width characters; otherwise out_height rows of out_width characters whose concatenation is the first out_height · out_width characters |
| Convert.Join | src/convert.rs:392-398 | `char_rows_to_string`: the rows in order with one line break between neighbours; JoinSeparators and SplitJoin state its properties |
| Convert.JoinSeparators | src/convert.rs:392-398 | the joined string of rows without line breaks contains exactly rows − 1 line breaks |
| Convert.SplitJoin | src/convert.rs:392-398 | splitting the joined string at every line break gives back the rows |
| Fonts.MinOf | src/font.rs:27 | the minimum is one of the heights and no height is smaller |
| Fonts.MaxOf | src/font.rs:28 | the maximum is one of the heights and no height is larger |
| Fonts.MinMaxSpread | src/font.rs:27-29 | minimum and maximum agree exactly when all values do; otherwise they are a true spread of the values |
| Fonts.RowsPresent | src/font.rs:10-16 | when the glyphs share one positive height, every glyph's width is defined |
| Fonts.NewFont | src/font.rs:26-27 | an empty glyph list is refused (the unwrap panic), and only it gets that error |
| Fonts.NewFontAccepts | src/font.rs:26-50 | a font is built exactly when the glyphs share one positive height and one width; it then has every glyph's width and height and keeps the glyph list unchanged |
| Fonts.NewFontHeightMismatch | src/font.rs:27-35 | differing heights are refused as a height mismatch, whatever the widths, with the true smallest and largest height |
| Fonts.NewFontWidthMismatch | src/font.rs:36-44 | a width mismatch is reported only for glyphs of one positive height whose widths differ, with the true smallest and largest width |
| Fonts.Character.Width | src/font.rs:10-12 | the length of the first row, defined only for a glyph with a row; WidthIsFirstRow states it for every glyph |
| Fonts.Character.Height | src/font.rs:14-16 | the number of rows |
| Fonts.WidthIsFirstRow | src/font.rs:10-16 | whatever rows follow the first, the width is the first row's length and the height counts every row |
| Fonts.RaggedGlyphAccepted | src/font.rs:10-12 | a glyph with rows of different lengths is accepted, since only the first row decides its width |
| Fonts.HeightCheckedFirst | src/font.rs:27-35 | glyphs that differ in both dimensions are refused for their heights |
| Image.Pass | src/image.rs:109-152 | a convolution pass keeps the pixel count |
| Image.PassStateUntouched | src/image.rs:115-127 | positions at or after the cursor still hold their original values |
| Image.PassStateSettled | src/image.rs:115-127 | positions before the cursor already hold their final values |
| Image.PassStateSplit | src/image.rs:115-127 | mid-pass, the buffer is the finished prefix followed by the untouched suffix |
| Image.PassInPlace | src/image.rs:115-150 | the new value at (x, y) is the kernel applied to a buffer whose earlier positions hold new values and whose later positions hold old ones |
| Image.HorizontalThreeTaps | src/image.rs:115-127 | a 3-tap horizontal pass reads the already rewritten left neighbour, the old pixel and the old right neighbour, and skips taps past the row ends |
| Image.VerticalThreeTaps | src/image.rs:138-150 | a 3-tap vertical pass reads the already rewritten pixel above, the old pixel and the old pixel below, and skips taps past the top and the bottom |
| Image.SetOnlyThatSlot | src/image.rs:33-39 | after setting (x, y) the pixel there is the new value and every other pixel is unchanged |
| Image.LaplacianAt | src/image.rs:193-197 | the edge kernel gives 4 · pixel minus its four neighbours, where neighbours outside the image count as 0 |
| Image.LaplacianOfFlat | src/image.rs:193-197 | on a flat image the edge response is 0 inside and 2 · c at a corner, because the border taps are dropped |
| Image.Lerp | src/image.rs:269-271 | lerp is a at t = 0 and b at t = 1, and equals (1 − t) · a + t · b |
| Image.LerpBetween | src/image.rs:269-271 | for t in [0, 1] the interpolation stays between bounds of both ends |
| Image.SampleInside | src/image.rs:207-216 | the sample point x · (w / out) lies in [0, w), so its floor is a valid column |
| Image.ClampNext | src/image.rs:219-222 | (u + 1).min(n − 1) is a valid index, u or u + 1, and u + 1 exactly when that fits |
| Image.SourcePoint | src/image.rs:212-225 | the integer part of the sample point is a valid index, the fraction lies in [0, 1), and together they are the sample point |
| Image.SampleSame | src/image.rs:207-216 | at equal sizes the sample point of i is exactly i, with fraction 0 |
| Image.ResizeIdentity | src/image.rs:199-233 | resizing to the same size reproduces every pixel |
| Image.ResizeWithinRange | src/image.rs:199-233 | every resized value lies within the range of the source pixels |
| Image.GaussianKernel | src/image.rs:255-262 | the kernel has 2 · size + 1 taps, or none for negative sizes |
| Image.GaussianKernelSymmetric | src/image.rs:255-262 | tap i equals tap 2 · size − i |
| Image.GaussianKernelPositive | src/image.rs:255-262 | every tap is positive for a positive profile |
| Image.NormalizeF32 | src/image.rs:264-267 | undefined (division by zero) exactly for a non-empty input with zero sum; otherwise the length is kept |
| Image.NormalizeSumsToOne | src/image.rs:264-267 | normalising an input of non-zero sum gives values that sum to 1 |
| Image.BlurKernel | src/image.rs:187-188 | the blur kernel has 2 · size + 1 taps that sum to 1 |
| Image.NaiveLuma | src/image.rs:77-92 | the naive luma lies in [0, 1]: 0 for a transparent pixel and 1 for opaque white |
| Image.RgbComponentToLinear | src/image.rs:43-51 | c = component / 255, then c / 12.92 up to 0.04045 and powf((c + 0.055) / 1.055, 2.4) above; LinearInUnit and WhiteIsLinearOne state its range and its value at 255 |
| Image.LinearInUnit | src/image.rs:43-51 | the linearised channel lies in [0, 1] |
| Image.WhiteIsLinearOne | src/image.rs:43-51 | channel 255 linearises to 1 when powf(1, 2.4) is 1 |
| Image.ColorimetricLuma | src/image.rs:54-61 | the 0.2126 / 0.7152 / 0.0722 weighted sum of the linearised channels, times alpha / 255; ColorimetricLumaInUnit states its range |
| Image.ColorimetricLumaInUnit | src/image.rs:54-61 | the colorimetric luma lies in [0, 1]: 0 for a transparent pixel and 1 for opaque white |
| Image.GridCell | src/image.rs:235-248 | in a grid whose rows concatenate to the buffer, row y column x is the pixel at width · y + x |
| Image.LumaImage.Blank | src/image.rs:201-205 | a fresh zero-filled width × height buffer |
| Image.LumaImage.NaiveGrayscaleFrom | src/image.rs:77-92 | same dimensions, and pixel i is the naive luma of source pixel i |
| Image.LumaImage.ColorimetricGrayscaleFrom | src/image.rs:64-75 | same dimensions, and pixel i is the colorimetric luma of source pixel i |
| Image.LumaImage.GetPixel | src/image.rs:33-35 | reads slot width · y + x of the buffer, requiring only that slot to exist; PixelIsAt ties it to pixel (x, y) |
| Image.LumaImage.PixelIsAt | src/image.rs:33-35 | `get_pixel(x, y)` reads index width · y + x |
| Image.LumaImage.PixelAt | src/image.rs:33-35 | reading (x, y) gives the pixel at width · y + x |
| Image.LumaImage.SetPixel | src/image.rs:37-39 | only slot width · y + x changes, to the new value |
| Image.LumaImage.ConvolveHorizontal | src/image.rs:109-129 | the buffer becomes the in-place horizontal pass of the old buffer |
| Image.LumaImage.ConvolveVertical | src/image.rs:131-152 | the buffer becomes the in-place vertical pass of the old buffer |
| Image.LumaImage.HorizontalTapsAt | src/image.rs:117-125 | the kernel loop sums the in-bounds horizontal taps at (x, y) |
| Image.LumaImage.VerticalTapsAt | src/image.rs:140-148 | the kernel loop sums the in-bounds vertical taps at (x, y) |
| Image.LumaImage.Blur | src/image.rs:187-191 | the buffer becomes a vertical pass followed by a horizontal pass with the normalised Gaussian kernel |
| Image.LumaImage.Convolve2D | src/image.rs:154-185 | returns a fresh image of the same size, each pixel the sum of in-bounds taps over the original, which is not modified |
| Image.LumaImage.Taps2DAt | src/image.rs:168-179 | the two kernel loops sum all in-bounds taps at (x, y) |
| Image.LumaImage.RowTaps2DAt | src/image.rs:170-178 | the inner kernel loop sums the in-bounds taps of kernel row ky |
| Image.LumaImage.DetectEdges | src/image.rs:193-197 | each output pixel is 4 · pixel minus its in-bounds neighbours above, below, left and right |
| Image.LumaImage.Resize | src/image.rs:199-233 | returns a fresh out_width × out_height image whose pixel (x, y) is the bilinear blend at the sample point |
| Image.LumaImage.ResizeSample | src/image.rs:212-226 | the per-pixel body computes the bilinear blend at the sample point of (x, y) |
| Image.LumaImage.Blend | src/image.rs:218-226 | the four clamped reads and three lerps give the bilinear blend |
| Image.LumaImage.Grid | src/image.rs:235-248 | height rows of width values whose concatenation is the pixel buffer |
| Metrics.JaccardScore | src/metrics.rs:1-5 | undefined exactly when Σ max is 0 |
| Metrics.DotScore | src/metrics.rs:7-9 | the sum of the pairwise products over the shorter length; 0 when either vector is empty |
| Metrics.DotScoreSymmetric | src/metrics.rs:7-9 | the dot score is symmetric |
| Metrics.JaccardScoreSymmetric | src/metrics.rs:1-5 | the Jaccard score is symmetric |
| Metrics.JaccardScoreSelf | src/metrics.rs:1-5 | a vector with non-zero sum has Jaccard score 1 with itself |
| Metrics.JaccardScoreBounds | src/metrics.rs:1-5 | for non-negative inputs with Σ max ≠ 0 the score is defined and lies in [0, 1] |
| Metrics.JaccardScoreAllZero | src/metrics.rs:4 | all-zero inputs have an undefined score, since the division is unguarded |
| Metrics.OcclusionScore | src/metrics.rs:11-15 | the smaller of the two one-sided occlusion sums: at most each of them and equal to one |
| Metrics.OcclusionSum | src/metrics.rs:12 | Σ (1 − (x − y)) = n − Σ x + Σ y for equal lengths |
| Metrics.OcclusionScoreClosedForm | src/metrics.rs:11-15 | the occlusion score is n − \|Σ x − Σ y\| for equal lengths |
| Metrics.OcclusionScoreSymmetric | src/metrics.rs:11-15 | the occlusion score is symmetric |
| Metrics.AvgColorScore | src/metrics.rs:17-20 | undefined exactly for empty xs, where the division is by a zero length (0 / 0 or an infinity, depending on Σ y) |
| Metrics.AvgColorIsScaledOcclusion | src/metrics.rs:17-20 | the average-colour score is the occlusion score divided by n |
| Metrics.AvgColorScoreSymmetric | src/metrics.rs:17-20 | the average-colour score is symmetric for equal lengths |
| Metrics.MovementTowardClear | src/metrics.rs:22-24 | undefined exactly when n = Σ x |
| Metrics.NothingUncleared | src/metrics.rs:24 | where every y is positive, no position contributes to the numerator's sum |
| Metrics.MovementTowardClearOpaque | src/metrics.rs:22-24 | against an all-non-positive glyph, the score is 1 |
| Metrics.MovementTowardClearTransparent | src/metrics.rs:22-24 | against an all-positive glyph, the score is n / (n − Σ x) |
| Metrics.TestVectorScores | src/metrics_simd.rs:107-121 | the scalar scores of the test vectors are 55 and 13/36 |
| RealSeqs.ZipWith | src/metrics.rs:2 | the zip has the shorter length, and element i is f(xᵢ, yᵢ) |
| MetricsSimd.ReduceSum | src/metrics_simd.rs:12-19 | the reduction returns the sum of the eight lanes |
| MetricsSimd.SumAddPs | src/metrics_simd.rs:45-46 | a lane-wise add adds the lane sums |
| MetricsSimd.SumFmaddPs | src/metrics_simd.rs:83 | a fused multiply-add adds the lane products' sum to the accumulator's |
| MetricsSimd.MulPsIsProducts | src/metrics_simd.rs:76-83 | multiplying the lanes loaded at i gives products i..i + 8 |
| MetricsSimd.MinPsIsMins | src/metrics_simd.rs:35-42 | the lane minima at i are pairwise minima i..i + 8 |
| MetricsSimd.MaxPsIsMaxs | src/metrics_simd.rs:36-43 | the lane maxima at i are pairwise maxima i..i + 8 |
| MetricsSimd.DotLanes | src/metrics_simd.rs:68-88 | after the peeled load and the vector loop, i is a multiple of 8 with i ≤ len < i + 8, and the lanes hold the sum of the products before i |
| MetricsSimd.DotScore | src/metrics_simd.rs:66-98 | a length mismatch is the assertion panic; otherwise the result is exactly the scalar Σ xᵢ · yᵢ |
| MetricsSimd.JaccardLanes | src/metrics_simd.rs:25-53 | after the vector loop, i is a multiple of 8 with i ≤ len < i + 8, and the two accumulators hold Σ min and Σ max before i |
| MetricsSimd.JaccardScore | src/metrics_simd.rs:21-64 | a length mismatch is the assertion panic; otherwise the result is exactly the scalar Σ min / Σ max, undefined where that is |
| MetricsSimd.TestVectors | src/metrics_simd.rs:107-121 | on the test vectors the vectorised scores are 55 and 13/36 |

## Left out

- Threads, `mpsc` and `Arc` in `chunks_to_chars`. The workers run one after another; the order their messages arrive in is a permutation parameter.
- Convert.ChunksToChars: takes the converter as a total function, so a converter panic is not modelled. `fast_convert` can panic on a bright chunk (src/convert.rs:75). The two branches then differ. The sequential branch (src/convert.rs:254-257) panics. In the threaded branch only that worker's thread unwinds. Its sender is dropped, `rx.iter()` (src/convert.rs:245) ends with the other workers' messages, and the result silently lacks that worker's slice. The equality with the sequential conversion is proved only for converters that return.
- `thread_rng`. The values drawn are the `draws` input, and `convert` in `chunks_to_chars` is a total function of the chunk. So the model does not capture different workers drawing different noise.
- `HashMap` iteration order in `score_convert`. Convert.ScoreConvert promises only some maximal character, not which one wins a tie.
- `sqrt`, `powf`, `exp` and π. They are parameters with the properties the proofs need. `powi(2)` and `powf(2.)` are exact squares, and `powf(0.5)` is the same `sqrt` parameter.
- IEEE effects, which are not modelled:
  - rounding;
  - NaN in `partial_cmp` (the `unwrap` panics in the direction converters, and the `Equal` fallback in `score_convert`);
  - infinities (each division by zero is `None`).
- The `as u8` and `as usize` casts of out-of-range values. Convert.CastToUsize covers finite values only.
- The f64 `round` of out_height and the `image` crate calls in `img_to_char_rows`:
  - `resize_exact`;
  - `filter3x3`;
  - `blur`;
  - `to_luma8`.

  The model begins at pixel buffers and ends at the character rows.
- The bitmap, HTML and terminal-colour renderers (src/convert.rs:400-503). They depend on library resizing and the `colored` crate.
- `From<LumaImage> for DynamicImage` (src/image.rs:95-106). It goes through the image crate and an `as u8` cast.
- The grayscale constructors take a width, a height and a row-major pixel sequence instead of a `DynamicImage`.
- The debug-mode underflow and division panics inside helpers are preconditions rather than error results:
  - `kernel.len() - 1` with an empty kernel;
  - `width - 1` and `height - 1` in `chunk_direction` and `resize`;
  - division by a zero chunk size.
- Image.LumaImage.Convolve2D: requires every kernel row to be at least as long as the first. The source panics when a tap that is inside the image reads past the end of a short kernel row; a short row whose taps all fall outside the image (for example on a 0 × 0 image) does not panic. The model represents neither case.
- Image.LumaImage.Resize: requires a non-empty source when the output is non-empty. The source panics on an empty source.
- Image.LumaImage.Resize: recomputes the ratio per pixel in exact arithmetic. The model says nothing about the f32 rounding of the hoisted x_ratio and y_ratio.
- MetricsSimd.DotScore: requires at least 8 elements when the lengths agree. The unconditional first load would read outside the slices, and that behaviour is undefined, not a panic.
- MetricsSimd.JaccardScore: requires at least 8 elements when the lengths agree, for the same reason.
- Convert.PixelsToChunks: requires only that the pixels the loops read exist. Convert.ReadEndWithin shows that width · height pixels suffice.
- Convert.ChunksShape: requires positive chunk sizes. `pixels_to_chunks` divides by them.
- Convert.DirectionConvertExactMatch: assumes that no later glyph is also at distance 0. On a tie the last maximal glyph wins, as Convert.ArgMaxLast states.
- Convert.SortByKeySorted: models `char_vecs.sort()` as a sort by key. The keys are distinct worker indices, so the lexicographic order of the pairs is decided by the key alone.
- The metric passed to `score_convert` is any total function on two real sequences. The scalar metrics return `Option` only where the source divides by zero.
- `main.rs`, `gif.rs` and `progress.rs` are not part of this model. They hold the command line, file and subprocess I/O, GIF decoding and the progress bar.

## Findings

| source | as written | input that shows it | evidently intended | confidence | as-written member | corrected member |
|---|---|---|---|---|---|---|
| src/convert.rs:110-112 | `grad` is the negated distance, and the score's numerator is `max_direction - grad`, which is max_direction + distance | two glyphs of equal intensity, glyph 1 closer to the chunk's direction than glyph 0, no noise: glyph 0, the farther one, is chosen | the closer direction should score higher: numerator max_direction − distance (`max_direction` is documented as a bound on the distance) | medium, not executed | Convert.DirectionAndIntensityConvert, Convert.FarGlyphChosen | Convert.IntendedDirectionAndIntensityConvert, Convert.NearGlyphChosen |
| src/convert.rs:229-233 | slice i is `chunks[i*len .. min((i+1)*len, N)]` with len = N / n + 1; the start is not clamped, so the slice panics when i · len > N | 5 chunks on 4 threads: len = 2, and thread 3 slices 6..5 | every thread gets a possibly empty slice, and the threaded result equals the sequential one | high, not executed | Convert.ChunksToChars, Convert.FiveChunksFourThreadsPanic | Convert.ClampedChunksToChars |
