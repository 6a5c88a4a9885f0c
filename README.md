# Image ad detector: similarity and classification engine

A Dafny model of the comparison core of `ImageAdDetector` (extension/ml/model_inference/model.js).
A candidate image and every reference image are 200x200 RGBA buffers (`Image.Canvas`, 160000
bytes). Three metrics compare two such buffers:

- **pixel** (`PixelSimilarity`): every 4th pixel (byte offsets 0, 16, 32, ...) is sampled; a pair is
  similar when the R+G+B absolute difference is below 150 if either pixel is background-like
  (brightness below 100 or above 600), and below 80 otherwise; the result is similar / sampled.
- **structural** (`StructuralSimilarity`): 8x8 blocks are scanned while the block origin is below
  `extent - 8`, so on 200x200 only 24 x 24 = 576 blocks are compared and the last full block row and
  column are skipped; two blocks match when their mean brightness over 255 differs by less than 0.3.
- **colour** (`ColorDistribution`): each pixel goes to bucket `floor((R/8*64 + G/8*8 + B/8)/32)`,
  which ranges over 0..70 although the histogram is created with 32 slots. A slot past 31 holds
  NaN in the source and lengthens the array; the comparison loop then reaches it, both sums become
  NaN and the `union > 0` test fails. So the metric is 0 whenever the first buffer has a pixel in
  bucket 32 or above (for instance any pixel with red at least 128), even against itself, and
  otherwise it is the sum of per-bucket minimums over the sum of maximums across slots 0..31.

`Scoring` weights them 0.4 / 0.4 / 0.2. `Detector` holds the decision of `predict`: if any normal
reference scores above `thresholds.normal` (0.25) the tweet is not an ad; otherwise the result
names the first advertiser, in stored order, having an image above
`thresholds[company] || thresholds.default` (0.35 for `stake`, 0.25 otherwise); if none matches
the tweet is not an ad. The scan is specified by `Classify` and `FirstMatch`, which take the
similarity as a function parameter, and implemented by the nested loops of
`ImageAdDetector.Predict`; each metric likewise has a specification function and a method with
the source's loops, proved equal.

The model follows the code as written, not the behaviour its names and comments suggest: the
pixel and structural metrics have no guard against zero samples (0 / 0), so the model requires a
non-empty buffer and an image wider and taller than 8 pixels; the "32-bucket" histogram receives
buckets 0..70, with the out-of-range effect above; and the structural loop bound skips the last
full block along each axis.

Files: `image.dfy` (buffers and helpers), `pixel_similarity.dfy`, `structural_similarity.dfy`,
`color_distribution.dfy`, `scoring.dfy`, `detector.dfy`.

## Model

| member | source | states |
|---|---|---|
| PixelSimilarity.SampleCount | extension/ml/model_inference/model.js:285-286 | ceil(len/16) samples: the last one visited, at byte offset 16(n-1), lies inside the buffer and the next, at 16n, would not; offsets grow with k, so sample k is visited exactly when k < n |
| PixelSimilarity.PixelSimilarity | extension/ml/model_inference/model.js:280-316 | similar samples over sampled pixels lies in [0, 1] for a non-empty RGBA buffer pair |
| PixelSimilarity.CalculatePixelSimilarity | extension/ml/model_inference/model.js:280-316 | the sampling loop with its two-tier background rule returns exactly the specified ratio |
| PixelSimilarity.SimilarCountIsCardinality | extension/ml/model_inference/model.js:286-312 | the similar count equals the number of sampled pixels passing the two-tier rule |
| PixelSimilarity.PixelSimilaritySymmetric | extension/ml/model_inference/model.js:295-303 | swapping the buffers does not change the score |
| PixelSimilarity.PixelSimilaritySelf | extension/ml/model_inference/model.js:295-315 | a buffer compared with itself scores exactly 1 |
| PixelSimilarity.PixelSimilarityIgnoresAlpha | extension/ml/model_inference/model.js:287-292 | buffers differing only in alpha score the same |
| StructuralSimilarity.BlocksAcross | extension/ml/model_inference/model.js:325-326 | block j is visited exactly when its origin 8j is below extent - 8 |
| StructuralSimilarity.Contribution | extension/ml/model_inference/model.js:344-348 | one pixel contributes R+G+B of at most 765, or 0 past the end of the buffer |
| StructuralSimilarity.EdgeStrength | extension/ml/model_inference/model.js:340-352 | the block's mean brightness over 255 lies in [0, 1] |
| StructuralSimilarity.DetectEdges | extension/ml/model_inference/model.js:340-352 | the nested pixel loops return exactly the block's edge strength |
| StructuralSimilarity.StructuralSimilarity | extension/ml/model_inference/model.js:318-338 | matching blocks over visited blocks lies in [0, 1] when width and height exceed 8 |
| StructuralSimilarity.CalculateStructuralSimilarity | extension/ml/model_inference/model.js:318-338 | the nested block loops return exactly the specified ratio |
| StructuralSimilarity.CanvasBlocks | extension/ml/model_inference/model.js:324-326 | on 200x200 the scan visits 24 x 24 = 576 blocks and skips the full block at 192 |
| StructuralSimilarity.StructuralSimilaritySymmetric | extension/ml/model_inference/model.js:330 | swapping the buffers does not change the score |
| StructuralSimilarity.StructuralSimilaritySelf | extension/ml/model_inference/model.js:325-337 | a buffer compared with itself scores exactly 1 |
| StructuralSimilarity.StructuralSimilarityIgnoresAlpha | extension/ml/model_inference/model.js:344-347 | buffers differing only in alpha score the same |
| ColorDistribution.BucketOf | extension/ml/model_inference/model.js:373-377 | the bucket lies in 0..70, and is 32 or more whenever red is at least 128 |
| ColorDistribution.WhiteBucket | extension/ml/model_inference/model.js:373-377 | white falls in bucket 70 |
| ColorDistribution.CalculateHistogram | extension/ml/model_inference/model.js:370-380 | the in-place counting loop yields the per-bucket counts, and the array grows past 32 slots exactly when some pixel's bucket is 32 or more |
| ColorDistribution.HistogramPrefixTotal | extension/ml/model_inference/model.js:372-378 | each pixel increments exactly one bucket: the first k buckets count the pixels with bucket below k |
| ColorDistribution.HistogramTotal | extension/ml/model_inference/model.js:372-378 | all buckets together count every pixel once |
| ColorDistribution.DeclaredSlotsTotal | extension/ml/model_inference/model.js:371-378 | without overflow the 32 slots count every pixel |
| ColorDistribution.ColorDistribution | extension/ml/model_inference/model.js:354-368 | the metric (0 on overflow of the first histogram, else min-sum over max-sum on slots 0..31, 0 on empty union) lies in [0, 1] |
| ColorDistribution.CalculateColorDistribution | extension/ml/model_inference/model.js:354-368 | the loop over the first histogram's length, with NaN sums past slot 31, returns exactly the specified metric |
| ColorDistribution.UnionPositive | extension/ml/model_inference/model.js:362-367 | a non-empty in-range first buffer always has a positive union |
| ColorDistribution.ColorDistributionSelf | extension/ml/model_inference/model.js:359-367 | a non-empty in-range buffer scores exactly 1 against itself |
| ColorDistribution.BrightRedScoresZero | extension/ml/model_inference/model.js:362-377 | one pixel with red at least 128 in the first buffer makes the metric 0, even against itself |
| ColorDistribution.ColorDistributionSymmetricInRange | extension/ml/model_inference/model.js:362-365 | with neither buffer overflowing, swapping them does not change the score |
| ColorDistribution.ArgumentOrderMatters | extension/ml/model_inference/model.js:356-377 | a first buffer with one pixel in bucket 0 and one in bucket 70 scores 0 against a buffer with two pixels in bucket 0, and the swapped pair scores 1/2 |
| ColorDistribution.ColorDistributionNotSymmetric | extension/ml/model_inference/model.js:356-367 | a concrete pair (a black and a white pixel; two black pixels) scoring 0 one way and 1/2 the other |
| ColorDistribution.SecondOverflowIgnored | extension/ml/model_inference/model.js:362-365 | the second buffer matters only through its first 32 buckets |
| ColorDistribution.ColorDistributionIgnoresAlpha | extension/ml/model_inference/model.js:372-376 | buffers differing only in alpha score the same |
| Scoring.WeightedSimilarity | extension/ml/model_inference/model.js:267-271 | three scores in [0, 1] weigh to a score in [0, 1] that is 1 exactly when all three are |
| Scoring.Score | extension/ml/model_inference/model.js:262-271 | the score of two canvases lies in [0, 1] |
| Scoring.CompareImages | extension/ml/model_inference/model.js:258-277 | computing the three metrics and weighting them returns exactly the score |
| Scoring.ScoreSelf | extension/ml/model_inference/model.js:262-271 | a canvas scores at least 0.8 against itself, and exactly 1 unless its histogram overflows |
| Scoring.ScoreSymmetricInRange | extension/ml/model_inference/model.js:262-271 | without histogram overflow the score is symmetric |
| Scoring.ScoreIgnoresAlpha | extension/ml/model_inference/model.js:258-264 | the alpha channels do not affect the score |
| Detector.ThresholdFor | extension/ml/model_inference/model.js:110 | a missing or zero (falsy) company entry falls back to the default: the result is one of the configured values, the default for an unlisted company, and 0 only when the default is 0 |
| Detector.Classify | extension/ml/model_inference/model.js:88-135 | the company is present exactly when the result is an ad |
| Detector.ScanAdSets | extension/ml/model_inference/model.js:103-117 | the nested advertiser loops with early return yield the first matching company |
| Detector.ImageAdDetector.Predict | extension/ml/model_inference/model.js:85-135 | normal references are scanned first, then the ad sets, giving exactly the Classify result |
| Detector.ImageAdDetector.CheckFrame | extension/ml/model_inference/model.js:189-198 | a video frame yields the first advertiser with an image above 0.25, without the normal check |
| Detector.ImageAdDetector.constructor | extension/ml/model_inference/model.js:2-13 | a new detector has no references and is not initialized |
| Detector.DefaultThresholdValues | extension/ml/model_inference/model.js:9-13 | stake's threshold is 0.35 and every other company falls back to 0.25 |
| Detector.FirstMatchIsFirst | extension/ml/model_inference/model.js:103-117 | the scan yields c exactly when the first matching set in stored order is c's, and nothing exactly when no set matches |
| Detector.NormalMatchWins | extension/ml/model_inference/model.js:91-98 | a normal reference above its threshold makes the result not-ad whatever the ad sets hold |
| Detector.ClassifyIsAd | extension/ml/model_inference/model.js:91-117 | the result is an ad of c exactly when no normal reference matches and c owns the first matching set |
| Detector.EmptyReferencesAreNotAd | extension/ml/model_inference/model.js:91-135 | empty reference sets give not-ad |
| Detector.CopyOfNormalIsNotAd | extension/ml/model_inference/model.js:91-97 | a candidate equal to a normal reference is not an ad, even if it is also an ad reference |

## Left out

- `initialize`, `getImageUrls`, `loadImage`: fetching manifests and decoding images is I/O; the model takes the loaded references as the contents of `normalImages` and `adSets`, and `predict`'s lazy call to `initialize` is not modelled.
- `getTweetImages` and the routing in `predict` (taking the first `img`, falling back to the first `video` when there is none): DOM access; `Predict` receives the first image as a canvas.
- `checkVideoForAds`: the interval, the 5-second timeout and promise resolution are timer and concurrency plumbing; only the per-frame comparison is modelled, as `CheckFrame`.
- The canvas drawing in `compareImages` (`drawImage`, `getImageData`): host resampling; both inputs are taken as 200x200 RGBA buffers.
- Floating point: ratios and the weighted sum are exact reals, and 0.3, 0.25 and 0.35 are the exact decimals; IEEE-754 rounding is not modelled.
- NaN is not modelled as a value: only its effect on the colour metric (the result 0) is.
- `console.log` output and the `maxNormalSimilarity` / `maxAdSimilarity` tracking: logging only.
- The `try/catch` blocks turning exceptions into not-ad: they guard the I/O that is not modelled.
- PixelSimilarity: requires two RGBA buffers of equal length; a shorter second buffer (read past its end as `undefined`) never occurs, since both come from 200x200 canvases.
- StructuralSimilarity: requires width and height above 8 and RGBA buffers; smaller images divide 0 by 0 in the source.
- ThresholdFor: the threshold table is a map of its own keys; JavaScript property names inherited from `Object.prototype` (such as `constructor`) are not modelled.
- ScanAdSets: the ad sets are an ordered list, the order `Object.entries` produces; JavaScript's placing of integer-like keys first is not modelled.
- CalculateHistogram: the holes between slot 31 and the highest written slot are represented as zero counts, and the NaN slots as their counts; only the array's length and the counts of slots 0..31 are read later.
