/** The pixel metric (`calculatePixelSimilarity`): the share of sampled pixels
    whose colours are close, with a looser tolerance for background-like pixels. */
module PixelSimilarity {
  import opened Image

  /** Every `SampleRate`-th pixel is compared. */
  const SampleRate: nat := 4
  /** Bytes from one sampled pixel to the next. */
  const SampleStride: nat := 4 * SampleRate

  /** Byte offset of the k-th sampled pixel. */
  function SampleOffset(k: nat): (i: nat)
    ensures i == 16 * k && i % 4 == 0
  {
    SampleStride * k
  }

  /** Number of sampled pixels in a buffer of `len` bytes: ceil(len / 16). Offsets grow
      with k, so the k-th sample is taken exactly when k < n: the last one taken lies
      inside the buffer and the next one would not. */
  function SampleCount(len: nat): (n: nat)
    ensures n > 0 ==> SampleOffset(n - 1) < len
    ensures SampleOffset(n) >= len
  {
    (len + SampleStride - 1) / SampleStride
  }

  /** Very dark or very light on the 0..765 brightness scale. */
  predicate IsBackground(brightness: int) {
    brightness < 100 || brightness > 600
  }

  /** |r1 - r2| + |g1 - g2| + |b1 - b2| of the pixels at byte offset `i`; alpha is not read. */
  function ColourDifference(d1: seq<byte>, d2: seq<byte>, i: nat): (diff: nat)
    requires i + 2 < |d1| && i + 2 < |d2|
    ensures diff <= 765
  {
    Abs(d1[i] as int - d2[i] as int) + Abs(d1[i + 1] as int - d2[i + 1] as int)
      + Abs(d1[i + 2] as int - d2[i + 2] as int)
  }

  /** The two-tier rule: if either pixel is background-like the pair is similar when the
      difference is below 150, otherwise only when it is below 80. */
  predicate SimilarAt(d1: seq<byte>, d2: seq<byte>, i: nat)
    requires i + 2 < |d1| && i + 2 < |d2|
  {
    var diff := ColourDifference(d1, d2, i);
    if IsBackground(Brightness(d1, i)) || IsBackground(Brightness(d2, i)) then diff < 150 else diff < 80
  }

  predicate SameShape(d1: seq<byte>, d2: seq<byte>) {
    IsRgba(d1) && |d1| == |d2|
  }

  /** Number of similar pairs among the first `n` sampled pixels. */
  function SimilarCount(d1: seq<byte>, d2: seq<byte>, n: nat): (c: nat)
    requires SameShape(d1, d2) && n <= SampleCount(|d1|)
    ensures c <= n
  {
    if n == 0 then 0
    else
      PixelInBounds(d1, 4 * (n - 1));
      SimilarCount(d1, d2, n - 1) + (if SimilarAt(d1, d2, SampleOffset(n - 1)) then 1 else 0)
  }

  /** similarPixels / totalPixels. The source does not guard an empty buffer (0 / 0), so
      callers must pass at least one pixel. */
  function PixelSimilarity(d1: seq<byte>, d2: seq<byte>): (r: real)
    requires SameShape(d1, d2) && |d1| > 0
    ensures 0.0 <= r <= 1.0
  {
    var total := SampleCount(|d1|);
    RatioInUnit(SimilarCount(d1, d2, total) as real, total as real);
    SimilarCount(d1, d2, total) as real / total as real
  }

  /** One more sample adds one exactly when that sample passes the two-tier rule. */
  lemma SimilarCountNext(d1: seq<byte>, d2: seq<byte>, n: nat)
    requires SameShape(d1, d2) && n < SampleCount(|d1|)
    ensures SampleOffset(n) + 2 < |d1|
    ensures SimilarCount(d1, d2, n + 1) == SimilarCount(d1, d2, n) + if SimilarAt(d1, d2, SampleOffset(n)) then 1 else 0
  {
    PixelInBounds(d1, 4 * n);
  }

  /** The loop of `calculatePixelSimilarity`. */
  method CalculatePixelSimilarity(data1: seq<byte>, data2: seq<byte>) returns (similarity: real)
    requires SameShape(data1, data2) && |data1| > 0
    ensures similarity == PixelSimilarity(data1, data2)
  {
    var similarPixels: nat := 0;
    var totalPixels: nat := 0;
    var i: nat := 0;
    while i < |data1|
      invariant i == SampleOffset(totalPixels)
      invariant totalPixels <= SampleCount(|data1|)
      invariant similarPixels == SimilarCount(data1, data2, totalPixels)
    {
      assert totalPixels < SampleCount(|data1|);
      PixelInBounds(data1, 4 * totalPixels);
      var r1, g1, b1 := data1[i] as int, data1[i + 1] as int, data1[i + 2] as int;
      var r2, g2, b2 := data2[i] as int, data2[i + 1] as int, data2[i + 2] as int;
      var diff := Abs(r1 - r2) + Abs(g1 - g2) + Abs(b1 - b2);
      var brightness1 := r1 + g1 + b1;
      var brightness2 := r2 + g2 + b2;
      var isBackground1 := brightness1 < 100 || brightness1 > 600;
      var isBackground2 := brightness2 < 100 || brightness2 > 600;
      assert diff == ColourDifference(data1, data2, i);
      assert brightness1 == Brightness(data1, i) && brightness2 == Brightness(data2, i);
      SimilarCountNext(data1, data2, totalPixels);
      if isBackground1 || isBackground2 {
        if diff < 150 {
          similarPixels := similarPixels + 1;
        }
      } else {
        if diff < 80 {
          similarPixels := similarPixels + 1;
        }
      }
      totalPixels := totalPixels + 1;
      i := i + 4 * SampleRate;
    }
    assert SampleOffset(totalPixels) >= |data1|;
    assert totalPixels == SampleCount(|data1|);
    similarity := similarPixels as real / totalPixels as real;
  }

  /** Sample k lies inside the buffers and passes the two-tier rule. */
  predicate SampledSimilar(d1: seq<byte>, d2: seq<byte>, k: nat)
    requires SameShape(d1, d2)
  {
    SampleOffset(k) + 2 < |d1| && SimilarAt(d1, d2, SampleOffset(k))
  }

  /** The sampled pixels below n that pass the two-tier rule. */
  function SimilarSamples(d1: seq<byte>, d2: seq<byte>, n: nat): set<nat>
    requires SameShape(d1, d2)
  {
    set k: nat | k < n && SampledSimilar(d1, d2, k)
  }

  /** Extending the range by one sample adds that sample exactly when it passes. */
  lemma SimilarSamplesStep(d1: seq<byte>, d2: seq<byte>, n: nat)
    requires SameShape(d1, d2) && n > 0
    ensures |SimilarSamples(d1, d2, n)|
         == |SimilarSamples(d1, d2, n - 1)| + if SampledSimilar(d1, d2, n - 1) then 1 else 0
  {
    var before := SimilarSamples(d1, d2, n - 1);
    assert n - 1 !in before;
    if SampledSimilar(d1, d2, n - 1) {
      assert SimilarSamples(d1, d2, n) == before + {n - 1};
    } else {
      assert SimilarSamples(d1, d2, n) == before;
    }
  }

  /** The sampled pixels counted as similar are exactly those with k < n that pass `SimilarAt`. */
  lemma {:induction false} SimilarCountIsCardinality(d1: seq<byte>, d2: seq<byte>, n: nat)
    requires SameShape(d1, d2) && n <= SampleCount(|d1|)
    ensures SimilarCount(d1, d2, n) == |SimilarSamples(d1, d2, n)|
  {
    if n > 0 {
      SimilarCountIsCardinality(d1, d2, n - 1);
      SimilarSamplesStep(d1, d2, n);
      assert SampleOffset(n - 1) < |d1|;
      PixelInBounds(d1, 4 * (n - 1));
      assert SampledSimilar(d1, d2, n - 1) == SimilarAt(d1, d2, SampleOffset(n - 1));
    }
  }

  lemma {:induction false} SimilarCountSymmetric(d1: seq<byte>, d2: seq<byte>, n: nat)
    requires SameShape(d1, d2) && n <= SampleCount(|d1|)
    ensures SimilarCount(d1, d2, n) == SimilarCount(d2, d1, n)
  {
    if n > 0 {
      SimilarCountSymmetric(d1, d2, n - 1);
    }
  }

  /** Swapping the arguments does not change the score: the difference is symmetric and
      the background test is an OR. */
  lemma PixelSimilaritySymmetric(d1: seq<byte>, d2: seq<byte>)
    requires SameShape(d1, d2) && |d1| > 0
    ensures PixelSimilarity(d1, d2) == PixelSimilarity(d2, d1)
  {
    SimilarCountSymmetric(d1, d2, SampleCount(|d1|));
  }

  lemma {:induction false} SimilarCountSelf(d: seq<byte>, n: nat)
    requires IsRgba(d) && n <= SampleCount(|d|)
    ensures SimilarCount(d, d, n) == n
  {
    if n > 0 {
      SimilarCountSelf(d, n - 1);
    }
  }

  /** A buffer compared with itself scores exactly 1. */
  lemma PixelSimilaritySelf(d: seq<byte>)
    requires IsRgba(d) && |d| > 0
    ensures PixelSimilarity(d, d) == 1.0
  {
    var total := SampleCount(|d|);
    assert SampleOffset(0) < |d|;
    assert total > 0;
    SimilarCountSelf(d, total);
    WholeRatio(total);
  }

  lemma SimilarAtIgnoresAlpha(d1: seq<byte>, e1: seq<byte>, d2: seq<byte>, p: nat)
    requires SameColours(d1, e1) && 4 * p + 2 < |d1| && 4 * p + 2 < |d2|
    ensures SimilarAt(d1, d2, 4 * p) == SimilarAt(e1, d2, 4 * p)
  {
    SameColoursAt(d1, e1, p);
    assert ColourDifference(d1, d2, 4 * p) == ColourDifference(e1, d2, 4 * p);
    assert Brightness(d1, 4 * p) == Brightness(e1, 4 * p);
  }

  lemma {:induction false} SimilarCountIgnoresAlpha(d1: seq<byte>, e1: seq<byte>, d2: seq<byte>, n: nat)
    requires SameShape(d1, d2) && SameColours(d1, e1) && n <= SampleCount(|d1|)
    ensures SimilarCount(d1, d2, n) == SimilarCount(e1, d2, n)
  {
    if n > 0 {
      SimilarCountIgnoresAlpha(d1, e1, d2, n - 1);
      PixelInBounds(d1, 4 * (n - 1));
      SimilarAtIgnoresAlpha(d1, e1, d2, 4 * (n - 1));
    }
  }

  /** Alpha is never read: changing only the alpha channel of the first buffer keeps the score. */
  lemma PixelSimilarityIgnoresAlpha(d1: seq<byte>, e1: seq<byte>, d2: seq<byte>)
    requires SameShape(d1, d2) && SameColours(d1, e1) && |d1| > 0
    ensures PixelSimilarity(d1, d2) == PixelSimilarity(e1, d2)
  {
    SimilarCountIgnoresAlpha(d1, e1, d2, SampleCount(|d1|));
  }
}
