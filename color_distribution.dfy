/** The colour metric (`calculateHistogram` with `calculateColorDistribution`): intersection
    over union of two bucketed colour histograms.

    The histogram is declared with 32 slots, but the folding formula yields buckets 0..70.
    Incrementing a slot past 31 stores NaN there and lengthens the array; the comparison loop
    runs over the first histogram's length, so once it reaches such a slot both sums become
    NaN, `union > 0` is false and the metric returns 0. The model records this effect: a
    first buffer with any pixel in bucket 32 or above scores 0 against everything. */
module ColorDistribution {
  import opened Image

  /** `new Array(32)`: the slots the histogram is created with. */
  const HistogramSlots: nat := 32
  /** Largest bucket the formula produces: (31 * 64 + 31 * 8 + 31) / 32. */
  const MaxBucket: nat := 70
  /** Buckets 0..MaxBucket. */
  const BucketRange: nat := MaxBucket + 1

  /** Math.floor(v / 8): the channel reduced to 0..31. */
  function Quantize(v: byte): (q: nat)
    ensures q < 32
  {
    v / 8
  }

  /** floor((r * 64 + g * 8 + b) / 32) of the quantized channels. Any pixel whose red
      channel is 128 or more lands past the 32 declared slots. */
  function BucketOf(red: byte, green: byte, blue: byte): (k: nat)
    ensures k <= MaxBucket
    ensures red >= 128 ==> k >= HistogramSlots
  {
    (Quantize(red) * 64 + Quantize(green) * 8 + Quantize(blue)) / 32
  }

  /** Pixels the histogram loop visits (`i += 4` below `data.length`). */
  function PixelCount(data: seq<byte>): nat {
    |data| / 4
  }

  function PixelBucket(data: seq<byte>, p: nat): (k: nat)
    requires IsRgba(data) && p < PixelCount(data)
    ensures k <= MaxBucket
  {
    BucketOf(data[4 * p], data[4 * p + 1], data[4 * p + 2])
  }

  /** Number of pixels p < n that fall in bucket k. */
  function BucketCount(data: seq<byte>, n: nat, k: int): (c: nat)
    requires IsRgba(data) && n <= PixelCount(data)
  {
    if n == 0 then 0
    else BucketCount(data, n - 1, k) + (if PixelBucket(data, n - 1) == k then 1 else 0)
  }

  /** Counts of every bucket 0..70; slots 32..70 are the ones JavaScript fills with NaN. */
  function Histogram(data: seq<byte>): (h: seq<nat>)
    requires IsRgba(data)
    ensures |h| == BucketRange
  {
    seq(BucketRange, k => BucketCount(data, PixelCount(data), k))
  }

  /** Some pixel p < n falls past the 32 declared slots. */
  predicate OverflowsBefore(data: seq<byte>, n: nat)
    requires IsRgba(data) && n <= PixelCount(data)
  {
    exists p :: 0 <= p < n && PixelBucket(data, p) >= HistogramSlots
  }

  lemma OverflowsBeforeStep(data: seq<byte>, n: nat)
    requires IsRgba(data) && n < PixelCount(data)
    ensures !OverflowsBefore(data, 0)
    ensures OverflowsBefore(data, n + 1) <==> OverflowsBefore(data, n) || PixelBucket(data, n) >= HistogramSlots
  {
    if OverflowsBefore(data, n + 1) {
      var p :| 0 <= p < n + 1 && PixelBucket(data, p) >= HistogramSlots;
      if p < n {
        assert OverflowsBefore(data, n);
      }
    }
  }

  /** The histogram array of `data` is lengthened past 32 slots. */
  predicate Overflows(data: seq<byte>)
    requires IsRgba(data)
  {
    OverflowsBefore(data, PixelCount(data))
  }

  function Min(a: nat, b: nat): nat {
    if a < b then a else b
  }

  function Max(a: nat, b: nat): nat {
    if a < b then b else a
  }

  /** Sum of per-bucket minimums over the first n buckets. */
  function SumMin(h1: seq<nat>, h2: seq<nat>, n: nat): (s: nat)
    requires n <= |h1| && n <= |h2|
    ensures s <= SumMax(h1, h2, n)
  {
    if n == 0 then 0 else SumMin(h1, h2, n - 1) + Min(h1[n - 1], h2[n - 1])
  }

  /** Sum of per-bucket maximums over the first n buckets. */
  function SumMax(h1: seq<nat>, h2: seq<nat>, n: nat): (s: nat)
    requires n <= |h1| && n <= |h2|
  {
    if n == 0 then 0 else SumMax(h1, h2, n - 1) + Max(h1[n - 1], h2[n - 1])
  }

  /** The metric as the code computes it: 0 when the first histogram was lengthened (its
      sums are NaN), otherwise intersection / union over the 32 declared slots, or 0 when
      the union is 0. */
  function ColorDistribution(d1: seq<byte>, d2: seq<byte>): (r: real)
    requires IsRgba(d1) && IsRgba(d2)
    ensures 0.0 <= r <= 1.0
  {
    if Overflows(d1) then 0.0
    else
      var h1, h2 := Histogram(d1), Histogram(d2);
      var intersection, union := SumMin(h1, h2, HistogramSlots), SumMax(h1, h2, HistogramSlots);
      if union > 0 then
        RatioInUnit(intersection as real, union as real);
        intersection as real / union as real
      else 0.0
  }

  /** The loop of `calculateHistogram`: one increment per pixel, in place. `length` is the
      JavaScript array's length afterwards: 32, or one past the highest bucket written. */
  method CalculateHistogram(data: seq<byte>) returns (histogram: seq<nat>, length: nat)
    requires IsRgba(data)
    ensures histogram == Histogram(data)
    ensures length >= HistogramSlots && (length > HistogramSlots <==> Overflows(data))
    ensures length <= BucketRange && forall k :: length <= k < BucketRange ==> histogram[k] == 0
    ensures length > HistogramSlots ==> histogram[length - 1] > 0
  {
    var counts := new nat[BucketRange](_ => 0);
    length := HistogramSlots;
    var i: nat := 0;
    ghost var pixel: nat := 0;
    while i < |data|
      invariant i == 4 * pixel && pixel <= PixelCount(data)
      invariant forall k :: 0 <= k < BucketRange ==> counts[k] == BucketCount(data, pixel, k)
      invariant HistogramSlots <= length <= BucketRange
      invariant length > HistogramSlots <==> OverflowsBefore(data, pixel)
      invariant forall k :: length <= k < BucketRange ==> counts[k] == 0
      invariant length > HistogramSlots ==> counts[length - 1] > 0
    {
      PixelInBounds(data, pixel);
      var r := data[i] as int / 8;
      var g := data[i + 1] as int / 8;
      var b := data[i + 2] as int / 8;
      var index := r * 64 + g * 8 + b;
      var bucket := index / 32;
      assert bucket == PixelBucket(data, pixel);
      OverflowsBeforeStep(data, pixel);
      counts[bucket] := counts[bucket] + 1;
      if bucket >= length {
        length := bucket + 1;
      }
      i := i + 4;
      pixel := pixel + 1;
    }
    histogram := counts[..];
  }

  /** The loop of `calculateColorDistribution`, over the first histogram's length. */
  method CalculateColorDistribution(data1: seq<byte>, data2: seq<byte>) returns (similarity: real)
    requires IsRgba(data1) && IsRgba(data2)
    ensures similarity == ColorDistribution(data1, data2)
  {
    var histogram1, length1 := CalculateHistogram(data1);
    var histogram2, length2 := CalculateHistogram(data2);
    var intersection: nat := 0;
    var union: nat := 0;
    // Set once the loop reads a slot past 31: the NaN (or hole) there makes both sums NaN.
    var sumsAreNaN := false;
    var i: nat := 0;
    while i < length1
      invariant i <= length1
      invariant intersection == SumMin(histogram1, histogram2, Min(i, HistogramSlots))
      invariant union == SumMax(histogram1, histogram2, Min(i, HistogramSlots))
      invariant sumsAreNaN <==> i > HistogramSlots
    {
      if i < HistogramSlots {
        intersection := intersection + Min(histogram1[i], histogram2[i]);
        union := union + Max(histogram1[i], histogram2[i]);
      } else {
        sumsAreNaN := true;
      }
      i := i + 1;
    }
    similarity := if !sumsAreNaN && union > 0 then intersection as real / union as real else 0.0;
  }

  /** White lands in the highest bucket. */
  lemma WhiteBucket()
    ensures BucketOf(255, 255, 255) == MaxBucket
  {
  }

  function Total(h: seq<nat>, n: nat): (s: nat)
    requires n <= |h|
  {
    if n == 0 then 0 else Total(h, n - 1) + h[n - 1]
  }

  /** Number of pixels p < n whose bucket is below `bound`. */
  function CountBelow(data: seq<byte>, n: nat, bound: nat): (c: nat)
    requires IsRgba(data) && n <= PixelCount(data)
  {
    if n == 0 then 0
    else CountBelow(data, n - 1, bound) + (if PixelBucket(data, n - 1) < bound then 1 else 0)
  }

  lemma {:induction false} CountBelowStep(data: seq<byte>, n: nat, bound: nat)
    requires IsRgba(data) && n <= PixelCount(data) && bound > 0
    ensures CountBelow(data, n, bound) == CountBelow(data, n, bound - 1) + BucketCount(data, n, bound - 1)
  {
    if n > 0 {
      CountBelowStep(data, n - 1, bound);
    }
  }

  /** Each pixel increments exactly one bucket: the first `bound` buckets hold exactly the
      pixels whose bucket is below `bound`. */
  lemma {:induction false} HistogramPrefixTotal(data: seq<byte>, bound: nat)
    requires IsRgba(data) && bound <= BucketRange
    ensures Total(Histogram(data), bound) == CountBelow(data, PixelCount(data), bound)
  {
    if bound == 0 {
      ZeroBoundCountsNothing(data, PixelCount(data));
    } else {
      HistogramPrefixTotal(data, bound - 1);
      CountBelowStep(data, PixelCount(data), bound);
    }
  }

  lemma {:induction false} ZeroBoundCountsNothing(data: seq<byte>, n: nat)
    requires IsRgba(data) && n <= PixelCount(data)
    ensures CountBelow(data, n, 0) == 0
  {
    if n > 0 {
      ZeroBoundCountsNothing(data, n - 1);
    }
  }

  lemma {:induction false} EveryPixelBelowRange(data: seq<byte>, n: nat)
    requires IsRgba(data) && n <= PixelCount(data)
    ensures CountBelow(data, n, BucketRange) == n
  {
    if n > 0 {
      EveryPixelBelowRange(data, n - 1);
    }
  }

  /** All buckets together count every pixel once. */
  lemma HistogramTotal(data: seq<byte>)
    requires IsRgba(data)
    ensures Total(Histogram(data), BucketRange) == PixelCount(data)
  {
    HistogramPrefixTotal(data, BucketRange);
    EveryPixelBelowRange(data, PixelCount(data));
  }

  lemma {:induction false} NoOverflowAllBelow(data: seq<byte>, n: nat)
    requires IsRgba(data) && n <= PixelCount(data) && !OverflowsBefore(data, n)
    ensures CountBelow(data, n, HistogramSlots) == n
  {
    if n > 0 {
      assert !OverflowsBefore(data, n - 1);
      NoOverflowAllBelow(data, n - 1);
    }
  }

  /** When no pixel overflows, the 32 declared slots count every pixel. */
  lemma DeclaredSlotsTotal(data: seq<byte>)
    requires IsRgba(data) && !Overflows(data)
    ensures Total(Histogram(data), HistogramSlots) == PixelCount(data)
  {
    HistogramPrefixTotal(data, HistogramSlots);
    NoOverflowAllBelow(data, PixelCount(data));
  }

  lemma {:induction false} SumsOfSelf(h: seq<nat>, n: nat)
    requires n <= |h|
    ensures SumMin(h, h, n) == Total(h, n) && SumMax(h, h, n) == Total(h, n)
  {
    if n > 0 {
      SumsOfSelf(h, n - 1);
    }
  }

  lemma {:induction false} SumMaxAtLeastTotal(h1: seq<nat>, h2: seq<nat>, n: nat)
    requires n <= |h1| && n <= |h2|
    ensures SumMax(h1, h2, n) >= Total(h1, n)
  {
    if n > 0 {
      SumMaxAtLeastTotal(h1, h2, n - 1);
    }
  }

  /** A non-empty first buffer with no overflowing pixel always gives a positive union, so
      the `union > 0` guard only matters for an empty first buffer. */
  lemma UnionPositive(d1: seq<byte>, d2: seq<byte>)
    requires IsRgba(d1) && IsRgba(d2) && PixelCount(d1) > 0 && !Overflows(d1)
    ensures SumMax(Histogram(d1), Histogram(d2), HistogramSlots) > 0
  {
    DeclaredSlotsTotal(d1);
    SumMaxAtLeastTotal(Histogram(d1), Histogram(d2), HistogramSlots);
  }

  /** A non-empty buffer with every pixel in the declared slots scores 1 against itself. */
  lemma ColorDistributionSelf(d: seq<byte>)
    requires IsRgba(d) && PixelCount(d) > 0 && !Overflows(d)
    ensures ColorDistribution(d, d) == 1.0
  {
    DeclaredSlotsTotal(d);
    SumsOfSelf(Histogram(d), HistogramSlots);
    WholeRatio(PixelCount(d));
  }

  /** One pixel with red 128 or more in the first buffer makes the metric 0 whatever the
      second buffer is, even when it is the same buffer. */
  lemma BrightRedScoresZero(d1: seq<byte>, d2: seq<byte>, p: nat)
    requires IsRgba(d1) && IsRgba(d2) && p < PixelCount(d1) && d1[4 * p] >= 128
    ensures ColorDistribution(d1, d2) == 0.0
  {
    assert PixelBucket(d1, p) >= HistogramSlots;
  }

  lemma {:induction false} SumsSymmetric(h1: seq<nat>, h2: seq<nat>, n: nat)
    requires n <= |h1| && n <= |h2|
    ensures SumMin(h1, h2, n) == SumMin(h2, h1, n) && SumMax(h1, h2, n) == SumMax(h2, h1, n)
  {
    if n > 0 {
      SumsSymmetric(h1, h2, n - 1);
    }
  }

  /** When neither buffer overflows, the arguments can be swapped. */
  lemma ColorDistributionSymmetricInRange(d1: seq<byte>, d2: seq<byte>)
    requires IsRgba(d1) && IsRgba(d2) && !Overflows(d1) && !Overflows(d2)
    ensures ColorDistribution(d1, d2) == ColorDistribution(d2, d1)
  {
    SumsSymmetric(Histogram(d1), Histogram(d2), HistogramSlots);
  }

  /** A declared slot of a two-pixel histogram counts the pixels that fall in it. */
  lemma TwoPixelHistogram(d: seq<byte>, k: int)
    requires IsRgba(d) && PixelCount(d) == 2 && 0 <= k < BucketRange
    ensures Histogram(d)[k] == (if PixelBucket(d, 0) == k then 1 else 0) + (if PixelBucket(d, 1) == k then 1 else 0)
  {
    assert BucketCount(d, 1, k) == (if PixelBucket(d, 0) == k then 1 else 0);
    assert Histogram(d)[k] == BucketCount(d, 2, k);
  }

  /** Swapping the arguments changes the score: a buffer with one pixel in bucket 0 and one
      in bucket 70 against a buffer with two pixels in bucket 0 scores 0, the other way
      round 1/2. */
  lemma ArgumentOrderMatters(d1: seq<byte>, d2: seq<byte>)
    requires IsRgba(d1) && PixelCount(d1) == 2 && PixelBucket(d1, 0) == 0 && PixelBucket(d1, 1) == MaxBucket
    requires IsRgba(d2) && PixelCount(d2) == 2 && PixelBucket(d2, 0) == 0 && PixelBucket(d2, 1) == 0
    ensures ColorDistribution(d1, d2) == 0.0 && ColorDistribution(d2, d1) == 0.5
  {
    assert Overflows(d1) by {
      assert PixelBucket(d1, 1) >= HistogramSlots;
    }
    assert !Overflows(d2) by {
      OverflowsBeforeStep(d2, 0);
      OverflowsBeforeStep(d2, 1);
    }
    var h1, h2 := Histogram(d1), Histogram(d2);
    forall k | 0 <= k < HistogramSlots ensures h1[k] == (if k == 0 then 1 else 0) && h2[k] == (if k == 0 then 2 else 0) {
      TwoPixelHistogram(d1, k);
      TwoPixelHistogram(d2, k);
    }
    SumsOfLeadingBucket(h2, h1, HistogramSlots);
  }

  /** A black pixel (bucket 0) followed by a white one (bucket 70). */
  lemma BlackWhiteBuckets()
    ensures var d: seq<byte> := [0, 0, 0, 255, 255, 255, 255, 255];
      IsRgba(d) && PixelCount(d) == 2 && PixelBucket(d, 0) == 0 && PixelBucket(d, 1) == MaxBucket
  {
  }

  /** Two black pixels (both bucket 0). */
  lemma TwoBlackBuckets()
    ensures var d: seq<byte> := [0, 0, 0, 255, 0, 0, 0, 255];
      IsRgba(d) && PixelCount(d) == 2 && PixelBucket(d, 0) == 0 && PixelBucket(d, 1) == 0
  {
  }

  /** In general the arguments cannot be swapped: a black and a white pixel against two
      black pixels. */
  lemma ColorDistributionNotSymmetric(d1: seq<byte>, d2: seq<byte>)
    requires d1 == [0, 0, 0, 255, 255, 255, 255, 255] && d2 == [0, 0, 0, 255, 0, 0, 0, 255]
    ensures IsRgba(d1) && IsRgba(d2)
    ensures ColorDistribution(d1, d2) == 0.0 && ColorDistribution(d2, d1) == 0.5
  {
    BlackWhiteBuckets();
    TwoBlackBuckets();
    ArgumentOrderMatters(d1, d2);
  }

  lemma {:induction false} SumsOfLeadingBucket(h1: seq<nat>, h2: seq<nat>, n: nat)
    requires 0 < n <= |h1| && n <= |h2|
    requires forall k :: 1 <= k < n ==> h1[k] == 0 && h2[k] == 0
    ensures SumMin(h1, h2, n) == Min(h1[0], h2[0]) && SumMax(h1, h2, n) == Max(h1[0], h2[0])
  {
    if n > 1 {
      SumsOfLeadingBucket(h1, h2, n - 1);
    }
  }

  lemma {:induction false} SumsOfDeclaredSlots(h1: seq<nat>, h2: seq<nat>, e2: seq<nat>, n: nat)
    requires n <= |h1| && n <= |h2| && n <= |e2| && h2[..n] == e2[..n]
    ensures SumMin(h1, h2, n) == SumMin(h1, e2, n) && SumMax(h1, h2, n) == SumMax(h1, e2, n)
  {
    if n > 0 {
      assert h2[n - 1] == h2[..n][n - 1] == e2[..n][n - 1] == e2[n - 1];
      assert h2[..n - 1] == h2[..n][..n - 1];
      assert e2[..n - 1] == e2[..n][..n - 1];
      SumsOfDeclaredSlots(h1, h2, e2, n - 1);
    }
  }

  /** The second buffer matters only through its first 32 buckets: its overflowing pixels
      are ignored. */
  lemma SecondOverflowIgnored(d1: seq<byte>, d2: seq<byte>, e2: seq<byte>)
    requires IsRgba(d1) && IsRgba(d2) && IsRgba(e2)
    requires Histogram(d2)[..HistogramSlots] == Histogram(e2)[..HistogramSlots]
    ensures ColorDistribution(d1, d2) == ColorDistribution(d1, e2)
  {
    SumsOfDeclaredSlots(Histogram(d1), Histogram(d2), Histogram(e2), HistogramSlots);
  }

  lemma PixelBucketIgnoresAlpha(d: seq<byte>, e: seq<byte>, p: nat)
    requires IsRgba(d) && SameColours(d, e) && p < PixelCount(d)
    ensures IsRgba(e) && p < PixelCount(e) && PixelBucket(d, p) == PixelBucket(e, p)
  {
    PixelInBounds(d, p);
    SameColoursAt(d, e, p);
  }

  lemma {:induction false} BucketCountIgnoresAlpha(d: seq<byte>, e: seq<byte>, n: nat, k: nat)
    requires IsRgba(d) && SameColours(d, e) && n <= PixelCount(d)
    ensures BucketCount(d, n, k) == BucketCount(e, n, k)
    ensures OverflowsBefore(d, n) == OverflowsBefore(e, n)
  {
    if n > 0 {
      BucketCountIgnoresAlpha(d, e, n - 1, k);
      PixelBucketIgnoresAlpha(d, e, n - 1);
      OverflowsBeforeStep(d, n - 1);
      OverflowsBeforeStep(e, n - 1);
    }
  }

  /** Alpha is never read: changing only the alpha channel of either buffer keeps the score. */
  lemma ColorDistributionIgnoresAlpha(d1: seq<byte>, e1: seq<byte>, d2: seq<byte>, e2: seq<byte>)
    requires IsRgba(d1) && IsRgba(d2) && SameColours(d1, e1) && SameColours(d2, e2)
    ensures ColorDistribution(d1, d2) == ColorDistribution(e1, e2)
  {
    BucketCountIgnoresAlpha(d1, e1, PixelCount(d1), 0);
    forall k | 0 <= k < BucketRange
      ensures Histogram(d1)[k] == Histogram(e1)[k] && Histogram(d2)[k] == Histogram(e2)[k]
    {
      BucketCountIgnoresAlpha(d1, e1, PixelCount(d1), k);
      BucketCountIgnoresAlpha(d2, e2, PixelCount(d2), k);
    }
    assert Histogram(d1) == Histogram(e1) && Histogram(d2) == Histogram(e2);
  }
}
