/** The weighted similarity of `compareImages`: 0.4 pixel + 0.4 structural + 0.2 colour,
    computed on the two 200x200 canvases. */
module Scoring {
  import opened Image
  import PixelSimilarity
  import StructuralSimilarity
  import ColorDistribution

  const PixelWeight: real := 0.4
  const StructuralWeight: real := 0.4
  const ColorWeight: real := 0.2

  predicate InUnit(x: real) {
    0.0 <= x <= 1.0
  }

  /** The weights sum to 1, so three scores in [0, 1] combine to a score in [0, 1], and the
      combination is 1 exactly when all three are. */
  function WeightedSimilarity(pixel: real, structural: real, color: real): (w: real)
    ensures InUnit(pixel) && InUnit(structural) && InUnit(color) ==>
      InUnit(w) && (w == 1.0 <==> pixel == 1.0 && structural == 1.0 && color == 1.0)
  {
    pixel * PixelWeight + structural * StructuralWeight + color * ColorWeight
  }

  lemma CanvasShape(a: Canvas)
    ensures IsRgba(a) && |a| > 0 && Width > StructuralSimilarity.Step && Height > StructuralSimilarity.Step
  {
  }

  /** The score `compareImages` returns for two canvases. */
  function Score(a: Canvas, b: Canvas): (s: real)
    ensures InUnit(s)
  {
    CanvasShape(a);
    CanvasShape(b);
    WeightedSimilarity(
      PixelSimilarity.PixelSimilarity(a, b),
      StructuralSimilarity.StructuralSimilarity(a, b, Width, Height),
      ColorDistribution.ColorDistribution(a, b))
  }

  /** `compareImages` after the canvases are drawn: the three metrics, then their weighting. */
  method CompareImages(data1: Canvas, data2: Canvas) returns (weightedSimilarity: real)
    ensures weightedSimilarity == Score(data1, data2)
  {
    CanvasShape(data1);
    CanvasShape(data2);
    var pixelSimilarity := PixelSimilarity.CalculatePixelSimilarity(data1, data2);
    var structuralSimilarity := StructuralSimilarity.CalculateStructuralSimilarity(data1, data2, Width, Height);
    var colorDistributionSimilarity := ColorDistribution.CalculateColorDistribution(data1, data2);
    weightedSimilarity := pixelSimilarity * PixelWeight + structuralSimilarity * StructuralWeight
      + colorDistributionSimilarity * ColorWeight;
  }

  /** A canvas compared with itself scores at least 0.8 (pixel and structural are 1), and
      exactly 1 unless one of its pixels falls past the histogram's 32 slots. */
  lemma ScoreSelf(a: Canvas)
    ensures Score(a, a) >= 0.8
    ensures Score(a, a) == 1.0 <==> !ColorDistribution.Overflows(a)
  {
    CanvasShape(a);
    PixelSimilarity.PixelSimilaritySelf(a);
    StructuralSimilarity.StructuralSimilaritySelf(a, Width, Height);
    if !ColorDistribution.Overflows(a) {
      ColorDistribution.ColorDistributionSelf(a);
    }
  }

  /** Swapping the canvases keeps the score when neither overflows the histogram. */
  lemma ScoreSymmetricInRange(a: Canvas, b: Canvas)
    requires !ColorDistribution.Overflows(a) && !ColorDistribution.Overflows(b)
    ensures Score(a, b) == Score(b, a)
  {
    CanvasShape(a);
    CanvasShape(b);
    PixelSimilarity.PixelSimilaritySymmetric(a, b);
    StructuralSimilarity.StructuralSimilaritySymmetric(a, b, Width, Height);
    ColorDistribution.ColorDistributionSymmetricInRange(a, b);
  }

  /** The alpha channel of neither canvas affects the score. */
  lemma ScoreIgnoresAlpha(a: Canvas, a': Canvas, b: Canvas, b': Canvas)
    requires SameColours(a, a') && SameColours(b, b')
    ensures Score(a, b) == Score(a', b')
  {
    CanvasShape(a);
    CanvasShape(b);
    PixelSimilarity.PixelSimilarityIgnoresAlpha(a, a', b);
    PixelSimilarity.PixelSimilaritySymmetric(a', b);
    PixelSimilarity.PixelSimilarityIgnoresAlpha(b, b', a');
    PixelSimilarity.PixelSimilaritySymmetric(b', a');
    StructuralSimilarity.StructuralSimilarityIgnoresAlpha(a, a', b, Width, Height);
    StructuralSimilarity.StructuralSimilaritySymmetric(a', b, Width, Height);
    StructuralSimilarity.StructuralSimilarityIgnoresAlpha(b, b', a', Width, Height);
    StructuralSimilarity.StructuralSimilaritySymmetric(b', a', Width, Height);
    ColorDistribution.ColorDistributionIgnoresAlpha(a, a', b, b');
  }
}
