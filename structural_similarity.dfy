/** The structural metric (`calculateStructuralSimilarity` with `detectEdges`): the share of
    8x8 blocks whose mean brightness (the "edge strength") differs by less than 0.3. */
module StructuralSimilarity {
  import opened Image

  /** `step`: block side in pixels, and the stride of both scan loops. */
  const Step: nat := 8
  /** Two blocks match when their edge strengths differ by less than this. */
  const MatchTolerance: real := 0.3

  /** Left (or top) coordinate of the j-th block of a row (or column). */
  function BlockOrigin(j: nat): (o: nat)
    ensures o == 8 * j
  {
    Step * j
  }

  /** Number of blocks the scan visits along an axis of `extent` pixels. The loop bound is
      `coordinate < extent - step`, so block j is visited exactly when its origin is below
      extent - 8: the last full block along each axis is never compared. */
  function BlocksAcross(extent: nat): (n: nat)
    ensures forall j: nat :: j < n <==> BlockOrigin(j) < extent - Step
  {
    if extent <= Step then 0 else (extent - 1) / Step
  }

  function AbsReal(x: real): real {
    if x < 0.0 then -x else x
  }

  /** R + G + B of pixel (x, y) in a row-major image `width` pixels wide, or 0 when its
      byte index is past the end of the buffer (the `idx < data.length` guard). */
  function Contribution(data: seq<byte>, x: nat, y: nat, width: nat): (c: nat)
    requires IsRgba(data)
    ensures c <= 765
  {
    var idx := (y * width + x) * 4;
    if idx < |data| then
      PixelInBounds(data, y * width + x);
      Brightness(data, idx)
    else 0
  }

  /** Sum over the pixels (x + dx, y) with dx < n. */
  function RowSum(data: seq<byte>, x: nat, y: nat, width: nat, n: nat): (s: nat)
    requires IsRgba(data)
    ensures s <= 765 * n
  {
    if n == 0 then 0
    else RowSum(data, x, y, width, n - 1) + Contribution(data, x + (n - 1), y, width)
  }

  /** Sum over the first `m` rows of the size x size block whose top-left pixel is (x, y). */
  function BlockSum(data: seq<byte>, x: nat, y: nat, size: nat, width: nat, m: nat): (s: nat)
    requires IsRgba(data)
    ensures s <= 765 * size * m
  {
    if m == 0 then 0
    else
      var rest := BlockSum(data, x, y, size, width, m - 1);
      var row := RowSum(data, x, y + (m - 1), width, size);
      assert 765 * size * m == 765 * size * (m - 1) + 765 * size;
      rest + row
  }

  /** `detectEdges`: the block's summed per-pixel brightness (R + G + B) / 3, divided by
      size * size * 255. The divisor is 0 when size is 0, so size must be positive. */
  function EdgeStrength(data: seq<byte>, x: nat, y: nat, size: nat, width: nat): (e: real)
    requires IsRgba(data) && size > 0
    ensures 0.0 <= e <= 1.0
  {
    var sum := BlockSum(data, x, y, size, width, size);
    var scale := size * size * 255;
    assert 765 * size * size == 3 * scale;
    MeanInUnit(sum, scale);
    (sum as real / 3.0) / scale as real
  }

  /** A sum of at most `scale` thirds, each of at most 1, over `scale` lies in [0, 1]. */
  lemma MeanInUnit(sum: nat, scale: nat)
    requires scale > 0 && sum <= 3 * scale
    ensures 0.0 <= (sum as real / 3.0) / scale as real <= 1.0
  {
    RatioInUnit(sum as real / 3.0, scale as real);
  }

  /** The nested loops of `detectEdges`. */
  method DetectEdges(data: seq<byte>, x: nat, y: nat, size: nat, width: nat) returns (strength: real)
    requires IsRgba(data) && size > 0
    ensures strength == EdgeStrength(data, x, y, size, width)
  {
    var edgeStrength: real := 0.0;
    for dy := 0 to size
      invariant edgeStrength == BlockSum(data, x, y, size, width, dy) as real / 3.0
    {
      for dx := 0 to size
        invariant edgeStrength
               == (BlockSum(data, x, y, size, width, dy) + RowSum(data, x, y + dy, width, dx)) as real / 3.0
      {
        ghost var before := BlockSum(data, x, y, size, width, dy) + RowSum(data, x, y + dy, width, dx);
        assert RowSum(data, x, y + dy, width, dx + 1) == RowSum(data, x, y + dy, width, dx) + Contribution(data, x + dx, y + dy, width);
        var idx := ((y + dy) * width + (x + dx)) * 4;
        if idx < |data| {
          PixelInBounds(data, (y + dy) * width + (x + dx));
          var brightness := (data[idx] as int + data[idx + 1] as int + data[idx + 2] as int) as real / 3.0;
          assert brightness == Contribution(data, x + dx, y + dy, width) as real / 3.0;
          edgeStrength := edgeStrength + brightness;
        } else {
          assert Contribution(data, x + dx, y + dy, width) == 0;
        }
        assert edgeStrength == (before + Contribution(data, x + dx, y + dy, width)) as real / 3.0;
      }
      assert BlockSum(data, x, y, size, width, dy + 1) == BlockSum(data, x, y, size, width, dy) + RowSum(data, x, y + dy, width, size);
    }
    strength := edgeStrength / (size * size * 255) as real;
  }

  predicate BlocksMatch(d1: seq<byte>, d2: seq<byte>, x: nat, y: nat, width: nat)
    requires IsRgba(d1) && IsRgba(d2)
  {
    AbsReal(EdgeStrength(d1, x, y, Step, width) - EdgeStrength(d2, x, y, Step, width)) < MatchTolerance
  }

  /** Matching blocks among the first `n` blocks of the block row at height y. */
  function RowMatches(d1: seq<byte>, d2: seq<byte>, y: nat, width: nat, n: nat): (c: nat)
    requires IsRgba(d1) && IsRgba(d2)
    ensures c <= n
  {
    if n == 0 then 0
    else RowMatches(d1, d2, y, width, n - 1) + (if BlocksMatch(d1, d2, BlockOrigin(n - 1), y, width) then 1 else 0)
  }

  /** Matching blocks among the first `m` block rows, each scanned across its full width. */
  function Matches(d1: seq<byte>, d2: seq<byte>, width: nat, m: nat): (c: nat)
    requires IsRgba(d1) && IsRgba(d2)
    ensures c <= m * BlocksAcross(width)
  {
    if m == 0 then 0
    else
      var columns := BlocksAcross(width);
      assert m * columns == (m - 1) * columns + columns;
      Matches(d1, d2, width, m - 1) + RowMatches(d1, d2, BlockOrigin(m - 1), width, columns)
  }

  /** structuralMatches / totalChecks. With width or height at most 8 no block is visited
      and the source divides 0 by 0, so both must exceed 8. */
  function StructuralSimilarity(d1: seq<byte>, d2: seq<byte>, width: nat, height: nat): (r: real)
    requires IsRgba(d1) && IsRgba(d2) && width > Step && height > Step
    ensures 0.0 <= r <= 1.0
  {
    var columns, rows := BlocksAcross(width), BlocksAcross(height);
    assert BlockOrigin(0) < width - Step && BlockOrigin(0) < height - Step;
    RatioInUnit(Matches(d1, d2, width, rows) as real, (rows * columns) as real);
    Matches(d1, d2, width, rows) as real / (rows * columns) as real
  }

  /** The nested block loops of `calculateStructuralSimilarity`. */
  method CalculateStructuralSimilarity(data1: seq<byte>, data2: seq<byte>, width: nat, height: nat)
    returns (similarity: real)
    requires IsRgba(data1) && IsRgba(data2) && width > Step && height > Step
    ensures similarity == StructuralSimilarity(data1, data2, width, height)
  {
    var structuralMatches: nat := 0;
    var totalChecks: nat := 0;
    var step := Step;
    var columns := BlocksAcross(width);
    var y: nat := 0;
    ghost var row: nat := 0;
    while y < height - step
      invariant y == BlockOrigin(row) && row <= BlocksAcross(height)
      invariant structuralMatches == Matches(data1, data2, width, row)
      invariant totalChecks == row * columns
    {
      var x: nat := 0;
      ghost var column: nat := 0;
      while x < width - step
        invariant x == BlockOrigin(column) && column <= columns
        invariant structuralMatches == Matches(data1, data2, width, row) + RowMatches(data1, data2, y, width, column)
        invariant totalChecks == row * columns + column
      {
        var edge1 := DetectEdges(data1, x, y, step, width);
        var edge2 := DetectEdges(data2, x, y, step, width);
        if AbsReal(edge1 - edge2) < MatchTolerance {
          structuralMatches := structuralMatches + 1;
        }
        totalChecks := totalChecks + 1;
        x := x + step;
        column := column + 1;
      }
      assert (row + 1) * columns == row * columns + columns;
      y := y + step;
      row := row + 1;
    }
    similarity := structuralMatches as real / totalChecks as real;
  }

  /** On the 200x200 canvas the scan visits 24 x 24 = 576 blocks; the full block starting at
      pixel 192 of each axis is skipped. */
  lemma CanvasBlocks()
    ensures BlocksAcross(Width) == 24 && BlocksAcross(Height) == 24
    ensures BlocksAcross(Width) * BlocksAcross(Height) == 576
    ensures BlockOrigin(BlocksAcross(Width)) + Step == Width
  {
  }

  lemma {:induction false} RowMatchesSymmetric(d1: seq<byte>, d2: seq<byte>, y: nat, width: nat, n: nat)
    requires IsRgba(d1) && IsRgba(d2)
    ensures RowMatches(d1, d2, y, width, n) == RowMatches(d2, d1, y, width, n)
  {
    if n > 0 {
      RowMatchesSymmetric(d1, d2, y, width, n - 1);
    }
  }

  lemma {:induction false} MatchesSymmetric(d1: seq<byte>, d2: seq<byte>, width: nat, m: nat)
    requires IsRgba(d1) && IsRgba(d2)
    ensures Matches(d1, d2, width, m) == Matches(d2, d1, width, m)
  {
    if m > 0 {
      MatchesSymmetric(d1, d2, width, m - 1);
      RowMatchesSymmetric(d1, d2, BlockOrigin(m - 1), width, BlocksAcross(width));
    }
  }

  /** Swapping the two buffers does not change the score. */
  lemma StructuralSimilaritySymmetric(d1: seq<byte>, d2: seq<byte>, width: nat, height: nat)
    requires IsRgba(d1) && IsRgba(d2) && width > Step && height > Step
    ensures StructuralSimilarity(d1, d2, width, height) == StructuralSimilarity(d2, d1, width, height)
  {
    MatchesSymmetric(d1, d2, width, BlocksAcross(height));
  }

  lemma {:induction false} RowMatchesSelf(d: seq<byte>, y: nat, width: nat, n: nat)
    requires IsRgba(d)
    ensures RowMatches(d, d, y, width, n) == n
  {
    if n > 0 {
      RowMatchesSelf(d, y, width, n - 1);
    }
  }

  lemma {:induction false} MatchesSelf(d: seq<byte>, width: nat, m: nat)
    requires IsRgba(d)
    ensures Matches(d, d, width, m) == m * BlocksAcross(width)
  {
    if m > 0 {
      MatchesSelf(d, width, m - 1);
      RowMatchesSelf(d, BlockOrigin(m - 1), width, BlocksAcross(width));
      assert m * BlocksAcross(width) == (m - 1) * BlocksAcross(width) + BlocksAcross(width);
    }
  }

  /** Every block of a buffer matches itself, so the score is exactly 1. */
  lemma StructuralSimilaritySelf(d: seq<byte>, width: nat, height: nat)
    requires IsRgba(d) && width > Step && height > Step
    ensures StructuralSimilarity(d, d, width, height) == 1.0
  {
    var columns, rows := BlocksAcross(width), BlocksAcross(height);
    assert BlockOrigin(0) < width - Step && BlockOrigin(0) < height - Step;
    MatchesSelf(d, width, rows);
    assert Matches(d, d, width, rows) == rows * columns;
    assert rows > 0 && columns > 0;
    assert rows * columns >= columns;
    WholeRatio(rows * columns);
  }

  lemma {:induction false} RowSumIgnoresAlpha(d: seq<byte>, e: seq<byte>, x: nat, y: nat, width: nat, n: nat)
    requires IsRgba(d) && SameColours(d, e)
    ensures RowSum(d, x, y, width, n) == RowSum(e, x, y, width, n)
  {
    if n > 0 {
      RowSumIgnoresAlpha(d, e, x, y, width, n - 1);
      var idx := (y * width + x + (n - 1)) * 4;
      if idx < |d| {
        PixelInBounds(d, y * width + x + (n - 1));
        SameColoursAt(d, e, y * width + x + (n - 1));
      }
    }
  }

  lemma {:induction false} BlockSumIgnoresAlpha(d: seq<byte>, e: seq<byte>, x: nat, y: nat, size: nat, width: nat, m: nat)
    requires IsRgba(d) && SameColours(d, e)
    ensures BlockSum(d, x, y, size, width, m) == BlockSum(e, x, y, size, width, m)
  {
    if m > 0 {
      BlockSumIgnoresAlpha(d, e, x, y, size, width, m - 1);
      RowSumIgnoresAlpha(d, e, x, y + (m - 1), width, size);
    }
  }

  lemma {:induction false} RowMatchesIgnoresAlpha(d1: seq<byte>, e1: seq<byte>, d2: seq<byte>, y: nat, width: nat, n: nat)
    requires IsRgba(d1) && IsRgba(d2) && SameColours(d1, e1)
    ensures RowMatches(d1, d2, y, width, n) == RowMatches(e1, d2, y, width, n)
  {
    if n > 0 {
      RowMatchesIgnoresAlpha(d1, e1, d2, y, width, n - 1);
      BlockSumIgnoresAlpha(d1, e1, BlockOrigin(n - 1), y, Step, width, Step);
    }
  }

  lemma {:induction false} MatchesIgnoresAlpha(d1: seq<byte>, e1: seq<byte>, d2: seq<byte>, width: nat, m: nat)
    requires IsRgba(d1) && IsRgba(d2) && SameColours(d1, e1)
    ensures Matches(d1, d2, width, m) == Matches(e1, d2, width, m)
  {
    if m > 0 {
      MatchesIgnoresAlpha(d1, e1, d2, width, m - 1);
      RowMatchesIgnoresAlpha(d1, e1, d2, BlockOrigin(m - 1), width, BlocksAcross(width));
    }
  }

  /** Alpha is never read: changing only the alpha channel of the first buffer keeps the score. */
  lemma StructuralSimilarityIgnoresAlpha(d1: seq<byte>, e1: seq<byte>, d2: seq<byte>, width: nat, height: nat)
    requires IsRgba(d1) && IsRgba(d2) && SameColours(d1, e1) && width > Step && height > Step
    ensures StructuralSimilarity(d1, d2, width, height) == StructuralSimilarity(e1, d2, width, height)
  {
    MatchesIgnoresAlpha(d1, e1, d2, width, BlocksAcross(height));
  }
}
