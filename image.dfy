/** Canonical RGBA pixel buffers, as returned by `getImageData` on the detector's
    200x200 drawing surfaces: row-major, four bytes (R, G, B, A) per pixel. */
module Image {

  /** One channel value of a `Uint8ClampedArray`. */
  type byte = x: int | 0 <= x < 256

  const Width: nat := 200
  const Height: nat := 200
  const CanvasBytes: nat := Width * Height * 4

  /** A buffer of the size every comparison works on. */
  type Canvas = s: seq<byte> | |s| == CanvasBytes witness seq(CanvasBytes, _ => 0)

  /** Whole pixels only: every pixel that starts inside the buffer has all four channels. */
  predicate IsRgba(data: seq<byte>) {
    |data| % 4 == 0
  }

  function Abs(x: int): (r: nat)
    ensures r == x || r == -x
  {
    if x < 0 then -x else x
  }

  lemma PixelInBounds(data: seq<byte>, p: nat)
    requires IsRgba(data) && 4 * p < |data|
    ensures 4 * p + 3 < |data|
  {
  }

  /** A part divided by a larger, positive whole lies in [0, 1]. */
  lemma RatioInUnit(part: real, whole: real)
    requires 0.0 <= part <= whole && whole > 0.0
    ensures 0.0 <= part / whole <= 1.0
  {
  }

  /** A positive whole divided by itself is 1. */
  lemma WholeRatio(whole: nat)
    requires whole > 0
    ensures whole as real / whole as real == 1.0
  {
  }

  /** R + G + B of the pixel whose red channel is at byte offset `i` (0..765). */
  function Brightness(data: seq<byte>, i: nat): (b: nat)
    requires i + 2 < |data|
    ensures b <= 765
  {
    data[i] as int + data[i + 1] as int + data[i + 2] as int
  }

  /** The colour channels (R, G, B) of pixel p; alpha is left out. */
  function Rgb(data: seq<byte>, p: nat): (byte, byte, byte)
    requires 4 * p + 2 < |data|
  {
    (data[4 * p], data[4 * p + 1], data[4 * p + 2])
  }

  /** Two buffers of the same length whose pixels agree on every colour channel: they may
      differ only in alpha. */
  ghost predicate SameColours(d1: seq<byte>, d2: seq<byte>) {
    |d1| == |d2| && forall p: nat :: 4 * p + 2 < |d1| ==> Rgb(d1, p) == Rgb(d2, p)
  }

  lemma SameColoursAt(d1: seq<byte>, d2: seq<byte>, p: nat)
    requires SameColours(d1, d2) && 4 * p + 2 < |d1|
    ensures d1[4 * p] == d2[4 * p] && d1[4 * p + 1] == d2[4 * p + 1] && d1[4 * p + 2] == d2[4 * p + 2]
  {
    assert Rgb(d1, p) == Rgb(d2, p);
  }
}
