/** Pixel values and the unsigned 32-bit arithmetic the renderer does on them. */
module Pixels {

  /** The C++ `uint32_t`: the type of the requested width and height. */
  type U32 = x: int | 0 <= x < 0x1_0000_0000

  /** The alpha byte of a packed pixel (the most significant byte). */
  const ALPHA: bv32 := 0xff00_0000

  /** The three colour bytes of a packed pixel. */
  const COLOUR: bv32 := 0x00ff_ffff

  /**
   * `width * height` evaluated in `uint32_t`, as both the buffer allocation
   * and the render loop bound compute it: the product wraps modulo 2^32.
   * It is the exact pixel count precisely when the product fits in 32 bits.
   */
  function PixelCount(width: U32, height: U32): (n: U32)
    ensures n == width * height <==> width * height < 0x1_0000_0000
    ensures width == 0 || height == 0 ==> n == 0
  {
    var product: nat := width * height;
    product % 0x1_0000_0000
  }

  /**
   * One pixel of the fill: a random draw with its alpha byte forced to 0xff.
   * The result is fully opaque and keeps the draw's three colour bytes, and
   * those two facts determine it.
   */
  function ForceAlpha(v: bv32): (p: bv32)
    ensures p & ALPHA == ALPHA
    ensures p & COLOUR == v & COLOUR
  {
    v | ALPHA
  }

  /**
   * The frame that one render writes, pixel `k` coming from the `k`-th draw.
   * Built one pixel at a time in index order, as the render loop fills it.
   */
  function Frame(draws: seq<bv32>): (frame: seq<bv32>)
    ensures |frame| == |draws|
    ensures forall k :: 0 <= k < |draws| ==> frame[k] == ForceAlpha(draws[k])
    ensures forall k :: 0 <= k < |draws| ==> frame[k] & ALPHA == ALPHA
  {
    if draws == [] then []
    else Frame(draws[..|draws| - 1]) + [ForceAlpha(draws[|draws| - 1])]
  }

  /**
   * The alpha byte of each draw never reaches the image: two sequences of
   * draws that agree on their colour bytes give the same frame.
   */
  lemma FrameIgnoresDrawnAlpha(draws: seq<bv32>, other: seq<bv32>)
    requires |draws| == |other|
    requires forall k :: 0 <= k < |draws| ==> draws[k] & COLOUR == other[k] & COLOUR
    ensures Frame(draws) == Frame(other)
  {
  }
}
