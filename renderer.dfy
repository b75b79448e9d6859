/**
 * The renderer of the ray tracer at its noise-fill stage: it owns a pixel
 * buffer sized to an output image, fills the buffer with random opaque
 * pixels and publishes it to the image.
 */
module RayTracing {
  import opened Pixels
  import opened Walnut

  /**
   * Everything about a renderer an observer can tell apart: which image and
   * which buffer it holds, the image's dimensions and published pixels, and
   * the buffer's contents.
   */
  datatype Snapshot = Snapshot(
    image: Image?, buffer: array?<bv32>,
    width: int, height: int, published: seq<bv32>, contents: seq<bv32>)

  class Renderer {
    /** The shared output image; absent until the first resize. */
    var finalImage: Image?
    /** The privately owned pixel buffer; absent until the first resize. */
    var imageData: array?<bv32>

    /**
     * The image and the buffer exist together, and the buffer holds one
     * pixel per pixel of the image, counted in 32-bit arithmetic.
     */
    ghost predicate Valid()
      reads this, finalImage
    {
      (finalImage == null <==> imageData == null) &&
      (finalImage != null ==>
        imageData.Length == PixelCount(finalImage.width, finalImage.height))
    }

    ghost function Observe(): Snapshot
      reads this, finalImage, imageData
    {
      Snapshot(
        finalImage, imageData,
        if finalImage == null then 0 else finalImage.width,
        if finalImage == null then 0 else finalImage.height,
        if finalImage == null then [] else finalImage.published,
        if imageData == null then [] else imageData[..])
    }

    /** A new renderer has neither an image nor a pixel buffer. */
    constructor ()
      ensures Valid()
      ensures finalImage == null && imageData == null
    {
      finalImage := null;
      imageData := null;
    }

    /** Hands out the image handle itself (not a copy) and changes nothing. */
    method GetFinalImage() returns (image: Image?)
      ensures image == finalImage
    {
      image := finalImage;
    }

    /**
     * Makes the image and the buffer match the requested size. A request for
     * the size the existing image already has changes nothing at all.
     * Otherwise the existing image is resized in place (the first call
     * creates it) and the buffer is replaced by a fresh one whose contents
     * are left unspecified.
     */
    method OnResize(width: U32, height: U32)
      requires Valid()
      modifies this, finalImage
      ensures Valid() && finalImage != null && imageData != null
      ensures finalImage.width == width && finalImage.height == height
      ensures imageData.Length == PixelCount(width, height)
      ensures old(finalImage) != null ==> finalImage == old(finalImage)
      ensures old(finalImage) == null ==> fresh(finalImage)
      ensures if old(finalImage) != null && old(finalImage.width) == width && old(finalImage.height) == height
              then Observe() == old(Observe())
              else fresh(imageData)
    {
      if finalImage != null {
        if finalImage.width == width && finalImage.height == height {
          return;
        }
        finalImage.Resize(width, height);
      } else {
        finalImage := new Image(width, height);
      }
      imageData := new bv32[PixelCount(width, height)];
    }

    /**
     * Overwrites every pixel of the buffer, in index order, with the next
     * random draw made opaque, then publishes the whole buffer to the image.
     * `draws` stands for the values of the random source, one per pixel.
     */
    method Render(draws: seq<bv32>)
      requires Valid() && finalImage != null
      requires |draws| == PixelCount(finalImage.width, finalImage.height)
      modifies imageData, finalImage
      ensures Valid()
      ensures finalImage.width == old(finalImage.width) && finalImage.height == old(finalImage.height)
      ensures imageData[..] == Frame(draws)
      ensures finalImage.published == imageData[..]
    {
      var i := 0;
      while i < PixelCount(finalImage.width, finalImage.height)
        modifies imageData
        invariant i <= imageData.Length
        invariant forall k :: 0 <= k < i ==> imageData[k] == ForceAlpha(draws[k])
      {
        imageData[i] := draws[i];
        imageData[i] := imageData[i] | ALPHA;
        i := i + 1;
      }
      assert imageData[..] == Frame(draws);
      finalImage.SetData(imageData[..]);
    }
  }

  /**
   * Resizing twice to the same size ends in the state a single resize
   * leaves: `once` is the state observed between the two calls, and it is
   * what one `OnResize` promises; the second call leaves it as it is.
   */
  method ResizeTwice(r: Renderer, width: U32, height: U32) returns (ghost once: Snapshot)
    requires r.Valid()
    modifies r, r.finalImage
    ensures r.Valid()
    ensures once.image != null && once.buffer != null
    ensures once.width == width && once.height == height
    ensures once.buffer.Length == PixelCount(width, height)
    ensures old(r.finalImage) != null ==> once.image == old(r.finalImage)
    ensures old(r.finalImage) == null ==> fresh(once.image)
    ensures if old(r.finalImage) != null && old(r.finalImage.width) == width && old(r.finalImage.height) == height
            then once == old(r.Observe())
            else fresh(once.buffer)
    ensures r.Observe() == once
  {
    r.OnResize(width, height);
    once := r.Observe();
    r.OnResize(width, height);
  }
}
