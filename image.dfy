/**
 * The output image of the host framework, reduced to what the renderer
 * observes of it: its dimensions and the pixels last handed to it.
 * GPU texture creation and upload are not part of this model.
 */
module Walnut {
  import opened Pixels

  class Image {
    var width: U32
    var height: U32
    /** The pixel data most recently uploaded with `SetData`. */
    var published: seq<bv32>

    /** An RGBA image of the given size; nothing is said about its pixels. */
    constructor (width: U32, height: U32)
      ensures this.width == width && this.height == height
    {
      this.width := width;
      this.height := height;
      published := [];
    }

    /** Gives the image new dimensions; its previous pixels are not kept. */
    method Resize(width: U32, height: U32)
      modifies this
      ensures this.width == width && this.height == height
    {
      this.width := width;
      this.height := height;
      published := [];
    }

    /** Uploads a pixel buffer; the dimensions stay as they are. */
    method SetData(pixels: seq<bv32>)
      modifies this
      ensures published == pixels
      ensures width == old(width) && height == old(height)
    {
      published := pixels;
    }
  }
}
