/**
  The pixel-buffer operations the compositing engine uses: a fresh transparent canvas,
  `paste` of one buffer into another at an offset (with clipping), the pointwise
  `alpha_composite` of two equally sized buffers, and the RGBA-to-RGB conversion.

  The per-pixel "over" blend is a parameter `over(src, dst)`: the library's rounding for
  partial alpha is not modelled, and the properties that need it assume only
  `ExactOnBinary(over)`, i.e. that a fully transparent source leaves the destination
  unchanged and a fully opaque source replaces it.
*/
module Raster {

  newtype byte = x: int | 0 <= x < 256

  /** An RGBA pixel. */
  datatype Pixel = Pixel(r: byte, g: byte, b: byte, a: byte)

  /** An RGB pixel, what remains of a pixel after converting to mode "RGB". */
  datatype Rgb = Rgb(r: byte, g: byte, b: byte)

  const Transparent := Pixel(0, 0, 0, 0)

  /** An RGBA buffer; row `y`, column `x` is `rows[y][x]`, origin top-left. */
  datatype Image = Image(width: nat, height: nat, rows: seq<seq<Pixel>>) {

    predicate Valid() {
      |rows| == height && forall y :: 0 <= y < |rows| ==> |rows[y]| == width
    }

    /** The pixel at column `x`, row `y`; transparent outside the buffer. */
    function At(x: int, y: int): Pixel {
      if 0 <= y < |rows| && 0 <= x < |rows[y]| then rows[y][x] else Transparent
    }
  }

  /** An RGB buffer, the result of the final `convert("RGB")`. */
  datatype RgbImage = RgbImage(width: nat, height: nat, rows: seq<seq<Rgb>>) {

    predicate Valid() {
      |rows| == height && forall y :: 0 <= y < |rows| ==> |rows[y]| == width
    }
  }

  predicate InCanvas(w: nat, h: nat, x: int, y: int) {
    0 <= x < w && 0 <= y < h
  }

  /** The buffer of the given size whose every pixel is `f(x, y)`. */
  function Generate(w: nat, h: nat, f: (int, int) -> Pixel): (r: Image)
    ensures r.Valid() && r.width == w && r.height == h
    ensures forall x, y :: InCanvas(w, h, x, y) ==> r.At(x, y) == f(x, y)
  {
    Image(w, h, seq(h, y => seq(w, x => f(x, y))))
  }

  /** `Image.new("RGBA", (w, h), (0, 0, 0, 0))`. */
  function Blank(w: nat, h: nat): (r: Image)
    ensures r.Valid() && r.width == w && r.height == h
    ensures forall x, y :: InCanvas(w, h, x, y) ==> r.At(x, y) == Transparent
  {
    Generate(w, h, (x, y) => Transparent)
  }

  /** Whether canvas pixel (x, y) lies under `src` pasted with its top-left corner at (px, py). */
  predicate Covers(src: Image, px: int, py: int, x: int, y: int) {
    px <= x < px + src.width && py <= y < py + src.height
  }

  /**
    `dst.paste(src, (px, py))` with no mask: every canvas pixel under the pasted buffer takes
    the corresponding source pixel (alpha included); the part of `src` that falls outside
    the canvas is clipped away; every other pixel is left as it was.
  */
  function Paste(dst: Image, src: Image, px: int, py: int): (r: Image)
    ensures r.Valid() && r.width == dst.width && r.height == dst.height
    ensures forall x, y :: InCanvas(dst.width, dst.height, x, y) ==>
      r.At(x, y) == if Covers(src, px, py, x, y) then src.At(x - px, y - py) else dst.At(x, y)
  {
    Generate(dst.width, dst.height,
      (x, y) => if Covers(src, px, py, x, y) then src.At(x - px, y - py) else dst.At(x, y))
  }

  /** `Image.alpha_composite(dst, src)`: `src` over `dst`, pixel by pixel. */
  function AlphaComposite(over: (Pixel, Pixel) -> Pixel, dst: Image, src: Image): (r: Image)
    requires src.width == dst.width && src.height == dst.height
    ensures r.Valid() && r.width == dst.width && r.height == dst.height
    ensures forall x, y :: InCanvas(dst.width, dst.height, x, y) ==>
      r.At(x, y) == over(src.At(x, y), dst.At(x, y))
  {
    Generate(dst.width, dst.height, (x, y) => over(src.At(x, y), dst.At(x, y)))
  }

  /** The "over" blend is exact where the source alpha is 0 or 255. */
  ghost predicate ExactOnBinary(over: (Pixel, Pixel) -> Pixel) {
    forall s: Pixel, d: Pixel :: (s.a == 0 ==> over(s, d) == d) && (s.a == 255 ==> over(s, d) == s)
  }

  function RgbOf(p: Pixel): Rgb {
    Rgb(p.r, p.g, p.b)
  }

  /** `convert("RGB")` of an RGBA buffer: the alpha channel is dropped. */
  function ToRgb(img: Image): (r: RgbImage)
    requires img.Valid()
    ensures r.Valid() && r.width == img.width && r.height == img.height
    ensures forall x, y :: InCanvas(img.width, img.height, x, y) ==> r.rows[y][x] == RgbOf(img.At(x, y))
  {
    RgbImage(img.width, img.height,
      seq(img.height, y requires 0 <= y < img.height => seq(img.width, x => RgbOf(img.At(x, y)))))
  }

  /** Two valid buffers of one size that agree on every pixel are the same buffer. */
  lemma SamePixels(a: Image, b: Image)
    requires a.Valid() && b.Valid() && a.width == b.width && a.height == b.height
    requires forall x, y :: InCanvas(a.width, a.height, x, y) ==> a.At(x, y) == b.At(x, y)
    ensures a == b
  {
    forall y | 0 <= y < a.height
      ensures a.rows[y] == b.rows[y]
    {
      forall x | 0 <= x < a.width
        ensures a.rows[y][x] == b.rows[y][x]
      {
        assert a.At(x, y) == b.At(x, y);
      }
    }
  }

  /**
    Lines 196-197 of overlay_images: pasting a buffer at (0, 0) onto a fresh transparent
    canvas of its own size yields that buffer, so the accumulator starts as the base image.
  */
  lemma PasteOntoBlankIsCopy(img: Image)
    requires img.Valid()
    ensures Paste(Blank(img.width, img.height), img, 0, 0) == img
  {
    var r := Paste(Blank(img.width, img.height), img, 0, 0);
    forall x, y | InCanvas(img.width, img.height, x, y)
      ensures r.At(x, y) == img.At(x, y)
    {
      assert Covers(img, 0, 0, x, y);
    }
    SamePixels(r, img);
  }
}
