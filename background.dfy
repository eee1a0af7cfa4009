/**
  remove_background after the matting step: the background is resized to the matted
  foreground's size and the foreground is composited over it, then converted to RGB.
  The matting service and image decoding are outside the model: the matted foreground
  arrives as a decoded RGBA buffer, and the resampling is the parameter `resize`.
*/
module Background {
  import opened Raster
  import opened Layout
  import opened Compositor

  /** `img` is a valid buffer of exactly `w` x `h` pixels, as `Image.resize((w, h))` returns. */
  predicate SizedAs(img: Image, w: nat, h: nat) {
    img.Valid() && img.width == w && img.height == h
  }

  /** The background resized to the foreground's size. */
  function ResizedBackground(matted: Image, background: Image, resize: (Image, nat, nat) -> Image): Image {
    resize(background, matted.width, matted.height)
  }

  /** The single composite of remove_background, converted to RGB. */
  function RemoveBackground(over: (Pixel, Pixel) -> Pixel, matted: Image, background: Image,
                            resize: (Image, nat, nat) -> Image): (r: RgbImage)
    requires matted.Valid()
    requires SizedAs(ResizedBackground(matted, background, resize), matted.width, matted.height)
    ensures r.Valid() && r.width == matted.width && r.height == matted.height
  {
    ToRgb(AlphaComposite(over, ResizedBackground(matted, background, resize), matted))
  }

  /** A foreground that is fully opaque everywhere hides the background: the output is its RGB. */
  lemma OpaqueForegroundShowsForeground(over: (Pixel, Pixel) -> Pixel, matted: Image, background: Image,
                                        resize: (Image, nat, nat) -> Image)
    requires ExactOnBinary(over) && matted.Valid()
    requires SizedAs(ResizedBackground(matted, background, resize), matted.width, matted.height)
    requires forall x, y :: InCanvas(matted.width, matted.height, x, y) ==> matted.At(x, y).a == 255
    ensures RemoveBackground(over, matted, background, resize) == ToRgb(matted)
  {
    var composite := AlphaComposite(over, ResizedBackground(matted, background, resize), matted);
    SamePixels(composite, matted);
  }

  /** A foreground that is fully transparent everywhere leaves the resized background. */
  lemma TransparentForegroundShowsBackground(over: (Pixel, Pixel) -> Pixel, matted: Image, background: Image,
                                             resize: (Image, nat, nat) -> Image)
    requires ExactOnBinary(over) && matted.Valid()
    requires SizedAs(ResizedBackground(matted, background, resize), matted.width, matted.height)
    requires forall x, y :: InCanvas(matted.width, matted.height, x, y) ==> matted.At(x, y).a == 0
    ensures RemoveBackground(over, matted, background, resize) == ToRgb(ResizedBackground(matted, background, resize))
  {
    var resized := ResizedBackground(matted, background, resize);
    var composite := AlphaComposite(over, resized, matted);
    SamePixels(composite, resized);
  }

  /**
    The composite of remove_background is one iteration of the overlay loop: the foreground
    placed at (0, 0) over an accumulator holding the resized background.
  */
  lemma BackgroundIsOneOverlayStep(over: (Pixel, Pixel) -> Pixel, matted: Image, background: Image,
                                   resize: (Image, nat, nat) -> Image)
    requires matted.Valid()
    requires SizedAs(ResizedBackground(matted, background, resize), matted.width, matted.height)
    ensures RemoveBackground(over, matted, background, resize)
      == ToRgb(Step(over, ResizedBackground(matted, background, resize), Placement(matted, Point(0, 0))))
  {
    PasteOntoBlankIsCopy(matted);
  }
}
