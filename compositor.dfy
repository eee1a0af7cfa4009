/**
  overlay_images: the layout string check, the icon list with its odd icon popped and put
  back, the position list built by comprehension, append and extend, and the compositing
  loop that pastes each icon into a fresh transparent layer and composites that layer over
  the accumulator, in list order.
*/
module Compositor {
  import opened Wrappers
  import opened Raster
  import opened Layout

  /** One (icon, position) pair of the compositing loop. */
  datatype Placement = Placement(icon: Image, at: Point)

  /** `zip(icons, positions)`: pairs index by index, stopping at the shorter list. */
  function Zip(icons: seq<Image>, positions: seq<Point>): (r: seq<Placement>)
    ensures |r| == Min(|icons|, |positions|)
    ensures forall i :: 0 <= i < |r| ==> r[i].icon == icons[i] && r[i].at == positions[i]
  {
    seq(Min(|icons|, |positions|),
      i requires 0 <= i < Min(|icons|, |positions|) => Placement(icons[i], positions[i]))
  }

  /** The icons resized to `size` x `size` by the (unmodelled) resampling function. */
  function ResizeAll(resize: (Image, nat, nat) -> Image, sources: seq<Image>, size: nat): (r: seq<Image>)
    ensures |r| == |sources|
    ensures forall i :: 0 <= i < |r| ==> r[i] == resize(sources[i], size, size)
  {
    seq(|sources|, i requires 0 <= i < |sources| => resize(sources[i], size, size))
  }

  /** The temporary layer of one iteration: a transparent canvas with the icon pasted on it. */
  function Layer(w: nat, h: nat, p: Placement): Image {
    Paste(Blank(w, h), p.icon, p.at.x, p.at.y)
  }

  /** What the layer of `p` shows at (x, y): the icon's pixel inside its footprint, else nothing. */
  function LayerPixel(p: Placement, x: int, y: int): Pixel {
    if Covers(p.icon, p.at.x, p.at.y, x, y) then p.icon.At(x - p.at.x, y - p.at.y) else Transparent
  }

  /** One iteration of the loop: the icon's layer composited over the accumulator. */
  function Step(over: (Pixel, Pixel) -> Pixel, acc: Image, p: Placement): (r: Image)
    ensures r.Valid() && r.width == acc.width && r.height == acc.height
    ensures forall x, y :: InCanvas(acc.width, acc.height, x, y) ==>
      r.At(x, y) == over(LayerPixel(p, x, y), acc.At(x, y))
  {
    AlphaComposite(over, acc, Layer(acc.width, acc.height, p))
  }

  /** The accumulator after the loop has run over `ps`, starting from `base`. */
  function Fold(over: (Pixel, Pixel) -> Pixel, base: Image, ps: seq<Placement>): (r: Image)
    requires base.Valid()
    ensures r.Valid() && r.width == base.width && r.height == base.height
    decreases |ps|
  {
    if ps == [] then base
    else Step(over, Fold(over, base, ps[..|ps| - 1]), ps[|ps| - 1])
  }

  /** The RGBA image overlay_images builds before its final conversion to RGB. */
  function Render(over: (Pixel, Pixel) -> Pixel, base: Image, axis: Axis, icons: seq<Image>): Image
    requires base.Valid()
  {
    Fold(over, base, Zip(icons, Positions(axis, base.width, base.height, |icons|)))
  }

  /** The error overlay_images raises for a layout string other than "top" and "side". */
  datatype OverlayError = InvalidLayout(layoutType: string)

  /**
    overlay_images on a decoded base image and decoded icons. An unknown layout string fails
    before any icon is resized and produces no image; otherwise the result is the RGB
    conversion of the base with every resized icon composited at its position, in order.
  */
  method OverlayImages(base: Image, layoutType: string, sources: seq<Image>,
                       resize: (Image, nat, nat) -> Image, over: (Pixel, Pixel) -> Pixel)
    returns (r: Result<RgbImage, OverlayError>)
    requires base.Valid()
    ensures r.Failure? <==> layoutType != "top" && layoutType != "side"
    ensures r.Failure? ==> r.error == InvalidLayout(layoutType)
    ensures r.Success? ==>
      var axis := if layoutType == "top" then Top else Side;
      var size := ComputeMetrics(axis, base.width, base.height, |sources|).iconSize;
      r.value == ToRgb(Render(over, base, axis, ResizeAll(resize, sources, size)))
  {
    var parsed := ParseLayout(layoutType);
    if parsed.None? {
      return Failure(InvalidLayout(layoutType));
    }
    var axis := parsed.value;
    var n := |sources|;
    var m := ComputeMetrics(axis, base.width, base.height, n);
    var images := ResizeAll(resize, sources, m.iconSize);
    ghost var loaded := images;

    var oddImage: Option<Image> := None;
    if n % 2 != 0 {
      oddImage := Some(images[|images| - 1]);
      images := images[..|images| - 1];
    }
    var positions := PositionList(axis, base.width, base.height, n, |images|, oddImage.Some?);

    var icons := images + (if oddImage.Some? then [oddImage.value] else []);
    assert icons == loaded;
    var finalImage := CompositeAll(over, base, Zip(icons, positions));
    return Success(ToRgb(finalImage));
  }

  /**
    The position list as overlay_images builds it: the first edge's comprehension, then
    `append` of the odd icon's position, then `extend` by the second edge's comprehension
    over the `remaining` icons left after the pop. It is the list `Positions` describes.
  */
  method PositionList(axis: Axis, w: nat, h: nat, n: nat, remaining: nat, hasOdd: bool)
    returns (positions: seq<Point>)
    requires remaining == n - n % 2 && hasOdd == (n % 2 != 0)
    ensures positions == Positions(axis, w, h, n)
  {
    var m := ComputeMetrics(axis, w, h, n);
    var half := n / 2;
    match axis {
      case Top =>
        var step := w / (half + 1);
        var positionsTop := Row(step, m.margin, m.padding, half);
        if hasOdd {
          positionsTop := positionsTop + [Point(step * half - m.margin, m.padding)];
        }
        positions := positionsTop;
        positions := positions + Row(step, m.margin, h - m.iconSize - m.padding, remaining - half);
      case Side =>
        var step := h / (half + 1);
        var positionsLeft := Column(m.padding, step, m.margin, half);
        if hasOdd {
          positionsLeft := positionsLeft + [Point(w - m.iconSize - m.padding, step * half - m.margin)];
        }
        positions := positionsLeft;
        positions := positions
          + Column(w - m.iconSize - m.padding, h / (remaining - half + 1), m.margin, remaining - half);
    }
  }

  /**
    The compositing loop: the accumulator starts as the base pasted onto a transparent
    canvas of its size and absorbs one layer per pair, in order; it ends as `Fold`.
  */
  method CompositeAll(over: (Pixel, Pixel) -> Pixel, base: Image, pairs: seq<Placement>)
    returns (finalImage: Image)
    requires base.Valid()
    ensures finalImage == Fold(over, base, pairs)
  {
    finalImage := Paste(Blank(base.width, base.height), base, 0, 0);
    PasteOntoBlankIsCopy(base);
    var i := 0;
    while i < |pairs|
      invariant 0 <= i <= |pairs|
      invariant finalImage == Fold(over, base, pairs[..i])
    {
      assert pairs[..i + 1][..i] == pairs[..i];
      finalImage := Step(over, finalImage, pairs[i]);
      i := i + 1;
    }
    assert pairs[..i] == pairs;
  }

  /**
    The zipped loop visits every icon, in the original order, each with its own position:
    popping the odd icon and appending it back restores the list, and the position list is
    exactly as long, so zip never truncates.
  */
  lemma EveryIconPlaced(axis: Axis, w: nat, h: nat, icons: seq<Image>)
    ensures var ps := Zip(icons, Positions(axis, w, h, |icons|));
      && |ps| == |icons|
      && forall i :: 0 <= i < |icons| ==> ps[i].icon == icons[i]
  {
  }

  /**
    A canvas pixel that no icon's layer covers opaquely (outside every clipped footprint, or
    transparent there) keeps the base image's pixel.
  */
  lemma {:induction false} FoldKeepsBase(over: (Pixel, Pixel) -> Pixel, base: Image,
                                         ps: seq<Placement>, x: int, y: int)
    requires ExactOnBinary(over) && base.Valid()
    requires InCanvas(base.width, base.height, x, y)
    requires forall k :: 0 <= k < |ps| ==> LayerPixel(ps[k], x, y).a == 0
    ensures Fold(over, base, ps).At(x, y) == base.At(x, y)
    decreases |ps|
  {
    if ps != [] {
      var prefix := ps[..|ps| - 1];
      FoldKeepsBase(over, base, prefix, x, y);
      assert LayerPixel(ps[|ps| - 1], x, y).a == 0;
    }
  }

  /**
    Where footprints overlap, the last icon in list order whose layer is opaque at a pixel
    decides that pixel, provided every later layer is transparent there.
  */
  lemma {:induction false} FoldLastOpaqueWins(over: (Pixel, Pixel) -> Pixel, base: Image,
                                              ps: seq<Placement>, k: nat, x: int, y: int)
    requires ExactOnBinary(over) && base.Valid()
    requires InCanvas(base.width, base.height, x, y)
    requires k < |ps| && LayerPixel(ps[k], x, y).a == 255
    requires forall j :: k < j < |ps| ==> LayerPixel(ps[j], x, y).a == 0
    ensures Fold(over, base, ps).At(x, y) == LayerPixel(ps[k], x, y)
    decreases |ps|
  {
    var last := |ps| - 1;
    if k < last {
      var prefix := ps[..last];
      FoldLastOpaqueWins(over, base, prefix, k, x, y);
      assert LayerPixel(ps[last], x, y).a == 0;
    }
  }

  /** The overlay output has the base image's dimensions, whatever the layout and icons. */
  lemma RenderKeepsSize(over: (Pixel, Pixel) -> Pixel, base: Image, axis: Axis, icons: seq<Image>)
    requires base.Valid()
    ensures var out := ToRgb(Render(over, base, axis, icons));
      out.Valid() && out.width == base.width && out.height == base.height
  {
  }

  /** A pixel outside every icon's clipped footprint keeps the base image's colour. */
  lemma RenderUncoveredKeepsBase(over: (Pixel, Pixel) -> Pixel, base: Image, axis: Axis,
                                 icons: seq<Image>, x: int, y: int)
    requires ExactOnBinary(over) && base.Valid()
    requires InCanvas(base.width, base.height, x, y)
    requires var ps := Positions(axis, base.width, base.height, |icons|);
      forall i :: 0 <= i < |icons| ==> !Covers(icons[i], ps[i].x, ps[i].y, x, y)
    ensures ToRgb(Render(over, base, axis, icons)).rows[y][x] == RgbOf(base.At(x, y))
  {
    var ps := Zip(icons, Positions(axis, base.width, base.height, |icons|));
    FoldKeepsBase(over, base, ps, x, y);
  }

  /** With no icons there are no positions (no division by zero) and the output is the base. */
  lemma RenderNoIconsIsBase(over: (Pixel, Pixel) -> Pixel, base: Image, axis: Axis)
    requires base.Valid()
    ensures Positions(axis, base.width, base.height, 0) == []
    ensures Render(over, base, axis, []) == base
  {
  }
}
