/**
  The layout engine of overlay_images: from the base canvas size, the layout kind and the
  number of icons it derives the slot count, icon size, padding and margin (all by floor
  division, which for the positive divisors used here is Dafny's `/`), and the ordered list
  of icon positions along two opposite edges of the canvas.
*/
module Layout {
  import opened Wrappers

  /** "top": icons along the top and bottom edges; "side": along the left and right edges. */
  datatype Axis = Top | Side

  /** The layout string check; any other string makes overlay_images raise ValueError. */
  function ParseLayout(layoutType: string): (r: Option<Axis>)
    ensures r == Some(Top) <==> layoutType == "top"
    ensures r == Some(Side) <==> layoutType == "side"
  {
    if layoutType == "top" then Some(Top)
    else if layoutType == "side" then Some(Side)
    else None
  }

  /** The number of slots on the first edge: the icon count halved, rounded up. */
  function SlotCount(n: nat): (c: nat)
    ensures 2 * c == n + n % 2
  {
    if n % 2 == 1 then n / 2 + 1 else n / 2
  }

  datatype Metrics = Metrics(count: nat, iconSize: int, padding: int, margin: int)

  function Min(a: int, b: int): int {
    if a <= b then a else b
  }

  /** The canvas side the slots run along. */
  function LongSide(axis: Axis, w: nat, h: nat): nat {
    if axis == Top then w else h
  }

  /** The canvas side across the slots. */
  function ShortSide(axis: Axis, w: nat, h: nat): nat {
    if axis == Top then h else w
  }

  /** The length of `count` icons with a padding before, between and after them. */
  function RowExtent(m: Metrics): int {
    m.iconSize * m.count + m.padding * (m.count + 1)
  }

  /**
    The derived sizes: the icon size is the smaller of five sixths of a slot's share of the
    long side and a sixth of the short side; the padding is a fifth of the icon size; the
    margin plus one padding is half (rounded down) of what the row of slots leaves free of
    the long side.
  */
  function ComputeMetrics(axis: Axis, w: nat, h: nat, n: nat): (m: Metrics)
    ensures m.count == SlotCount(n)
    ensures var l, s := LongSide(axis, w, h), ShortSide(axis, w, h);
      && m.iconSize <= s / 6
      && m.iconSize <= l / ((m.count + 1) * 6) * 5
      && (m.iconSize == s / 6 || m.iconSize == l / ((m.count + 1) * 6) * 5)
    ensures 0 <= 5 * m.padding <= m.iconSize < 5 * m.padding + 5
    ensures 0 <= LongSide(axis, w, h) - RowExtent(m) - 2 * (m.margin + m.padding) <= 1
  {
    var count := SlotCount(n);
    match axis
    case Top => Derive(w, h, count)
    case Side => Derive(h, w, count)
  }

  /**
    The three assignments of one branch of overlay_images; the "top" branch passes (width,
    height), the "side" branch (height, width).
  */
  function Derive(long: nat, short: nat, count: nat): (m: Metrics)
    ensures m.count == count
    ensures && m.iconSize <= short / 6
      && m.iconSize <= long / ((count + 1) * 6) * 5
      && (m.iconSize == short / 6 || m.iconSize == long / ((count + 1) * 6) * 5)
    ensures 0 <= 5 * m.padding <= m.iconSize < 5 * m.padding + 5
    ensures 0 <= long - RowExtent(m) - 2 * (m.margin + m.padding) <= 1
  {
    var d := (count + 1) * 6;
    DivBounds(long, d);
    var size := Min(long / d * 5, short / 6);
    var padding := size / 5;
    var extent := size * count + padding * (count + 1);
    Metrics(count, size, padding, (long - extent) / 2 - padding)
  }

  /** Floor division by a positive divisor. */
  lemma DivBounds(a: nat, d: int)
    requires d > 0
    ensures 0 <= a / d && d * (a / d) <= a
  {
  }

  lemma Distribute(q: int, c: int)
    ensures 5 * q * c == 5 * (q * c)
    ensures q * (c + 1) == q * c + q
    ensures (c + 1) * 6 * q == 6 * (q * c) + 6 * q
  {
  }

  lemma MulLeftMono(a: int, b: int, c: nat)
    requires a <= b
    ensures a * c <= b * c
  {
  }

  /**
    The row of slots always fits in the long side, so the margin is never below the padding
    (and in particular never negative) for any non-negative canvas size and icon count.
  */
  lemma RowFitsLongSide(axis: Axis, w: nat, h: nat, n: nat)
    ensures var m := ComputeMetrics(axis, w, h, n);
      RowExtent(m) <= LongSide(axis, w, h) && 0 <= m.padding <= m.margin
  {
    var m := ComputeMetrics(axis, w, h, n);
    var l := LongSide(axis, w, h);
    var c := m.count;
    var d := (c + 1) * 6;
    var q := l / d;
    DivBounds(l, d);
    assert m.iconSize <= 5 * q;
    assert m.padding <= q;
    MulLeftMono(m.iconSize, 5 * q, c);
    MulLeftMono(m.padding, q, c + 1);
    Distribute(q, c);
    assert l - RowExtent(m) >= 5 * q;
  }

  datatype Point = Point(x: int, y: int)

  /** `[(step * (i + 1) - margin, y) for i in range(n)]` */
  function Row(step: int, margin: int, y: int, n: nat): seq<Point> {
    seq(n, i => Point(step * (i + 1) - margin, y))
  }

  /** `[(x, step * (i + 1) - margin) for i in range(n)]` */
  function Column(x: int, step: int, margin: int, n: nat): seq<Point> {
    seq(n, i => Point(x, step * (i + 1) - margin))
  }

  /**
    The position list of overlay_images, in the order it pairs with the icons: the first
    edge's comprehension, then the odd icon's extra position when the count is odd, then
    the second edge's comprehension over the icons left after the odd one was popped.
  */
  function Positions(axis: Axis, w: nat, h: nat, n: nat): (r: seq<Point>)
    ensures |r| == n
  {
    var m := ComputeMetrics(axis, w, h, n);
    var half := n / 2;
    var odd := n % 2 != 0;
    var remaining := n - n % 2;
    match axis
    case Top =>
      var step := w / (half + 1);
      Row(step, m.margin, m.padding, half)
        + (if odd then [Point(step * half - m.margin, m.padding)] else [])
        + Row(step, m.margin, h - m.iconSize - m.padding, remaining - half)
    case Side =>
      var step := h / (half + 1);
      Column(m.padding, step, m.margin, half)
        + (if odd then [Point(w - m.iconSize - m.padding, step * half - m.margin)] else [])
        + Column(w - m.iconSize - m.padding, h / (remaining - half + 1), m.margin, remaining - half)
  }

  /**
    The multiple of the slot spacing that position `k` of `n` uses: slots 1..n/2 along each
    edge, the odd icon reusing slot n/2 (slot 0 when it is the only icon).
  */
  function SlotIndex(n: nat, k: nat): (j: nat)
    requires k < n
    ensures n >= 2 ==> 1 <= j <= n / 2
    ensures n == 1 ==> j == 0
  {
    var half := n / 2;
    if k < half then k + 1
    else if k == half && n % 2 != 0 then half
    else k - half - n % 2 + 1
  }

  /**
    Top layout: the first n/2 + n%2 positions lie on the top edge (y = padding), the rest on
    the bottom edge (y = h - iconSize - padding); every x is a multiple of w / (n/2 + 1)
    shifted left by the margin.
  */
  lemma TopPositionsShape(w: nat, h: nat, n: nat, k: nat)
    requires k < n
    ensures var m := ComputeMetrics(Top, w, h, n);
      var p := Positions(Top, w, h, n)[k];
      && p.x == w / (n / 2 + 1) * SlotIndex(n, k) - m.margin
      && p.y == (if k < n / 2 + n % 2 then m.padding else h - m.iconSize - m.padding)
  {
    var m := ComputeMetrics(Top, w, h, n);
    var half := n / 2;
    var step := w / (half + 1);
    var a := Row(step, m.margin, m.padding, half);
    var b := if n % 2 != 0 then [Point(step * half - m.margin, m.padding)] else [];
    var c := Row(step, m.margin, h - m.iconSize - m.padding, n - n % 2 - half);
    assert Positions(Top, w, h, n) == a + b + c;
    if k < half {
      assert (a + b + c)[k] == a[k];
    } else if k < half + |b| {
      assert (a + b + c)[k] == b[0];
    } else {
      assert (a + b + c)[k] == c[k - half - |b|];
    }
  }

  /**
    Side layout: the first n/2 positions lie on the left edge (x = padding); the odd icon's
    position and the whole right column lie on the right edge (x = w - iconSize - padding);
    the right column's divisor `len(images) - half + 1` is the same n/2 + 1 as the left's.
  */
  lemma SidePositionsShape(w: nat, h: nat, n: nat, k: nat)
    requires k < n
    ensures var m := ComputeMetrics(Side, w, h, n);
      var p := Positions(Side, w, h, n)[k];
      && p.x == (if k < n / 2 then m.padding else w - m.iconSize - m.padding)
      && p.y == h / (n / 2 + 1) * SlotIndex(n, k) - m.margin
  {
    var m := ComputeMetrics(Side, w, h, n);
    var half := n / 2;
    var step := h / (half + 1);
    assert n - n % 2 - half + 1 == half + 1;
    var a := Column(m.padding, step, m.margin, half);
    var b := if n % 2 != 0 then [Point(w - m.iconSize - m.padding, step * half - m.margin)] else [];
    var c := Column(w - m.iconSize - m.padding, step, m.margin, n - n % 2 - half);
    assert Positions(Side, w, h, n) == a + b + c;
    if k < half {
      assert (a + b + c)[k] == a[k];
    } else if k < half + |b| {
      assert (a + b + c)[k] == b[0];
    } else {
      assert (a + b + c)[k] == c[k - half - |b|];
    }
  }

  /** Top layout, odd count of at least 3: the odd icon lands exactly on the last top slot. */
  lemma TopOddDuplicate(w: nat, h: nat, n: nat)
    requires n % 2 == 1 && n >= 3
    ensures Positions(Top, w, h, n)[n / 2] == Positions(Top, w, h, n)[n / 2 - 1]
  {
    TopPositionsShape(w, h, n, n / 2);
    TopPositionsShape(w, h, n, n / 2 - 1);
  }

  /** Side layout, odd count of at least 3: the odd icon lands exactly on the last right slot. */
  lemma SideOddDuplicate(w: nat, h: nat, n: nat)
    requires n % 2 == 1 && n >= 3
    ensures Positions(Side, w, h, n)[n / 2] == Positions(Side, w, h, n)[n - 1]
  {
    SidePositionsShape(w, h, n, n / 2);
    SidePositionsShape(w, h, n, n - 1);
  }

  /** Every position with its coordinates exchanged. */
  function Swapped(ps: seq<Point>): (r: seq<Point>)
    ensures |r| == |ps|
  {
    seq(|ps|, i requires 0 <= i < |ps| => Point(ps[i].y, ps[i].x))
  }

  /** On a square canvas with an even icon count the side layout is the top layout transposed. */
  lemma SideIsTransposedTopWhenEven(w: nat, n: nat)
    requires n % 2 == 0
    ensures Positions(Side, w, w, n) == Swapped(Positions(Top, w, w, n))
  {
    var side, top := Positions(Side, w, w, n), Positions(Top, w, w, n);
    assert ComputeMetrics(Side, w, w, n) == ComputeMetrics(Top, w, w, n);
    forall k | 0 <= k < n
      ensures side[k] == Swapped(top)[k]
    {
      SidePositionsShape(w, w, n, k);
      TopPositionsShape(w, w, n, k);
    }
  }

  /**
    With an odd icon count the transposition fails on every non-empty square canvas: the
    top layout puts the odd icon on the top edge, the side layout on the right edge.
  */
  lemma SideIsNotTransposedTopWhenOdd(w: nat, n: nat)
    requires w >= 1 && n % 2 == 1
    ensures Positions(Side, w, w, n) != Swapped(Positions(Top, w, w, n))
  {
    var m := ComputeMetrics(Side, w, w, n);
    assert ComputeMetrics(Top, w, w, n) == m;
    SidePositionsShape(w, w, n, n / 2);
    TopPositionsShape(w, w, n, n / 2);
    assert Positions(Side, w, w, n)[n / 2].x == w - m.iconSize - m.padding;
    assert Swapped(Positions(Top, w, w, n))[n / 2].x == m.padding;
  }

  /** 1200 x 600 canvas, top layout, three icons. */
  lemma TopThreeOnWideCanvas()
    ensures ComputeMetrics(Top, 1200, 600, 3) == Metrics(2, 100, 20, 450)
    ensures Positions(Top, 1200, 600, 3) == [Point(150, 20), Point(150, 20), Point(150, 480)]
  {
    assert SlotCount(3) == 2;
    assert 1200 / 18 * 5 == 330 && 600 / 6 == 100;
    var m := ComputeMetrics(Top, 1200, 600, 3);
    assert m == Metrics(2, 100, 20, 450);
    assert Row(600, 450, 20, 1) == [Point(150, 20)];
    assert Row(600, 450, 480, 1) == [Point(150, 480)];
  }
}
