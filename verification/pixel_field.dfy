/**
  Bounds-checked, classification-aware access to the image buffer of a
  MeshShape: which pixels are background under the chosen gradient, where a
  pixel's RGBA samples live in the flat buffer, and which elevation a pixel
  maps to.
*/
module PixelField {
  import opened Options

  /** Selects the channel(s) that decide background and elevation. */
  datatype Gradient = BlackToWhite | WhiteToBlack | Alpha

  /** An integer position on the pixel lattice; x grows to the right, y grows upward. */
  datatype Point = Point(x: int, y: int)

  /** The four channel values of one pixel. */
  datatype Rgba = Rgba(red: real, green: real, blue: real, alpha: real)

  /**
    The inputs a MeshShape keeps: the gradient mode, the maximum depth, the
    image size and the image's row-major pixel buffer. The host's buffer is a
    flat list of channel values, four per pixel; here it is the list of those
    quadruples, so the flat list has 4 * |pixels| entries and the flat entries
    i .. i + 3 of a pixel are pixels[i / 4].
  */
  datatype Field = Field(gradient: Gradient, maxDepth: real, width: int, height: int, pixels: seq<Rgba>)

  /** An image as the host hands it over: a non-negative size. */
  predicate WellFormed(f: Field) {
    f.width >= 0 && f.height >= 0
  }

  /** Every channel value lies in [0, 1], as for any decoded image. */
  ghost predicate ChannelsInUnit(f: Field) {
    forall k :: 0 <= k < |f.pixels| ==> UnitChannels(f.pixels[k])
  }

  ghost predicate UnitChannels(c: Rgba) {
    && 0.0 <= c.red <= 1.0 && 0.0 <= c.green <= 1.0
    && 0.0 <= c.blue <= 1.0 && 0.0 <= c.alpha <= 1.0
  }

  /**
    Background classification by exact equality with the extreme value: the
    colour channels all white (1, 1, 1), all black (0, 0, 0), or a zero alpha.
    For channel values in [0, 1] these are exactly the colours whose share of
    the depth is zero.
  */
  predicate IgnoreColor(g: Gradient, c: Rgba)
    ensures UnitChannels(c) ==> (IgnoreColor(g, c) <==> Share(g, c) == 0.0)
  {
    match g
    case BlackToWhite => c.red == 1.0 && c.green == 1.0 && c.blue == 1.0
    case WhiteToBlack => c.red == 0.0 && c.green == 0.0 && c.blue == 0.0
    case Alpha => c.alpha == 0.0
  }

  /** The fraction of the maximum depth a pixel sinks to under gradient g. */
  function Share(g: Gradient, c: Rgba): real {
    match g
    case BlackToWhite => ((1.0 - c.red) + (1.0 - c.green) + (1.0 - c.blue)) / 3.0
    case WhiteToBlack => (c.red + c.green + c.blue) / 3.0
    case Alpha => c.alpha
  }

  /** Elevation of a pixel; it lies in [-maxDepth, 0] for channel values in [0, 1]. */
  function CalculateZ(g: Gradient, maxDepth: real, c: Rgba): (z: real)
    ensures UnitChannels(c) && maxDepth >= 0.0 ==> -maxDepth <= z <= 0.0
  {
    ShareWithinDepth(g, maxDepth, c);
    Sink(Share(g, c), maxDepth)
  }

  /** A share of the maximum depth, below the surface. */
  function Sink(share: real, maxDepth: real): real {
    share * -maxDepth
  }

  lemma ShareWithinDepth(g: Gradient, maxDepth: real, c: Rgba)
    ensures UnitChannels(c) && maxDepth >= 0.0 ==> -maxDepth <= Sink(Share(g, c), maxDepth) <= 0.0
  {
    if UnitChannels(c) && maxDepth >= 0.0 {
      ScaleWithinDepth(Share(g, c), maxDepth);
    }
  }

  /** A share in [0, 1] of the depth stays within [-depth, 0]. */
  lemma ScaleWithinDepth(share: real, depth: real)
    requires 0.0 <= share <= 1.0 && depth >= 0.0
    ensures -depth <= Sink(share, depth) <= 0.0
  {
    ProductBounds(share, depth);
    assert Sink(share, depth) == -(share * depth);
  }

  lemma ProductBounds(a: real, b: real)
    requires 0.0 <= a <= 1.0 && b >= 0.0
    ensures 0.0 <= a * b <= b
  {
    assert (1.0 - a) * b >= 0.0;
  }

  /** A pixel with the larger share of the depth lies deeper. */
  lemma LargerShareDeeper(g: Gradient, maxDepth: real, c1: Rgba, c2: Rgba)
    requires Share(g, c1) < Share(g, c2) && maxDepth > 0.0
    ensures CalculateZ(g, maxDepth, c2) < CalculateZ(g, maxDepth, c1)
  {
    ScaleReverses(Share(g, c1), Share(g, c2), maxDepth);
  }

  /** Scaling by a negative depth reverses a strict order. */
  lemma ScaleReverses(s1: real, s2: real, depth: real)
    requires s1 < s2 && depth > 0.0
    ensures Sink(s2, depth) < Sink(s1, depth)
  {
    assert (s2 - s1) * depth > 0.0;
    assert Sink(s1, depth) - Sink(s2, depth) == (s2 - s1) * depth;
  }

  /** The row-major number of pixel (x, y). */
  function Slot(f: Field, x: int, y: int): int {
    y * f.width + x
  }

  /** The flat index of the first channel of pixel (x, y). */
  function FlatIndex(f: Field, x: int, y: int): int {
    Slot(f, x, y) * 4
  }

  /**
    The flat index of pixel (x, y), or -1 when the pixel is outside the image,
    beyond the flat buffer, or background.
  */
  function ContainsPosition(f: Field, x: int, y: int): (i: int)
    requires WellFormed(f)
    ensures i == -1 || (i == FlatIndex(f, x, y) && 0 <= Slot(f, x, y) < |f.pixels|)
  {
    if 0 <= x < f.width && 0 <= y < f.height then
      var i := FlatIndex(f, x, y);
      if 0 <= i < 4 * |f.pixels| then
        if !IgnoreColor(f.gradient, f.pixels[Slot(f, x, y)]) then i else -1
      else -1
    else -1
  }

  /**
    A position is reported exactly when it lies inside the image, its flat
    index lies inside the buffer, and its colour is not background.
  */
  lemma ContainsPositionExactly(f: Field, x: int, y: int)
    requires WellFormed(f)
    ensures ContainsPosition(f, x, y) != -1 <==>
              && 0 <= x < f.width && 0 <= y < f.height
              && 0 <= Slot(f, x, y) < |f.pixels|
              && !IgnoreColor(f.gradient, f.pixels[Slot(f, x, y)])
  {
  }

  /** A pixel that is inside the image, inside the buffer and not background. */
  predicate Foreground(f: Field, p: Point)
    requires WellFormed(f)
  {
    ContainsPosition(f, p.x, p.y) != -1
  }

  /** The foreground pixels of the image, as a set of lattice positions. */
  ghost function Mask(f: Field): iset<Point>
    requires WellFormed(f)
  {
    iset p | Foreground(f, p)
  }

  /** The elevation of pixel (x, y), or None exactly when it is not a foreground pixel. */
  function PixelDepthAt(f: Field, x: int, y: int): (z: Option<real>)
    requires WellFormed(f)
    ensures z.None? <==> ContainsPosition(f, x, y) == -1
    ensures z.Some? ==> 0 <= Slot(f, x, y) < |f.pixels| &&
                        z.value == CalculateZ(f.gradient, f.maxDepth, f.pixels[Slot(f, x, y)])
    ensures z.Some? && ChannelsInUnit(f) && f.maxDepth >= 0.0 ==> -f.maxDepth <= z.value <= 0.0
  {
    var i := ContainsPosition(f, x, y);
    if i != -1 then
      var c := f.pixels[Slot(f, x, y)];
      assert UnitChannels(c) <== ChannelsInUnit(f);
      Some(CalculateZ(f.gradient, f.maxDepth, c))
    else None
  }

  /** Two pixels never share a buffer index. */
  lemma DistinctPixelsDistinctIndices(f: Field, p: Point, q: Point)
    requires WellFormed(f)
    requires ContainsPosition(f, p.x, p.y) != -1
    requires ContainsPosition(f, p.x, p.y) == ContainsPosition(f, q.x, q.y)
    ensures p == q
  {
    assert FlatIndex(f, p.x, p.y) == FlatIndex(f, q.x, q.y);
    RowMajorInjective(f.width, p.x, p.y, q.x, q.y);
  }

  /** Row-major numbering of a lattice of the given width is one-to-one. */
  lemma RowMajorInjective(w: int, x1: int, y1: int, x2: int, y2: int)
    requires 0 <= x1 < w && 0 <= x2 < w
    requires (y1 * w + x1) * 4 == (y2 * w + x2) * 4
    ensures x1 == x2 && y1 == y2
  {
    assert y1 * w + x1 == y2 * w + x2;
    if y1 < y2 {
      RowGap(w, y1, y2);
    } else if y2 < y1 {
      RowGap(w, y2, y1);
    }
  }

  /** Rows lower in the numbering start at least a whole row earlier. */
  lemma RowGap(w: int, lo: int, hi: int)
    requires 0 < w && lo < hi
    ensures lo * w + w <= hi * w
  {
    var d := hi - lo;
    assert hi * w == lo * w + d * w;
    assert (d - 1) * w >= 0;
  }

  /**
    With a positive depth and channel values in [0, 1], a pixel is background
    exactly when its elevation would be 0: every foreground pixel sits strictly
    below the surface.
  */
  lemma BackgroundIsSurfaceLevel(g: Gradient, maxDepth: real, c: Rgba)
    requires UnitChannels(c) && maxDepth > 0.0
    ensures IgnoreColor(g, c) <==> CalculateZ(g, maxDepth, c) == 0.0
  {
    var share := Share(g, c);
    assert CalculateZ(g, maxDepth, c) == Sink(share, maxDepth);
    if share != 0.0 {
      assert share * -maxDepth != 0.0;
    }
  }

  /**
    Under BlackToWhite a darker pixel (smaller channel sum) lies deeper; under
    WhiteToBlack a darker pixel lies shallower.
  */
  lemma GradientOrdering(maxDepth: real, light: Rgba, dark: Rgba)
    requires maxDepth > 0.0
    requires dark.red + dark.green + dark.blue < light.red + light.green + light.blue
    ensures CalculateZ(BlackToWhite, maxDepth, dark) < CalculateZ(BlackToWhite, maxDepth, light)
    ensures CalculateZ(WhiteToBlack, maxDepth, dark) > CalculateZ(WhiteToBlack, maxDepth, light)
  {
    assert Share(BlackToWhite, light) < Share(BlackToWhite, dark);
    LargerShareDeeper(BlackToWhite, maxDepth, light, dark);
    assert Share(WhiteToBlack, dark) < Share(WhiteToBlack, light);
    LargerShareDeeper(WhiteToBlack, maxDepth, dark, light);
  }

  /** Under Alpha, a more opaque pixel sinks strictly deeper, whatever its colour. */
  lemma AlphaOrdering(maxDepth: real, faint: Rgba, solid: Rgba)
    requires maxDepth > 0.0 && faint.alpha < solid.alpha
    ensures CalculateZ(Alpha, maxDepth, solid) < CalculateZ(Alpha, maxDepth, faint)
  {
    LargerShareDeeper(Alpha, maxDepth, faint, solid);
  }
}
