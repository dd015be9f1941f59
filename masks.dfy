/** The two mask views of utils.go. A mask does not copy pixels: it wraps a
    source image and redefines pixel lookup, returning `Transparent` where the
    pixel falls outside a circle (CircleMask) or in a clipped rounded corner
    (RoundMask), and passing the source pixel through otherwise. Views nest, so
    an image is a value of a datatype whose leaves are materialised rasters. */
module Masks {
  import opened GoImage

  datatype Image =
      /** A materialised raster over `rect`; row `j` of `px` is the row
          `rect.min.y + j`. Outside its bounds (or past a short row) it answers
          `outside`, as each Go image type answers some fixed colour there. */
    | Grid(rect: Rect, px: seq<seq<Color>>, outside: Color)
      /** `RoundMask{image, round}`. */
    | RoundMask(src: Image, round: int)
      /** `CircleMask{image, point, diameter}`. */
    | CircleMask(src: Image, point: Point, diameter: int)

  /** `Bounds()` of an image. A mask view does not resize its source except
      for a circle view, which is a well-formed square of side `|d|` with a
      corner at the origin. */
  function Bounds(img: Image): (b: Rect)
    ensures img.CircleMask? ==>
              b.min.x <= b.max.x && b.min.y <= b.max.y && Dx(b) == Dy(b) &&
              (Dx(b) == img.diameter || Dx(b) == -img.diameter) &&
              (b.min == Point(0, 0) || b.max == Point(0, 0))
  {
    match img
    case Grid(rect, _, _) => rect
    case RoundMask(src, _) => Bounds(src)
    case CircleMask(_, _, d) => Rectangle(0, 0, d, d)
  }

  /** The colours a raster can answer: its pixels and its outside colour. */
  function Palette(img: Image): set<Color> {
    match img
    case Grid(_, px, outside) =>
      (set j, i | 0 <= j < |px| && 0 <= i < |px[j]| :: px[j][i]) + {outside}
    case RoundMask(src, _) => Palette(src)
    case CircleMask(src, _, _) => Palette(src)
  }

  function GridAt(rect: Rect, px: seq<seq<Color>>, outside: Color, x: int, y: int): Color {
    var j := y - rect.min.y;
    var i := x - rect.min.x;
    if In(rect, x, y) && j < |px| && i < |px[j]| then px[j][i] else outside
  }

  /** The squared distance of `(x, y)` from `(cx, cy)` exceeds `r*r`. */
  predicate OutsideDisk(cx: int, cy: int, r: int, x: int, y: int) {
    (cx - x) * (cx - x) + (cy - y) * (cy - y) > r * r
  }

  /** The four corner tests of `RoundMask.At`, for a source `w` wide and `h`
      high and corner radius `r`: each is "in this corner's cell and outside
      this corner's disk". */
  predicate TopLeftCut(r: int, x: int, y: int) {
    OutsideDisk(r, r, r, x, y) && x <= r && y <= r
  }
  predicate TopRightCut(w: int, r: int, x: int, y: int) {
    OutsideDisk(w - r, r, r, x, y) && x > w - r && y <= r
  }
  predicate BottomLeftCut(h: int, r: int, x: int, y: int) {
    OutsideDisk(r, h - r, r, x, y) && x <= r && y > h - r
  }
  predicate BottomRightCut(w: int, h: int, r: int, x: int, y: int) {
    OutsideDisk(w - r, h - r, r, x, y) && x > w - r && y > h - r
  }

  /** The exact form of `CircleMask.At`'s test `sqrt((x-c)^2 + (y-c)^2) > d/2`,
      where `c` is Go's `d / 2` and the right-hand side is the real number d/2:
      for `d >= 0` both sides are non-negative and squaring gives `4*s > d*d`;
      for `d < 0` the right-hand side is negative and every pixel is cut. */
  predicate CircleCut(d: int, x: int, y: int)
    ensures d < 0 ==> CircleCut(d, x, y)
    ensures var c := Half(d); var s := (x - c) * (x - c) + (y - c) * (y - c);
            d >= 0 ==> (CircleCut(d, x, y) <==> s as real > (d as real / 2.0) * (d as real / 2.0))
  {
    var c := Half(d);
    d < 0 || 4 * ((x - c) * (x - c) + (y - c) * (y - c)) > d * d
  }

  /** `At(x, y)` of an image. A mask view never invents a colour: every pixel
      it shows is the transparent colour or one the underlying raster holds. */
  function At(img: Image, x: int, y: int): (c: Color)
    ensures c == Transparent || c in Palette(img)
    decreases img
  {
    match img
    case Grid(rect, px, outside) => GridAt(rect, px, outside, x, y)
    case RoundMask(src, r) =>
      var w := Dx(Bounds(src));
      var h := Dy(Bounds(src));
      if TopLeftCut(r, x, y) then Transparent
      else if TopRightCut(w, r, x, y) then Transparent
      else if BottomLeftCut(h, r, x, y) then Transparent
      else if BottomRightCut(w, h, r, x, y) then Transparent
      else At(src, x, y)
    case CircleMask(src, p, d) =>
      if CircleCut(d, x, y) then Transparent else At(src, p.x + x, p.y + y)
  }

  // ---------------------------------------------------------------- CircleMask

  /** `NewCircleMask(img, p, d)`: a `d` by `d` view whose pixels are cut or are
      the source's pixels shifted by `p`. */
  function NewCircleMask(img: Image, p: Point, d: int): (m: Image)
    ensures d >= 0 ==> Bounds(m) == Rect(Point(0, 0), Point(d, d))
    ensures forall x, y :: At(m, x, y) == (if CircleCut(d, x, y) then Transparent else At(img, p.x + x, p.y + y))
  {
    CircleMask(img, p, d)
  }

  /** `DefaultCircleMask(img)`: no offset, and a "diameter" of half the smaller
      side, in Go's integer division. */
  function DefaultCircleMask(img: Image): (m: Image)
    ensures m.CircleMask? && m.src == img && m.point == Point(0, 0)
    ensures var w := Dx(Bounds(img)); var h := Dy(Bounds(img));
            0 <= w && 0 <= h ==>
              0 <= 2 * m.diameter <= w && 2 * m.diameter <= h &&
              (w <= h ==> w <= 2 * m.diameter + 1) && (h <= w ==> h <= 2 * m.diameter + 1)
  {
    var w := Bounds(img).max.x - Bounds(img).min.x;
    var h := Bounds(img).max.y - Bounds(img).min.y;
    var d := if w > h then h else w;
    CircleMask(img, Point(0, 0), Half(d))
  }

  /** The centre `(d/2, d/2)` of a circle mask of non-negative diameter always
      shows the source. */
  lemma CircleCentreVisible(img: Image, p: Point, d: int)
    requires d >= 0
    ensures At(CircleMask(img, p, d), Half(d), Half(d)) == At(img, p.x + Half(d), p.y + Half(d))
  {
  }

  /** A pixel exactly on the circle (squared distance equal to d*d/4) is kept:
      only strictly greater distances are cut. */
  lemma CircleBoundaryKept(d: int, x: int, y: int)
    requires d >= 0
    requires 4 * ((x - Half(d)) * (x - Half(d)) + (y - Half(d)) * (y - Half(d))) == d * d
    ensures !CircleCut(d, x, y)
  {
  }

  /** A circle mask with a negative diameter shows nothing. */
  lemma CircleNegativeDiameter(img: Image, p: Point, d: int, x: int, y: int)
    requires d < 0
    ensures At(CircleMask(img, p, d), x, y) == Transparent
  {
  }

  /** The top-left pixel `(0, 0)` is cut exactly when its distance from the
      centre exceeds d/2, which happens for d = 2 and d >= 4 but not for
      d = 0, 1, 3. */
  lemma CircleCornerCut(d: int)
    requires d >= 0
    ensures CircleCut(d, 0, 0) <==> (d == 2 || d >= 4)
  {
    var c := Half(d);
    var k := c * c;
    assert (0 - c) * (0 - c) == k;
    assert CircleCut(d, 0, 0) <==> 8 * k > d * d;
    if d == 2 * c {
      assert d * d == 4 * k;
      if c > 0 { MulMono(c, 1, c); }
    } else {
      assert d == 2 * c + 1;
      assert d * d == 4 * k + 4 * c + 1;
      if c >= 2 { MulMono(c, 2, c); } else { assert c == 0 || c == 1; }
    }
  }

  /** Every pixel a circle mask shows lies in `[0, d] x [0, d]`. The centre
      is at the integer `d/2`, so for an even `d` the disk reaches the column
      and the row numbered `d`, one past the view's bounds. */
  lemma CircleVisibleWithin(d: int, x: int, y: int)
    requires !CircleCut(d, x, y)
    ensures 0 <= x <= d && 0 <= y <= d
  {
    var c := Half(d);
    SquareBound(x - c, 0);
    SquareBound(y - c, 0);
    AxisWithin(d, x, (y - c) * (y - c));
    AxisWithin(d, y, (x - c) * (x - c));
  }

  /** The bound `d` of `CircleVisibleWithin` is reached: for an even `d >= 2`
      the pixel `(d, d/2)` is on the circle, so a circle view shows a source
      pixel at a point outside its own bounds `[0, d) x [0, d)`. */
  lemma CircleReachesPastBounds(img: Image, p: Point, d: int)
    requires 2 <= d && d % 2 == 0
    ensures !In(Bounds(CircleMask(img, p, d)), d, Half(d))
    ensures At(CircleMask(img, p, d), d, Half(d)) == At(img, p.x + d, p.y + Half(d))
  {
    var c := Half(d);
    assert d == 2 * c;
    assert (d - c) * (d - c) == c * c;
    assert d * d == 4 * (c * c);
  }

  /** One coordinate of `CircleVisibleWithin`; `rest` is the other
      coordinate's squared distance. */
  lemma AxisWithin(d: int, v: int, rest: int)
    requires d >= 0 && rest >= 0
    requires 4 * ((v - Half(d)) * (v - Half(d)) + rest) <= d * d
    ensures 0 <= v <= d
  {
    var c := Half(d);
    var u := v - c;
    if v < 0 || v > d {
      SquareBound(u, c + 1);
      SquareLess(d, 2 * c + 2);
    }
  }

  lemma MulMono(a: int, b: int, k: int)
    requires a >= b && k >= 0
    ensures a * k >= b * k
  {
  }

  /** `|v| >= k >= 0` gives `v*v >= k*k`. */
  lemma SquareBound(v: int, k: int)
    requires k >= 0 && (v >= k || v <= -k)
    ensures v * v >= k * k
  {
    var u := if v >= 0 then v else -v;
    assert v * v == u * u;
    MulMono(u, k, u);
    MulMono(u, k, k);
  }

  /** `0 <= a < b` gives `a*a < b*b`. */
  lemma SquareLess(a: int, b: int)
    requires 0 <= a < b
    ensures a * a < b * b
  {
    MulMono(b, a, a);
    MulMono(b, a + 1, b);
    assert (a + 1) * b == a * b + b;
  }

  // ----------------------------------------------------------------- RoundMask

  /** `NewRoundMask(img, r)`: a view with the source's bounds whose pixels are
      cut or are the source's pixels at the same point. */
  function NewRoundMask(img: Image, r: int): (m: Image)
    ensures Bounds(m) == Bounds(img)
    ensures forall x, y :: At(m, x, y) == Transparent || At(m, x, y) == At(img, x, y)
  {
    RoundMask(img, r)
  }

  /** A pixel in a corner's cell that lies outside that corner's disk is
      transparent. The disks are centred at (r, r), (w-r, r), (r, h-r) and
      (w-r, h-r), where w and h are the source's width and height. */
  lemma RoundMaskCorners(img: Image, r: int, x: int, y: int)
    ensures var w := Dx(Bounds(img)); var h := Dy(Bounds(img));
            (TopLeftCut(r, x, y) || TopRightCut(w, r, x, y) ||
             BottomLeftCut(h, r, x, y) || BottomRightCut(w, h, r, x, y))
            ==> At(RoundMask(img, r), x, y) == Transparent
  {
  }

  /** A pixel that no corner test catches is the source's pixel. */
  lemma RoundMaskPassThrough(img: Image, r: int, x: int, y: int)
    ensures var w := Dx(Bounds(img)); var h := Dy(Bounds(img));
            !TopLeftCut(r, x, y) && !TopRightCut(w, r, x, y) &&
            !BottomLeftCut(h, r, x, y) && !BottomRightCut(w, h, r, x, y)
            ==> At(RoundMask(img, r), x, y) == At(img, x, y)
  {
  }

  /** With radius zero every in-bounds pixel shows the source when the
      image's top-left corner has coordinates 0 or 1, which includes every
      image anchored at the origin. */
  lemma RoundMaskZeroRadius(img: Image, x: int, y: int)
    requires 0 <= Bounds(img).min.x <= 1 && 0 <= Bounds(img).min.y <= 1
    requires In(Bounds(img), x, y)
    ensures At(RoundMask(img, 0), x, y) == At(img, x, y)
  {
  }

  /** The corner tests use the width and height with absolute coordinates, so
      they assume the source starts at the origin. For a 10 by 10 raster
      placed at (5, 5), radius zero already cuts the in-bounds pixel (14, 14). */
  lemma RoundMaskNeedsOrigin()
    ensures var g := Grid(Rect(Point(5, 5), Point(15, 15)),
                          seq(10, _ => seq(10, _ => RGBA(0, 0, 0, 255))), ZeroRGBA);
            In(Bounds(g), 14, 14) &&
            At(g, 14, 14) == RGBA(0, 0, 0, 255) &&
            At(RoundMask(g, 0), 14, 14) == Transparent
  {
    var g := Grid(Rect(Point(5, 5), Point(15, 15)),
                  seq(10, _ => seq(10, _ => RGBA(0, 0, 0, 255))), ZeroRGBA);
    assert At(g, 14, 14) == g.px[9][9];
  }

  /** When the radius is at most half of each side, the four corner tests are
      pairwise exclusive, so at most one of them catches a pixel. */
  lemma CornerCutsDisjoint(w: int, h: int, r: int, x: int, y: int)
    requires 2 * r <= w && 2 * r <= h
    ensures !(TopLeftCut(r, x, y) && TopRightCut(w, r, x, y))
    ensures !(TopLeftCut(r, x, y) && BottomLeftCut(h, r, x, y))
    ensures !(TopLeftCut(r, x, y) && BottomRightCut(w, h, r, x, y))
    ensures !(TopRightCut(w, r, x, y) && BottomLeftCut(h, r, x, y))
    ensures !(TopRightCut(w, r, x, y) && BottomRightCut(w, h, r, x, y))
    ensures !(BottomLeftCut(h, r, x, y) && BottomRightCut(w, h, r, x, y))
  {
  }

  /** The bound is tight: on a 2 by 2 image with radius 2, pixel (1, 0) is
      caught by both top corner tests. */
  lemma CornerCutsOverlap()
    ensures TopLeftCut(2, 1, 0) && TopRightCut(2, 2, 1, 0)
  {
  }

  /** Masking twice with the same radius is masking once: the mask keeps the
      bounds, so the second mask cuts exactly the pixels the first one cut. */
  lemma RoundMaskIdempotent(img: Image, r: int, x: int, y: int)
    ensures At(RoundMask(RoundMask(img, r), r), x, y) == At(RoundMask(img, r), x, y)
  {
  }

  /** With a radius of at least 2 the top-left, top-right and bottom-left
      corner pixels of an image anchored at the origin are transparent,
      whatever the source holds there; the bottom-right one needs a radius of
      at least 4 (see `RoundMaskNotMirrored`). */
  lemma RoundMaskCornerPixels(img: Image, r: int)
    requires Bounds(img).min == Point(0, 0) && 2 <= r
    ensures var w := Dx(Bounds(img)); var h := Dy(Bounds(img));
            At(RoundMask(img, r), 0, 0) == Transparent &&
            At(RoundMask(img, r), w - 1, 0) == Transparent &&
            At(RoundMask(img, r), 0, h - 1) == Transparent &&
            (4 <= r ==> At(RoundMask(img, r), w - 1, h - 1) == Transparent)
  {
    var w := Dx(Bounds(img));
    var h := Dy(Bounds(img));
    SquareBound(1 - r, 1);
    assert (r - 0) * (r - 0) == r * r;
    assert (w - r - (w - 1)) * (w - r - (w - 1)) == (1 - r) * (1 - r);
    assert (h - r - (h - 1)) * (h - r - (h - 1)) == (1 - r) * (1 - r);
    assert TopLeftCut(r, 0, 0);
    assert TopRightCut(w, r, w - 1, 0);
    assert BottomLeftCut(h, r, 0, h - 1);
    if 4 <= r {
      MulMono(r, 4, r);
      assert (1 - r) * (1 - r) == r * r - 2 * r + 1;
      assert BottomRightCut(w, h, r, w - 1, h - 1);
    }
  }

  /** The right and bottom disks are centred at `w - r` and `h - r`, one pixel
      further out than the mirror image `w - 1 - r` of the left disk's centre,
      so the mask is not mirror-symmetric: with radius 2 the top-left pixel is
      cut while the bottom-right pixel of an image at least 4 by 4 shows the
      source. */
  lemma RoundMaskNotMirrored(img: Image)
    requires Bounds(img).min == Point(0, 0)
    requires 4 <= Dx(Bounds(img)) && 4 <= Dy(Bounds(img))
    ensures var w := Dx(Bounds(img)); var h := Dy(Bounds(img));
            At(RoundMask(img, 2), 0, 0) == Transparent &&
            At(RoundMask(img, 2), w - 1, h - 1) == At(img, w - 1, h - 1)
  {
  }

  /** Away from the corners nothing is cut: on an image anchored at the origin,
      an in-bounds pixel of the vertical band `r <= x <= w - r` or of the
      horizontal band `r <= y <= h - r` shows the source. */
  lemma RoundMaskBands(img: Image, r: int, x: int, y: int)
    requires Bounds(img).min == Point(0, 0) && In(Bounds(img), x, y)
    requires 0 <= r
    requires r <= x <= Dx(Bounds(img)) - r || r <= y <= Dy(Bounds(img)) - r
    ensures At(RoundMask(img, r), x, y) == At(img, x, y)
  {
    var w := Dx(Bounds(img));
    var h := Dy(Bounds(img));
    if r <= x <= w - r {
      // Only the two left cells can hold x, and only at x == r, on the disk's
      // vertical through its centre.
      if x == r {
        NearAxis(r - y, r);
        NearAxis(h - r - y, r);
      }
    } else {
      if y == r {
        NearAxis(r - x, r);
        NearAxis(w - r - x, r);
      }
    }
    assert !TopLeftCut(r, x, y) && !TopRightCut(w, r, x, y);
    assert !BottomLeftCut(h, r, x, y) && !BottomRightCut(w, h, r, x, y);
  }

  /** `|v| <= r` gives `v*v <= r*r`. */
  lemma NearAxis(v: int, r: int)
    requires 0 <= r
    ensures -r <= v <= r ==> v * v <= r * r
  {
    if -r <= v <= r {
      var u := if v >= 0 then v else -v;
      assert v * v == u * u;
      MulMono(r, u, u);
      MulMono(r, u, r);
    }
  }
}
