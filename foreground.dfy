/** The recolouring pass of `ForegroundImage.Create` (qrcode.go). The QR image
    has been copied into an RGBA buffer `m` and the fill picture into an RGBA
    buffer `d` of the same size. Every pixel of `m` that is neither opaque
    white nor the encoder's background colour is then overwritten with the
    pixel of `d` at the same point. The buffers are anchored at the origin;
    `a[y, x]` is the pixel at column `x` of row `y`. */
module Foreground {
  import opened GoImage

  /** A colour held by an RGBA buffer. */
  type Rgba = c: Color | c.RGBA? witness RGBA(0, 0, 0, 0)

  /** The pixels the pass leaves alone: opaque white, and the background
      colour compared as a Go interface value (so a background colour that
      is not an RGBA value never matches). */
  predicate Kept(c: Rgba, background: Color)
    ensures !background.RGBA? ==> (Kept(c, background) <==> c == OpaqueWhite)
  {
    c == OpaqueWhite || c == background
  }

  /** `d.At(x, y)` on a buffer given by its rows: the zero colour outside. */
  function SampleAt(fill: seq<seq<Rgba>>, x: int, y: int): Rgba {
    if 0 <= y < |fill| && 0 <= x < |fill[y]| then fill[y][x] else RGBA(0, 0, 0, 0)
  }

  /** The image the pass produces from the rows `px` of `m` and the rows
      `fill` of `d`. Both loops of the source run up to `width` (the image's
      `Max.X`), so only rows `y < width` are scanned. */
  function Recoloured(px: seq<seq<Rgba>>, fill: seq<seq<Rgba>>, background: Color, width: int)
    : (r: seq<seq<Rgba>>)
    ensures |r| == |px| && forall y :: 0 <= y < |px| ==> |r[y]| == |px[y]|
    // white and background pixels are never modified
    ensures forall y, x :: 0 <= y < |px| && 0 <= x < |px[y]| && Kept(px[y][x], background)
              ==> r[y][x] == px[y][x]
    // every other scanned pixel becomes the fill pixel at the same point
    ensures forall y, x ::
              0 <= y < |px| && 0 <= x < |px[y]| && y < width && x < width && !Kept(px[y][x], background)
              ==> r[y][x] == SampleAt(fill, x, y)
    // rows and columns at or past `width` are not scanned
    ensures forall y, x :: 0 <= y < |px| && 0 <= x < |px[y]| && (y >= width || x >= width)
              ==> r[y][x] == px[y][x]
  {
    seq(|px|, y requires 0 <= y < |px| =>
      seq(|px[y]|, x requires 0 <= x < |px[y]| =>
        if y < width && x < width && !Kept(px[y][x], background) then SampleAt(fill, x, y)
        else px[y][x]))
  }

  /** Recolouring twice is recolouring once: a pixel that was overwritten now
      holds the fill pixel, which the second pass either keeps or overwrites
      with that same fill pixel. */
  lemma RecolouredIdempotent(px: seq<seq<Rgba>>, fill: seq<seq<Rgba>>, background: Color, width: int)
    ensures var once := Recoloured(px, fill, background, width);
            Recoloured(once, fill, background, width) == once
  {
    var once := Recoloured(px, fill, background, width);
    var twice := Recoloured(once, fill, background, width);
    forall y | 0 <= y < |px|
      ensures twice[y] == once[y]
    {
      assert |twice[y]| == |once[y]|;
      forall x | 0 <= x < |once[y]|
        ensures twice[y][x] == once[y][x]
      {
        if y < width && x < width && !Kept(px[y][x], background) {
          assert once[y][x] == SampleAt(fill, x, y);
        }
      }
    }
  }

  /** The rows of a buffer. */
  ghost function Pixels(a: array2<Rgba>): (s: seq<seq<Rgba>>)
    reads a
    ensures |s| == a.Length0
    ensures forall y :: 0 <= y < a.Length0 ==> |s[y]| == a.Length1
    ensures forall y, x :: 0 <= y < a.Length0 && 0 <= x < a.Length1 ==> s[y][x] == a[y, x]
  {
    seq(a.Length0, y requires 0 <= y < a.Length0 reads a =>
      seq(a.Length1, x requires 0 <= x < a.Length1 reads a => a[y, x]))
  }

  /** `image.RGBA.At(x, y)`: the zero colour outside the buffer. */
  function BufferAt(a: array2<Rgba>, x: int, y: int): (c: Rgba)
    reads a
    ensures c == SampleAt(Pixels(a), x, y)
  {
    if 0 <= y < a.Length0 && 0 <= x < a.Length1 then a[y, x] else RGBA(0, 0, 0, 0)
  }

  /** The nested loop of `ForegroundImage.Create`. `m.Set` outside the buffer
      does nothing, so the over-scan of a wide image's missing rows is
      harmless, while a tall image's rows `y >= width` are never visited. */
  method Recolour(m: array2<Rgba>, d: array2<Rgba>, background: Color)
    requires m != d
    modifies m
    ensures Pixels(m) == Recoloured(old(Pixels(m)), Pixels(d), background, m.Length1)
  {
    ghost var before := Pixels(m);
    var width := m.Length1;
    var y := 0;
    while y < width
      invariant 0 <= y <= width
      invariant forall j, i :: 0 <= j < m.Length0 && 0 <= i < m.Length1 ==>
                  m[j, i] == (if j < y && !Kept(before[j][i], background) then BufferAt(d, i, j)
                              else before[j][i])
    {
      var x := 0;
      while x < width
        invariant 0 <= x <= width
        invariant forall j, i :: 0 <= j < m.Length0 && 0 <= i < m.Length1 ==>
                    m[j, i] == (if (j < y || (j == y && i < x)) && !Kept(before[j][i], background)
                                then BufferAt(d, i, j) else before[j][i])
      {
        var c := BufferAt(m, x, y);
        if c == OpaqueWhite {
          x := x + 1;
          continue;
        }
        if c == background {
          x := x + 1;
          continue;
        }
        if 0 <= y < m.Length0 && 0 <= x < m.Length1 {
          m[y, x] := BufferAt(d, x, y);
        }
        x := x + 1;
      }
      y := y + 1;
    }
    ghost var after := Pixels(m);
    ghost var spec := Recoloured(before, Pixels(d), background, width);
    forall j | 0 <= j < m.Length0
      ensures after[j] == spec[j]
    {
      assert |after[j]| == |spec[j]|;
    }
  }
}
