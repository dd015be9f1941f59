/** The parts of Go's `image` and `image/color` packages that the masks and the
    compositing code rely on: colour values, points, rectangles, and Go's
    integer division by two. */
module GoImage {

  newtype byte = x: int | 0 <= x < 0x100
  newtype uint16 = x: int | 0 <= x < 0x1_0000

  /** A colour value of one of the concrete Go colour types the code meets.
      Go compares two `color.Color` interface values by dynamic type and then by
      value, so values built with different constructors here are never equal:
      an RGBA pixel never equals the Gray16 white that is the encoder's default
      background colour. */
  datatype Color =
    | RGBA(r: byte, g: byte, b: byte, a: byte)  // color.RGBA, alpha-premultiplied
    | Alpha16(alpha: uint16)                    // color.Alpha16
    | Gray16(y: uint16)                         // color.Gray16 (color.Black, color.White)

  /** What both masks return for a pixel they clip away: `color.Alpha16{0}`. */
  const Transparent: Color := Alpha16(0)

  /** Opaque white, R = G = B = A = 255. */
  const OpaqueWhite: Color := RGBA(255, 255, 255, 255)

  /** The zero `color.RGBA{}`, which an RGBA buffer answers outside its bounds. */
  const ZeroRGBA: Color := RGBA(0, 0, 0, 0)

  datatype Point = Point(x: int, y: int)

  /** `image.Rectangle`: `min` is inclusive, `max` exclusive. */
  datatype Rect = Rect(min: Point, max: Point)

  /** `image.Rect(x0, y0, x1, y1)`: the rectangle with those corners, with the
      coordinates swapped where needed so that it is well-formed. */
  function Rectangle(x0: int, y0: int, x1: int, y1: int): (r: Rect)
    ensures r.min.x <= r.max.x && r.min.y <= r.max.y
    ensures {r.min.x, r.max.x} == {x0, x1} && {r.min.y, r.max.y} == {y0, y1}
  {
    Rect(Point(if x0 <= x1 then x0 else x1, if y0 <= y1 then y0 else y1),
         Point(if x0 <= x1 then x1 else x0, if y0 <= y1 then y1 else y0))
  }

  /** `Rectangle.Dx` and `Rectangle.Dy`. */
  function Dx(r: Rect): int { r.max.x - r.min.x }
  function Dy(r: Rect): int { r.max.y - r.min.y }

  /** `Point{x, y}.In(r)`. */
  predicate In(r: Rect, x: int, y: int) {
    r.min.x <= x < r.max.x && r.min.y <= y < r.max.y
  }

  /** `Rectangle.Add(p)`: the rectangle moved by `p`. */
  function Translate(r: Rect, p: Point): (t: Rect)
    ensures Dx(t) == Dx(r) && Dy(t) == Dy(r)
    ensures forall x, y :: In(t, x, y) <==> In(r, x - p.x, y - p.y)
  {
    Rect(Point(r.min.x + p.x, r.min.y + p.y), Point(r.max.x + p.x, r.max.y + p.y))
  }

  /** Go's `n / 2` on `int`: the quotient truncated toward zero. Dafny's own
      `/` rounds toward negative infinity for a negative `n` and positive
      divisor, so `-3 / 2` is `-2` there but `-1` in Go. */
  function Half(n: int): (q: int)
    ensures n >= 0 ==> 0 <= n - 2 * q <= 1
    ensures n < 0 ==> -1 <= n - 2 * q <= 0
  {
    if n >= 0 then n / 2 else -((-n) / 2)
  }
}
