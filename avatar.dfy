/** Where `Avatar.Create` (qrcode.go) draws the avatar on the QR image: the
    masked avatar is centred using the two images' `Max` corners and Go's
    truncating integer division. */
module Avatar {
  import opened GoImage

  /** The offset at which the avatar is drawn: on each axis, half the
      difference between the base's and the avatar's `Max` corner, divided as
      Go divides. When the avatar fits, the offset is non-negative and splits
      the spare room with at most one pixel more on the right (bottom); when
      it does not fit, the offset is non-positive and the overhang is split
      rounding toward zero. */
  function Offset(base: Rect, avatar: Rect): (off: Point)
    ensures var gap := base.max.x - avatar.max.x;
            (gap >= 0 ==> 0 <= off.x && 0 <= gap - 2 * off.x <= 1) &&
            (gap < 0 ==> off.x <= 0 && -1 <= gap - 2 * off.x <= 0)
    ensures var gap := base.max.y - avatar.max.y;
            (gap >= 0 ==> 0 <= off.y && 0 <= gap - 2 * off.y <= 1) &&
            (gap < 0 ==> off.y <= 0 && -1 <= gap - 2 * off.y <= 0)
  {
    Point(Half(base.max.x - avatar.max.x), Half(base.max.y - avatar.max.y))
  }

  /** The rectangle the avatar is drawn into: its own bounds moved by the
      offset, so it keeps its size. */
  function Target(base: Rect, avatar: Rect): (t: Rect)
    ensures Dx(t) == Dx(avatar) && Dy(t) == Dy(avatar)
    ensures var off := Offset(base, avatar);
            t.min == Point(avatar.min.x + off.x, avatar.min.y + off.y)
  {
    Translate(avatar, Offset(base, avatar))
  }

  /** An avatar anchored at the origin and no larger than a base anchored at
      the origin lands entirely inside the base, centred: the margins on the
      two sides differ by at most one pixel. */
  lemma AvatarCentredInside(base: Rect, avatar: Rect)
    requires base.min == Point(0, 0) && avatar.min == Point(0, 0)
    requires 0 <= avatar.max.x <= base.max.x && 0 <= avatar.max.y <= base.max.y
    ensures var t := Target(base, avatar);
            forall x, y :: In(t, x, y) ==> In(base, x, y)
    ensures var t := Target(base, avatar);
            0 <= t.min.x && 0 <= (base.max.x - t.max.x) - t.min.x <= 1 &&
            0 <= t.min.y && 0 <= (base.max.y - t.max.y) - t.min.y <= 1
  {
    var t := Target(base, avatar);
    forall x, y | In(t, x, y)
      ensures In(base, x, y)
    {
      assert In(avatar, x - t.min.x, y - t.min.y);
    }
  }

  /** A 13 pixel avatar on a 10 pixel base is placed at -1, not at -2 as
      rounding toward negative infinity (Dafny's `(10 - 13) / 2`) would give. */
  lemma OffsetTruncatesTowardZero()
    ensures Offset(Rect(Point(0, 0), Point(10, 10)), Rect(Point(0, 0), Point(13, 13))) == Point(-1, -1)
  {
  }
}
