// Integer screen geometry as the game uses it: pygame rectangles, pixel points
// and the float velocity vector (modelled over exact reals).

module Geometry {

  /** A pixel position on the play area (trail anchors and drawing points are
      whole pixels: a rect centre minus a truncated offset). */
  datatype Point = Point(x: int, y: int)

  /** A pygame Rect: top-left corner and size. */
  datatype Rect = Rect(left: int, top: int, width: int, height: int)
  {
    function Right(): int { left + width }
    function Bottom(): int { top + height }

    /** Rect.move_ip by a whole-pixel offset. */
    function MovedBy(dx: int, dy: int): (r: Rect)
      ensures r.width == width && r.height == height
      ensures r.left - left == dx && r.top - top == dy
    {
      Rect(left + dx, top + dy, width, height)
    }

    /** Whether pixel (x, y) is one of the rect's pixels. */
    predicate HasPixel(x: int, y: int) {
      left <= x < left + width && top <= y < top + height
    }
  }

  /** pygame's Rect.contains: `inner` lies completely inside `outer`. */
  predicate Contains(outer: Rect, inner: Rect) {
    outer.left <= inner.left && outer.top <= inner.top &&
    outer.Right() >= inner.Right() && outer.Bottom() >= inner.Bottom() &&
    outer.Right() > inner.left && outer.Bottom() > inner.top
  }

  /** For a rect with at least one pixel, containment means exactly that every
      pixel of `inner` is a pixel of `outer`. */
  lemma {:induction false} ContainsIffAllPixelsInside(outer: Rect, inner: Rect)
    requires inner.width > 0 && inner.height > 0
    ensures Contains(outer, inner) <==>
            forall x, y :: inner.HasPixel(x, y) ==> outer.HasPixel(x, y)
  {
    if forall x, y :: inner.HasPixel(x, y) ==> outer.HasPixel(x, y) {
      assert inner.HasPixel(inner.left, inner.top);
      assert inner.HasPixel(inner.Right() - 1, inner.Bottom() - 1);
    }
  }

  /** `image.get_rect(center = c)` for a square image of side `side`: pygame
      sets the corner to the centre minus half the size (integer division). */
  function SquareAround(c: Point, side: nat): (r: Rect)
    ensures r.width == side && r.height == side
    ensures r.left + side / 2 == c.x && r.top + side / 2 == c.y
  {
    Rect(c.x - side / 2, c.y - side / 2, side, side)
  }

  /** Squared Euclidean distance between two pixels. */
  function SquaredDistance(a: Point, b: Point): (d: int)
    ensures d >= 0
    ensures d == 0 <==> a == b
  {
    (a.x - b.x) * (a.x - b.x) + (a.y - b.y) * (a.y - b.y)
  }

  /** pygame.math.Vector2 over exact reals. */
  datatype Velocity = Velocity(x: real, y: real)

  /** `v *= k` */
  function Scaled(v: Velocity, k: real): Velocity {
    Velocity(v.x * k, v.y * k)
  }

  /** `v /= k` */
  function Divided(v: Velocity, k: real): Velocity
    requires k != 0.0
  {
    Velocity(v.x / k, v.y / k)
  }

  /** Dividing undoes scaling by the same non-zero factor, and vice versa. */
  lemma ScaleDivideRoundTrip(v: Velocity, k: real)
    requires k != 0.0
    ensures Divided(Scaled(v, k), k) == v
    ensures Scaled(Divided(v, k), k) == v
  {
  }
}
