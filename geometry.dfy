/**
 * The geometry adapter shared by both backends: the normalized centre of a
 * detector box and the inclusive point-in-rectangle test. Coordinates are
 * exact reals; the source computes them in floating point.
 */
module Geometry {

  /** A detector box `[x1, y1, x2, y2]` in pixels. */
  datatype PixelBox = PixelBox(x1: real, y1: real, x2: real, y2: real)

  /** A seat rectangle `[x1, y1, x2, y2]` in fractions of the image width and height. */
  datatype Rect = Rect(x1: real, y1: real, x2: real, y2: real)

  datatype Point = Point(x: real, y: real)

  /**
   * `bbox_center_norm`: the box centre divided by the image size. A decoded
   * image always has a positive width and height.
   */
  function CentreNorm(b: PixelBox, w: int, h: int): (c: Point)
    requires w > 0 && h > 0
    ensures c.x * 2.0 * (w as real) == b.x1 + b.x2
    ensures c.y * 2.0 * (h as real) == b.y1 + b.y2
  {
    Point((b.x1 + b.x2) / 2.0 / (w as real), (b.y1 + b.y2) / 2.0 / (h as real))
  }

  /**
   * `point_in_rect_norm`: both bounds are inclusive on both axes. Only a
   * rectangle whose corners are in order holds any point, and such a
   * rectangle holds both of its corners.
   */
  predicate InRect(p: Point, r: Rect)
    ensures InRect(p, r) ==> r.x1 <= r.x2 && r.y1 <= r.y2
    ensures r.x1 <= r.x2 && r.y1 <= r.y2 && (p == Point(r.x1, r.y1) || p == Point(r.x2, r.y2)) ==> InRect(p, r)
  {
    r.x1 <= p.x <= r.x2 && r.y1 <= p.y <= r.y2
  }

  /** A point on any edge of a rectangle, corners included, lies in it. */
  lemma EdgesAreInside(r: Rect, p: Point)
    requires r.x1 <= r.x2 && r.y1 <= r.y2
    requires || ((p.x == r.x1 || p.x == r.x2) && r.y1 <= p.y <= r.y2)
             || ((p.y == r.y1 || p.y == r.y2) && r.x1 <= p.x <= r.x2)
    ensures InRect(p, r)
  {
  }

  /** A box inside the image has its normalized centre inside the unit square. */
  lemma CentreInUnitSquare(b: PixelBox, w: int, h: int)
    requires w > 0 && h > 0
    requires 0.0 <= b.x1 <= w as real && 0.0 <= b.x2 <= w as real
    requires 0.0 <= b.y1 <= h as real && 0.0 <= b.y2 <= h as real
    ensures InRect(CentreNorm(b, w, h), Rect(0.0, 0.0, 1.0, 1.0))
  {
    var c := CentreNorm(b, w, h);
    CentreBetween(b.x1, b.x2, w as real, c.x);
    CentreBetween(b.y1, b.y2, h as real, c.y);
  }

  /** The centre of a well-formed box lies in that box once both are normalized. */
  lemma CentreInOwnBox(b: PixelBox, w: int, h: int)
    requires w > 0 && h > 0
    requires b.x1 <= b.x2 && b.y1 <= b.y2
    ensures InRect(CentreNorm(b, w, h),
                   Rect(b.x1 / (w as real), b.y1 / (h as real), b.x2 / (w as real), b.y2 / (h as real)))
  {
    var c := CentreNorm(b, w, h);
    MidpointScaled(b.x1, b.x2, w as real, c.x);
    MidpointScaled(b.y1, b.y2, h as real, c.y);
  }

  lemma CentreBetween(a: real, b: real, n: real, c: real)
    requires n > 0.0 && 0.0 <= a <= n && 0.0 <= b <= n
    requires c * 2.0 * n == a + b
    ensures 0.0 <= c <= 1.0
  {
    assert c * (2.0 * n) >= 0.0;
    assert c * (2.0 * n) <= 1.0 * (2.0 * n);
  }

  lemma MidpointScaled(a: real, b: real, n: real, c: real)
    requires n > 0.0 && a <= b
    requires c * 2.0 * n == a + b
    ensures a / n <= c <= b / n
  {
    assert (a / n) * n == a && (b / n) * n == b;
    assert (a / n) * (2.0 * n) <= c * (2.0 * n);
    assert c * (2.0 * n) <= (b / n) * (2.0 * n);
  }
}
