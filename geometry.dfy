/**
 * Screen coordinates and the arithmetic that moves them between the full
 * screenshot, an OCR crop of it and a downscaled copy of that crop.
 */
module Geometry {
  /** A pixel position `(x, y)` on the device screen. */
  datatype Point = Point(x: int, y: int)

  /** A crop box `(left, top, right, bottom)`, right and bottom exclusive. */
  datatype Box = Box(left: int, top: int, right: int, bottom: int)

  /** Python's `(a + b) // 2`; Dafny's `/` by a positive divisor is the same floor division. */
  function Midpoint(a: int, b: int): (m: int)
    ensures a <= b ==> a <= m <= b
    ensures b <= a ==> b <= m <= a
  {
    (a + b) / 2
  }

  /**
   * Maps a point found in a (possibly downscaled) crop back to the screen:
   * `(c.x * scale + left, c.y * scale + top)`.
   */
  function MapBack(c: Point, box: Box, scale: nat): (p: Point)
    ensures p.x - box.left == scale * c.x && p.y - box.top == scale * c.y
  {
    Point(scale * c.x + box.left, scale * c.y + box.top)
  }

  /** Dividing a multiple of `k` by `k` gives the factor back. */
  lemma DivOfMultiple(a: int, k: nat)
    requires k > 0
    ensures (k * a) / k == a
  {
    var q := (k * a) / k;
    DivModOf(k * a, k);
    MulSub(k, a, q);
    if a - q > 0 {
      MulPositive(k, a - q);
    } else if a - q < 0 {
      MulNegative(k, a - q);
    }
  }

  lemma DivModOf(x: int, k: nat)
    requires k > 0
    ensures x == k * (x / k) + x % k && 0 <= x % k < k
  {
  }

  lemma MulSub(k: nat, a: int, q: int)
    ensures k * (a - q) == k * a - k * q
  {
  }

  lemma MulPositive(k: nat, n: int)
    requires k > 0 && n >= 1
    ensures k * n >= k
  {
  }

  lemma MulNegative(k: nat, n: int)
    requires k > 0 && n <= -1
    ensures k * n + k <= 0
  {
  }

  /** Where a screen point lands in the crop after dividing by `scale` (the OCR's view of it). */
  function Downscale(p: Point, box: Box, scale: nat): Point
    requires scale > 0
  {
    Point((p.x - box.left) / scale, (p.y - box.top) / scale)
  }

  /** Downscaling a mapped-back point gives the point the recogniser reported. */
  lemma DownscaleMapBack(c: Point, box: Box, scale: nat)
    requires scale > 0
    ensures Downscale(MapBack(c, box, scale), box, scale) == c
  {
    DivOfMultiple(c.x, scale);
    DivOfMultiple(c.y, scale);
  }

  /** `p` lies inside the box. */
  predicate Inside(p: Point, box: Box) {
    box.left <= p.x < box.right && box.top <= p.y < box.bottom
  }

  /** The size of the image the recogniser sees: the crop's size divided by `scale`. */
  function ScaledSize(box: Box, scale: nat): (int, int)
    requires scale > 0
  {
    ((box.right - box.left) / scale, (box.bottom - box.top) / scale)
  }

  /**
   * For the two scales in use (1 and 2), a point inside the image the
   * recogniser saw maps back to a point inside the crop box, so a tap never
   * leaves the cropped region.
   */
  lemma MapBackInside(c: Point, box: Box, scale: nat)
    requires scale == 1 || scale == 2
    requires 0 <= c.x < ScaledSize(box, scale).0 && 0 <= c.y < ScaledSize(box, scale).1
    ensures Inside(MapBack(c, box, scale), box)
  {
  }

  /**
   * Downscaling and mapping back loses less than one step of `scale`: the
   * result is at most `scale - 1` pixels up and left of the original point,
   * and exactly the point when nothing was scaled.
   */
  lemma MapBackDownscale(p: Point, box: Box, scale: nat)
    requires scale > 0
    ensures var q := MapBack(Downscale(p, box, scale), box, scale);
      p.x - scale < q.x <= p.x && p.y - scale < q.y <= p.y
    ensures scale == 1 ==> MapBack(Downscale(p, box, scale), box, scale) == p
  {
    var dx := p.x - box.left;
    var dy := p.y - box.top;
    assert dx == scale * (dx / scale) + dx % scale;
    assert dy == scale * (dy / scale) + dy % scale;
  }
}
