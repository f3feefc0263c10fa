/**
 * The crop box `get_screen_content_ocr` cuts out of a screenshot before
 * recognition (the same arithmetic in both builds): `top` and `left` default
 * to 0, a missing `width` or `height` runs to the edge of the frame, and the
 * far edges are clamped to the frame.
 */
module OcrRegion {
  import opened Wrappers
  import opened Geometry
  import opened Dimension

  /** The `ocr_region` dictionary; a missing key and a `None` value are both `Absent`. */
  datatype Region = Region(top: DimValue, left: DimValue, width: DimValue, height: DimValue)

  /** `parse_dimension(...) or 0`: `None` (and 0 itself) give 0. */
  function OrZero(r: DimResult): int
    requires !r.Raises?
  {
    if r.Pixels? then r.n else 0
  }

  function Min(a: int, b: int): (m: int)
    ensures m <= a && m <= b && (m == a || m == b)
  {
    if a <= b then a else b
  }

  /**
   * The box cropped from a `width` x `height` screenshot, or `None` where the
   * crop raises: a malformed percentage in the region, or a box whose right
   * (bottom) edge lies left of (above) its left (top) edge, which the image
   * library refuses. An empty region dictionary means no crop at all.
   */
  function CropBox(region: Option<Region>, width: nat, height: nat): (r: Option<Box>)
    ensures region.None? ==> r == Some(Box(0, 0, width, height))
    ensures r.Some? ==> r.value.right <= width && r.value.bottom <= height
    ensures r.Some? ==> r.value.left <= r.value.right && r.value.top <= r.value.bottom
    ensures r.Some? && region.Some? && region.value.width.Absent? ==> r.value.right == width
    ensures r.Some? && region.Some? && region.value.height.Absent? ==> r.value.bottom == height
  {
    match region
    case None => Some(Box(0, 0, width, height))
    case Some(g) =>
      var top := ParseDimension(g.top, height);
      var left := ParseDimension(g.left, width);
      var w := ParseDimension(g.width, width);
      var h := ParseDimension(g.height, height);
      if top.Raises? || left.Raises? || w.Raises? || h.Raises? then None
      else
        var t := OrZero(top);
        var l := OrZero(left);
        var cw := if w.NoValue? then width - l else w.n;
        var ch := if h.NoValue? then height - t else h.n;
        var right := Min(l + cw, width);
        var bottom := Min(t + ch, height);
        if right < l || bottom < t then None else Some(Box(l, t, right, bottom))
  }

  /** The box starts where the region's `left`/`top` say, when they are given in pixels. */
  lemma CropStartsAtOffset(g: Region, width: nat, height: nat, l: int, t: int)
    requires ParseDimension(g.left, width) == Pixels(l) && ParseDimension(g.top, height) == Pixels(t)
    requires CropBox(Some(g), width, height).Some?
    ensures CropBox(Some(g), width, height).value.left == l
    ensures CropBox(Some(g), width, height).value.top == t
  {
  }

  /**
   * A region that only gives fractions of the frame, none of them missing,
   * crops a box inside the frame; the box starts at the given shares.
   */
  lemma FractionalRegionInsideFrame(a: real, b: real, c: real, d: real, width: nat, height: nat)
    requires 0.0 <= a <= 1.0 && 0.0 <= b <= 1.0 && 0.0 <= c <= 1.0 && 0.0 <= d <= 1.0
    requires CropBox(Some(Region(Number(a), Number(b), Number(c), Number(d))), width, height).Some?
    ensures var box := CropBox(Some(Region(Number(a), Number(b), Number(c), Number(d))), width, height).value;
      0 <= box.left <= box.right <= width && 0 <= box.top <= box.bottom <= height
  {
    FractionWithinTotal(a, height);
    FractionWithinTotal(b, width);
  }
}
