/**
 * Container-relative coordinates from packages/core/src/rect/rect.ts:
 * `calcRelativeRect` and `calcRelativePoint` express a child as fractions of
 * its container's world rectangle, so that it follows the container when that
 * is resized.
 */
module Relative {
  import opened Options
  import opened Points
  import opened Rects

  /** `calcRelativeRect(rect, worldRect)`: origin and size as fractions of the container's extent. */
  function CalcRelativeRect(rect: RectData, worldRect: RectData): (r: RectData)
    requires worldRect.width != 0.0 && worldRect.height != 0.0
    ensures Consistent(r) && r.rotate == 0.0 && r.center == None
    ensures r.x * worldRect.width + worldRect.x == rect.x && r.y * worldRect.height + worldRect.y == rect.y
    ensures r.width * worldRect.width == rect.width && r.height * worldRect.height == rect.height
  {
    var x := (rect.x - worldRect.x) / worldRect.width;
    var y := (rect.y - worldRect.y) / worldRect.height;
    var width := rect.width / worldRect.width;
    var height := rect.height / worldRect.height;
    RectData(x, y, Some(x + width), Some(y + height), width, height, 0.0, None)
  }

  /** The inverse expansion: a relative rectangle placed back into the container's world coordinates. */
  function Absolute(rel: RectData, worldRect: RectData): RectData {
    var x := rel.x * worldRect.width + worldRect.x;
    var y := rel.y * worldRect.height + worldRect.y;
    var width := rel.width * worldRect.width;
    var height := rel.height * worldRect.height;
    RectData(x, y, Some(x + width), Some(y + height), width, height, 0.0, None)
  }

  /** Normalising and expanding again restores a consistent unrotated rectangle without a cached center. */
  lemma RelativeThenAbsolute(rect: RectData, worldRect: RectData)
    requires worldRect.width != 0.0 && worldRect.height != 0.0
    requires Consistent(rect) && rect.rotate == 0.0 && rect.center == None
    ensures Absolute(CalcRelativeRect(rect, worldRect), worldRect) == rect
  {
    var a := Absolute(CalcRelativeRect(rect, worldRect), worldRect);
    assert a.x == rect.x && a.y == rect.y && a.width == rect.width && a.height == rect.height;
  }

  /** Expanding and normalising again gives back the relative position and size. */
  lemma AbsoluteThenRelative(rel: RectData, worldRect: RectData)
    requires worldRect.width != 0.0 && worldRect.height != 0.0
    ensures var r := CalcRelativeRect(Absolute(rel, worldRect), worldRect);
      r.x == rel.x && r.y == rel.y && r.width == rel.width && r.height == rel.height
  {
    var W, H := worldRect.width, worldRect.height;
    assert (rel.x * W + worldRect.x - worldRect.x) / W == rel.x;
    assert (rel.y * H + worldRect.y - worldRect.y) / H == rel.y;
    assert rel.width * W / W == rel.width;
    assert rel.height * H / H == rel.height;
  }

  lemma AtMostOne(a: real, w: real, s: real)
    requires w > 0.0 && a * w == s && s <= w
    ensures a <= 1.0
  {
    assert (a - 1.0) * w <= 0.0;
  }

  /** A child lying within a container of positive size gets fractions between 0 and 1. */
  lemma ContainedChildIsWithinUnit(rect: RectData, worldRect: RectData)
    requires worldRect.width > 0.0 && worldRect.height > 0.0
    requires worldRect.x <= rect.x && 0.0 <= rect.width && rect.x + rect.width <= worldRect.x + worldRect.width
    requires worldRect.y <= rect.y && 0.0 <= rect.height && rect.y + rect.height <= worldRect.y + worldRect.height
    ensures var r := CalcRelativeRect(rect, worldRect);
      0.0 <= r.x <= r.ex.value <= 1.0 && 0.0 <= r.y <= r.ey.value <= 1.0
  {
    var r := CalcRelativeRect(rect, worldRect);
    var W, H := worldRect.width, worldRect.height;
    assert r.ex.value * W == rect.x + rect.width - worldRect.x;
    assert r.ey.value * H == rect.y + rect.height - worldRect.y;
    assert 0.0 <= r.x by { assert r.x * W >= 0.0; }
    assert 0.0 <= r.y by { assert r.y * H >= 0.0; }
    assert r.x <= r.ex.value by { assert r.width * W >= 0.0; }
    assert r.y <= r.ey.value by { assert r.height * H >= 0.0; }
    AtMostOne(r.ex.value, W, rect.x + rect.width - worldRect.x);
    AtMostOne(r.ey.value, H, rect.y + rect.height - worldRect.y);
  }

  /** One coordinate of `calcRelativePoint`: 0 when the container has no extent on that axis. */
  function Fraction(v: real, origin: real, extent: real): (r: real)
    ensures extent == 0.0 ==> r == 0.0
    ensures extent != 0.0 ==> r * extent + origin == v
  {
    if extent != 0.0 then (v - origin) / extent else 0.0
  }

  /** A control handle of `pt`, normalised; it takes the owning point's `penId` and `connectTo`. */
  function RelativeHandle(h: Point, pt: Point, worldRect: RectData): Point {
    Point(Fraction(h.x, worldRect.x, worldRect.width), Fraction(h.y, worldRect.y, worldRect.height),
          None, pt.penId, pt.connectTo, None, None, None, None)
  }

  /**
   * `calcRelativePoint(pt, worldRect)`: the point as fractions of the
   * container, its routing metadata copied, and its control handles
   * normalised the same way.
   */
  function CalcRelativePoint(pt: Point, worldRect: RectData): (r: Point)
    ensures r.id == pt.id && r.penId == pt.penId && r.connectTo == pt.connectTo
    ensures r.anchorId == pt.anchorId && r.prevNextType == pt.prevNextType
    ensures worldRect.width == 0.0 ==> r.x == 0.0
    ensures worldRect.height == 0.0 ==> r.y == 0.0
    ensures worldRect.width != 0.0 ==> r.x * worldRect.width + worldRect.x == pt.x
    ensures worldRect.height != 0.0 ==> r.y * worldRect.height + worldRect.y == pt.y
    ensures r.prev.Some? == pt.prev.Some? && r.next.Some? == pt.next.Some?
    ensures pt.prev.Some? ==> r.prev.value.penId == pt.penId && r.prev.value.connectTo == pt.connectTo
    ensures pt.next.Some? ==> r.next.value.penId == pt.penId && r.next.value.connectTo == pt.connectTo
    ensures pt.prev.Some? ==> r.prev.value.x == CalcRelativePoint(pt.prev.value, worldRect).x &&
                              r.prev.value.y == CalcRelativePoint(pt.prev.value, worldRect).y
    ensures pt.next.Some? ==> r.next.value.x == CalcRelativePoint(pt.next.value, worldRect).x &&
                              r.next.value.y == CalcRelativePoint(pt.next.value, worldRect).y
  {
    Point(Fraction(pt.x, worldRect.x, worldRect.width), Fraction(pt.y, worldRect.y, worldRect.height),
          pt.id, pt.penId, pt.connectTo, pt.anchorId, pt.prevNextType,
          if pt.prev.Some? then Some(RelativeHandle(pt.prev.value, pt, worldRect)) else None,
          if pt.next.Some? then Some(RelativeHandle(pt.next.value, pt, worldRect)) else None)
  }

  /** For a container with extent, a point and a rectangle at the same place get the same relative origin. */
  lemma PointAndRectAgree(pt: Point, rect: RectData, worldRect: RectData)
    requires worldRect.width != 0.0 && worldRect.height != 0.0
    requires pt.x == rect.x && pt.y == rect.y
    ensures CalcRelativePoint(pt, worldRect).x == CalcRelativeRect(rect, worldRect).x
    ensures CalcRelativePoint(pt, worldRect).y == CalcRelativeRect(rect, worldRect).y
  {
  }
}
