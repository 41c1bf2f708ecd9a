/**
 * In-place transforms from packages/core/src/rect/rect.ts: `translateRect`,
 * `resizeRect` (eight drag handles and a 5-unit minimum size) and `scaleRect`.
 * Each method updates the rectangle's fields; the function beside it gives the
 * new field values, and the lemmas state what the transform preserves.
 */
module Transform {
  import opened Options
  import opened Points
  import opened Rects
  import opened HitTest

  // ---------------------------------------------------------------- translateRect

  /** The fields after moving the rectangle by `(dx, dy)`; a cached center moves along. */
  function Translated(d: RectData, dx: real, dy: real): (r: RectData)
    requires HasCorners(d)
    ensures HasCorners(r) && r.width == d.width && r.height == d.height && r.rotate == d.rotate
  {
    d.(x := d.x + dx, y := d.y + dy, ex := Some(d.ex.value + dx), ey := Some(d.ey.value + dy),
       center := if d.center.Some? then Some(d.center.value.(x := d.center.value.x + dx, y := d.center.value.y + dy)) else None)
  }

  /** `translateRect(rect, dx, dy)`. */
  method TranslateRect(rect: Rect, dx: real, dy: real)
    requires HasCorners(rect.Data())
    modifies rect
    ensures rect.Data() == Translated(old(rect.Data()), dx, dy)
  {
    rect.x := rect.x + dx;
    rect.y := rect.y + dy;
    rect.ex := Some(rect.ex.value + dx);
    rect.ey := Some(rect.ey.value + dy);
    if rect.center.Some? {
      rect.center := Some(rect.center.value.(x := rect.center.value.x + dx, y := rect.center.value.y + dy));
    }
  }

  /** Moving by `(dx, dy)` and then by `(-dx, -dy)` restores every field. */
  lemma TranslateRoundTrip(d: RectData, dx: real, dy: real)
    requires HasCorners(d)
    ensures Translated(Translated(d, dx, dy), -dx, -dy) == d
  {
    var r := Translated(Translated(d, dx, dy), -dx, -dy);
    if d.center.Some? {
      assert r.center.value == d.center.value;
    }
  }

  /** Two moves are one move by the summed offsets. */
  lemma TranslateComposes(d: RectData, dx1: real, dy1: real, dx2: real, dy2: real)
    requires HasCorners(d)
    ensures Translated(Translated(d, dx1, dy1), dx2, dy2) == Translated(d, dx1 + dx2, dy1 + dy2)
  {
    var r1 := Translated(Translated(d, dx1, dy1), dx2, dy2);
    var r2 := Translated(d, dx1 + dx2, dy1 + dy2);
    if d.center.Some? {
      assert r1.center.value == r2.center.value;
    }
  }

  /** Moving keeps the far corner and the center in step with the origin. */
  lemma TranslateKeepsDerivedFields(d: RectData, dx: real, dy: real)
    requires HasCorners(d)
    ensures Consistent(d) ==> Consistent(Translated(d, dx, dy))
    ensures Centered(d) ==> Centered(Translated(d, dx, dy))
  {
  }

  /** A point moved along with the rectangle keeps its place relative to it. */
  lemma TranslateMovesHits(p: Point, d: RectData, dx: real, dy: real)
    requires HasCorners(d)
    ensures StrictlyInside(p, d) == StrictlyInside(p.(x := p.x + dx, y := p.y + dy), Translated(d, dx, dy))
  {
  }

  // ---------------------------------------------------------------- resizeRect

  /** The smallest width or height a resize may leave. */
  const MinSize: real := 5.0

  /** The handles whose drag moves `ex` or `ey`: all but top-left (0), top (4) and left (7). */
  predicate MovesFarCorner(resizeIndex: int) {
    resizeIndex == 1 || resizeIndex == 2 || resizeIndex == 3 || resizeIndex == 5 || resizeIndex == 6
  }

  /** Handle `resizeIndex` (0-7) may be dragged by the offset without a side it moves falling below the minimum. */
  predicate ResizeAllowed(d: RectData, offsetX: real, offsetY: real, resizeIndex: int) {
    match resizeIndex
    case 0 => d.width - offsetX >= MinSize && d.height - offsetY >= MinSize
    case 1 => d.width + offsetX >= MinSize && d.height - offsetY >= MinSize
    case 2 => d.width + offsetX >= MinSize && d.height + offsetY >= MinSize
    case 3 => d.width - offsetX >= MinSize && d.height + offsetY >= MinSize
    case 4 => d.height - offsetY >= MinSize
    case 5 => d.width + offsetX >= MinSize
    case 6 => d.height + offsetY >= MinSize
    case 7 => d.width - offsetX >= MinSize
    case _ => false
  }

  /** The fields after dragging handle `resizeIndex` by `(offsetX, offsetY)`; unchanged when the drag is refused. */
  function Resized(d: RectData, offsetX: real, offsetY: real, resizeIndex: int): (r: RectData)
    requires ResizeAllowed(d, offsetX, offsetY, resizeIndex) && MovesFarCorner(resizeIndex) ==> HasCorners(d)
    ensures r.rotate == d.rotate && r.center == d.center
  {
    if !ResizeAllowed(d, offsetX, offsetY, resizeIndex) then d
    else match resizeIndex
      case 0 => d.(x := d.x + offsetX, y := d.y + offsetY, width := d.width - offsetX, height := d.height - offsetY)
      case 1 => d.(ex := Some(d.ex.value + offsetX), y := d.y + offsetY, width := d.width + offsetX, height := d.height - offsetY)
      case 2 => d.(ex := Some(d.ex.value + offsetX), ey := Some(d.ey.value + offsetY), width := d.width + offsetX, height := d.height + offsetY)
      case 3 => d.(x := d.x + offsetX, ey := Some(d.ey.value + offsetY), width := d.width - offsetX, height := d.height + offsetY)
      case 4 => d.(y := d.y + offsetY, height := d.height - offsetY)
      case 5 => d.(ex := Some(d.ex.value + offsetX), width := d.width + offsetX)
      case 6 => d.(ey := Some(d.ey.value + offsetY), height := d.height + offsetY)
      case 7 => d.(x := d.x + offsetX, width := d.width - offsetX)
  }

  /** `resizeRect(rect, offsetX, offsetY, resizeIndex)`. */
  method ResizeRect(rect: Rect, offsetX: real, offsetY: real, resizeIndex: int)
    requires ResizeAllowed(rect.Data(), offsetX, offsetY, resizeIndex) && MovesFarCorner(resizeIndex) ==> HasCorners(rect.Data())
    modifies rect
    ensures rect.Data() == Resized(old(rect.Data()), offsetX, offsetY, resizeIndex)
  {
    if resizeIndex == 0 {
      if rect.width - offsetX < 5.0 || rect.height - offsetY < 5.0 {
        return;
      }
      rect.x := rect.x + offsetX;
      rect.y := rect.y + offsetY;
      rect.width := rect.width - offsetX;
      rect.height := rect.height - offsetY;
    } else if resizeIndex == 1 {
      if rect.width + offsetX < 5.0 || rect.height - offsetY < 5.0 {
        return;
      }
      rect.ex := Some(rect.ex.value + offsetX);
      rect.y := rect.y + offsetY;
      rect.width := rect.width + offsetX;
      rect.height := rect.height - offsetY;
    } else if resizeIndex == 2 {
      if rect.width + offsetX < 5.0 || rect.height + offsetY < 5.0 {
        return;
      }
      rect.ex := Some(rect.ex.value + offsetX);
      rect.ey := Some(rect.ey.value + offsetY);
      rect.width := rect.width + offsetX;
      rect.height := rect.height + offsetY;
    } else if resizeIndex == 3 {
      if rect.width - offsetX < 5.0 || rect.height + offsetY < 5.0 {
        return;
      }
      rect.x := rect.x + offsetX;
      rect.ey := Some(rect.ey.value + offsetY);
      rect.width := rect.width - offsetX;
      rect.height := rect.height + offsetY;
    } else if resizeIndex == 4 {
      if rect.height - offsetY < 5.0 {
        return;
      }
      rect.y := rect.y + offsetY;
      rect.height := rect.height - offsetY;
    } else if resizeIndex == 5 {
      if rect.width + offsetX < 5.0 {
        return;
      }
      rect.ex := Some(rect.ex.value + offsetX);
      rect.width := rect.width + offsetX;
    } else if resizeIndex == 6 {
      if rect.height + offsetY < 5.0 {
        return;
      }
      rect.ey := Some(rect.ey.value + offsetY);
      rect.height := rect.height + offsetY;
    } else if resizeIndex == 7 {
      if rect.width - offsetX < 5.0 {
        return;
      }
      rect.x := rect.x + offsetX;
      rect.width := rect.width - offsetX;
    }
  }

  /** A refused drag, or a handle index outside 0-7, leaves every field as it was. */
  lemma ResizeRefusedIsNoOp(d: RectData, offsetX: real, offsetY: real, resizeIndex: int)
    requires !ResizeAllowed(d, offsetX, offsetY, resizeIndex) || resizeIndex < 0 || resizeIndex > 7
    ensures Resized(d, offsetX, offsetY, resizeIndex) == d
  {
  }

  /** A side that a resize changes ends at least `MinSize` long. */
  lemma ResizeRespectsMinimum(d: RectData, offsetX: real, offsetY: real, resizeIndex: int)
    requires ResizeAllowed(d, offsetX, offsetY, resizeIndex) && MovesFarCorner(resizeIndex) ==> HasCorners(d)
    ensures var r := Resized(d, offsetX, offsetY, resizeIndex);
      (r.width != d.width ==> r.width >= MinSize) && (r.height != d.height ==> r.height >= MinSize)
  {
  }

  /**
   * Every handle keeps `ex = x + width` and `ey = y + height`, and the side or
   * corner opposite the dragged handle stays where it was.
   */
  lemma ResizeKeepsConsistentAndAnchored(d: RectData, offsetX: real, offsetY: real, resizeIndex: int)
    requires Consistent(d)
    ensures var r := Resized(d, offsetX, offsetY, resizeIndex);
      Consistent(r) &&
      (resizeIndex in {0, 3, 7} ==> r.ex == d.ex) &&
      (resizeIndex in {0, 1, 4} ==> r.ey == d.ey) &&
      (resizeIndex in {1, 2, 5} ==> r.x == d.x) &&
      (resizeIndex in {2, 3, 6} ==> r.y == d.y)
  {
  }

  /** The dragged corner moves exactly by the offset when the drag is allowed. */
  lemma ResizeMovesHandle(d: RectData, offsetX: real, offsetY: real, resizeIndex: int)
    requires Consistent(d) && ResizeAllowed(d, offsetX, offsetY, resizeIndex)
    ensures var r := Resized(d, offsetX, offsetY, resizeIndex);
      (resizeIndex == 0 ==> r.x == d.x + offsetX && r.y == d.y + offsetY && r.ex == d.ex && r.ey == d.ey) &&
      (resizeIndex == 1 ==> r.ex.value == d.ex.value + offsetX && r.y == d.y + offsetY && r.x == d.x && r.ey == d.ey) &&
      (resizeIndex == 2 ==> r.ex.value == d.ex.value + offsetX && r.ey.value == d.ey.value + offsetY && r.x == d.x && r.y == d.y) &&
      (resizeIndex == 3 ==> r.x == d.x + offsetX && r.ey.value == d.ey.value + offsetY && r.ex == d.ex && r.y == d.y) &&
      (resizeIndex == 4 ==> r.y == d.y + offsetY && r.x == d.x && r.ex == d.ex && r.ey == d.ey && r.width == d.width) &&
      (resizeIndex == 5 ==> r.ex.value == d.ex.value + offsetX && r.x == d.x && r.y == d.y && r.ey == d.ey && r.height == d.height) &&
      (resizeIndex == 6 ==> r.ey.value == d.ey.value + offsetY && r.x == d.x && r.y == d.y && r.ex == d.ex && r.width == d.width) &&
      (resizeIndex == 7 ==> r.x == d.x + offsetX && r.y == d.y && r.ex == d.ex && r.ey == d.ey && r.height == d.height)
  {
  }

  // ---------------------------------------------------------------- scaleRect

  /**
   * The fields after scaling by `s` around `c`: the size is multiplied, the
   * origin moves away from `c`, and `ex`, `ey` and a new center are derived.
   */
  function Scaled(d: RectData, s: real, c: Point): (r: RectData)
    ensures Consistent(r) && Centered(r) && r.rotate == d.rotate
  {
    var w, h := d.width * s, d.height * s;
    var x, y := ScaleCoord(d.x, s, c.x), ScaleCoord(d.y, s, c.y);
    RectData(x, y, Some(x + w), Some(y + h), w, h, d.rotate, Some(Pt(x + w / 2.0, y + h / 2.0)))
  }

  /** `scaleRect(rect, scale, center)`: nothing happens for an absent rectangle. */
  method ScaleRect(rect: Rect?, scale: real, center: Point)
    modifies rect
    ensures rect != null ==> rect.Data() == Scaled(old(rect.Data()), scale, center)
  {
    if rect == null {
      return;
    }
    ghost var d := rect.Data();
    rect.width := rect.width * scale;
    rect.height := rect.height * scale;
    rect.x := ScaleCoord(rect.x, scale, center.x);
    rect.y := ScaleCoord(rect.y, scale, center.y);
    rect.ex := Some(rect.x + rect.width);
    rect.ey := Some(rect.y + rect.height);
    rect.center := Some(Pt(rect.x + rect.width / 2.0, rect.y + rect.height / 2.0));
    ghost var r := Scaled(d, scale, center);
    assert rect.center.value.x == r.center.value.x && rect.center.value.y == r.center.value.y;
  }

  /** Every corner of a consistent rectangle is scaled around `c`, not just the origin. */
  lemma ScaleMovesCorners(d: RectData, s: real, c: Point, k: nat)
    requires Consistent(d) && k < 4
    ensures var p, q := Corners(d)[k], Corners(Scaled(d, s, c))[k];
      q.x == ScaleCoord(p.x, s, c.x) && q.y == ScaleCoord(p.y, s, c.y)
  {
    ScaleSpan(d.x, d.width, s, c.x);
    ScaleSpan(d.y, d.height, s, c.y);
  }

  /** Scaling a segment's start and length scales its end. */
  lemma ScaleSpan(v: real, w: real, s: real, c: real)
    ensures ScaleCoord(v, s, c) + w * s == ScaleCoord(v + w, s, c)
  {
    assert (v - c) * s + w * s == (v + w - c) * s;
  }

  /** Scaling by `s` and then by `1 / s` around the same point restores the position and the size. */
  lemma ScaleRoundTrip(d: RectData, s: real, c: Point)
    requires s != 0.0
    ensures var r := Scaled(Scaled(d, s, c), 1.0 / s, c);
      r.x == d.x && r.y == d.y && r.width == d.width && r.height == d.height && r.rotate == d.rotate
    ensures Consistent(d) && d.center == Some(Pt(d.x + d.width / 2.0, d.y + d.height / 2.0)) ==>
      Scaled(Scaled(d, s, c), 1.0 / s, c) == d
  {
    assert d.width * s * (1.0 / s) == d.width;
    assert d.height * s * (1.0 / s) == d.height;
    assert (d.x - c.x) * s * (1.0 / s) == d.x - c.x;
    assert (d.y - c.y) * s * (1.0 / s) == d.y - c.y;
  }
}
