/**
 * Bounding boxes from packages/core/src/rect/rect.ts: `getRectOfPoints` (the
 * min/max fold), `rectToPoints` (the corners, rotated when the rectangle is),
 * `getRect` (the box around several rectangles) and `rectInRect` (overlap and
 * containment).
 */
module Bounds {
  import opened Options
  import opened Points
  import opened Rects

  /** The far corner is set and lies at or beyond the origin on both axes. */
  predicate WellFormed(d: RectData) {
    HasCorners(d) && d.x <= d.ex.value && d.y <= d.ey.value
  }

  /** The point lies in the closed box spanned by `x..ex` and `y..ey`. */
  predicate Encloses(b: RectData, p: Point)
    requires HasCorners(b)
  {
    b.x <= p.x <= b.ex.value && b.y <= p.y <= b.ey.value
  }

  // ---------------------------------------------------------------- getRectOfPoints

  /**
   * `getRectOfPoints(points)`: the smallest box holding every point. Each side
   * is attained by some point, and the width and height are the spans.
   */
  method GetRectOfPoints(points: seq<Point>) returns (b: RectData)
    requires |points| > 0
    ensures Consistent(b) && b.rotate == 0.0 && b.center == None
    ensures forall p :: p in points ==> Encloses(b, p)
    ensures exists i :: 0 <= i < |points| && points[i].x == b.x
    ensures exists i :: 0 <= i < |points| && points[i].y == b.y
    ensures exists i :: 0 <= i < |points| && points[i].x == b.ex.value
    ensures exists i :: 0 <= i < |points| && points[i].y == b.ey.value
  {
    var x, y, ex, ey := points[0].x, points[0].y, points[0].x, points[0].y;
    for i := 1 to |points|
      invariant forall j :: 0 <= j < i ==> x <= points[j].x <= ex && y <= points[j].y <= ey
      invariant exists j :: 0 <= j < i && points[j].x == x
      invariant exists j :: 0 <= j < i && points[j].y == y
      invariant exists j :: 0 <= j < i && points[j].x == ex
      invariant exists j :: 0 <= j < i && points[j].y == ey
    {
      var item := points[i];
      x := if item.x < x then item.x else x;
      y := if item.y < y then item.y else y;
      ex := if item.x > ex then item.x else ex;
      ey := if item.y > ey then item.y else ey;
    }
    b := RectData(x, y, Some(ex), Some(ey), ex - x, ey - y, 0.0, None);
  }

  /** The three points (1,1), (5,5), (-2,3) are bounded by x -2..5, y 1..5: width 7, height 4. */
  method GetRectOfPointsExample() returns (b: RectData)
    ensures b == RectData(-2.0, 1.0, Some(5.0), Some(5.0), 7.0, 4.0, 0.0, None)
  {
    var pts := [Pt(1.0, 1.0), Pt(5.0, 5.0), Pt(-2.0, 3.0)];
    b := GetRectOfPoints(pts);
    assert Encloses(b, pts[0]) && Encloses(b, pts[1]) && Encloses(b, pts[2]);
  }

  // ---------------------------------------------------------------- rectToPoints

  /** The rectangle can report its corners: both extents set, and a center when rotated. */
  predicate Ready(d: RectData) {
    HasCorners(d) && (d.rotate != 0.0 ==> d.center.Some?)
  }

  /** The corners `rectToPoints` reports: rotated around the cached center when `rotate` is nonzero. */
  function CornerPoints(d: RectData, rotatePoint: Rotation): (pts: seq<Point>)
    requires Ready(d)
    ensures |pts| == 4
    ensures d.rotate == 0.0 ==> pts == Corners(d)
  {
    if d.rotate != 0.0 then RotatedCorners(d, rotatePoint) else Corners(d)
  }

  /** The rectangle after `rectToPoints`: a rotated one gets a center if it had none. */
  function CornerState(d: RectData): (r: RectData)
    ensures r.(center := d.center) == d && HasCorners(r) == HasCorners(d)
    ensures r.rotate != 0.0 ==> r.center.Some?
    ensures d.rotate == 0.0 || d.center.Some? ==> r == d
    ensures d.rotate != 0.0 && d.center.None? ==> Centered(r)
  {
    if d.rotate != 0.0 then EnsureCenter(d) else d
  }

  /** `rectToPoints(rect)`: top-left, top-right, bottom-right, bottom-left. */
  method RectToPoints(rect: Rect, rotatePoint: Rotation) returns (pts: seq<Point>)
    requires HasCorners(rect.Data())
    modifies rect
    ensures rect.Data() == CornerState(old(rect.Data()))
    ensures pts == CornerPoints(rect.Data(), rotatePoint)
  {
    pts := [Pt(rect.x, rect.y), Pt(rect.ex.value, rect.y), Pt(rect.ex.value, rect.ey.value), Pt(rect.x, rect.ey.value)];
    if rect.rotate != 0.0 {
      if rect.center.None? {
        CalcCenter(rect);
      }
      ghost var corners := pts;
      for i := 0 to |pts|
        invariant |pts| == 4
        invariant forall j :: 0 <= j < i ==> pts[j] == rotatePoint(corners[j], rect.rotate, rect.center.value)
        invariant forall j :: i <= j < 4 ==> pts[j] == corners[j]
      {
        pts := pts[i := rotatePoint(pts[i], rect.rotate, rect.center.value)];
      }
    }
  }

  // ---------------------------------------------------------------- getRect

  /** The corners of every present rectangle, in order, four per rectangle. */
  function CornersOf(ds: seq<Option<RectData>>, rotatePoint: Rotation): (pts: seq<Point>)
    requires forall j :: 0 <= j < |ds| && ds[j].Some? ==> Ready(ds[j].value)
  {
    if ds == [] then []
    else
      var last := ds[|ds| - 1];
      CornersOf(ds[..|ds| - 1], rotatePoint) + if last.Some? then CornerPoints(last.value, rotatePoint) else []
  }

  /** Every corner of every present rectangle is among the collected points. */
  lemma {:induction false} CornersOfCovers(ds: seq<Option<RectData>>, rotatePoint: Rotation, j: int, k: int)
    requires forall j :: 0 <= j < |ds| && ds[j].Some? ==> Ready(ds[j].value)
    requires 0 <= j < |ds| && ds[j].Some? && 0 <= k < 4
    ensures CornerPoints(ds[j].value, rotatePoint)[k] in CornersOf(ds, rotatePoint)
  {
    if j < |ds| - 1 {
      CornersOfCovers(ds[..|ds| - 1], rotatePoint, j, k);
    }
  }

  /** Every collected point is a corner of some present rectangle. */
  lemma {:induction false} CornersOfOrigin(ds: seq<Option<RectData>>, rotatePoint: Rotation, m: int)
    returns (j: int, k: int)
    requires forall j :: 0 <= j < |ds| && ds[j].Some? ==> Ready(ds[j].value)
    requires 0 <= m < |CornersOf(ds, rotatePoint)|
    ensures 0 <= j < |ds| && ds[j].Some? && 0 <= k < 4
    ensures CornersOf(ds, rotatePoint)[m] == CornerPoints(ds[j].value, rotatePoint)[k]
  {
    var init := ds[..|ds| - 1];
    if m < |CornersOf(init, rotatePoint)| {
      j, k := CornersOfOrigin(init, rotatePoint, m);
    } else {
      j, k := |ds| - 1, m - |CornersOf(init, rotatePoint)|;
    }
  }

  /**
   * A box around every collected point, each side reached by one of them, is
   * a box around every corner of every present rectangle whose sides are each
   * reached by such a corner.
   */
  lemma BoxOfCorners(ds: seq<Option<RectData>>, rotatePoint: Rotation, b: RectData)
    requires forall j :: 0 <= j < |ds| && ds[j].Some? ==> Ready(ds[j].value)
    requires HasCorners(b)
    requires forall p :: p in CornersOf(ds, rotatePoint) ==> Encloses(b, p)
    requires var pts := CornersOf(ds, rotatePoint);
      (exists m :: 0 <= m < |pts| && pts[m].x == b.x) && (exists m :: 0 <= m < |pts| && pts[m].y == b.y) &&
      (exists m :: 0 <= m < |pts| && pts[m].x == b.ex.value) && (exists m :: 0 <= m < |pts| && pts[m].y == b.ey.value)
    ensures forall j, k :: 0 <= j < |ds| && ds[j].Some? && 0 <= k < 4 ==> Encloses(b, CornerPoints(ds[j].value, rotatePoint)[k])
    ensures exists j, k :: 0 <= j < |ds| && ds[j].Some? && 0 <= k < 4 && CornerPoints(ds[j].value, rotatePoint)[k].x == b.x
    ensures exists j, k :: 0 <= j < |ds| && ds[j].Some? && 0 <= k < 4 && CornerPoints(ds[j].value, rotatePoint)[k].y == b.y
    ensures exists j, k :: 0 <= j < |ds| && ds[j].Some? && 0 <= k < 4 && CornerPoints(ds[j].value, rotatePoint)[k].x == b.ex.value
    ensures exists j, k :: 0 <= j < |ds| && ds[j].Some? && 0 <= k < 4 && CornerPoints(ds[j].value, rotatePoint)[k].y == b.ey.value
  {
    var pts := CornersOf(ds, rotatePoint);
    forall j, k | 0 <= j < |ds| && ds[j].Some? && 0 <= k < 4
      ensures Encloses(b, CornerPoints(ds[j].value, rotatePoint)[k])
    {
      CornersOfCovers(ds, rotatePoint, j, k);
    }
    var m :| 0 <= m < |pts| && pts[m].x == b.x;
    var j, k := CornersOfOrigin(ds, rotatePoint, m);
    m :| 0 <= m < |pts| && pts[m].y == b.y;
    j, k := CornersOfOrigin(ds, rotatePoint, m);
    m :| 0 <= m < |pts| && pts[m].x == b.ex.value;
    j, k := CornersOfOrigin(ds, rotatePoint, m);
    m :| 0 <= m < |pts| && pts[m].y == b.ey.value;
    j, k := CornersOfOrigin(ds, rotatePoint, m);
  }

  /**
   * The collecting loop of `getRect`: calls `rectToPoints` on every present
   * rectangle and concatenates the corners. `ds` records each slot as
   * `rectToPoints` leaves it.
   */
  method CollectCorners(rects: seq<Rect?>, rotatePoint: Rotation) returns (points: seq<Point>, ghost ds: seq<Option<RectData>>)
    requires forall i :: 0 <= i < |rects| && rects[i] != null ==> HasCorners(rects[i].Data())
    modifies set i | 0 <= i < |rects| && rects[i] != null :: rects[i]
    ensures forall i :: 0 <= i < |rects| && rects[i] != null ==> rects[i].Data() == CornerState(old(rects[i].Data()))
    ensures |ds| == |rects|
    ensures forall i :: 0 <= i < |rects| ==> ds[i] == if rects[i] == null then None else Some(rects[i].Data())
    ensures forall i :: 0 <= i < |ds| && ds[i].Some? ==> Ready(ds[i].value)
    ensures points == CornersOf(ds, rotatePoint)
  {
    points := [];
    ds := [];
    for i := 0 to |rects|
      invariant forall j :: 0 <= j < |rects| && rects[j] != null ==>
        rects[j].Data() == CornerState(old(rects[j].Data())) || (i <= j && rects[j].Data() == old(rects[j].Data()))
      invariant |ds| == i
      invariant forall j :: 0 <= j < i ==> ds[j] == if rects[j] == null then None else Some(CornerState(old(rects[j].Data())))
      invariant points == CornersOf(ds, rotatePoint)
    {
      ghost var visited := ds;
      if rects[i] != null {
        var pts := RectToPoints(rects[i], rotatePoint);
        points := points + pts;
        ds := ds + [Some(rects[i].Data())];
      } else {
        ds := ds + [None];
      }
      assert ds[..i] == visited;
    }
  }

  /**
   * `getRect(pens)`, over the pens' world rectangles (`null` where a pen has
   * none): the smallest box around the corners of every present rectangle
   * (each side is reached by some corner), with its center computed. Rotated
   * rectangles contribute their rotated corners.
   */
  method GetRect(rects: seq<Rect?>, rotatePoint: Rotation) returns (b: RectData)
    requires exists i :: 0 <= i < |rects| && rects[i] != null
    requires forall i :: 0 <= i < |rects| && rects[i] != null ==> HasCorners(rects[i].Data())
    modifies set i | 0 <= i < |rects| && rects[i] != null :: rects[i]
    ensures Consistent(b) && Centered(b) && b.rotate == 0.0
    ensures forall i :: 0 <= i < |rects| && rects[i] != null ==> rects[i].Data() == CornerState(old(rects[i].Data()))
    ensures forall i :: 0 <= i < |rects| && rects[i] != null ==> Ready(rects[i].Data())
    ensures forall i, k :: 0 <= i < |rects| && rects[i] != null && 0 <= k < 4 ==>
      Encloses(b, CornerPoints(rects[i].Data(), rotatePoint)[k])
    ensures exists i, k ::
              0 <= i < |rects| && rects[i] != null && 0 <= k < 4 &&
              CornerPoints(rects[i].Data(), rotatePoint)[k].x == b.x
    ensures exists i, k ::
              0 <= i < |rects| && rects[i] != null && 0 <= k < 4 &&
              CornerPoints(rects[i].Data(), rotatePoint)[k].y == b.y
    ensures exists i, k ::
              0 <= i < |rects| && rects[i] != null && 0 <= k < 4 &&
              CornerPoints(rects[i].Data(), rotatePoint)[k].x == b.ex.value
    ensures exists i, k ::
              0 <= i < |rects| && rects[i] != null && 0 <= k < 4 &&
              CornerPoints(rects[i].Data(), rotatePoint)[k].y == b.ey.value
  {
    var points;
    ghost var ds;
    points, ds := CollectCorners(rects, rotatePoint);
    assert points != [] by {
      var j :| 0 <= j < |rects| && rects[j] != null;
      CornersOfCovers(ds, rotatePoint, j, 0);
    }
    var box := GetRectOfPoints(points);
    b := WithCenter(box);
    WithCenterKeepsBox(box);
    BoxOfCorners(ds, rotatePoint, b);
  }

  // ---------------------------------------------------------------- rectInRect

  /** `a < b` as JavaScript evaluates it: false when either side is unset (NaN). */
  predicate Less(a: Option<real>, b: Option<real>) {
    a.Some? && b.Some? && a.value < b.value
  }

  /**
   * `rectInRect(source, target, allIn)`: with `allIn`, `source` lies strictly
   * inside `target`; otherwise the two boxes overlap, touching included.
   */
  function RectInRect(source: RectData, target: RectData, allIn: bool := false): (r: bool)
    // Containment needs both far corners set, and then every point of `source`
    // lies in the open interior of `target`.
    ensures allIn && r ==> HasCorners(source) && HasCorners(target)
    ensures allIn && r ==> forall p :: Encloses(source, p) ==>
      target.x < p.x < target.ex.value && target.y < p.y < target.ey.value
    // Boxes sharing a point, border included, overlap.
    ensures !allIn && (exists p :: HasCorners(source) && HasCorners(target) && Encloses(source, p) && Encloses(target, p)) ==> r
    // An unset far corner compares as NaN and never separates the boxes.
    ensures !allIn && source.ex == source.ey == target.ex == target.ey == None ==> r
  {
    if allIn then
      Less(Some(target.x), Some(source.x)) && Less(source.ex, target.ex) &&
      Less(Some(target.y), Some(source.y)) && Less(source.ey, target.ey)
    else
      !(Less(target.ex, Some(source.x)) || Less(source.ex, Some(target.x)) ||
        Less(source.ey, Some(target.y)) || Less(target.ey, Some(source.y)))
  }

  /** For a well-formed source, containment holds exactly when every point of `source` lies strictly inside `target`. */
  lemma ContainmentIsStrictInterior(source: RectData, target: RectData)
    requires WellFormed(source) && HasCorners(target)
    ensures RectInRect(source, target, true) <==>
      forall p :: Encloses(source, p) ==> target.x < p.x < target.ex.value && target.y < p.y < target.ey.value
  {
    assert Encloses(source, Pt(source.x, source.y));
    assert Encloses(source, Pt(source.ex.value, source.ey.value));
  }

  /** Overlap does not depend on which box is the source. */
  lemma OverlapSymmetric(a: RectData, b: RectData)
    ensures RectInRect(a, b) == RectInRect(b, a)
  {
  }

  /** A well-formed box strictly inside another overlaps it. */
  lemma ContainedOverlaps(source: RectData, target: RectData)
    requires WellFormed(source) && RectInRect(source, target, true)
    ensures RectInRect(source, target)
  {
  }

  /** Two boxes overlap when some point lies in both; for well-formed boxes, only then. */
  lemma OverlapIsCommonPoint(a: RectData, b: RectData, p: Point)
    requires HasCorners(a) && HasCorners(b)
    ensures Encloses(a, p) && Encloses(b, p) ==> RectInRect(a, b)
    ensures WellFormed(a) && WellFormed(b) && RectInRect(a, b) ==>
      var q := Pt(if a.x < b.x then b.x else a.x, if a.y < b.y then b.y else a.y);
      Encloses(a, q) && Encloses(b, q)
  {
  }
}
