/**
 * Hit-testing from packages/core/src/rect/rect.ts: `pointInVertices` (even-odd
 * ray casting over a polygon), `pointInRect` (strict box test, or the polygon
 * test on the rotated corners) and `pointInSimpleRect` (inclusive box test
 * with a tolerance).
 */
module HitTest {
  import opened Options
  import opened Points
  import opened Rects

  // ---------------------------------------------------------------- pointInVertices

  /** The vertex the loop holds in `last` when it reaches index `i`: the previous one, cyclically. */
  function Before(vs: seq<Point>, i: nat): Point
    requires 0 < |vs| && i <= |vs|
  {
    if i == 0 then vs[|vs| - 1] else vs[i - 1]
  }

  /** The edge from `last` to `item` has one end above the horizontal line through `p` and one not above it. */
  predicate Straddles(p: Point, last: Point, item: Point) {
    (last.y > p.y) != (item.y > p.y)
  }

  /** Where the edge from `last` to `item` meets the horizontal line through `p`. */
  function CrossingX(p: Point, last: Point, item: Point): real
    requires last.y != item.y
  {
    item.x + (p.y - item.y) * (last.x - item.x) / (last.y - item.y)
  }

  /**
   * The edge toggles the inside flag: it straddles the line through `p` and
   * meets it right of `p`. The straddle test is what keeps the division by
   * `last.y - item.y` away from zero.
   */
  predicate Flips(p: Point, last: Point, item: Point) {
    Straddles(p, last, item) && CrossingX(p, last, item) > p.x
  }

  /** How many of the first `k` edges (each ending at `vs[i]`) toggle the flag. */
  function Crossings(p: Point, vs: seq<Point>, k: nat): nat
    requires k <= |vs|
  {
    if k == 0 then 0
    else Crossings(p, vs, k - 1) + (if Flips(p, Before(vs, k - 1), vs[k - 1]) then 1 else 0)
  }

  /** The even-odd rule: a polygon of at least three vertices contains `p` when an odd number of edges cross right of it. */
  predicate InsidePolygon(p: Point, vs: seq<Point>) {
    |vs| >= 3 && Crossings(p, vs, |vs|) % 2 == 1
  }

  /** `pointInVertices(point, vertices)`. */
  method PointInVertices(point: Point, vertices: seq<Point>) returns (isIn: bool)
    ensures isIn == InsidePolygon(point, vertices)
  {
    if |vertices| < 3 {
      return false;
    }
    isIn := false;
    var last := vertices[|vertices| - 1];
    for i := 0 to |vertices|
      invariant last == Before(vertices, i)
      invariant isIn == (Crossings(point, vertices, i) % 2 == 1)
    {
      var item := vertices[i];
      ghost var flips := Flips(point, last, item);
      assert Crossings(point, vertices, i + 1) == Crossings(point, vertices, i) + if flips then 1 else 0;
      if (last.y > point.y) != (item.y > point.y) {
        if CrossingX(point, last, item) > point.x {
          isIn := !isIn;
        }
      }
      last := item;
    }
  }

  /** `a / c` is a fraction between 0 and 1 when `a` lies between 0 and `c`. */
  lemma FractionInUnit(a: real, c: real)
    requires 0.0 <= a <= c || c <= a <= 0.0
    requires c != 0.0
    ensures 0.0 <= a / c <= 1.0
  {
    assert a / c * c == a;
  }

  /** The crossing lies on the edge: between the x-coordinates of its two ends. */
  lemma CrossingOnEdge(p: Point, last: Point, item: Point)
    requires Straddles(p, last, item)
    ensures item.x <= CrossingX(p, last, item) <= last.x || last.x <= CrossingX(p, last, item) <= item.x
  {
    var a, c, d := p.y - item.y, last.y - item.y, last.x - item.x;
    FractionInUnit(a, c);
    var t := a / c;
    assert a * d / c == t * d;
    if d >= 0.0 {
      assert t * d <= d by { assert d - t * d == (1.0 - t) * d; }
    } else {
      assert d <= t * d by { assert t * d - d == (1.0 - t) * -d; }
    }
  }

  lemma {:induction false} NoCrossingsRightOfAll(p: Point, vs: seq<Point>, k: nat)
    requires 0 < |vs| && k <= |vs|
    requires forall v :: v in vs ==> v.x <= p.x
    ensures Crossings(p, vs, k) == 0
  {
    if k > 0 {
      NoCrossingsRightOfAll(p, vs, k - 1);
      var last, item := Before(vs, k - 1), vs[k - 1];
      if Straddles(p, last, item) {
        CrossingOnEdge(p, last, item);
      }
    }
  }

  /** A point at or right of every vertex is outside the polygon. */
  lemma RightOfAllVerticesIsOutside(p: Point, vs: seq<Point>)
    requires forall v :: v in vs ==> v.x <= p.x
    ensures !InsidePolygon(p, vs)
  {
    if |vs| >= 3 {
      NoCrossingsRightOfAll(p, vs, |vs|);
    }
  }

  lemma {:induction false} NoCrossingsOffSide(p: Point, vs: seq<Point>, k: nat)
    requires 0 < |vs| && k <= |vs|
    requires (forall v :: v in vs ==> v.y > p.y) || (forall v :: v in vs ==> v.y <= p.y)
    ensures Crossings(p, vs, k) == 0
  {
    if k > 0 {
      NoCrossingsOffSide(p, vs, k - 1);
      assert Before(vs, k - 1) in vs;
    }
  }

  /** A point strictly below every vertex, or at or above all of them, is outside the polygon. */
  lemma AboveOrBelowAllVerticesIsOutside(p: Point, vs: seq<Point>)
    requires (forall v :: v in vs ==> v.y > p.y) || (forall v :: v in vs ==> v.y <= p.y)
    ensures !InsidePolygon(p, vs)
  {
    if |vs| >= 3 {
      NoCrossingsOffSide(p, vs, |vs|);
    }
  }

  lemma {:induction false} ShiftedCrossings(p: Point, vs: seq<Point>, k: nat)
    requires 2 <= |vs| && k < |vs|
    ensures Crossings(p, vs[1..] + [vs[0]], k) == Crossings(p, vs, k + 1) - Crossings(p, vs, 1)
  {
    var ws := vs[1..] + [vs[0]];
    if k > 0 {
      ShiftedCrossings(p, vs, k - 1);
      assert Before(ws, k - 1) == Before(vs, k) && ws[k - 1] == vs[k];
    }
  }

  /** Starting the vertex list at its second vertex does not change the answer. */
  lemma {:induction false} StartVertexIrrelevant(p: Point, vs: seq<Point>)
    requires |vs| >= 2
    ensures InsidePolygon(p, vs[1..] + [vs[0]]) == InsidePolygon(p, vs)
  {
    var ws := vs[1..] + [vs[0]];
    var n := |vs|;
    ShiftedCrossings(p, vs, n - 1);
    assert Before(ws, n - 1) == vs[n - 1] == Before(vs, 0) && ws[n - 1] == vs[0];
    assert Crossings(p, ws, n) == Crossings(p, vs, n);
  }

  /** The 10-by-10 square from the origin. */
  function Square(): seq<Point> {
    [Pt(0.0, 0.0), Pt(10.0, 0.0), Pt(10.0, 10.0), Pt(0.0, 10.0)]
  }

  /** A point level with the square's sides is crossed by each side that lies right of it. */
  lemma SquareCrossingsLevel(p: Point)
    requires 0.0 <= p.y < 10.0
    ensures Crossings(p, Square(), 4) == if p.x < 0.0 then 2 else if p.x < 10.0 then 1 else 0
  {
    var s := Square();
    assert Flips(p, Before(s, 0), s[0]) == (p.x < 0.0) by {
      assert Before(s, 0) == s[3];
      assert CrossingX(p, s[3], s[0]) == 0.0;
    }
    assert Crossings(p, s, 1) == if p.x < 0.0 then 1 else 0;
    assert !Flips(p, Before(s, 1), s[1]);
    assert Crossings(p, s, 2) == if p.x < 0.0 then 1 else 0;
    assert Flips(p, Before(s, 2), s[2]) == (p.x < 10.0) by {
      assert CrossingX(p, s[1], s[2]) == 10.0;
    }
    assert !Flips(p, Before(s, 3), s[3]);
  }

  /** The even-odd rule on the square picks out exactly the half-open box [0, 10) x [0, 10). */
  lemma SquareInsideExactly(p: Point)
    ensures InsidePolygon(p, Square()) <==> 0.0 <= p.x < 10.0 && 0.0 <= p.y < 10.0
  {
    var s := Square();
    assert |s| == 4;
    if 0.0 <= p.y < 10.0 {
      SquareCrossingsLevel(p);
    } else {
      AboveOrBelowAllVerticesIsOutside(p, s);
    }
  }

  /** The centre of the square is inside; a point right of it is outside; with y growing downwards, of the boundary the left and top edges (smaller x and y) count as inside, the right and bottom edges as outside. */
  lemma SquareExample()
    ensures InsidePolygon(Pt(5.0, 5.0), Square()) && !InsidePolygon(Pt(15.0, 5.0), Square())
    ensures InsidePolygon(Pt(0.0, 5.0), Square()) && InsidePolygon(Pt(5.0, 0.0), Square())
    ensures !InsidePolygon(Pt(10.0, 5.0), Square()) && !InsidePolygon(Pt(5.0, 10.0), Square())
  {
    SquareInsideExactly(Pt(5.0, 5.0));
    SquareInsideExactly(Pt(15.0, 5.0));
    SquareInsideExactly(Pt(0.0, 5.0));
    SquareInsideExactly(Pt(5.0, 0.0));
    SquareInsideExactly(Pt(10.0, 5.0));
    SquareInsideExactly(Pt(5.0, 10.0));
  }

  // ---------------------------------------------------------------- pointInRect

  /** `deg % 360 === 0`: the angle is a whole number of turns. */
  predicate WholeTurn(deg: real) {
    (deg / 360.0).Floor as real == deg / 360.0
  }

  /** A whole number of turns is an integer multiple of 360 degrees... */
  lemma WholeTurnIsMultipleOf360(deg: real)
    requires WholeTurn(deg)
    ensures deg == 360.0 * (deg / 360.0).Floor as real
  {
  }

  /** ...and every integer multiple of 360 degrees is a whole number of turns. */
  lemma MultipleOf360IsWholeTurn(k: int)
    ensures WholeTurn(360.0 * k as real)
  {
    assert 360.0 * k as real / 360.0 == k as real;
  }

  /** The fast path: no rotation, a whole number of turns, or a side below 20 units, where rotation is negligible. */
  predicate AxisAligned(d: RectData) {
    d.rotate == 0.0 || d.width < 20.0 || d.height < 20.0 || WholeTurn(d.rotate)
  }

  /** The lazy fill: when `ex` is unset, both `ex` and `ey` are derived from the origin and the size. */
  function FillCorners(d: RectData): (r: RectData)
    ensures d.ex.None? ==> Consistent(r) && r.(ex := None, ey := d.ey) == d
    ensures d.ex.Some? ==> r == d
    ensures Paired(d) ==> HasCorners(r)
  {
    if d.ex.None? then d.(ex := Some(d.x + d.width), ey := Some(d.y + d.height)) else d
  }

  /** The strict box test: points on the boundary are outside. */
  predicate StrictlyInside(pt: Point, d: RectData)
    requires HasCorners(d)
  {
    pt.x > d.x && pt.x < d.ex.value && pt.y > d.y && pt.y < d.ey.value
  }

  /** The rectangle after `pointInRect`: corners filled, and the center computed on the rotated path if none was cached. */
  function HitState(d: RectData): (r: RectData)
    requires Paired(d)
    ensures HasCorners(r) && (!AxisAligned(r) ==> r.center.Some?)
    ensures AxisAligned(r) == AxisAligned(d)
  {
    var f := FillCorners(d);
    if AxisAligned(f) then f else EnsureCenter(f)
  }

  /** What `pointInRect` answers for a present rectangle. */
  predicate Hit(pt: Point, d: RectData, rotatePoint: Rotation)
    requires Paired(d)
  {
    var s := HitState(d);
    if AxisAligned(s) then StrictlyInside(pt, s) else InsidePolygon(pt, RotatedCorners(s, rotatePoint))
  }

  /** `pointInRect(pt, rect)`: `None` (undefined) for an absent rectangle. */
  method PointInRect(pt: Point, rect: Rect?, rotatePoint: Rotation) returns (r: Option<bool>)
    requires rect != null ==> Paired(rect.Data())
    modifies rect
    ensures rect == null ==> r == None
    ensures rect != null ==> rect.Data() == HitState(old(rect.Data()))
    ensures rect != null ==> r == Some(Hit(pt, old(rect.Data()), rotatePoint))
  {
    if rect == null {
      return None;
    }
    if rect.ex.None? {
      rect.ex := Some(rect.x + rect.width);
      rect.ey := Some(rect.y + rect.height);
    }
    if rect.rotate == 0.0 || rect.width < 20.0 || rect.height < 20.0 || WholeTurn(rect.rotate) {
      return Some(pt.x > rect.x && pt.x < rect.ex.value && pt.y > rect.y && pt.y < rect.ey.value);
    }
    if rect.center.None? {
      CalcCenter(rect);
    }
    ghost var s := rect.Data();
    var pts := [Pt(rect.x, rect.y), Pt(rect.ex.value, rect.y), Pt(rect.ex.value, rect.ey.value), Pt(rect.x, rect.ey.value)];
    for i := 0 to |pts|
      invariant |pts| == 4
      invariant forall j :: 0 <= j < i ==> pts[j] == rotatePoint(Corners(s)[j], rect.rotate, rect.center.value)
      invariant forall j :: i <= j < 4 ==> pts[j] == Corners(s)[j]
    {
      pts := pts[i := rotatePoint(pts[i], rect.rotate, rect.center.value)];
    }
    assert pts == RotatedCorners(s, rotatePoint);
    var inside := PointInVertices(pt, pts);
    return Some(inside);
  }

  /**
   * On the fast path the answer is the strict box test over the filled corners,
   * so a point on any side of the box is outside.
   */
  lemma AxisAlignedHitIsStrict(pt: Point, d: RectData, rotatePoint: Rotation)
    requires Paired(d) && AxisAligned(d)
    ensures Hit(pt, d, rotatePoint) <==> StrictlyInside(pt, FillCorners(d))
    ensures HasCorners(FillCorners(d)) && (pt.x == d.x || pt.y == d.y || Some(pt.x) == FillCorners(d).ex || Some(pt.y) == FillCorners(d).ey)
            ==> !Hit(pt, d, rotatePoint)
  {
  }

  /** A rectangle rotated by any multiple of 360 degrees gets the same hit-test answer as an unrotated one. */
  lemma WholeTurnsAreUnrotated(pt: Point, d: RectData, k: int, rotatePoint: Rotation)
    requires Paired(d) && d.rotate == 360.0 * k as real
    ensures Hit(pt, d, rotatePoint) == Hit(pt, d.(rotate := 0.0), rotatePoint)
  {
    MultipleOf360IsWholeTurn(k);
  }

  // ---------------------------------------------------------------- pointInSimpleRect

  /**
   * `pointInSimpleRect(pt, rect, r)`: the inclusive box test widened by `r` on
   * every side. An unset `ex`/`ey` makes the source compare against NaN, which
   * is never true.
   */
  function PointInSimpleRect(pt: Point, rect: RectData, r: real := 0.0): (b: bool)
    ensures b ==> HasCorners(rect)
    ensures 0.0 <= r && HasCorners(rect) && StrictlyInside(pt, rect) ==> b
  {
    match (rect.ex, rect.ey)
    case (Some(ex), Some(ey)) => pt.x >= rect.x - r && pt.x <= ex + r && pt.y >= rect.y - r && pt.y <= ey + r
    case _ => false
  }

  /** A point inside at tolerance `r1` stays inside at any larger tolerance. */
  lemma SimpleRectWidens(pt: Point, rect: RectData, r1: real, r2: real)
    requires r1 <= r2 && PointInSimpleRect(pt, rect, r1)
    ensures PointInSimpleRect(pt, rect, r2)
  {
  }

  /** The tolerance `r` moves every side of the box out by `r`: the test at `r` is the plain test on the grown box. */
  lemma ToleranceGrowsBox(pt: Point, d: RectData, r: real)
    requires HasCorners(d)
    ensures PointInSimpleRect(pt, d, r) ==
      PointInSimpleRect(pt, d.(x := d.x - r, y := d.y - r, ex := Some(d.ex.value + r), ey := Some(d.ey.value + r)))
  {
  }

  /** With both extents set, the inclusive test is exactly membership of the closed box, all four sides included. */
  lemma SimpleRectIsClosedBox(pt: Point, d: RectData)
    requires HasCorners(d)
    ensures PointInSimpleRect(pt, d) <==> d.x <= pt.x <= d.ex.value && d.y <= pt.y <= d.ey.value
  {
  }

  /** Every corner of a well-formed box passes the inclusive test and fails the strict one. */
  lemma CornersOnBoundary(d: RectData, i: nat)
    requires HasCorners(d) && d.x <= d.ex.value && d.y <= d.ey.value && i < 4
    ensures PointInSimpleRect(Corners(d)[i], d)
    ensures !StrictlyInside(Corners(d)[i], d)
  {
  }
}
