/**
 * The rectangle record of packages/core/src/rect/rect.ts, as a value
 * (`RectData`) and as the mutable object the in-place helpers update (`Rect`).
 * `ex`/`ey` (the far corner) and `center` are derived fields that the source
 * fills lazily, so they may be unset; `rotate` is in degrees, 0 when absent.
 */
module Rects {
  import opened Options
  import opened Points

  datatype RectData = RectData(
    x: real,
    y: real,
    ex: Option<real>,
    ey: Option<real>,
    width: real,
    height: real,
    rotate: real,
    center: Option<Point>)

  /** The far corner is set. */
  predicate HasCorners(d: RectData) {
    d.ex.Some? && d.ey.Some?
  }

  /** `ex` and `ey` are set and unset together. */
  predicate Paired(d: RectData) {
    d.ex.Some? == d.ey.Some?
  }

  /** The derived far corner agrees with the origin and the size. */
  predicate Consistent(d: RectData) {
    d.ex == Some(d.x + d.width) && d.ey == Some(d.y + d.height)
  }

  /** The cached center is set and sits at the midpoint of the box. */
  predicate Centered(d: RectData) {
    d.center.Some? && d.center.value.x == d.x + d.width / 2.0 && d.center.value.y == d.y + d.height / 2.0
  }

  /** `calcCenter` on a value: writes the midpoint into the existing center point, or into a new one. */
  function WithCenter(d: RectData): (r: RectData)
    ensures Centered(r)
    ensures r.(center := d.center) == d
    ensures d.center.Some? ==> r.center.value.(x := d.center.value.x, y := d.center.value.y) == d.center.value
  {
    var mx, my := d.x + d.width / 2.0, d.y + d.height / 2.0;
    d.(center := Some(if d.center.Some? then d.center.value.(x := mx, y := my) else Pt(mx, my)))
  }

  /** `if (!rect.center) calcCenter(rect)`: computes the center only when none is cached. */
  function EnsureCenter(d: RectData): (r: RectData)
    ensures r.center.Some?
    ensures d.center.Some? ==> r == d
    ensures d.center.None? ==> Centered(r) && r.(center := None) == d
  {
    if d.center.Some? then d else WithCenter(d)
  }

  /** The four corners in the source's order: top-left, top-right, bottom-right, bottom-left. */
  function Corners(d: RectData): (pts: seq<Point>)
    requires HasCorners(d)
    ensures |pts| == 4
  {
    [Pt(d.x, d.y), Pt(d.ex.value, d.y), Pt(d.ex.value, d.ey.value), Pt(d.x, d.ey.value)]
  }

  /** Each point of `pts` rotated by `deg` degrees around `c`. */
  function RotateAll(pts: seq<Point>, rotatePoint: Rotation, deg: real, c: Point): (r: seq<Point>)
    ensures |r| == |pts|
    ensures forall i :: 0 <= i < |pts| ==> r[i] == rotatePoint(pts[i], deg, c)
  {
    if pts == [] then [] else [rotatePoint(pts[0], deg, c)] + RotateAll(pts[1..], rotatePoint, deg, c)
  }

  /** The corners rotated around the cached center. */
  function RotatedCorners(d: RectData, rotatePoint: Rotation): (pts: seq<Point>)
    requires HasCorners(d) && d.center.Some?
    ensures |pts| == 4
  {
    RotateAll(Corners(d), rotatePoint, d.rotate, d.center.value)
  }

  /** A rectangle whose fields the geometry helpers update in place. */
  class Rect {
    var x: real
    var y: real
    var ex: Option<real>
    var ey: Option<real>
    var width: real
    var height: real
    var rotate: real
    var center: Option<Point>

    constructor (d: RectData)
      ensures Data() == d
    {
      x, y, ex, ey := d.x, d.y, d.ex, d.ey;
      width, height, rotate, center := d.width, d.height, d.rotate, d.center;
    }

    /** The current field values. */
    function Data(): RectData
      reads this
    {
      RectData(x, y, ex, ey, width, height, rotate, center)
    }
  }

  /** `calcCenter(rect)`: sets the center to the midpoint, touching no other field. */
  method CalcCenter(rect: Rect)
    modifies rect
    ensures rect.Data() == WithCenter(old(rect.Data()))
  {
    var mx, my := rect.x + rect.width / 2.0, rect.y + rect.height / 2.0;
    if rect.center.None? {
      rect.center := Some(Pt(mx, my));
    } else {
      rect.center := Some(rect.center.value.(x := mx, y := my));
    }
  }

  /** Filling the center twice changes nothing more than filling it once. */
  lemma WithCenterIdempotent(d: RectData)
    ensures WithCenter(WithCenter(d)) == WithCenter(d)
  {
  }

  /** Filling the center leaves the box itself, and whether it is consistent, as it was. */
  lemma WithCenterKeepsBox(d: RectData)
    ensures var r := WithCenter(d);
      r.x == d.x && r.y == d.y && r.ex == d.ex && r.ey == d.ey &&
      r.width == d.width && r.height == d.height && r.rotate == d.rotate &&
      Consistent(r) == Consistent(d)
  {
  }
}
