# Rectangle geometry of the diagram editor core

A Dafny model of `packages/core/src/rect/rect.ts`, the rectangle and point
helpers of a browser diagram editor: hit-testing (`pointInRect`,
`pointInSimpleRect`, the ray-casting `pointInVertices`), bounding boxes
(`getRectOfPoints`, `rectToPoints`, `getRect`, `rectInRect`), the in-place
transforms (`translateRect`, `resizeRect` with its eight handles and 5-unit
minimum, `scaleRect`, `calcCenter` and the lazy `ex`/`ey` fill) and the
container-relative coordinates (`calcRelativeRect`, `calcRelativePoint`).

Coordinates are Dafny `real`s. A rectangle is a `RectData` record (the fields
of the source's `Rect` interface) and, where the source updates it in place,
a `Rect` object whose methods are proved against a function giving the new
field values. `ex`, `ey` and `center` are optional, because the source fills
them lazily; `rotate` is 0 when absent, which is how the source treats an
absent rotation.

Files: `options.dfy` (Option), `points.dfy` (Point, the rotation parameter
type, the linear scale map), `rects.dfy` (RectData, the class, `calcCenter`),
`hit_test.dfy`, `bounds.dfy`, `transform.dfy`, `relative.dfy`.

The editor's coordinates grow rightwards and downwards. On the boundary of a
polygon the code is half-open: a point on the left or top edge of the square
(0,0),(10,0),(10,10),(0,10) (the edges at the smaller x and y), such as
(0, 5), is inside, while one on the right or bottom edge is outside
(`HitTest.SquareInsideExactly`).

## Model

| member | source | states |
|---|---|---|
| `Rects.CalcCenter` | packages/core/src/rect/rect.ts:50-56 | the center becomes the midpoint (into the existing center point when there is one), no other field changes |
| `Rects.WithCenter` | packages/core/src/rect/rect.ts:50-56 | the result is centered; only `center` differs; an existing center keeps its other fields |
| `Rects.WithCenterIdempotent` | packages/core/src/rect/rect.ts:50-56 | computing the center twice gives what computing it once gives |
| `Rects.EnsureCenter` | packages/core/src/rect/rect.ts:28-30 | a cached center is kept as is; a missing one is computed at the midpoint |
| `Rects.Rect.constructor` | packages/core/src/rect/rect.ts:4-13 | a rectangle object holds exactly the given field values |
| `HitTest.PointInVertices` | packages/core/src/rect/rect.ts:58-75 | the loop's answer is the even-odd rule: fewer than 3 vertices give false, otherwise an odd number of crossing edges right of the point |
| `HitTest.CrossingOnEdge` | packages/core/src/rect/rect.ts:65-66 | for an edge that straddles the point's height, the computed crossing lies between the edge's x-coordinates (its divisor is nonzero) |
| `HitTest.RightOfAllVerticesIsOutside` | packages/core/src/rect/rect.ts:58-75 | a point at or right of every vertex is outside |
| `HitTest.AboveOrBelowAllVerticesIsOutside` | packages/core/src/rect/rect.ts:58-75 | a point below every vertex, or at or above all of them, is outside |
| `HitTest.StartVertexIrrelevant` | packages/core/src/rect/rect.ts:62-72 | rotating the vertex list to start at its second vertex does not change the answer |
| `HitTest.SquareCrossingsLevel` | packages/core/src/rect/rect.ts:64-72 | a point level with the square's sides is crossed by 2, 1 or 0 sides as it lies left of, within or right of the square |
| `HitTest.SquareInsideExactly` | packages/core/src/rect/rect.ts:58-75 | on the 10-unit square the test is true exactly on the half-open box [0,10) x [0,10) |
| `HitTest.SquareExample` | packages/core/src/rect/rect.ts:58-75 | (5,5) is in, (15,5) is out; (0,5) and (5,0) are in, (10,5) and (5,10) are out |
| `HitTest.WholeTurnIsMultipleOf360` | packages/core/src/rect/rect.ts:24 | an angle passing the whole-turn test is an integer multiple of 360 |
| `HitTest.MultipleOf360IsWholeTurn` | packages/core/src/rect/rect.ts:24 | every integer multiple of 360 passes the whole-turn test |
| `HitTest.FillCorners` | packages/core/src/rect/rect.ts:19-22 | an unset `ex` makes `ex = x + width` and `ey = y + height` with nothing else changed; a set one leaves everything as is |
| `HitTest.HitState` | packages/core/src/rect/rect.ts:19-30 | after the test the corners are set, and on the rotated path a center is cached; the fast-path condition is unchanged |
| `HitTest.PointInRect` | packages/core/src/rect/rect.ts:15-43 | absent rectangle gives undefined; otherwise the rectangle is updated as `HitState` says and the answer is the strict box test on the fast path or the polygon test on the corners rotated around the center |
| `HitTest.AxisAlignedHitIsStrict` | packages/core/src/rect/rect.ts:24-26 | with no rotation, a whole number of turns or a side below 20, the answer is the strict box test and a point on any side is outside |
| `HitTest.WholeTurnsAreUnrotated` | packages/core/src/rect/rect.ts:24 | a rectangle rotated by a multiple of 360 degrees gets the same hit-test answer as an unrotated one |
| `HitTest.PointInSimpleRect` | packages/core/src/rect/rect.ts:45-48 | a hit needs `ex`/`ey` set; every point the strict test accepts is accepted here at any tolerance of 0 or more |
| `HitTest.SimpleRectWidens` | packages/core/src/rect/rect.ts:45-48 | a point inside at tolerance r1 is inside at every larger tolerance |
| `HitTest.ToleranceGrowsBox` | packages/core/src/rect/rect.ts:45-48 | the test at tolerance `r` is the plain test on the box grown by `r` on every side |
| `HitTest.SimpleRectIsClosedBox` | packages/core/src/rect/rect.ts:45-48 | for a box with both extents set, the inclusive test holds exactly when the point lies in the closed box from (x, y) to (ex, ey), all four sides included |
| `HitTest.CornersOnBoundary` | packages/core/src/rect/rect.ts:45-48 | each corner of a well-formed box is inside for the inclusive test and outside for the strict one |
| `Bounds.GetRectOfPoints` | packages/core/src/rect/rect.ts:112-125 | every point lies in the box, each of x, y, ex, ey is attained by a point, width = ex - x and height = ey - y |
| `Bounds.GetRectOfPointsExample` | packages/core/src/rect/rect.ts:112-125 | (1,1), (5,5), (-2,3) give x -2, y 1, ex 5, ey 5, width 7, height 4 |
| `Bounds.CornerPoints` | packages/core/src/rect/rect.ts:93-110 | four corners; an unrotated rectangle gives its plain corners |
| `Bounds.CornerState` | packages/core/src/rect/rect.ts:101-104 | only the center may change; a rotated rectangle without a center gets one at the midpoint of its box; an unrotated or already-centered one is untouched |
| `Bounds.RectToPoints` | packages/core/src/rect/rect.ts:93-110 | returns top-left, top-right, bottom-right, bottom-left, rotated around the (lazily computed) center when `rotate` is nonzero |
| `Bounds.GetRect` | packages/core/src/rect/rect.ts:77-91 | the result is consistent and centered, encloses every corner of every present rectangle, and each of its four sides is reached by some such corner, so it is the smallest such box; every present rectangle is left as `rectToPoints` leaves it |
| `Bounds.CollectCorners` | packages/core/src/rect/rect.ts:78-87 | every present rectangle is left as `rectToPoints` leaves it, and the collected points are the corners of the present rectangles, in order, four each |
| `Bounds.BoxOfCorners` | packages/core/src/rect/rect.ts:77-91 | a box around the collected points whose sides each touch one of them encloses every corner of every present rectangle, and each of its sides is touched by one of those corners |
| `Bounds.CornersOfCovers` | packages/core/src/rect/rect.ts:79-87 | every corner of every present rectangle is among the points `getRect` collects |
| `Bounds.CornersOfOrigin` | packages/core/src/rect/rect.ts:79-87 | every point `getRect` collects is a corner of some present rectangle |
| `Bounds.RectInRect` | packages/core/src/rect/rect.ts:127-132 | with `allIn`, a true answer means both far corners are set and every point of `source` lies strictly inside `target`; without it, boxes that share a point (borders touching counts) overlap, and boxes whose far corners are all unset (compared as `NaN`) count as overlapping |
| `Bounds.ContainmentIsStrictInterior` | packages/core/src/rect/rect.ts:128-130 | for a well-formed source, the `allIn` test is true exactly when every point of `source` lies strictly inside `target` |
| `Bounds.OverlapSymmetric` | packages/core/src/rect/rect.ts:131 | the overlap test gives the same answer with source and target swapped |
| `Bounds.ContainedOverlaps` | packages/core/src/rect/rect.ts:128-131 | a well-formed source strictly inside the target also overlaps it |
| `Bounds.OverlapIsCommonPoint` | packages/core/src/rect/rect.ts:131 | boxes sharing a point overlap; well-formed overlapping boxes share the point at their larger origins |
| `Transform.Translated` | packages/core/src/rect/rect.ts:134-144 | moving keeps the corners set and never touches width, height or rotation |
| `Transform.TranslateRect` | packages/core/src/rect/rect.ts:134-144 | the fields become `Translated` of the old ones |
| `Transform.TranslateRoundTrip` | packages/core/src/rect/rect.ts:134-144 | moving by (dx, dy) then by (-dx, -dy) restores x, y, ex, ey and the center exactly |
| `Transform.TranslateComposes` | packages/core/src/rect/rect.ts:134-144 | two moves equal one move by the summed offsets |
| `Transform.TranslateKeepsDerivedFields` | packages/core/src/rect/rect.ts:134-144 | `ex = x + width`, `ey = y + height` and a midpoint center survive a move |
| `Transform.TranslateMovesHits` | packages/core/src/rect/rect.ts:134-144 | a point moved with the rectangle keeps its strict-test answer |
| `Transform.Resized` | packages/core/src/rect/rect.ts:146-213 | resizing never touches rotation or center |
| `Transform.ResizeRect` | packages/core/src/rect/rect.ts:146-213 | the fields become `Resized` of the old ones |
| `Transform.ResizeRefusedIsNoOp` | packages/core/src/rect/rect.ts:147-212 | a refused drag or a handle index outside 0..7 leaves every field unchanged |
| `Transform.ResizeRespectsMinimum` | packages/core/src/rect/rect.ts:146-213 | a width or height the resize changes ends at or above 5 |
| `Transform.ResizeKeepsConsistentAndAnchored` | packages/core/src/rect/rect.ts:146-213 | every handle keeps `ex = x + width` and `ey = y + height`, and the side or corner opposite the handle stays put |
| `Transform.ResizeMovesHandle` | packages/core/src/rect/rect.ts:148-211 | an allowed drag of a corner handle (0-3) moves that corner by exactly the offset and leaves the opposite sides alone; an allowed drag of an edge handle (4-7) moves that side by the offset along its axis and leaves the other three sides and the other axis's size alone |
| `Transform.Scaled` | packages/core/src/rect/rect.ts:215-229 | after scaling, `ex = x + width`, `ey = y + height`, the center is the midpoint, and rotation is kept |
| `Transform.ScaleRect` | packages/core/src/rect/rect.ts:215-229 | an absent rectangle is left alone; otherwise the fields become `Scaled` of the old ones |
| `Transform.ScaleMovesCorners` | packages/core/src/rect/rect.ts:219-224 | every corner of a consistent rectangle, not only the origin, is scaled around the given center |
| `Transform.ScaleRoundTrip` | packages/core/src/rect/rect.ts:215-229 | scaling by s then by 1/s around the same center restores position and size, and the whole record for a consistent rectangle with a plain midpoint center |
| `Relative.CalcRelativeRect` | packages/core/src/rect/rect.ts:231-242 | the result has `ex = x + width` and `ey = y + height`, and `x*W + wx`, `y*H + wy`, `width*W`, `height*H` give back the original values |
| `Relative.RelativeThenAbsolute` | packages/core/src/rect/rect.ts:231-242 | expanding the relative rectangle into the container restores a consistent unrotated original exactly |
| `Relative.AbsoluteThenRelative` | packages/core/src/rect/rect.ts:231-242 | normalising an expanded relative rectangle gives its position and size back |
| `Relative.ContainedChildIsWithinUnit` | packages/core/src/rect/rect.ts:231-242 | a child lying within a container of positive size gets fractions between 0 and 1 |
| `Relative.Fraction` | packages/core/src/rect/rect.ts:249-250 | a zero extent gives 0; otherwise `r*extent + origin` is the original coordinate |
| `Relative.CalcRelativePoint` | packages/core/src/rect/rect.ts:244-271 | id, penId, connectTo, anchorId and prevNextType are copied; each axis is 0 for a zero extent and otherwise inverts back; prev/next exist exactly when the input's do, carry the point's penId and connectTo, and are normalised the same way |
| `Relative.PointAndRectAgree` | packages/core/src/rect/rect.ts:231-250 | for a container with extent, a point and a rectangle at the same place get the same relative origin |

## Left out

- `packages/activity-diagram/src/final.ts` only hands two ellipses to the browser's `Path2D`; it is rendering with no logic to state.
- `rotatePoint` lives in point.ts, which is not part of this model; it is a function parameter (`Points.Rotation`) that returns a rotated copy instead of rotating the point in place, and nothing is assumed about it.
- `scalePoint` lives in point.ts, which is not part of this model; it is taken to be the linear map `c + (p - c) * s` on each coordinate.
- IEEE floating point is not modelled: coordinates are exact reals, so rounding, `Infinity` and `NaN` do not arise.
- GetRectOfPoints: requires a non-empty list; the source folds from plus and minus `Infinity` and returns an `Infinity`-valued rectangle for an empty one. The model starts the fold from the first point, which gives the same result for a non-empty list.
- GetRect: requires at least one present rectangle (for the same reason) and works on a sequence of rectangles (`null` for a pen without a world rectangle) rather than on pen objects.
- CalcRelativeRect: requires a nonzero container width and height; the source divides anyway and yields `Infinity`/`NaN` there.
- TranslateRect: requires `ex` and `ey` to be set; on unset ones the source computes `NaN`.
- ResizeRect: requires `ex` and `ey` to be set when an allowed drag of a handle that moves them (1, 2, 3, 5, 6) would compute `NaN` from them.
- RectToPoints: requires `ex` and `ey` to be set, for the same reason.
- PointInRect: requires `ex` and `ey` to be set or unset together. The lazy fill, `translateRect`, `scaleRect`, `getRectOfPoints` and `calcRelativeRect` write both; `resizeRect` keeps them paired only when both start out set (handles 1 and 5 write only `ex`, handles 3 and 6 only `ey`), so a rectangle with only one of them set is not modelled.
- PointInSimpleRect and RectInRect compare against an unset `ex`/`ey` as JavaScript compares against `NaN`: the comparison is false.
- The cached `center` is modelled as a value, so two rectangles sharing one center object are not modelled; `calcCenter` and `translateRect` update the existing center's coordinates and keep its other fields, as the source does.
- Fields other than `x`, `y`, `id`, `penId`, `connectTo`, `anchorId`, `prevNextType`, `prev` and `next` of a point are not modelled; `prevNextType` is an opaque number.
- An absent `rotate` is modelled as 0 and an absent `x`, `y`, `width` or `height` is not modelled; JavaScript `undefined` arithmetic on them is out of scope.
