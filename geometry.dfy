/** Integer points on the playing field. A point is used both as a cell
    position and, when it has length one along a single axis, as a one-step
    movement direction. */
module Geometry {

  datatype Point = Point(x: int, y: int)

  /** Component-wise comparison of two points; it agrees with value equality. */
  function IsEqual(p: Point, q: Point): (r: bool)
    ensures r <==> p == q
  {
    p.x == q.x && p.y == q.y
  }

  /** For two unit steps: they lie on different axes (one horizontal, one
      vertical). */
  predicate CrossAxis(p: Point, q: Point)
  {
    (p.x == 0) != (q.x == 0)
  }

  /** The opposite direction. */
  function Neg(d: Point): Point
  {
    Point(-d.x, -d.y)
  }

  /** One of the four axis-aligned unit steps (never zero, never diagonal). */
  predicate IsUnit(d: Point)
  {
    (d.x == 0 && (d.y == 1 || d.y == -1)) || (d.y == 0 && (d.x == 1 || d.x == -1))
  }

  /** The playable cells of a `width` by `height` field: strictly inside the
      one-cell wall ring. */
  predicate Interior(width: int, height: int, p: Point)
  {
    0 < p.x < width - 1 && 0 < p.y < height - 1
  }

  /** The wall ring of a `width` by `height` field. */
  predicate OnBorder(width: int, height: int, x: int, y: int)
  {
    y == 0 || y == height - 1 || x == 0 || x == width - 1
  }

  /** Every cell of `s` is playable. */
  predicate AllInterior(width: int, height: int, s: seq<Point>)
  {
    forall i :: 0 <= i < |s| ==> Interior(width, height, s[i])
  }

  /** No cell occurs twice in `s`. */
  predicate Distinct(s: seq<Point>)
  {
    forall i, j :: 0 <= i < j < |s| ==> s[i] != s[j]
  }
}
