/** The two fixed lookup tables of the game: steering key to movement step,
    and movement step to the glyph drawn for the snake's head. A lookup of a
    missing key yields the zero value of the table's value type, as a map
    lookup does in the Go program. */
module Directions {
  import opened Geometry

  /** Steering keys: w up, s down, a left, d right (y grows downwards). */
  const DirectionMap: map<char, Point> :=
    map['w' := Point(0, -1), 's' := Point(0, 1), 'a' := Point(-1, 0), 'd' := Point(1, 0)]

  /** Head glyph for each of the four movement steps. */
  const HeadCharMap: map<Point, string> :=
    map[Point(0, -1) := "▲", Point(0, 1) := "▼", Point(-1, 0) := "◀", Point(1, 0) := "▶"]

  predicate IsDirectionKey(c: char)
  {
    c == 'w' || c == 's' || c == 'a' || c == 'd'
  }

  /** Movement step of a key; (0, 0) for any key that is not a steering key. */
  function DirectionOf(c: char): (d: Point)
    ensures IsDirectionKey(c) <==> IsUnit(d)
    ensures !IsDirectionKey(c) ==> d == Point(0, 0)
  {
    if c in DirectionMap then DirectionMap[c] else Point(0, 0)
  }

  /** Head glyph of a movement step; the empty string for any other point. */
  function HeadCharOf(d: Point): (g: string)
    ensures IsUnit(d) <==> g != ""
    ensures IsUnit(d) ==> |g| == 1
  {
    if d in HeadCharMap then HeadCharMap[d] else ""
  }

  /** The tables agree: the steering keys are exactly the keys of the first
      table, its values are exactly the four unit steps, which are exactly
      the keys of the second table; both tables are one-to-one. */
  lemma TablesConsistent()
    ensures DirectionMap.Keys == {'w', 's', 'a', 'd'}
    ensures forall d :: d in DirectionMap.Values <==> IsUnit(d)
    ensures forall d :: d in HeadCharMap <==> IsUnit(d)
    ensures forall c1, c2 :: IsDirectionKey(c1) && IsDirectionKey(c2) && c1 != c2 ==>
              DirectionOf(c1) != DirectionOf(c2)
    ensures forall d1, d2 :: IsUnit(d1) && IsUnit(d2) && d1 != d2 ==>
              HeadCharOf(d1) != HeadCharOf(d2)
  {
  }
}
