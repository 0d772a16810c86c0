/** Drawing one frame of the game: which glyph each cell of the field shows.
    Clearing the terminal and writing the glyphs out are not part of this
    model; a frame is the grid of glyphs, one row per line of output. */
module Render {
  import opened Geometry
  import opened Directions
  import opened Rules
  import opened Session

  const WallGlyph: string := "█"
  const BodyGlyph: string := "■"
  const FoodGlyph: string := "●"
  const Blank: string := " "

  /** The glyph of cell (x, y): the wall ring first, then the snake's head,
      then any other segment, then the food, else blank. In a running
      session every glyph then means one thing: the wall glyph is shown
      exactly on the wall ring, the head glyph exactly on the head's cell,
      the body glyph exactly on the other segments, the food glyph exactly
      on a food cell the snake does not cover, and blank elsewhere. */
  function CellGlyph(w: World, x: int, y: int): (g: string)
    ensures Wellformed(w) ==> (g == WallGlyph <==> OnBorder(w.width, w.height, x, y))
    ensures Wellformed(w) ==>
      (g == w.headChar <==> !OnBorder(w.width, w.height, x, y) && Point(x, y) == w.body[0])
    ensures Wellformed(w) ==>
      (g == BodyGlyph <==>
        !OnBorder(w.width, w.height, x, y) && Point(x, y) in w.body[1..] && Point(x, y) != w.body[0])
    ensures Wellformed(w) ==> (g == FoodGlyph <==> Point(x, y) == w.food && Point(x, y) !in w.body)
    ensures Wellformed(w) ==>
      (g == Blank <==> !OnBorder(w.width, w.height, x, y) && Point(x, y) !in w.body && Point(x, y) != w.food)
  {
    if OnBorder(w.width, w.height, x, y) then WallGlyph
    else if |w.body| > 0 && Point(x, y) == w.body[0] then w.headChar
    else if Point(x, y) in w.body then BodyGlyph
    else if Point(x, y) == w.food then FoodGlyph
    else Blank
  }

  /** How many times a loop over `0 .. n` runs (none when `n` is negative). */
  function Span(n: int): nat
  {
    if n > 0 then n else 0
  }

  /** `frame` has one row per line of the field, one glyph per column, and
      each glyph is the one the cell shows. */
  predicate IsFrame(frame: seq<seq<string>>, w: World)
  {
    |frame| == Span(w.height) &&
    forall y :: 0 <= y < |frame| ==>
      |frame[y]| == Span(w.width) &&
      forall x :: 0 <= x < |frame[y]| ==> frame[y][x] == CellGlyph(w, x, y)
  }

  /** Draw the field row by row; for a playable cell, look for the first
      segment on it (head glyph if it is the first segment, body glyph
      otherwise) and fall back to food or blank. */
  method RenderGame(grid: Grid) returns (frame: seq<seq<string>>)
    ensures IsFrame(frame, grid.View())
  {
    ghost var w := grid.View();
    frame := [];
    var y := 0;
    while y < grid.height
      invariant 0 <= y && (y <= grid.height || y == 0)
      invariant |frame| == y
      invariant forall r :: 0 <= r < y ==>
        |frame[r]| == Span(w.width) &&
        forall x :: 0 <= x < |frame[r]| ==> frame[r][x] == CellGlyph(w, x, r)
    {
      var row: seq<string> := [];
      var x := 0;
      while x < grid.width
        invariant 0 <= x && (x <= grid.width || x == 0)
        invariant |row| == x
        invariant forall k :: 0 <= k < x ==> row[k] == CellGlyph(w, k, y)
      {
        var glyph := Blank;
        if y == 0 || y == grid.height - 1 || x == 0 || x == grid.width - 1 {
          glyph := WallGlyph;
        } else {
          var cur := Point(x, y);
          var isSnake := false;
          var i := 0;
          while i < |grid.snake.body|
            invariant 0 <= i <= |grid.snake.body|
            invariant forall j :: 0 <= j < i ==> grid.snake.body[j] != cur
          {
            if IsEqual(grid.snake.body[i], cur) {
              var segment := BodyGlyph;
              if i == 0 {
                segment := grid.snake.headChar;
              }
              glyph := segment;
              isSnake := true;
              break;
            }
            i := i + 1;
          }
          if !isSnake {
            if IsEqual(grid.food, cur) {
              glyph := FoodGlyph;
            } else {
              glyph := Blank;
            }
          }
        }
        row := row + [glyph];
        x := x + 1;
      }
      frame := frame + [row];
      y := y + 1;
    }
  }
}
