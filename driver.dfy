/** The session driver. In the program a key-reading task and a
    timer-driven loop run side by side; here their combined effect is one
    sequence of events, keys and timer ticks interleaved in the order they
    take effect, and the loop stops as soon as the game has ended. */
module Driver {
  import opened Geometry
  import opened Rules
  import opened Session
  import opened Render

  /** Apply the events in order: a key goes to the input handling, a timer
      tick advances the game and draws a frame; stop once quit is set. */
  method GameLoop(grid: Grid, events: seq<Event>)
    requires |grid.snake.body| > 0 && DrawsFit(grid.width, grid.height, events)
    modifies grid, grid.snake
    ensures grid.View() == Run(old(grid.View()), events)
    ensures old(grid.Valid()) ==> grid.Valid()
  {
    var i := 0;
    while i < |events| && !grid.quit
      invariant 0 <= i <= |events|
      invariant |grid.snake.body| > 0
      invariant DrawsFit(grid.width, grid.height, events[i..])
      invariant Run(old(grid.View()), events) == Run(grid.View(), events[i..])
    {
      assert events[i..][0] == events[i] && events[i..][1..] == events[i + 1..];
      match events[i] {
        case KeyPress(c) =>
          HandleKey(grid, c);
        case TimerFired(rx, ry) =>
          UpdateGame(grid, rx, ry);
          // The frame goes to the terminal, which is not modelled.
          var _ := RenderGame(grid);
      }
      i := i + 1;
    }
    if old(grid.Valid()) {
      RunKeepsWellformed(old(grid.View()), events);
    }
  }

  /** A ten by ten session: one tick with no key moves the snake from (5, 5)
      to (6, 5) at the same length, unless the food was on (6, 5), in which
      case the snake grows to two segments and the score is one. */
  method FirstTick(rx: int, ry: int, tx: int, ty: int)
    requires DrawFits(10, 10, rx, ry) && DrawFits(10, 10, tx, ty)
  {
    var grid := new Grid(10, 10, Point(0, 1), rx, ry);
    assert grid.snake.dir == Point(1, 0);
    var food := grid.food;
    UpdateGame(grid, tx, ty);
    assert grid.snake.body[0] == Point(6, 5) && !grid.quit;
    if food == Point(6, 5) {
      assert grid.snake.body == [Point(6, 5), Point(5, 5)] && grid.score == 1;
      assert Interior(10, 10, grid.food);
    } else {
      assert grid.snake.body == [Point(6, 5)] && grid.score == 0 && grid.food == food;
    }
  }
}
