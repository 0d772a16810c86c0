/** The game session as the program keeps it: a snake object whose
    direction is changed in place by key presses, and a grid object that owns
    the snake, the food, the score and the quit flag and is advanced in place
    by each tick. Every operation is proved to follow the value-level rules
    in module Rules. */
module Session {
  import opened Geometry
  import opened Directions
  import opened Rules

  class Snake {
    var body: seq<Point>
    var dir: Point
    var headChar: string

    /** A live snake has a segment, moves along one of the four steps and
        shows that step's head glyph. */
    ghost predicate Valid()
      reads this
    {
      |body| > 0 && IsUnit(dir) && headChar == HeadCharOf(dir)
    }

    /** A one-segment snake at (5, 5) moving along `initialDir`. */
    constructor (initialDir: Point)
      ensures body == [Point(5, 5)] && dir == initialDir && headChar == HeadCharOf(initialDir)
      ensures IsUnit(initialDir) ==> Valid()
    {
      body := [Point(5, 5)];
      dir := initialDir;
      headChar := HeadCharOf(initialDir);
    }

    /** Steering: a key on the axis the snake is not moving along turns it
        and updates the head glyph; any other key leaves it as it was. */
    method ChangeDir(c: char)
      modifies this
      ensures body == old(body)
      ensures dir == NextDir(old(dir), c)
      ensures headChar == if Accepts(old(dir), c) then HeadCharOf(dir) else old(headChar)
      ensures old(Valid()) ==> Valid()
    {
      match c
      case 'w' =>
        if dir.y == 0 {
          dir := DirectionOf(c);
          headChar := HeadCharOf(dir);
        }
      case 's' =>
        if dir.y == 0 {
          dir := DirectionOf(c);
          headChar := HeadCharOf(dir);
        }
      case 'a' =>
        if dir.x == 0 {
          dir := DirectionOf(c);
          headChar := HeadCharOf(dir);
        }
      case 'd' =>
        if dir.x == 0 {
          dir := DirectionOf(c);
          headChar := HeadCharOf(dir);
        }
      case _ =>
    }
  }

  class Grid {
    const width: int
    const height: int
    const snake: Snake
    var food: Point
    var score: nat
    var quit: bool

    /** The session as a value. */
    ghost function View(): World
      reads this, snake
    {
      World(width, height, snake.body, snake.dir, snake.headChar, food, score, quit)
    }

    ghost predicate Valid()
      reads this, snake
    {
      Wellformed(View())
    }

    /** A new session. The requested direction is not used: the snake always
        starts moving right. `rx` and `ry` are the random draws for the
        first food cell. */
    constructor (width: int, height: int, initialSnakeDir: Point, rx: int, ry: int)
      requires DrawFits(width, height, rx, ry)
      ensures fresh(snake)
      ensures View() == InitialWorld(width, height, rx, ry)
      ensures Valid()
    {
      this.width := width;
      this.height := height;
      snake := new Snake(DirectionOf('d'));
      food := SpawnFood(width, height, rx, ry);
      score := 0;
      quit := false;
    }
  }

  /** One tick of the game, in place: move the head one step, end the game on
      a wall or on any segment (the tail included), otherwise grow at the
      head and either eat (new food from `rx`, `ry`, one more point) or drop
      the last segment. */
  method UpdateGame(grid: Grid, rx: int, ry: int)
    requires |grid.snake.body| > 0 && DrawFits(grid.width, grid.height, rx, ry)
    modifies grid, grid.snake
    ensures grid.View() == Tick(old(grid.View()), rx, ry)
    ensures old(grid.Valid()) ==> grid.Valid()
  {
    var snake := grid.snake;
    var head := Point(snake.body[0].x + snake.dir.x, snake.body[0].y + snake.dir.y);
    if head.x <= 0 || head.x >= grid.width - 1 || head.y <= 0 || head.y >= grid.height - 1 {
      grid.quit := true;
      return;
    }

    for i := 0 to |snake.body|
      invariant forall j :: 0 <= j < i ==> snake.body[j] != head
    {
      if snake.body[i] == head {
        grid.quit := true;
        return;
      }
    }

    snake.body := [head] + snake.body;
    if head == grid.food {
      grid.food := SpawnFood(grid.width, grid.height, rx, ry);
      grid.score := grid.score + 1;
    } else {
      snake.body := snake.body[..|snake.body| - 1];
    }
  }

  /** What the input task does with one key: 'q' ends the game, any other
      key goes to the snake's steering. */
  method HandleKey(grid: Grid, c: char)
    modifies grid, grid.snake
    ensures grid.View() == Step(old(grid.View()), KeyPress(c))
    ensures old(grid.Valid()) ==> grid.Valid()
  {
    if c == 'q' {
      grid.quit := true;
    } else {
      grid.snake.ChangeDir(c);
    }
  }
}
