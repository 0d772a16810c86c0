/** The rules of the game on plain values: one record holds everything a
    session owns, and each rule is a function from the old record to the new
    one. The classes in module Session are proved to follow these functions. */
module Rules {
  import opened Geometry
  import opened Directions

  /** Everything one game session owns: the field size, the snake (segments
      head first, movement step, head glyph), the food cell, the score and
      whether the game has ended. */
  datatype World = World(
    width: int, height: int,
    body: seq<Point>, dir: Point, headChar: string,
    food: Point, score: nat, quit: bool)

  /** The invariant every session keeps while it runs. */
  predicate Wellformed(w: World)
  {
    w.width > 2 && w.height > 2 && |w.body| > 0 &&
    IsUnit(w.dir) && w.headChar == HeadCharOf(w.dir) &&
    Interior(w.width, w.height, w.food)
  }

  /** `rx` and `ry` are values the random source can return for this field:
      `0 <= rx < width - 2` and `0 <= ry < height - 2`. */
  predicate DrawFits(width: int, height: int, rx: int, ry: int)
  {
    0 <= rx < width - 2 && 0 <= ry < height - 2
  }

  // ---------------------------------------------------------------- food

  /** A new food cell from two random draws, shifted past the wall. */
  function SpawnFood(width: int, height: int, rx: int, ry: int): (p: Point)
    requires DrawFits(width, height, rx, ry)
    ensures Interior(width, height, p)
  {
    Point(rx + 1, ry + 1)
  }

  /** Spawning can reach every playable cell, each from exactly one pair of
      draws, so uniform draws give a uniform interior cell. */
  lemma SpawnFoodOntoInterior(width: int, height: int, p: Point)
    requires Interior(width, height, p)
    ensures DrawFits(width, height, p.x - 1, p.y - 1)
    ensures SpawnFood(width, height, p.x - 1, p.y - 1) == p
    ensures forall rx, ry :: DrawFits(width, height, rx, ry) && SpawnFood(width, height, rx, ry) == p ==>
              rx == p.x - 1 && ry == p.y - 1
  {
  }

  // ------------------------------------------------------------ steering

  /** Whether the snake, moving along `dir`, takes key `c` as a turn: an
      up/down key only while moving horizontally, a left/right key only
      while moving vertically; no other key. */
  predicate Accepts(dir: Point, c: char)
    ensures IsUnit(dir) ==>
      (Accepts(dir, c) <==> IsDirectionKey(c) && CrossAxis(DirectionOf(c), dir))
  {
    match c
    case 'w' => dir.y == 0
    case 's' => dir.y == 0
    case 'a' => dir.x == 0
    case 'd' => dir.x == 0
    case _ => false
  }

  /** The movement step after key `c`. */
  function NextDir(dir: Point, c: char): (r: Point)
    ensures r != dir <==> Accepts(dir, c)
    ensures !IsDirectionKey(c) ==> r == dir
    ensures IsUnit(dir) ==> IsUnit(r) && r != Neg(dir)
  {
    if Accepts(dir, c) then DirectionOf(c) else dir
  }

  /** The axis lock, both ways: while moving horizontally, up and down are
      taken and left and right leave the direction alone; while moving
      vertically, the other way round. */
  lemma DirectionLock(dir: Point, c: char)
    requires IsUnit(dir)
    ensures dir.y == 0 ==> (c == 'w' || c == 's' <==> NextDir(dir, c) == DirectionOf(c) != dir)
    ensures dir.y == 0 && (c == 'a' || c == 'd') ==> NextDir(dir, c) == dir
    ensures dir.x == 0 ==> (c == 'a' || c == 'd' <==> NextDir(dir, c) == DirectionOf(c) != dir)
    ensures dir.x == 0 && (c == 'w' || c == 's') ==> NextDir(dir, c) == dir
  {
  }

  /** Key `c` applied to the snake: a taken turn updates the direction and
      the head glyph together; anything else changes nothing. */
  function Steer(w: World, c: char): (r: World)
    ensures r.body == w.body && r.food == w.food && r.score == w.score && r.quit == w.quit
    ensures r.width == w.width && r.height == w.height
    ensures r.dir == NextDir(w.dir, c)
    ensures !IsDirectionKey(c) ==> r == w
    ensures Wellformed(w) ==> Wellformed(r)
  {
    if Accepts(w.dir, c) then
      var d := DirectionOf(c);
      w.(dir := d, headChar := HeadCharOf(d))
    else
      w
  }

  // ---------------------------------------------------------------- tick

  /** The cell the head moves into on the next tick. */
  function NewHead(w: World): (h: Point)
    requires |w.body| > 0
    ensures Point(h.x - w.body[0].x, h.y - w.body[0].y) == w.dir
    ensures IsUnit(w.dir) ==> h != w.body[0]
  {
    Point(w.body[0].x + w.dir.x, w.body[0].y + w.dir.y)
  }

  /** The next tick ends the game: the new head leaves the playable cells,
      or lands on any current segment, the tail included. */
  predicate Crashes(w: World)
    requires |w.body| > 0
    ensures Crashes(w) <==>
      var h := NewHead(w);
      h.x <= 0 || h.x >= w.width - 1 || h.y <= 0 || h.y >= w.height - 1 ||
      exists i :: 0 <= i < |w.body| && w.body[i] == h
  {
    !Interior(w.width, w.height, NewHead(w)) || NewHead(w) in w.body
  }

  /** One tick. On a crash only the quit flag changes. Otherwise the new head
      is put in front; if it is on the food, a new food cell is drawn and the
      score goes up by one, else the last segment is dropped. The tick does
      not look at the quit flag itself. */
  function Tick(w: World, rx: int, ry: int): (r: World)
    requires |w.body| > 0 && DrawFits(w.width, w.height, rx, ry)
    ensures r.width == w.width && r.height == w.height
    ensures r.dir == w.dir && r.headChar == w.headChar
    ensures r.quit == (w.quit || Crashes(w))
    ensures Crashes(w) ==> r.body == w.body && r.food == w.food && r.score == w.score
    ensures |r.body| > 0
    ensures !Crashes(w) ==> r.body[0] == NewHead(w) && Interior(w.width, w.height, r.body[0])
    ensures !Crashes(w) ==> r.body[1..] <= w.body
    ensures r.score >= w.score && |r.body| - |w.body| == r.score - w.score <= 1
    ensures Interior(w.width, w.height, w.food) ==> Interior(w.width, w.height, r.food)
  {
    var head := NewHead(w);
    if !Interior(w.width, w.height, head) then
      w.(quit := true)
    else if head in w.body then
      w.(quit := true)
    else if head == w.food then
      w.(body := [head] + w.body, food := SpawnFood(w.width, w.height, rx, ry), score := w.score + 1)
    else
      var grown := [head] + w.body;
      w.(body := grown[..|grown| - 1])
  }

  /** Wall collision: a head step onto or past the wall ring ends the game
      and changes nothing else. */
  lemma WallCollision(w: World, rx: int, ry: int)
    requires |w.body| > 0 && DrawFits(w.width, w.height, rx, ry)
    requires var h := NewHead(w); h.x <= 0 || h.x >= w.width - 1 || h.y <= 0 || h.y >= w.height - 1
    ensures Tick(w, rx, ry) == w.(quit := true)
  {
  }

  /** Self collision: a head step onto any current segment, the tail
      included, ends the game and changes nothing else. */
  lemma SelfCollision(w: World, rx: int, ry: int, i: nat)
    requires |w.body| > 0 && DrawFits(w.width, w.height, rx, ry)
    requires i < |w.body| && NewHead(w) == w.body[i]
    ensures Tick(w, rx, ry) == w.(quit := true)
  {
  }

  /** A move that does not eat shifts the snake by one cell. */
  lemma NonEatingTick(w: World, rx: int, ry: int)
    requires |w.body| > 0 && DrawFits(w.width, w.height, rx, ry)
    requires !Crashes(w) && NewHead(w) != w.food
    ensures Tick(w, rx, ry) == w.(body := [NewHead(w)] + w.body[..|w.body| - 1])
  {
  }

  /** A move onto the food grows the snake by its new head, scores one and
      puts new food on a playable cell. */
  lemma EatingTick(w: World, rx: int, ry: int)
    requires |w.body| > 0 && DrawFits(w.width, w.height, rx, ry)
    requires !Crashes(w) && NewHead(w) == w.food
    ensures var r := Tick(w, rx, ry);
      r.body == [w.food] + w.body && r.score == w.score + 1 && r.quit == w.quit &&
      r.food == SpawnFood(w.width, w.height, rx, ry) && Interior(w.width, w.height, r.food)
  {
  }

  /** A tick keeps a snake that lies on playable cells on playable cells. */
  lemma TickKeepsBodyInside(w: World, rx: int, ry: int)
    requires |w.body| > 0 && DrawFits(w.width, w.height, rx, ry)
    requires AllInterior(w.width, w.height, w.body)
    ensures AllInterior(w.width, w.height, Tick(w, rx, ry).body)
  {
  }

  /** A tick never makes the snake overlap itself. */
  lemma TickKeepsBodyDistinct(w: World, rx: int, ry: int)
    requires |w.body| > 0 && DrawFits(w.width, w.height, rx, ry)
    requires Distinct(w.body)
    ensures Distinct(Tick(w, rx, ry).body)
  {
  }

  // ------------------------------------------------------ session runs

  /** What reaches a session between ticks or at a tick: a key typed by the
      player, or the timer firing, together with the two random draws used
      if that tick eats. */
  datatype Event = KeyPress(c: char) | TimerFired(rx: int, ry: int)

  /** Every timer event carries draws that fit the field. */
  predicate DrawsFit(width: int, height: int, events: seq<Event>)
  {
    forall i :: 0 <= i < |events| && events[i].TimerFired? ==>
      DrawFits(width, height, events[i].rx, events[i].ry)
  }

  /** One event: 'q' ends the game, any other key steers, the timer ticks. */
  function Step(w: World, e: Event): (r: World)
    requires e.TimerFired? ==> |w.body| > 0 && DrawFits(w.width, w.height, e.rx, e.ry)
    ensures r.width == w.width && r.height == w.height
    ensures |w.body| > 0 ==> |r.body| > 0
    ensures Wellformed(w) ==> Wellformed(r)
  {
    match e
    case KeyPress(c) => if c == 'q' then w.(quit := true) else Steer(w, c)
    case TimerFired(rx, ry) => Tick(w, rx, ry)
  }

  /** Events in order, stopping at the first state whose quit flag is set. */
  function Run(w: World, events: seq<Event>): (r: World)
    requires |w.body| > 0 && DrawsFit(w.width, w.height, events)
    ensures r.width == w.width && r.height == w.height && |r.body| > 0
    ensures w.quit ==> r == w
    decreases |events|
  {
    if events == [] || w.quit then w
    else Run(Step(w, events[0]), events[1..])
  }

  /** The state a new session starts in: one segment at (5, 5) moving right,
      whatever direction was asked for, and food from the two draws. */
  function InitialWorld(width: int, height: int, rx: int, ry: int): (w: World)
    requires DrawFits(width, height, rx, ry)
    ensures Wellformed(w) && !w.quit && w.score == 0
    ensures w.body == [Point(5, 5)] && w.dir == DirectionOf('d') == Point(1, 0)
  {
    World(width, height, [Point(5, 5)], DirectionOf('d'), HeadCharOf(DirectionOf('d')),
          SpawnFood(width, height, rx, ry), 0, false)
  }

  /** A single event never turns the snake straight back: the direction
      after one key is never the reverse of the direction before it. Two
      keys between ticks can, see `DoubleTurnReverses`. */
  lemma StepNeverReverses(w: World, e: Event)
    requires Wellformed(w)
    requires e.TimerFired? ==> DrawFits(w.width, w.height, e.rx, e.ry)
    ensures Step(w, e).dir != Neg(w.dir)
  {
    match e
    case KeyPress(c) =>
      if c != 'q' {
        assert Step(w, e).dir == NextDir(w.dir, c);
      }
    case TimerFired(rx, ry) =>
  }

  /** Running a session keeps its invariant. */
  lemma {:induction false} RunKeepsWellformed(w: World, events: seq<Event>)
    requires Wellformed(w) && DrawsFit(w.width, w.height, events)
    ensures Wellformed(Run(w, events))
    decreases |events|
  {
    if events != [] && !w.quit {
      RunKeepsWellformed(Step(w, events[0]), events[1..]);
    }
  }

  /** Over any run the snake grows by exactly as many segments as the score
      goes up, and the score never goes down. */
  lemma {:induction false} RunGrowthIsScore(w: World, events: seq<Event>)
    requires |w.body| > 0 && DrawsFit(w.width, w.height, events)
    ensures Run(w, events).score >= w.score
    ensures |Run(w, events).body| - |w.body| == Run(w, events).score - w.score
    decreases |events|
  {
    if events != [] && !w.quit {
      RunGrowthIsScore(Step(w, events[0]), events[1..]);
    }
  }

  /** A snake on playable cells stays on playable cells for the whole run. */
  lemma {:induction false} RunKeepsBodyInside(w: World, events: seq<Event>)
    requires |w.body| > 0 && DrawsFit(w.width, w.height, events)
    requires AllInterior(w.width, w.height, w.body)
    ensures AllInterior(w.width, w.height, Run(w, events).body)
    decreases |events|
  {
    if events != [] && !w.quit {
      if events[0].TimerFired? {
        TickKeepsBodyInside(w, events[0].rx, events[0].ry);
      }
      RunKeepsBodyInside(Step(w, events[0]), events[1..]);
    }
  }

  /** A snake that does not overlap itself never comes to overlap itself. */
  lemma {:induction false} RunKeepsBodyDistinct(w: World, events: seq<Event>)
    requires |w.body| > 0 && DrawsFit(w.width, w.height, events)
    requires Distinct(w.body)
    ensures Distinct(Run(w, events).body)
    decreases |events|
  {
    if events != [] && !w.quit {
      if events[0].TimerFired? {
        TickKeepsBodyDistinct(w, events[0].rx, events[0].ry);
      }
      RunKeepsBodyDistinct(Step(w, events[0]), events[1..]);
    }
  }

  /** Running two batches of events is running their concatenation; once
      the game has ended, later events change nothing. */
  lemma {:induction false} RunConcat(w: World, first: seq<Event>, rest: seq<Event>)
    requires |w.body| > 0 && DrawsFit(w.width, w.height, first + rest)
    ensures DrawsFit(w.width, w.height, first) && DrawsFit(w.width, w.height, rest)
    ensures Run(w, first + rest) == Run(Run(w, first), rest)
    ensures Run(w, first).quit ==> Run(w, first + rest) == Run(w, first)
    decreases |first|
  {
    assert forall i :: 0 <= i < |first| ==> first[i] == (first + rest)[i];
    assert forall i :: 0 <= i < |rest| ==> rest[i] == (first + rest)[|first| + i];
    if first == [] {
      assert first + rest == rest;
    } else if !w.quit {
      assert (first + rest)[0] == first[0];
      assert (first + rest)[1..] == first[1..] + rest;
      RunConcat(Step(w, first[0]), first[1..], rest);
    }
  }

  /** From the start of a session on a field larger than 6 by 6, every
      reachable snake lies on playable cells and never overlaps itself, and
      its length is one more than the score. */
  lemma {:induction false} ReachableSnakes(width: int, height: int, rx: int, ry: int, events: seq<Event>)
    requires width > 6 && height > 6 && DrawFits(width, height, rx, ry)
    requires DrawsFit(width, height, events)
    ensures var r := Run(InitialWorld(width, height, rx, ry), events);
      Wellformed(r) && AllInterior(width, height, r.body) && Distinct(r.body) && |r.body| == r.score + 1
  {
    var w0 := InitialWorld(width, height, rx, ry);
    RunKeepsWellformed(w0, events);
    RunKeepsBodyInside(w0, events);
    RunKeepsBodyDistinct(w0, events);
    RunGrowthIsScore(w0, events);
  }

  // ----------------------------------------------------------- scenarios

  /** A three-segment snake moving right ignores the left key. */
  lemma ReverseKeyIgnored(food: Point)
    ensures var w := World(10, 10, [Point(5, 5), Point(4, 5), Point(3, 5)], Point(1, 0), "▶", food, 0, false);
      Steer(w, 'a') == w
  {
  }

  /** The tail's cell counts as occupied: a snake whose head steps onto the
      cell its tail is about to leave ends the game. */
  lemma TailCellIsOccupied(food: Point, rx: int, ry: int)
    requires DrawFits(10, 10, rx, ry)
    ensures var w := World(10, 10, [Point(1, 1), Point(2, 1), Point(2, 2), Point(1, 2)], Point(0, 1), "▼", food, 0, false);
      NewHead(w) == w.body[3] && Tick(w, rx, ry) == w.(quit := true)
  {
  }

  /** A snake whose head is about to enter the wall ends the game on that
      tick, and no later event is processed. */
  lemma WallEndsRun(food: Point, rx: int, ry: int, later: seq<Event>)
    requires DrawFits(10, 10, rx, ry) && DrawsFit(10, 10, later)
    ensures var w := World(10, 10, [Point(1, 5)], Point(-1, 0), "◀", food, 0, false);
      DrawsFit(10, 10, [TimerFired(rx, ry)] + later) &&
      Run(w, [TimerFired(rx, ry)] + later) == w.(quit := true)
  {
    var w := World(10, 10, [Point(1, 5)], Point(-1, 0), "◀", food, 0, false);
    var events := [TimerFired(rx, ry)] + later;
    assert events[1..] == later;
    assert Run(w, events) == Run(Tick(w, rx, ry), later);
  }

  /** Two keys between ticks can turn the snake straight back: moving right,
      'w' is taken because the snake moves horizontally, then 'a' is taken
      because it now moves vertically, and the next tick runs the head into
      the segment behind it and ends the game. */
  lemma DoubleTurnReverses(food: Point, rx: int, ry: int)
    requires DrawFits(10, 10, rx, ry)
    ensures var w := World(10, 10, [Point(5, 5), Point(4, 5)], Point(1, 0), "▶", food, 0, false);
      var turned := Step(Step(w, KeyPress('w')), KeyPress('a'));
      turned.dir == Neg(w.dir) && NewHead(turned) == w.body[1] &&
      DrawsFit(10, 10, [KeyPress('w'), KeyPress('a'), TimerFired(rx, ry)]) &&
      Run(w, [KeyPress('w'), KeyPress('a'), TimerFired(rx, ry)]) == turned.(quit := true)
  {
    var w := World(10, 10, [Point(5, 5), Point(4, 5)], Point(1, 0), "▶", food, 0, false);
    var up := w.(dir := Point(0, -1), headChar := "▲");
    var turned := w.(dir := Point(-1, 0), headChar := "◀");
    assert Step(w, KeyPress('w')) == up by {
      assert Accepts(w.dir, 'w') && DirectionOf('w') == Point(0, -1);
    }
    assert Step(up, KeyPress('a')) == turned by {
      assert Accepts(up.dir, 'a') && DirectionOf('a') == Point(-1, 0);
    }
    assert Tick(turned, rx, ry) == turned.(quit := true) by {
      SelfCollision(turned, rx, ry, 1);
    }
    var events := [KeyPress('w'), KeyPress('a'), TimerFired(rx, ry)];
    assert events[1..] == [KeyPress('a'), TimerFired(rx, ry)];
    assert events[1..][1..] == [TimerFired(rx, ry)];
    assert [TimerFired(rx, ry)][1..] == [];
    assert Run(turned, [TimerFired(rx, ry)]) == turned.(quit := true);
    assert Run(up, events[1..]) == turned.(quit := true);
  }
}
