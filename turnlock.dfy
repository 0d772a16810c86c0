/** The direction lock as it is meant to work: a key is checked against the
    step the snake actually made on the last tick, not against the direction
    an earlier key may already have set since then. With this rule no
    sequence of keys can turn the snake back into the segment behind its
    head. The session classes follow the program's own rule (`Rules.Steer`);
    this module gives the corrected rule and its proof. */
module TurnLock {
  import opened Geometry
  import opened Directions
  import opened Rules

  /** A session together with the step its head made on the last tick. */
  datatype Locked = Locked(w: World, moved: Point)

  /** The direction after key `c` when the lock looks at the last move. */
  function NextDirSafe(moved: Point, dir: Point, c: char): (r: Point)
    ensures !IsDirectionKey(c) ==> r == dir
    ensures IsUnit(moved) && IsUnit(dir) && dir != Neg(moved) ==> IsUnit(r) && r != Neg(moved)
  {
    if Accepts(moved, c) then DirectionOf(c) else dir
  }

  /** One event under the corrected lock; a tick that moves records its step. */
  function StepSafe(s: Locked, e: Event): (r: Locked)
    requires e.TimerFired? ==> |s.w.body| > 0 && DrawFits(s.w.width, s.w.height, e.rx, e.ry)
    ensures r.w.width == s.w.width && r.w.height == s.w.height
    ensures |s.w.body| > 0 ==> |r.w.body| > 0
  {
    match e
    case KeyPress(c) =>
      if c == 'q' then s.(w := s.w.(quit := true))
      else if Accepts(s.moved, c) then
        var d := NextDirSafe(s.moved, s.w.dir, c);
        s.(w := s.w.(dir := d, headChar := HeadCharOf(d)))
      else s
    case TimerFired(rx, ry) =>
      Locked(Tick(s.w, rx, ry), if Crashes(s.w) then s.moved else s.w.dir)
  }

  /** Events in order under the corrected lock, stopping once quit is set. */
  function RunSafe(s: Locked, events: seq<Event>): (r: Locked)
    requires |s.w.body| > 0 && DrawsFit(s.w.width, s.w.height, events)
    ensures r.w.width == s.w.width && r.w.height == s.w.height && |r.w.body| > 0
    ensures s.w.quit ==> r == s
    decreases |events|
  {
    if events == [] || s.w.quit then s
    else RunSafe(StepSafe(s, events[0]), events[1..])
  }

  /** The session invariant, the direction is not the reverse of the last
      move, and the segment behind the head is one last move back. */
  predicate NeckSafe(s: Locked)
  {
    Wellformed(s.w) && IsUnit(s.moved) && s.w.dir != Neg(s.moved) &&
    (|s.w.body| >= 2 ==> s.w.body[0] == Point(s.w.body[1].x + s.moved.x, s.w.body[1].y + s.moved.y))
  }

  /** A key keeps `NeckSafe`. */
  lemma KeyKeepsNeckSafe(s: Locked, c: char)
    requires NeckSafe(s)
    ensures NeckSafe(StepSafe(s, KeyPress(c)))
  {
    if c != 'q' && Accepts(s.moved, c) {
      var d := NextDirSafe(s.moved, s.w.dir, c);
      assert IsUnit(d) && d != Neg(s.moved);
      assert StepSafe(s, KeyPress(c)) == Locked(s.w.(dir := d, headChar := HeadCharOf(d)), s.moved);
    }
  }

  /** A tick that moves keeps `NeckSafe`: the old head becomes the neck
      and the step just made becomes the last move. */
  lemma MoveKeepsNeckSafe(w: World, moved: Point, rx: int, ry: int)
    requires NeckSafe(Locked(w, moved)) && DrawFits(w.width, w.height, rx, ry)
    requires !Crashes(w)
    ensures NeckSafe(Locked(Tick(w, rx, ry), w.dir))
  {
    var r := Tick(w, rx, ry);
    assert w.dir != Neg(w.dir);
    if |r.body| >= 2 {
      if NewHead(w) == w.food {
        EatingTick(w, rx, ry);
      } else {
        NonEatingTick(w, rx, ry);
      }
      assert r.body[1] == w.body[0];
    }
  }

  /** A tick keeps `NeckSafe`. */
  lemma TickKeepsNeckSafe(s: Locked, rx: int, ry: int)
    requires NeckSafe(s) && DrawFits(s.w.width, s.w.height, rx, ry)
    ensures NeckSafe(StepSafe(s, TimerFired(rx, ry)))
  {
    if !Crashes(s.w) {
      MoveKeepsNeckSafe(s.w, s.moved, rx, ry);
    }
  }

  /** Every event keeps `NeckSafe`. */
  lemma StepSafeKeepsNeckSafe(s: Locked, e: Event)
    requires NeckSafe(s)
    requires e.TimerFired? ==> DrawFits(s.w.width, s.w.height, e.rx, e.ry)
    ensures NeckSafe(StepSafe(s, e))
  {
    match e
    case KeyPress(c) => KeyKeepsNeckSafe(s, c);
    case TimerFired(rx, ry) => TickKeepsNeckSafe(s, rx, ry);
  }

  /** Any run keeps `NeckSafe`. */
  lemma {:induction false} RunSafeKeepsNeckSafe(s: Locked, events: seq<Event>)
    requires NeckSafe(s) && DrawsFit(s.w.width, s.w.height, events)
    ensures NeckSafe(RunSafe(s, events))
    decreases |events|
  {
    if events != [] && !s.w.quit {
      StepSafeKeepsNeckSafe(s, events[0]);
      RunSafeKeepsNeckSafe(StepSafe(s, events[0]), events[1..]);
    }
  }

  /** From the start of a session, whatever keys and ticks follow, the
      direction is never the reverse of the last move and the next tick
      never moves the head onto the segment behind it. */
  lemma RunSafeNeverBacksIntoNeck(width: int, height: int, rx: int, ry: int, events: seq<Event>)
    requires DrawFits(width, height, rx, ry) && DrawsFit(width, height, events)
    ensures var r := RunSafe(Locked(InitialWorld(width, height, rx, ry), DirectionOf('d')), events);
      r.w.dir != Neg(r.moved) && (|r.w.body| >= 2 ==> NewHead(r.w) != r.w.body[1])
  {
    var s0 := Locked(InitialWorld(width, height, rx, ry), DirectionOf('d'));
    RunSafeKeepsNeckSafe(s0, events);
  }

  /** The keys that reverse the snake under the program's rule are held
      under the corrected one: moving right, 'w' then 'a' leaves it moving up. */
  lemma DoubleTurnHeld(food: Point)
    ensures var s := Locked(World(10, 10, [Point(5, 5), Point(4, 5)], Point(1, 0), "▶", food, 0, false), Point(1, 0));
      StepSafe(StepSafe(s, KeyPress('w')), KeyPress('a')).w.dir == Point(0, -1)
  {
  }
}
