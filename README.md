# go-snake game core in Dafny

A model of the terminal snake game in `main.go`. A snake moves on a
`width` by `height` field ringed by a one-cell wall. It grows by eating food
and dies when its head hits the wall or the snake itself. The player steers
it with `w`/`a`/`s`/`d` and quits with `q`.

The project is organised in modules, one per component of the program:

- `Geometry` (geometry.dfy) defines points, their equality, and what counts as
  a playable cell or a wall cell.
- `Directions` (directions.dfy) holds the two fixed tables: key to movement
  step, and movement step to head glyph. A lookup of a missing key returns
  the zero value (`(0, 0)` or the empty string), as a Go map lookup does.
- `Rules` (rules.dfy) gives the rules of the game on plain values. A `World`
  record holds everything a session owns. `SpawnFood`, `NextDir`/`Steer`,
  `Tick`, `Step` and `Run` are its state transitions. The lemmas state the
  game's properties:
  - the direction lock;
  - the collision, eating and moving cases of a tick;
  - bounds: food and snake stay on playable cells;
  - the snake never overlaps itself;
  - length grows exactly with the score;
  - nothing happens once the game has ended.
- `Session` (session.dfy) holds the objects the program updates in place.
  `Snake` is a class whose `ChangeDir` assigns `dir` and `headChar`.
  `Grid` is a class that owns the snake, the food, the score and the quit
  flag. `UpdateGame` rebuilds the body, replaces the food and bumps the
  score, after a loop over the segments looking for a collision.
  `HandleKey` is what the input task does with one key. Each is proved to
  follow the matching function in `Rules`.
- `Render` (render.dfy) defines `CellGlyph`, the glyph each cell shows.
  `RenderGame` is the nested row/column loop with its inner search for a
  segment on the cell. It is proved to produce exactly the frame that
  `CellGlyph` describes.
- `Driver` (driver.dfy) holds `GameLoop`. It treats the input task and the
  timer loop as one interleaved sequence of key and timer events. It stops
  once quit is set and is proved to follow `Run`.
- `TurnLock` (turnlock.dfy) gives the direction lock as it is evidently
  meant to work: a key is checked against the step the snake made on the
  last tick. It proves that, under this rule, no sequence of keys turns the
  snake back into its neck (see "## Findings"). The session classes keep
  the program's own rule.

Behaviour of the code that is easy to miss:

- Self collision includes the tail. The new head is compared with every
  segment of the body before the move, tail included. So stepping onto the
  cell the tail is about to leave ends the game, although the tail would
  have moved off that cell (`Rules.TailCellIsOccupied`).
- `NewGrid` ignores its direction argument. The snake always starts at
  (5, 5) moving right (`Rules.InitialWorld`, `Session.Grid.constructor`).
- Food may appear on a snake segment, since spawning does not avoid the
  body. Where food and snake coincide the snake is drawn
  (`Render.CellGlyph`).
- The score is a process-wide variable in the program. Here it is a field of
  the session, and it starts at 0.

## Model

| member | source | states |
|---|---|---|
| `Geometry.IsEqual` | main.go:19-21 | component-wise comparison holds exactly when the two points are equal |
| `Directions.DirectionOf` | main.go:23-28 | the steering keys w/s/a/d, and only they, map to one of the four unit steps; any other key yields (0, 0) |
| `Directions.HeadCharOf` | main.go:30-35 | exactly the four unit steps have a (one-character) head glyph; any other point yields the empty string |
| `Directions.TablesConsistent` | main.go:23-35 | the key table's keys are w/s/a/d and its values are exactly the four unit steps, which are exactly the glyph table's keys; both tables are one-to-one |
| `Rules.SpawnFood` | main.go:93-95 | two draws in the ranges the random source returns give a cell in [1, width-2] x [1, height-2] |
| `Rules.SpawnFoodOntoInterior` | main.go:93-95 | every playable cell is reached by exactly one pair of draws, so spawning is onto the interior and uniform draws give a uniform cell |
| `Rules.Accepts` | main.go:61-82 | for a unit direction, a key is taken exactly when it is a steering key whose step lies on the other axis |
| `Rules.NextDir` | main.go:60-83 | the direction changes exactly when the key is accepted; a non-steering key changes nothing; a unit direction stays a unit direction and never becomes its reverse |
| `Rules.DirectionLock` | main.go:60-83 | moving horizontally, w/s are taken (and change the direction) while a/d are ignored; moving vertically, a/d are taken while w/s are ignored |
| `Rules.Steer` | main.go:60-83 | a key changes only the direction and head glyph, the direction to `NextDir`; a non-steering key changes nothing at all; the direction/glyph invariant is kept |
| `Rules.NewHead` | main.go:148 | the new head is one step along the direction from the current head, and for a unit direction a different cell |
| `Rules.Crashes` | main.go:149-159 | a tick crashes exactly when the new head has x <= 0, x >= width-1, y <= 0 or y >= height-1, or equals some segment at any index |
| `Rules.Tick` | main.go:146-168 | quit is set exactly on a wall or self collision, and then nothing else changes; otherwise the new head is the old head plus the direction, lies on a playable cell, and the rest is a prefix of the old body; the length grows by exactly the score increase, which is 0 or 1; food stays on a playable cell |
| `Rules.WallCollision` | main.go:148-152 | a new head with x <= 0, x >= width-1, y <= 0 or y >= height-1 sets quit and leaves body, food and score as they were |
| `Rules.SelfCollision` | main.go:154-159 | a new head on any current segment, the tail included, sets quit and leaves everything else as it was |
| `Rules.NonEatingTick` | main.go:161-167 | a safe move off the food makes the body [new head] + old body without its last segment; food, score and quit unchanged |
| `Rules.EatingTick` | main.go:161-164 | a safe move onto the food makes the body [food] + old body, adds exactly 1 to the score, keeps quit, and puts new food from the draws on a playable cell |
| `Rules.TickKeepsBodyInside` | main.go:146-168 | a snake lying on playable cells still does after a tick |
| `Rules.TickKeepsBodyDistinct` | main.go:154-167 | a snake without repeated cells has none after a tick |
| `Rules.Step` | main.go:115-119 | one event ('q' quits, another key steers, a timer tick ticks) keeps the field size, a non-empty body and the session invariant |
| `Rules.Run` | main.go:131-144 | a run keeps the field size and a non-empty body, and does nothing to a session that has already ended |
| `Rules.InitialWorld` | main.go:44-52 | a new session satisfies the invariant, is not over, has score 0 and one segment at (5, 5) moving right |
| `Rules.StepNeverReverses` | main.go:60-83 | a single event never sets the direction to the reverse of the one before it (two keys between ticks can, see `Rules.DoubleTurnReverses`) |
| `Rules.RunKeepsWellformed` | main.go:131-144 | any sequence of events keeps the session invariant (non-empty body, unit direction with its glyph, food on a playable cell) |
| `Rules.RunGrowthIsScore` | main.go:161-167 | over any run the score never decreases and the body grows by exactly the score gained |
| `Rules.RunKeepsBodyInside` | main.go:146-168 | a snake on playable cells stays on playable cells for a whole run |
| `Rules.RunKeepsBodyDistinct` | main.go:154-167 | a snake never comes to overlap itself over a run |
| `Rules.RunConcat` | main.go:135-138 | running two batches is running their concatenation; once quit is set, later events change nothing |
| `Rules.ReachableSnakes` | main.go:85-91 | from a new session on a field larger than 6 by 6, every reachable state keeps the invariant, the snake lies on playable cells without overlap, and its length is the score plus one |
| `Rules.ReverseKeyIgnored` | main.go:72-76 | a three-segment snake moving right ignores 'a' |
| `Rules.TailCellIsOccupied` | main.go:154-159 | stepping onto the cell the tail is about to leave ends the game |
| `Rules.WallEndsRun` | main.go:149-152 | a tick that moves the head into the wall ends the run, and no later event is processed |
| `Rules.DoubleTurnReverses` | main.go:60-83 | with body [(5,5),(4,5)] moving right, 'w' then 'a' before one tick set the direction to (-1,0), the reverse of the last move, and the tick runs the head into (4,5) and ends the game |
| `TurnLock.NextDirSafe` | main.go:60-83 | with the lock checked against the last move, a non-steering key changes nothing and a direction that is not the reverse of the last move never becomes it |
| `TurnLock.StepSafe` | main.go:115-119 | one event under the corrected lock keeps the field size and a non-empty body |
| `TurnLock.RunSafe` | main.go:131-144 | a run under the corrected lock keeps the field size and a non-empty body, and does nothing to an ended session |
| `TurnLock.KeyKeepsNeckSafe` | main.go:60-83 | under the corrected lock a key keeps the direction off the reverse of the last move |
| `TurnLock.MoveKeepsNeckSafe` | main.go:161-167 | a moving tick makes the old head the neck and its step the last move, keeping the invariant |
| `TurnLock.TickKeepsNeckSafe` | main.go:146-168 | every tick keeps the neck invariant |
| `TurnLock.StepSafeKeepsNeckSafe` | main.go:115-119 | every event keeps the neck invariant |
| `TurnLock.RunSafeKeepsNeckSafe` | main.go:131-144 | any run keeps the neck invariant |
| `TurnLock.RunSafeNeverBacksIntoNeck` | main.go:60-83 | from a new session, after any events, the direction is not the reverse of the last move and the next tick never moves the head onto the segment behind it |
| `TurnLock.DoubleTurnHeld` | main.go:72-76 | under the corrected lock, 'w' then 'a' on a snake moving right leaves it moving up |
| `Session.Snake.constructor` | main.go:85-91 | one segment at (5, 5), the given direction and its glyph |
| `Session.Snake.ChangeDir` | main.go:60-83 | the body is unchanged, the direction becomes `NextDir`, the glyph follows an accepted turn and is otherwise unchanged; the snake invariant is kept |
| `Session.Grid.constructor` | main.go:44-52 | the new grid's state is `InitialWorld`, whatever direction was requested, and it satisfies the invariant |
| `Session.UpdateGame` | main.go:146-168 | the in-place update leaves the grid in state `Tick` of its old state and keeps the invariant |
| `Session.HandleKey` | main.go:115-119 | 'q' sets quit; any other key steers the snake as `Step` says |
| `Render.CellGlyph` | main.go:177-199 | wall ring first, then the head glyph, then the body glyph, then food, else blank; in a well-formed session the wall glyph appears exactly on the wall ring, the head glyph exactly on the head, the body glyph exactly on other segments, the food glyph exactly on uncovered food, blank elsewhere |
| `Render.RenderGame` | main.go:175-203 | the frame has one row per line and one glyph per column, and every glyph is `CellGlyph` of its cell |
| `Driver.GameLoop` | main.go:131-144 | after the events, the grid is in the state `Run` gives, and the invariant is kept |

## Left out

- Reading keys from the terminal device is not modelled. Keys are parameters. When the device cannot be opened the program sets quit, and that is not modelled. When a read fails the program retries, which is the same as no event here.
- Concurrency is not modelled. The input task and the timer loop are a single interleaved event sequence. The unsynchronised sharing of `dir` between the two tasks is therefore not captured.
- The ticker period of 200 ms is not modelled. When quit and a tick are ready at once, Go picks either one; `GameLoop` always takes quit first.
- The quit channel is a boolean here. In Go, closing the channel twice panics (for example, 'q' typed after a crash, or a tick running after quit). This model simply sets the flag again.
- Randomness is not modelled. The draws of `rand.Intn` are parameters with its range, and seeding the random source is left out.
- A field of width or height at most 2 is not modelled. There `rand.Intn` gets a non-positive argument and the program panics when it spawns food. The draw ranges required by `SpawnFood`, `InitialWorld`, `Tick` and `Session.Grid.constructor` rule this case out.
- Terminal output is left out: clearing the screen, printing the glyphs and newlines, and the trailing score line. A frame is the grid of glyphs.
- `main` and `initializeGame` (a 100 by 20 field) are startup wiring and are not modelled.
- Go's 64-bit integers are not modelled; coordinates and the score are unbounded. The game never comes near the bound.

## Findings

| source | as written | input that shows it | evidently intended | confidence | as-written member | corrected member |
|---|---|---|---|---|---|---|
| main.go:60-83 | the lock compares a key with `dir`, which an earlier key may already have changed since the last tick | body [(5,5),(4,5)] moving right; keys 'w' then 'a' before one tick give direction (-1,0), and the tick moves the head onto (4,5) and ends the game | a key is checked against the step made on the last tick, so the snake can never turn back into its neck | medium, not executed | `Rules.DoubleTurnReverses` | `TurnLock.RunSafeNeverBacksIntoNeck` |

The session classes (`Session.Snake.ChangeDir`, `Driver.GameLoop`) keep the program's rule, so that they describe the game as it plays. The corrected rule and its proof are in `TurnLock`.
