# Flight simulator game state, in Dafny

This project models the game in `cli/flight_simulator/src/main.rs`, a terminal endless runner.
A plane sits at column 2 of an 80 × 10 character frame. A jump key makes it climb five rows and
then fall back. Buildings spawn at the right edge and scroll left, one column per tick. The game
ends when a building reaches column 2 while the plane is on the ground.

The model has six modules:

- `Config` (`config.dfy`): the constants `JUMP_HEIGHT`, `GAME_WIDTH`, `GAME_HEIGHT` and
  `GAME_SPEED`, and the glyphs. The plane, the ground and each building are given by the code
  point the program draws for them, which is the first `char` of each building string.
- `Actor` (`actor.dfy`): the plane's height and jump flag. It holds the per-tick motion `Fly`,
  the key guard `RequestJump`, and the proof that a jump follows the arc 1, 2, 3, 4, 5, 4, 3,
  2, 1, 0.
- `Ground` (`ground.dfy`): the wrapping ground offset, and the columns the ground loop of `draw`
  paints.
- `Obstacles` (`obstacles.dfy`): the obstacle list as a sequence. `ShiftAll` is the in-place
  decrement, `Retire` is `retain`, and `Spawn` is the guarded push. The lemmas show that the list
  stays on screen and strictly ordered by column. They also show that at most its head leaves
  per tick, and that under this invariant the "column already taken" spawn guard never blocks.
- `Compositor` (`compositor.dfy`): `FrameCell`, the content of every cell of the frame drawn
  for a given state. The lemmas cover the glyph alphabet, obstacle cells and the plane cell.
- `Simulation` (`simulation.dfy`):
  - the state as a value (`State`);
  - one call of `update` as a function (`Tick`), and runs of calls (`Run`);
  - `is_collision` (`Collides`) and the key `match` of the main loop (`Dispatch`);
  - the class `Game`. Its fields are the struct's fields, with the frame buffer as an
    `array2<char>`. Its methods `Update` and `Draw` change the fields and the buffer in place
    with loops, and are proved against `Tick` and `FrameCell`. `RunIteration` is one pass of
    the main loop: key, update, draw, collision test.

The clock and the random generator are parameters:

- `now` is the clock reading in milliseconds. `Elapsed` saturates at zero, as
  `Instant::duration_since` does.
- `spawnRoll` is the outcome of the 1-in-20 roll.
- `glyph` is the index that `BUILDINGS.choose` picks.

Three facts about the code shape the model:

- Every ground cell gets the same glyph, so the drawn frame does not depend on the ground
  offset. `FrameCell` has no offset parameter, and `Draw` proves that the ground loop paints
  all 80 columns whatever the offset.
- Columns strictly increase along the obstacle list, oldest obstacle first.
- The loop exits in the same iteration that detects the collision, as `RunIteration` does.

## Model

| member | source | states |
|---|---|---|
| `Config.GlyphsDistinct` | cli/flight_simulator/src/main.rs:14-21 | the five building glyphs are pairwise distinct and differ from blank, ground and plane |
| `Actor.Fly` | cli/flight_simulator/src/main.rs:53-60 | one tick keeps the height within 0..=JUMP_HEIGHT and "climbing only below the apex"; it moves exactly one row unless grounded and idle; it never starts a climb |
| `Actor.JumpTrajectory` | cli/flight_simulator/src/main.rs:53-60 | from the ground with `jumping` set, tick k gives height k and `jumping` for k < 5, then height 10 - k with `jumping` cleared |
| `Actor.JumpLands` | cli/flight_simulator/src/main.rs:53-60 | a jump is airborne for ticks 1..9 and is back on the ground, not jumping, after exactly 2 * JUMP_HEIGHT ticks |
| `Actor.RequestJump` | cli/flight_simulator/src/main.rs:146-148 | a jump request changes the state only when the plane is grounded and not jumping; it never changes the height and keeps the height invariant |
| `Ground.Scroll` | cli/flight_simulator/src/main.rs:63 | the new offset is below GAME_WIDTH and is the old one minus one, wrapping 0 to GAME_WIDTH - 1 |
| `Ground.ScrollNIsRotation` | cli/flight_simulator/src/main.rs:63 | after k ticks the offset is (offset - k) mod GAME_WIDTH |
| `Ground.GroundCycle` | cli/flight_simulator/src/main.rs:63 | the offset returns to its start after GAME_WIDTH ticks and at no earlier tick |
| `Ground.GroundStepOfColumn` | cli/flight_simulator/src/main.rs:89-92 | each step of the ground loop paints a column no other step paints |
| `Ground.GroundColumnOfStep` | cli/flight_simulator/src/main.rs:89-92 | every column is painted by some step of the ground loop |
| `Obstacles.AnyAtColumn` | cli/flight_simulator/src/main.rs:72 | the `any` scan is true exactly when some obstacle is at the column |
| `Obstacles.Spawn` | cli/flight_simulator/src/main.rs:71-75 | the old list is kept as a prefix; one obstacle is appended exactly when the roll succeeds and no obstacle is at GAME_WIDTH - 1; it is at GAME_WIDTH - 1 with the chosen glyph |
| `Obstacles.RetireMembers` | cli/flight_simulator/src/main.rs:69 | an obstacle survives `retain` exactly when it was in the list with a positive column |
| `Obstacles.RetireAppend` | cli/flight_simulator/src/main.rs:69 | `retain` is a filter: retaining a concatenation is the concatenation of the retained parts, so survivors keep their relative order |
| `Obstacles.RetireSingle` | cli/flight_simulator/src/main.rs:69 | `retain` keeps a single obstacle exactly when its column is positive |
| `Obstacles.RetireKeepsOrdered` | cli/flight_simulator/src/main.rs:69 | a column-ordered list stays column-ordered after `retain` |
| `Obstacles.RetireAllPositive` | cli/flight_simulator/src/main.rs:69 | with nothing at column 0, `retain` leaves the list as it was |
| `Obstacles.RetireOrderedDropsHead` | cli/flight_simulator/src/main.rs:66-69 | on an ordered list, `retain` removes the head if it is at column 0 and nothing else |
| `Obstacles.SurvivorsAreAdvanced` | cli/flight_simulator/src/main.rs:66-69 | after shift and `retain`, the list holds exactly the shifted obstacles with a positive column, glyphs unchanged |
| `Obstacles.ShiftWellFormed` | cli/flight_simulator/src/main.rs:66 | shifting a well-formed list keeps it ordered, with every obstacle left of the spawn column |
| `Obstacles.SurvivorsWellFormed` | cli/flight_simulator/src/main.rs:66-69 | the survivors of a well-formed list are well formed and left of the spawn column |
| `Obstacles.SpawnGuardNeverBlocks` | cli/flight_simulator/src/main.rs:66-75 | on a well-formed list no survivor is at GAME_WIDTH - 1, so a successful roll always spawns |
| `Obstacles.SpawnKeepsWellFormed` | cli/flight_simulator/src/main.rs:71-75 | a spawn at the right edge keeps the list well formed |
| `Obstacles.StepKeepsWellFormed` | cli/flight_simulator/src/main.rs:66-75 | an admitted tick keeps every column in 1..GAME_WIDTH-1, the glyphs among the buildings and the columns strictly increasing |
| `Obstacles.AtMostOneAtColumn` | cli/flight_simulator/src/main.rs:72-74 | in an ordered list at most one obstacle sits at any column, the spawn column included |
| `Compositor.LastGlyphAt` | cli/flight_simulator/src/main.rs:99-103 | the obstacle loop leaves a glyph at a column exactly when an obstacle is there, and it is the glyph of the last such obstacle |
| `Compositor.FrameAlphabet` | cli/flight_simulator/src/main.rs:80-104 | every cell of the frame is blank, ground, plane or a building |
| `Compositor.FrameObstacleCell` | cli/flight_simulator/src/main.rs:98-103 | in an ordered list every obstacle shows its own glyph at its column on the row above the ground |
| `Compositor.FramePlaneCell` | cli/flight_simulator/src/main.rs:94-103 | the plane's cell shows the plane unless the plane is grounded and an obstacle is at column 2 |
| `Simulation.InitialInv` | cli/flight_simulator/src/main.rs:34-44 | the new game satisfies the invariant |
| `Simulation.Tick` | cli/flight_simulator/src/main.rs:46-78 | a call less than GAME_SPEED ms after the last admitted one changes nothing; an admitted one raises the score by exactly 1, records the clock, moves the plane by `Fly`, and keeps the invariant |
| `Simulation.RunKeepsInv` | cli/flight_simulator/src/main.rs:46-78 | the invariant holds after any sequence of calls, whatever the clock and the rolls |
| `Simulation.SpacedRun` | cli/flight_simulator/src/main.rs:46-78 | when calls are GAME_SPEED apart, each is admitted: the score rises by the number of calls, the plane and ground advance once per call, and the last clock reading is recorded |
| `Simulation.SpacedJumpLands` | cli/flight_simulator/src/main.rs:47-60 | a jump from the ground lands after 2 * JUMP_HEIGHT spaced calls |
| `Simulation.Collides` | cli/flight_simulator/src/main.rs:130-132 | a collision happens exactly when the plane is grounded and some obstacle is at column 2 |
| `Simulation.PlaneHiddenIffCollision` | cli/flight_simulator/src/main.rs:94-103 | in a reachable state the drawn plane is covered by an obstacle exactly when `is_collision` holds |
| `Simulation.Dispatch` | cli/flight_simulator/src/main.rs:145-151 | space or Up starts a jump exactly when the jump request would take effect; Esc, `q` and Ctrl-C quit; everything else is ignored |
| `Simulation.ApplyKey` | cli/flight_simulator/src/main.rs:143-148 | space or Up applies the jump request (which sets `jumping` on a grounded, idle plane); any other event or no event leaves the state unchanged; only the jump flag can change, and the invariant is kept |
| `Simulation.Game.IsCollision` | cli/flight_simulator/src/main.rs:130-132 | the game collides exactly when the plane is grounded and some obstacle is at column 2 |
| `Simulation.Game.constructor` | cli/flight_simulator/src/main.rs:34-44 | a fresh game is the initial state with a blank buffer of GAME_HEIGHT × GAME_WIDTH |
| `Simulation.Game.Update` | cli/flight_simulator/src/main.rs:46-78 | the fields after the call are `Tick` of the fields before it; the buffer is untouched |
| `Simulation.Game.MovePlane` | cli/flight_simulator/src/main.rs:53-60 | the plane fields after the step are `Fly` of the fields before it |
| `Simulation.Game.SpawnObstacle` | cli/flight_simulator/src/main.rs:71-75 | the list after the step is `Spawn` of the list before it, with the chosen building |
| `Simulation.Game.ShiftObstacles` | cli/flight_simulator/src/main.rs:66 | every obstacle's column becomes its saturating decrement, in place |
| `Simulation.Game.RetireObstacles` | cli/flight_simulator/src/main.rs:69 | the list becomes its survivors with a positive column, in order |
| `Simulation.Game.Draw` | cli/flight_simulator/src/main.rs:80-104 | every cell of the buffer equals `FrameCell` of the plane height and obstacles, whatever it held before |
| `Simulation.Game.RunIteration` | cli/flight_simulator/src/main.rs:142-171 | a quit key leaves everything unchanged; otherwise the new state is the jump key followed by `Tick`, the buffer holds its frame, and the game is over exactly when `Collides` holds |

The specification functions without contracts of their own are `SatInc`, `ShiftAll`, `Retire`,
`StepObstacles`, `FlyN`, `ScrollN`, `FrameCell`, `Run` and `Elapsed`. The rows above state
their properties.

## Left out

- `Game::render` and all terminal work in `main` (raw mode, cursor moves, clearing, printing the score and the game-over message, flushing) are left out. They are terminal output with no game logic.
- `poll` and `read` are left out. A key event is a parameter of `RunIteration`, and `None` stands for no event or a non-key event.
- The clock is a millisecond reading passed in. `Instant` and `Duration` are finer than a millisecond; that precision is not modelled.
- The random roll (`gen_ratio(1, 20)`) and the building choice are parameters. Their distribution is not modelled.
- Buildings are the first code point of their strings, which is what `draw` uses. The trailing variation selector of the classical-building string and the display width of the glyphs are not modelled.
- The buffer is one `array2<char>`. The separate row vectors of `Vec<Vec<char>>`, and any aliasing between them, are not modelled.
- The unbounded main loop is modelled as one iteration (`RunIteration`) and as sequences of calls to `update` (`Run`).
- `USIZE_MAX` assumes a 64-bit target, so `saturating_add` saturates at 2^64 - 1. The height never exceeds JUMP_HEIGHT, so the width of `usize` does not affect reachable states.
- Simulation.Tick: the score is an unbounded natural. The `u32` overflow after 2^32 admitted ticks is not modelled; it takes about 6.8 years at one tick per 50 ms.
- Simulation.Game.Update: the score is an unbounded natural, as in `Tick`.
- Ground.Scroll: `ground_offset + GAME_WIDTH - 1` cannot overflow `usize` in the model. The offset starts at 0 and stays below GAME_WIDTH, so the source cannot overflow there either.
- Simulation.Game.Draw: it requires `plane_y <= GAME_HEIGHT - 2`. For a larger height, `GAME_HEIGHT - 2 - plane_y` underflows and the source panics. Every reachable state satisfies the bound (`Inv`).
- servers/async_web/src/main.rs and servers/simple_web/src/main.rs are not part of this model. They only register HTTP routes with a web framework.
