/** The `Game` struct of the flight simulator, its tick, its collision test and the key guard of its loop. */
module Simulation {
  import opened Config
  import opened Actor
  import opened Ground
  import opened Obstacles
  import opened Compositor

  /** Everything of `Game` except the frame buffer; `lastUpdate` is a clock reading in milliseconds. */
  datatype State = State(plane: PlaneState, obstacles: seq<Obstacle>, score: nat, lastUpdate: nat, groundOffset: nat)

  /** The state `Game::new` builds at clock reading `now`. */
  function Initial(now: nat): State
  {
    State(PlaneState(0, false), [], 0, now, 0)
  }

  /** The invariant of the simulation: plane within its arc, offset within the width, obstacles well formed. */
  predicate Inv(s: State)
  {
    Airworthy(s.plane) && s.groundOffset < GAME_WIDTH && WellFormed(s.obstacles)
  }

  lemma InitialInv(now: nat)
    ensures Inv(Initial(now))
  {
  }

  /** `now.duration_since(last)`, which saturates at zero when the clock reads earlier than `last`. */
  function Elapsed(last: nat, now: nat): nat
  {
    if now >= last then now - last else 0
  }

  /** `Game::update` at clock reading `now`, with the spawn roll and the building choice passed in. */
  function Tick(s: State, now: nat, spawnRoll: bool, glyph: GlyphIndex): (r: State)
    ensures Elapsed(s.lastUpdate, now) < GAME_SPEED ==> r == s
    ensures Elapsed(s.lastUpdate, now) >= GAME_SPEED ==>
      r.score == s.score + 1 && r.lastUpdate == now && r.plane == Fly(s.plane)
    ensures Inv(s) ==> Inv(r)
  {
    if Elapsed(s.lastUpdate, now) < GAME_SPEED then s
    else
      StepKeepsWellFormedIf(s.obstacles, spawnRoll, BUILDINGS[glyph]);
      State(Fly(s.plane), StepObstacles(s.obstacles, spawnRoll, BUILDINGS[glyph]), s.score + 1, now, Scroll(s.groundOffset))
  }

  lemma StepKeepsWellFormedIf(obs: seq<Obstacle>, roll: bool, glyph: char)
    requires glyph in BUILDINGS
    ensures WellFormed(obs) ==> WellFormed(StepObstacles(obs, roll, glyph))
  {
    if WellFormed(obs) {
      StepKeepsWellFormed(obs, roll, glyph);
    }
  }

  /** What the randomness and the clock supply to one call of `update`. */
  datatype TickInput = TickInput(now: nat, spawnRoll: bool, glyph: GlyphIndex)

  /** The state after calling `update` once per input, in order. */
  function Run(s: State, ins: seq<TickInput>): State
  {
    if ins == [] then s
    else
      var last := ins[|ins| - 1];
      Tick(Run(s, ins[..|ins| - 1]), last.now, last.spawnRoll, last.glyph)
  }

  /** The clock reading of the last call, or `start` when there was none. */
  function LastTime(start: nat, ins: seq<TickInput>): nat
  {
    if ins == [] then start else ins[|ins| - 1].now
  }

  /** Every call is at least GAME_SPEED milliseconds after the previous one (or after `start`). */
  predicate Spaced(start: nat, ins: seq<TickInput>)
  {
    ins == [] ||
    (Spaced(start, ins[..|ins| - 1]) && LastTime(start, ins[..|ins| - 1]) + GAME_SPEED <= ins[|ins| - 1].now)
  }

  /** The invariant holds along every run, whatever the clock and the rolls. */
  lemma {:induction false} RunKeepsInv(s: State, ins: seq<TickInput>)
    requires Inv(s)
    ensures Inv(Run(s, ins))
  {
    if ins != [] {
      RunKeepsInv(s, ins[..|ins| - 1]);
    }
  }

  /** When calls are spaced by GAME_SPEED, each one is admitted: the score counts the calls, the plane
      and the ground advance once per call, and the clock reading of the last call is recorded. */
  lemma {:induction false} SpacedRun(s: State, ins: seq<TickInput>)
    requires Spaced(s.lastUpdate, ins)
    ensures Run(s, ins).score == s.score + |ins|
    ensures Run(s, ins).plane == FlyN(s.plane, |ins|)
    ensures Run(s, ins).groundOffset == ScrollN(s.groundOffset, |ins|)
    ensures Run(s, ins).lastUpdate == LastTime(s.lastUpdate, ins)
  {
    if ins != [] {
      SpacedRun(s, ins[..|ins| - 1]);
    }
  }

  /** A jump taken from the ground on spaced calls lands after 2 * JUMP_HEIGHT of them. */
  lemma SpacedJumpLands(s: State, ins: seq<TickInput>)
    requires s.plane == PlaneState(0, true) && Spaced(s.lastUpdate, ins) && |ins| == 2 * JUMP_HEIGHT
    ensures Run(s, ins).plane == PlaneState(0, false)
  {
    SpacedRun(s, ins);
    JumpLands(|ins|);
  }

  /** `Game::is_collision`: a grounded plane with an obstacle in its column 2. */
  function Collides(y: nat, obs: seq<Obstacle>): (r: bool)
    ensures r <==> y == 0 && exists i :: 0 <= i < |obs| && obs[i].x == 2
  {
    AnyAtColumn(obs, 2) && y == 0
  }

  /** The plane is hidden in the drawn frame exactly when it collides. */
  lemma PlaneHiddenIffCollision(s: State)
    requires Inv(s)
    ensures FrameCell(s.plane.y, s.obstacles, OBSTACLE_ROW - s.plane.y, 2) != PLANE <==>
      Collides(s.plane.y, s.obstacles)
  {
  }

  /** Key codes the loop of `main` tells apart. */
  datatype KeyCode = Char(c: char) | Up | Esc | OtherKey
  datatype KeyEvent = KeyEvent(code: KeyCode, control: bool)
  datatype KeyAction = Jump | Quit | Ignore

  /** The `match` on a key event in the loop of `main`: space or Up starts a jump when the guard lets
      it, Esc, `q` and Ctrl-C quit, every other key (and a jump key the guard refuses) is ignored. */
  function Dispatch(p: PlaneState, e: KeyEvent): (a: KeyAction)
    ensures a == Jump <==> (e.code == Char(' ') || e.code == Up) && RequestJump(p) != p
    ensures a == Quit <==> e.code == Esc || e.code == Char('q') || (e.code == Char('c') && e.control)
  {
    if (e.code == Char(' ') || e.code == Up) && !p.jumping && p.y == 0 then Jump
    else if e.code == Esc || e.code == Char('q') then Quit
    else if e.code == Char('c') && e.control then Quit
    else Ignore
  }

  /** The state after the input step of one loop iteration, when it does not quit. */
  function ApplyKey(s: State, event: Option<KeyEvent>): (r: State)
    ensures r.obstacles == s.obstacles && r.score == s.score && r.lastUpdate == s.lastUpdate
    ensures r.groundOffset == s.groundOffset && r.plane.y == s.plane.y
    ensures event.Some? && (event.value.code == Char(' ') || event.value.code == Up) ==> r.plane == RequestJump(s.plane)
    ensures !(event.Some? && (event.value.code == Char(' ') || event.value.code == Up)) ==> r == s
    ensures Inv(s) ==> Inv(r)
  {
    if event.Some? && Dispatch(s.plane, event.value) == Jump then s.(plane := RequestJump(s.plane)) else s
  }

  /** How one iteration of the loop of `main` ends. */
  datatype Status = Running | GameOver | Quitting

  /** The game: its state, updated in place, and its frame buffer, rebuilt in place by `Draw`. */
  class Game {
    var planeY: nat
    var jumping: bool
    var obstacles: seq<Obstacle>
    var score: nat
    var lastUpdate: nat
    var buffer: array2<char>
    var groundOffset: nat

    ghost predicate Valid()
      reads this
    {
      buffer.Length0 == GAME_HEIGHT && buffer.Length1 == GAME_WIDTH
    }

    /** The state of the game as a value. */
    function Snapshot(): State
      reads this
    {
      State(PlaneState(planeY, jumping), obstacles, score, lastUpdate, groundOffset)
    }

    /** The buffer holds the frame of the current state. */
    ghost predicate Drawn()
      reads this, buffer
      requires planeY <= OBSTACLE_ROW
    {
      Valid() &&
      forall r, c :: 0 <= r < GAME_HEIGHT && 0 <= c < GAME_WIDTH ==> buffer[r, c] == FrameCell(planeY, obstacles, r, c)
    }

    /** `Game::new` at clock reading `now`: an empty sky and a blank buffer. */
    constructor (now: nat)
      ensures Valid() && fresh(buffer)
      ensures Snapshot() == Initial(now)
      ensures forall r, c :: 0 <= r < GAME_HEIGHT && 0 <= c < GAME_WIDTH ==> buffer[r, c] == ' '
    {
      planeY := 0;
      jumping := false;
      obstacles := [];
      score := 0;
      lastUpdate := now;
      buffer := new char[GAME_HEIGHT, GAME_WIDTH]((r, c) => ' ');
      groundOffset := 0;
    }

    /** `Game::update`: one tick if at least GAME_SPEED milliseconds have passed, otherwise nothing. */
    method Update(now: nat, spawnRoll: bool, glyph: GlyphIndex)
      requires Valid()
      modifies this
      ensures Valid() && buffer == old(buffer)
      ensures Snapshot() == Tick(old(Snapshot()), now, spawnRoll, glyph)
    {
      var elapsed := if now >= lastUpdate then now - lastUpdate else 0;
      if elapsed < GAME_SPEED {
        return;
      }
      lastUpdate := now;
      MovePlane();
      groundOffset := (groundOffset + GAME_WIDTH - 1) % GAME_WIDTH;
      ShiftObstacles();
      RetireObstacles();
      SpawnObstacle(spawnRoll, glyph);
      score := score + 1;
    }

    /** The jump and gravity step of `update`: climb while jumping, clear `jumping` at the apex, else fall. */
    method MovePlane()
      modifies this`planeY, this`jumping
      ensures PlaneState(planeY, jumping) == Fly(PlaneState(old(planeY), old(jumping)))
    {
      if jumping {
        planeY := SatInc(planeY);
        if planeY >= JUMP_HEIGHT {
          jumping := false;
        }
      } else if planeY > 0 {
        planeY := planeY - 1;
      }
    }

    /** The spawn step of `update`: push a building at the right edge if the roll succeeds and the edge is free. */
    method SpawnObstacle(spawnRoll: bool, glyph: GlyphIndex)
      modifies this`obstacles
      ensures obstacles == Spawn(old(obstacles), spawnRoll, BUILDINGS[glyph])
    {
      if spawnRoll && !AnyAtColumn(obstacles, GAME_WIDTH - 1) {
        obstacles := obstacles + [Obstacle(GAME_WIDTH - 1, BUILDINGS[glyph])];
      }
    }

    /** `self.obstacles.iter_mut().for_each(..)`: every obstacle one column to the left, in place. */
    method ShiftObstacles()
      modifies this`obstacles
      ensures obstacles == ShiftAll(old(obstacles))
    {
      var i := 0;
      while i < |obstacles|
        invariant 0 <= i <= |obstacles| == |old(obstacles)|
        invariant forall k :: 0 <= k < i ==> obstacles[k] == Advance(old(obstacles)[k])
        invariant forall k :: i <= k < |obstacles| ==> obstacles[k] == old(obstacles)[k]
      {
        var o := obstacles[i];
        obstacles := obstacles[i := o.(x := if o.x > 0 then o.x - 1 else 0)];
        i := i + 1;
      }
    }

    /** `self.obstacles.retain(..)`: keep the obstacles still right of column 0, in order. */
    method RetireObstacles()
      modifies this`obstacles
      ensures obstacles == Retire(old(obstacles))
    {
      var kept := [];
      var i := 0;
      while i < |obstacles|
        invariant 0 <= i <= |obstacles|
        invariant kept == Retire(obstacles[..i])
      {
        assert obstacles[..i + 1][..i] == obstacles[..i];
        if obstacles[i].x > 0 {
          kept := kept + [obstacles[i]];
        }
        i := i + 1;
      }
      assert obstacles[..i] == obstacles;
      obstacles := kept;
    }

    /** `Game::draw`: clear the buffer, then paint the ground, the plane and the obstacles. */
    method Draw()
      requires Valid() && planeY <= OBSTACLE_ROW
      modifies buffer
      ensures Drawn()
    {
      for r := 0 to GAME_HEIGHT
        invariant forall i, j :: 0 <= i < r && 0 <= j < GAME_WIDTH ==> buffer[i, j] == ' '
      {
        for c := 0 to GAME_WIDTH
          invariant forall i, j :: 0 <= i < r && 0 <= j < GAME_WIDTH ==> buffer[i, j] == ' '
          invariant forall j :: 0 <= j < c ==> buffer[r, j] == ' '
        {
          buffer[r, c] := ' ';
        }
      }

      for x := 0 to GAME_WIDTH
        invariant forall i, j :: 0 <= i < GROUND_ROW && 0 <= j < GAME_WIDTH ==> buffer[i, j] == ' '
        invariant forall j :: 0 <= j < GAME_WIDTH ==>
          buffer[GROUND_ROW, j] == if GroundStep(j, groundOffset) < x then GROUND else ' '
      {
        var groundX := (x + groundOffset) % GAME_WIDTH;
        forall j | 0 <= j < GAME_WIDTH
          ensures GroundStep(j, groundOffset) == x <==> j == groundX
        {
          GroundColumnOfStep(j, groundOffset);
          GroundStepOfColumn(x, groundOffset);
        }
        buffer[GROUND_ROW, groundX] := GROUND;
      }
      forall j | 0 <= j < GAME_WIDTH
        ensures buffer[GROUND_ROW, j] == GROUND
      {
        GroundColumnOfStep(j, groundOffset);
      }

      var planeRow := OBSTACLE_ROW - planeY;
      buffer[planeRow, 2] := PLANE;
      assert obstacles[..0] == [];

      for i := 0 to |obstacles|
        invariant forall r, c :: 0 <= r < GAME_HEIGHT && 0 <= c < GAME_WIDTH ==>
          buffer[r, c] == if r == OBSTACLE_ROW && LastGlyphAt(obstacles[..i], c).Some?
                          then LastGlyphAt(obstacles[..i], c).value
                          else FrameCell(planeY, [], r, c)
      {
        assert obstacles[..i + 1][..i] == obstacles[..i];
        var o := obstacles[i];
        if o.x < GAME_WIDTH {
          buffer[OBSTACLE_ROW, o.x] := o.glyph;
        }
      }
      assert obstacles[..|obstacles|] == obstacles;
    }

    /** `Game::is_collision`. */
    function IsCollision(): (r: bool)
      reads this
      ensures r <==> planeY == 0 && exists i :: 0 <= i < |obstacles| && obstacles[i].x == 2
    {
      Collides(planeY, obstacles)
    }

    /** One iteration of the loop of `main`: handle the key event, update, draw, test for a collision.
        Drawing to the terminal is not part of this model. */
    method RunIteration(event: Option<KeyEvent>, now: nat, spawnRoll: bool, glyph: GlyphIndex) returns (status: Status)
      requires Valid() && Inv(Snapshot())
      modifies this, buffer
      ensures Valid() && Inv(Snapshot()) && buffer == old(buffer)
      ensures status == Quitting <==> event.Some? && Dispatch(old(Snapshot()).plane, event.value) == Quit
      ensures status == Quitting ==> Snapshot() == old(Snapshot()) && unchanged(buffer)
      ensures status != Quitting ==> Snapshot() == Tick(ApplyKey(old(Snapshot()), event), now, spawnRoll, glyph)
      ensures status != Quitting ==> planeY <= OBSTACLE_ROW && Drawn()
      ensures status != Quitting ==> (status == GameOver <==> Collides(planeY, obstacles))
    {
      if event.Some? {
        var action := Dispatch(PlaneState(planeY, jumping), event.value);
        if action == Quit {
          return Quitting;
        }
        if action == Jump {
          jumping := true;
        }
      }
      Update(now, spawnRoll, glyph);
      Draw();
      status := if IsCollision() then GameOver else Running;
    }
  }
}
