/** What `Game::draw` leaves in the frame buffer, as a function of the game state. */
module Compositor {
  import opened Config
  import opened Obstacles

  /** The glyph the obstacle loop leaves at column `col`: the last obstacle there wins. */
  function LastGlyphAt(obs: seq<Obstacle>, col: nat): (r: Option<char>)
    ensures r.Some? <==> exists i :: 0 <= i < |obs| && obs[i].x == col
    ensures r.Some? ==> exists i :: (0 <= i < |obs| && obs[i].x == col && obs[i].glyph == r.value &&
                                      forall j :: i < j < |obs| ==> obs[j].x != col)
  {
    if obs == [] then None
    else if obs[|obs| - 1].x == col then Some(obs[|obs| - 1].glyph)
    else LastGlyphAt(obs[..|obs| - 1], col)
  }

  /** Cell (`row`, `col`) of the frame drawn for plane height `y` and obstacles `obs`: ground on the
      bottom row, obstacles on the row above it, the plane at column 2, blank elsewhere. The ground
      offset does not appear: every ground cell gets the same glyph. */
  function FrameCell(y: nat, obs: seq<Obstacle>, row: nat, col: nat): char
    requires y <= OBSTACLE_ROW
  {
    if row == GROUND_ROW then GROUND
    else if row == OBSTACLE_ROW && LastGlyphAt(obs, col).Some? then LastGlyphAt(obs, col).value
    else if row == OBSTACLE_ROW - y && col == 2 then PLANE
    else ' '
  }

  /** Every cell is blank, ground, plane or a building. */
  lemma FrameAlphabet(y: nat, obs: seq<Obstacle>, row: nat, col: nat)
    requires y <= OBSTACLE_ROW && OnScreen(obs)
    ensures FrameCell(y, obs, row, col) in [' ', GROUND, PLANE] + BUILDINGS
  {
  }

  /** In a well-formed list every obstacle shows its own glyph at its own column. */
  lemma FrameObstacleCell(y: nat, obs: seq<Obstacle>, i: nat)
    requires y <= OBSTACLE_ROW && Ordered(obs) && i < |obs|
    ensures FrameCell(y, obs, OBSTACLE_ROW, obs[i].x) == obs[i].glyph
  {
  }

  /** The plane's cell shows the plane unless it is grounded with an obstacle at column 2. */
  lemma FramePlaneCell(y: nat, obs: seq<Obstacle>)
    requires y <= OBSTACLE_ROW && OnScreen(obs)
    ensures FrameCell(y, obs, OBSTACLE_ROW - y, 2) == PLANE <==>
      !(y == 0 && exists i :: 0 <= i < |obs| && obs[i].x == 2)
  {
  }
}
