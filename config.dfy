/** Constants and small shared types of the flight simulator (`cli/flight_simulator/src/main.rs`). */
module Config {
  /** Height, in rows, the plane climbs before it starts to fall. */
  const JUMP_HEIGHT: nat := 5
  /** Number of columns of the frame. */
  const GAME_WIDTH: nat := 80
  /** Number of rows of the frame. */
  const GAME_HEIGHT: nat := 10
  /** The bottom row of the frame, where the ground is drawn. */
  const GROUND_ROW: nat := GAME_HEIGHT - 1
  /** The row above the ground, where obstacles and the grounded plane are drawn. */
  const OBSTACLE_ROW: nat := GAME_HEIGHT - 2
  /** Minimum number of milliseconds between two admitted ticks. */
  const GAME_SPEED: nat := 50
  /** Largest `usize` on a 64-bit target, the ceiling of `saturating_add`. */
  const USIZE_MAX: nat := 0xFFFF_FFFF_FFFF_FFFF

  /** The plane glyph, U+1F6E9. */
  const PLANE: char := '\U{1F6E9}'
  /** The ground glyph, U+2581 (lower one eighth block). */
  const GROUND: char := '\U{2581}'
  /** First code point of each building string: house, office, school, classical building, castle. */
  const BUILDINGS: seq<char> := ['\U{1F3E0}', '\U{1F3E2}', '\U{1F3EB}', '\U{1F3DB}', '\U{1F3F0}']

  /** The choice of `BUILDINGS.choose`, passed in as an index. */
  type GlyphIndex = i: nat | i < 5

  datatype Option<T> = None | Some(value: T)

  /** The five building glyphs are pairwise distinct and differ from the blank, ground and plane glyphs. */
  lemma GlyphsDistinct()
    ensures |BUILDINGS| == 5
    ensures forall i, j :: 0 <= i < j < |BUILDINGS| ==> BUILDINGS[i] != BUILDINGS[j]
    ensures ' ' !in BUILDINGS && GROUND !in BUILDINGS && PLANE !in BUILDINGS
    ensures ' ' != GROUND && ' ' != PLANE && GROUND != PLANE
  {
  }
}
