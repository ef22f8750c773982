/** The ground-scroll offset of `Game` and the columns the ground loop of `draw` paints. */
module Ground {
  import opened Config

  /** One admitted tick moves the ground one column to the left, wrapping around. */
  function Scroll(offset: nat): (r: nat)
    ensures r < GAME_WIDTH
    ensures offset < GAME_WIDTH ==> r == if offset == 0 then GAME_WIDTH - 1 else offset - 1
  {
    (offset + GAME_WIDTH - 1) % GAME_WIDTH
  }

  /** The offset after `k` admitted ticks. */
  function ScrollN(offset: nat, k: nat): nat
  {
    if k == 0 then offset else Scroll(ScrollN(offset, k - 1))
  }

  /** After `k` ticks the offset has turned back by `k`, modulo the width. */
  lemma {:induction false} ScrollNIsRotation(offset: nat, k: nat)
    requires offset < GAME_WIDTH
    ensures ScrollN(offset, k) == (offset - k) % GAME_WIDTH
  {
    if k > 0 {
      ScrollNIsRotation(offset, k - 1);
      var prev := (offset - (k - 1)) % GAME_WIDTH;
      assert ScrollN(offset, k) == (prev + GAME_WIDTH - 1) % GAME_WIDTH;
    }
  }

  /** The offset comes back to where it started after exactly GAME_WIDTH ticks, and not before. */
  lemma GroundCycle(offset: nat, k: nat)
    requires offset < GAME_WIDTH && 0 < k <= GAME_WIDTH
    ensures ScrollN(offset, k) == offset <==> k == GAME_WIDTH
  {
    ScrollNIsRotation(offset, k);
  }

  /** The column the ground loop paints at step `x`. */
  function GroundColumn(x: nat, offset: nat): nat
  {
    (x + offset) % GAME_WIDTH
  }

  /** The step of the ground loop that paints column `c`. */
  function GroundStep(c: nat, offset: nat): nat
  {
    (c + GAME_WIDTH - offset % GAME_WIDTH) % GAME_WIDTH
  }

  /** Step `x` paints a column that no other step paints. */
  lemma GroundStepOfColumn(x: nat, offset: nat)
    requires x < GAME_WIDTH
    ensures GroundStep(GroundColumn(x, offset), offset) == x
  {
  }

  /** Every column is painted by some step of the ground loop. */
  lemma GroundColumnOfStep(c: nat, offset: nat)
    requires c < GAME_WIDTH
    ensures GroundStep(c, offset) < GAME_WIDTH
    ensures GroundColumn(GroundStep(c, offset), offset) == c
  {
  }
}
