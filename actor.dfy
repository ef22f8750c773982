/** Vertical motion of the plane: the `plane_y` and `jumping` fields of `Game`. */
module Actor {
  import opened Config

  datatype PlaneState = PlaneState(y: nat, jumping: bool)

  /** The bound every admitted tick keeps: never above the apex, and still climbing only below it. */
  predicate Airworthy(p: PlaneState)
  {
    p.y <= JUMP_HEIGHT && (p.jumping ==> p.y < JUMP_HEIGHT)
  }

  /** `usize::saturating_add(1)`. */
  function SatInc(y: nat): nat
  {
    if y < USIZE_MAX then y + 1 else y
  }

  /** The plane's part of one admitted tick: climb while jumping, stop climbing at the apex, else fall. */
  function Fly(p: PlaneState): (r: PlaneState)
    ensures Airworthy(p) ==> Airworthy(r)
    ensures r.jumping ==> p.jumping
    ensures Airworthy(p) && (p.jumping || p.y > 0) ==> r.y == p.y + 1 || r.y + 1 == p.y
    ensures !p.jumping && p.y == 0 ==> r == p
  {
    if p.jumping then
      var y := SatInc(p.y);
      PlaneState(y, y < JUMP_HEIGHT)
    else if p.y > 0 then
      PlaneState(p.y - 1, false)
    else
      p
  }

  /** The plane after `k` admitted ticks. */
  function FlyN(p: PlaneState, k: nat): PlaneState
  {
    if k == 0 then p else Fly(FlyN(p, k - 1))
  }

  /** The triangular jump: `k` up to the apex, then back down by one per tick. */
  function JumpArc(k: nat): PlaneState
    requires k <= 2 * JUMP_HEIGHT
  {
    if k < JUMP_HEIGHT then PlaneState(k, true) else PlaneState(2 * JUMP_HEIGHT - k, false)
  }

  /** A jump started on the ground follows the arc 1, 2, .., JUMP_HEIGHT, .., 1, 0. */
  lemma {:induction false} JumpTrajectory(k: nat)
    requires k <= 2 * JUMP_HEIGHT
    ensures FlyN(PlaneState(0, true), k) == JumpArc(k)
  {
    if k > 0 {
      JumpTrajectory(k - 1);
    }
  }

  /** The plane is airborne for the whole jump and lands after exactly 2 * JUMP_HEIGHT ticks. */
  lemma JumpLands(k: nat)
    requires 0 < k <= 2 * JUMP_HEIGHT
    ensures k < 2 * JUMP_HEIGHT ==> FlyN(PlaneState(0, true), k).y > 0
    ensures k == 2 * JUMP_HEIGHT ==> FlyN(PlaneState(0, true), k) == PlaneState(0, false)
  {
    JumpTrajectory(k);
  }

  /** The jump key: it starts a jump only on the ground and when no jump is running. */
  function RequestJump(p: PlaneState): (r: PlaneState)
    ensures r.y == p.y
    ensures r != p <==> !p.jumping && p.y == 0
    ensures r.jumping <==> p.jumping || p.y == 0
    ensures Airworthy(p) ==> Airworthy(r)
  {
    if !p.jumping && p.y == 0 then PlaneState(p.y, true) else p
  }
}
