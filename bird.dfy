/**
 The bird of `src/bird/mod.rs`: its constants, its state and the one-step
 gravity update with its ground-collision error.
 */
module BirdPhysics {
  import opened Prim

  const BIRD_WIDTH: uint16 := 6
  const BIRD_HEIGHT: uint16 := 2
  const JUMP_STRENGTH: uint16 := 4
  const GRAVITY: uint16 := 1

  /** The result of `update_height`: `Ok(())` or `Err(BirdTouchedGround)`. */
  datatype Outcome = Ok | BirdTouchedGround

  /** The vertical part of the bird's state, the only part gravity changes. */
  datatype Motion = Motion(y: uint16, yVel: uint16)

  /**
   The `u16` arithmetic of the ground test, `y + GRAVITY > window_height - BIRD_HEIGHT`,
   neither overflows nor underflows (a debug build panics otherwise).
   */
  predicate CanUpdate(m: Motion, windowHeight: uint16)
  {
    BIRD_HEIGHT <= windowHeight && m.y + GRAVITY <= U16_MAX
  }

  /** The lowest row the bird's top-left corner may occupy. */
  function Floor(windowHeight: uint16): uint16
    requires BIRD_HEIGHT <= windowHeight
  {
    windowHeight - BIRD_HEIGHT
  }

  /**
   One call of `update_height` on values: `None` is the ground error, which
   leaves the state as it was; otherwise the bird moves down by GRAVITY and up by
   its velocity (stopping at row 0), and the velocity decays by one (stopping at 0).
   */
  function Step(m: Motion, windowHeight: uint16): (r: Option<Motion>)
    requires CanUpdate(m, windowHeight)
    ensures r.None? <==> m.y + GRAVITY > Floor(windowHeight)
    ensures r.Some? ==> r.value.y <= Floor(windowHeight)
    ensures r.Some? ==> r.value.y + m.yVel >= m.y + GRAVITY
    ensures r.Some? ==> r.value.y == 0 || r.value.y + m.yVel == m.y + GRAVITY
    ensures r.Some? ==> r.value.yVel <= m.yVel
    ensures r.Some? ==> r.value.yVel + 1 == m.yVel || r.value.yVel == m.yVel == 0
  {
    if m.y + GRAVITY > windowHeight - BIRD_HEIGHT then None
    else Some(Motion(SatSub(m.y + GRAVITY, m.yVel), SatSub(m.yVel, 1)))
  }

  /** `n` consecutive calls of `update_height`; `None` once one of them fails. */
  function Steps(m: Motion, windowHeight: uint16, n: nat): Option<Motion>
    requires CanUpdate(m, windowHeight)
    decreases n
  {
    if n == 0 then Some(m)
    else
      match Step(m, windowHeight)
      case None => None
      case Some(next) => Steps(next, windowHeight, n - 1)
  }

  /**
   With no velocity, every successful call lowers the bird by exactly GRAVITY
   (one row): from row `y0` it succeeds `Floor - y0` times and then hits the ground.
   */
  lemma {:induction false} FreeFall(y0: uint16, windowHeight: uint16, n: nat)
    requires BIRD_HEIGHT <= windowHeight && y0 <= Floor(windowHeight)
    ensures Steps(Motion(y0, 0), windowHeight, n)
            == if n <= Floor(windowHeight) - y0 then Some(Motion(y0 + n * GRAVITY, 0)) else None
    decreases n
  {
    if n > 0 {
      if y0 < Floor(windowHeight) {
        assert Step(Motion(y0, 0), windowHeight) == Some(Motion(y0 + GRAVITY, 0));
        FreeFall(y0 + GRAVITY, windowHeight, n - 1);
      } else {
        assert Step(Motion(y0, 0), windowHeight) == None;
      }
    }
  }

  /** Velocity only decays: after `n` successful calls it is `max(0, yVel - n)`. */
  lemma {:induction false} VelocityDecays(m: Motion, windowHeight: uint16, n: nat)
    requires CanUpdate(m, windowHeight)
    ensures Steps(m, windowHeight, n).Some? ==>
              Steps(m, windowHeight, n).value.yVel == if m.yVel >= n then m.yVel - n else 0
    decreases n
  {
    if n > 0 {
      match Step(m, windowHeight)
      case None =>
      case Some(next) => VelocityDecays(next, windowHeight, n - 1);
    }
  }

  /** `Bird` of src/bird/mod.rs: a column that never changes, a row and a velocity. */
  class Bird {
    var x: uint16
    var y: uint16
    var yVel: uint16

    constructor (x: uint16, y: uint16, yVel: uint16)
      ensures this.x == x && this.y == y && this.yVel == yVel
    {
      this.x, this.y, this.yVel := x, y, yVel;
    }

    function Vertical(): Motion
      reads this
    {
      Motion(y, yVel)
    }

    /**
     `update_height`: the ground test runs before any write, so the error leaves
     `y` and `yVel` as they were; on success they become what `Step` gives and the
     bird stays at or above the floor. `x` is never touched.
     */
    method UpdateHeight(windowHeight: uint16) returns (r: Outcome)
      requires CanUpdate(Vertical(), windowHeight)
      modifies this
      ensures x == old(x)
      ensures r == BirdTouchedGround <==> Step(old(Vertical()), windowHeight).None?
      ensures r == BirdTouchedGround ==> y == old(y) && yVel == old(yVel)
      ensures r == Ok ==> Vertical() == Step(old(Vertical()), windowHeight).value
      ensures r == Ok ==> y <= Floor(windowHeight) && yVel <= old(yVel)
    {
      if y + GRAVITY > windowHeight - BIRD_HEIGHT {
        return BirdTouchedGround;
      }
      y := SatSub(y + GRAVITY, yVel);
      yVel := SatSub(yVel, 1);
      r := Ok;
    }
  }
}
