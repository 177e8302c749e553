/**
 One pass of the game loop of src/game/mod.rs, without the terminal: the
 space key adds JUMP_STRENGTH to the bird's velocity, a pipe may be pushed at
 the right edge, the bird falls one step (ending the game on the ground), and
 the pipes scroll. The key press and the random spawn are inputs.
 */
module GameLoop {
  import opened Prim
  import opened BirdPhysics
  import opened Pipes
  import opened Render

  /**
   The row the bird starts on, `(window_height - BIRD_HEIGHT) / 2 - 1`; both
   `u16` subtractions must not underflow.
   */
  function StartRow(windowHeight: uint16): (y: uint16)
    requires BIRD_HEIGHT <= windowHeight && 2 <= windowHeight - BIRD_HEIGHT
    ensures y + GRAVITY <= Floor(windowHeight)
    ensures y + BIRD_HEIGHT == windowHeight / 2
  {
    (windowHeight - BIRD_HEIGHT) / 2 - 1
  }

  /**
   `rand.gen_range(2..(window_width - PIPE_GAP_HEIGHT - 2))` can be evaluated
   (no `u16` underflow, a non-empty range) and `gapY` is one of its values.
   The bound is the window's width, as in the source.
   */
  predicate SpawnableGap(windowWidth: uint16, gapY: uint16)
  {
    PIPE_GAP_HEIGHT + 2 <= windowWidth && 2 <= gapY < windowWidth - PIPE_GAP_HEIGHT - 2
  }

  /** The pipes after the spawn trial: a new pipe at the right edge, `x = window_width`, or none. */
  function Spawned(pipes: seq<Pipe>, spawnGap: Option<uint16>, windowWidth: uint16): (r: seq<Pipe>)
    ensures |r| == |pipes| + (if spawnGap.Some? then 1 else 0)
    ensures r[..|pipes|] == pipes
    ensures spawnGap.Some? ==> r[|pipes|] == Pipe(windowWidth, spawnGap.value)
  {
    match spawnGap
    case None => pipes
    case Some(gapY) => pipes + [Pipe(windowWidth, gapY)]
  }

  /** `bird.y_vel += JUMP_STRENGTH` does not overflow `u16` (a debug build panics otherwise). */
  predicate CanJump(m: Motion, jump: bool)
  {
    jump ==> m.yVel + JUMP_STRENGTH <= U16_MAX
  }

  /** The velocity after the key poll: JUMP_STRENGTH more when space was pressed. */
  function Impulse(m: Motion, jump: bool): (r: Motion)
    requires CanJump(m, jump)
    ensures r.y == m.y
    ensures r.yVel - m.yVel == if jump then JUMP_STRENGTH else 0
  {
    if jump then m.(yVel := m.yVel + JUMP_STRENGTH) else m
  }

  /** The bird's part of one tick: the key's impulse, then `update_height`. */
  function TickMotion(m: Motion, jump: bool, windowHeight: uint16): (r: Option<Motion>)
    requires CanUpdate(m, windowHeight) && CanJump(m, jump)
    ensures r.None? <==> m.y + GRAVITY > Floor(windowHeight)
    ensures r.Some? && jump ==> r.value.yVel == m.yVel + JUMP_STRENGTH - 1
    ensures r.Some? && !jump ==> r.value.yVel == SatSub(m.yVel, 1)
    ensures r.Some? ==> r.value.y + r.value.yVel + 1 >= m.y + GRAVITY
  {
    Step(Impulse(m, jump), windowHeight)
  }

  /** No jump of the run overflows the velocity (line 55), tick by tick until the bird touches the ground. */
  predicate JumpsFit(m: Motion, jumps: seq<bool>, windowHeight: uint16)
    requires CanUpdate(m, windowHeight)
    decreases |jumps|
  {
    jumps == [] ||
    (CanJump(m, jumps[0]) &&
     match TickMotion(m, jumps[0], windowHeight)
     case None => true
     case Some(next) => JumpsFit(next, jumps[1..], windowHeight))
  }

  /**
   The bird over consecutive ticks, `jumps[k]` telling whether space was
   pressed in tick `k`; `None` once it touches the ground.
   */
  function Run(m: Motion, jumps: seq<bool>, windowHeight: uint16): Option<Motion>
    requires CanUpdate(m, windowHeight) && JumpsFit(m, jumps, windowHeight)
    decreases |jumps|
  {
    if jumps == [] then Some(m)
    else
      match TickMotion(m, jumps[0], windowHeight)
      case None => None
      case Some(next) => Run(next, jumps[1..], windowHeight)
  }

  function NoJumps(n: nat): (jumps: seq<bool>)
    ensures |jumps| == n && forall k :: 0 <= k < n ==> !jumps[k]
  {
    seq(n, k => false)
  }

  function AllJumps(n: nat): (jumps: seq<bool>)
    ensures |jumps| == n && forall k :: 0 <= k < n ==> jumps[k]
  {
    seq(n, k => true)
  }

  /** Ticks without a key press are exactly repeated calls of `update_height`. */
  lemma {:induction false} RunWithoutJumps(m: Motion, windowHeight: uint16, n: nat)
    requires CanUpdate(m, windowHeight)
    ensures JumpsFit(m, NoJumps(n), windowHeight)
    ensures Run(m, NoJumps(n), windowHeight) == Steps(m, windowHeight, n)
    decreases n
  {
    if n > 0 {
      assert !NoJumps(n)[0] && NoJumps(n)[1..] == NoJumps(n - 1);
      match Step(m, windowHeight)
      case None =>
      case Some(next) => RunWithoutJumps(next, windowHeight, n - 1);
    }
  }

  /**
   Jumps are additive and capped only by `u16`: with space held for `n` ticks
   from a row above the floor, no jump overflows exactly when the last one,
   at `yVel + (n - 1) * (JUMP_STRENGTH - 1)`, still has room for
   JUMP_STRENGTH. Then every tick succeeds, the bird never sinks, and the
   velocity grows by JUMP_STRENGTH - 1 per tick.
   */
  lemma {:induction false} HoldingJumpClimbs(m: Motion, windowHeight: uint16, n: nat)
    requires BIRD_HEIGHT <= windowHeight && m.y + GRAVITY <= Floor(windowHeight)
    ensures JumpsFit(m, AllJumps(n), windowHeight)
            <==> n == 0 || m.yVel + (n - 1) * (JUMP_STRENGTH - 1) + JUMP_STRENGTH <= U16_MAX
    ensures JumpsFit(m, AllJumps(n), windowHeight) ==>
              Run(m, AllJumps(n), windowHeight).Some? &&
              Run(m, AllJumps(n), windowHeight).value.yVel == m.yVel + n * (JUMP_STRENGTH - 1) &&
              Run(m, AllJumps(n), windowHeight).value.y <= m.y
    decreases n
  {
    if n > 0 {
      assert AllJumps(n)[0] && AllJumps(n)[1..] == AllJumps(n - 1);
      if m.yVel + JUMP_STRENGTH <= U16_MAX {
        var next := Motion(SatSub(m.y + GRAVITY, m.yVel + JUMP_STRENGTH), m.yVel + JUMP_STRENGTH - 1);
        assert TickMotion(m, true, windowHeight) == Some(next);
        HoldingJumpClimbs(next, windowHeight, n - 1);
      }
    }
  }

  /**
   Every tick that spawns a pipe draws a pipe at `x = window_width`, whose
   columns the grid does not have: `draw_pipes` indexes past the end of a row
   before `update_height` runs, whatever pipes were already there.
   */
  lemma SpawnTickCannotDraw(pipes: seq<Pipe>, gapY: uint16, windowWidth: uint16)
    ensures !PipesFit(Spawned(pipes, Some(gapY), windowWidth), windowWidth)
  {
  }

  /**
   A 24-row window: the bird starts on row 10 and, with no key pressed,
   survives 12 ticks, reaching row 22, and touches the ground on the 13th.
   */
  lemma FallFromStart()
    ensures StartRow(24) == 10
    ensures JumpsFit(Motion(StartRow(24), 0), NoJumps(12), 24) && JumpsFit(Motion(StartRow(24), 0), NoJumps(13), 24)
    ensures Run(Motion(StartRow(24), 0), NoJumps(12), 24) == Some(Motion(22, 0))
    ensures Run(Motion(StartRow(24), 0), NoJumps(13), 24) == None
  {
    RunWithoutJumps(Motion(10, 0), 24, 12);
    RunWithoutJumps(Motion(10, 0), 24, 13);
    FreeFall(10, 24, 12);
    FreeFall(10, 24, 13);
  }

  /**
   One tick in the order of the loop body: the key's impulse, the spawn
   trial, `update_height`, and `update_pipes`, which a ground collision
   skips because the loop breaks first. `x` never changes.
   */
  method Tick(bird: Bird, pipes: seq<Pipe>, jump: bool, spawnGap: Option<uint16>,
              windowWidth: uint16, windowHeight: uint16)
    returns (outcome: Outcome, next: seq<Pipe>)
    requires CanJump(bird.Vertical(), jump) && CanUpdate(bird.Vertical(), windowHeight)
    requires spawnGap.Some? ==> SpawnableGap(windowWidth, spawnGap.value)
    modifies bird
    ensures bird.x == old(bird.x)
    ensures outcome == Ok <==> TickMotion(old(bird.Vertical()), jump, windowHeight).Some?
    ensures outcome == Ok ==> bird.Vertical() == TickMotion(old(bird.Vertical()), jump, windowHeight).value
    ensures outcome == BirdTouchedGround ==> bird.Vertical() == Impulse(old(bird.Vertical()), jump)
    ensures next == if outcome == Ok then UpdatePipes(Spawned(pipes, spawnGap, windowWidth))
                    else Spawned(pipes, spawnGap, windowWidth)
  {
    if jump {
      bird.yVel := bird.yVel + JUMP_STRENGTH;
    }
    next := pipes;
    if spawnGap.Some? {
      next := next + [Pipe(windowWidth, spawnGap.value)];
    }
    outcome := bird.UpdateHeight(windowHeight);
    if outcome == BirdTouchedGround {
      return;
    }
    next := UpdatePipes(next);
  }
}
