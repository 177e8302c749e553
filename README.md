# cli_flappy_bitd: bird physics, pipe stream and frame grid

A Dafny model of the simulation core of a terminal "flappy bird" game
written in Rust. It covers:

- **The bird** (`src/bird/mod.rs`): the constants `BIRD_WIDTH = 6`,
  `BIRD_HEIGHT = 2`, `JUMP_STRENGTH = 4` and `GRAVITY = 1`. A class `Bird`
  holds the fields `x`, `y` and `yVel`. Its method `UpdateHeight` is the
  one-step gravity update. It returns `BirdTouchedGround` before writing
  anything when `y + GRAVITY > window_height - BIRD_HEIGHT`. Otherwise it sets
  `y := max(0, y + GRAVITY - yVel)` and `yVel := max(0, yVel - 1)`. The
  pure function `Step` specifies it.
- **The pipe stream** (`update_pipes` in `src/game/mod.rs`): every pipe
  scrolls left by `PIPE_VEL`, clamped at 0. Then the pipes whose `x` is 0
  are dropped, and the rest keep their order. The `pipe` module that defines
  `Pipe`, `PIPE_VEL`, `PIPE_WIDTH` and `PIPE_GAP_HEIGHT` is not part of this
  model. Its three constants are therefore declared without a value, known
  only to be positive `u16` numbers. A `Pipe` has a `u16` column `x` and a
  `u16` gap row `gapY`.
- **The frame grid** (`draw_pipe`, `draw_pipes`, `draw_bird` and the clear
  loop): a `window_height × window_width` `array2<Cell>`, painted in place.
  `Cell = Blank | Green | Yellow` stands for the styled space characters.
- **One tick** (`Tick`): the space key's impulse, the spawn trial,
  `update_height`, and `update_pipes`, in the loop body's order. The key
  press and the random spawn decision with its gap row are inputs.

Rust's `u16` arithmetic is explicit. Fields are `uint16`. The idiom
`checked_sub(..).unwrap_or_default()` is `SatSub`. An addition or
subtraction that would panic in a debug build is excluded by a `requires`
clause:

- `update_height` needs `window_height >= BIRD_HEIGHT` and
  `y + GRAVITY <= 65535` (`CanUpdate`).
- The jump needs `y_vel + JUMP_STRENGTH <= 65535` (`CanJump`).
- The spawn needs `window_width >= PIPE_GAP_HEIGHT + 2` and a non-empty
  `gen_range` (`SpawnableGap`). This bound uses the window's width, as the
  code does.

Three hazards of the code are modelled as written, not fixed:

- `draw_pipe`'s row test computes `pipe.gap_y - i`, which underflows for
  every row below `gap_y`. `SkipsRow` models the subtraction with `u16`
  wrap-around (`WrappingSub`). `SkipsOnlyGapRow` then shows that the test
  skips exactly one row, `gap_y`, for any realistic window size. It does so
  whatever `PIPE_GAP_HEIGHT` is.
- `draw_pipe` indexes `screen[i][pipe.x + j]`. `DrawPipe` therefore requires
  `pipe.x + PIPE_WIDTH <= window_width`. A pipe is pushed at
  `x = window_width` and drawn in the same tick, so it can never meet that
  requirement (`SpawnTickCannotDraw`). Every tick that spawns a pipe
  therefore panics at line 120, before `update_height` runs. In the program
  as written, `update_pipes` only ever sees an empty list.
- There is no bird-versus-pipe collision test anywhere in the code.
  `update_height`'s ground test is the only way a tick fails, and the model
  has no other.

## Model

| member | source | states |
|---|---|---|
| `Prim.SatSub` | src/bird/mod.rs:18-21 | `checked_sub(..).unwrap_or_default()` gives `max(0, a - b)`: at least `a - b`, either 0 or exactly `a - b`, never above `a` |
| `Prim.WrappingSub` | src/game/mod.rs:115 | `u16` subtraction with wrap-around: `a - b` when `a >= b`, `a - b + 65536` otherwise |
| `BirdPhysics.Step` | src/bird/mod.rs:13-24 | ground error exactly when `y + GRAVITY > window_height - BIRD_HEIGHT`. On success the bird ends at or above the floor. It moves by `GRAVITY - yVel`, clamped at row 0. The velocity never increases, and decays by one down to 0 |
| `BirdPhysics.FreeFall` | src/bird/mod.rs:14-21 | with `yVel = 0` each successful call lowers the bird by exactly `GRAVITY`. From `y0 <= window_height - 2` it succeeds exactly `window_height - 2 - y0` times, and every later call fails |
| `BirdPhysics.VelocityDecays` | src/bird/mod.rs:21 | after `n` successful calls the velocity is `max(0, yVel - n)` |
| `BirdPhysics.Bird.UpdateHeight` | src/bird/mod.rs:13-24 | the error leaves `y` and `yVel` unchanged. Success sets them to `Step`'s result, so `y` ends at or above the floor and `yVel` does not grow. `x` is never modified. Requires the `u16` arithmetic of line 14 not to over- or underflow |
| `Pipes.Scroll` | src/game/mod.rs:99-102 | the new `x` is `max(0, x - PIPE_VEL)` and `gapY` is unchanged |
| `Pipes.UpdatePipes` | src/game/mod.rs:96-105 | every returned pipe has `x > 0`; the output is never longer than the input |
| `Pipes.UpdatePipesAppend` | src/game/mod.rs:96-105 | `update_pipes` of a concatenation is the concatenation of the results: a stable filter, survivors keep their order |
| `Pipes.UpdatePipesSingle` | src/game/mod.rs:99-103 | one pipe is kept, scrolled, exactly when its clamped `x` is positive |
| `Pipes.UpdatePipesAt` | src/game/mod.rs:96-105 | each input pipe appears scrolled at its own place among the others, or is dropped exactly when its clamped `x` is 0 |
| `Pipes.UpdatePipesMembers` | src/game/mod.rs:99-103 | a pipe is in the output if and only if it has `x > 0` and is the scroll of some input pipe |
| `Pipes.LifetimeBound` | src/game/mod.rs:100-103 | `k` ticks of unclamped motion stay short of column `x` exactly when `k < ceil(x / PIPE_VEL)` |
| `Pipes.ScrollLone` | src/game/mod.rs:99-103 | a lone pipe at column `x` survives one tick, at `x - PIPE_VEL`, exactly when `x > PIPE_VEL` |
| `Pipes.PipeLifetime` | src/game/mod.rs:96-105 | a lone pipe is at `x - k * PIPE_VEL` after `k` ticks while `k < ceil(x / PIPE_VEL)`. It is gone from the `ceil(x / PIPE_VEL)`-th call on, and its `x` never goes negative |
| `Pipes.UpdatePipesNAppend` | src/game/mod.rs:96-105 | any number of `update_pipes` calls on a concatenation give the concatenation of the results |
| `Pipes.PipeLifetimeInStream` | src/game/mod.rs:96-105 | any pipe of the stream, whatever its neighbours, is at `x - k * PIPE_VEL` in its own place after `k` ticks while `k < ceil(x / PIPE_VEL)`. It is gone from the `ceil(x / PIPE_VEL)`-th call on |
| `Render.SkipsRow` | src/game/mod.rs:115 | the row test `i >= gap_y && gap_y - i < PIPE_GAP_HEIGHT`, with `u16` wrap-around. It skips a row exactly when the row is `gap_y`, or lies more than `65536 - PIPE_GAP_HEIGHT` rows below it |
| `Render.SkipsOnlyGapRow` | src/game/mod.rs:115 | the gap test, with its `u16` wrap-around, always skips row `gap_y`. It skips no other row closer than `65536 - PIPE_GAP_HEIGHT` below it |
| `Render.AnyPipeCoversSome` | src/game/mod.rs:107-111 | a cell is painted by `draw_pipes` exactly when some pipe of the list paints it |
| `Render.Clear` | src/game/mod.rs:44-48 | every cell becomes `Blank`; the grid's dimensions are fixed |
| `Render.DrawPipe` | src/game/mod.rs:113-123 | paints `Green` exactly the cells of rows `< window_height` not skipped by the gap test, in columns `[pipe.x, pipe.x + PIPE_WIDTH)`. Every other cell is unchanged. Requires those columns to be inside the grid |
| `Render.DrawPipes` | src/game/mod.rs:107-111 | paints `Green` exactly the cells some pipe covers; every other cell is unchanged |
| `Render.DrawBird` | src/game/mod.rs:125-131 | paints `Yellow` exactly rows `[y, y + BIRD_HEIGHT)` × columns `[x, x + BIRD_WIDTH)`. Every other cell is unchanged. Requires the rectangle to fit in the grid |
| `Render.ComposeFrame` | src/game/mod.rs:44-73 | after clearing and drawing the pipes and then the bird, each cell is `Yellow` on the bird, else `Green` on a pipe, else `Blank`. This is a function of the bird and pipes alone, so no stale cell survives |
| `GameLoop.StartRow` | src/game/mod.rs:38 | the starting row `(window_height - 2) / 2 - 1` puts the bird on rows `window_height / 2 - 2` and `window_height / 2 - 1`, just above the window's middle row (rows 10 and 11 of 24). It leaves room for at least one fall step |
| `GameLoop.Spawned` | src/game/mod.rs:63-68 | the spawn trial keeps the existing pipes in order and, when a pipe spawns, appends one pipe at `x = window_width` with the drawn gap row |
| `GameLoop.Impulse` | src/game/mod.rs:54-56 | a space press adds exactly `JUMP_STRENGTH` to the velocity and leaves the row alone |
| `GameLoop.TickMotion` | src/game/mod.rs:55-76 | the bird's part of a tick fails exactly when `y + GRAVITY > window_height - BIRD_HEIGHT`, so a jump never saves it from the ground. On success the velocity becomes `yVel + JUMP_STRENGTH - 1` after a jump and `max(0, yVel - 1)` otherwise |
| `GameLoop.SpawnTickCannotDraw` | src/game/mod.rs:63-72 | after any spawn, the pipe list to draw breaks the column bound of `draw_pipe`'s indexing at line 120, whatever pipes were there before |
| `GameLoop.RunWithoutJumps` | src/game/mod.rs:76 | ticks without a key press are exactly repeated `update_height` calls |
| `GameLoop.HoldingJumpClimbs` | src/game/mod.rs:54-56 | with space held for `n` ticks from above the floor, no jump overflows exactly when `yVel + (n - 1) * (JUMP_STRENGTH - 1) + JUMP_STRENGTH <= 65535`: the `u16` range is the only cap. Then every tick succeeds, the bird never sinks, and the velocity ends at `yVel + n * (JUMP_STRENGTH - 1)` |
| `GameLoop.FallFromStart` | src/game/mod.rs:36-81 | in a 24-row window the bird starts on row 10. With no key pressed it survives 12 ticks, reaching row 22, and touches the ground on the 13th |
| `GameLoop.Tick` | src/game/mod.rs:54-81 | the jump adds `JUMP_STRENGTH` to `yVel`, then a spawned pipe is appended at `x = window_width`, then `update_height` runs. On success the bird moves as `Step` says and the pipes become `update_pipes` of the list. On the ground error the loop breaks: the impulse stays, the bird does not move and the pipes are not scrolled. `x` never changes |

## Left out

- Terminal plumbing in `main_loop`: raw mode, `execute!`, cursor hide and show, `terminal::size`, `thread::sleep`, and the final two-second pause. This is I/O and timing.
- `draw_screen`: queued terminal writes and a flush, with nothing to state beyond the grid it prints.
- Event polling and reading: the space key is the `jump` input of `Tick`. `Esc`, which ends the loop, is the caller's business, not a tick's.
- Random spawning: `rand.gen::<u8>() == 1` and `gen_range` are a foreign random source. Whether a pipe spawns, and its gap row, are `Tick`'s `spawnGap` input, constrained to the range `gen_range` would draw from.
- crossterm styling (`StyledContent`, `.reset()`, `.on_green()`, `.on_yellow()`): abstracted to `Cell`.
- Bird-versus-pipe collision: the code has none, so the model has none.
- The `pipe` module is not part of this model. The values of `PIPE_VEL`, `PIPE_WIDTH` and `PIPE_GAP_HEIGHT` are unknown, and every property is proved for all positive `u16` values.
- GameLoop.Tick: leaves out the frame drawing, which the loop does between the spawn trial and `update_height`. `Render.ComposeFrame` models that step separately. Drawing a tick that spawned a pipe cannot satisfy `DrawPipe`'s bound (`GameLoop.SpawnTickCannotDraw`), and a tick that includes it would exclude every spawn.
- Render.SkipsRow and Render.DrawPipe: follow the wrapping (overflow checks off) meaning of `pipe.gap_y - i`. A build with overflow checks panics at the first row below `gap_y` instead.
- The main loop's `screen` is a vector of row vectors. It is modelled as a rectangular `array2`, which it always is, because every row is built with `window_width` cells.
