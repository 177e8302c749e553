/**
 The frame grid of src/game/mod.rs: a row-major `screen` of window_height rows
 by window_width columns, cleared at the start of every tick and painted in
 place by `draw_pipes`, `draw_pipe` and `draw_bird`. A cell's terminal
 styling is abstracted to its colour.
 */
module Render {
  import opened Prim
  import opened BirdPhysics
  import opened Pipes

  /** `' '.reset()`, `' '.on_green()` and `' '.on_yellow()`. */
  datatype Cell = Blank | Green | Yellow

  /** The grid is built from the terminal's `u16` size. */
  predicate TerminalSized(screen: array2<Cell>)
  {
    screen.Length0 <= U16_MAX && screen.Length1 <= U16_MAX
  }

  /**
   The row test of `draw_pipe`, `i >= gap_y && gap_y - i < PIPE_GAP_HEIGHT`,
   with the subtraction wrapping as `u16` arithmetic does when overflow checks
   are off.
   */
  predicate SkipsRow(gapY: uint16, i: uint16)
    ensures SkipsRow(gapY, i) <==> i == gapY || (i > gapY && i - gapY > U16_MAX + 1 - PIPE_GAP_HEIGHT)
  {
    i >= gapY && WrappingSub(gapY, i) < PIPE_GAP_HEIGHT
  }

  /**
   The row test skips the row `gap_y` itself, and for every row closer than
   `65536 - PIPE_GAP_HEIGHT` below the gap it skips nothing else: the gap is one
   row high whatever PIPE_GAP_HEIGHT is.
   */
  lemma SkipsOnlyGapRow(gapY: uint16, i: uint16)
    requires i < gapY || i - gapY <= U16_MAX + 1 - PIPE_GAP_HEIGHT
    ensures SkipsRow(gapY, i) <==> i == gapY
  {
  }

  /** Cell (i, j) is painted by `draw_pipe(screen, pipe, windowHeight)`. */
  predicate PipeCovers(pipe: Pipe, windowHeight: uint16, i: int, j: int)
  {
    0 <= i < windowHeight && !SkipsRow(pipe.gapY, i) && pipe.x <= j < pipe.x + PIPE_WIDTH
  }

  /** Cell (i, j) is painted by some call of `draw_pipe` in `draw_pipes`. */
  predicate AnyPipeCovers(pipes: seq<Pipe>, windowHeight: uint16, i: int, j: int)
    decreases |pipes|
  {
    |pipes| > 0 &&
    (AnyPipeCovers(pipes[..|pipes| - 1], windowHeight, i, j) || PipeCovers(pipes[|pipes| - 1], windowHeight, i, j))
  }

  /** Some pipe of `pipes` covers cell (i, j). */
  lemma {:induction false} AnyPipeCoversSome(pipes: seq<Pipe>, windowHeight: uint16, i: int, j: int)
    ensures AnyPipeCovers(pipes, windowHeight, i, j) <==>
            exists k :: 0 <= k < |pipes| && PipeCovers(pipes[k], windowHeight, i, j)
    decreases |pipes|
  {
    if |pipes| > 0 {
      var front := pipes[..|pipes| - 1];
      AnyPipeCoversSome(front, windowHeight, i, j);
      assert forall k :: 0 <= k < |front| ==> front[k] == pipes[k];
    }
  }

  /** Cell (i, j) is painted by `draw_bird` for a bird whose top-left corner is (y, x). */
  predicate BirdCovers(x: uint16, y: uint16, i: int, j: int)
  {
    y <= i < y + BIRD_HEIGHT && x <= j < x + BIRD_WIDTH
  }

  /** The cell a frame shows once the grid is cleared and the pipes and then the bird are drawn. */
  function FrameCell(x: uint16, y: uint16, pipes: seq<Pipe>, windowHeight: uint16, i: int, j: int): Cell
  {
    if BirdCovers(x, y, i, j) then Yellow
    else if AnyPipeCovers(pipes, windowHeight, i, j) then Green
    else Blank
  }

  /** Every pipe's columns lie inside a grid `width` columns wide, as the indexing of `draw_pipe` needs. */
  predicate PipesFit(pipes: seq<Pipe>, width: int)
  {
    forall k :: 0 <= k < |pipes| ==> pipes[k].x + PIPE_WIDTH <= width
  }

  /** The clear loop at the start of each tick: every cell becomes blank. */
  method Clear(screen: array2<Cell>)
    modifies screen
    ensures forall i, j :: 0 <= i < screen.Length0 && 0 <= j < screen.Length1 ==> screen[i, j] == Blank
  {
    for i := 0 to screen.Length0
      invariant forall r, c :: 0 <= r < i && 0 <= c < screen.Length1 ==> screen[r, c] == Blank
    {
      for j := 0 to screen.Length1
        invariant forall r, c :: 0 <= r < i && 0 <= c < screen.Length1 ==> screen[r, c] == Blank
        invariant forall c :: 0 <= c < j ==> screen[i, c] == Blank
      {
        screen[i, j] := Blank;
      }
    }
  }

  /**
   `draw_pipe`: paints green the columns `[pipe.x, pipe.x + PIPE_WIDTH)` of
   every row below `windowHeight` that the row test does not skip, and nothing
   else. The columns must lie inside the grid.
   */
  method DrawPipe(screen: array2<Cell>, pipe: Pipe, windowHeight: uint16)
    requires TerminalSized(screen)
    requires windowHeight <= screen.Length0
    requires pipe.x + PIPE_WIDTH <= screen.Length1
    modifies screen
    ensures forall i, j :: 0 <= i < screen.Length0 && 0 <= j < screen.Length1 ==>
              screen[i, j] == if PipeCovers(pipe, windowHeight, i, j) then Green else old(screen[i, j])
  {
    for i := 0 to windowHeight
      invariant forall r, c :: 0 <= r < screen.Length0 && 0 <= c < screen.Length1 ==>
                  screen[r, c] == if r < i && PipeCovers(pipe, windowHeight, r, c) then Green else old(screen[r, c])
    {
      if SkipsRow(pipe.gapY, i) {
        continue;
      }
      for j := 0 to PIPE_WIDTH
        invariant forall r, c :: 0 <= r < screen.Length0 && 0 <= c < screen.Length1 ==>
                    screen[r, c] == if (r < i && PipeCovers(pipe, windowHeight, r, c)) || (r == i && pipe.x <= c < pipe.x + j)
                                    then Green else old(screen[r, c])
      {
        var column: uint16 := pipe.x + j;
        screen[i, column] := Green;
      }
    }
  }

  /** `draw_pipes`: `draw_pipe` for every pipe, in order. */
  method DrawPipes(screen: array2<Cell>, pipes: seq<Pipe>, windowHeight: uint16)
    requires TerminalSized(screen)
    requires windowHeight <= screen.Length0
    requires PipesFit(pipes, screen.Length1)
    modifies screen
    ensures forall i, j :: 0 <= i < screen.Length0 && 0 <= j < screen.Length1 ==>
              screen[i, j] == if AnyPipeCovers(pipes, windowHeight, i, j) then Green else old(screen[i, j])
  {
    for k := 0 to |pipes|
      invariant forall i, j :: 0 <= i < screen.Length0 && 0 <= j < screen.Length1 ==>
                  screen[i, j] == if AnyPipeCovers(pipes[..k], windowHeight, i, j) then Green else old(screen[i, j])
    {
      DrawPipe(screen, pipes[k], windowHeight);
      assert pipes[..k + 1][..k] == pipes[..k];
    }
    assert pipes[..|pipes|] == pipes;
  }

  /**
   `draw_bird`: paints yellow the BIRD_HEIGHT x BIRD_WIDTH rectangle whose
   top-left corner is the bird's position, and nothing else. The rectangle
   must lie inside the grid.
   */
  method DrawBird(screen: array2<Cell>, bird: Bird)
    requires TerminalSized(screen)
    requires bird.y + BIRD_HEIGHT <= screen.Length0 && bird.x + BIRD_WIDTH <= screen.Length1
    modifies screen
    ensures forall i, j :: 0 <= i < screen.Length0 && 0 <= j < screen.Length1 ==>
              screen[i, j] == if BirdCovers(bird.x, bird.y, i, j) then Yellow else old(screen[i, j])
  {
    for i := 0 to BIRD_HEIGHT
      invariant forall r, c :: 0 <= r < screen.Length0 && 0 <= c < screen.Length1 ==>
                  screen[r, c] == if r < bird.y + i && BirdCovers(bird.x, bird.y, r, c) then Yellow else old(screen[r, c])
    {
      for j := 0 to BIRD_WIDTH
        invariant forall r, c :: 0 <= r < screen.Length0 && 0 <= c < screen.Length1 ==>
                    screen[r, c] == if (r < bird.y + i && BirdCovers(bird.x, bird.y, r, c)) || (r == bird.y + i && bird.x <= c < bird.x + j)
                                    then Yellow else old(screen[r, c])
      {
        var row: uint16, column: uint16 := bird.y + i, bird.x + j;
        screen[row, column] := Yellow;
      }
    }
  }

  /**
   The grid work of one tick: clear every cell, draw the pipes, then the bird.
   The frame depends only on the bird and the pipes, never on what the grid
   held before, so no cell of an earlier frame survives.
   */
  method ComposeFrame(screen: array2<Cell>, bird: Bird, pipes: seq<Pipe>, windowHeight: uint16)
    requires TerminalSized(screen)
    requires windowHeight <= screen.Length0
    requires PipesFit(pipes, screen.Length1)
    requires bird.y + BIRD_HEIGHT <= screen.Length0 && bird.x + BIRD_WIDTH <= screen.Length1
    modifies screen
    ensures forall i, j :: 0 <= i < screen.Length0 && 0 <= j < screen.Length1 ==>
              screen[i, j] == FrameCell(bird.x, bird.y, pipes, windowHeight, i, j)
  {
    Clear(screen);
    DrawPipes(screen, pipes, windowHeight);
    DrawBird(screen, bird);
  }
}
