/**
 The pipes of the game: the `Pipe` record and its constants, which the game
 imports from a `pipe` module that is not part of this model (so the
 constants are left abstract, known only to be positive `u16` values), and
 `update_pipes` of src/game/mod.rs, which scrolls every pipe left and drops
 the ones that reached column 0.
 */
module Pipes {
  import opened Prim

  type PositiveU16 = x: int | 0 < x <= 0xFFFF witness 1

  const PIPE_VEL: PositiveU16
  const PIPE_WIDTH: PositiveU16
  const PIPE_GAP_HEIGHT: PositiveU16

  /** A pipe: its leftmost column and the first row of its gap. */
  datatype Pipe = Pipe(x: uint16, gapY: uint16)

  /** The map step of `update_pipes`: `x` decreases by PIPE_VEL, clamped at 0. */
  function Scroll(p: Pipe): (q: Pipe)
    ensures q.gapY == p.gapY
    ensures q.x <= p.x
    ensures q.x == 0 || q.x + PIPE_VEL == p.x
    ensures q.x + PIPE_VEL >= p.x
  {
    p.(x := SatSub(p.x, PIPE_VEL))
  }

  /**
   `update_pipes`: scroll every pipe, then keep, in their order, those whose
   new `x` is positive.
   */
  function UpdatePipes(pipes: seq<Pipe>): (r: seq<Pipe>)
    ensures |r| <= |pipes|
    ensures forall k :: 0 <= k < |r| ==> r[k].x > 0
    decreases |pipes|
  {
    if pipes == [] then []
    else
      var q := Scroll(pipes[0]);
      (if q.x > 0 then [q] else []) + UpdatePipes(pipes[1..])
  }

  /**
   `update_pipes` works pipe by pipe: on a concatenation it is the
   concatenation of the results, so survivors keep their relative order.
   */
  lemma {:induction false} UpdatePipesAppend(a: seq<Pipe>, b: seq<Pipe>)
    ensures UpdatePipes(a + b) == UpdatePipes(a) + UpdatePipes(b)
    decreases |a|
  {
    if a == [] {
      assert a + b == b;
    } else {
      assert (a + b)[0] == a[0];
      assert (a + b)[1..] == a[1..] + b;
      UpdatePipesAppend(a[1..], b);
    }
  }

  /** A single pipe is kept, scrolled, exactly when its clamped `x` is not 0. */
  lemma UpdatePipesSingle(p: Pipe)
    ensures UpdatePipes([p]) == if Scroll(p).x > 0 then [Scroll(p)] else []
  {
  }

  /**
   Where each input pipe ends up: scrolled in place among the others, or
   removed when its clamped `x` is 0.
   */
  lemma UpdatePipesAt(before: seq<Pipe>, p: Pipe, after: seq<Pipe>)
    ensures UpdatePipes(before + [p] + after)
            == UpdatePipes(before) + (if Scroll(p).x > 0 then [Scroll(p)] else []) + UpdatePipes(after)
  {
    UpdatePipesAppend(before + [p], after);
    UpdatePipesAppend(before, [p]);
    UpdatePipesSingle(p);
  }

  /** A pipe is in the output exactly when it is some input pipe scrolled and still on screen. */
  lemma {:induction false} UpdatePipesMembers(pipes: seq<Pipe>, p: Pipe)
    ensures p in UpdatePipes(pipes) <==> p.x > 0 && exists q :: q in pipes && Scroll(q) == p
    decreases |pipes|
  {
    if pipes != [] {
      UpdatePipesMembers(pipes[1..], p);
      assert forall q :: q in pipes <==> q == pipes[0] || q in pipes[1..];
    }
  }

  /** `n` ticks' worth of `update_pipes`. */
  function UpdatePipesN(pipes: seq<Pipe>, n: nat): seq<Pipe>
    decreases n
  {
    if n == 0 then pipes else UpdatePipes(UpdatePipesN(pipes, n - 1))
  }

  /** Number of ticks a pipe starting at column `x` stays in the stream: ceil(x / PIPE_VEL). */
  function Lifetime(x: uint16): nat
  {
    (x + PIPE_VEL - 1) / PIPE_VEL
  }

  /** Columns a pipe moves in `k` ticks before any clamping. */
  function Travelled(k: nat): nat
  {
    if k == 0 then 0 else Travelled(k - 1) + PIPE_VEL
  }

  lemma {:induction false} TravelledIsProduct(k: nat)
    ensures Travelled(k) == k * PIPE_VEL
  {
    if k > 0 {
      TravelledIsProduct(k - 1);
    }
  }

  lemma MulMonotone(a: nat, b: nat, c: nat)
    requires a <= b
    ensures a * c <= b * c
  {
  }

  /** `k` whole scroll steps keep the pipe on screen exactly while `k < ceil(x / PIPE_VEL)`. */
  lemma LifetimeBound(x: uint16, k: nat)
    ensures k * PIPE_VEL < x <==> k < Lifetime(x)
  {
    var q, r := (x + PIPE_VEL - 1) / PIPE_VEL, (x + PIPE_VEL - 1) % PIPE_VEL;
    assert x + PIPE_VEL - 1 == q * PIPE_VEL + r;
    if k < q {
      MulMonotone(k, q - 1, PIPE_VEL);
      assert (q - 1) * PIPE_VEL == q * PIPE_VEL - PIPE_VEL;
    } else {
      MulMonotone(q, k, PIPE_VEL);
    }
  }

  /** `LifetimeBound` for the displacement computed tick by tick. */
  lemma TravelledBound(x: uint16, k: nat)
    ensures Travelled(k) < x <==> k < Lifetime(x)
  {
    TravelledIsProduct(k);
    LifetimeBound(x, k);
  }

  /** One tick of a lone pipe at column `x`. */
  lemma ScrollLone(x: uint16, gapY: uint16)
    ensures UpdatePipes([Pipe(x, gapY)]) == if x > PIPE_VEL then [Pipe(x - PIPE_VEL, gapY)] else []
  {
  }

  /** `PipeLifetime` with the displacement computed tick by tick, which keeps the induction linear. */
  lemma {:induction false} LoneLifetime(p: Pipe, k: nat)
    requires 0 < k
    ensures k < Lifetime(p.x) <==> Travelled(k) < p.x
    ensures UpdatePipesN([p], k)
            == if k < Lifetime(p.x) then [Pipe(p.x - Travelled(k), p.gapY)] else []
    decreases k
  {
    TravelledBound(p.x, k);
    if k == 1 {
      ScrollLone(p.x, p.gapY);
    } else {
      LoneLifetime(p, k - 1);
      if Travelled(k - 1) < p.x {
        ScrollLone(p.x - Travelled(k - 1), p.gapY);
      } else {
        assert UpdatePipesN([p], k - 1) == [];
      }
    }
  }

  /**
   A lone pipe moves PIPE_VEL columns per tick and is dropped by the
   ceil(x / PIPE_VEL)-th call of `update_pipes`; its `x` never goes below 0.
   */
  lemma PipeLifetime(p: Pipe, k: nat)
    requires 0 < k
    ensures k < Lifetime(p.x) <==> k * PIPE_VEL < p.x
    ensures UpdatePipesN([p], k)
            == if k < Lifetime(p.x) then [Pipe(p.x - k * PIPE_VEL, p.gapY)] else []
  {
    LifetimeBound(p.x, k);
    TravelledIsProduct(k);
    LoneLifetime(p, k);
  }

  /** `k` ticks of `update_pipes` also work pipe by pipe on a concatenation. */
  lemma {:induction false} UpdatePipesNAppend(a: seq<Pipe>, b: seq<Pipe>, k: nat)
    ensures UpdatePipesN(a + b, k) == UpdatePipesN(a, k) + UpdatePipesN(b, k)
    decreases k
  {
    if k > 0 {
      UpdatePipesNAppend(a, b, k - 1);
      UpdatePipesAppend(UpdatePipesN(a, k - 1), UpdatePipesN(b, k - 1));
    }
  }

  /**
   The lifetime of any pipe of the stream, whatever its neighbours: after `k`
   ticks it sits at `x - k * PIPE_VEL` in its own place, and it is gone from
   the ceil(x / PIPE_VEL)-th call of `update_pipes` on.
   */
  lemma PipeLifetimeInStream(before: seq<Pipe>, p: Pipe, after: seq<Pipe>, k: nat)
    requires 0 < k
    ensures k < Lifetime(p.x) <==> k * PIPE_VEL < p.x
    ensures UpdatePipesN(before + [p] + after, k)
            == UpdatePipesN(before, k)
               + (if k < Lifetime(p.x) then [Pipe(p.x - k * PIPE_VEL, p.gapY)] else [])
               + UpdatePipesN(after, k)
  {
    PipeLifetime(p, k);
    UpdatePipesNAppend(before + [p], after, k);
    UpdatePipesNAppend(before, [p], k);
  }
}
