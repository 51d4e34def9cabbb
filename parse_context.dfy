/**
 * Loop nesting as the parser tracks it: a counter raised by one around a block and
 * lowered again when the block ends, whether it returns or throws.
 *
 * A block receives the context and may read it or nest further, so it is modelled by
 * what it computes from the nesting depth it observes: its result (a value, or the
 * error it throws) and the depth it leaves behind.
 */
module Nesting {
  import opened Wrappers

  /** What a block gives back: its result and the nesting depth it leaves. */
  datatype Outcome<T, E> = Outcome(result: Result<T, E>, depth: int)

  /** A context is inside a loop exactly when its counter is positive. */
  predicate InLoop(depth: int)
  {
    depth > 0
  }

  /** A block that leaves the depth as it found it, on every depth and whether or not it throws. */
  ghost predicate Balanced<T, E>(block: int -> Outcome<T, E>)
  {
    forall depth: int :: block(depth).depth == depth
  }

  /** Running `block` one level deeper: it observes `depth + 1`, and what it leaves is lowered by one. */
  function Nested<T, E>(depth: int, block: int -> Outcome<T, E>): (o: Outcome<T, E>)
    ensures o.depth + 1 == block(depth + 1).depth
    ensures o.result == block(depth + 1).result
    ensures Balanced(block) ==> o.depth == depth
  {
    var inner := block(depth + 1);
    Outcome(inner.result, inner.depth - 1)
  }

  /** From any depth a context can reach (it starts at 0 and only nests), the block runs inside a loop. */
  lemma BlockRunsInLoop<T, E>(depth: int, block: int -> Outcome<T, E>)
    requires depth >= 0
    ensures InLoop(depth + 1)
    ensures !InLoop(depth) ==> Nested(depth, block).result == block(1).result
  {
  }

  /** Nesting a balanced block is itself balanced, so nestings inside nestings compose. */
  lemma NestedBalanced<T, E>(block: int -> Outcome<T, E>)
    requires Balanced(block)
    ensures Balanced((depth: int) => Nested(depth, block))
  {
    forall depth: int
      ensures Nested(depth, block).depth == depth
    {
      assert block(depth + 1).depth == depth + 1;
    }
  }

  /** A balanced block is restored after a throw just as after a return. */
  lemma ThrowRestoresDepth<T, E>(depth: int, block: int -> Outcome<T, E>)
    requires Balanced(block) && block(depth + 1).result.Failure?
    ensures Nested(depth, block).result.Failure? && Nested(depth, block).depth == depth
  {
  }
}

/** The parse context, a value the parser threads through statement rules. */
module ParseContexts {
  import opened Wrappers
  import opened Nesting

  class ParseContext {
    var nestedLoops: int

    /** A fresh context is not in a loop. */
    constructor ()
      ensures nestedLoops == 0 && Valid() && !IsInLoop()
    {
      nestedLoops := 0;
    }

    /** The counter never drops below zero: it starts at 0 and every nesting restores it. */
    predicate Valid()
      reads this
    {
      nestedLoops >= 0
    }

    /** Whether the parser is inside at least one loop body: exactly when the counter is positive. */
    predicate IsInLoop()
      reads this
      ensures IsInLoop() <==> nestedLoops > 0
      ensures IsInLoop() ==> Valid()
    {
      InLoop(nestedLoops)
    }

    /** Raises the counter, runs `block` at that depth, then lowers the counter by one. */
    method NestLoop<T, E>(block: int -> Outcome<T, E>) returns (r: Result<T, E>)
      modifies this
      ensures Outcome(r, nestedLoops) == Nested(old(nestedLoops), block)
      ensures Balanced(block) ==> nestedLoops == old(nestedLoops)
      ensures old(Valid()) && Balanced(block) ==> Valid()
    {
      nestedLoops := nestedLoops + 1;
      var inner := block(nestedLoops);
      nestedLoops := inner.depth - 1;
      r := inner.result;
    }
  }
}
