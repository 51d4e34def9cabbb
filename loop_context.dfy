/** The loop parse context: the same nesting counter as the parse context, as a type of its own. */
module LoopContexts {
  import opened Wrappers
  import opened Nesting

  class LoopParseContext {
    var nestedLoops: int

    /** A fresh context is not in a loop. */
    constructor ()
      ensures nestedLoops == 0 && Valid() && !IsInLoop()
    {
      nestedLoops := 0;
    }

    /** The counter never drops below zero: it starts at 0 and every nesting restores it. */
    predicate Valid()
      reads this
    {
      nestedLoops >= 0
    }

    /** Whether the parser is inside at least one loop body: exactly when the counter is positive. */
    predicate IsInLoop()
      reads this
      ensures IsInLoop() <==> nestedLoops > 0
      ensures IsInLoop() ==> Valid()
    {
      InLoop(nestedLoops)
    }

    /** Raises the counter, runs `block` at that depth, then lowers the counter by one. */
    method NestLoop<T, E>(block: int -> Outcome<T, E>) returns (r: Result<T, E>)
      modifies this
      ensures Outcome(r, nestedLoops) == Nested(old(nestedLoops), block)
      ensures Balanced(block) ==> nestedLoops == old(nestedLoops)
      ensures old(Valid()) && Balanced(block) ==> Valid()
    {
      nestedLoops := nestedLoops + 1;
      var inner := block(nestedLoops);
      nestedLoops := inner.depth - 1;
      r := inner.result;
    }
  }
}
