/** The thread pool's contract as this project uses it: `threads::run` hands out every
    index of a partition exactly once, in no particular order, and returns when all of
    them are done. A loop that keeps picking any index still to do has these runs. */
module Threads {

  /** The indices of `StaticPartition(n)`, `DynamicPartition(n, _)` and `UnitRange(0, n)`. */
  function Indices(n: nat): (r: set<nat>)
    ensures forall i: nat :: i in r <==> i < n
    ensures |r| == n
  {
    if n == 0 then {} else Indices(n - 1) + {n - 1}
  }
}
