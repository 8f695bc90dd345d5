/** Mutual exclusion. */
module Mutex {

  /** Exactly the holder of the lock, if there is one, stands where the lock is held. */
  ghost predicate Exclusive<Pc>(pc: seq<Pc>, holds: Pc -> bool, holder: int) {
    -1 <= holder < |pc| && forall i | 0 <= i < |pc| :: holds(pc[i]) <==> i == holder
  }

  /** One thread moves, and takes or gives up the lock as it does. */
  lemma ExclusiveStep<Pc>(pc: seq<Pc>, holds: Pc -> bool, holder: int, t: int, pc': Pc, holder': int)
    requires Exclusive(pc, holds, holder) && 0 <= t < |pc|
    requires if holds(pc') then holder' == t && (holder == t || holder == -1)
             else holder' == if holder == t then -1 else holder
    ensures Exclusive(pc[t := pc'], holds, holder')
  {
  }
}
