/** Counters in variables of few bits. */
module Counters {

  /** What ++ makes of a counter of limit values. */
  function Bumped(c: nat, limit: nat): nat {
    if c + 1 == limit then 0 else c + 1
  }

  /** A counter of limit values, after t steps. */
  function Counter(t: nat, limit: nat): (c: nat)
    requires 0 < limit
    ensures c < limit && c <= t && (t < limit ==> c == t)
  {
    if t == 0 then 0 else Bumped(Counter(t - 1, limit), limit)
  }

  lemma CounterNext(t: nat, limit: nat)
    requires 0 < limit
    ensures Counter(t + 1, limit) == Bumped(Counter(t, limit), limit)
  {
  }
}
