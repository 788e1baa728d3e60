/** Deterministic walks from state to state, with and without a limit on the number of turns. */
module Walks {

  datatype Step<S, R> = Go(next: S) | End(result: R)

  datatype Finish<S, R> = Ended(result: R) | OutOfTurns(state: S)

  ghost function Walk<S(!new), R(!new)>(step: S -> Step<S, R>, s: S, turns: nat): Finish<S, R> {
    if turns == 0 then OutOfTurns(s) else
      match step(s)
      case Go(t) => Walk(step, t, turns - 1)
      case End(r) => Ended(r)
  }

  lemma WalkGo<S(!new), R(!new)>(step: S -> Step<S, R>, s: S, t: S, turns: nat)
    requires turns > 0 && step(s) == Go(t)
    ensures Walk(step, s, turns) == Walk(step, t, turns - 1)
  {
  }

  lemma WalkEnd<S(!new), R(!new)>(step: S -> Step<S, R>, s: S, r: R, turns: nat)
    requires turns > 0 && step(s) == End(r)
    ensures Walk(step, s, turns) == Ended(r)
  {
  }

  // ----- what every turn keeps, the walk keeps

  ghost predicate Keeps<S(!new), R(!new)>(step: S -> Step<S, R>, good: S -> bool, done: R -> bool, s: S) {
    good(s) ==> match step(s) case Go(t) => good(t) case End(r) => done(r)
  }

  lemma {:induction false} WalkKeeps<S(!new), R(!new)>(step: S -> Step<S, R>, good: S -> bool, done: R -> bool, s: S,
                                                       turns: nat)
    requires good(s) && forall t :: Keeps(step, good, done, t)
    ensures match Walk(step, s, turns) case Ended(r) => done(r) case OutOfTurns(t) => good(t)
    decreases turns
  {
    if turns > 0 {
      assert Keeps(step, good, done, s);
      if step(s).Go? { WalkKeeps(step, good, done, step(s).next, turns - 1); }
    }
  }

  // ----- the length of a walk without a limit

  ghost predicate Falls<S(!new), R(!new)>(step: S -> Step<S, R>, rank: S -> nat, s: S) {
    step(s).Go? ==> rank(step(s).next) < rank(s)
  }

  ghost predicate AlwaysFalls<S(!new), R(!new)>(step: S -> Step<S, R>, rank: S -> nat) {
    forall s :: Falls(step, rank, s)
  }

  ghost function Moves<S(!new), R(!new)>(step: S -> Step<S, R>, rank: S -> nat, s: S): nat
    requires AlwaysFalls(step, rank)
    decreases rank(s)
  {
    assert Falls(step, rank, s);
    match step(s)
    case Go(t) => 1 + Moves(step, rank, t)
    case End(_) => 0
  }

  lemma {:induction false} MovesBound<S(!new), R(!new)>(step: S -> Step<S, R>, rank: S -> nat, s: S)
    requires AlwaysFalls(step, rank)
    ensures Moves(step, rank, s) <= rank(s)
    decreases rank(s)
  {
    assert Falls(step, rank, s);
    if step(s).Go? { MovesBound(step, rank, step(s).next); }
  }

  /** The limit cuts a walk short exactly if the walk has that many moves, and makes no other difference. */
  lemma {:induction false} OutOfTurnsIff<S(!new), R(!new)>(step: S -> Step<S, R>, rank: S -> nat, s: S, turns: nat,
                                                           more: nat)
    requires AlwaysFalls(step, rank) && turns <= more
    ensures Walk(step, s, turns).OutOfTurns? <==> Moves(step, rank, s) >= turns
    ensures Moves(step, rank, s) < turns ==> Walk(step, s, turns) == Walk(step, s, more)
    decreases turns
  {
    if turns > 0 {
      assert Falls(step, rank, s);
      if step(s).Go? { OutOfTurnsIff(step, rank, step(s).next, turns - 1, more - 1); }
    }
  }
}
