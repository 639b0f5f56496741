/**
 Runs of a state machine over a schedule of events, for both parallel searches. A machine
 is its step function; an event that cannot happen leaves the state as it is.
 */
module Schedules {

  function RunFrom<S, E>(step: (S, E) -> S, s: S, schedule: seq<E>): S {
    if schedule == [] then s
    else step(RunFrom(step, s, schedule[..|schedule| - 1]), schedule[|schedule| - 1])
  }

  /** The number of events in a schedule that change the state. */
  ghost function Moves<S, E>(step: (S, E) -> S, s: S, schedule: seq<E>): nat {
    if schedule == [] then 0
    else
      var init, e := schedule[..|schedule| - 1], schedule[|schedule| - 1];
      Moves(step, s, init) + (if step(RunFrom(step, s, init), e) == RunFrom(step, s, init) then 0 else 1)
  }

  lemma RunExtend<S, E>(step: (S, E) -> S, s: S, schedule: seq<E>, e: E)
    ensures RunFrom(step, s, schedule + [e]) == step(RunFrom(step, s, schedule), e)
  {
    assert (schedule + [e])[..|schedule|] == schedule;
  }

  lemma RunTwo<S, E>(step: (S, E) -> S, s: S, schedule: seq<E>, e1: E, e2: E)
    ensures RunFrom(step, s, schedule + [e1, e2]) == step(step(RunFrom(step, s, schedule), e1), e2)
  {
    RunExtend(step, s, schedule, e1);
    RunExtend(step, s, schedule + [e1], e2);
    assert schedule + [e1] + [e2] == schedule + [e1, e2];
  }

  lemma {:induction false} RunConcat<S, E>(step: (S, E) -> S, s: S, a: seq<E>, b: seq<E>)
    ensures RunFrom(step, s, a + b) == RunFrom(step, RunFrom(step, s, a), b)
  {
    if b == [] {
      assert a + b == a;
    } else {
      var init, e := b[..|b| - 1], b[|b| - 1];
      RunConcat(step, s, a, init);
      RunExtend(step, s, a + init, e);
      assert a + init + [e] == a + b;
    }
  }

  // ---------- what every step keeps, every run keeps ----------

  ghost predicate Keeps<S(!new), E(!new)>(step: (S, E) -> S, inv: S -> bool) {
    forall s: S, e: E :: inv(s) ==> inv(step(s, e))
  }

  lemma {:induction false} RunKeeps<S(!new), E(!new)>(step: (S, E) -> S, inv: S -> bool, s: S, schedule: seq<E>)
    requires Keeps(step, inv) && inv(s)
    ensures inv(RunFrom(step, s, schedule))
  {
    if schedule != [] {
      RunKeeps(step, inv, s, schedule[..|schedule| - 1]);
    }
  }

  // ---------- runs that end ----------

  /** How much of a total is still to come. */
  function Missing(total: nat, done: nat): nat {
    if done < total then total - done else 0
  }

  /** From a state that satisfies `inv`, every event that changes anything lowers `left`. */
  ghost predicate Descends<S(!new), E(!new)>(step: (S, E) -> S, inv: S -> bool, left: S -> nat) {
    forall s: S, e: E :: inv(s) ==> inv(step(s, e)) && (step(s, e) == s || left(step(s, e)) < left(s))
  }

  /** A schedule changes the state at most `left` times, whatever its length. */
  lemma {:induction false} MovesBounded<S(!new), E(!new)>(step: (S, E) -> S, inv: S -> bool, left: S -> nat,
                                                         s: S, schedule: seq<E>)
    requires Descends(step, inv, left) && inv(s)
    ensures inv(RunFrom(step, s, schedule))
    ensures Moves(step, s, schedule) + left(RunFrom(step, s, schedule)) <= left(s)
  {
    if schedule != [] {
      MovesBounded(step, inv, left, s, schedule[..|schedule| - 1]);
    }
  }

  /** Some event changes the state. */
  ghost predicate CanMove<S, E(!new)>(step: (S, E) -> S, s: S) {
    exists e: E :: step(s, e) != s
  }

  /** If a state that is not done can always move, then at most `left` events lead to the end. */
  lemma {:induction false} EndIsReached<S(!new), E(!new)>(step: (S, E) -> S, inv: S -> bool, left: S -> nat,
                                                         done: S -> bool, s: S)
    returns (schedule: seq<E>)
    requires Descends(step, inv, left) && inv(s)
    requires forall t :: inv(t) && !done(t) ==> CanMove(step, t)
    ensures |schedule| <= left(s) && done(RunFrom(step, s, schedule))
    decreases left(s)
  {
    if done(s) {
      schedule := [];
    } else {
      var e :| step(s, e) != s;
      var rest := EndIsReached(step, inv, left, done, step(s, e));
      RunConcat(step, s, [e], rest);
      assert RunFrom(step, s, [e]) == step(s, e) by {
        assert [e][..0] == [];
      }
      schedule := [e] + rest;
    }
  }
}
