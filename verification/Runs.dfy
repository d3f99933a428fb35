/** Runs of a deterministic step function, and the induction over them. */
module Runs {
  /** The state before event `n` of a run. */
  function At<S, E>(step: (S, E) -> S, start: S, run: seq<E>, n: nat): S
    requires n <= |run|
  {
    if n == 0 then start else step(At(step, start, run, n - 1), run[n - 1])
  }

  function End<S, E>(step: (S, E) -> S, start: S, run: seq<E>): S {
    At(step, start, run, |run|)
  }

  /** Every allowed event keeps the invariant. */
  ghost predicate Keeps<S(!new), E(!new)>(step: (S, E) -> S, allowed: (S, E) -> bool, inv: S -> bool) {
    forall s: S, e: E :: inv(s) && allowed(s, e) ==> inv(step(s, e))
  }

  /** The first `n` events of the run are allowed where they happen. */
  ghost predicate Allowed<S, E>(step: (S, E) -> S, allowed: (S, E) -> bool, start: S, run: seq<E>, n: nat)
    requires n <= |run|
  {
    forall i :: 0 <= i < n ==> allowed(At(step, start, run, i), run[i])
  }

  /** What every allowed step keeps holds from any point on at which it holds. */
  lemma {:induction false} AllFrom<S(!new), E(!new)>(step: (S, E) -> S, allowed: (S, E) -> bool,
      inv: S -> bool, start: S, run: seq<E>, i: nat, n: nat)
    requires i <= n <= |run| && inv(At(step, start, run, i)) && Keeps(step, allowed, inv)
    requires forall j :: i <= j < n ==> allowed(At(step, start, run, j), run[j])
    ensures forall j :: i <= j <= n ==> inv(At(step, start, run, j))
    decreases n
  {
    if i < n {
      AllFrom(step, allowed, inv, start, run, i, n - 1);
    }
  }

  /** What every allowed step keeps holds all along an allowed run. */
  lemma AllAlong<S(!new), E(!new)>(step: (S, E) -> S, allowed: (S, E) -> bool, inv: S -> bool, start: S,
      run: seq<E>, n: nat)
    requires n <= |run| && inv(start) && Keeps(step, allowed, inv) && Allowed(step, allowed, start, run, n)
    ensures forall i :: 0 <= i <= n ==> inv(At(step, start, run, i))
  {
    AllFrom(step, allowed, inv, start, run, 0, n);
  }

  /** The property holds from the start to the state before event `n`. */
  ghost predicate Throughout<S, E>(step: (S, E) -> S, inv: S -> bool, start: S, run: seq<E>, n: nat)
    requires n <= |run|
  {
    inv(At(step, start, run, n)) && (n > 0 ==> Throughout(step, inv, start, run, n - 1))
  }

  /** Of two properties of which one implies the other along the run, and which no step
      parts, both hold all along or neither does. */
  lemma {:induction false} Together<S(!new), E(!new)>(step: (S, E) -> S, p: S -> bool, q: S -> bool, start: S,
      run: seq<E>, n: nat)
    requires n <= |run| && p(start)
    requires forall s: S, e: E :: p(s) && q(step(s, e)) ==> p(step(s, e))
    requires forall i :: 0 <= i <= n ==> p(At(step, start, run, i)) ==> q(At(step, start, run, i))
    ensures Throughout(step, p, start, run, n) <==> Throughout(step, q, start, run, n)
  {
    if n > 0 {
      Together(step, p, q, start, run, n - 1);
    }
  }

  /** A longer run goes through the states of the shorter one. */
  lemma {:induction false} AtPrefix<S, E>(step: (S, E) -> S, start: S, run: seq<E>, more: seq<E>, n: nat)
    requires n <= |run|
    ensures At(step, start, run + more, n) == At(step, start, run, n)
  {
    if n > 0 {
      AtPrefix(step, start, run, more, n - 1);
    }
  }

  /** One more event at the end of an allowed run. */
  lemma OneMore<S, E>(step: (S, E) -> S, allowed: (S, E) -> bool, start: S, run: seq<E>, last: E)
    requires Allowed(step, allowed, start, run, |run|) && allowed(End(step, start, run), last)
    ensures Allowed(step, allowed, start, run + [last], |run| + 1)
    ensures End(step, start, run + [last]) == step(End(step, start, run), last)
  {
    forall i | 0 <= i <= |run|
      ensures At(step, start, run + [last], i) == At(step, start, run, i)
    {
      AtPrefix(step, start, run, [last], i);
    }
  }

  /** A run can be taken in two parts. */
  lemma {:induction false} AtAppend<S, E>(step: (S, E) -> S, start: S, run: seq<E>, more: seq<E>, n: nat)
    requires n <= |more|
    ensures At(step, start, run + more, |run| + n) == At(step, End(step, start, run), more, n)
  {
    if n == 0 {
      AtPrefix(step, start, run, more, |run|);
    } else {
      AtAppend(step, start, run, more, n - 1);
    }
  }

  /** The state after the first `n` rounds of events. */
  function AfterRounds<S, E>(step: (S, E) -> S, start: S, rounds: nat -> seq<E>, n: nat): S {
    if n == 0 then start else End(step, AfterRounds(step, start, rounds, n - 1), rounds(n - 1))
  }

  function Joined<E>(rounds: nat -> seq<E>, n: nat): seq<E> {
    if n == 0 then [] else Joined(rounds, n - 1) + rounds(n - 1)
  }

  /** Rounds are one run of all their events. */
  lemma {:induction false} RoundsJoin<S, E>(step: (S, E) -> S, start: S, rounds: nat -> seq<E>, n: nat)
    ensures AfterRounds(step, start, rounds, n) == End(step, start, Joined(rounds, n))
  {
    if n > 0 {
      RoundsJoin(step, start, rounds, n - 1);
      AtAppend(step, start, Joined(rounds, n - 1), rounds(n - 1), |rounds(n - 1)|);
    }
  }
}
