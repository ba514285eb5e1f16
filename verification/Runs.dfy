/** Runs of a state machine, over any states and events. */
module Runs {

  function RunAll<S, E>(step: (S, E) -> S, x: S, es: seq<E>): S
    decreases |es|
  {
    if es == [] then x else RunAll(step, step(x, es[0]), es[1..])
  }

  function Repeat<E>(e: E, f: E, n: nat): seq<E> {
    if n == 0 then [] else [e, f] + Repeat(e, f, n - 1)
  }

  /** What a pair of events carries from `k` to `k + 1`, `n` pairs carry from `k` to `k + n`. */
  lemma {:induction false} Repeated<S(!new), E>(
      step: (S, E) -> S, x: S, e: E, f: E, k: nat, n: nat, holds: (S, nat) -> bool)
    requires holds(x, k)
    requires forall y, j: nat :: holds(y, j) ==> holds(step(step(y, e), f), j + 1)
    ensures holds(RunAll(step, x, Repeat(e, f, n)), k + n)
    decreases n
  {
    if n == 0 {
    } else {
      var rest := Repeat(e, f, n - 1);
      assert ([e, f] + rest)[1..] == [f] + rest && ([f] + rest)[1..] == rest;
      Repeated(step, step(step(x, e), f), e, f, k + 1, n - 1, holds);
    }
  }
}
