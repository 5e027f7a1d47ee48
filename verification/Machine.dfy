/** Runs of a machine that takes one event after the other: what it returned, and induction over its states. */
module Machine {

  /** The state after the first `n` events, and what was returned for each. */
  function RunOf<S, E, R>(step: (S, E) -> (S, R), s: S, events: seq<E>, n: nat): (S, seq<R>)
    requires n <= |events|
  {
    if n == 0 then (s, [])
    else
      var (before, out) := RunOf(step, s, events, n - 1);
      var (after, r) := step(before, events[n - 1]);
      (after, out + [r])
  }

  /** Event `i` is answered as the step from the state before it says. */
  lemma {:induction false} OutputAt<S, E, R>(step: (S, E) -> (S, R), s: S, events: seq<E>, n: nat, i: nat)
    requires i < n <= |events|
    ensures |RunOf(step, s, events, n).1| == n
    ensures RunOf(step, s, events, n).1[i] == step(RunOf(step, s, events, i).0, events[i]).1
  {
    if n - 1 > 0 { OutputAt(step, s, events, n - 1, if i < n - 1 then i else 0); }
  }

  /** What holds at the start and is kept by every step holds in every state of a run. */
  lemma {:induction false} Invariant<S(!new), E, R>(step: (S, E) -> (S, R), s: S, events: seq<E>, n: nat, inv: (nat, S) -> bool)
    requires n <= |events| && inv(0, s)
    requires forall k: nat, t: S | k < |events| && inv(k, t) :: inv(k + 1, step(t, events[k]).0)
    ensures inv(n, RunOf(step, s, events, n).0)
  {
    if n > 0 {
      Invariant(step, s, events, n - 1, inv);
      var before := RunOf(step, s, events, n - 1).0;
      assert inv(n - 1 + 1, step(before, events[n - 1]).0);
    }
  }
}
