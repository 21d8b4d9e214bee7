/**
 * Runs of a state machine given by its steps: a step yields the next state, or None where
 * the event cannot happen.
 */
module Runs {
  import opened Common

  /** The state after a run, or None if some event could not happen. */
  ghost function Run<S, E>(step: (S, E) -> Option<S>, s: S, es: seq<E>): Option<S>
    decreases |es|
  {
    if es == [] then Some(s)
    else
      var next := step(s, es[0]);
      if next.None? then None else Run(step, next.value, es[1..])
  }

  ghost predicate Reachable<S, E(!new)>(step: (S, E) -> Option<S>, start: S, s: S) {
    exists es: seq<E> :: Run(step, start, es) == Some(s)
  }

  lemma ReachStart<S, E(!new)>(step: (S, E) -> Option<S>, start: S)
    ensures Reachable(step, start, start)
  {
    assert Run(step, start, []) == Some(start);
  }

  lemma {:induction false} RunLast<S, E>(step: (S, E) -> Option<S>, s: S, es: seq<E>, e: E)
    requires Run(step, s, es).Some?
    ensures Run(step, s, es + [e]) == step(Run(step, s, es).value, e)
    decreases |es|
  {
    if es == [] {
      assert es + [e] == [e] && [e][1..] == [];
      var next := step(s, e);
      assert next.Some? ==> Run(step, next.value, []) == next;
    } else {
      assert (es + [e])[0] == es[0] && (es + [e])[1..] == es[1..] + [e];
      RunLast(step, step(s, es[0]).value, es[1..], e);
    }
  }

  lemma ReachStep<S, E(!new)>(step: (S, E) -> Option<S>, start: S, s: S, e: E) returns (t: S)
    requires Reachable(step, start, s) && step(s, e).Some?
    ensures Some(t) == step(s, e) && Reachable(step, start, t)
  {
    var es :| Run(step, start, es) == Some(s);
    t := step(s, e).value;
    RunLast(step, start, es, e);
  }

  /** What every step keeps, every run keeps. */
  lemma {:induction false} RunKeeps<S(!new), E(!new)>(step: (S, E) -> Option<S>, inv: S -> bool, s: S, es: seq<E>)
    requires inv(s) && Run(step, s, es).Some?
    requires forall t, e :: inv(t) && step(t, e).Some? ==> inv(step(t, e).value)
    ensures inv(Run(step, s, es).value)
    decreases |es|
  {
    if es != [] {
      RunKeeps(step, inv, step(s, es[0]).value, es[1..]);
    }
  }

  lemma ReachKeeps<S(!new), E(!new)>(step: (S, E) -> Option<S>, inv: S -> bool, start: S, s: S)
    requires inv(start) && Reachable(step, start, s)
    requires forall t, e :: inv(t) && step(t, e).Some? ==> inv(step(t, e).value)
    ensures inv(s)
  {
    var es :| Run(step, start, es) == Some(s);
    RunKeeps(step, inv, start, es);
  }
}
