/** Runs of a nondeterministic system whose atomic steps are labelled with events.
    `step(s, e)` is None when the event `e` cannot happen in state `s`, so an interleaving of
    any number of actors is just a list of events that `Run` accepts. */
module Runs {
  import opened Basics

  function Run<S, E>(step: (S, E) -> Option<S>, s: S, events: seq<E>): Option<S>
  {
    if events == [] then Some(s)
    else match step(s, events[0])
      case None => None
      case Some(t) => Run(step, t, events[1..])
  }

  /** A property that every enabled step keeps holds at the end of every run. */
  lemma {:induction false} RunKeeps<S(!new), E(!new)>(
    step: (S, E) -> Option<S>, inv: S -> bool, s: S, events: seq<E>)
    requires inv(s)
    requires forall t, e {:trigger step(t, e)} :: inv(t) && step(t, e).Some? ==> inv(step(t, e).value)
    ensures Run(step, s, events).Some? ==> inv(Run(step, s, events).value)
    decreases |events|
  {
    if events != [] && step(s, events[0]).Some? {
      RunKeeps(step, inv, step(s, events[0]).value, events[1..]);
    }
  }

  /** A reflexive and transitive relation that every enabled step from an `inv` state respects
      relates the first and the last state of every run. */
  lemma {:induction false} RunRelates<S(!new), E(!new)>(
    step: (S, E) -> Option<S>, inv: S -> bool, rel: (S, S) -> bool, s: S, events: seq<E>)
    requires inv(s)
    requires forall t, e {:trigger step(t, e)} :: inv(t) && step(t, e).Some? ==>
        inv(step(t, e).value) && rel(t, step(t, e).value)
    requires forall t :: rel(t, t)
    requires forall t, u, v :: rel(t, u) && rel(u, v) ==> rel(t, v)
    ensures Run(step, s, events).Some? ==> rel(s, Run(step, s, events).value)
    decreases |events|
  {
    if events != [] && step(s, events[0]).Some? {
      RunRelates(step, inv, rel, step(s, events[0]).value, events[1..]);
    }
  }

  lemma {:induction false} RunSnoc<S, E>(step: (S, E) -> Option<S>, s: S, events: seq<E>, e: E)
    requires Run(step, s, events).Some?
    ensures Run(step, s, events + [e]) == step(Run(step, s, events).value, e)
    decreases |events|
  {
    if events == [] {
      assert Run(step, step(s, e).GetOr(s), []) == Some(step(s, e).GetOr(s));
    } else {
      assert (events + [e])[1..] == events[1..] + [e];
      RunSnoc(step, step(s, events[0]).value, events[1..], e);
    }
  }

  lemma RunFirst<S, E>(step: (S, E) -> Option<S>, s: S, e: E, rest: seq<E>)
    requires step(s, e).Some?
    ensures Run(step, s, [e] + rest) == Run(step, step(s, e).value, rest)
  {
    assert ([e] + rest)[1..] == rest;
  }

  lemma RunOne<S, E>(step: (S, E) -> Option<S>, s: S, e: E)
    ensures Run(step, s, []) == Some(s) && Run(step, s, [e]) == step(s, e)
  {
    if step(s, e).Some? {
      assert Run(step, step(s, e).value, []) == step(s, e);
    }
  }

  lemma RunTwo<S, E>(step: (S, E) -> Option<S>, s: S, e1: E, s1: S, e2: E)
    requires step(s, e1) == Some(s1)
    ensures Run(step, s, [e1, e2]) == step(s1, e2)
  {
    assert [e1, e2] == [e1] + [e2];
    RunFirst(step, s, e1, [e2]);
    RunOne(step, s1, e2);
  }

  lemma RunThree<S, E>(step: (S, E) -> Option<S>, s: S, e1: E, s1: S, e2: E, s2: S, e3: E)
    requires step(s, e1) == Some(s1) && step(s1, e2) == Some(s2)
    ensures Run(step, s, [e1, e2, e3]) == step(s2, e3)
  {
    assert [e1, e2, e3] == [e1] + [e2, e3];
    RunFirst(step, s, e1, [e2, e3]);
    RunTwo(step, s1, e2, s2, e3);
  }

  lemma RunFour<S, E>(step: (S, E) -> Option<S>, s: S, e1: E, s1: S, e2: E, s2: S, e3: E, s3: S, e4: E)
    requires step(s, e1) == Some(s1) && step(s1, e2) == Some(s2) && step(s2, e3) == Some(s3)
    ensures Run(step, s, [e1, e2, e3, e4]) == step(s3, e4)
  {
    assert [e1, e2, e3, e4] == [e1] + [e2, e3, e4];
    RunFirst(step, s, e1, [e2, e3, e4]);
    RunThree(step, s1, e2, s2, e3, s3, e4);
  }
}
