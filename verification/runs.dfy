/**
 Runs of a transition function: a sequence of events applied one after the
 other, each of which must be accepted by the state it meets. The session
 engine instantiates this with its own step function.
 */
module Runs {

  /** Every event of `evs` is accepted by the state the earlier events lead to. */
  ghost predicate AdmissibleRun<S, E>(step: (S, E) --> S, s: S, evs: seq<E>)
    decreases |evs|
  {
    evs == [] || (step.requires(s, evs[0]) && AdmissibleRun(step, step(s, evs[0]), evs[1..]))
  }

  /** The state reached by applying the events in order. */
  function Run<S, E>(step: (S, E) --> S, s: S, evs: seq<E>): S
    requires AdmissibleRun(step, s, evs)
    decreases |evs|
  {
    if evs == [] then s else Run(step, step(s, evs[0]), evs[1..])
  }

  /** A step function defined everywhere accepts every run. */
  lemma {:induction false} TotalRun<S, E>(step: (S, E) -> S, s: S, evs: seq<E>)
    ensures AdmissibleRun(step, s, evs)
    decreases |evs|
  {
    if evs != [] {
      TotalRun(step, step(s, evs[0]), evs[1..]);
    }
  }

  /** A run that starts with `e` is the step on `e` followed by the rest. */
  lemma RunCons<S, E>(step: (S, E) --> S, s: S, e: E, evs: seq<E>)
    requires step.requires(s, e) && AdmissibleRun(step, step(s, e), evs)
    ensures AdmissibleRun(step, s, [e] + evs)
    ensures Run(step, s, [e] + evs) == Run(step, step(s, e), evs)
  {
    assert ([e] + evs)[0] == e;
    assert ([e] + evs)[1..] == evs;
  }

  /** Running two event sequences one after the other is running their
      concatenation. */
  lemma {:induction false} RunAppend<S, E>(step: (S, E) --> S, s: S, x: seq<E>, y: seq<E>)
    requires AdmissibleRun(step, s, x) && AdmissibleRun(step, Run(step, s, x), y)
    ensures AdmissibleRun(step, s, x + y)
    ensures Run(step, s, x + y) == Run(step, Run(step, s, x), y)
    decreases |x|
  {
    if x == [] {
      assert x + y == y;
    } else {
      RunAppend(step, step(s, x[0]), x[1..], y);
      RunCons(step, s, x[0], x[1..] + y);
      assert x + y == [x[0]] + (x[1..] + y);
    }
  }

  /** Four events in a row, each accepted where it happens. */
  lemma RunFour<S, E>(step: (S, E) --> S, s: S, e0: E, e1: E, e2: E, e3: E)
    requires step.requires(s, e0) && step.requires(step(s, e0), e1)
    requires step.requires(step(step(s, e0), e1), e2)
    requires step.requires(step(step(step(s, e0), e1), e2), e3)
    ensures AdmissibleRun(step, s, [e0, e1, e2, e3])
    ensures Run(step, s, [e0, e1, e2, e3]) == step(step(step(step(s, e0), e1), e2), e3)
  {
    var s1 := step(s, e0);
    var s2 := step(s1, e1);
    var s3 := step(s2, e2);
    RunCons(step, s3, e3, []);
    assert [e3] + [] == [e3];
    RunCons(step, s2, e2, [e3]);
    RunCons(step, s1, e1, [e2] + [e3]);
    RunCons(step, s, e0, [e1] + ([e2] + [e3]));
    assert [e0] + ([e1] + ([e2] + [e3])) == [e0, e1, e2, e3];
  }

  /** Three events in a row, each accepted where it happens. */
  lemma RunThree<S, E>(step: (S, E) --> S, s: S, e0: E, e1: E, e2: E)
    requires step.requires(s, e0) && step.requires(step(s, e0), e1)
    requires step.requires(step(step(s, e0), e1), e2)
    ensures AdmissibleRun(step, s, [e0, e1, e2])
    ensures Run(step, s, [e0, e1, e2]) == step(step(step(s, e0), e1), e2)
  {
    RunTwo(step, step(s, e0), e1, e2);
    RunCons(step, s, e0, [e1, e2]);
    assert [e0] + [e1, e2] == [e0, e1, e2];
  }

  /** Two events in a row, each accepted where it happens. */
  lemma RunTwo<S, E>(step: (S, E) --> S, s: S, e0: E, e1: E)
    requires step.requires(s, e0) && step.requires(step(s, e0), e1)
    ensures AdmissibleRun(step, s, [e0, e1])
    ensures Run(step, s, [e0, e1]) == step(step(s, e0), e1)
  {
    RunCons(step, step(s, e0), e1, []);
    assert [e1] + [] == [e1];
    RunCons(step, s, e0, [e1]);
    assert [e0] + [e1] == [e0, e1];
  }
}
