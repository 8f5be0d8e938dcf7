/** Runs of a system of threads that take one atomic step at a time. `next(s, e)` is the state after event `e`, mostly a
    step of thread `e`, or None if that cannot happen in `s`; a run is given by the order of its events. */
module Runs {
  import opened Prelude

  function Run<S, E>(next: (S, E) -> Option<S>, s: S, sched: seq<E>): Option<S>
    decreases |sched|
  {
    if sched == [] then Some(s) else
    match Run(next, s, sched[..|sched| - 1])
    case None => None
    case Some(m) => next(m, sched[|sched| - 1])
  }

  /** Some run leads from `s` to `s'`. */
  ghost predicate Leads<S, E(!new)>(next: (S, E) -> Option<S>, s: S, s': S) {
    exists sched :: Run(next, s, sched) == Some(s')
  }

  lemma {:induction false} RunConcat<S, E>(next: (S, E) -> Option<S>, s: S, a: seq<E>, b: seq<E>)
    requires Run(next, s, a).Some?
    ensures Run(next, s, a + b) == Run(next, Run(next, s, a).value, b)
    decreases |b|
  {
    if b == [] {
      assert a + b == a;
    } else {
      var front := b[..|b| - 1];
      assert (a + b)[..|a + b| - 1] == a + front;
      RunConcat(next, s, a, front);
    }
  }

  lemma LeadsRefl<S, E(!new)>(next: (S, E) -> Option<S>, s: S)
    ensures Leads(next, s, s)
  {
    assert Run(next, s, []) == Some(s);
  }

  lemma LeadsTrans<S, E(!new)>(next: (S, E) -> Option<S>, s: S, m: S, s': S)
    requires Leads(next, s, m) && Leads(next, m, s')
    ensures Leads(next, s, s')
  {
    var a :| Run(next, s, a) == Some(m);
    var b :| Run(next, m, b) == Some(s');
    RunConcat(next, s, a, b);
  }

  /** One more step at the end of a run. */
  lemma LeadsStep<S, E(!new)>(next: (S, E) -> Option<S>, s: S, m: S, e: E, s': S)
    requires Leads(next, s, m) && next(m, e) == Some(s')
    ensures Leads(next, s, s')
  {
    var a :| Run(next, s, a) == Some(m);
    assert (a + [e])[..|a|] == a;
    assert Run(next, s, a + [e]) == Some(s');
  }

  /** What holds at the start and is kept by every step holds after every run. */
  lemma {:induction false} Invariant<S(!new), E(!new)>(next: (S, E) -> Option<S>, inv: S -> bool, s: S, sched: seq<E>)
    requires inv(s) && Run(next, s, sched).Some?
    requires forall m, e :: inv(m) && next(m, e).Some? ==> inv(next(m, e).value)
    ensures inv(Run(next, s, sched).value)
    decreases |sched|
  {
    if sched != [] {
      Invariant(next, inv, s, sched[..|sched| - 1]);
    }
  }
}
