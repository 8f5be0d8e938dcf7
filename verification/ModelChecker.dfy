/** The explicit-state model checker of model-checker.py: replaying a trace and searching all interleavings. */
module ModelChecker {
  import opened Prelude

  type Tid = int
  type Trace = seq<Tid>

  /** The object under test and its threads: each thread is a suspended generator, or None once it has returned. */
  datatype Config<A, L> = Config(attrs: A, threads: seq<Option<L>>)

  /** A class under test. `resume` runs one thread from its `yield` to the next one or to its end (None); `name` is the
      name of the frozen state, which sees only part of a configuration. */
  datatype Class<!A, !L, !N> = Class(init: Config<A, L>, resume: (A, L, Tid) -> (A, Option<L>),
                                     name: Config<A, L> -> N)
  {
    function Threads(): nat { |init.threads| }
  }

  datatype State<A, L> = State(trace: Trace, config: Config<A, L>)

  datatype Edge<A, L> = Edge(from: State<A, L>, to: State<A, L>, chosen: Tid)

  // ---------- Meaning of a trace ----------

  /** The position that a list index means in Python, or None if it raises. */
  function Index(n: nat, t: Tid): Option<nat> {
    if 0 <= t < n then Some(t) else if t < 0 <= t + n then Some(t + n) else None
  }

  function Step<A, L, N>(c: Class<A, L, N>, s: Config<A, L>, t: Tid): Config<A, L> {
    match Index(|s.threads|, t)
    case None => s
    case Some(i) =>
      if s.threads[i].None? then s else
      var (attrs, local) := c.resume(s.attrs, s.threads[i].value, i);
      Config(attrs, s.threads[i := local])
  }

  function Replay<A, L, N>(c: Class<A, L, N>, trace: Trace): Config<A, L> {
    if trace == [] then c.init else Step(c, Replay(c, trace[..|trace| - 1]), trace[|trace| - 1])
  }

  function Name<A, L, N>(c: Class<A, L, N>, trace: Trace): N { c.name(Replay(c, trace)) }

  function NameOf<A, L, N>(c: Class<A, L, N>, s: State<A, L>): N { c.name(s.config) }

  /** A trace chooses among the threads of the class. */
  predicate IsTrace<A, L, N>(c: Class<A, L, N>, trace: Trace) {
    forall i :: 0 <= i < |trace| ==> 0 <= trace[i] < c.Threads()
  }

  /** What the checker takes for granted: equal names stand for states that behave equally. */
  ghost predicate NamesDetermine<A, L, N>(c: Class<A, L, N>) {
    forall tr: Trace, tr': Trace, t: Tid ::
      IsTrace(c, tr) && IsTrace(c, tr') && 0 <= t < c.Threads() && Name(c, tr) == Name(c, tr') ==>
      Name(c, tr + [t]) == Name(c, tr' + [t])
  }

  ghost predicate IsState<A, L, N>(c: Class<A, L, N>, s: State<A, L>) {
    IsTrace(c, s.trace) && s.config == Replay(c, s.trace)
  }

  lemma ReplayMore<A, L, N>(c: Class<A, L, N>, trace: Trace, t: Tid)
    ensures Replay(c, trace + [t]) == Step(c, Replay(c, trace), t)
  {
    assert (trace + [t])[..|trace|] == trace;
  }

  /** Some choice of the trace is no index into the threads. */
  predicate Raises<A, L, N>(c: Class<A, L, N>, trace: Trace) {
    exists i :: 0 <= i < |trace| && Index(c.Threads(), trace[i]).None?
  }

  lemma {:induction false} ReplayKeepsThreads<A, L, N>(c: Class<A, L, N>, trace: Trace)
    ensures |Replay(c, trace).threads| == c.Threads()
    decreases |trace|
  {
    if trace != [] {
      ReplayKeepsThreads(c, trace[..|trace| - 1]);
    }
  }

  /** A choice resumes the thread of that number, with its own local state and number, unless it has returned; no other
      thread moves. */
  lemma ChoiceResumesThread<A, L, N>(c: Class<A, L, N>, trace: Trace, t: Tid)
    requires 0 <= t < c.Threads()
    ensures var s, s' := Replay(c, trace), Replay(c, trace + [t]);
            && |s.threads| == |s'.threads| == c.Threads()
            && (forall i :: 0 <= i < c.Threads() && i != t ==> s'.threads[i] == s.threads[i])
            && match s.threads[t]
               case None => s' == s
               case Some(l) => (s'.attrs, s'.threads[t]) == c.resume(s.attrs, l, t)
  {
    ReplayMore(c, trace, t);
    ReplayKeepsThreads(c, trace);
  }

  /** A negative choice counts from the last thread back, as Python indexes a list. */
  lemma NegativeChoice<A, L, N>(c: Class<A, L, N>, trace: Trace, t: Tid)
    requires t < 0 <= c.Threads() + t
    ensures Replay(c, trace + [t]) == Replay(c, trace + [c.Threads() + t])
  {
    ReplayMore(c, trace, t);
    ReplayMore(c, trace, c.Threads() + t);
    ReplayKeepsThreads(c, trace);
  }

  /** Exactly a choice out of the range of list indices raises. */
  lemma RaisesExactly<A, L, N>(c: Class<A, L, N>, trace: Trace)
    ensures Raises(c, trace) <==>
              exists i :: 0 <= i < |trace| && (trace[i] >= c.Threads() || c.Threads() + trace[i] < 0)
  {
  }

  /** `execute`: starts the class afresh and replays the whole trace; None if an index raises. */
  method Execute<A, L, N>(c: Class<A, L, N>, trace: Trace) returns (r: Option<Config<A, L>>)
    ensures r == if Raises(c, trace) then None else Some(Replay(c, trace))
  {
    var s := c.init;
    var rest := trace;
    ghost var done: Trace := [];
    while rest != []
      invariant done + rest == trace
      invariant s == Replay(c, done) && !Raises(c, done)
    {
      var chosen := rest[0];
      assert chosen == trace[|done|];
      rest := rest[1..];
      ReplayMore(c, done, chosen);
      ReplayKeepsThreads(c, done);
      var t := Index(|s.threads|, chosen);
      if t.None? {
        return None;
      }
      if s.threads[t.value].Some? {
        var (attrs, local) := c.resume(s.attrs, s.threads[t.value].value, t.value);
        s := Config(attrs, s.threads[t.value := local]);
      }
      done := done + [chosen];
    }
    assert done == trace;
    r := Some(s);
  }

  // ---------- Breadth-first search ----------

  type Vertices<A, L, !N> = map<N, State<A, L>>

  /** `vertices` holds `s` under its name. */
  ghost predicate Holds<A, L, N>(c: Class<A, L, N>, vertices: Vertices<A, L, N>, s: State<A, L>) {
    NameOf(c, s) in vertices && vertices[NameOf(c, s)] == s
  }

  /** `vertices` holds exactly the states found, which are listed in order of discovery, once per name. */
  ghost predicate Found<A, L, N>(c: Class<A, L, N>, found: seq<State<A, L>>, vertices: Vertices<A, L, N>) {
    && (forall i :: 0 <= i < |found| ==> IsState(c, found[i]))
    && (forall i :: 0 <= i < |found| ==> Holds(c, vertices, found[i]))
    && (forall k :: k in vertices ==> vertices[k] in found && k == NameOf(c, vertices[k]))
    && (forall i, j :: 0 <= i < j < |found| ==> NameOf(c, found[i]) != NameOf(c, found[j]))
  }

  /** Discovery goes by trace length, and never more than one ahead of the state at position `at`. */
  ghost predicate InLevels<A, L>(found: seq<State<A, L>>, at: nat) {
    && (forall i, j :: 0 <= i <= j < |found| ==> |found[i].trace| <= |found[j].trace|)
    && (at < |found| ==> forall i :: 0 <= i < |found| ==> |found[i].trace| <= |found[at].trace| + 1)
  }

  /** `trace` is `front` with one more step. */
  predicate Extends(front: Trace, trace: Trace) { |trace| == |front| + 1 && trace[..|front|] == front }

  /** A state was found at the start or by one step from a state found before it. */
  ghost predicate IsDiscovered<A, L>(found: seq<State<A, L>>, i: nat)
    requires i < |found|
  {
    found[i].trace == [] || exists j :: 0 <= j < i && Extends(found[j].trace, found[i].trace)
  }

  ghost predicate Discovered<A, L>(found: seq<State<A, L>>) { forall i :: 0 <= i < |found| ==> IsDiscovered(found, i) }

  lemma AddDiscovered<A, L>(found: seq<State<A, L>>, at: nat, v: State<A, L>)
    requires Discovered(found) && at < |found| && Extends(found[at].trace, v.trace)
    ensures Discovered(found + [v])
  {
    forall i | 0 <= i < |found + [v]| ensures IsDiscovered(found + [v], i) {
      if i < |found| && found[i].trace != [] {
        assert IsDiscovered(found, i);
        var j :| 0 <= j < i && Extends(found[j].trace, found[i].trace);
        assert (found + [v])[j] == found[j];
      } else if i == |found| {
        assert (found + [v])[at] == found[at];
      }
    }
  }

  /** The successor of `u` by thread `t` has been found, by a trace at most one longer than that of `u`. */
  ghost predicate Expanded<A, L, N>(c: Class<A, L, N>, vertices: Vertices<A, L, N>, u: State<A, L>, t: Tid) {
    var k := Name(c, u.trace + [t]);
    k in vertices && |vertices[k].trace| <= |u.trace| + 1
  }

  /** The first `n` threads of `u` have been expanded. */
  ghost predicate ExpandedTo<A, L, N>(c: Class<A, L, N>, vertices: Vertices<A, L, N>, u: State<A, L>, n: nat) {
    forall t :: 0 <= t < n ==> Expanded(c, vertices, u, t)
  }

  ghost predicate Grows<A, L, N>(vertices: Vertices<A, L, N>, vertices': Vertices<A, L, N>) {
    forall k :: k in vertices ==> k in vertices' && vertices'[k] == vertices[k]
  }

  lemma StaysExpanded<A, L, N>(c: Class<A, L, N>, vertices: Vertices<A, L, N>, vertices': Vertices<A, L, N>,
                               u: State<A, L>, n: nat)
    requires ExpandedTo(c, vertices, u, n) && Grows(vertices, vertices')
    ensures ExpandedTo(c, vertices', u, n)
  {
    forall t | 0 <= t < n ensures Expanded(c, vertices', u, t) {
      assert Expanded(c, vertices, u, t);
    }
  }

  ghost function EdgeFrom<A, L, N>(c: Class<A, L, N>, u: State<A, L>, t: Tid): Edge<A, L> {
    Edge(u, State(u.trace + [t], Replay(c, u.trace + [t])), t)
  }

  /** The edges out of `u` for the first `n` threads, and those out of all of `us`. */
  ghost function EdgesFrom<A, L, N>(c: Class<A, L, N>, u: State<A, L>, n: nat): seq<Edge<A, L>> {
    if n == 0 then [] else EdgesFrom(c, u, n - 1) + [EdgeFrom(c, u, n - 1)]
  }

  ghost function EdgesOf<A, L, N>(c: Class<A, L, N>, us: seq<State<A, L>>): seq<Edge<A, L>> {
    if us == [] then [] else EdgesOf(c, us[..|us| - 1]) + EdgesFrom(c, us[|us| - 1], c.Threads())
  }

  lemma AddState<A, L, N>(c: Class<A, L, N>, found: seq<State<A, L>>, vertices: Vertices<A, L, N>, v: State<A, L>)
    requires Found(c, found, vertices) && IsState(c, v) && NameOf(c, v) !in vertices
    ensures Found(c, found + [v], vertices[NameOf(c, v) := v])
    ensures Grows(vertices, vertices[NameOf(c, v) := v])
  {
    var found', vertices' := found + [v], vertices[NameOf(c, v) := v];
    forall i | 0 <= i < |found'| ensures IsState(c, found'[i]) && Holds(c, vertices', found'[i]) {
      if i < |found| {
        assert IsState(c, found[i]) && Holds(c, vertices, found[i]);
      }
    }
    forall i, j | 0 <= i < j < |found'| ensures NameOf(c, found'[i]) != NameOf(c, found'[j]) {
      assert Holds(c, vertices, found[i]);
    }
    forall k | k in vertices' ensures vertices'[k] in found' && k == NameOf(c, vertices'[k]) {
      if k == NameOf(c, v) {
        assert found'[|found|] == v;
      }
    }
  }

  lemma AddLevel<A, L>(found: seq<State<A, L>>, at: nat, v: State<A, L>)
    requires at < |found| && InLevels(found, at) && |v.trace| == |found[at].trace| + 1
    ensures InLevels(found + [v], at)
  {
  }

  lemma ExpandOneMore<A, L, N>(c: Class<A, L, N>, vertices: Vertices<A, L, N>, u: State<A, L>, n: nat)
    requires ExpandedTo(c, vertices, u, n) && Expanded(c, vertices, u, n)
    ensures ExpandedTo(c, vertices, u, n + 1)
  {
  }

  lemma EdgeAppended<A, L, N>(c: Class<A, L, N>, u: State<A, L>, n: nat, edges: seq<Edge<A, L>>)
    ensures edges + EdgesFrom(c, u, n) + [EdgeFrom(c, u, n)] == edges + EdgesFrom(c, u, n + 1)
  {
  }

  lemma DropAppended<T>(s: seq<T>, x: T, n: nat)
    requires n <= |s|
    ensures (s + [x])[n..] == s[n..] + [x]
  {
  }

  /** The search has reached position `at` of the states found; the queue is what comes after it. */
  ghost predicate Searching<A, L, N>(c: Class<A, L, N>, found: seq<State<A, L>>, at: nat, queue: seq<State<A, L>>,
                                     vertices: Vertices<A, L, N>) {
    at < |found| && found[at + 1..] == queue && Found(c, found, vertices) && InLevels(found, at) && Discovered(found)
  }

  /** How the search may have gone on from `found`, `queue` and `vertices`. */
  ghost predicate Later<A, L, N>(found: seq<State<A, L>>, queue: seq<State<A, L>>, vertices: Vertices<A, L, N>,
                                 found': seq<State<A, L>>, queue': seq<State<A, L>>, vertices': Vertices<A, L, N>) {
    found <= found' && Grows(vertices, vertices') && (queue' == queue || vertices'.Keys > vertices.Keys)
  }

  lemma LaterTrans<A, L, N>(f1: seq<State<A, L>>, q1: seq<State<A, L>>, v1: Vertices<A, L, N>,
                            f2: seq<State<A, L>>, q2: seq<State<A, L>>, v2: Vertices<A, L, N>,
                            f3: seq<State<A, L>>, q3: seq<State<A, L>>, v3: Vertices<A, L, N>)
    requires Later(f1, q1, v1, f2, q2, v2) && Later(f2, q2, v2, f3, q3, v3)
    ensures Later(f1, q1, v1, f3, q3, v3)
  {
  }

  lemma Discover<A, L, N>(c: Class<A, L, N>, found: seq<State<A, L>>, at: nat, queue: seq<State<A, L>>,
                          vertices: Vertices<A, L, N>, v: State<A, L>)
    requires Searching(c, found, at, queue, vertices) && IsState(c, v) && NameOf(c, v) !in vertices
    requires Extends(found[at].trace, v.trace)
    ensures var vertices' := vertices[NameOf(c, v) := v];
            && Searching(c, found + [v], at, queue + [v], vertices')
            && Later(found, queue, vertices, found + [v], queue + [v], vertices')
  {
    AddState(c, found, vertices, v);
    AddLevel(found, at, v);
    AddDiscovered(found, at, v);
    DropAppended(found, v, at + 1);
    assert NameOf(c, v) in vertices[NameOf(c, v) := v].Keys;
  }

  lemma KnownIsNoLonger<A, L, N>(c: Class<A, L, N>, found: seq<State<A, L>>, at: nat, vertices: Vertices<A, L, N>, k: N)
    requires at < |found| && Found(c, found, vertices) && InLevels(found, at) && k in vertices
    ensures |vertices[k].trace| <= |found[at].trace| + 1
  {
    assert vertices[k] in found;
  }

  /** One thread of one vertex: the state after `u` by `chosen` is queued unless its name is known. */
  method Visit<A, L, N(==)>(c: Class<A, L, N>, u: State<A, L>, chosen: Tid, queue0: seq<State<A, L>>,
                            vertices0: Vertices<A, L, N>, ghost at: nat, ghost found0: seq<State<A, L>>)
    returns (v: State<A, L>, queue: seq<State<A, L>>, vertices: Vertices<A, L, N>, ghost found: seq<State<A, L>>)
    requires Searching(c, found0, at, queue0, vertices0) && found0[at] == u && IsState(c, u)
    requires 0 <= chosen < c.Threads()
    ensures Searching(c, found, at, queue, vertices) && Later(found0, queue0, vertices0, found, queue, vertices)
    ensures Expanded(c, vertices, u, chosen) && Edge(u, v, chosen) == EdgeFrom(c, u, chosen)
    ensures if Name(c, v.trace) in vertices0 then found == found0 && queue == queue0 && vertices == vertices0
            else found == found0 + [v] && queue == queue0 + [v] && vertices == vertices0[Name(c, v.trace) := v]
  {
    var config := Execute(c, u.trace + [chosen]);
    v := State(u.trace + [chosen], config.value);
    if c.name(v.config) !in vertices0 {
      Discover(c, found0, at, queue0, vertices0, v);
      queue := queue0 + [v];
      vertices := vertices0[c.name(v.config) := v];
      found := found0 + [v];
    } else {
      queue, vertices, found := queue0, vertices0, found0;
      KnownIsNoLonger(c, found, at, vertices, c.name(v.config));
    }
  }

  /** The body of the search loop: one round of all threads from `u`, which is `found0[at]`. */
  method Expand<A, L, N(==)>(c: Class<A, L, N>, u: State<A, L>, queue0: seq<State<A, L>>, vertices0: Vertices<A, L, N>,
                             edges0: seq<Edge<A, L>>, ghost at: nat, ghost found0: seq<State<A, L>>)
    returns (queue: seq<State<A, L>>, vertices: Vertices<A, L, N>, edges: seq<Edge<A, L>>,
             ghost found: seq<State<A, L>>)
    requires Searching(c, found0, at, queue0, vertices0) && found0[at] == u && IsState(c, u)
    ensures Searching(c, found, at, queue, vertices) && Later(found0, queue0, vertices0, found, queue, vertices)
    ensures ExpandedTo(c, vertices, u, c.Threads())
    ensures edges == edges0 + EdgesFrom(c, u, c.Threads())
  {
    hide Replay, Found, InLevels, Expanded;
    queue, vertices, edges, found := queue0, vertices0, edges0, found0;
    var chosen := 0;
    assert edges0 + [] == edges0;
    while chosen < |c.init.threads|
      invariant 0 <= chosen <= |c.init.threads|
      invariant Searching(c, found, at, queue, vertices) && Later(found0, queue0, vertices0, found, queue, vertices)
      invariant ExpandedTo(c, vertices, u, chosen)
      invariant edges == edges0 + EdgesFrom(c, u, chosen)
    {
      ghost var queue1, vertices1, found1 := queue, vertices, found;
      var v;
      v, queue, vertices, found := Visit(c, u, chosen, queue, vertices, at, found);
      LaterTrans(found0, queue0, vertices0, found1, queue1, vertices1, found, queue, vertices);
      StaysExpanded(c, vertices1, vertices, u, chosen);
      ExpandOneMore(c, vertices, u, chosen);
      EdgeAppended(c, u, chosen, edges0);
      edges := edges + [Edge(u, v, chosen)];
      chosen := chosen + 1;
    }
  }

  ghost predicate AllExpanded<A, L, N>(c: Class<A, L, N>, vertices: Vertices<A, L, N>, us: seq<State<A, L>>) {
    forall i :: 0 <= i < |us| ==> ExpandedTo(c, vertices, us[i], c.Threads())
  }

  /** The state of the outer loop: `order` has been expanded, `queue` has not, and both together are what was found. */
  ghost predicate Between<A, L, N>(c: Class<A, L, N>, order: seq<State<A, L>>, queue: seq<State<A, L>>,
                                   found: seq<State<A, L>>, vertices: Vertices<A, L, N>) {
    && order + queue == found && Found(c, found, vertices) && InLevels(found, |order|) && Discovered(found)
    && AllExpanded(c, vertices, order)
  }

  lemma StartRound<A, L, N>(c: Class<A, L, N>, order: seq<State<A, L>>, queue: seq<State<A, L>>,
                            found: seq<State<A, L>>, vertices: Vertices<A, L, N>)
    requires Between(c, order, queue, found, vertices) && queue != []
    ensures Searching(c, found, |order|, queue[1..], vertices) && found[|order|] == queue[0] && IsState(c, queue[0])
  {
    assert IsState(c, found[|order|]);
  }

  lemma MoveHead<T>(order: seq<T>, found0: seq<T>, found: seq<T>, queue: seq<T>)
    requires |order| < |found0| && found0 <= found && found0[..|order|] == order && found[|order| + 1..] == queue
    ensures order + [found0[|order|]] + queue == found && (order + [found0[|order|]])[..|order|] == order
  {
    var at := |order|;
    assert found == found[..at] + [found[at]] + found[at + 1..];
    assert found[..at] == found0[..at];
  }

  lemma LevelsMoveOn<A, L>(found: seq<State<A, L>>, at: nat)
    requires at < |found| && InLevels(found, at)
    ensures InLevels(found, at + 1)
  {
  }

  lemma EndRound<A, L, N>(c: Class<A, L, N>, order: seq<State<A, L>>, queue0: seq<State<A, L>>,
                          found0: seq<State<A, L>>, vertices0: Vertices<A, L, N>,
                          queue: seq<State<A, L>>, found: seq<State<A, L>>,
                          vertices: Vertices<A, L, N>, u: State<A, L>)
    requires Between(c, order, queue0, found0, vertices0) && queue0 != [] && u == queue0[0]
    requires Searching(c, found, |order|, queue, vertices)
    requires Later(found0, queue0[1..], vertices0, found, queue, vertices)
    requires ExpandedTo(c, vertices, u, c.Threads())
    ensures Between(c, order + [u], queue, found, vertices)
  {
    hide Replay, Found, InLevels, ExpandedTo, Expanded, Grows;
    MoveHead(order, found0, found, queue);
    LevelsMoveOn(found, |order|);
    ExpandedRound(c, order, vertices0, vertices, u);
    hide AllExpanded;
  }

  lemma ExpandedRound<A, L, N>(c: Class<A, L, N>, order: seq<State<A, L>>, vertices0: Vertices<A, L, N>,
                               vertices: Vertices<A, L, N>, u: State<A, L>)
    requires AllExpanded(c, vertices0, order) && Grows(vertices0, vertices) && ExpandedTo(c, vertices, u, c.Threads())
    ensures AllExpanded(c, vertices, order + [u])
  {
    hide Replay, ExpandedTo, Grows;
    forall i | 0 <= i < |order| ensures ExpandedTo(c, vertices, order[i], c.Threads()) {
      StaysExpanded(c, vertices0, vertices, order[i], c.Threads());
    }
  }

  lemma EdgesRound<A, L, N>(c: Class<A, L, N>, order: seq<State<A, L>>, u: State<A, L>)
    ensures EdgesOf(c, order + [u]) == EdgesOf(c, order) + EdgesFrom(c, u, c.Threads())
  {
    hide EdgesFrom, Replay;
    assert (order + [u])[..|order|] == order;
  }

  lemma MeasureDrops<T>(finite: set<T>, before: set<T>, after: set<T>)
    requires before < after <= finite
    ensures finite - after < finite - before
  {
  }

  /** The edges lead from each state of `us` in turn, by each thread in turn, to where that thread takes it. */
  ghost predicate AreTransitions<A, L, N>(c: Class<A, L, N>, edges: seq<Edge<A, L>>, us: seq<State<A, L>>) {
    && |edges| == |us| * c.Threads()
    && forall i, t :: 0 <= i < |us| && 0 <= t < c.Threads() ==> IsTransition(c, edges, us, i, t)
  }

  ghost predicate IsTransition<A, L, N>(c: Class<A, L, N>, edges: seq<Edge<A, L>>, us: seq<State<A, L>>, i: nat, t: Tid)
    requires i < |us|
  {
    var k, u := i * c.Threads() + t, us[i];
    && 0 <= k < |edges| && edges[k].from == u && edges[k].chosen == t
    && edges[k].to.trace == u.trace + [t] && edges[k].to.config == Replay(c, u.trace + [t])
  }

  lemma {:induction false} EdgesFromAre<A, L, N>(c: Class<A, L, N>, u: State<A, L>, n: nat, t: nat)
    ensures |EdgesFrom(c, u, n)| == n
    ensures t < n ==> EdgesFrom(c, u, n)[t] == Edge(u, State(u.trace + [t], Replay(c, u.trace + [t])), t)
    decreases n
  {
    hide Replay;
    if n > 0 {
      EdgesFromAre(c, u, n - 1, t);
    }
  }

  /** More edges behind leave the transitions where they are. */
  lemma StillTransition<A, L, N>(c: Class<A, L, N>, edges: seq<Edge<A, L>>, more: seq<Edge<A, L>>,
                                 us: seq<State<A, L>>, u: State<A, L>, i: nat, t: Tid)
    requires i < |us| && IsTransition(c, edges, us, i, t)
    ensures IsTransition(c, edges + more, us + [u], i, t)
  {
    hide Replay;
  }

  lemma NewTransition<A, L, N>(c: Class<A, L, N>, edges: seq<Edge<A, L>>, us: seq<State<A, L>>, u: State<A, L>, t: nat)
    requires |edges| == |us| * c.Threads() && t < c.Threads()
    ensures IsTransition(c, edges + EdgesFrom(c, u, c.Threads()), us + [u], |us|, t)
  {
    hide Replay;
    EdgesFromAre(c, u, c.Threads(), t);
  }

  lemma TransitionsRound<A, L, N>(c: Class<A, L, N>, edges: seq<Edge<A, L>>, us: seq<State<A, L>>, u: State<A, L>)
    requires AreTransitions(c, edges, us)
    ensures AreTransitions(c, edges + EdgesFrom(c, u, c.Threads()), us + [u])
  {
    hide IsTransition, EdgesFrom;
    var n, more := c.Threads(), EdgesFrom(c, u, c.Threads());
    EdgesFromAre(c, u, n, 0);
    assert |us + [u]| * n == |us| * n + n;
    forall i, t | 0 <= i < |us + [u]| && 0 <= t < n ensures IsTransition(c, edges + more, us + [u], i, t) {
      if i < |us| {
        StillTransition(c, edges, more, us, u, i, t);
      } else {
        NewTransition(c, edges, us, u, t);
      }
    }
  }

  lemma {:induction false} EdgesAreTransitions<A, L, N>(c: Class<A, L, N>, us: seq<State<A, L>>)
    ensures AreTransitions(c, EdgesOf(c, us), us)
    decreases |us|
  {
    if us != [] {
      var front, u := us[..|us| - 1], us[|us| - 1];
      EdgesAreTransitions(c, front);
      assert us == front + [u];
      hide AreTransitions, EdgesFrom;
      TransitionsRound(c, EdgesOf(c, front), front, u);
    }
  }

  /** What the search returns, whatever the names stand for: the vertices are the states found, starting with the
      initial one and going on one step at a time; each was expanded once, and the edges are all their transitions in
      that order. */
  ghost predicate SearchResult<A, L, N>(c: Class<A, L, N>, vertices: Vertices<A, L, N>, edges: seq<Edge<A, L>>,
                                        order: seq<State<A, L>>) {
    && Found(c, order, vertices) && Discovered(order) && AllExpanded(c, vertices, order)
    && Name(c, []) in vertices && edges == EdgesOf(c, order)
  }

  /** `check_bfs`. `finite` bounds the reachable names; without such a bound the source would search forever. `order` is
      the order in which vertices were expanded. */
  method CheckBfs<A, L, N(==)>(c: Class<A, L, N>, ghost finite: set<N>)
    returns (vertices: Vertices<A, L, N>, edges: seq<Edge<A, L>>, ghost order: seq<State<A, L>>)
    requires forall tr: Trace :: IsTrace(c, tr) ==> Name(c, tr) in finite
    // every reachable state is a vertex, found by a shortest trace, if names stand for behaviour
    ensures NamesDetermine(c) ==>
              forall tr: Trace :: IsTrace(c, tr) ==> Name(c, tr) in vertices && |vertices[Name(c, tr)].trace| <= |tr|
    // every vertex is reachable by the trace stored with it
    ensures forall k :: k in vertices ==> IsState(c, vertices[k]) && Name(c, vertices[k].trace) == k
    ensures SearchResult(c, vertices, edges, order)
    // the edges are the transitions of the vertices, in order of expansion and of thread
    ensures AreTransitions(c, edges, order)
  {
    hide Replay, Found, InLevels, Expanded, NamesDetermine;
    var config := Execute(c, []);
    var s0 := State([], config.value);
    var queue := [s0];
    vertices := map[c.name(s0.config) := s0];
    edges := [];
    order := [];
    ghost var found := [s0];
    StartSearch(c, s0, found, vertices);
    NamesWithin(c, found, vertices, finite);
    while queue != []
      invariant Between(c, order, queue, found, vertices)
      invariant Name(c, []) in vertices && |vertices[Name(c, [])].trace| == 0
      invariant edges == EdgesOf(c, order)
      invariant vertices.Keys <= finite
      decreases finite - vertices.Keys, |queue|
    {
      ghost var queue0, found0, vertices0 := queue, found, vertices;
      StartRound(c, order, queue, found, vertices);
      var u := queue[0];
      queue := queue[1..];
      queue, vertices, edges, found := Expand(c, u, queue, vertices, edges, |order|, found);
      EndRound(c, order, queue0, found0, vertices0, queue, found, vertices, u);
      EdgesRound(c, order, u);
      NamesWithin(c, found, vertices, finite);
      if vertices.Keys > vertices0.Keys {
        MeasureDrops(finite, vertices0.Keys, vertices.Keys);
      }
      order := order + [u];
    }
    assert found == order;
    EdgesAreTransitions(c, order);
    forall tr: Trace | NamesDetermine(c) && IsTrace(c, tr)
      ensures Name(c, tr) in vertices && |vertices[Name(c, tr)].trace| <= |tr|
    {
      EveryTraceIsFound(c, order, vertices, tr);
    }
    forall k | k in vertices ensures IsState(c, vertices[k]) && Name(c, vertices[k].trace) == k {
      var _ := FoundState(c, order, vertices, k);
    }
  }

  lemma FoundState<A, L, N>(c: Class<A, L, N>, found: seq<State<A, L>>, vertices: Vertices<A, L, N>, k: N)
    returns (i: nat)
    requires Found(c, found, vertices) && k in vertices
    ensures i < |found| && found[i] == vertices[k]
    ensures IsState(c, vertices[k]) && Name(c, vertices[k].trace) == k
  {
    i :| 0 <= i < |found| && found[i] == vertices[k];
    assert IsState(c, found[i]);
  }

  lemma SameSuccessors<A, L, N>(c: Class<A, L, N>, tr: Trace, tr': Trace, t: Tid)
    requires NamesDetermine(c) && IsTrace(c, tr) && IsTrace(c, tr') && 0 <= t < c.Threads()
    requires Name(c, tr) == Name(c, tr')
    ensures Name(c, tr + [t]) == Name(c, tr' + [t])
  {
  }

  lemma NamesWithin<A, L, N>(c: Class<A, L, N>, found: seq<State<A, L>>, vertices: Vertices<A, L, N>, finite: set<N>)
    requires Found(c, found, vertices)
    requires forall tr: Trace :: IsTrace(c, tr) ==> Name(c, tr) in finite
    ensures vertices.Keys <= finite
  {
    forall k | k in vertices ensures k in finite {
      var _ := FoundState(c, found, vertices, k);
    }
  }

  lemma StartSearch<A, L, N>(c: Class<A, L, N>, s0: State<A, L>, found: seq<State<A, L>>, vertices: Vertices<A, L, N>)
    requires s0 == State([], Replay(c, [])) && found == [s0] && vertices == map[NameOf(c, s0) := s0]
    ensures Between(c, [], found, found, vertices)
    ensures Name(c, []) in vertices && vertices[Name(c, [])] == s0
  {
    hide Replay;
    assert IsState(c, s0) && Holds(c, vertices, found[0]);
  }

  /** When every found state has been expanded, every trace leads to one of them, and none by a shorter way. */
  lemma {:induction false} EveryTraceIsFound<A, L, N>(c: Class<A, L, N>, order: seq<State<A, L>>,
                                                      vertices: Vertices<A, L, N>, tr: Trace)
    requires NamesDetermine(c) && Found(c, order, vertices) && IsTrace(c, tr)
    requires Name(c, []) in vertices && |vertices[Name(c, [])].trace| == 0
    requires AllExpanded(c, vertices, order)
    ensures Name(c, tr) in vertices && |vertices[Name(c, tr)].trace| <= |tr|
    decreases |tr|
  {
    hide Replay, Found, NamesDetermine;
    if tr != [] {
      var front, t := tr[..|tr| - 1], tr[|tr| - 1];
      assert IsTrace(c, front);
      EveryTraceIsFound(c, order, vertices, front);
      var w := vertices[Name(c, front)];
      var i := FoundState(c, order, vertices, Name(c, front));
      assert ExpandedTo(c, vertices, order[i], c.Threads());
      assert Expanded(c, vertices, w, t);
      SameSuccessors(c, w.trace, front, t);
      assert tr == front + [t];
    }
  }

  // ---------- Why names have to stand for behaviour ----------

  /** A single thread that sets an attribute on its second resumption. Its name does not show how far the thread is, as
      a frozen state does not show the position of an iterator. */
  function TwoRounds(): Class<int, int, int> {
    Class(Config(0, [Some(0)]),
          (a: int, l: int, t: Tid) => if l == 0 then (a, Some(1)) else (1, None),
          (s: Config<int, int>) => s.attrs)
  }

  lemma TwoRoundsNames()
    ensures Name(TwoRounds(), []) == 0 && Name(TwoRounds(), [0]) == 0 && Name(TwoRounds(), [0, 0]) == 1
  {
    ReplayMore(TwoRounds(), [], 0);
    ReplayMore(TwoRounds(), [0], 0);
    assert [] + [0] == [0] && [0] + [0] == [0, 0];
  }

  lemma TwoRoundsIsNotDetermined()
    ensures IsTrace(TwoRounds(), [0, 0]) && Name(TwoRounds(), [0, 0]) == 1
    ensures !NamesDetermine(TwoRounds())
  {
    var c := TwoRounds();
    TwoRoundsNames();
    hide Replay;
    assert [] + [0] == [0] && [0] + [0] == [0, 0];
    assert IsTrace(c, []) && IsTrace(c, [0]) && Name(c, [] + [0]) != Name(c, [0] + [0]);
  }

  /** The first state is the initial one. A second would have been found from it, by the one thread, and would have its
      name. */
  lemma SecondHasNameOfFirst(order: seq<State<int, int>>)
    requires Discovered(order) && forall i :: 0 <= i < |order| ==> IsState(TwoRounds(), order[i])
    ensures |order| > 0 ==> NameOf(TwoRounds(), order[0]) == 0
    ensures |order| > 1 ==> NameOf(TwoRounds(), order[1]) == 0
  {
    TwoRoundsNames();
    hide Replay;
    if |order| > 0 {
      assert IsDiscovered(order, 0);
      assert order[0].trace == [];
    }
    if |order| > 1 {
      assert IsDiscovered(order, 1);
      assert order[1].trace == [] || order[1].trace == [0];
    }
  }

  /** Whatever the search returns on this class, it has one vertex, though another state can be reached in two steps. */
  lemma HiddenStateIsMissed(vertices: Vertices<int, int, int>, edges: seq<Edge<int, int>>, order: seq<State<int, int>>)
    requires SearchResult(TwoRounds(), vertices, edges, order)
    ensures vertices.Keys == {0}
    ensures IsTrace(TwoRounds(), [0, 0]) && Name(TwoRounds(), [0, 0]) == 1
    ensures !NamesDetermine(TwoRounds())
  {
    TwoRoundsNames();
    TwoRoundsIsNotDetermined();
    SecondHasNameOfFirst(order);
    hide Replay, NamesDetermine, Discovered, AllExpanded, EdgesOf;
    assert |order| <= 1;
    forall k | k in vertices ensures k == 0 {
      var i := FoundState(TwoRounds(), order, vertices, k);
    }
  }

  /** So the search itself misses it. */
  method SearchTwoRounds() returns (vertices: Vertices<int, int, int>, edges: seq<Edge<int, int>>)
    ensures vertices.Keys == {0} && 1 !in vertices
  {
    forall tr: Trace ensures Name(TwoRounds(), tr) in {0, 1} {
      NamesAreBits(tr);
    }
    ghost var order;
    vertices, edges, order := CheckBfs(TwoRounds(), {0, 1});
    HiddenStateIsMissed(vertices, edges, order);
  }

  lemma {:induction false} NamesAreBits(tr: Trace)
    ensures Name(TwoRounds(), tr) in {0, 1}
    decreases |tr|
  {
    if tr != [] {
      NamesAreBits(tr[..|tr| - 1]);
    }
  }
}
