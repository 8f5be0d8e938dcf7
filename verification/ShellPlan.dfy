/** What a command tree says is to be run, by recursion over the tree, and that sessions run exactly that. */
module ShellPlan {
  import opened Prelude
  import opened ShellGrammar
  import opened ShellRun
  import opened ShellRunTheorems
  import opened ShellSession

  // ---------- The plan of a tree ----------

  /** A program to be started: where it stands in the tree, its words, and its standard input and output. */
  datatype Start = Start(node: Node, argv: seq<string>, io: (Source, Source))

  function Redirect(io: (Source, Source), file: string, op: RedirOp): (Source, Source) {
    if op == Input then (Redirected(file, op), io.1) else (io.0, Redirected(file, op))
  }

  /** The programs of a tree that stands at `n` and is given the standard input and output `io`. */
  function Plan(c: Cmd<string>, n: Node, io: (Source, Source)): set<Start>
    decreases c
  {
    match c
    case Exec(argv) => if argv == [] then {} else {Start(n, argv, io)}
    case Redir(d, file, op) => Plan(d, n.Child(Sub), Redirect(io, file, op))
    case Pipe(l, r) => Plan(l, n.Child(Left), (io.0, ToPipe(n))) + Plan(r, n.Child(Right), (FromPipe(n), io.1))
    case List(l, r) => Plan(l, n.Child(Left), io) + Plan(r, n.Child(Right), io)
    case Back(d) => Plan(d, n.Child(Sub), io)
  }

  /** The programs of job number `j`. */
  function JobPlan(jobs: Jobs, j: nat): set<Start>
    requires j < |jobs|
  {
    match jobs[j]
    case None => {}
    case Some(c) => Plan(c, Node(j, []), (Terminal(0), Terminal(1)))
  }

  /** The way down from `m` to `n` goes through a child of `m`. */
  lemma {:induction false} NextOnWay(jobs: Jobs, m: Node, n: Node) returns (d: Side)
    requires Under(m, n) && m != n && CmdAt(jobs, n).Some?
    ensures Under(m.Child(d), n) && CmdAt(jobs, m.Child(d)).Some?
    decreases |n.path|
  {
    var k := |m.path|;
    if |n.path| == k + 1 {
      d := n.path[k];
      assert m.Child(d) == n;
    } else {
      assert |n.path| > k;
      assert n.Parent().path[..k] == n.path[..k];
      d := NextOnWay(jobs, m, n.Parent());
      assert n.Parent().path[..k + 1] == n.path[..k + 1];
    }
  }

  lemma IsAt(jobs: Jobs, n: Node, c: Cmd<string>, x: Start)
    requires CmdAt(jobs, n) == Some(c) && c.Exec? && c.argv != [] && x == Start(n, c.argv, Io(jobs, n))
    ensures x in Plan(c, n, Io(jobs, n))
  {
  }

  /** What is planned stands in the tree where the plan says, with standard input and output as the nodes above it
      call for. */
  lemma {:induction false} PlanIsInTree(jobs: Jobs, c: Cmd<string>, n: Node, x: Start)
    requires CmdAt(jobs, n) == Some(c) && x in Plan(c, n, Io(jobs, n))
    ensures Under(n, x.node) && x.argv != []
    ensures CmdAt(jobs, x.node) == Some(Exec(x.argv)) && Io(jobs, x.node) == x.io
    decreases c, 0
  {
    hide CmdAt, Io, Under;
    match c
    case Exec(argv) => UnderSelf(n);
    case Redir(d, _, _) => PlanIsBelow(jobs, c, n, Sub, d, x);
    case Pipe(l, r) =>
      if x in Plan(l, n.Child(Left), (Io(jobs, n).0, ToPipe(n))) {
        PlanIsBelow(jobs, c, n, Left, l, x);
      } else {
        PlanIsBelow(jobs, c, n, Right, r, x);
      }
    case List(l, r) =>
      if x in Plan(l, n.Child(Left), Io(jobs, n)) {
        PlanIsBelow(jobs, c, n, Left, l, x);
      } else {
        PlanIsBelow(jobs, c, n, Right, r, x);
      }
    case Back(d) => PlanIsBelow(jobs, c, n, Sub, d, x);
  }

  /** Standard input and output of a child of `c`. */
  function ChildIo(c: Cmd<string>, n: Node, d: Side, io: (Source, Source)): (Source, Source) {
    match (c, d)
    case (Redir(_, file, op), Sub) => Redirect(io, file, op)
    case (Pipe(_, _), Left) => (io.0, ToPipe(n))
    case (Pipe(_, _), Right) => (FromPipe(n), io.1)
    case _ => io
  }

  /** Which child of `c` stands on side `d`. */
  predicate IsChild(c: Cmd<string>, d: Side, k: Cmd<string>) {
    match (c, d)
    case (Redir(b, _, _), Sub) => k == b
    case (Back(b), Sub) => k == b
    case (Pipe(l, _), Left) => k == l
    case (Pipe(_, r), Right) => k == r
    case (List(l, _), Left) => k == l
    case (List(_, r), Right) => k == r
    case _ => false
  }

  lemma ChildAt(jobs: Jobs, c: Cmd<string>, n: Node, d: Side)
    requires CmdAt(jobs, n) == Some(c)
    ensures Io(jobs, n.Child(d)) == ChildIo(c, n, d, Io(jobs, n))
    ensures forall k :: IsChild(c, d, k) <==> CmdAt(jobs, n.Child(d)) == Some(k)
  {
    ChildOf(n, d);
  }

  lemma {:induction false} PlanIsBelow(jobs: Jobs, c: Cmd<string>, n: Node, d: Side, k: Cmd<string>, x: Start)
    requires CmdAt(jobs, n) == Some(c) && IsChild(c, d, k) && x in Plan(k, n.Child(d), ChildIo(c, n, d, Io(jobs, n)))
    ensures Under(n, x.node) && x.argv != []
    ensures CmdAt(jobs, x.node) == Some(Exec(x.argv)) && Io(jobs, x.node) == x.io
    decreases k, 1
  {
    hide CmdAt, Io;
    ChildAt(jobs, c, n, d);
    PlanIsInTree(jobs, k, n.Child(d), x);
    SidesApart(n);
  }

  /** Every program of the tree is planned. */
  lemma {:induction false} TreeIsPlanned(jobs: Jobs, c: Cmd<string>, n: Node, m: Node)
    requires CmdAt(jobs, n) == Some(c) && Under(n, m) && IsExec(jobs, m)
    ensures Start(m, CmdAt(jobs, m).value.argv, Io(jobs, m)) in Plan(c, n, Io(jobs, n))
    decreases c
  {
    hide CmdAt, Io, Under;
    if n == m {
      IsAt(jobs, n, c, Start(m, c.argv, Io(jobs, n)));
    } else {
      var d := NextOnWay(jobs, n, m);
      ChildAt(jobs, c, n, d);
      var k := CmdAt(jobs, n.Child(d)).value;
      assert IsChild(c, d, k);
      TreeIsPlanned(jobs, k, n.Child(d), m);
    }
  }

  /** The plan of a job is exactly what stands in its tree. */
  lemma JobPlanIsTree(jobs: Jobs, j: nat, x: Start)
    requires j < |jobs|
    ensures x in JobPlan(jobs, j) <==>
            x.node.job == j && IsExec(jobs, x.node) && CmdAt(jobs, x.node).value.argv == x.argv
            && Io(jobs, x.node) == x.io
  {
    var root := Node(j, []);
    assert CmdAt(jobs, root) == jobs[j] && Io(jobs, root) == (Terminal(0), Terminal(1));
    if x in JobPlan(jobs, j) {
      PlanIsInTree(jobs, jobs[j].value, root, x);
    }
    if x.node.job == j && IsExec(jobs, x.node) {
      HasRoot(jobs, x.node);
      assert x.node.path[..0] == [];
      TreeIsPlanned(jobs, jobs[j].value, root, x.node);
    }
  }

  lemma {:induction false} HasRoot(jobs: Jobs, n: Node)
    requires CmdAt(jobs, n).Some?
    ensures CmdAt(jobs, Node(n.job, [])).Some?
    decreases |n.path|
  {
    if n.path != [] {
      HasRoot(jobs, n.Parent());
    }
  }

  // ---------- What becomes of a node in one step ----------

  /** If the call that a process at `pc` makes next fails, node `n` is given up: a list goes on without its left side,
      a pipe node without that child, and anything else exits. */
  ghost predicate Loses(jobs: Jobs, pc: Pc, n: Node) {
    match pc
    case Enter(m) => Under(if IsList(jobs, m) then m.Child(Left) else m, n)
    case RedirOpen(m) => Under(m.Child(Sub), n)
    case InPipe(m, ForkLeft, _, _) => Under(m.Child(Left), n)
    case InPipe(m, ForkRight, _, _) => Under(m.Child(Right), n)
    case _ => false
  }

  /** Exactly one of the three. */
  predicate One(a: bool, b: bool, c: bool) { (a || b || c) && !(a && b) && !(a && c) && !(b && c) }

  /** What a step of `x` does about node `n`: whoever still has to run it passes it on, starts it or loses it. */
  ghost predicate DutyStep(jobs: Jobs, x: Proc, e: Event, f: Effect, n: Node) {
    var passed := Owns(f.act.self.pc, n) || (f.act.Fork? && Owns(f.act.child.pc, n));
    var started := f.act.self.pc == Program(n) && x.pc != Program(n);
    var lost := e.Fail? && Loses(jobs, x.pc, n);
    if Owns(x.pc, n) then One(passed, started, lost) else !passed && !started && !lost
  }

  /** Below a simple command there is nothing, and the way down from any other goes through one of its children. */
  lemma WayDown(jobs: Jobs, m: Node, c: Cmd<string>, n: Node)
    requires CmdAt(jobs, m) == Some(c) && Under(m, n) && IsExec(jobs, n)
    ensures c.Exec? ==> n == m && c.argv != []
    ensures c.Redir? || c.Back? ==> Under(m.Child(Sub), n)
    ensures c.Pipe? || c.List? ==> Under(m.Child(Left), n) || Under(m.Child(Right), n)
  {
    hide CmdAt, Under;
    if m != n {
      var d := NextOnWay(jobs, m, n);
      ChildAt(jobs, c, m, d);
      assert IsChild(c, d, CmdAt(jobs, m.Child(d)).value);
    }
  }

  lemma EnterDuty(s: Sys, p: Pid, x: Proc, m: Node, c: Cmd<string>, e: Event, f: Effect, n: Node)
    requires x.pc == Enter(m) && CmdAt(s.jobs, m) == Some(c) && IsExec(s.jobs, n)
    requires EnterStep(s, p, x, m, c, e) == Some(f)
    ensures DutyStep(s.jobs, x, e, f, n)
  {
    hide CmdAt, LowestFree, Under;
    SidesApart(m);
    if Under(m, n) {
      WayDown(s.jobs, m, c, n);
    } else {
      UnderSelf(m);
    }
  }

  lemma PipeDuty(s: Sys, p: Pid, x: Proc, m: Node, at: PipePc, ends: Ends, forked: set<Pid>, e: Event, f: Effect,
                 n: Node)
    requires x.pc == InPipe(m, at, ends, forked) && PipeStep(s, p, x, m, at, ends, forked, e) == Some(f)
    ensures DutyStep(s.jobs, x, e, f, n)
  {
    SidesApart(m);
  }

  lemma StepDuty(s: Sys, p: Pid, x: Proc, e: Event, f: Effect, n: Node)
    requires ProcStep(s, p, x, e) == Some(f) && IsExec(s.jobs, n) && n.job < |s.jobs|
    ensures DutyStep(s.jobs, x, e, f, n)
  {
    match x.pc
    case Enter(m) => EnterDuty(s, p, x, m, CmdAt(s.jobs, m).value, e, f, n);
    case InPipe(m, at, ends, forked) => PipeDuty(s, p, x, m, at, ends, forked, e, f, n);
    case _ =>
  }

  // ---------- What becomes of a node in one step of the session ----------

  /** Some process has `n` still to run. */
  ghost predicate Owned(s: Sys, n: Node) { exists p :: p in s.procs && Owns(s.procs[p].pc, n) }

  /** In this step a process starts the program at `n`. */
  ghost predicate Begins(s: Sys, e: Event, n: Node) {
    && e.p in s.procs && Next(s, e).Some? && e.p in Next(s, e).value.procs
    && s.procs[e.p].pc != Program(n) && Next(s, e).value.procs[e.p].pc == Program(n)
  }

  /** In this step a call fails, and `n` is given up for it. */
  ghost predicate GivesUp(s: Sys, e: Event, n: Node) {
    e.Fail? && e.p in s.procs && Loses(s.jobs, s.procs[e.p].pc, n)
  }

  lemma LosesOwned(jobs: Jobs, pc: Pc, n: Node)
    requires Loses(jobs, pc, n)
    ensures Owns(pc, n)
  {
    if pc.Enter? {
      SidesApart(pc.node);
    }
  }

  /** Nobody but the process that acts, and the one it forks, owns other nodes than before. */
  lemma OwnedAfter(s: Sys, e: Event, f: Effect, n: Node)
    requires Inv(s) && e.p in s.procs && ProcStep(s, e.p, s.procs[e.p], e) == Some(f)
    ensures Owned(Next(s, e).value, n) <==>
            || Owns(f.act.self.pc, n) || (f.act.Fork? && Owns(f.act.child.pc, n))
            || exists q :: q in s.procs && q != e.p && Owns(s.procs[q].pc, n)
  {
    hide Owns, AllProcs, Disjoint, Untouched, OnePipeEach, ProcStep;
    StepRoster(s, e, f);
    var s' := Apply(s, e.p, f);
    assert Owns(f.act.self.pc, n) ==> Owns(s'.procs[e.p].pc, n);
    assert f.act.Fork? && Owns(f.act.child.pc, n) ==> Owns(s'.procs[s.nextPid].pc, n);
    forall q | q in s.procs && q != e.p && Owns(s.procs[q].pc, n) ensures Owned(s', n) {
      assert !Owns(Zombie, n) by {
        NobodyOwnsThere(n);
      }
      assert s'.procs[q] == s.procs[q];
    }
  }

  lemma NobodyOwnsThere(n: Node)
    ensures !Owns(Zombie, n)
  {
  }

  /** A new process has a new number, and only a zombie is reaped. */
  lemma StepRoster(s: Sys, e: Event, f: Effect)
    requires Inv(s) && e.p in s.procs && ProcStep(s, e.p, s.procs[e.p], e) == Some(f)
    ensures s.nextPid !in s.procs && (f.act.Wait? ==> f.act.dead in s.procs && s.procs[f.act.dead].pc == Zombie)
    ensures Next(s, e) == Some(Apply(s, e.p, f)) && (f.act.Wait? ==> f.act.dead != e.p) && s.jobs <= f.jobs
    ensures s.procs[e.p].pc != Zombie
  {
    hide Apply, ProcStep, PlaceInv, FdsInv, KidOf, Disjoint, Untouched, OnePipeEach;
    assert ProcInv(s.jobs, s.pipes, s.procs[e.p]);
    StepFamily(s, e.p, s.procs[e.p], e, f);
  }

  lemma NextDuty(s: Sys, e: Event, n: Node)
    requires Inv(s) && Next(s, e).Some? && IsExec(s.jobs, n) && n.job < |s.jobs|
    ensures if Owned(s, n) then One(Owned(Next(s, e).value, n), Begins(s, e, n), GivesUp(s, e, n))
            else !Owned(Next(s, e).value, n) && !Begins(s, e, n) && !GivesUp(s, e, n)
  {
    hide Owns, AllProcs, Loses, ProcStep, FamilyInv;
    var x := s.procs[e.p];
    var f := ProcStep(s, e.p, x, e).value;
    StepDuty(s, e.p, x, e, f, n);
    OwnedAfter(s, e, f, n);
    StepRoster(s, e, f);
    assert Begins(s, e, n) <==> f.act.self.pc == Program(n) && x.pc != Program(n);
  }

  /** Only reading a line adds a job, and the child of the shell gets the whole tree to run. */
  lemma NewJob(s: Sys, p: Pid, x: Proc, e: Event, f: Effect, n: Node)
    requires ProcStep(s, p, x, e) == Some(f) && |s.jobs| <= n.job < |f.jobs| && IsExec(f.jobs, n)
    ensures f.act.Fork? && Owns(f.act.child.pc, n)
  {
    hide CmdAt;
    HasRoot(f.jobs, n);
    RootIsJob(f.jobs, n.job);
    assert n.path[..0] == [];
  }

  lemma RootIsJob(jobs: Jobs, j: nat)
    ensures CmdAt(jobs, Node(j, [])) == if j < |jobs| then jobs[j] else None
  {
  }

  lemma BeginsOwned(s: Sys, p: Pid, x: Proc, e: Event, f: Effect, n: Node)
    requires ProcStep(s, p, x, e) == Some(f) && f.act.self.pc == Program(n) && x.pc != Program(n)
    ensures Owns(x.pc, n)
  {
    hide CmdAt, LowestFree;
  }

  /** A job read in this step is all still to be run, and no step concerns a job that is not read yet. */
  lemma NewDuty(s: Sys, e: Event, n: Node)
    requires Inv(s) && Next(s, e).Some? && |s.jobs| <= n.job
    ensures n.job < |Next(s, e).value.jobs| && IsExec(Next(s, e).value.jobs, n) ==> Owned(Next(s, e).value, n)
    ensures !Begins(s, e, n) && !GivesUp(s, e, n)
  {
    hide Owns, ProcStep, Loses, AllProcs, FamilyInv, Disjoint, OnePipeEach;
    var x := s.procs[e.p];
    var f := ProcStep(s, e.p, x, e).value;
    assert !Owns(x.pc, n);
    StepRoster(s, e, f);
    if GivesUp(s, e, n) {
      LosesOwned(s.jobs, x.pc, n);
    }
    if Begins(s, e, n) {
      BeginsOwned(s, e.p, x, e, f, n);
    }
    if n.job < |f.jobs| && IsExec(f.jobs, n) {
      NewJob(s, e.p, x, e, f, n);
      OwnedAfter(s, e, f, n);
    }
  }

  // ---------- Runs ----------

  /** Event number `i` of the run starts the program at `n`. */
  ghost predicate Starts(es: seq<Event>, i: nat, n: Node) {
    i < |es| && Run(es[..i]).Some? && Begins(Run(es[..i]).value, es[i], n)
  }

  /** For a call that fails as event number `i`, node `n` is given up. */
  ghost predicate Drops(es: seq<Event>, i: nat, n: Node) {
    i < |es| && Run(es[..i]).Some? && GivesUp(Run(es[..i]).value, es[i], n)
  }

  ghost predicate Started(es: seq<Event>, n: Node) { exists i :: 0 <= i < |es| && Starts(es, i, n) }

  ghost predicate GivenUp(es: seq<Event>, n: Node) { exists i :: 0 <= i < |es| && Drops(es, i, n) }

  lemma {:induction false} RunPrefix(es: seq<Event>, i: nat)
    requires Run(es).Some? && i <= |es|
    ensures Run(es[..i]).Some?
    ensures i < |es| ==> Run(es[..i + 1]) == Next(Run(es[..i]).value, es[i])
    decreases |es|
  {
    if i == |es| {
      assert es[..i] == es;
    } else {
      var front := es[..|es| - 1];
      assert front[..i] == es[..i];
      RunPrefix(front, i);
      assert es[..i + 1][..i] == es[..i];
      if i + 1 < |es| {
        assert front[..i + 1] == es[..i + 1];
      } else {
        assert es[..i + 1] == es;
      }
    }
  }

  lemma OneMoreEvent(front: seq<Event>, e: Event, n: Node)
    requires Run(front).Some?
    ensures Started(front + [e], n) <==> Started(front, n) || Begins(Run(front).value, e, n)
    ensures GivenUp(front + [e], n) <==> GivenUp(front, n) || GivesUp(Run(front).value, e, n)
  {
    hide Begins, GivesUp, Run;
    var es := front + [e];
    assert es[..|front|] == front;
    assert forall i :: 0 <= i < |front| ==> es[..i] == front[..i];
    assert forall i :: 0 <= i < |front| ==>
             Starts(es, i, n) == Starts(front, i, n) && Drops(es, i, n) == Drops(front, i, n);
    assert Starts(es, |front|, n) == Begins(Run(front).value, e, n);
    assert Drops(es, |front|, n) == GivesUp(Run(front).value, e, n);
  }

  lemma SameExec(jobs: Jobs, jobs': Jobs, n: Node)
    requires jobs <= jobs' && n.job < |jobs|
    ensures IsExec(jobs', n) == IsExec(jobs, n)
  {
    assert jobs' == jobs + jobs'[|jobs|..];
    CmdAtStable(jobs, jobs'[|jobs|..], n);
  }

  /** Every program of a job that was read is, at each moment, in exactly one of three conditions: some process has it
      still to run, it was started, or it was given up for a call that failed. */
  lemma {:induction false} NoProgramIsForgotten(es: seq<Event>, n: Node)
    requires Run(es).Some?
    ensures var s := Run(es).value;
            if n.job < |s.jobs| then IsExec(s.jobs, n) ==> One(Owned(s, n), Started(es, n), GivenUp(es, n))
            else !Started(es, n) && !GivenUp(es, n)
    decreases |es|
  {
    hide Owned, Begins, GivesUp, Inv, IsExec, Next;
    if es != [] {
      var front, e := es[..|es| - 1], es[|es| - 1];
      var s := Run(front).value;
      assert es == front + [e] && Run(es) == Next(s, e);
      RunKeepsInv(front);
      NoProgramIsForgotten(front, n);
      OneMoreEvent(front, e, n);
      JobsGrow(s, e);
      if n.job < |s.jobs| {
        SameExec(s.jobs, Next(s, e).value.jobs, n);
        if IsExec(s.jobs, n) {
          NextDuty(s, e, n);
        }
      } else {
        NewDuty(s, e, n);
      }
    }
  }

  lemma JobsGrow(s: Sys, e: Event)
    requires Inv(s) && Next(s, e).Some?
    ensures s.jobs <= Next(s, e).value.jobs
  {
    hide Inv, ProcStep;
    StepRoster(s, e, ProcStep(s, e.p, s.procs[e.p], e).value);
  }

  /** Every process of job number `j` has exited. */
  ghost predicate Finished(s: Sys, j: nat) {
    forall p :: p in s.procs && p != SHELL && s.procs[p].born.job == j ==> s.procs[p].pc == Zombie
  }

  lemma OwnersBelong(jobs: Jobs, x: Proc, n: Node)
    requires PlaceInv(jobs, x) && Owns(x.pc, n)
    ensures x.born.job == n.job && x.pc != Zombie && x.pc != Exiting && !ShellPc(x.pc)
  {
    hide CmdAt;
  }

  lemma FinishedOwnsNothing(s: Sys, n: Node)
    requires Inv(s) && Finished(s, n.job)
    ensures !Owned(s, n)
  {
    hide Owns, PlaceInv, FdsInv, Disjoint, Untouched, OnePipeEach;
    forall p | p in s.procs ensures !Owns(s.procs[p].pc, n) {
      assert ProcInv(s.jobs, s.pipes, s.procs[p]);
      if Owns(s.procs[p].pc, n) {
        OwnersBelong(s.jobs, s.procs[p], n);
      }
    }
  }

  // ---------- Main results ----------

  /** A job runs exactly its plan: once all its processes have exited, a program of it was started if and only if no
      failed call gave it up. */
  lemma FinishedJobRanItsPlan(es: seq<Event>, x: Start)
    requires Run(es).Some? && x.node.job < |Run(es).value.jobs| && Finished(Run(es).value, x.node.job)
    requires x in JobPlan(Run(es).value.jobs, x.node.job)
    ensures Started(es, x.node) <==> !GivenUp(es, x.node)
  {
    RunKeepsInv(es);
    JobPlanIsTree(Run(es).value.jobs, x.node.job, x);
    NoProgramIsForgotten(es, x.node);
    FinishedOwnsNothing(Run(es).value, x.node);
  }

  /** Without a failed call, a job whose processes have all exited has run all its programs. */
  lemma WithoutFailuresAllIsRun(es: seq<Event>, x: Start)
    requires Run(es).Some? && (forall i :: 0 <= i < |es| ==> !es[i].Fail?)
    requires x.node.job < |Run(es).value.jobs| && Finished(Run(es).value, x.node.job)
    requires x in JobPlan(Run(es).value.jobs, x.node.job)
    ensures Started(es, x.node)
  {
    FinishedJobRanItsPlan(es, x);
    assert !GivenUp(es, x.node);
  }

  /** No program is started twice. */
  lemma NoProgramStartsTwice(es: seq<Event>, i: nat, k: nat, n: Node)
    requires Run(es).Some? && Starts(es, i, n) && Starts(es, k, n)
    ensures i == k
  {
    hide Starts;
    if i < k {
      NotStartedAgain(es, i, k, n);
    } else if k < i {
      NotStartedAgain(es, k, i, n);
    }
  }

  lemma NotStartedAgain(es: seq<Event>, a: nat, b: nat, n: Node)
    requires Run(es).Some? && a < b && Starts(es, a, n)
    ensures !Starts(es, b, n)
  {
    hide Next, Owned, GivesUp, Inv;
    if Starts(es, b, n) {
      var front := es[..b];
      var s := Run(front).value;
      RunKeepsInv(front);
      assert front[..a] == es[..a];
      assert Starts(front, a, n);
      NoProgramIsForgotten(front, n);
      ProgramIsExec(s, es[b], n);
      NextDuty(s, es[b], n);
    }
  }

  lemma ProgramIsExec(s: Sys, e: Event, n: Node)
    requires Inv(s) && Begins(s, e, n)
    ensures n.job < |s.jobs| && IsExec(s.jobs, n)
  {
    hide Owns, Inv, Next, IsExec;
    if n.job >= |s.jobs| {
      NewDuty(s, e, n);
    } else {
      JobsGrow(s, e);
      SameExec(s.jobs, Next(s, e).value.jobs, n);
      StepKeepsInv(s, e);
      AtProgramIsExec(Next(s, e).value, e.p);
    }
  }

  lemma AtProgramIsExec(s: Sys, p: Pid)
    requires Inv(s) && p in s.procs && s.procs[p].pc.Program?
    ensures IsExec(s.jobs, s.procs[p].pc.node)
  {
    assert ProcInv(s.jobs, s.pipes, s.procs[p]);
  }

  /** Whoever is at a program has started it. */
  lemma {:induction false} StartedBefore(es: seq<Event>, p: Pid, n: Node) returns (i: nat)
    requires Run(es).Some? && p in Run(es).value.procs && Run(es).value.procs[p].pc == Program(n)
    ensures Starts(es, i, n) && es[i].p == p
    decreases |es|
  {
    hide Inv, ProcStep, Apply;
    assert Init().procs[SHELL].pc == Prompt;
    var front, e := es[..|es| - 1], es[|es| - 1];
    var s := Run(front).value;
    assert Run(es) == Next(s, e);
    RunKeepsInv(front);
    if e.p == p && s.procs[p].pc != Program(n) {
      i := |front|;
    } else {
      OthersStay(s, e, p);
      i := StartedBefore(front, p, n);
      assert front[..i] == es[..i];
    }
  }

  lemma OthersStay(s: Sys, e: Event, p: Pid)
    requires Inv(s) && Next(s, e).Some? && p in Next(s, e).value.procs && Next(s, e).value.procs[p].pc.Program?
    ensures e.p != p ==> p in s.procs && s.procs[p] == Next(s, e).value.procs[p]
  {
    hide Inv, CmdAt, LowestFree;
  }

  /** No two processes ever run the same program. */
  lemma NoTwoRunTheSame(es: seq<Event>, i: nat, k: nat, p: Pid, q: Pid, n: Node)
    requires Run(es).Some? && i <= k <= |es| && Run(es[..i]).Some? && Run(es[..k]).Some?
    requires p in Run(es[..i]).value.procs && Run(es[..i]).value.procs[p].pc == Program(n)
    requires q in Run(es[..k]).value.procs && Run(es[..k]).value.procs[q].pc == Program(n)
    ensures p == q
  {
    hide Begins, Run;
    var a := StartedBefore(es[..i], p, n);
    var b := StartedBefore(es[..k], q, n);
    assert es[..i][..a] == es[..a] && es[..k][..b] == es[..b];
    NoProgramStartsTwice(es, a, b, n);
  }

  /** Only what is planned is started, with the descriptors of the plan. */
  lemma OnlyThePlanIsRun(es: seq<Event>, p: Pid) returns (x: Start)
    requires Run(es).Some? && p in Run(es).value.procs && Run(es).value.procs[p].pc.Program?
    ensures var s := Run(es).value;
            var fds := s.procs[p].fds;
            && x.node == s.procs[p].pc.node && x.node.job < |s.jobs| && x in JobPlan(s.jobs, x.node.job)
            && fds.Keys == {0, 1, 2} && Is(s.pipes, fds[0], x.io.0) && Is(s.pipes, fds[1], x.io.1)
            && fds[2] == Inherited(2)
  {
    hide JobPlan, Is;
    ProgramsGetTheirDescriptors(es, p);
    var s := Run(es).value;
    var n := s.procs[p].pc.node;
    x := Start(n, CmdAt(s.jobs, n).value.argv, Io(s.jobs, n));
    CmdAtHasJob(s.jobs, n);
    JobPlanIsTree(s.jobs, n.job, x);
  }

  // ---------- The order of a list ----------

  /** The process runs the program at `n` or has it still to run. */
  ghost predicate Concerned(pc: Pc, n: Node) { Owns(pc, n) || pc == Program(n) }

  lemma UnderTrans(a: Node, b: Node, c: Node)
    requires Under(a, b) && Under(b, c)
    ensures Under(a, c)
  {
    assert c.path[..|b.path|][..|a.path|] == c.path[..|a.path|];
  }

  /** Of two nodes above the same one, one is above the other. */
  lemma AboveSame(a: Node, b: Node, n: Node)
    requires Under(a, n) && Under(b, n)
    ensures if |a.path| <= |b.path| then Under(a, b) else Under(b, a)
  {
    if |a.path| <= |b.path| {
      assert n.path[..|b.path|][..|a.path|] == n.path[..|a.path|];
    } else {
      assert n.path[..|a.path|][..|b.path|] == n.path[..|b.path|];
    }
  }

  /** A process that is at `a`, which is not above the left side of list `m`, was forked for that side. */
  lemma BornInLeft(born: Node, a: Node, m: Node, n: Node)
    requires MayReach(born, a) && Under(a, n) && Under(m.Child(Left), n) && |a.path| > |m.path|
    ensures Under(m.Child(Left), born) && Under(born, n)
  {
    AboveSame(m.Child(Left), a, n);
    LeftIsBorn(born, a, m);
    UnderTrans(born, a, n);
  }

  /** What is above a node of the left side of `m`, and no deeper than `m`, is above the right side too. */
  lemma AboveBoth(a: Node, m: Node, n: Node, r: Node)
    requires Under(a, n) && Under(m.Child(Left), n) && Under(m.Child(Right), r) && |a.path| <= |m.path|
    ensures Under(a, r) && Under(a, m)
  {
    SidesApart(m);
    AboveSame(a, m, n);
    UnderTrans(a, m, r);
  }

  lemma OwnersAreAbove(pc: Pc, n: Node)
    requires Concerned(pc, n)
    ensures HasPlace(pc) && Under(pc.node, n)
  {
    if pc.Program? {
      UnderSelf(n);
    } else {
      SidesApart(pc.node);
    }
  }

  /** A process above list `m` that owns a node in its left side owns all of `m`; at `m` itself it does not, once it
      has forked. */
  lemma OwnsBoth(jobs: Jobs, pc: Pc, m: Node, n: Node, r: Node)
    requires HasPlace(pc) && (!pc.Enter? ==> pc.node != m) && !pc.Program?
    requires Owns(pc, n) && Under(m.Child(Left), n) && Under(m.Child(Right), r) && |pc.node.path| <= |m.path|
    ensures Owns(pc, r)
  {
    hide Under;
    OwnersAreAbove(pc, n);
    var a := pc.node;
    AboveBoth(a, m, n, r);
    if !pc.Enter? {
      Shorter(a, m);
      forall d | Under(a.Child(d), n) ensures Under(a.Child(d), r) {
        AboveBoth(a.Child(d), m, n, r);
      }
    }
  }

  lemma Shorter(a: Node, m: Node)
    requires Under(a, m) && a != m
    ensures |a.path| < |m.path|
  {
  }

  lemma OnlyBeforeFork(jobs: Jobs, x: Proc, m: Node, n: Node)
    requires PlaceInv(jobs, x) && IsList(jobs, m) && Concerned(x.pc, n) && Under(m.Child(Left), n)
    ensures HasPlace(x.pc) && x.pc.node == m ==> x.pc.Enter?
    ensures x.pc.Program? ==> |x.pc.node.path| > |m.path|
  {
    hide CmdAt, MayReach;
    SidesApart(m);
  }

  /** Whoever is concerned with a node in the left side of list `m` was forked for that side, or has the right side
      still to run as well. */
  lemma ConcernedWithLeft(jobs: Jobs, x: Proc, m: Node, n: Node, r: Node)
    requires PlaceInv(jobs, x) && IsList(jobs, m) && Concerned(x.pc, n)
    requires Under(m.Child(Left), n) && Under(m.Child(Right), r)
    ensures Owns(x.pc, r) || (Under(m.Child(Left), x.born) && Under(x.born, n))
  {
    hide Under, CmdAt, MayReach;
    SidesApart(m);
    OwnersAreAbove(x.pc, n);
    var a := x.pc.node;
    if |a.path| > |m.path| {
      if x.pc.InPipeKid? {
        AboveSame(m.Child(Left), a, n);
        UnderChild(m.Child(Left), a, x.pc.side);
      } else {
        BornInLeft(x.born, a, m, n);
      }
    } else {
      OnlyBeforeFork(jobs, x, m, n);
      OwnsBoth(jobs, x.pc, m, n, r);
    }
  }

  /** `left ; right`: from when a program of the right side starts, no process is concerned any more with a program of
      the left side, unless a background node inside it stands above. */
  lemma LeftIsOver(s: Sys, e: Event, m: Node, n: Node, r: Node, q: Pid)
    requires Inv(s) && IsList(s.jobs, m) && Begins(s, e, r) && q in s.procs
    requires Under(m.Child(Left), n) && Under(m.Child(Right), r) && !InBackground(s.jobs, n, |m.path| + 1)
    ensures !Concerned(s.procs[q].pc, n)
  {
    hide Under, PlaceInv, FdsInv, Next, CmdAt, FamilyInv, InBackground, IsList, OnePipeEach, Untouched;
    if Concerned(s.procs[q].pc, n) {
      var p := e.p;
      BeginnerEnters(s, e, r);
      InPlace(s, q);
      ConcernedWithLeft(s.jobs, s.procs[q], m, n, r);
      UnderSelf(r);
      SidesApart(m);
      if Owns(s.procs[q].pc, r) {
        assert q == p;
        OwnersAreAbove(s.procs[q].pc, n);
        NotAboveOther(m, n, r);
      } else {
        AboveForeground(s.jobs, s.procs[q].born, n, |m.path| + 1);
        ShellHasNoPlace(s, q, n);
        var p' := LeftIsHeldByList(s, m, q);
        WaiterOwnsRight(s, p', p, m, r);
      }
    }
  }

  lemma WaiterOwnsRight(s: Sys, p: Pid, q: Pid, m: Node, r: Node)
    requires Disjoint(s) && p in s.procs && q in s.procs && Owns(s.procs[q].pc, r)
    requires s.procs[p].pc.ListWait? && s.procs[p].pc.node == m && Under(m.Child(Right), r)
    ensures p == q
  {
    assert Owns(s.procs[p].pc, r);
  }

  lemma NotAboveOther(m: Node, n: Node, r: Node)
    requires Under(m.Child(Left), n) && Under(m.Child(Right), r)
    ensures !Under(r, n)
  {
    SidesApart(m);
    if Under(r, n) {
      UnderTrans(m.Child(Right), r, n);
    }
  }

  lemma BeginnerEnters(s: Sys, e: Event, n: Node)
    requires Begins(s, e, n)
    ensures s.procs[e.p].pc == Enter(n)
  {
    hide CmdAt, LowestFree;
  }

  lemma InPlace(s: Sys, p: Pid)
    requires Inv(s) && p in s.procs
    ensures PlaceInv(s.jobs, s.procs[p])
  {
    assert ProcInv(s.jobs, s.pipes, s.procs[p]);
  }

  lemma ShellHasNoPlace(s: Sys, p: Pid, n: Node)
    requires Inv(s) && p in s.procs && Concerned(s.procs[p].pc, n)
    ensures p != SHELL
  {
    hide AllProcs, Disjoint, Untouched, OnePipeEach;
  }

  lemma {:induction false} OwnedEarlier(es: seq<Event>, k: nat, i: nat, n: Node)
    requires Run(es).Some? && k <= i <= |es| && Run(es[..k]).Some? && Run(es[..i]).Some?
    requires n.job < |Run(es[..k]).value.jobs|
    ensures Run(es[..k]).value.jobs <= Run(es[..i]).value.jobs
    ensures IsExec(Run(es[..i]).value.jobs, n) == IsExec(Run(es[..k]).value.jobs, n)
    ensures IsExec(Run(es[..i]).value.jobs, n) && Owned(Run(es[..i]).value, n) ==> Owned(Run(es[..k]).value, n)
    decreases i
  {
    hide Owned, Begins, GivesUp, Inv, IsExec, Next, Run;
    if k < i {
      RunPrefix(es, i - 1);
      var s, e := Run(es[..i - 1]).value, es[i - 1];
      RunKeepsInv(es[..i - 1]);
      OwnedEarlier(es, k, i - 1, n);
      JobsGrow(s, e);
      SameExec(s.jobs, Next(s, e).value.jobs, n);
      if IsExec(s.jobs, n) {
        NextDuty(s, e, n);
      }
    }
  }

  /** `left ; right` in a run: every program of the left side that no background node inside it stands above starts
      before any program of the right side. */
  lemma LeftRunsBeforeRight(es: seq<Event>, i: nat, k: nat, m: Node, n: Node, r: Node)
    requires Run(es).Some? && Starts(es, i, n) && Starts(es, k, r) && IsList(Run(es[..k]).value.jobs, m)
    requires Under(m.Child(Left), n) && Under(m.Child(Right), r)
    requires !InBackground(Run(es[..k]).value.jobs, n, |m.path| + 1)
    ensures i < k
  {
    hide Begins, Under, Inv, InBackground, Next, Run;
    var s := Run(es[..k]).value;
    RunKeepsInv(es[..k]);
    RunKeepsInv(es[..i]);
    ProgramIsExec(s, es[k], r);
    assert n.job == r.job by {
      SidesApart(m);
      SameJob(m, n);
      SameJob(m, r);
    }
    if k <= i {
      OwnedEarlier(es, k, i, n);
      StarterOwns(Run(es[..i]).value, es[i], n);
      var q :| q in s.procs && Owns(s.procs[q].pc, n);
      LeftIsOver(s, es[k], m, n, r, q);
    }
  }

  lemma SameJob(m: Node, n: Node)
    requires Under(m, n)
    ensures n.job == m.job
  {
  }

  lemma StarterOwns(s: Sys, e: Event, n: Node)
    requires Inv(s) && Begins(s, e, n)
    ensures Owned(s, n) && IsExec(s.jobs, n)
  {
    hide Inv;
    BeginnerEnters(s, e, n);
    ProgramIsExec(s, e, n);
    UnderSelf(n);
    assert Owns(s.procs[e.p].pc, n);
  }
}
