/** What holds over whole shell sessions: descriptors at execve, children at every wait, one pipe per pipe node, and
    nothing but background jobs left behind a prompt. */
module ShellSession {
  import opened Prelude
  import opened ShellGrammar
  import opened ShellRun
  import opened ShellRunTheorems

  // ---------- Families ----------

  /** The process was forked by a background node. */
  ghost predicate BackBorn(jobs: Jobs, b: Node) { b.path != [] && IsBack(jobs, b.Parent()) }

  /** A process at `pc` may have an unreaped child that was forked to run `b`. */
  ghost predicate KidOf(jobs: Jobs, pc: Pc, b: Node) {
    match pc
    case PromptWait(_) => b.path == []
    case ListWait(n, _) => b == n.Child(Left)
    case InPipe(n, _, _, _) => b == n.Child(Left) || b == n.Child(Right)
    case Exiting => BackBorn(jobs, b)
    case _ => false
  }

  predicate ShellPc(pc: Pc) { pc.Prompt? || pc.PromptWait? }

  /** What a step does to the family of the process that takes it. */
  ghost predicate FamilyStep(s: Sys, p: Pid, x: Proc, f: Effect) {
    var self := f.act.self;
    && self.parent == x.parent && self.born == x.born
    && s.jobs <= f.jobs
    && x.pc != Zombie && (ShellPc(self.pc) ==> ShellPc(x.pc))
    && (ShellPc(x.pc) || x.pc == Exiting ==> ShellPc(self.pc) || self.pc == Exiting || self.pc == Zombie)
    && (forall b :: KidOf(f.jobs, x.pc, b) && self.kids != {} ==> KidOf(f.jobs, self.pc, b))
    && match f.act
       case Move(_) => self.kids == x.kids || (self.kids == {} && x.pc == Exiting)
       case Wait(_, dead) =>
         && dead in x.kids && self.kids == x.kids - {dead}
         && dead in s.procs && s.procs[dead].pc == Zombie
       case Fork(_, child) =>
         && self.kids == x.kids + {s.nextPid} && child.kids == {} && child.parent == p && !ShellPc(child.pc)
         && child.born.job < |f.jobs| && KidOf(f.jobs, self.pc, child.born)
  }

  lemma EnterFamily(s: Sys, p: Pid, x: Proc, n: Node, c: Cmd<string>, e: Event, f: Effect)
    requires x.pc == Enter(n) && CmdAt(s.jobs, n) == Some(c) && PlaceInv(s.jobs, x)
    requires EnterStep(s, p, x, n, c, e) == Some(f)
    ensures FamilyStep(s, p, x, f)
  {
    hide FamilyStep, CmdAt;
    CmdAtHasJob(s.jobs, n);
    if c.List? {
      EnterListFamily(s, p, x, n, c, e, f);
    } else if c.Back? {
      EnterBackFamily(s, p, x, n, c, e, f);
    } else {
      EnterMoves(s, p, x, n, c, e, f);
    }
  }

  lemma EnterListFamily(s: Sys, p: Pid, x: Proc, n: Node, c: Cmd<string>, e: Event, f: Effect)
    requires x.pc == Enter(n) && c.List? && x.kids == {} && n.job < |s.jobs|
    requires EnterStep(s, p, x, n, c, e) == Some(f)
    ensures FamilyStep(s, p, x, f)
  {
    hide BackBorn;
  }

  lemma EnterBackFamily(s: Sys, p: Pid, x: Proc, n: Node, c: Cmd<string>, e: Event, f: Effect)
    requires x.pc == Enter(n) && c.Back? && CmdAt(s.jobs, n) == Some(c) && x.kids == {} && n.job < |s.jobs|
    requires EnterStep(s, p, x, n, c, e) == Some(f)
    ensures FamilyStep(s, p, x, f)
  {
    ChildOf(n, Sub);
    assert BackBorn(s.jobs, n.Child(Sub));
    hide BackBorn, CmdAt;
  }

  lemma EnterMoves(s: Sys, p: Pid, x: Proc, n: Node, c: Cmd<string>, e: Event, f: Effect)
    requires x.pc == Enter(n) && !c.List? && !c.Back? && x.kids == {}
    requires EnterStep(s, p, x, n, c, e) == Some(f)
    ensures FamilyStep(s, p, x, f)
  {
    hide BackBorn, LowestFree;
  }

  lemma PromptFamily(s: Sys, p: Pid, x: Proc, e: Event, f: Effect)
    requires x.pc == Prompt && PlaceInv(s.jobs, x) && PromptStep(s, p, x, e) == Some(f)
    ensures FamilyStep(s, p, x, f)
  {
  }

  lemma PipeFamily(s: Sys, p: Pid, x: Proc, n: Node, at: PipePc, ends: Ends, forked: set<Pid>, e: Event, f: Effect)
    requires x.pc == InPipe(n, at, ends, forked) && PlaceInv(s.jobs, x)
    requires PipeStep(s, p, x, n, at, ends, forked, e) == Some(f)
    ensures FamilyStep(s, p, x, f)
  {
    hide FamilyStep, CmdAt;
    CmdAtHasJob(s.jobs, n);
    if at.SecondWait? {
      LastWait(s, x, e, Exiting, f);
      PipeLastWait(s, p, x, n, at, ends, forked, e, f);
    } else {
      PipeBeforeLastWait(s, p, x, n, at, ends, forked, e, f);
    }
  }

  lemma PipeLastWait(s: Sys, p: Pid, x: Proc, n: Node, at: PipePc, ends: Ends, forked: set<Pid>, e: Event, f: Effect)
    requires x.pc == InPipe(n, at, ends, forked) && at.SecondWait? && f.act.self.kids == {}
    requires PipeStep(s, p, x, n, at, ends, forked, e) == Some(f)
    ensures FamilyStep(s, p, x, f)
  {
    hide BackBorn;
  }

  lemma PipeBeforeLastWait(s: Sys, p: Pid, x: Proc, n: Node, at: PipePc, ends: Ends, forked: set<Pid>, e: Event,
                           f: Effect)
    requires x.pc == InPipe(n, at, ends, forked) && !at.SecondWait? && n.job < |s.jobs|
    requires PipeStep(s, p, x, n, at, ends, forked, e) == Some(f)
    ensures FamilyStep(s, p, x, f)
  {
    hide BackBorn, Close;
  }

  lemma StepFamily(s: Sys, p: Pid, x: Proc, e: Event, f: Effect)
    requires PlaceInv(s.jobs, x) && ProcStep(s, p, x, e) == Some(f)
    ensures FamilyStep(s, p, x, f)
  {
    match x.pc
    case Prompt => PromptFamily(s, p, x, e, f);
    case PromptWait(_) => LastWait(s, x, e, Prompt, f);
    case Enter(n) => EnterFamily(s, p, x, n, CmdAt(s.jobs, n).value, e, f);
    case ListWait(n, _) => LastWait(s, x, e, Enter(n.Child(Right)), f);
    case InPipe(n, at, ends, forked) => PipeFamily(s, p, x, n, at, ends, forked, e, f);
    case _ =>
  }

  /** Who is whose child. A process not forked by a background node stays a child of its living parent until reaped. */
  ghost predicate FamilyInv(s: Sys) {
    && Roster(s)
    && (forall p, k :: p in s.procs && k in s.procs[p].kids ==> IsKid(s, p, k))
    && (forall q :: q in s.procs && q != SHELL && !BackBorn(s.jobs, s.procs[q].born) ==> IsHeld(s, q))
  }

  ghost predicate Roster(s: Sys) {
    && SHELL in s.procs
    && (forall p :: p in s.procs ==> p < s.nextPid)
    && (forall p :: p in s.procs && ShellPc(s.procs[p].pc) ==> p == SHELL)
    && (var pc := s.procs[SHELL].pc; ShellPc(pc) || pc == Exiting || pc == Zombie)
    && (forall q :: q in s.procs && q != SHELL ==> s.procs[q].born.job < |s.jobs|)
  }

  ghost predicate IsKid(s: Sys, p: Pid, k: Pid)
    requires p in s.procs
  {
    && k in s.procs && k != SHELL && s.procs[k].parent == p
    && KidOf(s.jobs, s.procs[p].pc, s.procs[k].born)
  }

  ghost predicate IsHeld(s: Sys, q: Pid)
    requires q in s.procs
  {
    s.procs[q].parent in s.procs && q in s.procs[s.procs[q].parent].kids
  }

  lemma MoreJobs(s: Sys, jobs: Jobs)
    requires FamilyInv(s) && s.jobs <= jobs
    ensures FamilyInv(s.(jobs := jobs))
  {
    var s' := s.(jobs := jobs);
    assert jobs == s.jobs + jobs[|s.jobs|..];
    forall b: Node | b.job < |s.jobs| ensures BackBorn(jobs, b) == BackBorn(s.jobs, b) {
      if b.path != [] {
        CmdAtStable(s.jobs, jobs[|s.jobs|..], b.Parent());
      }
    }
    forall q, k | q in s'.procs && k in s'.procs[q].kids ensures IsKid(s', q, k) {
      assert IsKid(s, q, k);
    }
    forall q | q in s'.procs && q != SHELL && !BackBorn(jobs, s'.procs[q].born) ensures IsHeld(s', q) {
      assert IsHeld(s, q);
    }
  }

  lemma FamilyMove(s: Sys, p: Pid, f: Effect)
    requires FamilyInv(s) && p in s.procs && FamilyStep(s, p, s.procs[p], f) && f.jobs == s.jobs && f.act.Move?
    ensures FamilyInv(Apply(s, p, f))
  {
    hide BackBorn;
    var s' := Apply(s, p, f);
    forall q, k | q in s'.procs && k in s'.procs[q].kids ensures IsKid(s', q, k) {
      assert IsKid(s, q, k);
    }
    forall q | q in s'.procs && q != SHELL && !BackBorn(s'.jobs, s'.procs[q].born) ensures IsHeld(s', q) {
      assert IsHeld(s, q);
      assert IsKid(s, s.procs[q].parent, q);
    }
  }

  lemma FamilyWait(s: Sys, p: Pid, f: Effect)
    requires FamilyInv(s) && p in s.procs && FamilyStep(s, p, s.procs[p], f) && f.jobs == s.jobs && f.act.Wait?
    requires s.procs[f.act.dead].kids == {} && f.act.dead != p
    ensures FamilyInv(Apply(s, p, f))
  {
    hide BackBorn, KidOf;
    var s' := Apply(s, p, f);
    assert IsKid(s, p, f.act.dead);
    forall q, k | q in s'.procs && k in s'.procs[q].kids ensures IsKid(s', q, k) {
      assert IsKid(s, q, k);
    }
    forall q | q in s'.procs && q != SHELL && !BackBorn(s'.jobs, s'.procs[q].born) ensures IsHeld(s', q) {
      assert IsHeld(s, q);
    }
  }

  lemma ForkRoster(s: Sys, p: Pid, f: Effect)
    requires FamilyInv(s) && p in s.procs && FamilyStep(s, p, s.procs[p], f) && f.jobs == s.jobs && f.act.Fork?
    ensures Roster(Apply(s, p, f))
  {
  }

  lemma ForkKid(s: Sys, p: Pid, f: Effect, q: Pid, k: Pid)
    requires FamilyInv(s) && p in s.procs && FamilyStep(s, p, s.procs[p], f) && f.jobs == s.jobs && f.act.Fork?
    requires q in Apply(s, p, f).procs && k in Apply(s, p, f).procs[q].kids
    ensures IsKid(Apply(s, p, f), q, k)
  {
    assert s.nextPid !in s.procs;
    if q in s.procs && k in s.procs[q].kids {
      assert IsKid(s, q, k);
    }
  }

  lemma ForkHeld(s: Sys, p: Pid, f: Effect, q: Pid)
    requires FamilyInv(s) && p in s.procs && FamilyStep(s, p, s.procs[p], f) && f.jobs == s.jobs && f.act.Fork?
    requires q in Apply(s, p, f).procs && q != SHELL && !BackBorn(s.jobs, Apply(s, p, f).procs[q].born)
    ensures IsHeld(Apply(s, p, f), q)
  {
    assert s.nextPid !in s.procs;
    if q in s.procs {
      assert IsHeld(s, q);
    }
  }

  lemma FamilyFork(s: Sys, p: Pid, f: Effect)
    requires FamilyInv(s) && p in s.procs && FamilyStep(s, p, s.procs[p], f) && f.jobs == s.jobs && f.act.Fork?
    ensures FamilyInv(Apply(s, p, f))
  {
    var s' := Apply(s, p, f);
    ForkRoster(s, p, f);
    forall q, k | q in s'.procs && k in s'.procs[q].kids ensures IsKid(s', q, k) {
      ForkKid(s, p, f, q, k);
    }
    forall q | q in s'.procs && q != SHELL && !BackBorn(s'.jobs, s'.procs[q].born) ensures IsHeld(s', q) {
      ForkHeld(s, p, f, q);
    }
  }

  // ---------- Territories: no node is ever run twice ----------

  ghost predicate Under(m: Node, n: Node) {
    n.job == m.job && |m.path| <= |n.path| && m.path == n.path[..|m.path|]
  }

  /** The nodes a process at `pc`, or a process it has yet to fork, has still to enter. */
  ghost predicate Owns(pc: Pc, n: Node) {
    match pc
    case Enter(m) => Under(m, n)
    case RedirOpen(m) => Under(m.Child(Sub), n)
    case ListWait(m, _) => Under(m.Child(Right), n)
    case InPipe(m, at, _, _) =>
      (at.ForkLeft? && Under(m.Child(Left), n)) || ((at.ForkLeft? || at.ForkRight?) && Under(m.Child(Right), n))
    case InPipeKid(m, side, _, _) => Under(m.Child(side), n)
    case _ => false
  }

  /** What a step does to the territory of the process that takes it. */
  ghost predicate TerritoryStep(s: Sys, x: Proc, f: Effect) {
    && |s.jobs| <= |f.jobs|
    && (forall n :: Owns(f.act.self.pc, n) ==> Owns(x.pc, n))
    && (f.act.Fork? ==> forall n :: Owns(f.act.child.pc, n) ==>
          (Owns(x.pc, n) || |s.jobs| <= n.job < |f.jobs|) && !Owns(f.act.self.pc, n))
    && (f.pipes == s.pipes || PipeMade(s, x, f))
  }

  ghost predicate PipeMade(s: Sys, x: Proc, f: Effect) {
    && f.act.Move? && |f.pipes| == |s.pipes| + 1
    && var n := f.pipes[|s.pipes|];
       f.pipes == s.pipes + [n] && Owns(x.pc, n) && !Owns(f.act.self.pc, n)
  }

  lemma SidesApart(m: Node)
    ensures forall n, d :: Under(m.Child(d), n) ==> Under(m, n) && n.path[|m.path|..] != [] && n.path[|m.path|] == d
  {
    forall n, d | Under(m.Child(d), n)
      ensures Under(m, n) && n.path[|m.path|..] != [] && n.path[|m.path|] == d
    {
      var k := |m.path|;
      assert n.path[k] == n.path[..k + 1][k] == m.Child(d).path[k];
      assert n.path[..k] == n.path[..k + 1][..k] == m.path;
    }
  }

  lemma EnterTerritory(s: Sys, p: Pid, x: Proc, n: Node, c: Cmd<string>, e: Event, f: Effect)
    requires x.pc == Enter(n) && EnterStep(s, p, x, n, c, e) == Some(f)
    ensures TerritoryStep(s, x, f)
  {
    SidesApart(n);
    if c.Pipe? && e.Go? {
      assert f.pipes[|s.pipes|] == n && Under(n, n);
    }
  }

  lemma PipeTerritory(s: Sys, p: Pid, x: Proc, n: Node, at: PipePc, ends: Ends, forked: set<Pid>, e: Event, f: Effect)
    requires x.pc == InPipe(n, at, ends, forked) && PipeStep(s, p, x, n, at, ends, forked, e) == Some(f)
    ensures TerritoryStep(s, x, f)
  {
    SidesApart(n);
  }

  lemma StepTerritory(s: Sys, p: Pid, x: Proc, e: Event, f: Effect)
    requires ProcStep(s, p, x, e) == Some(f)
    ensures TerritoryStep(s, x, f)
  {
    match x.pc
    case Enter(n) => EnterTerritory(s, p, x, n, CmdAt(s.jobs, n).value, e, f);
    case InPipe(n, at, ends, forked) => PipeTerritory(s, p, x, n, at, ends, forked, e, f);
    case _ =>
  }

  ghost predicate Disjoint(s: Sys) {
    forall p, q, n :: p in s.procs && q in s.procs && Owns(s.procs[p].pc, n) && Owns(s.procs[q].pc, n) ==> p == q
  }

  /** A node that is still to be entered belongs to a job that has been read and has not made its pipe. */
  ghost predicate Untouched(s: Sys) {
    && (forall p, n :: p in s.procs && Owns(s.procs[p].pc, n) ==> n.job < |s.jobs| && n !in s.pipes)
    && (forall n :: n in s.pipes ==> n.job < |s.jobs|)
  }

  ghost predicate OnePipeEach(s: Sys) {
    forall i, j :: 0 <= i < j < |s.pipes| ==> s.pipes[i] != s.pipes[j]
  }

  /** Whoever owns a node after the step owned it before, or it is a new job, or the parent did. */
  lemma OwnerBefore(s: Sys, p: Pid, f: Effect, q: Pid, n: Node)
    requires FamilyInv(s) && p in s.procs && TerritoryStep(s, s.procs[p], f)
    requires q in Apply(s, p, f).procs && Owns(Apply(s, p, f).procs[q].pc, n)
    ensures q in s.procs || (f.act.Fork? && q == s.nextPid)
    ensures q in s.procs ==> Owns(s.procs[q].pc, n)
    ensures q !in s.procs ==> Owns(s.procs[p].pc, n) || |s.jobs| <= n.job < |f.jobs|
    ensures q !in s.procs ==> !Owns(f.act.self.pc, n)
  {
  }

  lemma DisjointKept(s: Sys, p: Pid, f: Effect)
    requires Disjoint(s) && Untouched(s) && FamilyInv(s) && p in s.procs && TerritoryStep(s, s.procs[p], f)
    ensures Disjoint(Apply(s, p, f))
  {
    var s' := Apply(s, p, f);
    forall q, r, n | q in s'.procs && r in s'.procs && Owns(s'.procs[q].pc, n) && Owns(s'.procs[r].pc, n)
      ensures q == r
    {
      OwnerBefore(s, p, f, q, n);
      OwnerBefore(s, p, f, r, n);
    }
  }

  lemma UntouchedKept(s: Sys, p: Pid, f: Effect)
    requires Disjoint(s) && Untouched(s) && FamilyInv(s) && p in s.procs && TerritoryStep(s, s.procs[p], f)
    ensures Untouched(Apply(s, p, f))
  {
    var s', x := Apply(s, p, f), s.procs[p];
    forall q, n | q in s'.procs && Owns(s'.procs[q].pc, n) ensures n.job < |s'.jobs| && n !in s'.pipes {
      OwnerBefore(s, p, f, q, n);
      PipesStep(s, x, f, n);
    }
    forall n | n in s'.pipes ensures n.job < |s'.jobs| {
      PipesStep(s, x, f, n);
    }
  }

  lemma OnePipeKept(s: Sys, p: Pid, f: Effect)
    requires OnePipeEach(s) && Untouched(s) && p in s.procs && TerritoryStep(s, s.procs[p], f)
    ensures OnePipeEach(Apply(s, p, f))
  {
    if PipeMade(s, s.procs[p], f) {
      assert f.pipes[|s.pipes|] !in s.pipes;
    }
  }

  lemma PipesStep(s: Sys, x: Proc, f: Effect, n: Node)
    requires TerritoryStep(s, x, f)
    ensures n in f.pipes ==> n in s.pipes || (PipeMade(s, x, f) && n == f.pipes[|s.pipes|])
    ensures n in s.pipes ==> n in f.pipes
  {
  }

  // ---------- The invariant of a session ----------

  ghost predicate AllProcs(s: Sys) {
    forall p :: p in s.procs ==> ProcInv(s.jobs, s.pipes, s.procs[p])
  }

  ghost predicate Inv(s: Sys) {
    AllProcs(s) && FamilyInv(s) && Disjoint(s) && Untouched(s) && OnePipeEach(s)
  }

  lemma AllProcsKept(s: Sys, p: Pid, f: Effect)
    requires AllProcs(s) && s.jobs <= f.jobs && s.pipes <= f.pipes && FdsKept(f) && PlaceKept(f)
    ensures AllProcs(Apply(s, p, f))
  {
    assert f.jobs == s.jobs + f.jobs[|s.jobs|..] && f.pipes == s.pipes + f.pipes[|s.pipes|..];
    forall q | q in s.procs ensures ProcInv(f.jobs, f.pipes, s.procs[q]) {
      ProcInvStable(s.jobs, s.pipes, s.procs[q], f.jobs[|s.jobs|..], f.pipes[|s.pipes|..]);
    }
  }

  lemma FamilyKept(s: Sys, p: Pid, f: Effect)
    requires AllProcs(s) && FamilyInv(s) && p in s.procs && FamilyStep(s, p, s.procs[p], f)
    ensures FamilyInv(Apply(s, p, f))
  {
    MoreJobs(s, f.jobs);
    var s1 := s.(jobs := f.jobs);
    assert Apply(s, p, f) == Apply(s1, p, f);
    match f.act
    case Move(_) => FamilyMove(s1, p, f);
    case Fork(_, _) => FamilyFork(s1, p, f);
    case Wait(_, dead) => FamilyWait(s1, p, f);
  }

  lemma StepKeepsInv(s: Sys, e: Event)
    requires Inv(s) && Next(s, e).Some?
    ensures Inv(Next(s, e).value)
  {
    hide FamilyInv, Disjoint, Untouched, OnePipeEach, PlaceInv, FdsInv, KidOf, Owns, ProcStep, Apply;
    var x := s.procs[e.p];
    var f := ProcStep(s, e.p, x, e).value;
    StepFamily(s, e.p, x, e, f);
    StepTerritory(s, e.p, x, e, f);
    StepFds(s, e.p, x, e, f);
    StepPlace(s, e.p, x, e, f);
    AllProcsKept(s, e.p, f);
    FamilyKept(s, e.p, f);
    DisjointKept(s, e.p, f);
    UntouchedKept(s, e.p, f);
    OnePipeKept(s, e.p, f);
  }

  /** Every state of every run satisfies the invariant. */
  lemma {:induction false} RunKeepsInv(es: seq<Event>)
    requires Run(es).Some?
    ensures Inv(Run(es).value)
    decreases |es|
  {
    if es != [] {
      var front := es[..|es| - 1];
      RunKeepsInv(front);
      StepKeepsInv(Run(front).value, es[|es| - 1]);
    }
  }

  // ---------- Main results ----------

  /** A program is started with exactly descriptors 0, 1 and 2 open, its standard input and output are those its
      enclosing pipes and redirections call for, and standard error is the shell's. */
  lemma ProgramsGetTheirDescriptors(es: seq<Event>, p: Pid)
    requires Run(es).Some? && p in Run(es).value.procs && Run(es).value.procs[p].pc.Program?
    ensures var s := Run(es).value;
            var x := s.procs[p];
            && x.fds.Keys == {0, 1, 2} && x.fds[2] == Inherited(2)
            && Is(s.pipes, x.fds[0], Io(s.jobs, x.pc.node).0)
            && Is(s.pipes, x.fds[1], Io(s.jobs, x.pc.node).1)
            && IsExec(s.jobs, x.pc.node)
  {
    RunKeepsInv(es);
    var s := Run(es).value;
    assert ProcInv(s.jobs, s.pipes, s.procs[p]);
    assert forall k :: k in s.procs[p].fds.Keys <==> k in {0, 1, 2};
  }

  /** No pipe node makes two pipes, so which pipe a descriptor is on says which node made it. */
  lemma OnePipePerNode(es: seq<Event>, i: nat, j: nat)
    requires Run(es).Some? && i < |Run(es).value.pipes| && j < |Run(es).value.pipes|
    requires Run(es).value.pipes[i] == Run(es).value.pipes[j]
    ensures i == j
  {
    RunKeepsInv(es);
  }

  lemma {:induction false} IoPipesEnclose(jobs: Jobs, n: Node)
    ensures Io(jobs, n).0.FromPipe? ==> Under(Io(jobs, n).0.node.Child(Right), n)
    ensures Io(jobs, n).1.ToPipe? ==> Under(Io(jobs, n).1.node.Child(Left), n)
    ensures !Io(jobs, n).0.ToPipe? && !Io(jobs, n).1.FromPipe?
    decreases |n.path|
  {
    hide Under, CmdAt;
    if n.path != [] {
      var m, d := n.Parent(), n.path[|n.path| - 1];
      IoPipesEnclose(jobs, m);
      ChildOfParent(n);
      var io := Io(jobs, m);
      if io.0.FromPipe? {
        UnderChild(io.0.node.Child(Right), m, d);
      }
      if io.1.ToPipe? {
        UnderChild(io.1.node.Child(Left), m, d);
      }
      UnderSelf(n);
    }
  }

  lemma ChildOfParent(n: Node)
    requires n.path != []
    ensures n.Parent().Child(n.path[|n.path| - 1]) == n
  {
  }

  lemma UnderSelf(n: Node)
    ensures Under(n, n)
  {
  }

  lemma UnderChild(a: Node, m: Node, d: Side)
    requires Under(a, m)
    ensures Under(a, m.Child(d))
  {
    assert m.Child(d).path[..|a.path|] == m.path[..|a.path|];
  }

  /** A pipe end among the standard descriptors of the command at `n` is there because `n` is on that side of the pipe.
      */
  ghost predicate EndInPlace(pipes: seq<Node>, f: File, fd: nat, n: Node) {
    && (f.PipeWrite? ==> fd == 1 && f.id < |pipes| && Under(pipes[f.id].Child(Left), n))
    && (f.PipeRead? ==> fd == 0 && f.id < |pipes| && Under(pipes[f.id].Child(Right), n))
  }

  lemma StdioInPlace(jobs: Jobs, pipes: seq<Node>, fds: Fds, n: Node, gone: int, fd: nat)
    requires Has(jobs, pipes, fds, n, gone) && fd in fds && fd <= 2 && fd != gone
    ensures EndInPlace(pipes, fds[fd], fd, n)
  {
    IoPipesEnclose(jobs, n);
  }

  /** No pipe end leaks: a program holds one only as its standard output, inside the left side of the node that made
      the pipe, or as its standard input, inside the right side. */
  lemma NoPipeEndLeaks(es: seq<Event>, p: Pid, fd: nat)
    requires Run(es).Some? && p in Run(es).value.procs && Run(es).value.procs[p].pc.Program?
    requires fd in Run(es).value.procs[p].fds
    ensures var s := Run(es).value;
            EndInPlace(s.pipes, s.procs[p].fds[fd], fd, s.procs[p].pc.node)
  {
    RunKeepsInv(es);
    var s := Run(es).value;
    assert ProcInv(s.jobs, s.pipes, s.procs[p]);
    StdioInPlace(s.jobs, s.pipes, s.procs[p].fds, s.procs[p].pc.node, NONE, fd);
  }

  /** The process made the pipe of node `m` and still has its ends, or is one of the two children that put them in
      place. */
  predicate SettingUp(pc: Pc, m: Node) { IsSetup(pc) && pc.node == m }

  predicate IsSetup(pc: Pc) { pc.InPipeKid? || (pc.InPipe? && !pc.at.FirstWait? && !pc.at.SecondWait?) }

  predicate HasPlace(pc: Pc) { !pc.Prompt? && !pc.PromptWait? && !pc.Exiting? && !pc.Zombie? }

  /** The command that a process works on. */
  ghost function PlaceOf(pc: Pc): Node
    requires HasPlace(pc)
  {
    if pc.InPipeKid? then pc.node.Child(pc.side) else pc.node
  }

  ghost predicate HoldsInPlace(pipes: seq<Node>, pc: Pc, f: File, fd: nat) {
    f.PipeWrite? || f.PipeRead? ==>
      && HasPlace(pc) && f.id < |pipes| && (SettingUp(pc, pipes[f.id]) || EndInPlace(pipes, f, fd, PlaceOf(pc)))
  }

  lemma KidHoldsInPlace(jobs: Jobs, pipes: seq<Node>, fds: Fds, n: Node, side: Side, step: KidPc, ends: Ends, fd: nat)
    requires KidFdsInv(jobs, pipes, fds, n, side, step, ends) && fd in fds
    ensures HoldsInPlace(pipes, InPipeKid(n, side, step, ends), fds[fd], fd)
  {
    if fd <= 2 {
      if step.CloseStd? || step.DupEnd? {
        StdioInPlace(jobs, pipes, fds, n, if step.CloseStd? then NONE else if side == Left then 1 else 0, fd);
        if fds[fd].PipeWrite? {
          UnderChild(pipes[fds[fd].id].Child(Left), n, side);
        }
        if fds[fd].PipeRead? {
          UnderChild(pipes[fds[fd].id].Child(Right), n, side);
        }
      } else {
        StdioInPlace(jobs, pipes, fds, n.Child(side), NONE, fd);
      }
    } else {
      assert PipeEnds(pipes, fds, n) && fd <= 4;
    }
  }

  lemma StageHoldsInPlace(jobs: Jobs, pipes: seq<Node>, x: Proc, fd: nat)
    requires x.pc.InPipe? && FdsInv(jobs, pipes, x) && fd in x.fds
    ensures HoldsInPlace(pipes, x.pc, x.fds[fd], fd)
  {
    if fd <= 2 {
      StdioInPlace(jobs, pipes, x.fds, x.pc.node, NONE, fd);
    } else {
      assert PipeEnds(pipes, x.fds, x.pc.node) && fd <= 4;
    }
  }

  lemma ProcHoldsInPlace(jobs: Jobs, pipes: seq<Node>, x: Proc, fd: nat)
    requires FdsInv(jobs, pipes, x) && !x.pc.Exiting? && fd in x.fds
    ensures HoldsInPlace(pipes, x.pc, x.fds[fd], fd)
  {
    hide HoldsInPlace, Io, Is, Under, CmdAt;
    match x.pc
    case InPipe(_, _, _, _) => StageHoldsInPlace(jobs, pipes, x, fd);
    case InPipeKid(n, side, step, ends) => KidHoldsInPlace(jobs, pipes, x.fds, n, side, step, ends, fd);
    case Prompt => ShellHoldsNone(pipes, x, fd);
    case PromptWait(_) => ShellHoldsNone(pipes, x, fd);
    case RedirOpen(n) => StdioHoldsInPlace(jobs, pipes, x, n, RedirFd(CmdAt(jobs, n).value.op), fd);
    case Enter(n) => StdioHoldsInPlace(jobs, pipes, x, n, NONE, fd);
    case ListWait(n, _) => StdioHoldsInPlace(jobs, pipes, x, n, NONE, fd);
    case Program(n) => StdioHoldsInPlace(jobs, pipes, x, n, NONE, fd);
    case Zombie =>
  }

  lemma ShellHoldsNone(pipes: seq<Node>, x: Proc, fd: nat)
    requires x.fds == InitFds() && fd in x.fds
    ensures HoldsInPlace(pipes, x.pc, x.fds[fd], fd)
  {
  }

  lemma StdioHoldsInPlace(jobs: Jobs, pipes: seq<Node>, x: Proc, n: Node, gone: int, fd: nat)
    requires Has(jobs, pipes, x.fds, n, gone) && fd in x.fds && fd <= 2 && fd != gone
    requires HasPlace(x.pc) && PlaceOf(x.pc) == n
    ensures HoldsInPlace(pipes, x.pc, x.fds[fd], fd)
  {
    StdioInPlace(jobs, pipes, x.fds, n, gone, fd);
  }

  /** Whoever holds an end of a pipe, and is not on its way out, is setting the pipe up or is inside the side of the
      pipe node that the end is for, with the end in its place. */
  lemma PipeEndsAreHeldInPlace(es: seq<Event>, p: Pid, fd: nat)
    requires Run(es).Some? && p in Run(es).value.procs && !Run(es).value.procs[p].pc.Exiting?
    requires fd in Run(es).value.procs[p].fds
    ensures var s := Run(es).value;
            HoldsInPlace(s.pipes, s.procs[p].pc, s.procs[p].fds[fd], fd)
  {
    hide Inv, FdsInv, HoldsInPlace;
    RunKeepsInv(es);
    FdsOf(Run(es).value, p);
    ProcHoldsInPlace(Run(es).value.jobs, Run(es).value.pipes, Run(es).value.procs[p], fd);
  }

  /** A write end is held by a process that sets its pipe up, or as the standard output of one that was forked for the
      left side. */
  ghost predicate WriterInPlace(pipes: seq<Node>, x: Proc, fd: nat)
    requires fd in x.fds
  {
    x.fds[fd].PipeWrite? ==>
      && x.fds[fd].id < |pipes|
      && (SettingUp(x.pc, pipes[x.fds[fd].id]) || (fd == 1 && Under(pipes[x.fds[fd].id].Child(Left), x.born)))
  }

  /** Whoever runs a node of a left side was forked inside it. */
  lemma LeftIsBorn(born: Node, n: Node, m: Node)
    requires MayReach(born, n) && Under(m.Child(Left), n)
    ensures Under(m.Child(Left), born)
  {
    var k := |m.path|;
    assert n.path[k] == n.path[..k + 1][k] == Left;
    assert born.path[..k + 1] == n.path[..|born.path|][..k + 1] == n.path[..k + 1];
  }

  lemma WriterAlive(es: seq<Event>, p: Pid, fd: nat)
    requires Run(es).Some? && p in Run(es).value.procs && !Run(es).value.procs[p].pc.Exiting?
    requires fd in Run(es).value.procs[p].fds
    ensures WriterInPlace(Run(es).value.pipes, Run(es).value.procs[p], fd)
  {
    RunKeepsInv(es);
    PipeEndsAreHeldInPlace(es, p, fd);
    var s := Run(es).value;
    var x := s.procs[p];
    assert PlaceInv(s.jobs, x);
    if x.fds[fd].PipeWrite? && !SettingUp(x.pc, s.pipes[x.fds[fd].id]) && !x.pc.InPipeKid? {
      LeftIsBorn(x.born, x.pc.node, s.pipes[x.fds[fd].id]);
    }
  }

  /** A process on its way out keeps its descriptors, and was not setting up a pipe; a new one has the shell's. */
  lemma ExitEffect(s: Sys, p: Pid, x: Proc, e: Event, f: Effect)
    requires FdsInv(s.jobs, s.pipes, x) && ProcStep(s, p, x, e) == Some(f)
    ensures f.act.self.pc.Exiting? ==>
              f.act.self.fds == x.fds && f.act.self.born == x.born && !IsSetup(x.pc)
    ensures f.act.Fork? && f.act.child.pc.Exiting? ==> f.act.child.fds == InitFds()
  {
    hide Std, RedirFdsInv, StageFdsInv, KidFdsInv, CmdAt, LowestFree;
  }

  /** How a process came to be on its way out: it was so already, or it took the step, or it was just forked. */
  lemma ExitStep(s: Sys, e: Event, p: Pid)
    requires Inv(s) && Next(s, e).Some? && p in Next(s, e).value.procs && Next(s, e).value.procs[p].pc.Exiting?
    ensures var x' := Next(s, e).value.procs[p];
            || x'.fds == InitFds()
            || (p in s.procs && x'.fds == s.procs[p].fds && x'.born == s.procs[p].born && !IsSetup(s.procs[p].pc))
    ensures s.pipes <= Next(s, e).value.pipes
  {
    hide Inv, FdsInv, ProcStep, Owns;
    var f := ProcStep(s, e.p, s.procs[e.p], e).value;
    FdsOf(s, e.p);
    ExitEffect(s, e.p, s.procs[e.p], e, f);
    StepTerritory(s, e.p, s.procs[e.p], e, f);
  }

  lemma FdsOf(s: Sys, p: Pid)
    requires Inv(s) && p in s.procs
    ensures FdsInv(s.jobs, s.pipes, s.procs[p])
  {
    hide FamilyInv, Disjoint, Untouched, OnePipeEach, PlaceInv;
    assert ProcInv(s.jobs, s.pipes, s.procs[p]);
  }

  /** Whoever holds the write end of a pipe, even on its way out, sets the pipe up, or was forked for its left side and
      has the end as standard output. */
  lemma {:induction false} WriteEndsBelongToTheLeft(es: seq<Event>, p: Pid, fd: nat)
    requires Run(es).Some? && p in Run(es).value.procs && fd in Run(es).value.procs[p].fds
    ensures WriterInPlace(Run(es).value.pipes, Run(es).value.procs[p], fd)
    decreases |es|
  {
    hide Inv, IsSetup, Under, Next;
    if !Run(es).value.procs[p].pc.Exiting? {
      WriterAlive(es, p, fd);
    } else {
      var front, e := es[..|es| - 1], es[|es| - 1];
      var s := Run(front).value;
      assert Run(es) == Next(s, e);
      RunKeepsInv(front);
      ExitStep(s, e, p);
      if Run(es).value.procs[p].fds != InitFds() {
        WriteEndsBelongToTheLeft(front, p, fd);
      }
    }
  }

  /** End of file: once the pipe of a node is set up and every process forked for its left side has exited, nobody holds
      the write end any more, so the right side cannot wait for input that never comes. */
  lemma NoWriterWithoutLeftSide(es: seq<Event>, id: nat, p: Pid, fd: nat)
    requires Run(es).Some? && id < |Run(es).value.pipes| && p in Run(es).value.procs && fd in Run(es).value.procs[p].fds
    requires var s := Run(es).value;
             forall q :: q in s.procs ==>
               && !SettingUp(s.procs[q].pc, s.pipes[id])
               && (s.procs[q].pc.Zombie? || !Under(s.pipes[id].Child(Left), s.procs[q].born))
    ensures Run(es).value.procs[p].fds[fd] != PipeWrite(id)
  {
    RunKeepsInv(es);
    assert ProcInv(Run(es).value.jobs, Run(es).value.pipes, Run(es).value.procs[p]);
    WriteEndsBelongToTheLeft(es, p, fd);
  }

  predicate IsWaiting(pc: Pc) {
    pc.PromptWait? || pc.ListWait? || (pc.InPipe? && (pc.at.FirstWait? || pc.at.SecondWait?))
  }

  /** At every wait4 the unreaped children are exactly those forked for the current node, less the one that the second
      wait of a pipe finds already reaped; none of them is a background job. */
  lemma WaitsFindTheirOwnChildren(es: seq<Event>, p: Pid)
    requires Run(es).Some? && p in Run(es).value.procs && IsWaiting(Run(es).value.procs[p].pc)
    ensures var s := Run(es).value;
            var x := s.procs[p];
            && (if x.pc.InPipe? && x.pc.at.SecondWait?
                then x.kids <= x.pc.forked && |x.kids| == (if x.pc.forked == {} then 0 else |x.pc.forked| - 1)
                else x.kids == x.pc.forked)
            && forall k :: k in x.kids ==>
                 && k in s.procs && s.procs[k].parent == p && !BackBorn(s.jobs, s.procs[k].born)
                 && KidOf(s.jobs, x.pc, s.procs[k].born)
  {
    RunKeepsInv(es);
    var s := Run(es).value;
    var x := s.procs[p];
    assert ProcInv(s.jobs, s.pipes, x);
    forall k | k in x.kids
      ensures k in s.procs && s.procs[k].parent == p && !BackBorn(s.jobs, s.procs[k].born)
      ensures KidOf(s.jobs, x.pc, s.procs[k].born)
    {
      assert IsKid(s, p, k);
      if !x.pc.PromptWait? {
        ChildOf(x.pc.node, Left);
        ChildOf(x.pc.node, Right);
      }
    }
    if x.pc.InPipe? && x.pc.forked == {} {
      assert x.kids == {};
    }
  }

  /** Some node above `b`, or at the given depth and below, is a background node. */
  ghost predicate InBackground(jobs: Jobs, b: Node, from: nat := 0) {
    exists i :: from <= i < |b.path| && IsBack(jobs, Node(b.job, b.path[..i]))
  }

  /** The process that still holds `q` as a child, when `q` was not forked by a background node. */
  lemma HolderOf(s: Sys, q: Pid) returns (p: Pid)
    requires Inv(s) && q in s.procs && q != SHELL && !BackBorn(s.jobs, s.procs[q].born)
    ensures p in s.procs && q in s.procs[p].kids && ProcInv(s.jobs, s.pipes, s.procs[p])
    ensures KidOf(s.jobs, s.procs[p].pc, s.procs[q].born)
    ensures p != SHELL ==> s.procs[p].pc.ListWait? || s.procs[p].pc.InPipe?
    ensures p != SHELL ==> s.procs[q].born.path != [] && s.procs[p].pc.node == s.procs[q].born.Parent()
    ensures p == SHELL ==> s.procs[q].born.path == []
  {
    assert IsHeld(s, q);
    p := s.procs[q].parent;
    assert IsKid(s, p, q);
    if s.procs[p].pc.ListWait? || s.procs[p].pc.InPipe? {
      ChildOf(s.procs[p].pc.node, Left);
      ChildOf(s.procs[p].pc.node, Right);
    }
  }

  lemma NotBackBorn(jobs: Jobs, b: Node, from: nat)
    requires !InBackground(jobs, b, from) && from < |b.path|
    ensures !BackBorn(jobs, b)
  {
    assert b.Parent() == Node(b.job, b.path[..|b.path| - 1]);
  }

  lemma AboveForeground(jobs: Jobs, a: Node, b: Node, from: nat)
    requires Under(a, b) && !InBackground(jobs, b, from)
    ensures !InBackground(jobs, a, from)
  {
    forall i | from <= i < |a.path| ensures !IsBack(jobs, Node(a.job, a.path[..i])) {
      assert a.path[..i] == b.path[..i];
    }
  }

  /** Following parents up from a process that is not in the background leads to the shell, which still holds a child.
      */
  lemma {:induction false} ForegroundIsHeldByShell(s: Sys, q: Pid)
    requires Inv(s) && q in s.procs && q != SHELL && !InBackground(s.jobs, s.procs[q].born)
    ensures s.procs[SHELL].kids != {}
    decreases |s.procs[q].born.path|
  {
    var b := s.procs[q].born;
    if b.path != [] {
      NotBackBorn(s.jobs, b, 0);
    }
    var p := HolderOf(s, q);
    if p != SHELL {
      var a := s.procs[p].born;
      assert a.path == b.Parent().path[..|a.path|] == b.path[..|a.path|];
      AboveForeground(s.jobs, a, b, 0);
      ForegroundIsHeldByShell(s, p);
    }
  }

  /** When the shell prompts, every process left was started under a background node. */
  lemma OnlyBackgroundAtPrompt(es: seq<Event>, q: Pid)
    requires Run(es).Some? && SHELL in Run(es).value.procs && Run(es).value.procs[SHELL].pc.Prompt?
    requires q in Run(es).value.procs && q != SHELL
    ensures InBackground(Run(es).value.jobs, Run(es).value.procs[q].born)
  {
    RunKeepsInv(es);
    var s := Run(es).value;
    assert ProcInv(s.jobs, s.pipes, s.procs[SHELL]);
    if !InBackground(s.jobs, s.procs[q].born) {
      ForegroundIsHeldByShell(s, q);
      assert false;
    }
  }

  /** From a process in the left side of list `m`, parents lead up to the one that waits at `m`. */
  lemma {:induction false} LeftIsHeldByList(s: Sys, m: Node, q: Pid) returns (p: Pid)
    requires Inv(s) && IsList(s.jobs, m) && q in s.procs && q != SHELL && Under(m.Child(Left), s.procs[q].born)
    requires !InBackground(s.jobs, s.procs[q].born, |m.path| + 1)
    ensures p in s.procs && s.procs[p].pc.ListWait? && s.procs[p].pc.node == m
    decreases |s.procs[q].born.path|
  {
    hide Inv, FdsInv, KidOf, CmdAt;
    var b, k := s.procs[q].born, |m.path|;
    assert b.path[k] == b.path[..k + 1][k] == Left && b.path[..k] == b.path[..k + 1][..k] == m.path;
    if |b.path| == k + 1 {
      assert b.Parent() == m;
    } else {
      NotBackBorn(s.jobs, b, k + 1);
    }
    p := HolderOf(s, q);
    if |b.path| > k + 1 {
      var n, a := b.Parent(), s.procs[p].born;
      assert n.path[k] == Left && |a.path| > k;
      assert a.path[..k + 1] == n.path[..|a.path|][..k + 1] == b.path[..k + 1];
      assert a.path == n.path[..|a.path|] == b.path[..|a.path|];
      AboveForeground(s.jobs, a, b, k + 1);
      p := LeftIsHeldByList(s, m, p);
    }
  }

  /** `left ; right`: when right is about to run, every process of left that is still there was put in the
      background inside left. */
  lemma RightStartsAfterLeft(es: seq<Event>, m: Node, p: Pid, q: Pid)
    requires Run(es).Some? && p in Run(es).value.procs && q in Run(es).value.procs && q != SHELL
    requires IsList(Run(es).value.jobs, m) && Run(es).value.procs[p].pc == Enter(m.Child(Right))
    requires Under(m.Child(Left), Run(es).value.procs[q].born)
    ensures InBackground(Run(es).value.jobs, Run(es).value.procs[q].born, |m.path| + 1)
  {
    RunKeepsInv(es);
    var s := Run(es).value;
    if !InBackground(s.jobs, s.procs[q].born, |m.path| + 1) {
      var p' := LeftIsHeldByList(s, m, q);
      assert Owns(s.procs[p].pc, m.Child(Right)) && Owns(s.procs[p'].pc, m.Child(Right));
      assert false;
    }
  }

  // ---------- Nobody is stuck ----------

  lemma {:induction false} DeeperIsSmaller(jobs: Jobs, a: Node, b: Node)
    requires Under(a, b) && CmdAt(jobs, b).Some?
    ensures CmdAt(jobs, a).Some? && Size(CmdAt(jobs, b).value) <= Size(CmdAt(jobs, a).value)
    ensures |a.path| < |b.path| ==> Size(CmdAt(jobs, b).value) < Size(CmdAt(jobs, a).value)
    decreases |b.path|
  {
    if |a.path| < |b.path| {
      assert Under(a, b.Parent());
      DeeperIsSmaller(jobs, a, b.Parent());
    } else {
      assert a == b;
    }
  }

  /** How large the command is at which a process waits. */
  ghost function WaitRank(s: Sys, p: Pid): nat
    requires p in s.procs
  {
    var pc := s.procs[p].pc;
    if IsWaiting(pc) && !pc.PromptWait? && CmdAt(s.jobs, pc.node).Some? then Size(CmdAt(s.jobs, pc.node).value) else 0
  }

  lemma KidRanksLower(s: Sys, p: Pid, k: Pid)
    requires Inv(s) && p in s.procs && p != SHELL && IsWaiting(s.procs[p].pc) && k in s.procs[p].kids
    ensures k in s.procs && WaitRank(s, k) < WaitRank(s, p)
  {
    assert IsKid(s, p, k);
    var n, pc := s.procs[p].pc.node, s.procs[k].pc;
    assert PlaceInv(s.jobs, s.procs[p]) && PlaceInv(s.jobs, s.procs[k]);
    if IsWaiting(pc) {
      var b := s.procs[k].born;
      assert b.path[..|n.path|] == n.path;
      assert pc.node.path[..|n.path|] == pc.node.path[..|b.path|][..|n.path|] == n.path;
      DeeperIsSmaller(s.jobs, n, pc.node);
    }
  }

  /** A process that is not waiting for a living child can act itself. */
  lemma ActsItself(s: Sys, p: Pid) returns (e: Event)
    requires Inv(s) && p in s.procs && s.procs[p].pc != Zombie
    requires IsWaiting(s.procs[p].pc) ==> s.procs[p].kids == {}
    ensures e.p == p && Next(s, e).Some? && !e.Fail?
  {
    hide FamilyInv, Disjoint, Untouched, OnePipeEach, PlaceInv, Next;
    e := ActsInPlace(s, p);
  }

  lemma ActsInPlace(s: Sys, p: Pid) returns (e: Event)
    requires p in s.procs && PlaceInv(s.jobs, s.procs[p]) && s.procs[p].pc != Zombie
    requires IsWaiting(s.procs[p].pc) ==> s.procs[p].kids == {}
    ensures e.p == p && Next(s, e).Some? && !e.Fail?
  {
    e := if s.procs[p].pc == Prompt then EndOfInput(p) else Go(p);
  }

  ghost predicate WaitsFor(s: Sys, p: Pid, k: Pid) {
    p in s.procs && IsWaiting(s.procs[p].pc) && k in s.procs[p].kids
  }

  /** Each process of the chain waits for the next. */
  ghost predicate WaitChain(s: Sys, chain: seq<Pid>) {
    chain != [] && (|chain| > 1 ==> WaitsFor(s, chain[0], chain[1]) && WaitChain(s, chain[1..]))
  }

  lemma CanReap(s: Sys, p: Pid, k: Pid)
    requires p in s.procs && IsWaiting(s.procs[p].pc) && k in s.procs[p].kids && k in s.procs && s.procs[k].pc == Zombie
    ensures Next(s, Reap(p, k)).Some?
  {
  }

  /** A process that waits for a living child is no further from acting than that child. */
  lemma ReapsOrWaits(s: Sys, p: Pid) returns (k: Pid)
    requires Inv(s) && p in s.procs && IsWaiting(s.procs[p].pc) && s.procs[p].kids != {}
    ensures WaitsFor(s, p, k) && k in s.procs && k != SHELL
    ensures p != SHELL ==> WaitRank(s, k) < WaitRank(s, p)
    ensures s.procs[k].pc == Zombie ==> Next(s, Reap(p, k)).Some?
  {
    hide Next, WaitRank, KidOf, Disjoint, Untouched, OnePipeEach, AllProcs;
    k :| k in s.procs[p].kids;
    assert IsKid(s, p, k);
    if s.procs[k].pc == Zombie {
      CanReap(s, p, k);
    }
    if p != SHELL {
      KidRanksLower(s, p, k);
    }
  }

  lemma {:induction false} SomeoneActs(s: Sys, p: Pid) returns (chain: seq<Pid>, e: Event)
    requires Inv(s) && p in s.procs && s.procs[p].pc != Zombie
    ensures WaitChain(s, chain) && chain[0] == p && e.p == chain[|chain| - 1] && Next(s, e).Some? && !e.Fail?
    decreases p == SHELL, WaitRank(s, p)
  {
    hide Inv, WaitRank, Next, PlaceInv, IsWaiting, WaitsFor;
    chain := [p];
    if !IsWaiting(s.procs[p].pc) || s.procs[p].kids == {} {
      e := ActsItself(s, p);
    } else {
      var k := ReapsOrWaits(s, p);
      if s.procs[k].pc == Zombie {
        e := Reap(p, k);
      } else {
        var rest;
        rest, e := SomeoneActs(s, k);
        chain := [p] + rest;
        assert chain[1..] == rest;
      }
    }
  }

  /** No process of a session is ever stuck: whoever has not exited can act, or waits, through children that wait in
      turn, for one that can. */
  lemma NobodyIsStuck(es: seq<Event>, p: Pid) returns (chain: seq<Pid>, e: Event)
    requires Run(es).Some? && p in Run(es).value.procs && Run(es).value.procs[p].pc != Zombie
    ensures var s := Run(es).value;
            WaitChain(s, chain) && chain[0] == p && e.p == chain[|chain| - 1] && Next(s, e).Some? && !e.Fail?
  {
    RunKeepsInv(es);
    chain, e := SomeoneActs(Run(es).value, p);
  }
}
