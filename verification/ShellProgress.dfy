/** Every job of a session comes to its end: how many steps its processes take, and that they can always take them. */
module ShellProgress {
  import opened Prelude
  import opened ShellGrammar
  import opened ShellRun
  import opened ShellRunTheorems
  import opened ShellSession
  import opened ShellPlan

  // ---------- The work in a tree ----------

  /** The steps that running `c` takes, over all its processes, from `runcmd` to the last exit, when no call fails. */
  function Work(c: Cmd<string>): (w: nat)
    ensures w >= 2
  {
    match c
    case Exec(argv) => if argv == [] then 2 else 3
    case Redir(d, _, _) => 2 + Work(d)
    case Pipe(l, r) => 16 + Work(l) + Work(r)
    case List(l, r) => 2 + Work(l) + Work(r)
    case Back(d) => 2 + Work(d)
  }

  function JobWork(job: Option<Cmd<string>>): nat { match job case None => 1 case Some(c) => Work(c) }

  function WorkAt(jobs: Jobs, n: Node): nat { match CmdAt(jobs, n) case None => 0 case Some(c) => Work(c) }

  function PipeWork(jobs: Jobs, n: Node, at: PipePc): nat {
    match at
    case ForkLeft => 15 + WorkAt(jobs, n.Child(Left)) + WorkAt(jobs, n.Child(Right))
    case ForkRight => 10 + WorkAt(jobs, n.Child(Right))
    case CloseRead => 5
    case CloseWrite => 4
    case FirstWait => 3
    case SecondWait => 2
  }

  function KidWork(step: KidPc): nat {
    match step case CloseStd => 4 case DupEnd => 3 case CloseReadEnd => 2 case CloseWriteEnd => 1
  }

  /** What a process at `pc`, and those it has yet to fork, have left to do. */
  function LeftToDo(jobs: Jobs, pc: Pc): nat {
    match pc
    case Prompt => 0
    case PromptWait(_) => 0
    case Enter(n) => WorkAt(jobs, n)
    case RedirOpen(n) => 1 + WorkAt(jobs, n.Child(Sub))
    case ListWait(n, _) => 1 + WorkAt(jobs, n.Child(Right))
    case InPipe(n, at, _, _) => PipeWork(jobs, n, at)
    case InPipeKid(n, side, step, _) => KidWork(step) + WorkAt(jobs, n.Child(side))
    case Program(_) => 2
    case Exiting => 1
    case Zombie => 0
  }

  // ---------- The work of one step ----------

  lemma WorkBelow(jobs: Jobs, n: Node, c: Cmd<string>)
    requires CmdAt(jobs, n) == Some(c)
    ensures c.Redir? ==> WorkAt(jobs, n.Child(Sub)) == Work(c.cmd)
    ensures c.Back? ==> WorkAt(jobs, n.Child(Sub)) == Work(c.cmd)
    ensures c.Pipe? || c.List? ==>
              WorkAt(jobs, n.Child(Left)) == Work(c.left) && WorkAt(jobs, n.Child(Right)) == Work(c.right)
  {
    ChildOf(n, Sub);
    ChildOf(n, Left);
    ChildOf(n, Right);
  }

  /** A step takes one off what the process has left to do, counting what it hands to a child; a failing call takes off
      whatever is given up as well. */
  ghost predicate WorkStep(jobs: Jobs, x: Proc, e: Event, f: Effect) {
    var after := LeftToDo(jobs, f.act.self.pc) + if f.act.Fork? then LeftToDo(jobs, f.act.child.pc) else 0;
    after < LeftToDo(jobs, x.pc) && (!e.Fail? ==> after + 1 == LeftToDo(jobs, x.pc))
  }

  lemma EnterWork(s: Sys, p: Pid, x: Proc, n: Node, c: Cmd<string>, e: Event, f: Effect)
    requires x.pc == Enter(n) && CmdAt(s.jobs, n) == Some(c)
    requires EnterStep(s, p, x, n, c, e) == Some(f)
    ensures WorkStep(s.jobs, x, e, f)
  {
    WorkBelow(s.jobs, n, c);
    hide CmdAt, WorkStep;
    if c.Pipe? {
      EnterPipeWork(s, p, x, n, c, e, f);
    } else {
      EnterForkWork(s, p, x, n, c, e, f);
    }
  }

  lemma EnterPipeWork(s: Sys, p: Pid, x: Proc, n: Node, c: Cmd<string>, e: Event, f: Effect)
    requires x.pc == Enter(n) && c.Pipe? && WorkAt(s.jobs, n) == Work(c)
    requires WorkAt(s.jobs, n.Child(Left)) == Work(c.left) && WorkAt(s.jobs, n.Child(Right)) == Work(c.right)
    requires EnterStep(s, p, x, n, c, e) == Some(f)
    ensures WorkStep(s.jobs, x, e, f)
  {
    hide WorkAt, LowestFree;
  }

  lemma EnterForkWork(s: Sys, p: Pid, x: Proc, n: Node, c: Cmd<string>, e: Event, f: Effect)
    requires x.pc == Enter(n) && !c.Pipe? && WorkAt(s.jobs, n) == Work(c)
    requires c.Redir? || c.Back? ==> WorkAt(s.jobs, n.Child(Sub)) == Work(c.cmd)
    requires c.List? ==>
               WorkAt(s.jobs, n.Child(Left)) == Work(c.left) && WorkAt(s.jobs, n.Child(Right)) == Work(c.right)
    requires EnterStep(s, p, x, n, c, e) == Some(f)
    ensures WorkStep(s.jobs, x, e, f)
  {
    hide WorkAt, LowestFree, Close;
  }

  lemma PipeStepWork(s: Sys, p: Pid, x: Proc, n: Node, at: PipePc, ends: Ends, forked: set<Pid>, e: Event, f: Effect)
    requires x.pc == InPipe(n, at, ends, forked) && PipeStep(s, p, x, n, at, ends, forked, e) == Some(f)
    ensures WorkStep(s.jobs, x, e, f)
  {
    hide WorkAt, Close;
  }

  lemma KidStepWork(s: Sys, x: Proc, n: Node, side: Side, step: KidPc, ends: Ends, e: Event, f: Effect)
    requires x.pc == InPipeKid(n, side, step, ends) && KidStep(s, x, n, side, step, ends, e) == Some(f)
    ensures WorkStep(s.jobs, x, e, f)
  {
    hide WorkAt, Close, Dup;
  }

  lemma OpenWork(s: Sys, x: Proc, n: Node, e: Event, f: Effect)
    requires x.pc == RedirOpen(n) && IsRedir(s.jobs, n) && OpenStep(s, x, n, e) == Some(f)
    ensures WorkStep(s.jobs, x, e, f)
  {
    WorkBelow(s.jobs, n, CmdAt(s.jobs, n).value);
    hide CmdAt, LowestFree, WorkAt;
  }

  lemma StepWork(s: Sys, p: Pid, x: Proc, e: Event, f: Effect)
    requires ProcStep(s, p, x, e) == Some(f) && !ShellPc(x.pc) && PlaceInv(s.jobs, x)
    ensures WorkStep(s.jobs, x, e, f)
  {
    match x.pc
    case Enter(n) => EnterWork(s, p, x, n, CmdAt(s.jobs, n).value, e, f);
    case RedirOpen(n) => OpenWork(s, x, n, e, f);
    case InPipe(n, at, ends, forked) => PipeStepWork(s, p, x, n, at, ends, forked, e, f);
    case InPipeKid(n, side, step, ends) => KidStepWork(s, x, n, side, step, ends, e, f);
    case _ =>
      hide WorkAt, CmdAt;
  }

  // ---------- The work left in a job ----------

  /** What process `p` has left to do for job number `j`. */
  function Share(s: Sys, j: nat, p: Pid): nat {
    if p in s.procs && p != SHELL && s.procs[p].born.job == j then LeftToDo(s.jobs, s.procs[p].pc) else 0
  }

  /** The shares of the processes below `k`. */
  function ShareOf(s: Sys, j: nat, k: nat): nat { if k == 0 then 0 else ShareOf(s, j, k - 1) + Share(s, j, k - 1) }

  function WorkLeft(s: Sys, j: nat): nat { ShareOf(s, j, s.nextPid) }

  lemma {:induction false} OneShareChanged(s: Sys, s': Sys, j: nat, k: nat, p: Pid)
    requires forall q :: 0 <= q < k && q != p ==> Share(s', j, q) == Share(s, j, q)
    ensures ShareOf(s', j, k) == ShareOf(s, j, k) + if p < k then Share(s', j, p) - Share(s, j, p) else 0
    decreases k
  {
    hide Share;
    if k > 0 {
      OneShareChanged(s, s', j, k - 1, p);
    }
  }

  lemma {:induction false} NothingLeft(s: Sys, j: nat, k: nat)
    ensures ShareOf(s, j, k) == 0 <==> forall p :: 0 <= p < k ==> Share(s, j, p) == 0
    decreases k
  {
    hide Share;
    if k > 0 {
      NothingLeft(s, j, k - 1);
    }
  }

  lemma SameLeft(s: Sys, jobs: Jobs, p: Pid)
    requires Inv(s) && p in s.procs && s.jobs <= jobs
    ensures LeftToDo(jobs, s.procs[p].pc) == LeftToDo(s.jobs, s.procs[p].pc)
  {
    hide Inv, CmdAt;
    var pc := s.procs[p].pc;
    assert jobs == s.jobs + jobs[|s.jobs|..];
    if HasPlace(pc) {
      PlaceHasJob(s, p);
      forall n: Node | n.job == pc.node.job ensures WorkAt(jobs, n) == WorkAt(s.jobs, n) {
        CmdAtStable(s.jobs, jobs[|s.jobs|..], n);
      }
    }
    hide WorkAt;
  }

  lemma PlaceHasJob(s: Sys, p: Pid)
    requires Inv(s) && p in s.procs && HasPlace(s.procs[p].pc)
    ensures s.procs[p].pc.node.job < |s.jobs| && s.procs[p].born.job == s.procs[p].pc.node.job
  {
    hide Inv;
    InPlace(s, p);
    CmdAtHasJob(s.jobs, s.procs[p].pc.node);
    hide CmdAt;
  }

  /** Whoever is no zombie has something left to do. */
  lemma AliveHasWork(jobs: Jobs, x: Proc)
    requires PlaceInv(jobs, x) && !ShellPc(x.pc)
    ensures LeftToDo(jobs, x.pc) == 0 <==> x.pc == Zombie
  {
  }

  /** A job has finished exactly when there is nothing left to do for it. */
  lemma FinishedMeansNothingLeft(s: Sys, j: nat)
    requires Inv(s)
    ensures Finished(s, j) <==> WorkLeft(s, j) == 0
  {
    hide LeftToDo, PlaceInv, FdsInv, Disjoint, Untouched, OnePipeEach;
    NothingLeft(s, j, s.nextPid);
    forall p | p in s.procs && p != SHELL && s.procs[p].born.job == j
      ensures Share(s, j, p) == 0 <==> s.procs[p].pc == Zombie
    {
      InPlace(s, p);
      AliveHasWork(s.jobs, s.procs[p]);
    }
    if WorkLeft(s, j) == 0 {
      assert forall p :: p in s.procs ==> Share(s, j, p) == 0;
    }
  }

  // ---------- The work of one step of the session ----------

  /** The event is a step of a process of job number `j`. */
  predicate StepOf(s: Sys, e: Event, j: nat) { e.p in s.procs && e.p != SHELL && s.procs[e.p].born.job == j }

  /** The shares of all processes but the one that acts and the one it forks or reaps stay the same. */
  lemma OtherShares(s: Sys, e: Event, f: Effect, j: nat, q: Pid)
    requires Inv(s) && e.p in s.procs && ProcStep(s, e.p, s.procs[e.p], e) == Some(f)
    requires q != e.p && q < s.nextPid
    ensures Share(Apply(s, e.p, f), j, q) == Share(s, j, q)
  {
    hide Inv, ProcStep, LeftToDo;
    StepRoster(s, e, f);
    if q in s.procs {
      SameLeft(s, f.jobs, q);
      assert LeftToDo(s.jobs, Zombie) == 0 by {
        ZombieHasNone(s.jobs);
      }
    }
  }

  lemma ZombieHasNone(jobs: Jobs)
    ensures LeftToDo(jobs, Zombie) == 0
  {
  }

  /** Whoever is not the shell reads no line, and forks for its own job only. */
  lemma KeepsToItsJob(s: Sys, p: Pid, x: Proc, e: Event, f: Effect)
    requires ProcStep(s, p, x, e) == Some(f) && !ShellPc(x.pc) && x.pc != Exiting
    ensures f.jobs == s.jobs && f.act.self.born == x.born
    ensures f.act.Fork? ==> f.act.child.born.job == x.pc.node.job
  {
    hide CmdAt, LowestFree;
  }

  /** The shell forks for the line that it reads, and hands all of its work to the child. */
  lemma ShellForks(s: Sys, p: Pid, x: Proc, e: Event, f: Effect)
    requires ProcStep(s, p, x, e) == Some(f) && (ShellPc(x.pc) || x.pc == Exiting)
    ensures f.act.self.born == x.born
    ensures if e.ReadLine? then
              && x.pc.Prompt? && f.jobs == s.jobs + [e.job] && f.act.Fork? && f.act.child.born.job == |s.jobs|
              && LeftToDo(f.jobs, f.act.child.pc) == JobWork(e.job)
            else f.jobs == s.jobs && !f.act.Fork?
  {
  }

  /** What a step makes of the shares of the acting process and its new child. */
  lemma ActingShares(s: Sys, e: Event, f: Effect, j: nat)
    requires Inv(s) && e.p in s.procs && ProcStep(s, e.p, s.procs[e.p], e) == Some(f) && j < |s.jobs|
    ensures var s' := Apply(s, e.p, f);
            var after := Share(s', j, e.p) + if f.act.Fork? then Share(s', j, s.nextPid) else 0;
            if StepOf(s, e, j) then after < Share(s, j, e.p) && (!e.Fail? ==> after + 1 == Share(s, j, e.p))
            else after == Share(s, j, e.p)
  {
    hide ProcStep, LeftToDo, Inv, PlaceInv;
    var x := s.procs[e.p];
    StepRoster(s, e, f);
    ShellIsShell(s, e.p);
    InPlace(s, e.p);
    if ShellPc(x.pc) || x.pc == Exiting {
      ShellForks(s, e.p, x, e, f);
    } else if x.pc != Zombie {
      KeepsToItsJob(s, e.p, x, e, f);
      PlaceHasJob(s, e.p);
    }
    if e.p != SHELL {
      StepWork(s, e.p, x, e, f);
    }
  }

  /** The shell is never in a job, and nobody else prompts. */
  lemma ShellIsShell(s: Sys, p: Pid)
    requires Inv(s) && p in s.procs
    ensures SHELL in s.procs && (ShellPc(s.procs[p].pc) ==> p == SHELL)
    ensures p == SHELL ==> !HasPlace(s.procs[p].pc)
  {
    hide AllProcs, Disjoint, Untouched, OnePipeEach;
  }

  /** A step of the job takes one off what is left, or more if its call fails; other steps leave it as it is. */
  lemma NextWork(s: Sys, e: Event, j: nat)
    requires Inv(s) && Next(s, e).Some? && j < |s.jobs|
    ensures var s' := Next(s, e).value;
            if StepOf(s, e, j) then
              WorkLeft(s', j) < WorkLeft(s, j) && (!e.Fail? ==> WorkLeft(s', j) + 1 == WorkLeft(s, j))
            else WorkLeft(s', j) == WorkLeft(s, j)
  {
    hide Inv, ProcStep, Share, StepOf;
    var f := ProcStep(s, e.p, s.procs[e.p], e).value;
    var s' := Apply(s, e.p, f);
    StepRoster(s, e, f);
    ActingShares(s, e, f, j);
    NumbersBelow(s, e.p);
    forall q | 0 <= q < s.nextPid && q != e.p ensures Share(s', j, q) == Share(s, j, q) {
      OtherShares(s, e, f, j, q);
    }
    OneShareChanged(s, s', j, s.nextPid, e.p);
  }

  lemma NumbersBelow(s: Sys, p: Pid)
    requires Inv(s) && p in s.procs
    ensures p < s.nextPid
  {
    hide AllProcs, Disjoint, Untouched, OnePipeEach;
  }

  /** A job that is just read has all its work to do, and one that is not read yet has none. */
  lemma NewWork(s: Sys, e: Event, j: nat)
    requires Inv(s) && Next(s, e).Some? && j >= |s.jobs|
    ensures WorkLeft(Next(s, e).value, j) ==
            if j < |Next(s, e).value.jobs| then JobWork(Next(s, e).value.jobs[j]) else 0
    ensures !StepOf(s, e, j)
  {
    hide Inv, ProcStep, LeftToDo, PlaceInv;
    var x := s.procs[e.p];
    var f := ProcStep(s, e.p, x, e).value;
    var s' := Apply(s, e.p, f);
    StepRoster(s, e, f);
    NumbersBelow(s, e.p);
    ShellIsShell(s, e.p);
    forall q | q in s.procs && q != SHELL ensures s.procs[q].born.job < |s.jobs| {
      JobsAreRead(s, q);
    }
    if ShellPc(x.pc) || x.pc == Exiting {
      ShellForks(s, e.p, x, e, f);
    } else {
      KeepsToItsJob(s, e.p, x, e, f);
      PlaceHasJob(s, e.p);
    }
    assert forall q :: 0 <= q < s.nextPid ==> Share(s', j, q) == 0;
    NothingLeft(s', j, s.nextPid);
  }

  lemma JobsAreRead(s: Sys, q: Pid)
    requires Inv(s) && q in s.procs && q != SHELL
    ensures s.procs[q].born.job < |s.jobs|
  {
    hide AllProcs, Disjoint, Untouched, OnePipeEach;
  }

  // ---------- Main results ----------

  /** The number of steps that the processes of job number `j` take in the run. */
  function Steps(es: seq<Event>, j: nat): nat
    requires Run(es).Some?
    decreases |es|
  {
    if es == [] then 0 else
    var front := es[..|es| - 1];
    Steps(front, j) + if StepOf(Run(front).value, es[|es| - 1], j) then 1 else 0
  }

  /** In every run, the steps that a job has taken and those it has left are together no more than its tree calls for,
      and exactly as many if no call fails. */
  lemma {:induction false} WorkIsConserved(es: seq<Event>, j: nat)
    requires Run(es).Some?
    ensures var s := Run(es).value;
            var total := if j < |s.jobs| then JobWork(s.jobs[j]) else 0;
            && Steps(es, j) + WorkLeft(s, j) <= total
            && ((forall i :: 0 <= i < |es| ==> !es[i].Fail?) ==> Steps(es, j) + WorkLeft(s, j) == total)
    decreases |es|
  {
    hide Inv, StepOf, WorkLeft, Next;
    if es == [] {
      NothingAtFirst(j);
    } else {
      var front, e := es[..|es| - 1], es[|es| - 1];
      var s := Run(front).value;
      RunKeepsInv(front);
      WorkIsConserved(front, j);
      JobsGrow(s, e);
      assert (forall i :: 0 <= i < |es| ==> !es[i].Fail?) ==> forall i :: 0 <= i < |front| ==> !front[i].Fail?;
      if j < |s.jobs| {
        NextWork(s, e, j);
      } else {
        NewWork(s, e, j);
      }
    }
  }

  lemma NothingAtFirst(j: nat)
    ensures WorkLeft(Init(), j) == 0
  {
    NothingLeft(Init(), j, 1);
  }

  /** Without a failed call, a job is finished exactly when its processes have taken as many steps as its tree calls
      for, whatever the interleaving; with failures, they never take more. */
  lemma FinishedMeansAllStepsTaken(es: seq<Event>, j: nat)
    requires Run(es).Some? && j < |Run(es).value.jobs|
    ensures Steps(es, j) <= JobWork(Run(es).value.jobs[j])
    ensures (forall i :: 0 <= i < |es| ==> !es[i].Fail?) ==>
              (Finished(Run(es).value, j) <==> Steps(es, j) == JobWork(Run(es).value.jobs[j]))
  {
    hide WorkLeft, Finished;
    RunKeepsInv(es);
    WorkIsConserved(es, j);
    FinishedMeansNothingLeft(Run(es).value, j);
  }

  /** Children belong to the job of those who wait for them. */
  lemma {:induction false} ChainStaysInJob(s: Sys, chain: seq<Pid>, j: nat)
    requires Inv(s) && WaitChain(s, chain) && chain[0] in s.procs && chain[0] != SHELL
    requires s.procs[chain[0]].born.job == j
    ensures var p := chain[|chain| - 1]; p in s.procs && p != SHELL && s.procs[p].born.job == j
    decreases |chain|
  {
    hide Inv;
    if |chain| > 1 {
      KidOfJob(s, chain[0], chain[1]);
      ChainStaysInJob(s, chain[1..], j);
    }
  }

  lemma KidOfJob(s: Sys, p: Pid, k: Pid)
    requires Inv(s) && p != SHELL && WaitsFor(s, p, k)
    ensures k in s.procs && k != SHELL && s.procs[k].born.job == s.procs[p].born.job
  {
    hide AllProcs, Disjoint, Untouched, OnePipeEach, CmdAt;
    ShellIsShell(s, p);
    PlaceHasJob(s, p);
    assert IsKid(s, p, k);
  }

  /** The shell is where it was, with the same children. */
  ghost predicate SameForShell(s: Sys, s': Sys) {
    && SHELL in s.procs && SHELL in s'.procs && s'.procs[SHELL] == s.procs[SHELL]
    && forall k :: k in s.procs[SHELL].kids ==> k in s.procs && k in s'.procs && s'.procs[k].born == s.procs[k].born
  }

  lemma ShellIsThere(s: Sys)
    requires Inv(s)
    ensures SameForShell(s, s)
  {
    hide AllProcs, Disjoint, Untouched, OnePipeEach;
    assert forall k :: k in s.procs[SHELL].kids ==> IsKid(s, SHELL, k);
  }

  lemma ShellUntouched(s: Sys, e: Event)
    requires Inv(s) && Next(s, e).Some? && e.p != SHELL
    ensures SameForShell(s, Next(s, e).value)
  {
    hide ProcStep, PlaceInv, FdsInv, KidOf, Disjoint, Untouched, OnePipeEach, BackBorn;
    var f := ProcStep(s, e.p, s.procs[e.p], e).value;
    StepRoster(s, e, f);
    InPlace(s, e.p);
    StepFamily(s, e.p, s.procs[e.p], e, f);
    if f.act.Wait? {
      assert IsKid(s, e.p, f.act.dead);
    }
    forall k | k in s.procs[SHELL].kids
      ensures k in s.procs && k in Next(s, e).value.procs && Next(s, e).value.procs[k].born == s.procs[k].born
    {
      assert IsKid(s, SHELL, k);
    }
  }

  /** From wherever a session has come to, every job can still finish, by steps of its own processes, none of which
      fails. */
  lemma {:induction false} EveryJobCanFinish(es: seq<Event>, j: nat) returns (more: seq<Event>)
    requires Run(es).Some?
    ensures Run(es + more).Some? && Finished(Run(es + more).value, j)
    ensures forall i :: 0 <= i < |more| ==> !more[i].Fail?
    ensures Run(es + more).value.jobs == Run(es).value.jobs && SameForShell(Run(es).value, Run(es + more).value)
    decreases WorkLeft(Run(es).value, j)
  {
    hide Inv, WorkLeft, WaitChain, Next;
    var s := Run(es).value;
    RunKeepsInv(es);
    ShellIsThere(s);
    if Finished(s, j) {
      more := [];
      assert es + more == es;
    } else {
      var p :| p in s.procs && p != SHELL && s.procs[p].born.job == j && s.procs[p].pc != Zombie;
      var chain, e := SomeoneActs(s, p);
      ChainStaysInJob(s, chain, j);
      JobsAreRead(s, p);
      NextWork(s, e, j);
      OwnStepsReadNothing(s, e, j);
      ShellUntouched(s, e);
      assert (es + [e])[..|es|] == es;
      var rest := EveryJobCanFinish(es + [e], j);
      more := [e] + rest;
      assert es + [e] + rest == es + more;
    }
  }

  lemma OwnStepsReadNothing(s: Sys, e: Event, j: nat)
    requires Inv(s) && Next(s, e).Some? && StepOf(s, e, j)
    ensures Next(s, e).value.jobs == s.jobs
  {
    hide Inv, ProcStep;
    var x := s.procs[e.p];
    var f := ProcStep(s, e.p, x, e).value;
    StepRoster(s, e, f);
    ShellIsShell(s, e.p);
    if x.pc == Exiting {
      ShellForks(s, e.p, x, e, f);
    } else {
      KeepsToItsJob(s, e.p, x, e, f);
    }
  }

  /** A planned program that has not been given up was started, or the session can go on to start it. */
  lemma NotGivenUpCanRun(es: seq<Event>, x: Start) returns (more: seq<Event>)
    requires Run(es).Some? && x.node.job < |Run(es).value.jobs|
    requires x in JobPlan(Run(es).value.jobs, x.node.job) && !GivenUp(es, x.node)
    ensures Run(es + more).Some? && Started(es + more, x.node)
  {
    hide JobPlan, Finished, Run;
    more := EveryJobCanFinish(es, x.node.job);
    FinishedJobRanItsPlan(es + more, x);
    forall i | 0 <= i < |es + more| ensures !Drops(es + more, i, x.node) {
      if i < |es| {
        assert (es + more)[..i] == es[..i];
        assert !Drops(es, i, x.node);
      } else {
        assert (es + more)[i] == more[i - |es|];
      }
    }
  }

  /** Only the end of the input ends the shell. */
  lemma {:induction false} ShellGoesOn(es: seq<Event>)
    requires Run(es).Some? && forall i :: 0 <= i < |es| ==> es[i] != EndOfInput(SHELL)
    ensures SHELL in Run(es).value.procs && ShellPc(Run(es).value.procs[SHELL].pc)
    decreases |es|
  {
    hide Inv;
    if es != [] {
      var front, e := es[..|es| - 1], es[|es| - 1];
      var s := Run(front).value;
      RunKeepsInv(front);
      ShellGoesOn(front);
      if e.p == SHELL {
        ShellStays(s, e);
      } else {
        ShellUntouched(s, e);
      }
    }
  }

  lemma ShellStays(s: Sys, e: Event)
    requires Inv(s) && Next(s, e).Some? && e.p == SHELL && e != EndOfInput(SHELL) && ShellPc(s.procs[SHELL].pc)
    ensures SHELL in Next(s, e).value.procs && ShellPc(Next(s, e).value.procs[SHELL].pc)
  {
    hide Inv;
    StepRoster(s, e, ProcStep(s, SHELL, s.procs[SHELL], e).value);
  }

  /** Until its input ends, the shell can always come back to its prompt. */
  lemma ShellPromptsAgain(es: seq<Event>) returns (more: seq<Event>)
    requires Run(es).Some? && forall i :: 0 <= i < |es| ==> es[i] != EndOfInput(SHELL)
    ensures Run(es + more).Some? && SHELL in Run(es + more).value.procs
    ensures Run(es + more).value.procs[SHELL].pc == Prompt
    ensures forall i :: 0 <= i < |more| ==> !more[i].Fail?
  {
    hide Inv, Run, ProcStep;
    RunKeepsInv(es);
    ShellGoesOn(es);
    var s := Run(es).value;
    more := [];
    assert es + more == es;
    if s.procs[SHELL].pc != Prompt {
      var e := Go(SHELL);
      if k :| k in s.procs[SHELL].kids {
        ShellIsThere(s);
        more := EveryJobCanFinish(es, s.procs[k].born.job);
        e := Reap(SHELL, k);
        s := Run(es + more).value;
        RunKeepsInv(es + more);
        KidIsNotShell(s, k);
      }
      BackToPrompt(s, e);
      OneMore(es + more, e);
      more := more + [e];
      assert es + more == es + more[..|more| - 1] + [e];
    }
  }

  lemma OneMore(es: seq<Event>, e: Event)
    requires Run(es).Some?
    ensures Run(es + [e]) == Next(Run(es).value, e)
  {
    assert (es + [e])[..|es|] == es;
  }

  lemma KidIsNotShell(s: Sys, k: Pid)
    requires Inv(s) && SHELL in s.procs && k in s.procs[SHELL].kids
    ensures k in s.procs && k != SHELL
  {
    hide AllProcs, Disjoint, Untouched, OnePipeEach;
    assert IsKid(s, SHELL, k);
  }

  lemma BackToPrompt(s: Sys, e: Event)
    requires SHELL in s.procs && s.procs[SHELL].pc.PromptWait?
    requires || (e == Go(SHELL) && s.procs[SHELL].kids == {})
             || (e.Reap? && e.p == SHELL && e.dead in s.procs[SHELL].kids && e.dead in s.procs
                 && s.procs[e.dead].pc == Zombie)
    ensures Next(s, e).Some? && SHELL in Next(s, e).value.procs && Next(s, e).value.procs[SHELL].pc == Prompt
  {
  }
}
