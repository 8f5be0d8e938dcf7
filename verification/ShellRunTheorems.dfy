/** What holds in every state of every run of the shell: descriptors, waits, pipes, background jobs. */
module ShellRunTheorems {
  import opened Prelude
  import opened ShellGrammar
  import opened ShellRun

  // ---------- Where standard input and output should come from ----------

  datatype Source = Terminal(n: nat) | FromPipe(node: Node) | ToPipe(node: Node) | Redirected(name: string, op: RedirOp)

  /** Standard input and output of the command at `n`: those of the shell, changed by every pipe and redirection on
      the way down to it. */
  function Io(jobs: Jobs, n: Node): (Source, Source)
    decreases |n.path|
  {
    if n.path == [] then (Terminal(0), Terminal(1)) else
    var io := Io(jobs, n.Parent());
    match (CmdAt(jobs, n.Parent()), n.path[|n.path| - 1])
    case (Some(Redir(_, f, op)), Sub) => if op == Input then (Redirected(f, op), io.1) else (io.0, Redirected(f, op))
    case (Some(Pipe(_, _)), Left) => (io.0, ToPipe(n.Parent()))
    case (Some(Pipe(_, _)), Right) => (FromPipe(n.Parent()), io.1)
    case _ => io
  }

  ghost predicate Is(pipes: seq<Node>, f: File, src: Source) {
    match src
    case Terminal(n) => f == Inherited(n)
    case FromPipe(m) => f.PipeRead? && f.id < |pipes| && pipes[f.id] == m
    case ToPipe(m) => f.PipeWrite? && f.id < |pipes| && pipes[f.id] == m
    case Redirected(name, op) => f == Opened(name, op)
  }

  /** The open descriptors are 0 to `top`, except `gone`. */
  ghost predicate OpenTo(fds: Fds, top: nat, gone: int) {
    forall k: nat :: k in fds <==> k <= top && k != gone
  }

  /** Standard input, output and error are those of the command at `n`, except that `gone` is closed. */
  ghost predicate Has(jobs: Jobs, pipes: seq<Node>, fds: Fds, n: Node, gone: int) {
    && (gone != 0 ==> 0 in fds && Is(pipes, fds[0], Io(jobs, n).0))
    && (gone != 1 ==> 1 in fds && Is(pipes, fds[1], Io(jobs, n).1))
    && (gone != 2 ==> 2 in fds && fds[2] == Inherited(2))
  }

  const NONE: int := -1

  /** Exactly descriptors 0, 1 and 2 are open, and they are what the command at `n` should have. */
  ghost predicate Std(jobs: Jobs, pipes: seq<Node>, fds: Fds, n: Node) {
    OpenTo(fds, 2, NONE) && Has(jobs, pipes, fds, n, NONE)
  }

  /** Of the pipe of node `n`, the read end is on descriptor 3 and the write end on 4, as far as they are open. */
  ghost predicate PipeEnds(pipes: seq<Node>, fds: Fds, n: Node) {
    (3 in fds ==> Is(pipes, fds[3], FromPipe(n))) && (4 in fds ==> Is(pipes, fds[4], ToPipe(n)))
  }

  // ---------- The invariant of one process: its descriptors ----------

  ghost predicate FdsInv(jobs: Jobs, pipes: seq<Node>, x: Proc) {
    match x.pc
    case Prompt => x.fds == InitFds()
    case PromptWait(_) => x.fds == InitFds()
    case Enter(n) => Std(jobs, pipes, x.fds, n)
    case RedirOpen(n) => RedirFdsInv(jobs, pipes, x.fds, n)
    case ListWait(n, _) => Std(jobs, pipes, x.fds, n)
    case InPipe(n, at, ends, _) => StageFdsInv(jobs, pipes, x.fds, n, at, ends)
    case InPipeKid(n, side, step, ends) => KidFdsInv(jobs, pipes, x.fds, n, side, step, ends)
    case Program(n) => Std(jobs, pipes, x.fds, n)
    case Exiting => true
    case Zombie => x.fds == map[]
  }

  ghost predicate RedirFdsInv(jobs: Jobs, pipes: seq<Node>, fds: Fds, n: Node) {
    && IsRedir(jobs, n)
    && OpenTo(fds, 2, RedirFd(CmdAt(jobs, n).value.op))
    && Has(jobs, pipes, fds, n, RedirFd(CmdAt(jobs, n).value.op))
  }

  ghost predicate PipeFdsInv(jobs: Jobs, pipes: seq<Node>, fds: Fds, n: Node, ends: Ends) {
    ends == Ends(3, 4) && OpenTo(fds, 4, NONE) && Has(jobs, pipes, fds, n, NONE) && PipeEnds(pipes, fds, n)
  }

  ghost predicate StageFdsInv(jobs: Jobs, pipes: seq<Node>, fds: Fds, n: Node, at: PipePc, ends: Ends) {
    match at
    case CloseWrite =>
      ends == Ends(3, 4) && OpenTo(fds, 4, 3) && Has(jobs, pipes, fds, n, NONE) && PipeEnds(pipes, fds, n)
    case FirstWait => Std(jobs, pipes, fds, n)
    case SecondWait => Std(jobs, pipes, fds, n)
    case _ => PipeFdsInv(jobs, pipes, fds, n, ends)
  }

  ghost predicate KidFdsInv(jobs: Jobs, pipes: seq<Node>, fds: Fds, n: Node, side: Side, step: KidPc, ends: Ends) {
    match step
    case CloseStd => PipeFdsInv(jobs, pipes, fds, n, ends)
    case DupEnd =>
      var gone := if side == Left then 1 else 0;
      ends == Ends(3, 4) && OpenTo(fds, 4, gone) && Has(jobs, pipes, fds, n, gone) && PipeEnds(pipes, fds, n)
    case CloseReadEnd =>
      && ends == Ends(3, 4) && OpenTo(fds, 4, NONE)
      && Has(jobs, pipes, fds, n.Child(side), NONE) && PipeEnds(pipes, fds, n)
    case CloseWriteEnd =>
      ends == Ends(3, 4) && OpenTo(fds, 4, 3) && Has(jobs, pipes, fds, n.Child(side), NONE) && PipeEnds(pipes, fds, n)
  }

  // ---------- The invariant of one process: its place in the tree and its children ----------

  ghost predicate IsExec(jobs: Jobs, n: Node) {
    CmdAt(jobs, n).Some? && CmdAt(jobs, n).value.Exec? && CmdAt(jobs, n).value.argv != []
  }
  ghost predicate IsRedir(jobs: Jobs, n: Node) { CmdAt(jobs, n).Some? && CmdAt(jobs, n).value.Redir? }
  ghost predicate IsList(jobs: Jobs, n: Node) { CmdAt(jobs, n).Some? && CmdAt(jobs, n).value.List? }
  ghost predicate IsPipe(jobs: Jobs, n: Node) { CmdAt(jobs, n).Some? && CmdAt(jobs, n).value.Pipe? }
  ghost predicate IsBack(jobs: Jobs, n: Node) { CmdAt(jobs, n).Some? && CmdAt(jobs, n).value.Back? }

  /** A process that was forked to run `born` may itself go on to run `n`: it never enters the left side of a node. */
  ghost predicate MayReach(born: Node, n: Node) {
    && born.job == n.job && |born.path| <= |n.path| && born.path == n.path[..|born.path|]
    && forall i :: |born.path| <= i < |n.path| ==> n.path[i] != Left
  }

  /** Where a process is, and that its unreaped children are those it forked for the current node. */
  ghost predicate PlaceInv(jobs: Jobs, x: Proc) {
    match x.pc
    case Prompt => x.kids == {}
    case PromptWait(forked) => x.kids == forked && |forked| <= 1
    case Enter(n) => CmdAt(jobs, n).Some? && MayReach(x.born, n) && x.kids == {}
    case RedirOpen(n) => IsRedir(jobs, n) && MayReach(x.born, n) && x.kids == {}
    case ListWait(n, forked) => IsList(jobs, n) && MayReach(x.born, n) && x.kids == forked && |forked| <= 1
    case InPipe(n, at, _, forked) => IsPipe(jobs, n) && MayReach(x.born, n) && PipeKids(at, forked, x.kids)
    case InPipeKid(n, side, _, _) => IsPipe(jobs, n) && side != Sub && x.born == n.Child(side) && x.kids == {}
    case Program(n) => IsExec(jobs, n) && MayReach(x.born, n) && x.kids == {}
    case Exiting => true
    case Zombie => x.kids == {}
  }

  /** A pipe node forks at most two children, and each of its waits finds exactly those not waited for yet. */
  ghost predicate PipeKids(at: PipePc, forked: set<Pid>, kids: set<Pid>) {
    match at
    case ForkLeft => kids == forked == {}
    case ForkRight => kids == forked && |forked| <= 1
    case SecondWait => kids <= forked && |forked| <= 2 && (forked != {} ==> |kids| + 1 == |forked|)
    case _ => kids == forked && |forked| <= 2
  }

  ghost predicate ProcInv(jobs: Jobs, pipes: seq<Node>, x: Proc) {
    PlaceInv(jobs, x) && FdsInv(jobs, pipes, x)
  }

  // Reading one more line, or making one more pipe, changes nothing for the jobs already running.

  lemma {:induction false} CmdAtStable(jobs: Jobs, more: Jobs, n: Node)
    requires n.job < |jobs|
    ensures CmdAt(jobs + more, n) == CmdAt(jobs, n) && Io(jobs + more, n) == Io(jobs, n)
    decreases |n.path|
  {
    if n.path != [] {
      CmdAtStable(jobs, more, n.Parent());
    }
  }

  lemma {:induction false} CmdAtHasJob(jobs: Jobs, n: Node)
    requires CmdAt(jobs, n).Some?
    ensures n.job < |jobs|
    decreases |n.path|
  {
    if n.path != [] {
      CmdAtHasJob(jobs, n.Parent());
    }
  }

  lemma ProcInvStable(jobs: Jobs, pipes: seq<Node>, x: Proc, more: Jobs, morePipes: seq<Node>)
    requires ProcInv(jobs, pipes, x)
    ensures PlaceInv(jobs + more, x) && FdsInv(jobs + more, pipes + morePipes, x)
  {
    if !x.pc.Prompt? && !x.pc.PromptWait? && !x.pc.Exiting? && !x.pc.Zombie? {
      var n := x.pc.node;
      CmdAtHasJob(jobs, n);
      CmdAtStable(jobs, more, n);
      forall f, src | Is(pipes, f, src) ensures Is(pipes + morePipes, f, src) {
      }
      if x.pc.InPipeKid? {
        CmdAtStable(jobs, more, n.Child(x.pc.side));
      }
    }
  }

  lemma ChildOf(n: Node, d: Side)
    ensures n.Child(d).path != [] && n.Child(d).Parent() == n && n.Child(d).path[|n.path|] == d
  {
  }

  // ---------- One step keeps the descriptors right ----------

  lemma LowestFreeIs(fds: Fds, top: nat, gone: int)
    requires OpenTo(fds, top, gone)
    ensures LowestFree(fds) == if 0 <= gone <= top then gone else top + 1
  {
    var k: nat := if 0 <= gone <= top then gone else top + 1;
    assert k !in fds;
    assert LowestFree(fds) !in fds;
  }

  lemma PipeCallFds(jobs: Jobs, pipes: seq<Node>, fds: Fds, n: Node)
    requires Std(jobs, pipes, fds, n)
    ensures LowestFree(fds) == 3 && LowestFree(fds[3 := PipeRead(|pipes|)]) == 4
    ensures PipeFdsInv(jobs, pipes + [n], fds[3 := PipeRead(|pipes|)][4 := PipeWrite(|pipes|)], n, Ends(3, 4))
  {
    LowestFreeIs(fds, 2, NONE);
    LowestFreeIs(fds[3 := PipeRead(|pipes|)], 3, NONE);
  }

  lemma RedirFds(jobs: Jobs, pipes: seq<Node>, fds: Fds, n: Node)
    requires RedirFdsInv(jobs, pipes, fds, n)
    ensures var c := CmdAt(jobs, n).value; Std(jobs, pipes, Open(fds, Opened(c.file, c.op)), n.Child(Sub))
  {
    ChildOf(n, Sub);
    LowestFreeIs(fds, 2, RedirFd(CmdAt(jobs, n).value.op));
  }

  lemma DupFds(jobs: Jobs, pipes: seq<Node>, fds: Fds, n: Node, side: Side)
    requires IsPipe(jobs, n) && side != Sub && KidFdsInv(jobs, pipes, fds, n, side, DupEnd, Ends(3, 4))
    ensures var fds' := Dup(fds, if side == Left then 4 else 3);
            OpenTo(fds', 4, NONE) && Has(jobs, pipes, fds', n.Child(side), NONE) && PipeEnds(pipes, fds', n)
  {
    ChildOf(n, side);
    LowestFreeIs(fds, 4, if side == Left then 1 else 0);
  }

  lemma SameFds(jobs: Jobs, pipes: seq<Node>, fds: Fds, n: Node, d: Side)
    requires Std(jobs, pipes, fds, n) && (IsList(jobs, n) || IsBack(jobs, n))
    ensures Std(jobs, pipes, fds, n.Child(d))
  {
    ChildOf(n, d);
  }

  /** The descriptors after an effect, for the process itself and for the one it forks. */
  ghost predicate FdsKept(f: Effect) {
    FdsInv(f.jobs, f.pipes, f.act.self) && (f.act.Fork? ==> FdsInv(f.jobs, f.pipes, f.act.child))
  }

  lemma EnterFds(s: Sys, p: Pid, x: Proc, n: Node, c: Cmd<string>, e: Event, f: Effect)
    requires CmdAt(s.jobs, n) == Some(c) && Std(s.jobs, s.pipes, x.fds, n)
    requires EnterStep(s, p, x, n, c, e) == Some(f)
    ensures FdsKept(f)
  {
    hide FdsKept, Std;
    match c
    case Redir(_, _, _) => EnterRedirFds(s, p, x, n, c, e, f);
    case Pipe(_, _) => EnterPipeFds(s, p, x, n, c, e, f);
    case _ => EnterForkFds(s, p, x, n, c, e, f);
  }

  lemma EnterRedirFds(s: Sys, p: Pid, x: Proc, n: Node, c: Cmd<string>, e: Event, f: Effect)
    requires CmdAt(s.jobs, n) == Some(c) && Std(s.jobs, s.pipes, x.fds, n) && c.Redir?
    requires EnterStep(s, p, x, n, c, e) == Some(f)
    ensures FdsKept(f)
  {
    hide Std, RedirFdsInv, Close, CmdAt;
    CloseForRedir(s.jobs, s.pipes, x.fds, n);
  }

  lemma EnterPipeFds(s: Sys, p: Pid, x: Proc, n: Node, c: Cmd<string>, e: Event, f: Effect)
    requires CmdAt(s.jobs, n) == Some(c) && Std(s.jobs, s.pipes, x.fds, n) && c.Pipe?
    requires EnterStep(s, p, x, n, c, e) == Some(f)
    ensures FdsKept(f)
  {
    hide Std, PipeFdsInv, LowestFree, CmdAt;
    PipeCallFds(s.jobs, s.pipes, x.fds, n);
  }

  lemma EnterForkFds(s: Sys, p: Pid, x: Proc, n: Node, c: Cmd<string>, e: Event, f: Effect)
    requires CmdAt(s.jobs, n) == Some(c) && Std(s.jobs, s.pipes, x.fds, n) && (c.Exec? || c.List? || c.Back?)
    requires EnterStep(s, p, x, n, c, e) == Some(f)
    ensures FdsKept(f)
  {
    hide Std, RedirFdsInv, StageFdsInv, KidFdsInv, CmdAt;
    if !c.Exec? {
      SameFds(s.jobs, s.pipes, x.fds, n, if c.List? then Left else Sub);
    }
  }

  lemma CloseForRedir(jobs: Jobs, pipes: seq<Node>, fds: Fds, n: Node)
    requires Std(jobs, pipes, fds, n) && IsRedir(jobs, n)
    ensures RedirFdsInv(jobs, pipes, Close(fds, RedirFd(CmdAt(jobs, n).value.op)), n)
  {
  }

  /** Closing descriptor `fd`, the one that is open besides the standard ones or the read end of two. */
  lemma CloseFds(jobs: Jobs, pipes: seq<Node>, fds: Fds, n: Node, m: Node, fd: nat)
    requires fd == 3 || fd == 4
    requires OpenTo(fds, 4, if fd == 3 then NONE else 3) && Has(jobs, pipes, fds, n, NONE) && PipeEnds(pipes, fds, m)
    ensures fd == 3 ==>
              var fds' := Close(fds, 3);
              OpenTo(fds', 4, 3) && Has(jobs, pipes, fds', n, NONE) && PipeEnds(pipes, fds', m)
    ensures fd == 4 ==> Std(jobs, pipes, Close(fds, 4), n)
  {
  }

  lemma CloseStdFds(jobs: Jobs, pipes: seq<Node>, fds: Fds, n: Node, fd: nat)
    requires PipeFdsInv(jobs, pipes, fds, n, Ends(3, 4)) && fd <= 1
    ensures var fds' := Close(fds, fd);
            OpenTo(fds', 4, fd) && Has(jobs, pipes, fds', n, fd) && PipeEnds(pipes, fds', n)
  {
  }

  lemma KidFdsStep(jobs: Jobs, pipes: seq<Node>, fds: Fds, n: Node, side: Side, step: KidPc)
    requires KidFdsInv(jobs, pipes, fds, n, side, step, Ends(3, 4)) && IsPipe(jobs, n) && side != Sub
    ensures match step
            case CloseStd =>
              KidFdsInv(jobs, pipes, Close(fds, if side == Left then 1 else 0), n, side, DupEnd, Ends(3, 4))
            case DupEnd =>
              KidFdsInv(jobs, pipes, Dup(fds, if side == Left then 4 else 3), n, side, CloseReadEnd, Ends(3, 4))
            case CloseReadEnd => KidFdsInv(jobs, pipes, Close(fds, 3), n, side, CloseWriteEnd, Ends(3, 4))
            case CloseWriteEnd => Std(jobs, pipes, Close(fds, 4), n.Child(side))
  {
    match step
    case CloseStd => CloseStdFds(jobs, pipes, fds, n, if side == Left then 1 else 0);
    case DupEnd => DupFds(jobs, pipes, fds, n, side);
    case CloseReadEnd => CloseFds(jobs, pipes, fds, n.Child(side), n, 3);
    case CloseWriteEnd => CloseFds(jobs, pipes, fds, n.Child(side), n, 4);
    hide OpenTo, Has, PipeEnds, Close, Dup;
  }

  lemma KidFds(s: Sys, x: Proc, n: Node, side: Side, step: KidPc, ends: Ends, e: Event, f: Effect)
    requires KidFdsInv(s.jobs, s.pipes, x.fds, n, side, step, ends) && IsPipe(s.jobs, n) && side != Sub
    requires KidStep(s, x, n, side, step, ends, e) == Some(f) && ends == Ends(3, 4)
    ensures FdsKept(f)
  {
    hide KidFdsInv, Std, StageFdsInv, RedirFdsInv, PipeFdsInv, Close, Dup, CmdAt;
    KidFdsStep(s.jobs, s.pipes, x.fds, n, side, step);
  }

  lemma PromptFds(s: Sys, p: Pid, x: Proc, e: Event, f: Effect)
    requires x.fds == InitFds()
    requires PromptStep(s, p, x, e) == Some(f)
    ensures FdsKept(f)
  {
    hide CmdAt, RedirFdsInv, StageFdsInv, KidFdsInv;
  }

  lemma OpenFds(s: Sys, x: Proc, n: Node, e: Event, f: Effect)
    requires RedirFdsInv(s.jobs, s.pipes, x.fds, n)
    requires OpenStep(s, x, n, e) == Some(f)
    ensures FdsKept(f)
  {
    RedirFds(s.jobs, s.pipes, x.fds, n);
  }

  lemma StageFdsStep(jobs: Jobs, pipes: seq<Node>, fds: Fds, n: Node, at: PipePc)
    requires StageFdsInv(jobs, pipes, fds, n, at, Ends(3, 4))
    ensures match at
            case ForkLeft => PipeFdsInv(jobs, pipes, fds, n, Ends(3, 4))
            case ForkRight => PipeFdsInv(jobs, pipes, fds, n, Ends(3, 4))
            case CloseRead => StageFdsInv(jobs, pipes, Close(fds, 3), n, CloseWrite, Ends(3, 4))
            case CloseWrite => Std(jobs, pipes, Close(fds, 4), n)
            case _ => Std(jobs, pipes, fds, n)
  {
    if at.CloseRead? {
      CloseFds(jobs, pipes, fds, n, n, 3);
    } else if at.CloseWrite? {
      CloseFds(jobs, pipes, fds, n, n, 4);
    }
    hide OpenTo, Has, PipeEnds, Close;
  }

  lemma PipeFds(s: Sys, p: Pid, x: Proc, n: Node, at: PipePc, ends: Ends, forked: set<Pid>, e: Event, f: Effect)
    requires StageFdsInv(s.jobs, s.pipes, x.fds, n, at, ends) && (at.FirstWait? || at.SecondWait? || ends == Ends(3, 4))
    requires PipeStep(s, p, x, n, at, ends, forked, e) == Some(f)
    ensures FdsKept(f)
  {
    hide PipeFdsInv, Std, RedirFdsInv, Close, CmdAt;
    if at.FirstWait? || at.SecondWait? {
      assert StageFdsInv(s.jobs, s.pipes, x.fds, n, SecondWait, ends);
    } else {
      StageFdsStep(s.jobs, s.pipes, x.fds, n, at);
    }
  }

  lemma WaitFds(s: Sys, p: Pid, x: Proc, e: Event, f: Effect)
    requires ProcInv(s.jobs, s.pipes, x) && (x.pc.PromptWait? || x.pc.ListWait? || x.pc.Program? || x.pc.Exiting?)
    requires ProcStep(s, p, x, e) == Some(f)
    ensures FdsKept(f)
  {
    if x.pc.ListWait? {
      SameFds(s.jobs, s.pipes, x.fds, x.pc.node, Right);
    }
    hide Std;
  }

  /** The ends of a pipe are on descriptors 3 and 4 wherever they are used. */
  lemma EndsAre(s: Sys, x: Proc)
    requires FdsInv(s.jobs, s.pipes, x)
    ensures x.pc.InPipe? && !x.pc.at.FirstWait? && !x.pc.at.SecondWait? ==> x.pc.ends == Ends(3, 4)
    ensures x.pc.InPipeKid? ==> x.pc.ends == Ends(3, 4)
  {
  }

  lemma StepFds(s: Sys, p: Pid, x: Proc, e: Event, f: Effect)
    requires ProcInv(s.jobs, s.pipes, x)
    requires ProcStep(s, p, x, e) == Some(f)
    ensures FdsKept(f)
  {
    hide FdsKept, Std, RedirFdsInv, StageFdsInv, KidFdsInv;
    EndsAre(s, x);
    match x.pc
    case Prompt => PromptFds(s, p, x, e, f);
    case Enter(n) => EnterFds(s, p, x, n, CmdAt(s.jobs, n).value, e, f);
    case RedirOpen(n) => OpenFds(s, x, n, e, f);
    case InPipe(n, at, ends, forked) => PipeFds(s, p, x, n, at, ends, forked, e, f);
    case InPipeKid(n, side, step, ends) => KidFds(s, x, n, side, step, ends, e, f);
    case _ => WaitFds(s, p, x, e, f);
  }

  // ---------- One step keeps everyone in place ----------

  ghost predicate PlaceKept(f: Effect) {
    PlaceInv(f.jobs, f.act.self) && (f.act.Fork? ==> PlaceInv(f.jobs, f.act.child))
  }

  /** A wait for the last child leaves no children. */
  lemma LastWait(s: Sys, x: Proc, e: Event, next: Pc, f: Effect)
    requires |x.kids| <= 1 && WaitStep(s, x, e, next) == Some(f)
    ensures f.jobs == s.jobs && !f.act.Fork? && f.act.self == x.(pc := next, kids := {})
  {
    if e.Reap? {
      assert |f.act.self.kids| == |x.kids| - 1;
    }
  }

  lemma EnterPlace(s: Sys, p: Pid, x: Proc, n: Node, c: Cmd<string>, e: Event, f: Effect)
    requires CmdAt(s.jobs, n) == Some(c) && MayReach(x.born, n) && x.kids == {}
    requires EnterStep(s, p, x, n, c, e) == Some(f)
    ensures PlaceKept(f)
  {
    ChildOf(n, Left);
    ChildOf(n, Sub);
  }

  lemma PromptPlace(s: Sys, p: Pid, x: Proc, e: Event, f: Effect)
    requires x.kids == {}
    requires PromptStep(s, p, x, e) == Some(f)
    ensures PlaceKept(f)
  {
    assert MayReach(Node(|s.jobs|, []), Node(|s.jobs|, []));
  }

  lemma PipePlace(s: Sys, p: Pid, x: Proc, n: Node, at: PipePc, ends: Ends, forked: set<Pid>, e: Event, f: Effect)
    requires IsPipe(s.jobs, n) && MayReach(x.born, n) && PipeKids(at, forked, x.kids)
    requires PipeStep(s, p, x, n, at, ends, forked, e) == Some(f)
    ensures PlaceKept(f)
  {
  }

  lemma KidPlace(s: Sys, x: Proc, n: Node, side: Side, step: KidPc, ends: Ends, e: Event, f: Effect)
    requires IsPipe(s.jobs, n) && side != Sub && x.born == n.Child(side) && x.kids == {}
    requires KidStep(s, x, n, side, step, ends, e) == Some(f)
    ensures PlaceKept(f)
  {
    ChildOf(n, side);
  }

  lemma WaitPlace(s: Sys, p: Pid, x: Proc, e: Event, f: Effect)
    requires PlaceInv(s.jobs, x) && (x.pc.PromptWait? || x.pc.ListWait?)
    requires ProcStep(s, p, x, e) == Some(f)
    ensures PlaceKept(f)
  {
    if x.pc.ListWait? {
      ChildOf(x.pc.node, Right);
      LastWait(s, x, e, Enter(x.pc.node.Child(Right)), f);
    } else {
      LastWait(s, x, e, Prompt, f);
    }
  }

  lemma OtherPlace(s: Sys, p: Pid, x: Proc, e: Event, f: Effect)
    requires PlaceInv(s.jobs, x) && (x.pc.RedirOpen? || x.pc.Program? || x.pc.Exiting?)
    requires ProcStep(s, p, x, e) == Some(f)
    ensures PlaceKept(f)
  {
    if x.pc.RedirOpen? {
      ChildOf(x.pc.node, Sub);
    }
  }

  lemma StepPlace(s: Sys, p: Pid, x: Proc, e: Event, f: Effect)
    requires PlaceInv(s.jobs, x)
    requires ProcStep(s, p, x, e) == Some(f)
    ensures PlaceKept(f)
  {
    hide PlaceKept;
    match x.pc
    case Prompt => PromptPlace(s, p, x, e, f);
    case Enter(n) => EnterPlace(s, p, x, n, CmdAt(s.jobs, n).value, e, f);
    case InPipe(n, at, ends, forked) => PipePlace(s, p, x, n, at, ends, forked, e, f);
    case InPipeKid(n, side, step, ends) => KidPlace(s, x, n, side, step, ends, e, f);
    case PromptWait(_) => WaitPlace(s, p, x, e, f);
    case ListWait(_, _) => WaitPlace(s, p, x, e, f);
    case _ => OtherPlace(s, p, x, e, f);
  }
}
