/** The executor of sh-xv6.c: every process of a shell session at system-call granularity, under every interleaving,
    with every fork, pipe, open and execve free to fail. */
module ShellRun {
  import opened Prelude
  import opened ShellGrammar

  // ---------- Descriptor tables ----------

  datatype File = Inherited(n: nat) | PipeRead(id: nat) | PipeWrite(id: nat) | Opened(name: string, op: RedirOp)

  type Fds = map<nat, File>

  ghost function OpenFrom(fds: Fds, from: nat): set<nat> { set k | k in fds.Keys && k >= from }

  /** The kernel hands out the lowest unused descriptor. */
  function LowestFree(fds: Fds, from: nat := 0): (n: nat)
    ensures n >= from && n !in fds
    ensures forall k :: from <= k < n ==> k in fds
    decreases OpenFrom(fds, from)
  {
    if from !in fds then from else
    assert from in OpenFrom(fds, from) && from !in OpenFrom(fds, from + 1);
    LowestFree(fds, from + 1)
  }

  function Close(fds: Fds, fd: nat): Fds { fds - {fd} }

  function Dup(fds: Fds, fd: nat): Fds { if fd in fds then fds[LowestFree(fds) := fds[fd]] else fds }

  function Open(fds: Fds, f: File): Fds { fds[LowestFree(fds) := f] }

  /** `rcmd->fd`: standard input for `<`, standard output for `>` and `>>`. */
  function RedirFd(op: RedirOp): nat { if op == Input then 0 else 1 }

  // ---------- Nodes of command trees ----------

  datatype Side = Sub | Left | Right

  /** A place in the command of job number `job`: the way down to it from the root. */
  datatype Node = Node(job: nat, path: seq<Side>) {
    function Child(d: Side): Node { Node(job, path + [d]) }

    function Parent(): Node
      requires path != []
    {
      Node(job, path[..|path| - 1])
    }
  }

  /** A job is the tree of the line that was read, or None if parsing it panics. */
  type Jobs = seq<Option<Cmd<string>>>

  function CmdAt(jobs: Jobs, n: Node): Option<Cmd<string>>
    decreases |n.path|
  {
    if n.path == [] then (if n.job < |jobs| then jobs[n.job] else None)
    else match (CmdAt(jobs, n.Parent()), n.path[|n.path| - 1])
      case (Some(Redir(c, _, _)), Sub) => Some(c)
      case (Some(Back(c)), Sub) => Some(c)
      case (Some(Pipe(l, _)), Left) => Some(l)
      case (Some(Pipe(_, r)), Right) => Some(r)
      case (Some(List(l, _)), Left) => Some(l)
      case (Some(List(_, r)), Right) => Some(r)
      case _ => None
  }

  // ---------- Processes ----------

  type Pid = nat

  /** Where a process is. `forked` remembers the children forked for the current node. */
  datatype Pc =
    | Prompt
    | PromptWait(forked: set<Pid>)
    | Enter(node: Node)                                           // about to call runcmd on node
    | RedirOpen(node: Node)                                       // descriptor closed, about to open the file
    | ListWait(node: Node, forked: set<Pid>)
    | InPipe(node: Node, at: PipePc, ends: Ends, forked: set<Pid>)
    | InPipeKid(node: Node, side: Side, step: KidPc, ends: Ends)   // child of a pipe node, before its own runcmd
    | Program(node: Node)                                         // execve has succeeded
    | Exiting
    | Zombie

  datatype PipePc = ForkLeft | ForkRight | CloseRead | CloseWrite | FirstWait | SecondWait

  datatype KidPc = CloseStd | DupEnd | CloseReadEnd | CloseWriteEnd

  /** p[0] and p[1]. */
  datatype Ends = Ends(rd: nat, wr: nat)

  /** `kids` are the children not yet reaped; `born` is the node the process was forked to run. */
  datatype Proc = Proc(pc: Pc, fds: Fds, kids: set<Pid>, parent: Pid, born: Node)

  /** `pipes[k]` is the node that made pipe number k. */
  datatype Sys = Sys(procs: map<Pid, Proc>, nextPid: Pid, jobs: Jobs, pipes: seq<Node>)

  const SHELL: Pid := 0

  function InitFds(): Fds { map[0 := Inherited(0), 1 := Inherited(1), 2 := Inherited(2)] }

  function Init(): Sys {
    Sys(map[SHELL := Proc(Prompt, InitFds(), {}, SHELL, Node(0, []))], 1, [], [])
  }

  // ---------- Steps ----------

  /** What happens next: process `p` proceeds, its system call fails, or its wait4 reaps `dead`. A read line is
      parsed in the child; None is a line on which the parser panics. */
  datatype Event =
    | Go(p: Pid)
    | Fail(p: Pid)
    | Reap(p: Pid, dead: Pid)
    | ReadLine(p: Pid, job: Option<Cmd<string>>)
    | EndOfInput(p: Pid)

  datatype Action = Move(self: Proc) | Fork(self: Proc, child: Proc) | Wait(self: Proc, dead: Pid)

  datatype Effect = Effect(act: Action, jobs: Jobs, pipes: seq<Node>)

  /** `fork`: the child starts at `there` with a copy of the descriptors. */
  function Forks(s: Sys, p: Pid, x: Proc, here: Pc, there: Pc, born: Node): Action {
    Fork(x.(pc := here, kids := x.kids + {s.nextPid}), Proc(there, x.fds, {}, p, born))
  }

  /** An action that makes no pipe and starts no job. */
  function Plain(s: Sys, act: Action): Option<Effect> { Some(Effect(act, s.jobs, s.pipes)) }

  /** `wait4(-1)`: reaps any child that has exited, or returns at once when there are no children. */
  function WaitStep(s: Sys, x: Proc, e: Event, next: Pc): Option<Effect> {
    match e
    case Reap(_, z) =>
      if z in x.kids && z in s.procs && s.procs[z].pc == Zombie then
        Plain(s, Wait(x.(pc := next, kids := x.kids - {z}), z))
      else None
    case Go(_) => if x.kids == {} then Plain(s, Move(x.(pc := next))) else None
    case _ => None
  }

  /** The loop of `_start`. */
  function PromptStep(s: Sys, p: Pid, x: Proc, e: Event): Option<Effect> {
    match e
    case ReadLine(_, job) =>
      var n := Node(|s.jobs|, []);
      var act := Forks(s, p, x, PromptWait({s.nextPid}), if job.Some? then Enter(n) else Exiting, n);
      Some(Effect(act, s.jobs + [job], s.pipes))
    case Fail(_) => Plain(s, Move(x.(pc := PromptWait({}))))
    case EndOfInput(_) => Plain(s, Move(x.(pc := Exiting)))
    case _ => None
  }

  /** The first system call `runcmd` makes for node `n`, whose command is `c`. */
  function EnterStep(s: Sys, p: Pid, x: Proc, n: Node, c: Cmd<string>, e: Event): Option<Effect> {
    if e.Go? then
      match c
      case Exec(argv) => Plain(s, Move(x.(pc := if argv == [] then Exiting else Program(n))))
      case Redir(_, _, op) => Plain(s, Move(x.(pc := RedirOpen(n), fds := Close(x.fds, RedirFd(op)))))
      case List(_, _) => Plain(s, Forks(s, p, x, ListWait(n, {s.nextPid}), Enter(n.Child(Left)), n.Child(Left)))
      case Pipe(_, _) =>
        var rd := LowestFree(x.fds);
        var fds := x.fds[rd := PipeRead(|s.pipes|)];
        var wr := LowestFree(fds);
        var fds' := fds[wr := PipeWrite(|s.pipes|)];
        Some(Effect(Move(x.(pc := InPipe(n, ForkLeft, Ends(rd, wr), {}), fds := fds')), s.jobs, s.pipes + [n]))
      case Back(_) => Plain(s, Forks(s, p, x, Exiting, Enter(n.Child(Sub)), n.Child(Sub)))
    else if e.Fail? then
      match c
      case Exec(argv) => if argv == [] then None else Plain(s, Move(x.(pc := Exiting)))
      case Redir(_, _, _) => None
      case List(_, _) => Plain(s, Move(x.(pc := ListWait(n, {}))))
      case Pipe(_, _) => Plain(s, Move(x.(pc := Exiting)))
      case Back(_) => Plain(s, Move(x.(pc := Exiting)))
    else None
  }

  /** The open of a redirection node, after the close. */
  function OpenStep(s: Sys, x: Proc, n: Node, e: Event): Option<Effect> {
    match (CmdAt(s.jobs, n), e)
    case (Some(Redir(_, f, op)), Go(_)) =>
      Plain(s, Move(x.(pc := Enter(n.Child(Sub)), fds := Open(x.fds, Opened(f, op)))))
    case (_, Fail(_)) => Plain(s, Move(x.(pc := Exiting)))
    case _ => None
  }

  /** The parent's side of a pipe node, once the pipe is made. */
  function PipeStep(s: Sys, p: Pid, x: Proc, n: Node, at: PipePc, ends: Ends, forked: set<Pid>, e: Event)
    : Option<Effect>
  {
    match at
    case ForkLeft =>
      if e.Go? then
        Plain(s, Forks(s, p, x, InPipe(n, ForkRight, ends, forked + {s.nextPid}),
                       InPipeKid(n, Left, CloseStd, ends), n.Child(Left)))
      else if e.Fail? then Plain(s, Move(x.(pc := InPipe(n, ForkRight, ends, forked))))
      else None
    case ForkRight =>
      if e.Go? then
        Plain(s, Forks(s, p, x, InPipe(n, CloseRead, ends, forked + {s.nextPid}),
                       InPipeKid(n, Right, CloseStd, ends), n.Child(Right)))
      else if e.Fail? then Plain(s, Move(x.(pc := InPipe(n, CloseRead, ends, forked))))
      else None
    case CloseRead =>
      if !e.Go? then None
      else Plain(s, Move(x.(pc := InPipe(n, CloseWrite, ends, forked), fds := Close(x.fds, ends.rd))))
    case CloseWrite =>
      if !e.Go? then None
      else Plain(s, Move(x.(pc := InPipe(n, FirstWait, ends, forked), fds := Close(x.fds, ends.wr))))
    case FirstWait => WaitStep(s, x, e, InPipe(n, SecondWait, ends, forked))
    case SecondWait => WaitStep(s, x, e, Exiting)
  }

  /** The child's side of a pipe node, up to its own `runcmd`. */
  function KidStep(s: Sys, x: Proc, n: Node, side: Side, step: KidPc, ends: Ends, e: Event): Option<Effect> {
    if !e.Go? then None else
    match step
    case CloseStd =>
      Plain(s, Move(x.(pc := InPipeKid(n, side, DupEnd, ends), fds := Close(x.fds, if side == Left then 1 else 0))))
    case DupEnd =>
      Plain(s, Move(x.(pc := InPipeKid(n, side, CloseReadEnd, ends),
                       fds := Dup(x.fds, if side == Left then ends.wr else ends.rd))))
    case CloseReadEnd =>
      Plain(s, Move(x.(pc := InPipeKid(n, side, CloseWriteEnd, ends), fds := Close(x.fds, ends.rd))))
    case CloseWriteEnd =>
      Plain(s, Move(x.(pc := Enter(n.Child(side)), fds := Close(x.fds, ends.wr))))
  }

  function ProcStep(s: Sys, p: Pid, x: Proc, e: Event): Option<Effect> {
    match x.pc
    case Prompt => PromptStep(s, p, x, e)
    case PromptWait(_) => WaitStep(s, x, e, Prompt)
    case Enter(n) => if CmdAt(s.jobs, n).Some? then EnterStep(s, p, x, n, CmdAt(s.jobs, n).value, e) else None
    case RedirOpen(n) => OpenStep(s, x, n, e)
    case ListWait(n, _) => WaitStep(s, x, e, Enter(n.Child(Right)))
    case InPipe(n, at, ends, forked) => PipeStep(s, p, x, n, at, ends, forked, e)
    case InPipeKid(n, side, step, ends) => KidStep(s, x, n, side, step, ends, e)
    case Program(_) => if e.Go? then Plain(s, Move(x.(pc := Exiting))) else None
    case Exiting => if e.Go? then Plain(s, Move(x.(pc := Zombie, fds := map[], kids := {}))) else None
    case Zombie => None
  }

  function Apply(s: Sys, p: Pid, f: Effect): Sys {
    match f.act
    case Move(x) => Sys(s.procs[p := x], s.nextPid, f.jobs, f.pipes)
    case Fork(x, child) => Sys(s.procs[p := x][s.nextPid := child], s.nextPid + 1, f.jobs, f.pipes)
    case Wait(x, z) => Sys((s.procs - {z})[p := x], s.nextPid, f.jobs, f.pipes)
  }

  /** The state after event `e`, if `e` can happen in `s`. */
  function Next(s: Sys, e: Event): Option<Sys> {
    if e.p !in s.procs then None else
    match ProcStep(s, e.p, s.procs[e.p], e)
    case None => None
    case Some(f) => Some(Apply(s, e.p, f))
  }

  /** The state a shell session is in after the events `es`, if they can happen in this order. */
  function Run(es: seq<Event>): Option<Sys>
    decreases |es|
  {
    if es == [] then Some(Init()) else
    match Run(es[..|es| - 1])
    case None => None
    case Some(s) => Next(s, es[|es| - 1])
  }
}
