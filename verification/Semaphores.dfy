/** The semaphore producers and consumers of pc-sem.c, for any number of threads and any initial `empty`. */
module Semaphores {
  import opened Prelude
  import opened Counting
  import opened Runs
  import opened Brackets

  /** The next call in the loop of a thread: P, printf or V. */
  datatype Pc = AtP | AtPrint | AtV

  datatype Thread = Thread(role: Role, pc: Pc)

  datatype State = State(empty: nat, fill: nat, out: string, threads: seq<Thread>)

  function Init(n: nat, roles: seq<Role>): State {
    State(n, 0, "", seq(|roles|, i requires 0 <= i < |roles| => Thread(roles[i], AtP)))
  }

  /** The next call of thread `t`; None while its P has to wait. */
  function Next(s: State, t: nat): Option<State> {
    if t >= |s.threads| then None else
    var role := s.threads[t].role;
    match s.threads[t].pc
    case AtP =>
      var ts := s.threads[t := Thread(role, AtPrint)];
      if role == Producer && s.empty > 0 then Some(s.(empty := s.empty - 1, threads := ts))
      else if role == Consumer && s.fill > 0 then Some(s.(fill := s.fill - 1, threads := ts))
      else None
    case AtPrint =>
      Some(s.(out := s.out + [Bracket(role)], threads := s.threads[t := Thread(role, AtV)]))
    case AtV =>
      var ts := s.threads[t := Thread(role, AtP)];
      Some(if role == Producer then s.(fill := s.fill + 1, threads := ts) else s.(empty := s.empty + 1, threads := ts))
  }

  predicate InFlight(x: Thread) { x.pc != AtP }

  /** The thread holds a printed left bracket that `fill` does not show: not yet in it, or taken out of it. */
  predicate HoldsOpen(x: Thread) { if x.role == Producer then x.pc == AtV else x.pc == AtPrint }

  ghost predicate Inv(n: nat, s: State) {
    && s.empty + s.fill + Count(InFlight, s.threads) == n
    && Scan(n, 0, s.out) == Some(s.fill + Count(HoldsOpen, s.threads))
  }

  lemma StepKeepsInv(n: nat, s: State, t: nat)
    requires Inv(n, s) && Next(s, t).Some?
    ensures Inv(n, Next(s, t).value)
  {
    var s' := Next(s, t).value;
    CountUpdate(InFlight, s.threads, t, s'.threads[t]);
    CountUpdate(HoldsOpen, s.threads, t, s'.threads[t]);
    CountImplied(HoldsOpen, InFlight, s'.threads);
    if s.threads[t].pc == AtPrint {
      Print(n, s.out, Bracket(s.threads[t].role));
    }
  }

  /** The state belongs to a system of these threads. */
  ghost predicate From(n: nat, roles: seq<Role>, s: State) {
    && Inv(n, s) && |s.threads| == |roles| && PrintableBy(roles, s.out)
    && forall t :: 0 <= t < |roles| ==> s.threads[t].role == roles[t]
  }

  lemma StepKeepsFrom(n: nat, roles: seq<Role>, s: State, t: nat)
    requires From(n, roles, s) && Next(s, t).Some?
    ensures From(n, roles, Next(s, t).value)
  {
    hide Inv;
    StepKeepsInv(n, s, t);
  }

  lemma RunKeepsInv(n: nat, roles: seq<Role>, s: State)
    requires Leads(Next, Init(n, roles), s)
    ensures From(n, roles, s)
  {
    var sched :| Run(Next, Init(n, roles), sched) == Some(s);
    CountNone(InFlight, Init(n, roles).threads);
    CountNone(HoldsOpen, Init(n, roles).threads);
    var inv := (m: State) => From(n, roles, m);
    assert inv(Init(n, roles));
    hide From, Next;
    forall m, t | inv(m) && Next(m, t).Some? ensures inv(Next(m, t).value) {
      StepKeepsFrom(n, roles, m, t);
    }
    Invariant(Next, inv, Init(n, roles), sched);
  }

  /** The two semaphores and the threads between P and V share n units, and all output is legal. */
  lemma OutputIsLegal(n: nat, roles: seq<Role>, s: State)
    requires Leads(Next, Init(n, roles), s)
    ensures Legal(n, s.out)
    ensures s.empty + s.fill + Count(InFlight, s.threads) == n
  {
    RunKeepsInv(n, roles, s);
  }

  // ---------- Every legal string is printed by some run ----------

  /** No thread is between its P and its V, and the output is `out`. */
  predicate Resting(n: nat, out: string, s: State) {
    && s.out == out && s.empty + s.fill == n && Scan(n, 0, out) == Some(s.fill)
    && forall t :: 0 <= t < |s.threads| ==> s.threads[t].pc == AtP
  }

  lemma {:induction false} PrintsAny(n: nat, roles: seq<Role>, out: string) returns (s: State)
    requires Legal(n, out) && PrintableBy(roles, out)
    ensures Leads(Next, Init(n, roles), s) && Resting(n, out, s)
    decreases |out|
  {
    if out == "" {
      s := Init(n, roles);
      LeadsRefl(Next, s);
    } else {
      var front, c := out[..|out| - 1], out[|out| - 1];
      assert out == front + [c];
      ScanAppend(n, 0, front, [c]);
      var m := PrintsAny(n, roles, front);
      s := OneRound(n, roles, front, c, m);
    }
  }

  /** A thread whose P need not wait goes once through its loop. */
  lemma Loop(s0: State, m: State, t: nat) returns (s: State)
    requires Leads(Next, s0, m) && t < |m.threads| && m.threads[t].pc == AtP && Next(m, t).Some?
    ensures Leads(Next, s0, s) && s.threads == m.threads
    ensures m.threads[t].role == Producer ==> s.out == m.out + "(" && s.empty == m.empty - 1 && s.fill == m.fill + 1
    ensures m.threads[t].role == Consumer ==> s.out == m.out + ")" && s.empty == m.empty + 1 && s.fill == m.fill - 1
  {
    hide Leads;
    var m1 := Next(m, t).value;
    LeadsStep(Next, s0, m, t, m1);
    var m2 := Next(m1, t).value;
    LeadsStep(Next, s0, m1, t, m2);
    s := Next(m2, t).value;
    LeadsStep(Next, s0, m2, t, s);
  }

  /** One thread of the right kind prints the next bracket. */
  lemma OneRound(n: nat, roles: seq<Role>, out: string, c: char, m: State) returns (s: State)
    requires Leads(Next, Init(n, roles), m) && Resting(n, out, m) && Legal(n, out + [c])
    requires (if c == '(' then Producer else Consumer) in roles
    ensures Leads(Next, Init(n, roles), s) && Resting(n, out + [c], s)
  {
    hide Leads;
    ScanAppend(n, 0, out, [c]);
    RunKeepsInv(n, roles, m);
    var role := if c == '(' then Producer else Consumer;
    var t :| 0 <= t < |roles| && roles[t] == role;
    s := Loop(Init(n, roles), m, t);
  }

  /** Whatever the threads, what can be printed is exactly what the comment of pc.c calls legal, as far as there are
      threads for its brackets. */
  lemma OutputsAreTheLegalOnes(n: nat, roles: seq<Role>, out: string)
    ensures (exists s :: Leads(Next, Init(n, roles), s) && s.out == out) <==> Legal(n, out) && PrintableBy(roles, out)
  {
    if s :| Leads(Next, Init(n, roles), s) && s.out == out {
      RunKeepsInv(n, roles, s);
    }
    if Legal(n, out) && PrintableBy(roles, out) {
      var s := PrintsAny(n, roles, out);
    }
  }

  // ---------- Deadlock ----------

  ghost predicate CanMove(s: State) { exists t :: Next(s, t).Some? }

  lemma SomeThreadMoves(n: nat, roles: seq<Role>, s: State)
    requires Leads(Next, Init(n, roles), s) && n >= 1 && Producer in roles && Consumer in roles
    ensures CanMove(s)
  {
    RunKeepsInv(n, roles, s);
    CountNone(InFlight, s.threads);
    var p :| 0 <= p < |roles| && roles[p] == Producer;
    var c :| 0 <= c < |roles| && roles[c] == Consumer;
    if t :| 0 <= t < |s.threads| && InFlight(s.threads[t]) {
      assert Next(s, t).Some?;
    } else {
      assert Next(s, p).Some? || Next(s, c).Some?;
    }
  }

  /** Without one kind of threads, or without a unit, every thread ends up waiting in its P. */
  lemma GetsStuck(n: nat, roles: seq<Role>) returns (s: State)
    requires n == 0 || Producer !in roles || Consumer !in roles
    ensures Leads(Next, Init(n, roles), s) && !CanMove(s)
  {
    if n == 0 || Producer !in roles {
      s := Init(n, roles);
      LeadsRefl<State, nat>(Next, s);
    } else {
      ScanOpens(n, 0, n);
      s := PrintsAny(n, roles, Opens(n));
      RunKeepsInv(n, roles, s);
    }
  }

  /** The system can never get stuck exactly if there are a producer, a consumer and a unit. */
  lemma NoDeadlock(n: nat, roles: seq<Role>)
    ensures (forall s :: Leads(Next, Init(n, roles), s) ==> CanMove(s)) <==>
            n >= 1 && Producer in roles && Consumer in roles
  {
    if n >= 1 && Producer in roles && Consumer in roles {
      forall s | Leads(Next, Init(n, roles), s) ensures CanMove(s) {
        SomeThreadMoves(n, roles, s);
      }
    } else {
      var s := GetsStuck(n, roles);
    }
  }
}
