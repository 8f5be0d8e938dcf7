/** The producers and consumers of pc-cv.c around one mutex and one condition variable, for any number of threads and
    any `n`. */
module CondVar {
  import opened Prelude
  import opened Runs
  import opened Monitor
  import opened Brackets

  datatype Data = Data(n: int, count: int, out: string)

  /** The statements behind the waiting loop; a consumer has no assertion. */
  datatype Stmt = AssertCondition | PrintBracket | ChangeCount

  type Sys = State<Data, Role, Stmt>

  /** The condition of the while loop is false: the thread need not wait. */
  predicate Ready(d: Data, role: Role) { if role == Producer then d.count != d.n else d.count != 0 }

  function First(role: Role): Stmt { if role == Producer then AssertCondition else PrintBracket }

  function Execute(d: Data, role: Role, at: Stmt): Outcome<Data, Stmt> {
    match at
    case AssertCondition => if d.count != d.n then Goes(d, PrintBracket) else Fails
    case PrintBracket => Goes(d.(out := d.out + [Bracket(role)]), ChangeCount)
    case ChangeCount => Ends(d.(count := if role == Producer then d.count + 1 else d.count - 1))
  }

  function Program(): Code<Data, Role, Stmt> { Code(Ready, First, Execute) }

  function Init(n: int, roles: seq<Role>): Sys { Start(Data(n, 0, ""), roles) }

  /** Some run of the threads leads to `s`. */
  ghost predicate Reaches(n: int, roles: seq<Role>, s: Sys) { Leads(Steps(Program()), Init(n, roles), s) }

  // ---------- The invariant ----------

  /** A negative `n` is never reached and does not limit the producers. */
  function Limit(n: int, out: string): nat { if n >= 0 then n else |out| }

  /** Brackets printed but not counted yet. */
  function Uncounted(s: Sys): int {
    if s.holder.Some? && s.holder.value < |s.threads| && s.threads[s.holder.value].pc == Inside(ChangeCount)
    then if s.threads[s.holder.value].role == Producer then 1 else -1
    else 0
  }

  ghost predicate Counted(s: Sys) {
    var d := s.data;
    && d.count >= 0 && (d.n >= 0 ==> d.count <= d.n)
    && d.count + Uncounted(s) >= 0
    && Scan(Limit(d.n, d.out), 0, d.out) == Some(d.count + Uncounted(s))
  }

  /** No assertion has failed, and only producers have one. */
  ghost predicate NoneAborted(s: Sys) {
    forall t :: 0 <= t < |s.threads| ==>
      !s.threads[t].pc.Aborted? && (s.threads[t].pc == Inside(AssertCondition) ==> s.threads[t].role == Producer)
  }

  lemma ProgramIsSteady()
    ensures Steady(Program())
  {
  }

  lemma KeepsNoneAborted(s: Sys, e: Event, s': Sys)
    requires Locking(Program(), s) && NoneAborted(s) && Next(Program(), s, e) == Some(s')
    ensures NoneAborted(s')
  {
    Frame(Program(), s, e, s');
  }

  lemma KeepsCounted(s: Sys, e: Event, s': Sys)
    requires Locking(Program(), s) && Counted(s) && Next(Program(), s, e) == Some(s')
    ensures Counted(s') && s'.data.n == s.data.n
  {
    hide Scan;
    var d := s.data;
    if e.Step? && s.threads[e.t].pc == Inside(PrintBracket) {
      ScanBound(Limit(d.n, d.out), 0, d.out);
      ScanWiden(Limit(d.n, d.out), Limit(s'.data.n, s'.data.out), 0, d.out);
      Print(Limit(s'.data.n, s'.data.out), d.out, Bracket(s.threads[e.t].role));
    } else {
      assert s'.data.out == d.out && s'.data.count + Uncounted(s') == d.count + Uncounted(s);
    }
  }

  ghost predicate Inv(s: Sys) {
    Locking(Program(), s) && Sleeping(Program(), s) && NoneAborted(s) && Counted(s)
  }

  /** The state belongs to a system of these threads. */
  ghost predicate From(n: int, roles: seq<Role>, s: Sys) {
    && Inv(s) && s.data.n == n && |s.threads| == |roles| && PrintableBy(roles, s.data.out)
    && forall t :: 0 <= t < |roles| ==> s.threads[t].role == roles[t]
  }

  lemma StepPrints(s: Sys, e: Event, s': Sys)
    requires Next(Program(), s, e) == Some(s')
    ensures s'.data.out == s.data.out || s'.data.out == s.data.out + [Bracket(s.threads[e.t].role)]
  {
  }

  lemma StepKeepsFrom(n: int, roles: seq<Role>, s: Sys, e: Event, s': Sys)
    requires From(n, roles, s) && Next(Program(), s, e) == Some(s')
    ensures From(n, roles, s')
  {
    hide Locking, Sleeping, Counted, NoneAborted, Next;
    ProgramIsSteady();
    Frame(Program(), s, e, s');
    KeepsLocking(Program(), s, e, s');
    KeepsSleeping(Program(), s, e, s');
    KeepsNoneAborted(s, e, s');
    KeepsCounted(s, e, s');
    StepPrints(s, e, s');
  }

  lemma RunKeepsInv(n: int, roles: seq<Role>, s: Sys)
    requires Reaches(n, roles, s)
    ensures From(n, roles, s)
  {
    var sched :| Run(Steps(Program()), Init(n, roles), sched) == Some(s);
    var inv := (m: Sys) => From(n, roles, m);
    assert inv(Init(n, roles));
    hide From, Next;
    forall m, e | inv(m) && Steps(Program())(m, e).Some? ensures inv(Steps(Program())(m, e).value) {
      StepKeepsFrom(n, roles, m, e, Next(Program(), m, e).value);
    }
    Invariant(Steps(Program()), inv, Init(n, roles), sched);
  }

  // ---------- Safety ----------

  /** All output is legal for `n` (a negative `n` bounds nothing), and the assertion after the waiting loop never fails.
      */
  lemma OutputIsLegal(n: int, roles: seq<Role>, s: Sys)
    requires Reaches(n, roles, s)
    ensures Legal(Limit(n, s.data.out), s.data.out)
    ensures forall t :: 0 <= t < |s.threads| ==> !s.threads[t].pc.Aborted?
  {
    RunKeepsInv(n, roles, s);
  }

  /** No wake-up is lost: except between a change of `count` and its broadcast, a thread asleep has reason to wait. */
  lemma NoLostWakeup(n: int, roles: seq<Role>, s: Sys, t: nat)
    requires Reaches(n, roles, s) && t < |s.threads| && s.threads[t].pc.Asleep?
    requires forall u :: 0 <= u < |s.threads| ==> !s.threads[u].pc.AtBroadcast?
    ensures s.data.count == if s.threads[t].role == Producer then n else 0
  {
    RunKeepsInv(n, roles, s);
  }

  // ---------- Every legal string is printed by some run ----------

  /** A thread that need not wait goes once through its loop. */
  lemma Loop(s0: Sys, m: Sys, t: nat) returns (s: Sys)
    requires Leads(Steps(Program()), s0, m) && Resting(m) && t < |m.threads| && Ready(m.data, m.threads[t].role)
    ensures Leads(Steps(Program()), s0, s) && s.threads == m.threads && s.holder == None
    ensures m.threads[t].role == Producer ==> s.data == m.data.(out := m.data.out + "(", count := m.data.count + 1)
    ensures m.threads[t].role == Consumer ==> s.data == m.data.(out := m.data.out + ")", count := m.data.count - 1)
  {
    hide Leads;
    var r := Enter(Program(), s0, m, t);
    if m.threads[t].role == Producer {
      r := RunNext(Program(), s0, r, t);
    }
    assert r == Goto(m, t, Inside(PrintBracket)).(holder := Some(t));
    r := RunNext(Program(), s0, r, t);
    r := RunNext(Program(), s0, r, t);
    s := Leave(Program(), s0, m, r, t);
  }

  lemma {:induction false} PrintsAny(n: int, L: nat, roles: seq<Role>, out: string) returns (s: Sys)
    requires (n >= 0 ==> L == n) && Legal(L, out) && PrintableBy(roles, out)
    ensures Reaches(n, roles, s) && Resting(s) && s.data.out == out && Scan(L, 0, out) == Some(s.data.count)
    decreases |out|
  {
    if out == "" {
      s := Init(n, roles);
      LeadsRefl(Steps(Program()), s);
    } else {
      hide Leads;
      var front, c := out[..|out| - 1], out[|out| - 1];
      assert out == front + [c];
      ScanAppend(L, 0, front, [c]);
      var m := PrintsAny(n, L, roles, front);
      RunKeepsInv(n, roles, m);
      var role := if c == '(' then Producer else Consumer;
      var t :| 0 <= t < |roles| && roles[t] == role;
      s := Loop(Init(n, roles), m, t);
    }
  }

  /** Whatever the threads, what can be printed is exactly what the comment of pc.c calls legal, as far as there are
      threads for its brackets. */
  lemma OutputsAreTheLegalOnes(n: int, roles: seq<Role>, out: string)
    ensures (exists s :: Reaches(n, roles, s) && s.data.out == out) <==>
            Legal(Limit(n, out), out) && PrintableBy(roles, out)
  {
    if s :| Reaches(n, roles, s) && s.data.out == out {
      RunKeepsInv(n, roles, s);
    }
    if Legal(Limit(n, out), out) && PrintableBy(roles, out) {
      var s := PrintsAny(n, Limit(n, out), roles, out);
    }
  }

  // ---------- Deadlock ----------

  /** There are producers, and consumers with room between them, or no limit. */
  predicate Live(n: int, roles: seq<Role>) { Producer in roles && if Consumer in roles then n != 0 else n < 0 }

  lemma SomeThreadMoves(n: int, roles: seq<Role>, s: Sys)
    requires Reaches(n, roles, s) && Live(n, roles)
    ensures CanMove(Program(), s)
  {
    RunKeepsInv(n, roles, s);
    if !CanMove(Program(), s) {
      var p :| 0 <= p < |roles| && roles[p] == Producer;
      StuckMeansAsleep(Program(), s, p);
      assert s.data.count == n;
      var c :| 0 <= c < |roles| && roles[c] == Consumer;
      StuckMeansAsleep(Program(), s, c);
      assert false;
    }
  }

  /** A run after which nobody is ready, when the threads are not live. */
  lemma RunOut(n: int, roles: seq<Role>) returns (m: Sys)
    requires !Live(n, roles)
    ensures Reaches(n, roles, m) && Resting(m) && NobodyReady(Program(), m)
  {
    if Producer in roles && Consumer !in roles {
      ScanOpens(n, 0, n);
      m := PrintsAny(n, n, roles, Opens(n));
      RunKeepsInv(n, roles, m);
    } else {
      m := Init(n, roles);
      LeadsRefl(Steps(Program()), m);
    }
  }

  /** The system can never get stuck, even if no thread wakes up by chance, exactly if there are producers and either
      consumers and n is not 0, or no consumers and n is negative. */
  lemma NoDeadlock(n: int, roles: seq<Role>)
    ensures (forall s :: Reaches(n, roles, s) ==> CanMove(Program(), s)) <==> Live(n, roles)
  {
    if Live(n, roles) {
      forall s | Reaches(n, roles, s) ensures CanMove(Program(), s) {
        SomeThreadMoves(n, roles, s);
      }
    } else {
      var m := RunOut(n, roles);
      var s := GetsStuck(Program(), Init(n, roles), m);
      assert Reaches(n, roles, s);
    }
  }
}
