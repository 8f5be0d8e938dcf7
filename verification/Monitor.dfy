/** Threads around one mutex and one condition variable: each locks, waits in a loop for its condition, runs its
    statements, wakes all waiting threads and unlocks, again and again. Waiting threads may also wake up spuriously. */
module Monitor {
  import opened Prelude
  import opened Runs

  /** What a thread does next. `Asleep` is inside the wait; a woken thread has to get the mutex back first. */
  datatype Pc<+B> = AtLock | AtCheck | Asleep | AtRelock | Inside(at: B) | AtBroadcast | AtUnlock | Aborted

  datatype Thread<+R, +B> = Thread(role: R, pc: Pc<B>)

  datatype State<+D, +R, +B> = State(data: D, holder: Option<nat>, threads: seq<Thread<R, B>>)

  datatype Event = Step(t: nat) | Spurious(t: nat)

  /** A statement changes the data and goes on to another one or to the broadcast, or an assertion fails. */
  datatype Outcome<+D, +B> = Goes(data: D, next: B) | Ends(data: D) | Fails

  /** `ready` is the condition that a thread waits for, `first` the first statement behind the waiting loop. */
  datatype Code<!D, !R, !B> = Code(ready: (D, R) -> bool, first: R -> B, run: (D, R, B) -> Outcome<D, B>)

  function Start<D, R, B>(data: D, roles: seq<R>): State<D, R, B> {
    State(data, None, seq(|roles|, i requires 0 <= i < |roles| => Thread(roles[i], AtLock)))
  }

  function Goto<D, R, B>(s: State<D, R, B>, t: nat, pc: Pc<B>): State<D, R, B>
    requires t < |s.threads|
  {
    s.(threads := s.threads[t := s.threads[t].(pc := pc)])
  }

  function Acquire<D, R, B>(s: State<D, R, B>, t: nat): Option<State<D, R, B>>
    requires t < |s.threads|
  {
    if s.holder == None then Some(Goto(s, t, AtCheck).(holder := Some(t))) else None
  }

  function WakeAll<R, B>(ts: seq<Thread<R, B>>): (r: seq<Thread<R, B>>)
    ensures |r| == |ts|
  {
    seq(|ts|, i requires 0 <= i < |ts| => if ts[i].pc.Asleep? then ts[i].(pc := AtRelock) else ts[i])
  }

  function RunOne<D, R, B>(code: Code<D, R, B>, s: State<D, R, B>, t: nat, at: B): State<D, R, B>
    requires t < |s.threads|
  {
    match code.run(s.data, s.threads[t].role, at)
    case Goes(data, next) => Goto(s, t, Inside(next)).(data := data)
    case Ends(data) => Goto(s, t, AtBroadcast).(data := data)
    case Fails => Goto(s, t, Aborted)
  }

  function StepOf<D, R, B>(code: Code<D, R, B>, s: State<D, R, B>, t: nat): Option<State<D, R, B>>
    requires t < |s.threads|
  {
    var role := s.threads[t].role;
    match s.threads[t].pc
    case AtLock => Acquire(s, t)
    case AtRelock => Acquire(s, t)
    case AtCheck => Some(if code.ready(s.data, role) then Goto(s, t, Inside(code.first(role)))
                         else Goto(s, t, Asleep).(holder := None))
    case Inside(at) => Some(RunOne(code, s, t, at))
    case AtBroadcast => Some(Goto(s.(threads := WakeAll(s.threads)), t, AtUnlock))
    case AtUnlock => Some(Goto(s, t, AtLock).(holder := None))
    case Asleep => None
    case Aborted => None
  }

  function Next<D, R, B>(code: Code<D, R, B>, s: State<D, R, B>, e: Event): Option<State<D, R, B>> {
    if e.t >= |s.threads| then None
    else if e.Step? then StepOf(code, s, e.t)
    else if s.threads[e.t].pc.Asleep? then Some(Goto(s, e.t, AtRelock))
    else None
  }

  function Steps<D, R, B>(code: Code<D, R, B>): (State<D, R, B>, Event) -> Option<State<D, R, B>> {
    (s: State<D, R, B>, e: Event) => Next(code, s, e)
  }

  // ---------- What every step keeps ----------

  /** Only the last statement changes what the threads wait for. */
  ghost predicate Steady<D(!new), R(!new), B(!new)>(code: Code<D, R, B>) {
    forall d: D, r: R, b: B, r': R ::
      code.run(d, r, b).Goes? ==> code.ready(code.run(d, r, b).data, r') == code.ready(d, r')
  }

  predicate HasMutex<B>(pc: Pc<B>) { !pc.AtLock? && !pc.AtRelock? && !pc.Asleep? }

  /** The mutex is held by exactly the thread inside, and what that has waited for stays true up to the broadcast. */
  ghost predicate Locking<D, R, B>(code: Code<D, R, B>, s: State<D, R, B>) {
    && (s.holder.Some? ==> s.holder.value < |s.threads|)
    && forall t :: 0 <= t < |s.threads| ==>
         && (HasMutex(s.threads[t].pc) <==> s.holder == Some(t))
         && (s.threads[t].pc.Inside? ==> code.ready(s.data, s.threads[t].role))
  }

  /** The thread inside has changed what others wait for, and has not woken them yet. */
  predicate Broadcasting<D, R, B>(s: State<D, R, B>) {
    s.holder.Some? && s.holder.value < |s.threads| && s.threads[s.holder.value].pc.AtBroadcast?
  }

  /** Whoever is asleep has reason to be. */
  ghost predicate Sleeping<D, R, B>(code: Code<D, R, B>, s: State<D, R, B>) {
    || Broadcasting(s)
    || forall t :: 0 <= t < |s.threads| && s.threads[t].pc.Asleep? ==> !code.ready(s.data, s.threads[t].role)
  }

  /** A step changes the thread that takes it; only the broadcast also changes others, and it only wakes them. */
  lemma Frame<D, R, B>(code: Code<D, R, B>, s: State<D, R, B>, e: Event, s': State<D, R, B>)
    requires Next(code, s, e) == Some(s')
    ensures e.t < |s.threads| == |s'.threads|
    ensures forall t :: 0 <= t < |s.threads| ==> s'.threads[t].role == s.threads[t].role
    ensures forall t :: 0 <= t < |s.threads| && t != e.t ==>
              s'.threads[t] == s.threads[t] || (s.threads[t].pc.Asleep? && s'.threads[t].pc.AtRelock?)
    ensures s'.data != s.data ==> e.Step? && s.threads[e.t].pc.Inside?
  {
  }

  lemma KeepsLocking<D(!new), R(!new), B(!new)>(code: Code<D, R, B>, s: State<D, R, B>, e: Event, s': State<D, R, B>)
    requires Steady(code) && Locking(code, s) && Next(code, s, e) == Some(s')
    ensures Locking(code, s')
  {
    Frame(code, s, e, s');
  }

  lemma KeepsSleeping<D(!new), R(!new), B(!new)>(code: Code<D, R, B>, s: State<D, R, B>, e: Event, s': State<D, R, B>)
    requires Steady(code) && Locking(code, s) && Sleeping(code, s) && Next(code, s, e) == Some(s')
    ensures Sleeping(code, s')
  {
    Frame(code, s, e, s');
  }

  // ---------- Getting stuck ----------

  /** Some thread can go on without being woken by chance. */
  ghost predicate CanMove<D, R, B>(code: Code<D, R, B>, s: State<D, R, B>) { exists t :: Next(code, s, Step(t)).Some? }

  lemma StuckMeansAsleep<D, R, B>(code: Code<D, R, B>, s: State<D, R, B>, t: nat)
    requires Locking(code, s) && !CanMove(code, s) && t < |s.threads|
    requires forall u :: 0 <= u < |s.threads| ==> !s.threads[u].pc.Aborted?
    ensures s.threads[t].pc.Asleep? && !Broadcasting(s)
  {
    assert Next(code, s, Step(t)).None?;
    assert s.holder.Some? ==> Next(code, s, Step(s.holder.value)).None?;
  }

  predicate Resting<D, R, B>(s: State<D, R, B>) {
    s.holder == None && forall t :: 0 <= t < |s.threads| ==> s.threads[t].pc.AtLock?
  }

  ghost predicate NobodyReady<D, R, B>(code: Code<D, R, B>, s: State<D, R, B>) {
    forall t :: 0 <= t < |s.threads| ==> !code.ready(s.data, s.threads[t].role)
  }

  /** If nobody is ready, the first k threads all go to sleep. */
  lemma {:induction false} AllSleep<D, R, B>(code: Code<D, R, B>, s0: State<D, R, B>, m: State<D, R, B>, k: nat)
    returns (s: State<D, R, B>)
    requires Leads(Steps(code), s0, m) && Resting(m) && NobodyReady(code, m) && k <= |m.threads|
    ensures Leads(Steps(code), s0, s) && s == m.(threads := s.threads) && |s.threads| == |m.threads|
    ensures forall t :: 0 <= t < |m.threads| ==> s.threads[t] == m.threads[t].(pc := if t < k then Asleep else AtLock)
    decreases k
  {
    if k == 0 {
      s := m;
    } else {
      hide Leads;
      var r := AllSleep(code, s0, m, k - 1);
      var r1 := Next(code, r, Step(k - 1)).value;
      LeadsStep(Steps(code), s0, r, Step(k - 1), r1);
      s := Next(code, r1, Step(k - 1)).value;
      LeadsStep(Steps(code), s0, r1, Step(k - 1), s);
    }
  }

  lemma GetsStuck<D, R, B>(code: Code<D, R, B>, s0: State<D, R, B>, m: State<D, R, B>) returns (s: State<D, R, B>)
    requires Leads(Steps(code), s0, m) && Resting(m) && NobodyReady(code, m)
    ensures Leads(Steps(code), s0, s) && !CanMove(code, s)
  {
    s := AllSleep(code, s0, m, |m.threads|);
  }

  // ---------- Going once around ----------

  /** Thread `t`, which need not wait, gets to its first statement. */
  lemma Enter<D, R, B>(code: Code<D, R, B>, s0: State<D, R, B>, m: State<D, R, B>, t: nat) returns (s: State<D, R, B>)
    requires Leads(Steps(code), s0, m) && Resting(m) && t < |m.threads| && code.ready(m.data, m.threads[t].role)
    ensures Leads(Steps(code), s0, s)
    ensures s == Goto(m, t, Inside(code.first(m.threads[t].role))).(holder := Some(t))
  {
    hide Leads;
    var m1 := Next(code, m, Step(t)).value;
    LeadsStep(Steps(code), s0, m, Step(t), m1);
    s := Next(code, m1, Step(t)).value;
    LeadsStep(Steps(code), s0, m1, Step(t), s);
  }

  /** It runs a statement. */
  lemma RunNext<D, R, B>(code: Code<D, R, B>, s0: State<D, R, B>, r: State<D, R, B>, t: nat) returns (s: State<D, R, B>)
    requires Leads(Steps(code), s0, r) && t < |r.threads| && r.threads[t].pc.Inside?
    ensures Leads(Steps(code), s0, s) && s == RunOne(code, r, t, r.threads[t].pc.at)
  {
    s := Next(code, r, Step(t)).value;
    LeadsStep(Steps(code), s0, r, Step(t), s);
  }

  /** It wakes all and unlocks. */
  lemma Leave<D, R, B>(code: Code<D, R, B>, s0: State<D, R, B>, m: State<D, R, B>, r: State<D, R, B>, t: nat)
    returns (s: State<D, R, B>)
    requires Leads(Steps(code), s0, r) && Resting(m) && t < |m.threads|
    requires r.threads == Goto(m, t, AtBroadcast).threads && r.holder == Some(t)
    ensures Leads(Steps(code), s0, s) && s == State(r.data, None, m.threads)
  {
    hide Leads;
    var r1 := Next(code, r, Step(t)).value;
    LeadsStep(Steps(code), s0, r, Step(t), r1);
    s := Next(code, r1, Step(t)).value;
    LeadsStep(Steps(code), s0, r1, Step(t), s);
    assert s.threads == m.threads;
  }
}
