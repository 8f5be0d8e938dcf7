/** The spin lock of thread-sync.h and the counter of sum-scalability-spin.c that it protects. */
module SpinCounter {
  import opened Prelude
  import opened Counting
  import opened Runs

  /** Where a thread is in the body of its loop. */
  datatype Pc = Acquire | Load | Store(value: int) | Release

  datatype Thread = Thread(i: nat, pc: Pc)

  datatype State = State(lock: int, sum: int, threads: seq<Thread>)

  function Init(T: nat): State { State(0, 0, seq(T, _ => Thread(0, Acquire))) }

  /** `atomic_xchg`: the old value, and the new one in its place. */
  function Xchg(lock: int, newval: int): (int, int) { (lock, newval) }

  /** The next atomic step of thread `t`, which has `n` iterations to do; a failed exchange spins. */
  function Next(n: int, s: State, t: nat): Option<State> {
    if t >= |s.threads| then None else
    var x := s.threads[t];
    match x.pc
    case Acquire =>
      if x.i >= n then None else
      var (value, lock) := Xchg(s.lock, 1);
      Some(State(lock, s.sum, s.threads[t := if value == 0 then x.(pc := Load) else x]))
    case Load => Some(s.(threads := s.threads[t := x.(pc := Store(s.sum))]))
    case Store(v) => Some(State(s.lock, v + 1, s.threads[t := x.(pc := Release)]))
    case Release => Some(State(Xchg(s.lock, 0).1, s.sum, s.threads[t := Thread(x.i + 1, Acquire)]))
  }

  function Steps(n: int): (State, nat) -> Option<State> { (s: State, t: nat) => Next(n, s, t) }

  predicate Inside(x: Thread) { x.pc != Acquire }

  /** Increments a thread has stored. */
  function Stored(x: Thread): int { x.i + (if x.pc == Release then 1 else 0) }

  ghost predicate Inv(n: int, s: State) {
    && (s.lock == 0 || s.lock == 1)
    && Count(Inside, s.threads) == s.lock
    && s.sum == Total(Stored, s.threads)
    && forall t :: 0 <= t < |s.threads| ==>
         && (s.threads[t].pc.Store? ==> s.threads[t].pc.value == s.sum)
         && s.threads[t].i <= (if n > 0 then n else 0)
         && (Inside(s.threads[t]) ==> s.threads[t].i < n)
  }

  lemma StepKeepsInv(n: int, s: State, t: nat)
    requires Inv(n, s) && Next(n, s, t).Some?
    ensures Inv(n, Next(n, s, t).value)
  {
    var s' := Next(n, s, t).value;
    CountUpdate(Inside, s.threads, t, s'.threads[t]);
    TotalUpdate(Stored, s.threads, t, s'.threads[t]);
    CountNone(Inside, s.threads);
    forall u | 0 <= u < |s.threads| && Inside(s.threads[t]) && Inside(s.threads[u]) ensures u == t {
      CountOne(Inside, s.threads, t, u);
    }
  }

  lemma RunKeepsInv(n: int, T: nat, s: State)
    requires Leads(Steps(n), Init(T), s)
    ensures Inv(n, s) && |s.threads| == T
  {
    var sched :| Run(Steps(n), Init(T), sched) == Some(s);
    CountNone(Inside, Init(T).threads);
    TotalOfEqual(Stored, Init(T).threads, 0);
    var inv: State -> bool := m => Inv(n, m) && |m.threads| == T;
    forall m, t | inv(m) && Steps(n)(m, t).Some? ensures inv(Steps(n)(m, t).value) {
      StepKeepsInv(n, m, t);
    }
    Invariant(Steps(n), inv, Init(T), sched);
  }

  /** At most one thread is between `spin_lock` and `spin_unlock`, and one is exactly when the lock word is 1. */
  lemma MutualExclusion(n: int, T: nat, s: State)
    requires Leads(Steps(n), Init(T), s)
    ensures forall t, u ::
              0 <= t < |s.threads| && 0 <= u < |s.threads| && Inside(s.threads[t]) && Inside(s.threads[u]) ==> t == u
    ensures s.lock == if (exists t :: 0 <= t < |s.threads| && Inside(s.threads[t])) then 1 else 0
  {
    RunKeepsInv(n, T, s);
    CountNone(Inside, s.threads);
    forall t, u | 0 <= t < |s.threads| && 0 <= u < |s.threads| && Inside(s.threads[t]) && Inside(s.threads[u])
      ensures t == u
    {
      CountOne(Inside, s.threads, t, u);
    }
  }

  /** The spinning threads never starve the whole system: unless all have returned, one of them can get on. */
  lemma SomeThreadGetsOn(n: int, T: nat, s: State) returns (t: nat)
    requires Leads(Steps(n), Init(T), s) && !AllReturned(n, s)
    ensures t < |s.threads| && Next(n, s, t).Some? && Next(n, s, t).value.threads[t] != s.threads[t]
  {
    RunKeepsInv(n, T, s);
    CountNone(Inside, s.threads);
    if s.lock == 1 {
      t :| 0 <= t < |s.threads| && Inside(s.threads[t]);
    } else {
      t :| 0 <= t < |s.threads| && !(s.threads[t].pc == Acquire && s.threads[t].i >= n);
    }
  }

  predicate AllReturned(n: int, s: State) {
    forall t :: 0 <= t < |s.threads| ==> s.threads[t].pc == Acquire && s.threads[t].i >= n
  }

  /** No increment is lost: once all threads have returned, `sum` is the number of iterations of all of them. */
  lemma NoIncrementLost(n: int, T: nat, s: State)
    requires Leads(Steps(n), Init(T), s) && AllReturned(n, s)
    ensures s.sum == T * (if n > 0 then n else 0)
  {
    RunKeepsInv(n, T, s);
    TotalOfEqual(Stored, s.threads, if n > 0 then n else 0);
  }

  function Position(pc: Pc): int {
    match pc
    case Acquire => 0
    case Load => 1
    case Store(_) => 2
    case Release => 3
  }

  function StepsLeft(n: int): Thread -> int {
    (x: Thread) => if x.i >= n then 0 else 4 * (n - x.i) - Position(x.pc)
  }

  /** Whatever has happened, all threads can still return. */
  lemma {:induction false} CanFinish(n: int, T: nat, s: State) returns (s': State)
    requires Leads(Steps(n), Init(T), s)
    ensures Leads(Steps(n), s, s') && AllReturned(n, s')
    decreases Total(StepsLeft(n), s.threads)
  {
    hide Leads, Total;
    LeadsRefl(Steps(n), s);
    if AllReturned(n, s) {
      s' := s;
    } else {
      var t := SomeThreadGetsOn(n, T, s);
      var m := Next(n, s, t).value;
      RunKeepsInv(n, T, s);
      LeadsStep(Steps(n), Init(T), s, t, m);
      LeadsStep(Steps(n), s, s, t, m);
      TotalUpdate(StepsLeft(n), s.threads, t, m.threads[t]);
      TotalNonNegative(StepsLeft(n), m.threads);
      s' := CanFinish(n, T, m);
      LeadsTrans(Steps(n), s, m, s');
    }
  }

  // ---------- main ----------

  const N: int := 10000000

  /** Integer division as C does it. */
  function TruncDiv(a: int, b: int): int
    requires b != 0
  {
    if a >= 0 then (if b > 0 then a / b else -(a / -b)) else (if b > 0 then -(-a / b) else -a / -b)
  }

  /** As many threads as `create` asserts to be enough (mutual_exclusion/thread.h). */
  const NTHREAD: int := 64

  /** `main` gets through the assertions of `create` and through its own. */
  predicate MainSucceeds(nthread: int, sum: int)
    requires nthread != 0
  {
    nthread <= NTHREAD && sum == TruncDiv(N, nthread) * nthread
  }

  /** `main` starts a thread for each i < nthread, so none for a negative argument, and its final assertion then holds
      only by accident: all assertions hold exactly when the argument is from 1 to NTHREAD or below -N. */
  lemma MainAssertion(nthread: int, s: State)
    requires nthread != 0
    requires Leads(Steps(TruncDiv(N, nthread)), Init(if nthread > 0 then nthread else 0), s)
    requires AllReturned(TruncDiv(N, nthread), s)
    ensures MainSucceeds(nthread, s.sum) <==> 1 <= nthread <= NTHREAD || nthread < -N
  {
    var T := if nthread > 0 then nthread else 0;
    var n := TruncDiv(N, nthread);
    NoIncrementLost(n, T, s);
    if nthread > 0 {
      assert n >= 0;
      assert T * n == n * nthread;
    } else if nthread < -N {
      assert N / -nthread == 0;
    } else {
      assert n <= -1;
      assert n * nthread >= 1;
    }
  }
}
