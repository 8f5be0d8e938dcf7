/** The unlocked counter of sum.cpp: every thread does `sum++` N times as a load and a later store. */
module RacyCounter {
  import opened Prelude
  import opened Runs

  /** `i` is the loop counter; `reg` is the loaded value, between the load and the store. */
  datatype Thread = Thread(i: nat, reg: Option<int>)

  datatype State = State(sum: int, threads: seq<Thread>)

  function Init(T: nat): State { State(0, seq(T, _ => Thread(0, None))) }

  /** Thread `t` takes its next memory access: load `sum`, or store what it loaded plus one. */
  function Next(N: nat, s: State, t: nat): Option<State> {
    if t >= |s.threads| then None else
    match s.threads[t]
    case Thread(i, None) => if i < N then Some(State(s.sum, s.threads[t := Thread(i, Some(s.sum))])) else None
    case Thread(i, Some(v)) => Some(State(v + 1, s.threads[t := Thread(i + 1, None)]))
  }

  function Steps(N: nat): (State, nat) -> Option<State> { (s: State, t: nat) => Next(N, s, t) }

  predicate Complete(N: nat, s: State) {
    forall t :: 0 <= t < |s.threads| ==> s.threads[t] == Thread(N, None)
  }

  /** Completed iterations, over all threads. */
  function Done(ts: seq<Thread>): nat {
    if ts == [] then 0 else ts[0].i + Done(ts[1..])
  }

  lemma {:induction false} DoneUpdate(ts: seq<Thread>, t: nat, x: Thread)
    requires t < |ts|
    ensures Done(ts[t := x]) == Done(ts) - ts[t].i + x.i
    decreases |ts|
  {
    if t == 0 {
      assert ts[t := x][1..] == ts[1..];
    } else {
      assert ts[t := x][1..] == ts[1..][t - 1 := x];
      DoneUpdate(ts[1..], t - 1, x);
    }
  }

  /** No thread does more than N iterations, and they all do N only if the total is as large as it can be. */
  lemma {:induction false} DoneBound(N: nat, ts: seq<Thread>)
    requires forall t :: 0 <= t < |ts| ==> ts[t].i <= N
    ensures Done(ts) <= |ts| * N
    ensures Done(ts) == |ts| * N <==> forall t :: 0 <= t < |ts| ==> ts[t].i == N
    decreases |ts|
  {
    if ts != [] {
      DoneBound(N, ts[1..]);
      assert |ts| * N == N + |ts[1..]| * N;
      assert forall t :: 1 <= t < |ts| ==> ts[t] == ts[1..][t - 1];
      assert forall t :: 0 <= t < |ts[1..]| ==> ts[1..][t] == ts[t + 1];
    }
  }

  // ---------- Bounds over all interleavings ----------

  /** No value is larger than the number of stores so far, and none is zero once its thread has stored. */
  ghost predicate Inv(N: nat, s: State) {
    && 0 <= s.sum <= Done(s.threads)
    && forall t :: 0 <= t < |s.threads| ==>
         var x := s.threads[t];
         && x.i <= N && (x.reg.Some? ==> x.i < N && 0 <= x.reg.value <= Done(s.threads))
         && (x.i >= 1 ==> s.sum >= 1 && (x.reg.Some? ==> x.reg.value >= 1))
  }

  lemma StepKeepsInv(N: nat, s: State, t: nat)
    requires Inv(N, s) && Next(N, s, t).Some?
    ensures Inv(N, Next(N, s, t).value)
  {
    DoneUpdate(s.threads, t, Next(N, s, t).value.threads[t]);
  }

  lemma {:induction false} DoneInit(n: nat)
    ensures Done(seq(n, _ => Thread(0, None))) == 0
    decreases n
  {
    if n > 0 {
      DoneInit(n - 1);
      assert seq<Thread>(n, _ => Thread(0, None))[1..] == seq<Thread>(n - 1, _ => Thread(0, None));
    }
  }

  lemma {:induction false} RunKeepsInv(N: nat, T: nat, sched: seq<nat>)
    requires Run(Steps(N), Init(T), sched).Some?
    ensures Inv(N, Run(Steps(N), Init(T), sched).value) && |Run(Steps(N), Init(T), sched).value.threads| == T
    decreases |sched|
  {
    if sched == [] {
      DoneInit(T);
      assert Init(T).threads == seq<Thread>(T, _ => Thread(0, None));
    } else {
      var front := sched[..|sched| - 1];
      RunKeepsInv(N, T, front);
      StepKeepsInv(N, Run(Steps(N), Init(T), front).value, sched[|sched| - 1]);
    }
  }

  /** The least final value: a thread alone loses nothing; of single iterations all but one can be lost; and otherwise
      all but two, the last one of some thread and one that came before it. */
  function Least(N: nat, T: nat): nat {
    if T == 0 || N == 0 then 0 else if T == 1 then N else if N == 1 then 1 else 2
  }

  /** However the threads interleave, at least so many and at most T * N increments survive. */
  lemma SumIsBounded(N: nat, T: nat, s: State)
    requires Leads(Steps(N), Init(T), s) && Complete(N, s)
    ensures Least(N, T) <= s.sum <= T * N
  {
    var sched :| Run(Steps(N), Init(T), sched) == Some(s);
    RunKeepsInv(N, T, sched);
    DoneBound(N, s.threads);
    if T == 1 {
      AloneLosesNothing(N, sched);
      assert s.threads[0] == Thread(N, None);
    } else if T > 1 && N > 0 {
      assert s.threads[0] == Thread(N, None);
      assert sched != [] by {
        assert Init(T).threads[0] == Thread(0, None);
      }
      // the last access is a store by a thread in its last iteration, which loaded after its own earlier store, if any
      var front, t := sched[..|sched| - 1], sched[|sched| - 1];
      RunKeepsInv(N, T, front);
      assert s.threads[t] == Thread(N, None);
    }
  }

  lemma {:induction false} AloneLosesNothing(N: nat, sched: seq<nat>)
    requires Run(Steps(N), Init(1), sched).Some?
    ensures var s := Run(Steps(N), Init(1), sched).value;
            |s.threads| == 1 && s.sum == s.threads[0].i && (s.threads[0].reg.Some? ==> s.threads[0].reg.value == s.sum)
    decreases |sched|
  {
    if sched != [] {
      AloneLosesNothing(N, sched[..|sched| - 1]);
    }
  }

  // ---------- Every value in between is attained ----------

  lemma OneStep(N: nat, s: State, t: nat)
    requires Next(N, s, t).Some?
    ensures Leads(Steps(N), s, Next(N, s, t).value)
  {
    LeadsRefl(Steps(N), s);
    LeadsStep(Steps(N), s, s, t, Next(N, s, t).value);
  }

  predicate Idle(N: nat, s: State, t: nat) { t < |s.threads| && s.threads[t].reg == None && s.threads[t].i <= N }

  /** Thread `t` does `k` iterations with nobody in between, and loses no increment. */
  lemma {:induction false} Alone(N: nat, s: State, t: nat, k: nat)
    requires Idle(N, s, t) && s.threads[t].i + k <= N
    ensures Leads(Steps(N), s, State(s.sum + k, s.threads[t := Thread(s.threads[t].i + k, None)]))
    decreases k
  {
    if k == 0 {
      assert s.threads[t := Thread(s.threads[t].i, None)] == s.threads;
      LeadsRefl(Steps(N), s);
    } else {
      var m := Next(N, s, t).value;
      var m' := Next(N, m, t).value;
      OneStep(N, s, t);
      OneStep(N, m, t);
      LeadsTrans(Steps(N), s, m, m');
      Alone(N, m', t, k - 1);
      var s' := State(s.sum + k, s.threads[t := Thread(s.threads[t].i + k, None)]);
      assert s'.threads == m'.threads[t := Thread(m'.threads[t].i + (k - 1), None)];
      LeadsTrans(Steps(N), s, m', s');
    }
  }

  /** All threads but thread 0 are between iterations, and thread 1 has one left at least. */
  predicate OthersIdle(N: nat, s: State) {
    && |s.threads| >= 2 && s.threads[1].i < N
    && forall t :: 1 <= t < |s.threads| ==> s.threads[t].reg == None && s.threads[t].i <= N
  }

  /** What threads 1, 2, ... have done so far. */
  function OthersDone(s: State): nat { if s.threads == [] then 0 else Done(s.threads[1..]) }

  /** The other threads do `m` iterations between them, keeping one of thread 1 for later. */
  lemma {:induction false} OthersRun(N: nat, s: State, m: nat) returns (s': State)
    requires OthersIdle(N, s) && OthersDone(s) + m + 1 <= (|s.threads| - 1) * N
    ensures Leads(Steps(N), s, s') && OthersIdle(N, s') && |s'.threads| == |s.threads| && s'.threads[0] == s.threads[0]
    ensures s'.sum == s.sum + m && OthersDone(s') == OthersDone(s) + m
    decreases m
  {
    if m == 0 {
      s' := s;
      LeadsRefl(Steps(N), s);
    } else {
      var t := PickOther(N, s, m);
      var x := Thread(s.threads[t].i + 1, None);
      var s1 := State(s.sum + 1, s.threads[t := x]);
      Alone(N, s, t, 1);
      OthersDoneMore(s, t, x);
      s' := OthersRun(N, s1, m - 1);
      LeadsTrans(Steps(N), s, s1, s');
    }
  }

  lemma OthersDoneMore(s: State, t: nat, x: Thread)
    requires 1 <= t < |s.threads|
    ensures OthersDone(State(s.sum + 1, s.threads[t := x])) == OthersDone(s) - s.threads[t].i + x.i
  {
    DoneUpdate(s.threads[1..], t - 1, x);
    assert s.threads[t := x][1..] == s.threads[1..][t - 1 := x];
  }

  lemma PickOther(N: nat, s: State, m: nat) returns (t: nat)
    requires OthersIdle(N, s) && m >= 1 && OthersDone(s) + m + 1 <= (|s.threads| - 1) * N
    ensures 1 <= t < |s.threads| && s.threads[t].i < N && (t == 1 ==> s.threads[1].i + 1 < N)
  {
    if j :| 2 <= j < |s.threads| && s.threads[j].i < N {
      t := j;
    } else {
      t := 1;
      var rest := s.threads[1..];
      assert rest[0] == s.threads[1] && rest[1..] == s.threads[2..];
      DoneBound(N, s.threads[2..]);
      assert Done(rest) == s.threads[1].i + |s.threads[2..]| * N;
      assert (|s.threads| - 1) * N == N + |s.threads[2..]| * N;
    }
  }

  /** Thread 0 loads 0, the others do k iterations, and thread 0 stores 1 over them. */
  lemma ThreadZeroWindow(N: nat, T: nat, k: nat) returns (s: State)
    requires N >= 2 && T >= 2 && k + 1 <= (T - 1) * N
    ensures Leads(Steps(N), Init(T), s) && OthersIdle(N, s) && |s.threads| == T && OthersDone(s) == k
    ensures s.sum == 1 && s.threads[0] == Thread(1, None)
  {
    var s0 := Init(T);
    DoneInit(T - 1);
    assert s0.threads[1..] == seq<Thread>(T - 1, _ => Thread(0, None));
    var s1 := Next(N, s0, 0).value;
    OneStep(N, s0, 0);
    assert s1.threads[1..] == s0.threads[1..];
    var s2 := OthersRun(N, s1, k);
    LeadsTrans(Steps(N), s0, s1, s2);
    s := Next(N, s2, 0).value;
    OneStep(N, s2, 0);
    LeadsTrans(Steps(N), s0, s2, s);
    assert s.threads[1..] == s2.threads[1..];
  }

  /** With one iteration of thread 1 left, it loads, thread 0 does k iterations, thread 1 stores over them, and thread 0
      finishes. */
  lemma ThreadOneWindow(N: nat, s: State, k: nat) returns (s': State)
    requires N >= 2 && |s.threads| >= 2 && k <= N - 1
    requires s.threads[0] == Thread(1, None) && s.threads[1] == Thread(N - 1, None)
    requires forall t :: 2 <= t < |s.threads| ==> s.threads[t] == Thread(N, None)
    ensures Leads(Steps(N), s, s') && Complete(N, s') && s'.sum == s.sum + N - k
  {
    hide Leads;
    var s5 := Next(N, s, 1).value;
    OneStep(N, s, 1);
    Alone(N, s5, 0, k);
    var s6 := State(s5.sum + k, s5.threads[0 := Thread(1 + k, None)]);
    LeadsTrans(Steps(N), s, s5, s6);
    var s7 := Next(N, s6, 1).value;
    OneStep(N, s6, 1);
    LeadsTrans(Steps(N), s, s6, s7);
    Alone(N, s7, 0, N - 1 - k);
    s' := State(s7.sum + (N - 1 - k), s7.threads[0 := Thread(N, None)]);
    LeadsTrans(Steps(N), s, s7, s');
  }

  /** A run that loses exactly `w` increments, for any `w` up to T * N - 2: thread 0 holds an old value while the others
      do some of their iterations, and thread 1 then holds one while thread 0 does some of its own. */
  lemma LoseExactly(N: nat, T: nat, w: nat) returns (s: State)
    requires N >= 2 && T >= 2 && w + 2 <= T * N
    ensures Leads(Steps(N), Init(T), s) && Complete(N, s) && s.sum == T * N - w
  {
    var all := (T - 1) * N;
    assert T * N == all + N;
    assert all >= 2 by {
      assert all == (T - 2) * N + N;
    }
    var k := if w <= all - 1 then w else all - 1;
    var s3 := ThreadZeroWindow(N, T, k);
    var s4 := OthersRun(N, s3, all - 1 - k);
    LeadsTrans(Steps(N), Init(T), s3, s4);
    OnlyOneLeft(N, s4);
    s := ThreadOneWindow(N, s4, w - k);
    LeadsTrans(Steps(N), Init(T), s4, s);
  }

  lemma OnlyOneLeft(N: nat, s: State)
    requires OthersIdle(N, s) && OthersDone(s) + 1 == (|s.threads| - 1) * N
    ensures s.threads[1].i == N - 1
    ensures forall t :: 2 <= t < |s.threads| ==> s.threads[t] == Thread(N, None)
  {
    var rest := s.threads[1..];
    assert rest[0] == s.threads[1] && rest[1..] == s.threads[2..];
    DoneBound(N, s.threads[2..]);
    assert (|s.threads| - 1) * N == N + |s.threads[2..]| * N;
    assert forall t :: 2 <= t < |s.threads| ==> s.threads[t] == s.threads[2..][t - 2];
  }

  /** With one iteration each, w of the others go between the load and the store of thread 0. */
  lemma LoseSingles(T: nat, w: nat) returns (s: State)
    requires T >= 2 && w < T
    ensures Leads(Steps(1), Init(T), s) && Complete(1, s) && s.sum == T - w
  {
    var s1 := Next(1, Init(T), 0).value;
    OneStep(1, Init(T), 0);
    var s2 := Singles(s1, 1, w + 1);
    LeadsTrans(Steps(1), Init(T), s1, s2);
    var s3 := Next(1, s2, 0).value;
    OneStep(1, s2, 0);
    LeadsTrans(Steps(1), Init(T), s2, s3);
    s := Singles(s3, w + 1, T);
    LeadsTrans(Steps(1), Init(T), s3, s);
  }

  /** Threads first, ..., end - 1 do their one iteration, one after the other. */
  lemma {:induction false} Singles(s: State, first: nat, end: nat) returns (s': State)
    requires 1 <= first <= end <= |s.threads| && forall t :: first <= t < end ==> s.threads[t] == Thread(0, None)
    ensures Leads(Steps(1), s, s') && s'.sum == s.sum + (end - first) && |s'.threads| == |s.threads|
    ensures forall t :: 0 <= t < |s.threads| ==>
              s'.threads[t] == (if first <= t < end then Thread(1, None) else s.threads[t])
    decreases end - first
  {
    if first == end {
      s' := s;
      LeadsRefl(Steps(1), s);
    } else {
      Alone(1, s, first, 1);
      var m := State(s.sum + 1, s.threads[first := Thread(1, None)]);
      s' := Singles(m, first + 1, end);
      LeadsTrans(Steps(1), s, m, s');
    }
  }

  lemma AttainedByOneThread(N: nat) returns (s: State)
    ensures Leads(Steps(N), Init(1), s) && Complete(N, s) && s.sum == N
  {
    Alone(N, Init(1), 0, N);
    s := State(N, Init(1).threads[0 := Thread(N, None)]);
  }

  /** The possible final values are exactly those from the least one to T * N. */
  lemma FinalSums(N: nat, T: nat, v: int)
    ensures (exists s :: Leads(Steps(N), Init(T), s) && Complete(N, s) && s.sum == v) <==> Least(N, T) <= v <= T * N
  {
    if s :| Leads(Steps(N), Init(T), s) && Complete(N, s) && s.sum == v {
      SumIsBounded(N, T, s);
    }
    if Least(N, T) <= v <= T * N {
      var s: State;
      if T == 0 || N == 0 {
        s := Init(T);
        LeadsRefl(Steps(N), s);
        assert Complete(N, s);
      } else if T == 1 {
        s := AttainedByOneThread(N);
      } else if N == 1 {
        s := LoseSingles(T, T - v);
      } else {
        s := LoseExactly(N, T, T * N - v);
      }
    }
  }
}
