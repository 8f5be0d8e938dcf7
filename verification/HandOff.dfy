/** The semaphore of sem.py, which hands its token to the first waiter, under threads that each enter the critical
    section once; for any number of tokens and any distinct thread ids. */
module HandOff {
  import opened Prelude
  import opened Counting
  import opened Runs

  /** The two fields of the semaphore as a value; `waits` lists the waiting ids, one character each. */
  datatype Sem = Sem(token: int, waits: string)

  function AfterP(s: Sem, tid: char): Sem {
    if s.token > 0 then s.(token := s.token - 1) else s.(waits := s.waits + [tid])
  }

  function AfterV(s: Sem): Sem { if s.waits != "" then s.(waits := s.waits[1..]) else s.(token := s.token + 1) }

  class Semaphore {
    var token: int
    var waits: string

    constructor (k: int)
      ensures Value() == Sem(k, "")
    {
      token, waits := k, "";
    }

    function Value(): Sem
      reads this
    {
      Sem(token, waits)
    }

    method P(tid: char) returns (entered: bool)
      modifies this
      ensures Value() == AfterP(old(Value()), tid)
      ensures entered <==> waits == old(waits)
    {
      if token > 0 {
        token := token - 1;
        return true;
      } else {
        waits := waits + [tid];
        return false;
      }
    }

    method V()
      modifies this
      ensures Value() == AfterV(old(Value()))
    {
      if waits != "" {
        waits := waits[1..];
      } else {
        token := token + 1;
      }
    }
  }

  /** The next statement of a thread: P, the spinning loop, cs = True, del cs, V. */
  datatype Pc = AtP | Spin | Enter | Leave | AtV | Done

  datatype Thread = Thread(id: char, pc: Pc)

  datatype State = State(sem: Sem, threads: seq<Thread>)

  function Init(k: int, ids: string): State {
    State(Sem(k, ""), seq(|ids|, i requires 0 <= i < |ids| => Thread(ids[i], AtP)))
  }

  function Next(s: State, t: nat): Option<State> {
    if t >= |s.threads| then None else
    var x := s.threads[t];
    match x.pc
    case AtP => Some(State(AfterP(s.sem, x.id), s.threads[t := x.(pc := Spin)]))
    case Spin => Some(if x.id in s.sem.waits then s else s.(threads := s.threads[t := x.(pc := Enter)]))
    case Enter => Some(s.(threads := s.threads[t := x.(pc := Leave)]))
    case Leave => Some(s.(threads := s.threads[t := x.(pc := AtV)]))
    case AtV => Some(State(AfterV(s.sem), s.threads[t := x.(pc := Done)]))
    case Done => None
  }

  ghost predicate Distinct(ids: string) { forall i, j :: 0 <= i < j < |ids| ==> ids[i] != ids[j] }

  // ---------- Tokens ----------

  predicate PastP(x: Thread) { !x.pc.AtP? && !x.pc.Done? }

  predicate InCs(x: Thread) { x.pc.Leave? }

  /** The thread has got through P, at once or handed on by a V, and has not given up its token. */
  predicate Holder(waits: string, x: Thread) { PastP(x) && x.id !in waits }

  function HolderIn(waits: string): Thread -> bool { x => Holder(waits, x) }

  ghost predicate Waiting(s: State) {
    && Distinct(s.sem.waits)
    && (forall i :: 0 <= i < |s.sem.waits| ==> Thread(s.sem.waits[i], Spin) in s.threads)
    && forall t :: 0 <= t < |s.threads| && s.threads[t].pc != Spin ==> s.threads[t].id !in s.sem.waits
  }

  ghost predicate DistinctIds(s: State) {
    forall t, u :: 0 <= t < |s.threads| && 0 <= u < |s.threads| && s.threads[t].id == s.threads[u].id ==> t == u
  }

  ghost predicate Inv(k: nat, s: State) {
    && DistinctIds(s) && Waiting(s)
    && s.sem.token >= 0 && (s.sem.token > 0 ==> s.sem.waits == "")
    && s.sem.token + Count(PastP, s.threads) - |s.sem.waits| == k
  }

  lemma KeepsWaiting(s: State, t: nat, s': State)
    requires DistinctIds(s) && Waiting(s) && Next(s, t) == Some(s')
    ensures Waiting(s')
  {
    var x := s.threads[t];
    assert s'.threads[t] in s'.threads;
    forall i | 0 <= i < |s'.sem.waits| ensures Thread(s'.sem.waits[i], Spin) in s'.threads {
      if s'.sem.waits[i] != x.id {
        assert s'.sem.waits[i] in s.sem.waits;
        var u :| 0 <= u < |s.threads| && s.threads[u] == Thread(s'.sem.waits[i], Spin);
        assert s'.threads[u] == s.threads[u];
      }
    }
  }

  lemma StepKeepsInv(k: nat, s: State, t: nat, s': State)
    requires Inv(k, s) && Next(s, t) == Some(s')
    ensures Inv(k, s')
  {
    KeepsWaiting(s, t, s');
    CountUpdate(PastP, s.threads, t, s'.threads[t]);
  }

  lemma RunKeepsInv(k: nat, ids: string, s: State)
    requires Distinct(ids) && Leads(Next, Init(k, ids), s)
    ensures Inv(k, s) && |s.threads| == |ids|
    ensures forall t :: 0 <= t < |ids| ==> s.threads[t].id == ids[t]
  {
    var sched :| Run(Next, Init(k, ids), sched) == Some(s);
    CountNone(PastP, Init(k, ids).threads);
    var inv := (m: State) =>
      Inv(k, m) && |m.threads| == |ids| && forall t :: 0 <= t < |ids| ==> m.threads[t].id == ids[t];
    forall m, t | inv(m) && Next(m, t).Some? ensures inv(Next(m, t).value) {
      StepKeepsInv(k, m, t, Next(m, t).value);
    }
    Invariant(Next, inv, Init(k, ids), sched);
  }

  /** The waiting ids are as many threads past their P. */
  lemma {:induction false} CountHolders(waits: string, ts: seq<Thread>)
    requires Distinct(waits)
    requires forall t, u :: 0 <= t < |ts| && 0 <= u < |ts| && ts[t].id == ts[u].id ==> t == u
    requires forall i :: 0 <= i < |waits| ==> Thread(waits[i], Spin) in ts
    ensures Count(HolderIn(waits), ts) == Count(PastP, ts) - |waits|
    decreases |waits|
  {
    if waits == "" {
      CountAgree(HolderIn(waits), PastP, ts);
    } else {
      var front, w := waits[..|waits| - 1], waits[|waits| - 1];
      CountHolders(front, ts);
      var t :| 0 <= t < |ts| && ts[t] == Thread(w, Spin);
      assert forall c :: c in waits <==> c in front || c == w;
      CountLess(HolderIn(waits), HolderIn(front), ts, t);
    }
  }

  /** Tokens are conserved: those in the semaphore and those of the threads let through are always k, and nobody waits
      while the semaphore has one. */
  lemma TokensAreConserved(k: nat, ids: string, s: State)
    requires Distinct(ids) && Leads(Next, Init(k, ids), s)
    ensures s.sem.token >= 0 && s.sem.token + Count(HolderIn(s.sem.waits), s.threads) == k
    ensures s.sem.token > 0 ==> s.sem.waits == ""
    ensures Distinct(s.sem.waits)
  {
    RunKeepsInv(k, ids, s);
    CountHolders(s.sem.waits, s.threads);
  }

  /** At most k threads are in the critical section. */
  lemma AtMostKInside(k: nat, ids: string, s: State)
    requires Distinct(ids) && Leads(Next, Init(k, ids), s)
    ensures Count(InCs, s.threads) <= k
  {
    RunKeepsInv(k, ids, s);
    TokensAreConserved(k, ids, s);
    CountImplied(InCs, HolderIn(s.sem.waits), s.threads);
  }

  /** With the one token of the source this is mutual exclusion. */
  lemma MutualExclusion(ids: string, s: State, t: nat, u: nat)
    requires Distinct(ids) && Leads(Next, Init(1, ids), s)
    requires t < |s.threads| && u < |s.threads| && InCs(s.threads[t]) && InCs(s.threads[u])
    ensures t == u
  {
    AtMostKInside(1, ids, s);
    CountOne(InCs, s.threads, t, u);
  }

  // ---------- First come, first served ----------

  /** How many V calls are in the run. */
  function Vs(s: State, sched: seq<nat>): nat
    decreases |sched|
  {
    if sched == [] then 0 else
    var front, t := sched[..|sched| - 1], sched[|sched| - 1];
    match Run(Next, s, front)
    case None => 0
    case Some(m) => Vs(s, front) + (if t < |m.threads| && m.threads[t].pc == AtV then 1 else 0)
  }

  /** `id` is at position `d` of the queue, or let through if d is negative. */
  predicate Place(s: State, id: char, d: int) {
    if d >= 0 then d < |s.sem.waits| && s.sem.waits[d] == id else id !in s.sem.waits
  }

  lemma StepMovesUp(k: nat, m: State, t: nat, id: char, d: int)
    requires Inv(k, m) && Next(m, t).Some? && Thread(id, AtP) !in m.threads && Place(m, id, d)
    ensures Place(Next(m, t).value, id, if m.threads[t].pc == AtV then d - 1 else d)
  {
  }

  /** The waiter at position i moves up by one with every V and is let through by exactly the (i + 1)-th, whatever the
      threads do and however many come to wait after it. */
  lemma {:induction false} LetThroughInOrder(k: nat, ids: string, s: State, i: nat, sched: seq<nat>, s': State, v: nat)
    requires Distinct(ids) && Leads(Next, Init(k, ids), s) && i < |s.sem.waits|
    requires Run(Next, s, sched) == Some(s') && v == Vs(s, sched)
    ensures Place(s', s.sem.waits[i], i - v)
    decreases |sched|
  {
    assert Place(s, s.sem.waits[i], i);
    hide Place, Inv, Leads, Distinct, Next;
    if sched == [] {
      assert v == 0 && s' == s;
    } else {
      var front, t, m, w := LastStep(s, sched, s');
      hide Run, Vs;
      LetThroughInOrder(k, ids, s, i, front, m, w);
      InvAlong(k, ids, s, s.sem.waits[i], front);
      StepMovesUp(k, m, t, s.sem.waits[i], i - w);
    }
  }

  lemma LastStep(s: State, sched: seq<nat>, s': State) returns (front: seq<nat>, t: nat, m: State, w: nat)
    requires sched != [] && Run(Next, s, sched) == Some(s')
    ensures |front| < |sched| && Run(Next, s, front) == Some(m) && t < |m.threads| && Next(m, t) == Some(s')
    ensures w == Vs(s, front) && Vs(s, sched) == w + if m.threads[t].pc == AtV then 1 else 0
  {
    front, t := sched[..|sched| - 1], sched[|sched| - 1];
    m, w := Run(Next, s, front).value, Vs(s, front);
  }

  lemma InvAlong(k: nat, ids: string, s: State, id: char, sched: seq<nat>)
    requires Distinct(ids) && Leads(Next, Init(k, ids), s) && id in s.sem.waits && Run(Next, s, sched).Some?
    ensures Inv(k, Run(Next, s, sched).value) && Thread(id, AtP) !in Run(Next, s, sched).value.threads
  {
    hide Inv;
    var m := Run(Next, s, sched).value;
    NoSecondP(k, ids, s, id, sched);
    assert Leads(Next, s, m);
    LeadsTrans<State, nat>(Next, Init(k, ids), s, m);
    RunKeepsInv(k, ids, m);
  }

  /** A thread that waits has called P and does not call it again. */
  lemma {:induction false} NoSecondP(k: nat, ids: string, s: State, id: char, sched: seq<nat>)
    requires Distinct(ids) && Leads(Next, Init(k, ids), s) && id in s.sem.waits && Run(Next, s, sched).Some?
    ensures Thread(id, AtP) !in Run(Next, s, sched).value.threads
    decreases |sched|
  {
    if sched == [] {
      RunKeepsInv(k, ids, s);
    } else {
      NoSecondP(k, ids, s, id, sched[..|sched| - 1]);
    }
  }

  // ---------- Progress ----------

  predicate AllDone(s: State) { forall t :: 0 <= t < |s.threads| ==> s.threads[t].pc == Done }

  /** With a token at all, the threads never all spin: until all are done one of them can get on. */
  lemma SomeThreadGetsOn(k: nat, ids: string, s: State) returns (t: nat)
    requires Distinct(ids) && Leads(Next, Init(k, ids), s) && k >= 1 && !AllDone(s)
    ensures t < |s.threads| && Next(s, t).Some? && Next(s, t).value.threads[t] != s.threads[t]
  {
    RunKeepsInv(k, ids, s);
    TokensAreConserved(k, ids, s);
    CountNone(HolderIn(s.sem.waits), s.threads);
    if t' :| 0 <= t' < |s.threads| && Holder(s.sem.waits, s.threads[t']) {
      t := t';
    } else {
      t :| 0 <= t < |s.threads| && s.threads[t].pc != Done;
    }
  }

  function StepsLeft(x: Thread): int {
    match x.pc
    case AtP => 5
    case Spin => 4
    case Enter => 3
    case Leave => 2
    case AtV => 1
    case Done => 0
  }

  /** Whatever has happened, all threads can still finish. */
  lemma {:induction false} CanFinish(k: nat, ids: string, s: State) returns (s': State)
    requires Distinct(ids) && Leads(Next, Init(k, ids), s) && k >= 1
    ensures Leads(Next, s, s') && AllDone(s') && s'.sem == Sem(k, "")
    decreases Total(StepsLeft, s.threads)
  {
    LeadsRefl<State, nat>(Next, s);
    if AllDone(s) {
      s' := s;
      RunKeepsInv(k, ids, s);
      CountNone(PastP, s.threads);
    } else {
      var t := SomeThreadGetsOn(k, ids, s);
      var m := Next(s, t).value;
      LeadsStep(Next, Init(k, ids), s, t, m);
      LeadsStep(Next, s, s, t, m);
      TotalUpdate(StepsLeft, s.threads, t, m.threads[t]);
      TotalNonNegative(StepsLeft, m.threads);
      s' := CanFinish(k, ids, m);
      LeadsTrans<State, nat>(Next, s, m, s');
    }
  }

  /** Without a token no thread gets through, let alone done. */
  lemma {:induction false} NobodyDone(ids: string, sched: seq<nat>)
    requires Distinct(ids) && Run(Next, Init(0, ids), sched).Some?
    ensures var s := Run(Next, Init(0, ids), sched).value;
            |s.threads| == |ids| && forall t :: 0 <= t < |ids| ==> s.threads[t].pc != Done
    decreases |sched|
  {
    if sched != [] {
      var front := sched[..|sched| - 1];
      NobodyDone(ids, front);
      var m := Run(Next, Init(0, ids), front).value;
      assert Leads(Next, Init(0, ids), m);
      RunKeepsInv(0, ids, m);
      TokensAreConserved(0, ids, m);
      CountNone(HolderIn(m.sem.waits), m.threads);
    }
  }

  /** All threads can get done exactly if there is a token to begin with, or no thread. */
  lemma CompletionNeedsAToken(k: nat, ids: string)
    requires Distinct(ids)
    ensures (exists s :: Leads(Next, Init(k, ids), s) && AllDone(s)) <==> k >= 1 || ids == ""
  {
    LeadsRefl<State, nat>(Next, Init(k, ids));
    if ids == "" {
      assert AllDone(Init(k, ids));
    } else if k >= 1 {
      var s := CanFinish(k, ids, Init(k, ids));
    } else {
      forall s | Leads(Next, Init(0, ids), s) ensures !AllDone(s) {
        var sched :| Run(Next, Init(0, ids), sched) == Some(s);
        NobodyDone(ids, sched);
        assert s.threads[0].pc != Done;
      }
    }
  }
}
