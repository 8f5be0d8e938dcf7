/** The dining philosophers of philosopher-bad.c, for any number N of them. Philosopher `id` is thread `id - 1` here. */
module Philosophers {
  import opened Prelude
  import opened Counting
  import opened Runs

  /** The next call in the loop of a philosopher. */
  datatype Pc = PLeft | PrintLeft | PRight | PrintRight | VLeft | VRight

  datatype State = State(locks: seq<nat>, threads: seq<Pc>)

  function Init(N: nat): State { State(seq(N, _ => 1), seq(N, _ => PLeft)) }

  /** `lhs` and `rhs` of thread `t`. */
  function Left(N: nat, t: nat): nat
    requires t < N
  {
    (N + (t + 1) - 1) % N
  }

  function Right(N: nat, t: nat): nat
    requires t < N
  {
    (t + 1) % N
  }

  function P(s: State, k: nat, t: nat, pc: Pc): Option<State>
    requires t < |s.threads|
  {
    if k < |s.locks| && s.locks[k] > 0 then Some(State(s.locks[k := s.locks[k] - 1], s.threads[t := pc])) else None
  }

  function V(s: State, k: nat, t: nat, pc: Pc): Option<State>
    requires t < |s.threads|
  {
    if k < |s.locks| then Some(State(s.locks[k := s.locks[k] + 1], s.threads[t := pc])) else None
  }

  function Next(s: State, t: nat): Option<State> {
    var N := |s.threads|;
    if t >= N then None else
    match s.threads[t]
    case PLeft => P(s, Left(N, t), t, PrintLeft)
    case PrintLeft => Some(s.(threads := s.threads[t := PRight]))
    case PRight => P(s, Right(N, t), t, PrintRight)
    case PrintRight => Some(s.(threads := s.threads[t := VLeft]))
    case VLeft => V(s, Left(N, t), t, VRight)
    case VRight => V(s, Right(N, t), t, PLeft)
  }

  // ---------- Forks ----------

  predicate HoldsLeft(pc: Pc) { pc.PrintLeft? || pc.PRight? || pc.PrintRight? || pc.VLeft? }

  predicate HoldsRight(pc: Pc) { pc.PrintRight? || pc.VLeft? || pc.VRight? }

  predicate InLeftHand(s: State, t: nat, k: nat) {
    t < |s.threads| && HoldsLeft(s.threads[t]) && Left(|s.threads|, t) == k
  }

  predicate InRightHand(s: State, t: nat, k: nat) {
    t < |s.threads| && HoldsRight(s.threads[t]) && Right(|s.threads|, t) == k
  }

  /** Thread `t` holds fork `k`. */
  predicate Holds(s: State, t: nat, k: nat) { InLeftHand(s, t, k) || InRightHand(s, t, k) }

  /** The thread whose right fork is `k`. */
  function LeftOf(N: nat, k: nat): nat
    requires k < N
  {
    if k == 0 then N - 1 else k - 1
  }

  lemma Sides(N: nat, t: nat)
    requires t < N
    ensures Left(N, t) == t
    ensures Right(N, t) == if t + 1 == N then 0 else t + 1
  {
    assert N + (t + 1) - 1 == t + N;
    assert (t + N) % N == t;
    if t + 1 < N {
      assert (t + 1) % N == t + 1;
    } else {
      assert (t + 1) % N == 0;
    }
  }

  function Bit(b: bool): nat { if b then 1 else 0 }

  /** Every fork is on the table, in the left hand of its philosopher, or in the right hand of the one before. */
  ghost predicate Inv(s: State) {
    && |s.locks| == |s.threads|
    && forall k :: 0 <= k < |s.locks| ==>
         s.locks[k] + Bit(HoldsLeft(s.threads[k])) + Bit(HoldsRight(s.threads[LeftOf(|s.threads|, k)])) == 1
  }

  lemma StepKeepsInv(s: State, t: nat)
    requires Inv(s) && Next(s, t).Some?
    ensures Inv(Next(s, t).value) && |Next(s, t).value.threads| == |s.threads|
  {
    Sides(|s.threads|, t);
  }

  lemma RunKeepsInv(N: nat, s: State)
    requires Leads(Next, Init(N), s)
    ensures Inv(s) && |s.threads| == N
  {
    var sched :| Run(Next, Init(N), sched) == Some(s);
    var inv: State -> bool := m => Inv(m) && |m.threads| == N;
    forall m, t | inv(m) && Next(m, t).Some? ensures inv(Next(m, t).value) {
      StepKeepsInv(m, t);
    }
    Invariant(Next, inv, Init(N), sched);
  }

  lemma Hands(s: State, t: nat, k: nat)
    requires t < |s.threads|
    ensures InLeftHand(s, t, k) <==> k == t && HoldsLeft(s.threads[k])
    ensures InRightHand(s, t, k) <==> k < |s.threads| && t == LeftOf(|s.threads|, k) && HoldsRight(s.threads[t])
  {
    Sides(|s.threads|, t);
  }

  /** No fork is ever in two hands: not of two philosophers, and not of one. */
  lemma NoForkIsHeldTwice(N: nat, s: State, t: nat, u: nat, k: nat)
    requires Leads(Next, Init(N), s)
    ensures Holds(s, t, k) && Holds(s, u, k) ==> t == u && k < |s.locks| && s.locks[k] == 0
    ensures !(InLeftHand(s, t, k) && InRightHand(s, t, k))
  {
    RunKeepsInv(N, s);
    if t < N {
      Hands(s, t, k);
    }
    if u < N {
      Hands(s, u, k);
    }
    assert Holds(s, t, k) ==> t < N;
    assert Holds(s, u, k) ==> u < N;
    hide InLeftHand, InRightHand, Leads;
  }

  // ---------- Deadlock ----------

  ghost predicate Stuck(s: State) { forall t: nat :: Next(s, t) == None }

  /** Every philosopher holds the left fork and waits for the right one. */
  predicate AllWaitRight(s: State) { forall t :: 0 <= t < |s.threads| ==> s.threads[t] == PRight }

  /** A philosopher who is neither waiting for the right fork nor kept from moving by such a one can take a step. */
  lemma CanGoOn(N: nat, s: State) returns (t: nat)
    requires Leads(Next, Init(N), s) && !AllWaitRight(s)
    ensures t < |s.threads| && s.threads[t] != PRight && Next(s, t).Some?
  {
    RunKeepsInv(N, s);
    t :| 0 <= t < N && s.threads[t] != PRight;
    Sides(N, t);
    if s.threads[t] == PLeft && s.locks[t] == 0 {
      t := LeftOf(N, t);
      Sides(N, t);
    }
  }

  /** A reachable state is stuck exactly if every philosopher holds the left fork and waits for the right one. */
  lemma StuckMeansAllWaitRight(N: nat, s: State)
    requires Leads(Next, Init(N), s)
    ensures Stuck(s) <==> AllWaitRight(s)
  {
    RunKeepsInv(N, s);
    if AllWaitRight(s) {
      forall t: nat ensures Next(s, t) == None {
        if t < N {
          Sides(N, t);
          assert s.threads[Right(N, t)] == PRight;
        }
      }
    } else {
      var t := CanGoOn(N, s);
    }
  }

  /** How many steps a thread is away from waiting for its right fork, if it does not eat again. */
  function Away(pc: Pc): int {
    match pc
    case PRight => 0
    case PrintLeft => 1
    case PLeft => 2
    case VRight => 3
    case VLeft => 4
    case PrintRight => 5
  }

  /** Whatever has happened, the deadlock can still come. */
  lemma {:induction false} DeadlockIsAlwaysAhead(N: nat, s: State) returns (s': State)
    requires Leads(Next, Init(N), s)
    ensures Leads(Next, s, s') && AllWaitRight(s') && Stuck(s')
    decreases Total(Away, s.threads)
  {
    if AllWaitRight(s) {
      s' := s;
      LeadsRefl<State, nat>(Next, s);
      StuckMeansAllWaitRight(N, s);
    } else {
      var t := CanGoOn(N, s);
      var m := Next(s, t).value;
      LeadsStep(Next, Init(N), s, t, m);
      TotalUpdate(Away, s.threads, t, m.threads[t]);
      TotalNonNegative(Away, m.threads);
      s' := DeadlockIsAlwaysAhead(N, m);
      LeadsRefl<State, nat>(Next, s);
      LeadsStep(Next, s, s, t, m);
      LeadsTrans<State, nat>(Next, s, m, s');
    }
  }
}
