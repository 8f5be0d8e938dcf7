/** The circular buffer of pc.cpp between any number of producers and consumers, around one mutex and one condition
    variable, for a buffer of any size. */
module RingBuffer {
  import opened Prelude
  import opened Runs
  import opened Monitor

  /** A producer writes its own number again and again. */
  datatype Role = Producer(prod: int) | Consumer

  /** The globals, with the history `made` of the values written and `out` of those printed. */
  datatype Globals = Globals(buffer: seq<int>, head: nat, rear: nat, made: seq<int>, out: seq<int>)

  /** Both indices are in the buffer, which has at least one slot. */
  type Data = d: Globals | d.head < |d.buffer| && d.rear < |d.buffer| witness Globals([0], 0, 0, [], [])

  /** The statements behind the waiting loop: write or print a slot, then advance `rear` or `head`. */
  datatype Stmt = UseSlot | MoveIndex

  type Sys = State<Data, Role, Stmt>

  predicate Ready(d: Data, role: Role) {
    if role.Producer? then (d.rear + 1) % |d.buffer| != d.head else d.head != d.rear
  }

  function First(role: Role): Stmt { UseSlot }

  function Execute(d: Data, role: Role, at: Stmt): Outcome<Data, Stmt> {
    match (at, role)
    case (UseSlot, Producer(v)) => Goes(d.(buffer := d.buffer[d.rear := v], made := d.made + [v]), MoveIndex)
    case (UseSlot, Consumer) => Goes(d.(out := d.out + [d.buffer[d.head]]), MoveIndex)
    case (MoveIndex, Producer(_)) => Ends(d.(rear := (d.rear + 1) % |d.buffer|))
    case (MoveIndex, Consumer) => Ends(d.(head := (d.head + 1) % |d.buffer|))
  }

  function Program(): Code<Data, Role, Stmt> { Code(Ready, First, Execute) }

  function Init(N: nat, roles: seq<Role>): Sys
    requires N >= 1
  {
    Start(Globals(seq(N, _ => 0), 0, 0, [], []), roles)
  }

  /** Some run of the threads leads to `s`. */
  ghost predicate Reaches(N: nat, roles: seq<Role>, s: Sys)
    requires N >= 1
  {
    Leads(Steps(Program()), Init(N, roles), s)
  }

  // ---------- The slots in use ----------

  function After(N: nat, i: nat): nat
    requires i < N
  {
    if i + 1 == N then 0 else i + 1
  }

  lemma AfterIsMod(N: nat, i: nat)
    requires i < N
    ensures (i + 1) % N == After(N, i)
  {
    if i + 1 < N {
      assert (i + 1) % N == i + 1;
    } else {
      assert (i + 1) % N == 0;
    }
  }

  /** How many slots there are from `lo` up to `hi`, around the end of the buffer. */
  function Distance(N: nat, lo: nat, hi: nat): nat
    requires lo < N && hi < N
  {
    if hi >= lo then hi - lo else hi + N - lo
  }

  function SlotAt(N: nat, lo: nat, i: nat): nat
    requires lo < N && i < N
  {
    if lo + i < N then lo + i else lo + i - N
  }

  function Slots(b: seq<int>, lo: nat, hi: nat): (r: seq<int>)
    requires lo < |b| && hi < |b|
    ensures |r| < |b|
  {
    seq(Distance(|b|, lo, hi), i requires 0 <= i < Distance(|b|, lo, hi) => b[SlotAt(|b|, lo, i)])
  }

  lemma Push(b: seq<int>, lo: nat, hi: nat, v: int)
    requires lo < |b| && hi < |b| && After(|b|, hi) != lo
    ensures Slots(b[hi := v], lo, After(|b|, hi)) == Slots(b, lo, hi) + [v]
  {
  }

  lemma Pop(b: seq<int>, lo: nat, hi: nat)
    requires lo < |b| && hi < |b| && lo != hi
    ensures Slots(b, lo, hi) == [b[lo]] + Slots(b, After(|b|, lo), hi)
  {
    var r := [b[lo]] + Slots(b, After(|b|, lo), hi);
    assert |r| == |Slots(b, lo, hi)|;
    forall i | 0 <= i < |r| ensures r[i] == Slots(b, lo, hi)[i] {
      if i > 0 {
        assert SlotAt(|b|, lo, i) == SlotAt(|b|, After(|b|, lo), i - 1);
      }
    }
  }

  // ---------- The buffer in place ----------

  /** The globals of pc.cpp, and what a thread does to them while it holds the mutex and need not wait. */
  class Buffer {
    const buffer: array<int>
    var head: nat
    var rear: nat

    ghost predicate Valid()
      reads this
    {
      head < buffer.Length && rear < buffer.Length
    }

    ghost function Contents(): seq<int>
      reads this, buffer
      requires Valid()
    {
      Slots(buffer[..], head, rear)
    }

    constructor (N: nat)
      requires N >= 1
      ensures Valid() && fresh(buffer) && buffer.Length == N && Contents() == []
    {
      buffer := new int[N](_ => 0);
      head, rear := 0, 0;
    }

    method Put(prod: int)
      requires Valid() && (rear + 1) % buffer.Length != head
      modifies this`rear, buffer
      ensures Valid() && Contents() == old(Contents()) + [prod]
    {
      AfterIsMod(buffer.Length, rear);
      Push(buffer[..], head, rear, prod);
      ghost var b := buffer[..];
      buffer[rear] := prod;
      assert buffer[..] == b[rear := prod];
      rear := (rear + 1) % buffer.Length;
    }

    method Get() returns (x: int)
      requires Valid() && head != rear
      modifies this`head
      ensures Valid() && [x] + Contents() == old(Contents())
    {
      AfterIsMod(buffer.Length, head);
      Pop(buffer[..], head, rear);
      x := buffer[head];
      head := (head + 1) % buffer.Length;
    }
  }

  // ---------- The queue ----------

  /** The thread inside has used its slot and has not advanced its index yet. */
  predicate Between(s: Sys, producer: bool) {
    && s.holder.Some? && s.holder.value < |s.threads|
    && s.threads[s.holder.value].pc == Inside(MoveIndex) && s.threads[s.holder.value].role.Producer? == producer
  }

  function Lo(s: Sys): nat { if Between(s, false) then After(|s.data.buffer|, s.data.head) else s.data.head }

  function Hi(s: Sys): nat { if Between(s, true) then After(|s.data.buffer|, s.data.rear) else s.data.rear }

  /** The queue that the buffer stands for: the values written and not printed yet. */
  function Queue(s: Sys): seq<int> { Slots(s.data.buffer, Lo(s), Hi(s)) }

  // ---------- The invariant ----------

  lemma ProgramIsSteady()
    ensures Steady(Program())
  {
  }

  /** Nobody aborts: there is no assertion. */
  ghost predicate NoneAborted(s: Sys) { forall t :: 0 <= t < |s.threads| ==> !s.threads[t].pc.Aborted? }

  lemma KeepsNoneAborted(s: Sys, e: Event, s': Sys)
    requires NoneAborted(s) && Next(Program(), s, e) == Some(s')
    ensures NoneAborted(s')
  {
  }

  /** Every step refines a step of a queue of capacity N - 1: a producer's write appends its number when the queue is
      not full, a consumer's print takes the first value of a queue that is not empty, and nothing else touches the
      queue. */
  lemma StepRefinesQueue(s: Sys, e: Event, s': Sys)
    requires Locking(Program(), s) && Next(Program(), s, e) == Some(s')
    ensures |s'.data.buffer| == |s.data.buffer|
    ensures var x, d, d' := s.threads[e.t], s.data, s'.data;
            if e.Spurious? || x.pc != Inside(UseSlot) then
              Queue(s') == Queue(s) && d'.made == d.made && d'.out == d.out
            else if x.role.Producer? then
              && |Queue(s)| < |d.buffer| - 1 && Queue(s') == Queue(s) + [x.role.prod]
              && d'.made == d.made + [x.role.prod] && d'.out == d.out
            else
              && |Queue(s)| > 0 && Queue(s') == Queue(s)[1..]
              && d'.made == d.made && d'.out == d.out + [Queue(s)[0]]
  {
    hide Slots;
    var x, d := s.threads[e.t], s.data;
    if e.Spurious? || x.pc != Inside(UseSlot) {
      IndexStepsKeepQueue(s, e, s');
    } else if x.role.Producer? {
      AfterIsMod(|d.buffer|, d.rear);
      Push(d.buffer, d.head, d.rear, x.role.prod);
    } else {
      Pop(d.buffer, d.head, d.rear);
    }
  }

  lemma IndexStepsKeepQueue(s: Sys, e: Event, s': Sys)
    requires Locking(Program(), s) && Next(Program(), s, e) == Some(s')
    requires e.Spurious? || s.threads[e.t].pc != Inside(UseSlot)
    ensures Lo(s') == Lo(s) && Hi(s') == Hi(s)
    ensures s'.data.buffer == s.data.buffer && s'.data.made == s.data.made && s'.data.out == s.data.out
  {
    if e.Step? && s.threads[e.t].pc.Inside? {
      AfterIsMod(|s.data.buffer|, s.data.rear);
      AfterIsMod(|s.data.buffer|, s.data.head);
    } else {
      hide Ready, After;
    }
  }

  ghost predicate Inv(s: Sys) {
    && Locking(Program(), s) && Sleeping(Program(), s) && NoneAborted(s)
    && s.data.made == s.data.out + Queue(s)
  }

  lemma StepKeepsInv(s: Sys, e: Event, s': Sys)
    requires Inv(s) && Next(Program(), s, e) == Some(s')
    ensures Inv(s')
  {
    hide Locking, Sleeping, NoneAborted, Queue, Next;
    ProgramIsSteady();
    KeepsLocking(Program(), s, e, s');
    KeepsSleeping(Program(), s, e, s');
    KeepsNoneAborted(s, e, s');
    StepRefinesQueue(s, e, s');
  }

  /** The threads and the buffer are those of the beginning, and there are threads and room for what has happened. */
  ghost predicate From(N: nat, roles: seq<Role>, s: Sys) {
    && Inv(s) && |s.data.buffer| == N && |s.threads| == |roles|
    && (forall t :: 0 <= t < |roles| ==> s.threads[t].role == roles[t])
    && PossibleWith(N, roles, s.data.made, s.data.out)
  }

  /** The values written are numbers of producers, a consumer has printed if anything has, and one slot is none. */
  ghost predicate PossibleWith(N: nat, roles: seq<Role>, made: seq<int>, out: seq<int>) {
    && (forall v :: v in made ==> Producer(v) in roles)
    && (out != [] ==> Consumer in roles)
    && (made != [] ==> N >= 2)
  }

  lemma StepKeepsFrom(N: nat, roles: seq<Role>, s: Sys, e: Event, s': Sys)
    requires From(N, roles, s) && Next(Program(), s, e) == Some(s')
    ensures From(N, roles, s')
  {
    hide Locking, Sleeping, NoneAborted, Queue, Next;
    StepKeepsInv(s, e, s');
    Frame(Program(), s, e, s');
    StepRefinesQueue(s, e, s');
  }

  lemma RunKeepsInv(N: nat, roles: seq<Role>, s: Sys)
    requires N >= 1 && Reaches(N, roles, s)
    ensures From(N, roles, s)
  {
    var sched :| Run(Steps(Program()), Init(N, roles), sched) == Some(s);
    var inv := (m: Sys) => From(N, roles, m);
    assert inv(Init(N, roles));
    hide From, Next;
    forall m, e | inv(m) && Steps(Program())(m, e).Some? ensures inv(Steps(Program())(m, e).value) {
      StepKeepsFrom(N, roles, m, e, Next(Program(), m, e).value);
    }
    Invariant(Steps(Program()), inv, Init(N, roles), sched);
  }

  // ---------- Safety ----------

  /** What was written is what was printed followed by what is in the buffer, at most N - 1 values. */
  lemma FirstInFirstOut(N: nat, roles: seq<Role>, s: Sys)
    requires N >= 1 && Reaches(N, roles, s)
    ensures s.data.made == s.data.out + Queue(s) && |Queue(s)| <= N - 1
  {
    RunKeepsInv(N, roles, s);
  }

  /** A producer about to write never writes over a value that is still to be printed. */
  lemma NoUnreadSlotIsOverwritten(N: nat, roles: seq<Role>, s: Sys, t: nat)
    requires N >= 1 && Reaches(N, roles, s)
    requires t < |s.threads| && s.threads[t].pc == Inside(UseSlot) && s.threads[t].role.Producer?
    ensures |s.data.buffer| == N && forall i :: 0 <= i < |Queue(s)| ==> SlotAt(N, Lo(s), i) != s.data.rear
  {
    RunKeepsInv(N, roles, s);
    AfterIsMod(N, s.data.rear);
  }

  /** No wake-up is lost: unless a thread is between using its slot and notifying, a producer asleep means a full buffer
      and a consumer asleep an empty one. */
  lemma NoLostWakeup(N: nat, roles: seq<Role>, s: Sys, t: nat)
    requires N >= 1 && Reaches(N, roles, s) && t < |s.threads| && s.threads[t].pc.Asleep?
    requires forall u :: 0 <= u < |s.threads| ==> s.threads[u].pc != Inside(MoveIndex) && !s.threads[u].pc.AtBroadcast?
    ensures |Queue(s)| == if s.threads[t].role.Producer? then N - 1 else 0
  {
    RunKeepsInv(N, roles, s);
    AfterIsMod(N, s.data.rear);
  }

  // ---------- Every history of a bounded queue is one of some run ----------

  /** A thread that need not wait goes once through its loop. */
  lemma Loop(s0: Sys, m: Sys, t: nat) returns (s: Sys)
    requires Leads(Steps(Program()), s0, m) && Resting(m) && t < |m.threads| && Ready(m.data, m.threads[t].role)
    ensures Leads(Steps(Program()), s0, s) && Resting(s)
    ensures m.threads[t].role.Producer? ==>
              s.data.made == m.data.made + [m.threads[t].role.prod] && s.data.out == m.data.out
    ensures m.threads[t].role.Consumer? ==>
              s.data.made == m.data.made && s.data.out == m.data.out + [m.data.buffer[m.data.head]]
  {
    hide Leads;
    var r := Enter(Program(), s0, m, t);
    r := RunNext(Program(), s0, r, t);
    r := RunNext(Program(), s0, r, t);
    s := Leave(Program(), s0, m, r, t);
  }

  /** At rest, a queue that is not full takes one more value, and one that is not empty gives its first. */
  lemma OneMore(N: nat, roles: seq<Role>, m: Sys, role: Role) returns (s: Sys)
    requires N >= 1 && Reaches(N, roles, m) && Resting(m) && role in roles
    requires var size := |m.data.made| - |m.data.out|; if role.Producer? then size < N - 1 else size > 0
    ensures Reaches(N, roles, s) && Resting(s)
    ensures role.Producer? ==> s.data.made == m.data.made + [role.prod] && s.data.out == m.data.out
    ensures role.Consumer? ==>
              && s.data.made == m.data.made && |m.data.out| < |m.data.made|
              && s.data.out == m.data.out + [m.data.made[|m.data.out|]]
  {
    hide Leads;
    RunKeepsInv(N, roles, m);
    var t :| 0 <= t < |roles| && roles[t] == role;
    AfterIsMod(N, m.data.rear);
    if role == Consumer {
      Pop(m.data.buffer, m.data.head, m.data.rear);
    }
    s := Loop(Init(N, roles), m, t);
  }

  lemma {:induction false} Attains(N: nat, roles: seq<Role>, made: seq<int>, k: nat) returns (s: Sys)
    requires N >= 1 && k <= |made| < k + N && PossibleWith(N, roles, made, made[..k])
    ensures Reaches(N, roles, s) && Resting(s) && s.data.made == made && s.data.out == made[..k]
    decreases |made| + k
  {
    if made == [] {
      s := Init(N, roles);
      LeadsRefl(Steps(Program()), s);
    } else if |made| > k {
      var w, v := made[..|made| - 1], made[|made| - 1];
      assert made == w + [v] && made[..k] == w[..k];
      var m := Attains(N, roles, w, k);
      s := OneMore(N, roles, m, Producer(v));
    } else {
      var m := Attains(N, roles, made, k - 1);
      assert made[..k] == made[..k - 1] + [made[k - 1]];
      s := OneMore(N, roles, m, Consumer);
    }
  }

  /** Whatever the threads, the possible histories are exactly those of a queue of capacity N - 1 into which the
      producers put their numbers in any order, as far as there are threads for them. */
  lemma HistoriesAreThoseOfAQueue(N: nat, roles: seq<Role>, made: seq<int>, out: seq<int>)
    requires N >= 1
    ensures (exists s: Sys :: Reaches(N, roles, s) && s.data.made == made && s.data.out == out) <==>
            out <= made && |made| - |out| <= N - 1 && PossibleWith(N, roles, made, out)
  {
    if s: Sys :| Reaches(N, roles, s) && s.data.made == made && s.data.out == out {
      RunKeepsInv(N, roles, s);
    }
    if out <= made && |made| - |out| <= N - 1 && PossibleWith(N, roles, made, out) {
      var s := Attains(N, roles, made, |out|);
    }
  }

  // ---------- Deadlock ----------

  predicate Live(N: nat, roles: seq<Role>) { N >= 2 && Consumer in roles && exists r :: r in roles && r.Producer? }

  lemma NotFullAndEmpty(d: Data, v: int)
    requires |d.buffer| >= 2
    ensures Ready(d, Producer(v)) || Ready(d, Consumer)
  {
    AfterIsMod(|d.buffer|, d.rear);
  }

  lemma SomeThreadMoves(N: nat, roles: seq<Role>, s: Sys)
    requires Live(N, roles) && Reaches(N, roles, s)
    ensures CanMove(Program(), s)
  {
    RunKeepsInv(N, roles, s);
    var p :| 0 <= p < |roles| && roles[p].Producer?;
    var c :| 0 <= c < |roles| && roles[c] == Consumer;
    NotFullAndEmpty(s.data, roles[p].prod);
    hide Ready, Queue, PossibleWith, CanMove;
    if !CanMove(Program(), s) {
      StuckMeansAsleep(Program(), s, p);
      StuckMeansAsleep(Program(), s, c);
      assert false;
    }
  }

  lemma ReadyByQueue(s: Sys, role: Role)
    requires Resting(s)
    ensures Ready(s.data, role) <==> if role.Producer? then |Queue(s)| < |s.data.buffer| - 1 else |Queue(s)| > 0
  {
    AfterIsMod(|s.data.buffer|, s.data.rear);
  }

  /** A run after which nobody is ready: with a single slot the buffer is full and empty at once; producers alone fill
      it, and consumers alone find it empty. */
  lemma RunOut(N: nat, roles: seq<Role>) returns (m: Sys)
    requires N >= 1 && !Live(N, roles)
    ensures Reaches(N, roles, m) && Resting(m) && NobodyReady(Program(), m)
  {
    if N >= 2 && Consumer !in roles && roles != [] {
      assert roles[0] in roles && roles[0].Producer?;
      var made := seq(N - 1, _ => roles[0].prod);
      m := Attains(N, roles, made, 0);
      RunKeepsInv(N, roles, m);
      forall t | 0 <= t < |m.threads| ensures !Ready(m.data, m.threads[t].role) {
        ReadyByQueue(m, m.threads[t].role);
      }
    } else {
      m := Init(N, roles);
      LeadsRefl(Steps(Program()), m);
      AfterIsMod(N, 0);
    }
  }

  /** The system can never get stuck, even if no thread wakes up by chance, exactly if there are a producer, a consumer
      and two slots. */
  lemma NoDeadlock(N: nat, roles: seq<Role>)
    requires N >= 1
    ensures (forall s: Sys :: Reaches(N, roles, s) ==> CanMove(Program(), s)) <==> Live(N, roles)
  {
    if Live(N, roles) {
      forall s: Sys | Reaches(N, roles, s) ensures CanMove(Program(), s) {
        SomeThreadMoves(N, roles, s);
      }
    } else {
      var m := RunOut(N, roles);
      var s := GetsStuck(Program(), Init(N, roles), m);
      assert Reaches(N, roles, s);
    }
  }
}
