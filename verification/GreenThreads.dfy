/** The round-robin scheduler of the green-thread runtime. The context switch itself is not modelled: after a successful
    yield the thread at `current` is the one that runs. */
module GreenThreads {
  import opened Prelude

  datatype Status = Available | Running | Ready

  datatype Thread = Thread(id: nat, state: Status)

  /** The fields of a runtime as a value. */
  datatype Rt = Rt(threads: seq<Thread>, current: nat) {
    predicate Valid() { current < |threads| }
  }

  function SetState(ts: seq<Thread>, i: nat, st: Status): seq<Thread>
    requires i < |ts|
  {
    ts[i := ts[i].(state := st)]
  }

  /** The index `d` places after `c` in a ring of `n`. */
  function Around(n: nat, c: nat, d: nat): nat
    requires c < n && d < n
  {
    if c + d < n then c + d else c + d - n
  }

  /** How far the first Ready thread at distance `d` or more is from the current one. */
  function FirstReady(rt: Rt, d: nat): (r: Option<nat>)
    requires rt.Valid() && d <= |rt.threads|
    ensures r.Some? ==>
              d <= r.value < |rt.threads| && rt.threads[Around(|rt.threads|, rt.current, r.value)].state == Ready
    ensures forall e :: d <= e < |rt.threads| && rt.threads[Around(|rt.threads|, rt.current, e)].state == Ready ==>
              r.Some? && r.value <= e
    decreases |rt.threads| - d
  {
    if d == |rt.threads| then None
    else if rt.threads[Around(|rt.threads|, rt.current, d)].state == Ready then Some(d)
    else FirstReady(rt, d + 1)
  }

  /** The runtime after a yield; None if it fails. */
  function AfterYield(rt: Rt): Option<Rt>
    requires rt.Valid()
  {
    match FirstReady(rt, 0)
    case None => None
    case Some(d) =>
      var pos := Around(|rt.threads|, rt.current, d);
      var ts := if rt.threads[rt.current].state == Available then rt.threads
                else SetState(rt.threads, rt.current, Ready);
      Some(Rt(SetState(ts, pos, Running), pos))
  }

  /** The first Available thread from index `i` on. */
  function FirstAvailable(ts: seq<Thread>, i: nat): (r: Option<nat>)
    requires i <= |ts|
    ensures r.Some? ==> i <= r.value < |ts| && ts[r.value].state == Available
    ensures forall j :: i <= j < |ts| && ts[j].state == Available ==> r.Some? && r.value <= j
    decreases |ts| - i
  {
    if i == |ts| then None
    else if ts[i].state == Available then Some(i)
    else FirstAvailable(ts, i + 1)
  }

  /** The runtime after a spawn; None if the source panics. */
  function AfterSpawn(rt: Rt): Option<Rt> {
    match FirstAvailable(rt.threads, 0)
    case None => None
    case Some(i) => Some(rt.(threads := SetState(rt.threads, i, Ready)))
  }

  const MAX_THREADS: nat := 4

  function Initial(): Rt {
    Rt(seq(MAX_THREADS, (i: nat) => Thread(i, if i == 0 then Running else Available)), 0)
  }

  class Runtime {
    var threads: array<Thread>
    var current: nat

    ghost predicate Valid()
      reads this
    {
      current < threads.Length
    }

    function Value(): Rt
      reads this, threads
    {
      Rt(threads[..], current)
    }

    constructor ()
      ensures Valid() && fresh(threads) && Value() == Initial()
      ensures threads.Length == 4 && current == 0 && threads[0] == Thread(0, Running)
      ensures forall i :: 1 <= i < 4 ==> threads[i] == Thread(i, Available)
    {
      threads := new Thread[MAX_THREADS](i => Thread(i, if i == 0 then Running else Available));
      current := 0;
      new;
      assert threads[..] == Initial().threads;
    }

    /** Looks for a Ready thread from the current one on, once around. */
    method Yield() returns (switched: bool)
      requires Valid()
      modifies this`current, threads
      ensures Valid() && switched == AfterYield(old(Value())).Some?
      ensures Value() == if switched then AfterYield(old(Value())).value else old(Value())
    {
      var pos := current;
      ghost var d := 0;
      while threads[pos].state != Ready
        invariant d < threads.Length && pos == Around(threads.Length, current, d)
        invariant FirstReady(Value(), 0) == FirstReady(Value(), d)
        invariant Value() == old(Value())
        decreases threads.Length - d
      {
        pos := pos + 1;
        if pos == threads.Length {
          pos := 0;
        }
        if pos == current {
          assert d + 1 == threads.Length;
          return false;
        }
        d := d + 1;
      }
      if threads[current].state != Available {
        threads[current] := threads[current].(state := Ready);
      }
      threads[pos] := threads[pos].(state := Running);
      current := pos;
      return threads.Length > 0;
    }

    /** Makes the first Available thread Ready; without one the source panics, which is the result false. */
    method Spawn() returns (ok: bool)
      requires Valid()
      modifies threads
      ensures Valid() && ok == AfterSpawn(old(Value())).Some?
      ensures Value() == if ok then AfterSpawn(old(Value())).value else old(Value())
    {
      var i := 0;
      while i < threads.Length && threads[i].state != Available
        invariant i <= threads.Length
        invariant FirstAvailable(threads[..], 0) == FirstAvailable(threads[..], i)
      {
        i := i + 1;
      }
      if i == threads.Length {
        return false;
      }
      threads[i] := threads[i].(state := Ready);
      return true;
    }
  }

  // ---------- What a call does ----------

  /** Exactly one thread is running, the current one. */
  ghost predicate OneRunning(rt: Rt) {
    rt.Valid() && forall i :: 0 <= i < |rt.threads| ==> (rt.threads[i].state == Running <==> i == rt.current)
  }

  /** How far thread `i` is behind the current one, going around. */
  function Distance(rt: Rt, i: nat): nat
    requires rt.Valid() && i < |rt.threads|
  {
    if i >= rt.current then i - rt.current else i + |rt.threads| - rt.current
  }

  /** A yield fails exactly if no thread is Ready. Otherwise the thread that runs next was Ready, no Ready thread was
      nearer, the old one is Ready now, and nothing else changes. */
  lemma YieldPicksFirstReady(rt: Rt)
    requires OneRunning(rt)
    ensures AfterYield(rt) == None <==> forall i :: 0 <= i < |rt.threads| ==> rt.threads[i].state != Ready
    ensures AfterYield(rt).Some? ==>
      var rt' := AfterYield(rt).value;
      && OneRunning(rt') && |rt'.threads| == |rt.threads| && rt'.current != rt.current
      && rt.threads[rt'.current].state == Ready && rt'.threads[rt.current].state == Ready
      && (forall i :: 0 <= i < |rt.threads| && rt.threads[i].state == Ready ==>
            Distance(rt, rt'.current) <= Distance(rt, i))
      && forall i :: 0 <= i < |rt.threads| && i != rt.current && i != rt'.current ==> rt'.threads[i] == rt.threads[i]
  {
    forall i | 0 <= i < |rt.threads| && rt.threads[i].state == Ready
      ensures FirstReady(rt, 0).Some? && FirstReady(rt, 0).value <= Distance(rt, i)
    {
      assert Around(|rt.threads|, rt.current, Distance(rt, i)) == i;
    }
  }

  /** A spawn panics exactly if no thread is Available; otherwise the first such thread becomes Ready. */
  lemma SpawnTakesFirstAvailable(rt: Rt)
    ensures AfterSpawn(rt) == None <==> forall i :: 0 <= i < |rt.threads| ==> rt.threads[i].state != Available
    ensures AfterSpawn(rt).Some? ==>
      exists i :: 0 <= i < |rt.threads| && rt.threads[i].state == Available
                  && (forall k :: 0 <= k < i ==> rt.threads[k].state != Available)
                  && AfterSpawn(rt).value == rt.(threads := rt.threads[i := Thread(rt.threads[i].id, Ready)])
  {
    assert forall i :: 0 <= i < |rt.threads| && rt.threads[i].state == Available ==>
             FirstAvailable(rt.threads, 0).Some?;
  }

  // ---------- Runs ----------

  datatype Event = Spawn | Yield

  /** A failed yield changes nothing; a panic ends the run. */
  function Step(rt: Rt, e: Event): Option<Rt>
    requires rt.Valid()
  {
    match e
    case Spawn => AfterSpawn(rt)
    case Yield => Some(if AfterYield(rt).Some? then AfterYield(rt).value else rt)
  }

  lemma StepKeepsOneRunning(rt: Rt, e: Event)
    requires OneRunning(rt)
    ensures Step(rt, e).Some? ==> OneRunning(Step(rt, e).value) && |Step(rt, e).value.threads| == |rt.threads|
  {
    YieldPicksFirstReady(rt);
  }

  /** Exactly one thread runs, the current one, after every run of spawns and yields. */
  function Run(rt: Rt, es: seq<Event>): (r: Option<Rt>)
    requires OneRunning(rt)
    ensures r.Some? ==> OneRunning(r.value) && |r.value.threads| == |rt.threads|
    decreases |es|
  {
    if es == [] then Some(rt) else
    StepKeepsOneRunning(rt, es[0]);
    match Step(rt, es[0])
    case None => None
    case Some(m) => Run(m, es[1..])
  }

  /** The yields in the run that switch to another thread. */
  function Switches(rt: Rt, es: seq<Event>): nat
    requires OneRunning(rt) && Run(rt, es).Some?
    decreases |es|
  {
    if es == [] then 0 else
    StepKeepsOneRunning(rt, es[0]);
    (if es[0] == Yield && AfterYield(rt).Some? then 1 else 0) + Switches(Step(rt, es[0]).value, es[1..])
  }

  lemma InitialRuns()
    ensures OneRunning(Initial())
  {
  }

  function Spawns(es: seq<Event>): nat {
    if es == [] then 0 else (if es[0] == Spawn then 1 else 0) + Spawns(es[1..])
  }

  /** Thread 0 and those numbered up to `k` are in use, and the others can be spawned. */
  ghost predicate InUse(rt: Rt, k: nat) {
    && |rt.threads| == 4 && k <= 3
    && forall i :: 0 <= i < 4 ==> rt.threads[i].id == i && (rt.threads[i].state == Available <==> i > k)
  }

  lemma StepInUse(rt: Rt, e: Event, k: nat)
    requires OneRunning(rt) && InUse(rt, k)
    ensures Step(rt, e).None? <==> e == Spawn && k == 3
    ensures Step(rt, e).Some? ==> InUse(Step(rt, e).value, if e == Spawn then k + 1 else k)
  {
    if e == Yield {
      YieldPicksFirstReady(rt);
    } else {
      SpawnTakesFirstAvailable(rt);
      assert k < 3 ==> rt.threads[k + 1].state == Available;
    }
  }

  lemma {:induction false} RunInUse(rt: Rt, es: seq<Event>, k: nat)
    requires OneRunning(rt) && InUse(rt, k)
    ensures Run(rt, es).Some? <==> k + Spawns(es) <= 3
    ensures Run(rt, es).Some? ==> InUse(Run(rt, es).value, k + Spawns(es))
    decreases |es|
  {
    if es != [] {
      StepKeepsOneRunning(rt, es[0]);
      StepInUse(rt, es[0], k);
      if Step(rt, es[0]).Some? {
        RunInUse(Step(rt, es[0]).value, es[1..], if es[0] == Spawn then k + 1 else k);
      }
    }
  }

  /** From the start, with any yields in between, exactly the first three spawns succeed: they put threads 1, 2 and 3 to
      use, in this order, and one more panics. Threads in use are Ready, but for the one that runs. */
  lemma ThreeSpawnsFromTheStart(es: seq<Event>)
    ensures OneRunning(Initial())
    ensures Run(Initial(), es).Some? <==> Spawns(es) <= 3
    ensures Run(Initial(), es).Some? ==>
      var rt := Run(Initial(), es).value;
      |rt.threads| == 4 && forall i :: 0 <= i < 4 ==>
        && rt.threads[i].id == i
        && rt.threads[i].state ==
             if i > Spawns(es) then Available else if i == rt.current then Running else Ready
  {
    InitialRuns();
    RunInUse(Initial(), es, 0);
  }

  /** At the start nobody is Ready, so a yield fails, and `run` ends before anything was spawned. */
  lemma NothingToYieldTo()
    ensures Initial().current == 0 && AfterYield(Initial()) == None
  {
  }

  /** A step leaves a Ready thread Ready, unless it switches to it; every switch brings it nearer. */
  lemma ReadyComesNearer(rt: Rt, e: Event, i: nat)
    requires OneRunning(rt) && i < |rt.threads| && rt.threads[i].state == Ready && Step(rt, e).Some?
    ensures var rt' := Step(rt, e).value;
            && |rt'.threads| == |rt.threads| && OneRunning(rt')
            && (e == Yield ==> AfterYield(rt).Some?)
            && if rt'.threads[i].state == Running then e == Yield else
                 rt'.threads[i].state == Ready && Distance(rt', i) <= Distance(rt, i) - if e == Yield then 1 else 0
  {
    StepKeepsOneRunning(rt, e);
    YieldPicksFirstReady(rt);
  }

  /** Bounded waiting: a Ready thread that is d places behind the current one, so at most the number of threads less
      one, gets to run within the next d switches, whatever is spawned meanwhile. */
  lemma {:induction false} WaitsAtMostItsDistance(rt: Rt, i: nat, es: seq<Event>) returns (j: nat)
    requires OneRunning(rt) && i < |rt.threads| && rt.threads[i].state == Ready
    requires Run(rt, es).Some? && Switches(rt, es) >= Distance(rt, i)
    ensures Distance(rt, i) <= |rt.threads| - 1
    ensures j <= |es| && Run(rt, es[..j]).Some? && Run(rt, es[..j]).value.threads[i].state == Running
    ensures Switches(rt, es[..j]) <= Distance(rt, i)
    decreases |es|
  {
    hide Step, AfterYield, FirstReady;
    AheadOfCurrent(rt, i);
    ReadyComesNearer(rt, es[0], i);
    var m := Step(rt, es[0]).value;
    if m.threads[i].state == Running {
      j := 1;
      OneEvent(rt, es);
    } else {
      var k := WaitsAtMostItsDistance(m, i, es[1..]);
      j := k + 1;
      PrefixOfRest(es, k);
    }
  }

  lemma AheadOfCurrent(rt: Rt, i: nat)
    requires OneRunning(rt) && i < |rt.threads| && rt.threads[i].state == Ready
    ensures 1 <= Distance(rt, i) <= |rt.threads| - 1
  {
  }

  lemma OneEvent(rt: Rt, es: seq<Event>)
    requires OneRunning(rt) && es != [] && Step(rt, es[0]).Some?
    ensures Run(rt, es[..1]) == Step(rt, es[0])
    ensures Switches(rt, es[..1]) == if es[0] == Yield && AfterYield(rt).Some? then 1 else 0
  {
    hide Step, AfterYield;
    StepKeepsOneRunning(rt, es[0]);
    var m := Step(rt, es[0]).value;
    assert es[..1][1..] == [];
    assert Run(m, []) == Some(m) && Switches(m, []) == 0;
  }

  lemma PrefixOfRest(es: seq<Event>, k: nat)
    requires k < |es|
    ensures es[..k + 1][1..] == es[1..][..k]
  {
  }
}
