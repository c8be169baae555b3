/** The scheduler and the timer (proc.c, trap.c), for any number of CPUs and processes.  Each step
    goes from one moment when ptable.lock is free to the next. */
module Sched {
  import opened Common

  const NPRIO: nat := 4
  const MAX_TIME_SLICE: nat := 4
  const BOOST_INTERVAL: nat := 100

  datatype Phase = UNUSED | EMBRYO | SLEEPING | RUNNABLE | RUNNING | ZOMBIE

  /** owes: the process is inside the timer trap and has yet to reach the yield at its end. */
  datatype Proc = Proc(state: Phase, priority: nat, slices: nat, owes: bool)

  datatype State = State(procs: seq<Proc>, cpus: seq<Option<nat>>, ticks: nat)

  function Boosted(procs: seq<Proc>): (r: seq<Proc>) {
    seq(|procs|, i requires 0 <= i < |procs| =>
      if procs[i].state == UNUSED then procs[i] else procs[i].(priority := 0, slices := 0))
  }

  predicate Candidate(procs: seq<Proc>, i: nat) {
    i < |procs| && procs[i].state == RUNNABLE && procs[i].priority < NPRIO
  }

  /** i is to be preferred to j: a smaller priority number, or the same and a lower slot. */
  predicate Before(procs: seq<Proc>, i: nat, j: nat)
    requires i < |procs| && j < |procs|
  { procs[i].priority < procs[j].priority || (procs[i].priority == procs[j].priority && i <= j) }

  /** The scheduler's choice: the best of the candidates, None if there are none. */
  ghost predicate Best(procs: seq<Proc>, r: Option<nat>) {
    && (r.None? ==> forall j {:trigger Candidate(procs, j)} :: !Candidate(procs, j))
    && (r.Some? ==> Candidate(procs, r.value) && forall j {:trigger Candidate(procs, j)} :: Candidate(procs, j) ==>
      Before(procs, r.value, j))
  }

  datatype Step =
    | Pass(c: nat, r: Option<nat>)  // one turn of a scheduler's loop, up to swtch
    | Tick(c: nat)                  // the timer interrupts the process on CPU c
    | FinalYield(c: nat)            // the yield at the end of the timer trap
    | Sleep(c: nat)
    | Exit(c: nat)
    | Wake(i: nat)                  // wakeup1 or kill
    | Alloc(i: nat)                 // allocproc
    | Ready(i: nat)                 // userinit, fork or clone
    | Unalloc(i: nat)               // fork or allocproc giving up
    | Reap(i: nat)                  // wait or join

  predicate OnCpu(s: State, c: nat) { c < |s.cpus| && s.cpus[c].Some? && s.cpus[c].value < |s.procs| }

  predicate InState(s: State, i: nat, q: Phase) { i < |s.procs| && s.procs[i].state == q }

  /** The process table and counter after the tick of a pass. */
  function Ticked(s: State): (seq<Proc>, nat) {
    if s.ticks + 1 >= BOOST_INTERVAL then (Boosted(s.procs), 0) else (s.procs, s.ticks + 1)
  }

  ghost predicate Enabled(s: State, e: Step) {
    match e
    case Pass(c, r) => c < |s.cpus| && s.cpus[c].None? && Best(Ticked(s).0, r)
    case Tick(c) => OnCpu(s, c) && !s.procs[s.cpus[c].value].owes
    case FinalYield(c) => OnCpu(s, c) && s.procs[s.cpus[c].value].owes
    case Sleep(c) => OnCpu(s, c)
    case Exit(c) => OnCpu(s, c)
    case Wake(i) => InState(s, i, SLEEPING)
    case Alloc(i) => InState(s, i, UNUSED)
    case Ready(i) => InState(s, i, EMBRYO)
    case Unalloc(i) => InState(s, i, EMBRYO)
    case Reap(i) => InState(s, i, ZOMBIE)
  }

  /** The process on CPU c becomes p and leaves the CPU. */
  function GiveUp(s: State, c: nat, p: Proc): State
    requires OnCpu(s, c)
  { s.(procs := s.procs[s.cpus[c].value := p], cpus := s.cpus[c := None]) }

  /** The timer branch of trap. */
  function AfterTick(s: State, c: nat): State
    requires OnCpu(s, c)
  {
    var p := s.procs[s.cpus[c].value];
    if p.slices + 1 >= MAX_TIME_SLICE then
      GiveUp(s, c, Proc(RUNNABLE, if p.priority < NPRIO - 1 then p.priority + 1 else p.priority, 0, true))
    else s.(procs := s.procs[s.cpus[c].value := p.(slices := p.slices + 1, owes := true)])
  }

  function Do(s: State, e: Step): State
    requires Enabled(s, e)
  {
    match e
    case Pass(c, r) =>
      var (procs, t) := Ticked(s);
      if r.None? then State(procs, s.cpus, t)
      else
        assert Candidate(procs, r.value);
        State(procs[r.value := procs[r.value].(state := RUNNING, slices := 0)], s.cpus[c := r], t)
    case Tick(c) => AfterTick(s, c)
    case FinalYield(c) => GiveUp(s, c, s.procs[s.cpus[c].value].(state := RUNNABLE, owes := false))
    case Sleep(c) => GiveUp(s, c, s.procs[s.cpus[c].value].(state := SLEEPING))
    case Exit(c) => GiveUp(s, c, s.procs[s.cpus[c].value].(state := ZOMBIE))
    case Wake(i) => s.(procs := s.procs[i := s.procs[i].(state := RUNNABLE)])
    case Alloc(i) => s.(procs := s.procs[i := Proc(EMBRYO, 0, 0, false)])
    case Ready(i) => s.(procs := s.procs[i := s.procs[i].(state := RUNNABLE)])
    case Unalloc(i) => s.(procs := s.procs[i := s.procs[i].(state := UNUSED)])
    case Reap(i) => s.(procs := s.procs[i := s.procs[i].(state := UNUSED)])
  }

  /** The table is zeroed at boot and no CPU runs a process. */
  predicate Init(s: State) {
    && s.ticks == 0 && (forall i :: 0 <= i < |s.procs| ==> s.procs[i] == Proc(UNUSED, 0, 0, false))
    && (forall c :: 0 <= c < |s.cpus| ==> s.cpus[c] == None)
  }

  /** Every step of a run was enabled and led to the next state. */
  ghost predicate Run(ss: seq<State>, es: seq<Step>) {
    && |ss| == |es| + 1 && Init(ss[0])
    && forall k :: 0 <= k < |es| ==> Enabled(ss[k], es[k]) && ss[k + 1] == Do(ss[k], es[k])
  }

  /** CPU c runs process i. */
  predicate Runs(s: State, c: nat, i: nat) { c < |s.cpus| && s.cpus[c] == Some(i) }

  /** A process is RUNNING iff exactly one CPU points to it. */
  ghost predicate OneCpuEach(s: State) {
    && (forall c, i {:trigger Runs(s, c, i)} :: Runs(s, c, i) ==> InState(s, i, RUNNING))
    && (forall c, d, i {:trigger Runs(s, c, i), Runs(s, d, i)} :: Runs(s, c, i) && Runs(s, d, i) ==> c == d)
    && (forall i {:trigger InState(s, i, RUNNING)} :: InState(s, i, RUNNING) ==> exists c :: Runs(s, c, i))
  }

  /** Nobody has used more than one slice, and nobody has left priority 0. */
  ghost predicate Flat(s: State) {
    forall i :: 0 <= i < |s.procs| ==>
      s.procs[i].priority == 0 && s.procs[i].slices <= 1
      && (s.procs[i].state == RUNNING && !s.procs[i].owes ==> s.procs[i].slices == 0)
  }

  ghost predicate Inv(s: State) { OneCpuEach(s) && Flat(s) && s.ticks < BOOST_INTERVAL }

  lemma {:induction false} StepKeepsFlat(s: State, e: Step)
    requires Inv(s) && Enabled(s, e)
    ensures Flat(Do(s, e)) && Do(s, e).ticks < BOOST_INTERVAL
  {
    if e.Tick? { assert Runs(s, e.c, s.cpus[e.c].value); }
  }

  /** A step that neither starts nor stops a process. */
  lemma {:induction false} QuietKeepsCpus(s: State, s': State)
    requires OneCpuEach(s) && s'.cpus == s.cpus && |s'.procs| == |s.procs|
    requires forall i :: 0 <= i < |s.procs| ==> (s'.procs[i].state == RUNNING <==> s.procs[i].state == RUNNING)
    ensures OneCpuEach(s')
  {
    forall c, i | Runs(s', c, i) ensures InState(s', i, RUNNING) { assert Runs(s, c, i); }
    forall c, d, i | Runs(s', c, i) && Runs(s', d, i) ensures c == d { assert Runs(s, c, i) && Runs(s, d, i); }
    forall i | InState(s', i, RUNNING) ensures exists c :: Runs(s', c, i) {
      assert InState(s, i, RUNNING);
      var c :| Runs(s, c, i);
      assert Runs(s', c, i);
    }
  }

  lemma {:induction false} StopKeepsCpus(s: State, c: nat, p: Proc)
    requires OneCpuEach(s) && OnCpu(s, c) && p.state != RUNNING
    ensures OneCpuEach(GiveUp(s, c, p))
  {
    var s', i0 := GiveUp(s, c, p), s.cpus[c].value;
    assert Runs(s, c, i0);
    forall b, i | Runs(s', b, i)
      ensures InState(s', i, RUNNING)
    {
      assert Runs(s, b, i) && b != c && InState(s, i, RUNNING);
    }
    forall b, d, i | Runs(s', b, i) && Runs(s', d, i) ensures b == d { assert Runs(s, b, i) && Runs(s, d, i); }
    forall i | InState(s', i, RUNNING) ensures exists b :: Runs(s', b, i) {
      assert InState(s, i, RUNNING);
      var b :| Runs(s, b, i);
      assert Runs(s', b, i);
    }
  }

  lemma {:induction false} StartKeepsCpus(s: State, c: nat, i0: nat, p: Proc)
    requires OneCpuEach(s) && c < |s.cpus| && s.cpus[c].None? && i0 < |s.procs| && s.procs[i0].state == RUNNABLE
      && p.state == RUNNING
    ensures OneCpuEach(s.(procs := s.procs[i0 := p], cpus := s.cpus[c := Some(i0)]))
  {
    var s' := s.(procs := s.procs[i0 := p], cpus := s.cpus[c := Some(i0)]);
    forall b, i | Runs(s', b, i)
      ensures InState(s', i, RUNNING)
    {
      if b != c { assert Runs(s, b, i) && InState(s, i, RUNNING); }
    }
    forall b, d, i | Runs(s', b, i) && Runs(s', d, i) ensures b == d {
      if b != c { assert Runs(s, b, i) && InState(s, i, RUNNING); }
      if d != c { assert Runs(s, d, i) && InState(s, i, RUNNING); }
    }
    forall i | InState(s', i, RUNNING) ensures exists b :: Runs(s', b, i) {
      if i == i0 {
        assert Runs(s', c, i);
      } else {
        assert InState(s, i, RUNNING);
        var b :| Runs(s, b, i);
        assert Runs(s', b, i);
      }
    }
  }

  lemma {:induction false} StepKeepsCpus(s: State, e: Step)
    requires OneCpuEach(s) && Enabled(s, e)
    ensures OneCpuEach(Do(s, e))
  {
    hide OneCpuEach;
    match e
    case Pass(c, r) =>
      var (procs, t) := Ticked(s);
      QuietKeepsCpus(s, State(procs, s.cpus, t));
      if r.Some? {
        assert Candidate(procs, r.value);
        StartKeepsCpus(State(procs, s.cpus, t), c, r.value, procs[r.value].(state := RUNNING, slices := 0));
      }
    case Tick(c) =>
      var p := s.procs[s.cpus[c].value];
      if p.slices + 1 >= MAX_TIME_SLICE {
        StopKeepsCpus(s, c, Proc(RUNNABLE, if p.priority < NPRIO - 1 then p.priority + 1 else p.priority, 0, true));
      } else {
        QuietKeepsCpus(s, Do(s, e));
      }
    case FinalYield(c) => StopKeepsCpus(s, c, s.procs[s.cpus[c].value].(state := RUNNABLE, owes := false));
    case Sleep(c) => StopKeepsCpus(s, c, s.procs[s.cpus[c].value].(state := SLEEPING));
    case Exit(c) => StopKeepsCpus(s, c, s.procs[s.cpus[c].value].(state := ZOMBIE));
    case _ => QuietKeepsCpus(s, Do(s, e));
  }

  lemma {:induction false} RunKeepsInv(ss: seq<State>, es: seq<Step>, k: nat)
    requires Run(ss, es) && k < |ss|
    ensures Inv(ss[k])
    decreases k
  {
    if k > 0 {
      RunKeepsInv(ss, es, k - 1);
      assert Enabled(ss[k - 1], es[k - 1]) && ss[k] == Do(ss[k - 1], es[k - 1]);
      StepKeepsCpus(ss[k - 1], es[k - 1]);
      StepKeepsFlat(ss[k - 1], es[k - 1]);
    }
  }

  /** In every run of any number of CPUs: a process is RUNNING iff exactly one CPU points to it, the
      boost counter stays below its interval, no time slice count exceeds 1 and so every priority
      is 0. */
  lemma {:induction false} SchedulerSafety(ss: seq<State>, es: seq<Step>, k: nat, i: nat)
    requires Run(ss, es) && k < |ss| && i < |ss[k].procs|
    ensures ss[k].procs[i].state == RUNNING <==> exists c :: Runs(ss[k], c, i)
    ensures forall c, d :: Runs(ss[k], c, i) && Runs(ss[k], d, i) ==> c == d
    ensures ss[k].ticks < BOOST_INTERVAL && ss[k].procs[i].slices <= 1 && ss[k].procs[i].priority == 0
  {
    RunKeepsInv(ss, es, k);
    assert InState(ss[k], i, RUNNING) <==> ss[k].procs[i].state == RUNNING;
  }

  /** No slot below j is RUNNABLE. */
  ghost predicate NoneBelow(s: State, j: nat) {
    forall i :: 0 <= i < j && i < |s.procs| ==> s.procs[i].state != RUNNABLE
  }

  /** So a dispatch takes slot j if and only if j is RUNNABLE and no lower slot is, whoever ran
      last. */
  lemma {:induction false} DispatchTakesFirstSlot(ss: seq<State>, es: seq<Step>, k: nat, j: nat)
    requires Run(ss, es) && k < |es| && es[k].Pass?
    ensures es[k].r == Some(j) <==> InState(ss[k], j, RUNNABLE) && NoneBelow(ss[k], j)
    ensures es[k].r == None <==> NoneBelow(ss[k], |ss[k].procs|)
  {
    RunKeepsInv(ss, es, k);
    var s, r := ss[k], es[k].r;
    var procs := Ticked(s).0;
    assert Best(procs, r);
    if r.Some? { assert Candidate(procs, r.value); }
    forall i | 0 <= i < |s.procs| && s.procs[i].state == RUNNABLE
      ensures r.Some? && r.value <= i
    {
      assert Candidate(procs, i);
    }
  }

  // ----- a process that never runs -----

  lemma {:induction false} RunSnoc(ss: seq<State>, es: seq<Step>, e: Step)
    requires Run(ss, es) && Enabled(ss[|es|], e)
    ensures Run(ss + [Do(ss[|es|], e)], es + [e])
  {
    var ss', es' := ss + [Do(ss[|es|], e)], es + [e];
    forall k | 0 <= k < |es'| ensures Enabled(ss'[k], es'[k]) && ss'[k + 1] == Do(ss'[k], es'[k]) {
      if k < |es| { assert ss'[k] == ss[k] && ss'[k + 1] == ss[k + 1]; }
    }
  }

  /** Two processes wait for the one CPU, the first having used some slices. */
  function Waiting(slices: nat, ticks: nat): State {
    State([Proc(RUNNABLE, 0, slices, false), Proc(RUNNABLE, 0, 0, false)], [None], ticks)
  }

  /** Both have been created; nothing has run yet. */
  lemma {:induction false} TwoReady() returns (ss: seq<State>, es: seq<Step>)
    ensures Starved(ss, es, 0) && ss[4] == Waiting(0, 0)
  {
    var z := Proc(UNUSED, 0, 0, false);
    ss, es := [State([z, z], [None], 0)], [];
    for i := 0 to 2
      invariant Run(ss, es) && |es| == 2 * i && |ss[0].cpus| == 1 && |ss[0].procs| == 2
      invariant ss[2 * i] == State(seq(2, k => if k < i then Proc(RUNNABLE, 0, 0, false) else z), [None], 0)
    {
      RunSnoc(ss, es, Alloc(i));
      ss, es := ss + [Do(ss[|es|], Alloc(i))], es + [Alloc(i)];
      RunSnoc(ss, es, Ready(i));
      ss, es := ss + [Do(ss[|es|], Ready(i))], es + [Ready(i)];
    }
  }

  /** Slot 0 is dispatched, ticked and preempted while slot 1 waits. */
  lemma {:induction false} OneTurn(slices: nat, ticks: nat) returns (a: State, b: State, t: nat)
    requires ticks < BOOST_INTERVAL
    ensures Enabled(Waiting(slices, ticks), Pass(0, Some(0))) && a == Do(Waiting(slices, ticks), Pass(0, Some(0)))
    ensures Enabled(a, Tick(0)) && b == Do(a, Tick(0)) && Enabled(b, FinalYield(0))
      && Do(b, FinalYield(0)) == Waiting(1, t)
    ensures InState(a, 1, RUNNABLE) && InState(b, 1, RUNNABLE) && t < BOOST_INTERVAL
  {
    var s := Waiting(slices, ticks);
    assert Candidate(Ticked(s).0, 0);
    a := Do(s, Pass(0, Some(0)));
    b := Do(a, Tick(0));
    t := Ticked(s).1;
  }

  /** One CPU, two processes: slot 1 is RUNNABLE in every state from the fourth on, and each of
      n dispatches takes slot 0. */
  ghost predicate Starved(ss: seq<State>, es: seq<Step>, n: nat) {
    && Run(ss, es) && |es| == 4 + 3 * n && |ss[0].cpus| == 1 && |ss[0].procs| == 2
    && (forall k {:trigger ss[k]} :: 4 <= k < |ss| ==> InState(ss[k], 1, RUNNABLE))
    && forall k {:trigger es[4 + 3 * k]} :: 0 <= k < n ==> es[4 + 3 * k] == Pass(0, Some(0))
  }

  lemma {:induction false} StarvedLonger(ss: seq<State>, es: seq<Step>, n: nat, sl: nat, t: nat)
      returns (ss': seq<State>, es': seq<Step>, t': nat)
    requires Starved(ss, es, n) && ss[|es|] == Waiting(sl, t) && t < BOOST_INTERVAL
    ensures Starved(ss', es', n + 1) && ss'[|es'|] == Waiting(1, t') && t' < BOOST_INTERVAL
  {
    hide Enabled, Do, Run;
    RunShape(ss, es);
    var a, b;
    a, b, t' := OneTurn(sl, t);
    ss', es' := ss + [a], es + [Pass(0, Some(0))];
    RunSnoc(ss, es, Pass(0, Some(0)));
    RunSnoc(ss', es', Tick(0));
    ss', es' := ss' + [b], es' + [Tick(0)];
    RunSnoc(ss', es', FinalYield(0));
    ss', es' := ss' + [Waiting(1, t')], es' + [FinalYield(0)];
  }

  lemma {:induction false} RunShape(ss: seq<State>, es: seq<Step>)
    requires Run(ss, es)
    ensures |ss| == |es| + 1
  {
  }

  lemma {:induction false} StarvingRun(n: nat) returns (ss: seq<State>, es: seq<Step>)
    ensures Starved(ss, es, n)
  {
    ss, es := TwoReady();
    var sl: nat, t: nat := 0, 0;
    for i := 0 to n
      invariant Starved(ss, es, i) && ss[|es|] == Waiting(sl, t) && t < BOOST_INTERVAL
    {
      ss, es, t := StarvedLonger(ss, es, i, sl, t);
      sl := 1;
    }
  }

  /** Starvation: there is such a run for every n. */
  lemma {:induction false} Starves(n: nat)
    ensures exists ss, es :: Starved(ss, es, n)
  {
    var ss, es := StarvingRun(n);
  }

  // ----- the code -----

  /** What a turn of the scheduler's loop does to a process: a boost if it is time for one, and
      the CPU if it is chosen. */
  ghost predicate Turned(p: Proc, p': Proc, boost: bool, chosen: bool) {
    var reset := boost && p.state != UNUSED;
    && p'.state == (if chosen then RUNNING else p.state) && p'.owes == p.owes
    && p'.priority == (if reset then 0 else p.priority)
    && p'.slices == (if reset || chosen then 0 else p.slices)
  }

  /** Only a turn of the loop that chooses it makes a process RUNNING, only a wakeup makes a
      sleeper RUNNABLE, and a process stops running exactly when it yields at the end of a timer
      trap, sleeps or exits: the timer itself never takes the CPU away. */
  lemma {:induction false} WhoRuns(s: State, e: Step, i: nat)
    requires Inv(s) && Enabled(s, e) && i < |s.procs|
    ensures |Do(s, e).procs| == |s.procs|
    ensures var was, now := s.procs[i].state, Do(s, e).procs[i].state;
      && (was != RUNNING && now == RUNNING <==> e.Pass? && e.r == Some(i))
      && (was == SLEEPING && now != SLEEPING <==> e == Wake(i))
      && (was == RUNNING && now != RUNNING <==> (e.FinalYield? || e.Sleep? || e.Exit?) && Runs(s, e.c, i))
  {
    if e.Pass? {
      if e.r.Some? { assert Candidate(Ticked(s).0, e.r.value); }
    } else if e.Tick? || e.FinalYield? || e.Sleep? || e.Exit? {
      assert Runs(s, e.c, s.cpus[e.c].value);
    }
    assert InState(s, i, RUNNING) == (s.procs[i].state == RUNNING);
  }

  class Ptable {
    var procs: seq<Proc>
    var cpus: seq<Option<nat>>
    var globalTicks: nat

    ghost function St(): State
      reads this
    { State(procs, cpus, globalTicks) }

    /** boost_all_priorities. */
    method Boost()
      modifies this`procs
      ensures procs == Boosted(old(procs))
      ensures |procs| == |old(procs)| && forall i :: 0 <= i < |procs| ==> var p := old(procs)[i];
        procs[i] == if p.state == UNUSED then p else Proc(p.state, 0, 0, p.owes)
    {
      var i := 0;
      while i < |procs|
        invariant 0 <= i <= |procs| == |old(procs)|
        invariant forall k :: 0 <= k < |procs| ==> procs[k] == if k < i then Boosted(old(procs))[k] else old(procs)[k]
      {
        if procs[i].state != UNUSED { procs := procs[i := procs[i].(priority := 0, slices := 0)]; }
        i := i + 1;
      }
    }

    /** The search of the scheduler's loop. */
    method Find() returns (r: Option<nat>)
      ensures Best(procs, r)
    {
      var prio := 0;
      while prio < NPRIO
        invariant 0 <= prio <= NPRIO && forall j: nat {:trigger Candidate(procs, j)} :: Candidate(procs, j) ==>
          procs[j].priority >= prio
      {
        var i := 0;
        while i < |procs|
          invariant 0 <= i <= |procs| && forall j: nat {:trigger Candidate(procs, j)} :: Candidate(procs, j) ==>
            procs[j].priority >= prio && (j < i ==> procs[j].priority > prio)
        {
          if procs[i].state == RUNNABLE && procs[i].priority == prio { return Some(i); }
          i := i + 1;
        }
        prio := prio + 1;
      }
      return None;
    }

    /** One turn of the loop in scheduler on CPU c, up to swtch. */
    method Pass(c: nat) returns (r: Option<nat>)
      requires c < |cpus| && cpus[c].None?
      modifies this
      ensures Enabled(old(St()), Step.Pass(c, r)) && St() == Do(old(St()), Step.Pass(c, r))
      ensures globalTicks == if old(globalTicks) + 1 >= BOOST_INTERVAL then 0 else old(globalTicks) + 1
      ensures cpus == if r.None? then old(cpus) else old(cpus)[c := r]
      ensures |procs| == |old(procs)| && forall i :: 0 <= i < |procs| ==>
        Turned(old(procs)[i], procs[i], globalTicks == 0, r == Some(i))
      ensures forall j :: 0 <= j < |procs| && old(procs)[j].state == RUNNABLE && procs[j].priority < NPRIO ==>
        r.Some? && r.value < |procs| && procs[r.value].priority <= procs[j].priority
        && (procs[r.value].priority == procs[j].priority ==> r.value <= j)
      ensures r.Some? ==> r.value < |procs| && old(procs)[r.value].state == RUNNABLE
    {
      globalTicks := globalTicks + 1;
      if globalTicks >= BOOST_INTERVAL {
        Boost();
        globalTicks := 0;
      }
      r := Find();
      ghost var found := procs;
      if r.Some? {
        assert Candidate(procs, r.value);
        cpus := cpus[c := r];
        procs := procs[r.value := procs[r.value].(state := RUNNING)];
        procs := procs[r.value := procs[r.value].(slices := 0)];
      }
      assert forall j :: 0 <= j < |procs| && old(procs)[j].state == RUNNABLE && procs[j].priority < NPRIO ==>
        Candidate(found, j);
    }

    /** yield, with the scheduler's c->proc = 0 that follows it. */
    method Yield(c: nat)
      requires OnCpu(St(), c)
      modifies this`procs, this`cpus
      ensures St() == GiveUp(old(St()), c, old(procs)[old(cpus)[c].value].(state := RUNNABLE))
      ensures var i := old(cpus)[c].value; var p := old(procs)[i];
        cpus == old(cpus)[c := None] && procs == old(procs)[i := Proc(RUNNABLE, p.priority, p.slices, p.owes)]
    {
      var i := cpus[c].value;
      procs := procs[i := procs[i].(state := RUNNABLE)];
      cpus := cpus[c := None];
    }

    /** The timer branch of trap, for a process that is RUNNING. */
    method TimerTick(c: nat)
      requires OnCpu(St(), c) && !procs[cpus[c].value].owes
      modifies this`procs, this`cpus
      ensures St() == Do(old(St()), Tick(c))
      ensures var i := old(cpus)[c].value; var p := old(procs)[i];
        if p.slices + 1 < MAX_TIME_SLICE then
          cpus == old(cpus) && procs == old(procs)[i := Proc(p.state, p.priority, p.slices + 1, true)]
        else
          && cpus == old(cpus)[c := None]
          && procs == old(procs)[i := Proc(RUNNABLE, if p.priority + 1 < NPRIO then p.priority + 1 else p.priority, 0,
            true)]
    {
      var i := cpus[c].value;
      procs := procs[i := procs[i].(slices := procs[i].slices + 1, owes := true)];
      if procs[i].slices >= MAX_TIME_SLICE {
        if procs[i].priority < NPRIO - 1 { procs := procs[i := procs[i].(priority := procs[i].priority + 1)]; }
        procs := procs[i := procs[i].(slices := 0)];
        Yield(c);
      }
    }

    /** The end of trap after a timer interrupt. */
    method TrapEnd(c: nat)
      requires OnCpu(St(), c) && procs[cpus[c].value].owes
      modifies this`procs, this`cpus
      ensures St() == Do(old(St()), FinalYield(c))
      ensures var i := old(cpus)[c].value; var p := old(procs)[i];
        cpus == old(cpus)[c := None] && procs == old(procs)[i := Proc(RUNNABLE, p.priority, p.slices, false)]
    {
      var i := cpus[c].value;
      procs := procs[i := procs[i].(owes := false)];
      Yield(c);
    }
  }
}
