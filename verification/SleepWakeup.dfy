/** sleep, wakeup and sleep locks (proc.c, sleeplock.c) as interleaved steps of any number of
    processes over any number of locks and channels.  A channel has a condition, a count that
    waiters need to be positive, and a lock that guards it: a spin lock, which several channels
    may share (nread and nwrite of a pipe), or ptable.lock itself (wait and exit).  A sleep lock
    is a channel whose count is 1 when free and 0 when held. */
module SleepWakeup {
  import opened Common

  datatype Lk = Pt | Spin(n: nat)

  /** Where a process is; l is the lock it works under. */
  datatype Phase =
    | Outside
    | WantLk(l: Lk)             // acquire(lk)
    | Inside(l: Lk)             // holds l
    // sleep(c, l) for l other than ptable.lock
    | WantPt(l: Lk, c: nat)     // holds l, acquires ptable.lock
    | HasBoth(l: Lk, c: nat)    // holds both
    // sleep(c, l)
    | ToSleep(l: Lk, c: nat)    // holds ptable.lock
    | Asleep(l: Lk, c: nat)     // SLEEPING; the scheduler released ptable.lock
    | Woken(l: Lk, c: nat)      // RUNNABLE
    | Resumed(l: Lk, c: nat)    // running again, holding ptable.lock
    // wakeup(c) by a process that holds h, if anything
    | WantWake(h: Option<Lk>, c: nat)
    | Waking(h: Option<Lk>, c: nat)  // holds ptable.lock, before wakeup1
    | Woke(h: Option<Lk>, c: nat)    // after wakeup1

  /** owes: the channels whose condition this process has set without waking anybody yet.
      woke: those it has called wakeup1 for since it got ptable.lock.  held: those whose unit it has
      taken and not given back. */
  datatype Proc = Proc(phase: Phase, owes: set<nat>, woke: set<nat>, held: set<nat>)

  /** The guarding lock, the count, whether it is used as a sleep lock, and lk->pid. */
  datatype Chan = Chan(lock: Lk, count: nat, mutex: bool, pid: Option<nat>)

  /** locks and ptable name the holders. */
  datatype State = State(procs: seq<Proc>, chans: seq<Chan>, locks: seq<Option<nat>>, ptable: Option<nat>)

  datatype Action =
    | Acquire(l: Lk)
    | Take(c: nat)   // the test found the condition true
    | Give(c: nat)   // make it true
    | Sleep(c: nat)  // the test found it false
    | Wake(c: nat)   // call wakeup, or wakeup1 under ptable.lock
    | Release
    | Go             // the next step of sleep or wakeup
    | Kill(target: nat)  // kill() wakes a sleeping process

  predicate HoldsLk(p: Phase, n: nat) {
    match p
    case Inside(l) => l == Spin(n)
    case WantPt(l, _) => l == Spin(n)
    case HasBoth(l, _) => l == Spin(n)
    case WantWake(h, _) => h == Some(Spin(n))
    case Waking(h, _) => h == Some(Spin(n))
    case Woke(h, _) => h == Some(Spin(n))
    case _ => false
  }

  predicate HoldsPt(p: Phase) {
    p.HasBoth? || p.ToSleep? || p.Resumed? || p.Waking? || p.Woke? || p == Inside(Pt)
  }

  predicate Sleeps(p: Phase, c: nat) { (p.ToSleep? || p.Asleep?) && p.c == c }

  predicate Free(s: State, l: Lk) {
    match l
    case Pt => s.ptable.None?
    case Spin(n) => n < |s.locks| && s.locks[n].None?
  }

  /** A process may touch a channel only under its lock. */
  predicate Guards(s: State, p: Phase, c: nat) { c < |s.chans| && p == Inside(s.chans[c].lock) }

  /** Can process i take this action now?  Nobody sleeps, or starts anything new, while it owes a
      wakeup; releasing the lock first and waking then is allowed. */
  predicate Enabled(s: State, i: nat, a: Action) {
    i < |s.procs| && var p, phase := s.procs[i], s.procs[i].phase;
    match a
    case Acquire(l) => phase.Outside? && p.owes == {} && (l.Spin? ==> l.n < |s.locks|)
    case Take(c) => Guards(s, phase, c) && s.chans[c].count > 0
    case Give(c) => Guards(s, phase, c) && (s.chans[c].mutex ==> c in p.held)
    case Sleep(c) => Guards(s, phase, c) && s.chans[c].count == 0 && p.owes == {}
    case Wake(c) => (phase.Inside? || phase.Outside?) && c < |s.chans|
    case Release => phase.Inside?
    case Kill(t) => s.ptable.None? && t < |s.procs|
    case Go =>
      match phase
      case WantLk(l) => Free(s, l)
      case WantPt(_, _) => s.ptable.None?
      case HasBoth(_, _) => true
      case ToSleep(_, _) => true
      case Woken(_, _) => s.ptable.None?
      case Resumed(_, _) => true
      case WantWake(_, _) => s.ptable.None?
      case Waking(_, _) => true
      case Woke(_, _) => true
      case _ => false
  }

  function Goto(s: State, i: nat, p: Phase): State
    requires i < |s.procs|
  { s.(procs := s.procs[i := s.procs[i].(phase := p)]) }

  function SetLk(s: State, l: Lk, h: Option<nat>): State {
    match l
    case Pt => s.(ptable := h)
    case Spin(n) => if n < |s.locks| then s.(locks := s.locks[n := h]) else s
  }

  function WakeUp(p: Proc, c: nat): Proc {
    if p.phase.Asleep? && p.phase.c == c then p.(phase := Woken(p.phase.l, c)) else p
  }

  /** wakeup1: every process sleeping on c becomes runnable. */
  function WakeAll(procs: seq<Proc>, c: nat): seq<Proc> {
    seq(|procs|, j requires 0 <= j < |procs| => WakeUp(procs[j], c))
  }

  /** wakeup1(c) by process i, which goes on with p. */
  function Wakes(s: State, i: nat, c: nat, p: Proc): State
    requires i < |s.procs|
  { s.(procs := WakeAll(s.procs, c)[i := p]) }

  function Do(s: State, i: nat, a: Action): State
    requires Enabled(s, i, a)
  {
    var p, phase := s.procs[i], s.procs[i].phase;
    match a
    case Acquire(l) => Goto(s, i, WantLk(l))
    case Take(c) =>
      s.(chans := s.chans[c := s.chans[c].(count := s.chans[c].count - 1, pid := Some(i))],
         procs := s.procs[i := p.(held := p.held + {c})])
    case Give(c) =>
      s.(chans := s.chans[c := s.chans[c].(count := s.chans[c].count + 1, pid := None)],
         procs := s.procs[i := p.(held := p.held - {c}, owes := if c in p.woke then p.owes else p.owes + {c})])
    case Sleep(c) =>
      s.(procs := s.procs[i := p.(phase := if phase.l.Pt? then ToSleep(Pt, c) else WantPt(phase.l, c), woke := {})])
    case Wake(c) =>
      if phase == Inside(Pt) then Wakes(s, i, c, p.(owes := p.owes - {c}, woke := p.woke + {c}))
      else Goto(s, i, WantWake(if phase.Inside? then Some(phase.l) else None, c))
    case Release => SetLk(s, phase.l, None).(procs := s.procs[i := p.(phase := Outside, woke := {})])
    case Kill(t) => s.(procs := s.procs[t := if s.procs[t].phase.Asleep? then
      s.procs[t].(phase := Woken(s.procs[t].phase.l, s.procs[t].phase.c)) else s.procs[t]])
    case Go =>
      match phase
      case WantLk(l) => Goto(SetLk(s, l, Some(i)), i, Inside(l))
      case WantPt(l, c) => Goto(s.(ptable := Some(i)), i, HasBoth(l, c))
      case HasBoth(l, c) => Goto(SetLk(s, l, None), i, ToSleep(l, c))
      case ToSleep(l, c) => Goto(s.(ptable := None), i, Asleep(l, c))
      case Woken(l, c) => Goto(s.(ptable := Some(i)), i, Resumed(l, c))
      case Resumed(l, c) => if l.Pt? then Goto(s, i, Inside(Pt)) else Goto(s.(ptable := None), i, WantLk(l))
      case WantWake(h, c) => Goto(s.(ptable := Some(i)), i, Waking(h, c))
      case Waking(h, c) => Wakes(s, i, c, p.(phase := Woke(h, c), owes := p.owes - {c}))
      case Woke(h, c) => Goto(s.(ptable := None), i, if h.Some? then Inside(h.value) else Outside)
      case _ => s
  }

  /** Nobody is anywhere; sleep locks are free. */
  ghost predicate Init(s: State) {
    && s.ptable.None? && (forall n :: 0 <= n < |s.locks| ==> s.locks[n].None?)
    && (forall i :: 0 <= i < |s.procs| ==> s.procs[i] == Proc(Outside, {}, {}, {}))
    && (forall c :: 0 <= c < |s.chans| ==> s.chans[c].mutex ==> s.chans[c].count == 1)
  }

  datatype Step = Step(i: nat, a: Action)

  ghost predicate Run(s: State, steps: seq<Step>, s': State)
    decreases |steps|
  {
    if steps == [] then s' == s
    else Enabled(s, steps[0].i, steps[0].a) && Run(Do(s, steps[0].i, steps[0].a), steps[1..], s')
  }

  // ----- invariant -----

  predicate KnownLk(s: State, l: Lk) { l.Spin? ==> l.n < |s.locks| }

  /** A lock's holder field names exactly the process whose code holds it. */
  ghost predicate LockOk(s: State, i: nat)
    requires i < |s.procs|
  {
    var p := s.procs[i].phase;
    && (s.ptable == Some(i) <==> HoldsPt(p))
    && (forall n :: 0 <= n < |s.locks| ==> (s.locks[n] == Some(i) <==> HoldsLk(p, n)))
    && (p.WantLk? || p.Inside? ==> KnownLk(s, p.l))
    && (p.WantWake? || p.Waking? || p.Woke? ==> p.h.Some? ==> p.h.value.Spin? && KnownLk(s, p.h.value))
  }

  ghost predicate SomeoneOwes(s: State, c: nat) { exists j :: 0 <= j < |s.procs| && c in s.procs[j].owes }

  /** Where a process can be while it owes a wakeup. */
  predicate MayOwe(p: Phase) { p.Outside? || p.Inside? || p.WantWake? || p.Waking? || p.Woke? }

  predicate InSleep(p: Phase) {
    p.WantPt? || p.HasBoth? || p.ToSleep? || p.Asleep? || p.Woken? || p.Resumed?
  }

  /** What each phase knows about its condition. */
  ghost predicate WaitOk(s: State, i: nat)
    requires i < |s.procs|
  {
    var p := s.procs[i].phase;
    && (s.procs[i].owes != {} ==> MayOwe(p))
    && (InSleep(p) ==> p.c < |s.chans| && p.l == s.chans[p.c].lock && KnownLk(s, p.l))
    && (p.WantPt? || p.HasBoth? ==> p.l.Spin? && s.chans[p.c].count == 0)
    && (p.ToSleep? || p.Asleep? ==> s.chans[p.c].count == 0 || SomeoneOwes(s, p.c))
  }

  /** Nobody has gone to sleep on a channel since a process that still holds ptable.lock woke it. */
  ghost predicate WokeOk(s: State, i: nat)
    requires i < |s.procs|
  {
    s.procs[i].woke != {} ==>
      && s.procs[i].phase == Inside(Pt)
      && forall c, j :: c in s.procs[i].woke && 0 <= j < |s.procs| ==> !Sleeps(s.procs[j].phase, c)
  }

  ghost predicate ProcOk(s: State, i: nat)
    requires i < |s.procs|
  { LockOk(s, i) && WaitOk(s, i) && WokeOk(s, i) }

  /** A sleep lock's locked and pid fields name its one holder. */
  ghost predicate MutexOk(s: State, c: nat)
    requires c < |s.chans|
  {
    s.chans[c].mutex ==>
      && s.chans[c].count <= 1
      && forall i :: 0 <= i < |s.procs| ==>
        (c in s.procs[i].held <==> s.chans[c].count == 0 && s.chans[c].pid == Some(i))
  }

  ghost predicate Inv(s: State) {
    && (s.ptable.Some? ==> s.ptable.value < |s.procs|)
    && (forall i :: 0 <= i < |s.procs| ==> ProcOk(s, i))
    && (forall c :: 0 <= c < |s.chans| ==> MutexOk(s, c))
  }

  /** Who holds a lock changes only from or to process i, or from nobody. */
  predicate Handed(was: Option<nat>, now: Option<nat>, i: nat) {
    was == now || (was in {None, Some(i)} && now in {None, Some(i)})
  }

  /** Steps that change only process i, but not what it holds, and the locks. */
  lemma {:induction false} LockStep(s: State, i: nat, s': State)
    requires Inv(s) && i < |s.procs| == |s'.procs| && s'.chans == s.chans && |s'.locks| == |s.locks|
    requires s'.procs == s.procs[i := s'.procs[i]] && s'.procs[i].held == s.procs[i].held
    requires s.procs[i].owes <= s'.procs[i].owes && ProcOk(s', i)
    requires Handed(s.ptable, s'.ptable, i) && forall n :: 0 <= n < |s.locks| ==> Handed(s.locks[n], s'.locks[n], i)
    requires forall c: nat :: Sleeps(s'.procs[i].phase, c) ==> Sleeps(s.procs[i].phase, c) || HoldsPt(s.procs[i].phase)
    ensures Inv(s')
  {
    forall c: nat | SomeoneOwes(s, c) ensures SomeoneOwes(s', c) {
      var j :| 0 <= j < |s.procs| && c in s.procs[j].owes;
      assert c in s'.procs[j].owes;
    }
    assert ProcOk(s, i);
    forall j | 0 <= j < |s'.procs| ensures ProcOk(s', j) {
      assert ProcOk(s, j);
      if j != i {
        assert s'.procs[j] == s.procs[j];
        assert s'.ptable == Some(j) <==> s.ptable == Some(j);
        forall n | 0 <= n < |s.locks| ensures s'.locks[n] == Some(j) <==> s.locks[n] == Some(j) {}
      }
    }
    forall c | 0 <= c < |s.chans| ensures MutexOk(s', c) {
      assert MutexOk(s, c);
    }
  }

  /** The holder of a channel's lock may change its count: what the others know survives if
      the count did not grow, or someone owes a wakeup, or nobody sleeps there. */
  lemma {:induction false} CountStep(s: State, i: nat, c: nat, s': State)
    requires Inv(s) && i < |s.procs| == |s'.procs| && c < |s.chans| && Guards(s, s.procs[i].phase, c)
    requires s'.locks == s.locks && s'.ptable == s.ptable && s'.procs == s.procs[i := s'.procs[i]]
    requires |s'.chans| == |s.chans| && s'.chans == s.chans[c := s'.chans[c]]
    requires s'.chans[c].lock == s.chans[c].lock && s'.procs[i].phase == s.procs[i].phase
    requires s'.procs[i].woke == s.procs[i].woke && s.procs[i].owes <= s'.procs[i].owes
    requires s'.chans[c].count > s.chans[c].count ==> c in s'.procs[i].owes || c in s.procs[i].woke
    ensures forall j :: 0 <= j < |s'.procs| ==> ProcOk(s', j)
  {
    assert ProcOk(s, i);
    forall d: nat | SomeoneOwes(s, d) ensures SomeoneOwes(s', d) {
      var j :| 0 <= j < |s.procs| && d in s.procs[j].owes;
      assert d in s'.procs[j].owes;
    }
    if c in s'.procs[i].owes { assert SomeoneOwes(s', c); }
    forall j | 0 <= j < |s'.procs| ensures ProcOk(s', j) {
      assert ProcOk(s, j);
      Exclusive(s, i, j, s.chans[c].lock, c);
    }
  }

  /** Nobody but the holder of a channel's lock is between its test and ptable.lock. */
  lemma {:induction false} Exclusive(s: State, i: nat, j: nat, l: Lk, c: nat)
    requires i < |s.procs| && j < |s.procs| && ProcOk(s, i) && ProcOk(s, j) && s.procs[i].phase == Inside(l)
    requires c < |s.chans| && s.chans[c].lock == l
    ensures s.procs[j].phase.WantPt? || s.procs[j].phase.HasBoth? ==> s.procs[j].phase.c != c
  {
    if l.Spin? { assert s.locks[l.n] == Some(i) && (s.locks[l.n] == Some(j) <==> HoldsLk(s.procs[j].phase, l.n)); }
  }

  lemma {:induction false} TakeStep(s: State, i: nat, c: nat)
    requires Inv(s) && Enabled(s, i, Take(c))
    ensures Inv(Do(s, i, Take(c)))
  {
    var s' := Do(s, i, Take(c));
    CountStep(s, i, c, s');
    forall d | 0 <= d < |s.chans| ensures MutexOk(s', d) {
      assert MutexOk(s, d);
    }
  }

  lemma {:induction false} GiveStep(s: State, i: nat, c: nat)
    requires Inv(s) && Enabled(s, i, Give(c))
    ensures Inv(Do(s, i, Give(c)))
  {
    var s' := Do(s, i, Give(c));
    CountStep(s, i, c, s');
    forall d | 0 <= d < |s.chans| ensures MutexOk(s', d) {
      assert MutexOk(s, d);
    }
  }

  /** wakeup1 leaves nobody asleep on c, so nobody needs the wakeup it pays off. */
  lemma {:induction false} WakeStep(s: State, i: nat, c: nat, p: Proc)
    requires Inv(s) && i < |s.procs| && HoldsPt(s.procs[i].phase) && HoldsPt(p.phase)
    requires p.held == s.procs[i].held && p.owes == s.procs[i].owes - {c}
    requires !Sleeps(s.procs[i].phase, c) && forall d: nat :: !Sleeps(p.phase, d)
    requires var s' := Wakes(s, i, c, p); LockOk(s', i) && (p.owes != {} ==> MayOwe(p.phase)) && !InSleep(p.phase)
    requires p.woke <= s.procs[i].woke + {c} && (p.woke != {} ==> p.phase == Inside(Pt))
    ensures Inv(Wakes(s, i, c, p))
  {
    var s' := Wakes(s, i, c, p);
    assert ProcOk(s, i);
    forall d: nat | SomeoneOwes(s, d) && d != c ensures SomeoneOwes(s', d) {
      var j :| 0 <= j < |s.procs| && d in s.procs[j].owes;
      assert d in s'.procs[j].owes;
    }
    forall j | 0 <= j < |s.procs| ensures !Sleeps(s'.procs[j].phase, c) {
      assert ProcOk(s, j);
    }
    forall j | 0 <= j < |s'.procs| ensures ProcOk(s', j) {
      assert ProcOk(s, j);
      if j != i { assert s'.procs[j] == WakeUp(s.procs[j], c); }
    }
    forall d | 0 <= d < |s.chans| ensures MutexOk(s', d) {
      assert MutexOk(s, d);
      assert forall j :: 0 <= j < |s.procs| ==> s'.procs[j].held == s.procs[j].held;
    }
  }

  lemma {:induction false} WakeAction(s: State, i: nat, c: nat)
    requires Inv(s) && Enabled(s, i, Wake(c))
    ensures Inv(Do(s, i, Wake(c)))
  {
    var p := s.procs[i];
    assert ProcOk(s, i);
    if p.phase == Inside(Pt) {
      WakeStep(s, i, c, p.(owes := p.owes - {c}, woke := p.woke + {c}));
    } else {
      LockStep(s, i, Do(s, i, Wake(c)));
    }
  }

  lemma {:induction false} GoSleep(s: State, i: nat)
    requires Inv(s) && Enabled(s, i, Go) && InSleep(s.procs[i].phase)
    ensures Inv(Do(s, i, Go))
  {
    var s' := Do(s, i, Go);
    assert ProcOk(s, i);
    if s.procs[i].phase.ToSleep? && SomeoneOwes(s, s.procs[i].phase.c) {
      var j :| 0 <= j < |s.procs| && s.procs[i].phase.c in s.procs[j].owes;
      assert s.procs[i].phase.c in s'.procs[j].owes;
    }
    LockStep(s, i, s');
  }

  lemma {:induction false} GoWake(s: State, i: nat)
    requires Inv(s) && Enabled(s, i, Go) && !InSleep(s.procs[i].phase)
    ensures Inv(Do(s, i, Go))
  {
    var p := s.procs[i];
    assert ProcOk(s, i);
    if p.phase.Waking? {
      WakeStep(s, i, p.phase.c, p.(phase := Woke(p.phase.h, p.phase.c), owes := p.owes - {p.phase.c}));
    } else {
      LockStep(s, i, Do(s, i, Go));
    }
  }

  /** Acquiring, releasing, going to sleep, or being killed while asleep. */
  lemma {:induction false} OtherStep(s: State, i: nat, a: Action)
    requires Inv(s) && Enabled(s, i, a) && (a.Acquire? || a.Release? || a.Sleep? || a.Kill?)
    ensures Inv(Do(s, i, a))
  {
    var t := if a.Kill? then a.target else i;
    assert ProcOk(s, t);
    LockStep(s, t, Do(s, i, a));
  }

  /** Every step of every process keeps the invariant. */
  lemma {:induction false} StepKeepsInv(s: State, i: nat, a: Action)
    requires Inv(s) && Enabled(s, i, a)
    ensures Inv(Do(s, i, a))
  {
    hide Inv, Do;
    match a {
      case Take(c) => TakeStep(s, i, c);
      case Give(c) => GiveStep(s, i, c);
      case Wake(c) => WakeAction(s, i, c);
      case Go => if InSleep(s.procs[i].phase) { GoSleep(s, i); } else { GoWake(s, i); }
      case _ => OtherStep(s, i, a);
    }
  }

  lemma {:induction false} InitInv(s: State)
    requires Init(s)
    ensures Inv(s)
  {
  }

  lemma {:induction false} RunKeepsInv(s: State, steps: seq<Step>, s': State)
    requires Inv(s) && Run(s, steps, s')
    ensures Inv(s')
    decreases |steps|
  {
    if steps != [] {
      StepKeepsInv(s, steps[0].i, steps[0].a);
      RunKeepsInv(Do(s, steps[0].i, steps[0].a), steps[1..], s');
    }
  }

  // ----- what it means -----

  /** No lost wakeup: in every reachable state a process sleeping on a channel whose condition
      is true is owed a wakeup by a process that has set the condition, whichever lock guards the
      channel and whatever other channels it guards. */
  lemma {:induction false} NoLostWakeup(s: State, steps: seq<Step>, s': State, i: nat)
    requires Init(s) && Run(s, steps, s') && i < |s'.procs| && s'.procs[i].phase.Asleep?
    ensures var c := s'.procs[i].phase.c;
      c < |s'.chans| && (s'.chans[c].count > 0 ==> SomeoneOwes(s', c))
  {
    InitInv(s);
    RunKeepsInv(s, steps, s');
    assert ProcOk(s', i);
  }

  /** Sleep locks exclude: no two processes hold the same one, and holdingsleep (locked, with
      my pid) answers exactly whether I do. */
  lemma {:induction false} SleepLockExcludes(s: State, steps: seq<Step>, s': State, c: nat, i: nat, j: nat)
    requires Init(s) && Run(s, steps, s') && c < |s'.chans| && s'.chans[c].mutex && i < |s'.procs| && j < |s'.procs|
    ensures c in s'.procs[i].held && c in s'.procs[j].held ==> i == j
    ensures c in s'.procs[i].held <==> s'.chans[c].count == 0 && s'.chans[c].pid == Some(i)
  {
    InitInv(s);
    RunKeepsInv(s, steps, s');
    assert MutexOk(s', c);
  }

  /** Spin locks exclude too: at most one process is between acquire and release. */
  lemma {:induction false} SpinLocksExclude(s: State, steps: seq<Step>, s': State, n: nat, i: nat, j: nat)
    requires Init(s) && Run(s, steps, s') && n < |s'.locks| && i < |s'.procs| && j < |s'.procs| && i != j
    ensures !(HoldsLk(s'.procs[i].phase, n) && HoldsLk(s'.procs[j].phase, n))
    ensures !(HoldsPt(s'.procs[i].phase) && HoldsPt(s'.procs[j].phase))
  {
    InitInv(s);
    RunKeepsInv(s, steps, s');
    assert ProcOk(s', i) && ProcOk(s', j);
  }

  /** The owed wakeup is never stuck: the process that owes it, or the current holder of
      ptable.lock, can take a step. */
  lemma {:induction false} WakeupCanProceed(s: State, steps: seq<Step>, s': State, i: nat)
    requires Init(s) && Run(s, steps, s') && i < |s'.procs| && s'.procs[i].phase.Asleep?
    requires s'.procs[i].phase.c < |s'.chans| && s'.chans[s'.procs[i].phase.c].count > 0
    ensures exists j, a ::
      && 0 <= j < |s'.procs| && Enabled(s', j, a) && a in {Go, Release, Wake(s'.procs[i].phase.c)}
      && (s'.procs[i].phase.c in s'.procs[j].owes || HoldsPt(s'.procs[j].phase))
  {
    InitInv(s);
    RunKeepsInv(s, steps, s');
    NoLostWakeup(s, steps, s', i);
    var c := s'.procs[i].phase.c;
    var j :| 0 <= j < |s'.procs| && c in s'.procs[j].owes;
    var k := if s'.ptable.Some? then s'.ptable.value else j;
    assert ProcOk(s', j) && ProcOk(s', k);
    var a := if s'.procs[k].phase == Inside(Pt) then Release
             else if s'.procs[k].phase.Inside? || s'.procs[k].phase.Outside? then Wake(c)
             else Go;
    assert Enabled(s', k, a) && (c in s'.procs[k].owes || HoldsPt(s'.procs[k].phase));
  }

  // ----- who is woken -----

  /** p is SLEEPING on channel c. */
  predicate SleepsOn(p: Proc, c: nat) { p.phase.Asleep? && p.phase.c == c }

  /** A sleeper on c becomes runnable, otherwise as it was; nobody else changes. */
  ghost predicate Roused(p: Proc, p': Proc, c: nat) {
    if SleepsOn(p, c) then
      p'.phase == Woken(p.phase.l, p.phase.c) && p'.owes == p.owes && p'.woke == p.woke && p'.held == p.held
    else p' == p
  }

  /** The step of process i that runs wakeup1(c): in wakeup, or directly under ptable.lock. */
  predicate IsWakeup(s: State, i: nat, a: Action, c: nat) {
    i < |s.procs| &&
    ((a == Wake(c) && s.procs[i].phase == Inside(Pt)) || (a.Go? && s.procs[i].phase.Waking? && s.procs[i].phase.c == c))
  }

  /** wakeup1(c) rouses exactly the sleepers on c; conditions and locks stay. */
  lemma {:induction false} WakeupIs(s: State, i: nat, a: Action, c: nat)
    requires Enabled(s, i, a) && IsWakeup(s, i, a, c)
    ensures var s' := Do(s, i, a);
      && |s'.procs| == |s.procs| && s'.chans == s.chans && s'.locks == s.locks && s'.ptable == s.ptable
      && (forall j :: 0 <= j < |s.procs| && j != i ==> Roused(s.procs[j], s'.procs[j], c))
      && s'.procs[i].owes == s.procs[i].owes - {c} && s'.procs[i].held == s.procs[i].held
  {
  }

  /** What a step does to a process j asleep on c: it is woken, and only then changed, exactly by a
      wakeup on c or by kill. */
  lemma {:induction false} SleeperStep(s: State, i: nat, a: Action, j: nat, c: nat)
    requires Enabled(s, i, a) && j < |s.procs| && SleepsOn(s.procs[j], c)
    ensures var s' := Do(s, i, a);
      && |s'.procs| == |s.procs|
      && if IsWakeup(s, i, a, c) || a == Kill(j) then
           s'.procs[j] == s.procs[j].(phase := Woken(s.procs[j].phase.l, c))
         else s'.procs[j] == s.procs[j]
  {
  }

  /** Some step of the run is a wakeup on c, or kills process j. */
  ghost predicate SomeoneWakes(s: State, steps: seq<Step>, c: nat, j: nat)
    decreases |steps|
  {
    steps != [] && Enabled(s, steps[0].i, steps[0].a) &&
    (IsWakeup(s, steps[0].i, steps[0].a, c) || steps[0].a == Kill(j) ||
     SomeoneWakes(Do(s, steps[0].i, steps[0].a), steps[1..], c, j))
  }

  /** Over any run a process asleep on c sleeps on, unchanged, unless a step of the run is a wakeup
      on that channel or kills it. */
  lemma {:induction false} OnlyWakeupsWake(s: State, steps: seq<Step>, s': State, j: nat, c: nat)
    requires Run(s, steps, s') && j < |s.procs| && SleepsOn(s.procs[j], c) && !SomeoneWakes(s, steps, c, j)
    ensures j < |s'.procs| && s'.procs[j] == s.procs[j]
    decreases |steps|
  {
    hide Do, Enabled;
    if steps != [] {
      SleeperStep(s, steps[0].i, steps[0].a, j, c);
      OnlyWakeupsWake(Do(s, steps[0].i, steps[0].a), steps[1..], s', j, c);
    }
  }

  /** The loop of wakeup1 over the process table: exactly the sleepers on c become runnable, and
      nothing else of them or of anybody else changes. */
  method Wakeup1(procs: array<Proc>, c: nat)
    modifies procs
    ensures forall j :: 0 <= j < procs.Length ==> Roused(old(procs[j]), procs[j], c)
    ensures forall j :: 0 <= j < procs.Length ==> procs[j] == WakeUp(old(procs[j]), c)
  {
    var p := 0;
    while p < procs.Length
      invariant 0 <= p <= procs.Length
      invariant forall j :: 0 <= j < p ==> procs[j] == WakeUp(old(procs[j]), c)
      invariant forall j :: p <= j < procs.Length ==> procs[j] == old(procs[j])
    {
      if procs[p].phase.Asleep? && procs[p].phase.c == c {
        procs[p] := procs[p].(phase := Woken(procs[p].phase.l, c));
      }
      p := p + 1;
    }
  }
}
