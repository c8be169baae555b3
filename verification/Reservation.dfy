/** Log-space reservation (begin_op, log_write, end_op in log.c) over every interleaving of
    file-system operations. */
module Reservation {
  import opened Common

  /** blocks is lh.block[..lh.n]; ops holds, for each outstanding operation, the distinct
      blocks it has logged. */
  datatype State = State(blocks: seq<nat>, ops: seq<set<nat>>, committing: bool)

  datatype Step =
    | Begin              // begin_op returns
    | Write(op: nat, bn: nat)  // log_write
    | End(op: nat)       // end_op up to the release of log.lock
    | Committed          // commit() has returned and committing is cleared

  const Boot := State([], [], false)

  /** What lets a step happen when every operation logs at most `budget` distinct blocks.
      The second disjunct of begin_op's wait is the reservation. */
  predicate Enabled(s: State, step: Step, budget: nat) {
    match step
    case Begin => !s.committing && |s.blocks| + (|s.ops| + 1) * MAXOPBLOCKS <= LOGSIZE
    case Write(op, bn) => op < |s.ops| && |s.ops[op] + {bn}| <= budget
    case End(op) => op < |s.ops|
    case Committed => s.committing
  }

  /** Absorption: a block already in the log is not logged again. */
  function Absorb(blocks: seq<nat>, bn: nat): seq<nat> { if bn in blocks then blocks else blocks + [bn] }

  function Do(s: State, step: Step): State {
    match step
    case Begin => s.(ops := s.ops + [{}])
    case Write(op, bn) =>
      if op < |s.ops| then s.(blocks := Absorb(s.blocks, bn), ops := s.ops[op := s.ops[op] + {bn}]) else s
    case End(op) =>
      if op < |s.ops| then
        var rest := s.ops[..op] + s.ops[op + 1..];
        s.(ops := rest, committing := s.committing || rest == [])
      else s
    case Committed => s.(blocks := [], committing := false)
  }

  /** log_write's first test, before absorption is looked for and before log.lock is taken. */
  predicate Guard(s: State, size: nat) { |s.blocks| < LOGSIZE && |s.blocks| + 1 < size }

  /** "too big a transaction". */
  predicate Panics(s: State, step: Step, size: nat) { step.Write? && !Guard(s, size) }

  ghost function After(steps: seq<Step>): State {
    if steps == [] then Boot else Do(After(steps[..|steps| - 1]), steps[|steps| - 1])
  }

  /** Every step of the run was enabled when it happened. */
  ghost predicate Run(steps: seq<Step>, budget: nat) {
    steps != [] ==>
      && Run(steps[..|steps| - 1], budget)
      && Enabled(After(steps[..|steps| - 1]), steps[|steps| - 1], budget)
  }

  /** Reserved but not yet used log space, when each operation may use `budget` blocks. */
  ghost function Unused(ops: seq<set<nat>>, budget: nat): int {
    if ops == [] then 0 else Unused(ops[..|ops| - 1], budget) + budget - |ops[|ops| - 1]|
  }

  lemma {:induction false} UnusedUpdate(ops: seq<set<nat>>, budget: nat, i: nat, bs: set<nat>)
    requires i < |ops|
    ensures Unused(ops[i := bs], budget) == Unused(ops, budget) + |ops[i]| - |bs|
  {
    var init, ops' := ops[..|ops| - 1], ops[i := bs];
    if i < |init| {
      UnusedUpdate(init, budget, i, bs);
      assert ops'[..|ops| - 1] == init[i := bs];
    } else {
      assert ops'[..|ops| - 1] == init;
    }
  }

  lemma {:induction false} UnusedRemove(ops: seq<set<nat>>, budget: nat, i: nat)
    requires i < |ops|
    ensures Unused(ops[..i] + ops[i + 1..], budget) == Unused(ops, budget) - (budget - |ops[i]|)
  {
    var init, rest := ops[..|ops| - 1], ops[..i] + ops[i + 1..];
    if i < |init| {
      UnusedRemove(init, budget, i);
      assert rest[..|rest| - 1] == init[..i] + init[i + 1..];
    } else {
      assert rest == init;
    }
  }

  lemma {:induction false} UnusedBounds(ops: seq<set<nat>>, budget: nat)
    requires forall i :: 0 <= i < |ops| ==> |ops[i]| <= budget
    ensures 0 <= Unused(ops, budget) <= budget * |ops|
  {
    if ops != [] { UnusedBounds(ops[..|ops| - 1], budget); }
  }

  /** Everything the reservation protocol keeps, with `budget` blocks allowed per operation
      and `cap` the most log space ever promised. */
  ghost predicate Inv(s: State, budget: nat, cap: nat) {
    && (forall i, j :: 0 <= i < j < |s.blocks| ==> s.blocks[i] != s.blocks[j])
    && (forall i, b :: 0 <= i < |s.ops| && b in s.ops[i] ==> b in s.blocks)
    && (forall i :: 0 <= i < |s.ops| ==> |s.ops[i]| <= budget)
    && |s.blocks| + Unused(s.ops, budget) <= cap
    && (s.committing ==> s.ops == [])
    && (s.ops == [] && !s.committing ==> s.blocks == [])
  }

  /** The largest promise begin_op can make: k operations outstanding, the first of them
      with an empty log. */
  function Cap(budget: nat): nat { if 3 * budget > 10 + 2 * budget then 3 * budget else 10 + 2 * budget }

  lemma {:induction false} BeginKeepsInv(s: State, budget: nat)
    requires Inv(s, budget, Cap(budget)) && Enabled(s, Begin, budget) && budget <= MAXOPBLOCKS
    ensures Inv(Do(s, Begin), budget, Cap(budget))
  {
    var ops := s.ops + [{}];
    assert ops[..|ops| - 1] == s.ops;
    UnusedBounds(ops, budget);
    if s.ops != [] {
      assert |ops| == 2 || |ops| == 3;
    }
  }

  lemma {:induction false} WriteKeepsInv(s: State, op: nat, bn: nat, budget: nat)
    requires Inv(s, budget, Cap(budget)) && Enabled(s, Write(op, bn), budget)
    ensures Inv(Do(s, Write(op, bn)), budget, Cap(budget))
  {
    UnusedUpdate(s.ops, budget, op, s.ops[op] + {bn});
    var s' := Do(s, Write(op, bn));
    assert forall b :: b in s.blocks ==> b in s'.blocks;
    assert bn in s'.blocks;
    if bn in s.ops[op] {
      assert s.ops[op] + {bn} == s.ops[op];
    } else {
      assert |s.ops[op] + {bn}| == |s.ops[op]| + 1;
    }
  }

  lemma {:induction false} EndKeepsInv(s: State, op: nat, budget: nat)
    requires Inv(s, budget, Cap(budget)) && Enabled(s, End(op), budget)
    ensures Inv(Do(s, End(op)), budget, Cap(budget))
  {
    UnusedRemove(s.ops, budget, op);
    UnusedBounds(s.ops, budget);
  }

  lemma {:induction false} StepKeepsInv(s: State, step: Step, budget: nat)
    requires Inv(s, budget, Cap(budget)) && Enabled(s, step, budget) && budget <= MAXOPBLOCKS
    ensures Inv(Do(s, step), budget, Cap(budget))
  {
    match step
    case Begin => BeginKeepsInv(s, budget);
    case Write(op, bn) => WriteKeepsInv(s, op, bn, budget);
    case End(op) => EndKeepsInv(s, op, budget);
    case Committed =>
  }

  /** Over every interleaving: no block is logged twice, a commit runs only with no operation
      outstanding, and logged blocks plus unused reservations never exceed Cap(budget). */
  lemma {:induction false} RunKeepsInv(steps: seq<Step>, budget: nat)
    requires Run(steps, budget) && budget <= MAXOPBLOCKS
    ensures Inv(After(steps), budget, Cap(budget))
  {
    if steps != [] {
      RunKeepsInv(steps[..|steps| - 1], budget);
      StepKeepsInv(After(steps[..|steps| - 1]), steps[|steps| - 1], budget);
    }
  }

  /** The bound log.c aims at: with MAXOPBLOCKS per operation the log never overflows. */
  lemma {:induction false} ReservationHolds(steps: seq<Step>)
    requires Run(steps, MAXOPBLOCKS)
    ensures |After(steps).blocks| + Unused(After(steps).ops, MAXOPBLOCKS) <= LOGSIZE
    ensures After(steps).committing ==> After(steps).ops == []
  {
    RunKeepsInv(steps, MAXOPBLOCKS);
  }

  ghost predicate Reachable(s: State, budget: nat) { exists steps :: Run(steps, budget) && After(steps) == s }

  lemma {:induction false} ReachStep(s: State, step: Step, budget: nat)
    requires Reachable(s, budget) && Enabled(s, step, budget)
    ensures Reachable(Do(s, step), budget)
  {
    var steps :| Run(steps, budget) && After(steps) == s;
    assert (steps + [step])[..|steps|] == steps;
    assert Run(steps + [step], budget) && After(steps + [step]) == Do(s, step);
  }

  // ----- test and append apart -----

  /** passed[i] is the block operation i has tested the log for and not yet appended. */
  datatype Racy = Racy(s: State, passed: seq<Option<nat>>)

  datatype Act =
    | Check(op: nat, bn: nat)  // log_write up to acquire(&log.lock)
    | Append(op: nat)          // the rest of it
    | Other(step: Step)        // any step but Write

  /** An operation that may log block bn and is about to test for it. */
  predicate Asks(r: Racy, op: nat, bn: nat, budget: nat) {
    && op < |r.passed| && op < |r.s.ops| && r.passed[op].None? && |r.s.ops[op] + {bn}| <= budget
  }

  /** A test that fails stops the machine. */
  predicate CanAct(r: Racy, a: Act, budget: nat, size: nat) {
    match a
    case Check(op, bn) => Asks(r, op, bn, budget) && Guard(r.s, size)
    case Append(op) => op < |r.passed| && r.passed[op].Some?
    case Other(step) =>
      && !step.Write? && Enabled(r.s, step, budget)
      && (step.End? ==> step.op < |r.passed| && r.passed[step.op].None?)
  }

  function DoAct(r: Racy, a: Act): Racy {
    match a
    case Check(op, bn) => if op < |r.passed| then r.(passed := r.passed[op := Some(bn)]) else r
    case Append(op) =>
      if op < |r.passed| && r.passed[op].Some? then
        Racy(Do(r.s, Write(op, r.passed[op].value)), r.passed[op := None])
      else r
    case Other(step) =>
      if step.Begin? then Racy(Do(r.s, step), r.passed + [None])
      else if step.End? && step.op < |r.passed| then
        Racy(Do(r.s, step), r.passed[..step.op] + r.passed[step.op + 1..])
      else Racy(Do(r.s, step), r.passed)
  }

  ghost function AfterActs(acts: seq<Act>): Racy {
    if acts == [] then Racy(Boot, []) else DoAct(AfterActs(acts[..|acts| - 1]), acts[|acts| - 1])
  }

  ghost predicate RacyRun(acts: seq<Act>, budget: nat, size: nat) {
    acts != [] ==>
      && RacyRun(acts[..|acts| - 1], budget, size)
      && CanAct(AfterActs(acts[..|acts| - 1]), acts[|acts| - 1], budget, size)
  }

  ghost predicate RacyInv(r: Racy, budget: nat) {
    && |r.passed| == |r.s.ops|
    && forall i :: 0 <= i < |r.passed| && r.passed[i].Some? ==> |r.s.ops[i] + {r.passed[i].value}| <= budget
  }

  lemma {:induction false} ActKeeps(r: Racy, a: Act, budget: nat, size: nat)
    requires RacyInv(r, budget) && CanAct(r, a, budget, size)
    ensures RacyInv(DoAct(r, a), budget)
    ensures DoAct(r, a).s == match a
      case Check(op, bn) => r.s
      case Append(op) => Do(r.s, Write(op, r.passed[op].value))
      case Other(step) => Do(r.s, step)
  {
  }

  /** However tests and appends of different operations fall between each other, the log goes
      through states that it could also have gone through with both in one step. */
  lemma {:induction false} RacyIsPlain(acts: seq<Act>, budget: nat, size: nat)
    requires RacyRun(acts, budget, size)
    ensures RacyInv(AfterActs(acts), budget) && Reachable(AfterActs(acts).s, budget)
  {
    hide Do, Enabled, DoAct, RacyInv, Reachable;
    if acts == [] {
      AtBoot(budget);
    } else {
      RacyIsPlain(acts[..|acts| - 1], budget, size);
      var r, a := AfterActs(acts[..|acts| - 1]), acts[|acts| - 1];
      ActKeeps(r, a, budget, size);
      PlainStep(r, a, budget, size);
    }
  }

  lemma {:induction false} AtBoot(budget: nat)
    ensures RacyInv(Racy(Boot, []), budget) && Reachable(Boot, budget)
  {
    assert Run([], budget) && After([]) == Boot;
  }

  lemma {:induction false} PlainStep(r: Racy, a: Act, budget: nat, size: nat)
    requires RacyInv(r, budget) && CanAct(r, a, budget, size) && Reachable(r.s, budget)
    ensures Reachable(DoAct(r, a).s, budget)
  {
    hide Do, Reachable, DoAct;
    ActKeeps(r, a, budget, size);
    match a {
      case Check(op, bn) =>
      case Append(op) => ReachStep(r.s, Write(op, r.passed[op].value), budget);
      case Other(step) => ReachStep(r.s, step, budget);
    }
  }

  lemma {:induction false} RacyMonotone(acts: seq<Act>, low: nat, high: nat, size: nat)
    requires RacyRun(acts, low, size) && low <= high
    ensures RacyRun(acts, high, size)
  {
    if acts != [] { RacyMonotone(acts[..|acts| - 1], low, high, size); }
  }

  /** No operation that keeps to its budget fails log_write's test. */
  ghost predicate NeverPanics(budget: nat, size: nat) {
    forall acts, op: nat, bn: nat :: RacyRun(acts, budget, size) && Asks(AfterActs(acts), op, bn, budget) ==>
      Guard(AfterActs(acts).s, size)
  }

  /** The header has room for what is logged, and so has the log on disk. */
  predicate InLog(s: State, size: nat) { |s.blocks| <= LOGSIZE && |s.blocks| < size }

  ghost predicate NeverOverflows(budget: nat, size: nat) {
    forall acts :: RacyRun(acts, budget, size) ==> InLog(AfterActs(acts).s, size)
  }

  // ----- filling the log -----

  /** No operation is between test and append. */
  function Settled(s: State): Racy { Racy(s, seq(|s.ops|, _ => None)) }

  ghost predicate Reaches(r: Racy, budget: nat, size: nat) {
    exists acts :: RacyRun(acts, budget, size) && AfterActs(acts) == r
  }

  lemma {:induction false} ReachAct(r: Racy, a: Act, budget: nat, size: nat)
    requires Reaches(r, budget, size) && CanAct(r, a, budget, size)
    ensures Reaches(DoAct(r, a), budget, size)
  {
    hide DoAct, CanAct;
    var acts :| RacyRun(acts, budget, size) && AfterActs(acts) == r;
    assert (acts + [a])[..|acts|] == acts;
    assert RacyRun(acts + [a], budget, size) && AfterActs(acts + [a]) == DoAct(r, a);
  }

  /** A step with nothing between test and append. */
  lemma {:induction false} ReachSettled(s: State, step: Step, budget: nat, size: nat)
    requires Reaches(Settled(s), budget, size) && Enabled(s, step, budget) && (step.Write? ==> Guard(s, size))
    ensures Reaches(Settled(Do(s, step)), budget, size)
  {
    hide Reaches, RacyRun;
    var r := Settled(s);
    if step.Write? {
      ReachAct(r, Check(step.op, step.bn), budget, size);
      ReachAct(DoAct(r, Check(step.op, step.bn)), Append(step.op), budget, size);
      assert DoAct(DoAct(r, Check(step.op, step.bn)), Append(step.op)) == Settled(Do(s, step));
    } else {
      ReachAct(r, Other(step), budget, size);
      assert DoAct(r, Other(step)) == Settled(Do(s, step));
    }
  }

  lemma {:induction false} ReachesMore(r: Racy, low: nat, high: nat, size: nat)
    requires Reaches(r, low, size) && low <= high
    ensures Reaches(r, high, size)
  {
    var acts :| RacyRun(acts, low, size) && AfterActs(acts) == r;
    RacyMonotone(acts, low, high, size);
  }

  predicate Between(lo: nat, b: nat, hi: nat) { lo <= b < hi }
  function Span(lo: nat, hi: nat): set<nat> { set b | lo <= b < hi && Between(lo, b, hi) }
  function Upto(k: nat): seq<nat> { seq(k, i => i) }

  lemma {:induction false} SpanGrows(lo: nat, hi: nat)
    requires lo <= hi
    ensures Span(lo, hi + 1) == Span(lo, hi) + {hi}
  {
    forall b | lo <= b <= hi ensures b in Span(lo, hi + 1) <==> b in Span(lo, hi) + {hi} {
      assert Between(lo, b, hi + 1) && (b < hi ==> Between(lo, b, hi));
    }
  }

  lemma {:induction false} SpanSize(lo: nat, hi: nat)
    requires lo <= hi
    ensures |Span(lo, hi)| == hi - lo
    decreases hi - lo
  {
    if lo < hi {
      SpanGrows(lo, hi - 1);
      SpanSize(lo, hi - 1);
    } else {
      assert Span(lo, hi) == {};
    }
  }

  /** One operation is open, j blocks are logged. */
  function Idle(j: nat): State { State(Upto(j), [{}], false) }

  /** Another operation comes, logs one block and goes. */
  lemma {:induction false} Visit(j: nat, budget: nat) returns (s1: State, s2: State)
    requires j < 10 && budget >= 1
    ensures Enabled(Idle(j), Begin, budget) && s1 == Do(Idle(j), Begin) && |s1.blocks| == j
    ensures Enabled(s1, Write(1, j), budget) && s2 == Do(s1, Write(1, j))
    ensures Enabled(s2, End(1), budget) && Do(s2, End(1)) == Idle(j + 1)
  {
    var none: set<nat>, one: set<nat> := {}, {j};
    s1 := State(Upto(j), [none, none], false);
    assert [none] + [none] == [none, none] && none + {j} == one && |one| == 1;
    s2 := State(Upto(j + 1), [none, one], false);
    assert j !in Upto(j) && Upto(j) + [j] == Upto(j + 1) && [none, none][1 := one] == [none, one];
    assert [none, one][..1] + [none, one][2..] == [none];
  }

  lemma {:induction false} WarmUp(j: nat, budget: nat, size: nat)
    requires j <= 10 && budget >= 1 && (j > 0 ==> j < size)
    ensures Reaches(Settled(Idle(j)), budget, size)
    decreases j
  {
    hide Enabled, Do, Reaches, Idle, Settled;
    if j == 0 {
      FirstBegins(budget, size);
    } else {
      WarmUp(j - 1, budget, size);
      var s1, s2 := Visit(j - 1, budget);
      ReachSettled(Idle(j - 1), Begin, budget, size);
      ReachSettled(s1, Write(1, j - 1), budget, size);
      ReachSettled(s2, End(1), budget, size);
    }
  }

  lemma {:induction false} FirstBegins(budget: nat, size: nat)
    ensures Reaches(Settled(Idle(0)), budget, size)
  {
    assert RacyRun([], budget, size) && AfterActs([]) == Racy(Boot, []) == Settled(Boot);
    ReachSettled(Boot, Begin, budget, size);
    var none: set<nat> := {};
    assert Boot.ops + [none] == [none] && Upto(0) == [];
  }

  /** A second operation begins. */
  function TwoIdle(j: nat): State { State(Upto(j), [{}, {}], false) }

  lemma {:induction false} SecondBegins(j: nat, budget: nat, size: nat)
    requires j <= 10 && budget >= 1 && (j > 0 ==> j < size)
    ensures Reaches(Settled(TwoIdle(j)), budget, size)
  {
    hide Reaches, Settled;
    WarmUp(j, budget, size);
    ReachSettled(Idle(j), Begin, budget, size);
    var none: set<nat> := {};
    assert [none] + [none] == [none, none];
  }

  /** Two operations, started with 10 blocks in the log, have logged k more between them. */
  function Filled(k: nat, budget: nat): State {
    State(Upto(10 + k),
          [Span(10, 10 + if k < budget then k else budget), Span(10 + budget, 10 + if k < budget then budget else k)],
          false)
  }

  lemma {:induction false} FillStep(k: nat, budget: nat)
    requires k < 2 * budget
    ensures var e := Write(if k < budget then 0 else 1, 10 + k);
      Enabled(Filled(k, budget), e, budget) && Do(Filled(k, budget), e) == Filled(k + 1, budget)
  {
    hide Span;
    var lo := if k < budget then 10 else 10 + budget;
    SpanGrows(lo, 10 + k);
    SpanSize(lo, 10 + k + 1);
    assert 10 + k !in Upto(10 + k);
    assert Upto(10 + k) + [10 + k] == Upto(10 + k + 1);
  }

  /** With two operations outstanding the log can get to 10 + 2 * budget blocks, as far as the
      test lets it. */
  lemma {:induction false} FillsLog(k: nat, budget: nat, size: nat)
    requires 1 <= budget && k <= 2 * budget && 10 + k <= LOGSIZE && 10 + k < size
    ensures Reaches(Settled(Filled(k, budget)), budget, size)
    decreases k
  {
    hide Filled, Enabled, Do, Reaches, Settled, TwoIdle, Span, Upto;
    if k == 0 {
      SecondBegins(10, budget, size);
      NoneFilled(budget);
    } else {
      FillsLog(k - 1, budget, size);
      FillStep(k - 1, budget);
      FilledSize(k - 1, budget);
      ReachSettled(Filled(k - 1, budget), Write(if k - 1 < budget then 0 else 1, 10 + (k - 1)), budget, size);
    }
  }

  lemma {:induction false} NoneFilled(budget: nat)
    ensures Filled(0, budget) == TwoIdle(10)
  {
    var none: set<nat> := {};
    assert Span(10, 10) == none && Span(10 + budget, 10 + budget) == none;
  }

  lemma {:induction false} FilledSize(k: nat, budget: nat)
    ensures |Filled(k, budget).blocks| == 10 + k && Filled(k, budget).blocks == Upto(10 + k)
  {
  }

  /** As many blocks as the test ever lets into the log one at a time. */
  function Room(size: nat): nat { if size == 0 then 0 else if size <= LOGSIZE then size - 1 else LOGSIZE }

  /** The full log, and one of its blocks logged once more. */
  lemma {:induction false} FullLogPanics(budget: nat, size: nat) returns (r: Racy, op: nat, bn: nat)
    requires 1 <= budget && Room(size) <= 10 + 2 * budget
    ensures Reaches(r, budget, size) && Asks(r, op, bn, budget) && !Guard(r.s, size)
  {
    hide Reaches;
    var n := Room(size);
    if n <= 10 {
      WarmUp(n, budget, size);
      r, op, bn := Settled(Idle(n)), 0, n;
      assert r.s.ops[0] + {n} == {n};
    } else {
      FillsLog(n - 10, budget, size);
      r, op, bn := Settled(Filled(n - 10, budget)), 0, 10;
      OwnBlock(n - 10, budget);
    }
  }

  lemma {:induction false} OwnBlock(k: nat, budget: nat)
    requires 1 <= k && 1 <= budget
    ensures var ops := Filled(k, budget).ops; ops[0] + {10} == ops[0] && |ops[0]| <= budget
  {
    var hi := 10 + if k < budget then k else budget;
    assert Between(10, 10, hi);
    SpanSize(10, hi);
  }

  /** Two operations test for a new block each when there is room for one. */
  lemma {:induction false} Overflow(budget: nat, size: nat) returns (r: Racy)
    requires 1 <= budget && 2 <= size && Room(size) < 10 + 2 * budget
    ensures Reaches(r, budget, size) && |r.s.blocks| == Room(size) + 1
  {
    hide Reaches, Settled, Filled;
    var n := Room(size) - 1;
    if n <= 10 {
      SecondBegins(n, budget, size);
      r := BothAppend(TwoIdle(n), n, budget, size);
    } else {
      var low := if budget <= 11 then budget - 1 else 10;
      FillsLog(n - 10, low, size);
      ReachesMore(Settled(Filled(n - 10, low)), low, budget, size);
      FilledSlack(n - 10, low, budget);
      FilledSize(n - 10, low);
      r := BothAppend(Filled(n - 10, low), n, budget, size);
    }
  }

  /** Two operations, each with a block to go. */
  predicate Slack(s: State, budget: nat) { |s.ops| == 2 && |s.ops[0]| < budget && |s.ops[1]| < budget }

  lemma {:induction false} FilledSlack(k: nat, low: nat, budget: nat)
    requires low < budget && k <= 2 * low
    ensures Slack(Filled(k, low), budget)
  {
    SpanSize(10, 10 + if k < low then k else low);
    SpanSize(10 + low, 10 + if k < low then low else k);
  }

  lemma {:induction false} BothAppend(s: State, n: nat, budget: nat, size: nat) returns (r: Racy)
    requires Reaches(Settled(s), budget, size) && Slack(s, budget) && s.blocks == Upto(n) && Guard(s, size)
    ensures Reaches(r, budget, size) && |r.s.blocks| == n + 2
  {
    hide Reaches;
    var r0 := Settled(s);
    var r1 := Racy(s, [Some(n), None]);
    var r2 := Racy(s, [Some(n), Some(n + 1)]);
    assert r0.passed == [None, None];
    assert DoAct(r0, Check(0, n)) == r1 && DoAct(r1, Check(1, n + 1)) == r2;
    ReachAct(r0, Check(0, n), budget, size);
    ReachAct(r1, Check(1, n + 1), budget, size);
    ReachAct(r2, Append(0), budget, size);
    var r3 := DoAct(r2, Append(0));
    assert n !in s.blocks && r3.s.blocks == s.blocks + [n] && r3.passed == [None, Some(n + 1)];
    ReachAct(r3, Append(1), budget, size);
    r := DoAct(r3, Append(1));
    assert n + 1 !in r3.s.blocks;
  }

  // ----- when the test is right -----

  lemma {:induction false} Bound(acts: seq<Act>, budget: nat, size: nat)
    requires RacyRun(acts, budget, size) && budget <= MAXOPBLOCKS
    ensures |AfterActs(acts).s.blocks| <= 10 + 2 * budget
    ensures budget == 0 ==> AfterActs(acts).s.blocks == []
  {
    RacyIsPlain(acts, budget, size);
    var s := AfterActs(acts).s;
    var steps :| Run(steps, budget) && After(steps) == s;
    RunKeepsInv(steps, budget);
    UnusedBounds(s.ops, budget);
    if budget == 0 { NothingLogged(steps); }
  }

  lemma {:induction false} NothingLogged(steps: seq<Step>)
    requires Run(steps, 0)
    ensures After(steps).blocks == []
  {
    if steps != [] {
      NothingLogged(steps[..|steps| - 1]);
      var s, step := After(steps[..|steps| - 1]), steps[|steps| - 1];
      forall op: nat, bn: nat ensures !Enabled(s, Write(op, bn), 0) { NoWrite(s, op, bn); }
    }
  }

  lemma {:induction false} NoWrite(s: State, op: nat, bn: nat)
    ensures !Enabled(s, Write(op, bn), 0)
  {
    if op < |s.ops| { assert bn in s.ops[op] + {bn}; }
  }

  /** The panic in log_write is unreachable, whatever the size of the log on disk, if and only if
      operations log nothing, or fewer than MAXOPBLOCKS distinct blocks each with two times that
      many and 11 more still short of the log's size.  For the log mkfs makes, of LOGSIZE blocks,
      that is: fewer than MAXOPBLOCKS.  A bigger log does not help at MAXOPBLOCKS. */
  lemma {:induction false} GuardExact(budget: nat, size: nat)
    ensures NeverPanics(budget, size) <==> budget == 0 || (budget < MAXOPBLOCKS && 11 + 2 * budget < size)
    ensures NeverPanics(budget, LOGSIZE) <==> budget < MAXOPBLOCKS
  {
    GuardAt(budget, size);
    GuardAt(budget, LOGSIZE);
  }

  lemma {:induction false} GuardAt(budget: nat, size: nat)
    ensures NeverPanics(budget, size) <==> budget == 0 || (budget < MAXOPBLOCKS && 11 + 2 * budget < size)
  {
    if budget == 0 || (budget < MAXOPBLOCKS && 11 + 2 * budget < size) {
      forall acts, op: nat, bn: nat | RacyRun(acts, budget, size) && Asks(AfterActs(acts), op, bn, budget)
        ensures Guard(AfterActs(acts).s, size)
      {
        Bound(acts, budget, size);
        NoWrite(AfterActs(acts).s, op, bn);
      }
    } else {
      var low := if budget < MAXOPBLOCKS then budget else MAXOPBLOCKS;
      var r, op, bn := FullLogPanics(low, size);
      ReachesMore(r, low, budget, size);
      var acts :| RacyRun(acts, budget, size) && AfterActs(acts) == r;
      assert Asks(AfterActs(acts), op, bn, budget);
    }
  }

  /** Testing before log.lock is taken lets two operations into the last free block.  What is
      logged stays within the header and the log on disk if and only if no operation logs
      anything, or nothing passes the test, or MAXOPBLOCKS blocks and two operations' worth more
      fit.  For the log mkfs makes that is, again: fewer than MAXOPBLOCKS blocks per operation. */
  lemma {:induction false} OverflowExact(budget: nat, size: nat)
    requires size >= 1
    ensures NeverOverflows(budget, size) <==>
      budget == 0 || size == 1 || (budget <= MAXOPBLOCKS && 10 + 2 * budget < size)
    ensures NeverOverflows(budget, LOGSIZE) <==> budget < MAXOPBLOCKS
  {
    OverflowAt(budget, size);
    OverflowAt(budget, LOGSIZE);
  }

  lemma {:induction false} OverflowAt(budget: nat, size: nat)
    requires size >= 1
    ensures NeverOverflows(budget, size) <==>
      budget == 0 || size == 1 || (budget <= MAXOPBLOCKS && 10 + 2 * budget < size)
  {
    if budget == 0 || size == 1 || (budget <= MAXOPBLOCKS && 10 + 2 * budget < size) {
      forall acts | RacyRun(acts, budget, size) ensures InLog(AfterActs(acts).s, size) {
        if size == 1 { NothingPasses(acts, budget); } else { Bound(acts, budget, size); }
      }
    } else {
      var r := Overflow(budget, size);
      var acts :| RacyRun(acts, budget, size) && AfterActs(acts) == r;
      assert !InLog(AfterActs(acts).s, size);
    }
  }

  lemma {:induction false} NothingPasses(acts: seq<Act>, budget: nat)
    requires RacyRun(acts, budget, 1)
    ensures Untouched(AfterActs(acts))
  {
    hide CanAct, DoAct;
    if acts != [] {
      NothingPasses(acts[..|acts| - 1], budget);
      UntouchedStep(AfterActs(acts[..|acts| - 1]), acts[|acts| - 1], budget);
    }
  }

  /** Nothing is logged and nobody is about to. */
  predicate Untouched(r: Racy) { r.s.blocks == [] && forall i :: 0 <= i < |r.passed| ==> r.passed[i].None? }

  lemma {:induction false} UntouchedStep(r: Racy, a: Act, budget: nat)
    requires Untouched(r) && CanAct(r, a, budget, 1)
    ensures Untouched(DoAct(r, a))
  {
  }
}
