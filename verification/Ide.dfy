/** The IDE request queue (ide.c), against the synchronous disk of memide.c.  The device carries out
    one command at a time and interrupts once when it is done. */
module Ide {
  import opened Common
  import opened Blocks

  datatype Buf = Buf(blockno: nat, valid: bool, dirty: bool, data: Block)

  /** B_VALID without B_DIRTY is what iderw waits for. */
  predicate Needy(b: Buf) { !b.valid || b.dirty }

  datatype Command = Read(blockno: nat) | Write(blockno: nat, data: Block)

  /** What idestart tells the device: the data of a write goes to it now. */
  function CommandFor(b: Buf): Command { if b.dirty then Write(b.blockno, b.data) else Read(b.blockno) }

  /** Disk and buffers. */
  datatype World = World(disk: seq<Block>, bufs: seq<Buf>)

  /** iderw of memide.c: the whole transfer at once. */
  function Transfer(w: World, i: nat): World
    requires i < |w.bufs| && w.bufs[i].blockno < |w.disk|
  {
    var b := w.bufs[i];
    if b.dirty then World(w.disk[b.blockno := b.data], w.bufs[i := b.(valid := true, dirty := false)])
    else World(w.disk, w.bufs[i := b.(valid := true, data := w.disk[b.blockno])])
  }

  function At(q: seq<nat>, k: nat): Option<nat> { if k < |q| then Some(q[k]) else None }

  ghost predicate LinkAt(qnext: seq<Option<nat>>, q: seq<nat>, k: nat) {
    k < |q| ==> q[k] < |qnext| && qnext[q[k]] == At(q, k + 1)
  }

  /** head and the qnext pointers form the queue q. */
  ghost predicate Queued(head: Option<nat>, qnext: seq<Option<nat>>, q: seq<nat>) {
    && head == At(q, 0) && (forall k {:trigger LinkAt(qnext, q, k)} :: LinkAt(qnext, q, k))
    && forall k, l :: 0 <= k < l < |q| ==> q[k] != q[l]
  }

  ghost predicate Pending(w: World, q: seq<nat>) {
    forall k :: 0 <= k < |q| ==> q[k] < |w.bufs| && Needy(w.bufs[q[k]]) && w.bufs[q[k]].blockno < |w.disk|
  }

  lemma {:induction false} Appended(head: Option<nat>, qnext: seq<Option<nat>>, q: seq<nat>, i: nat)
    requires Queued(head, qnext, q) && i < |qnext| && i !in q
    ensures q == [] ==> Queued(Some(i), qnext[i := None], [i])
    ensures q != [] ==> q[|q| - 1] < |qnext| && Queued(head, qnext[i := None][q[|q| - 1] := Some(i)], q + [i])
  {
    if q != [] {
      var last, q' := q[|q| - 1], q + [i];
      assert LinkAt(qnext, q, |q| - 1);
      var qnext' := qnext[i := None][last := Some(i)];
      forall k: nat ensures LinkAt(qnext', q', k) { assert LinkAt(qnext, q, k); }
    }
  }

  lemma {:induction false} Removed(head: Option<nat>, qnext: seq<Option<nat>>, q: seq<nat>)
    requires Queued(head, qnext, q) && q != []
    ensures q[0] < |qnext| && Queued(qnext[q[0]], qnext, q[1..])
  {
    assert LinkAt(qnext, q, 0);
    forall k: nat ensures LinkAt(qnext, q[1..], k) { assert LinkAt(qnext, q, k + 1); }
  }

  class Disk {
    var disk: seq<Block>
    var bufs: seq<Buf>
    var qnext: seq<Option<nat>>
    var idequeue: Option<nat>
    /** The command the device is working on. */
    var active: Option<Command>
    ghost var q: seq<nat>

    ghost function W(): World
      reads this`disk, this`bufs
    { World(disk, bufs) }

    /** The first queued buffer is the active request, with the data its buffer still has. */
    ghost predicate Inv()
      reads this
    {
      && |qnext| == |bufs| && Queued(idequeue, qnext, q) && Pending(W(), q)
      && active == if q == [] then None else Some(CommandFor(bufs[q[0]]))
    }

    /** iderw up to its wait, by the holder of the buffer's sleep lock: nobody has the buffer in the
        queue.  Nothing is transferred yet. */
    method Submit(i: nat)
      requires Inv() && i < |bufs| && i !in q && Needy(bufs[i]) && bufs[i].blockno < |disk|
      modifies this`qnext, this`idequeue, this`active, this`q
      ensures Inv() && q == old(q) + [i]
    {
      Appended(idequeue, qnext, q, i);
      qnext := qnext[i := None];
      var pp, cur := None, idequeue;
      ghost var k := 0;
      while cur.Some?
        invariant 0 <= k <= |q| && cur == At(q, k) && pp == if k == 0 then None else Some(q[k - 1])
        decreases |q| - k
      {
        assert LinkAt(old(qnext), q, k);
        pp, cur, k := cur, qnext[cur.value], k + 1;
      }
      if pp.None? {
        idequeue := Some(i);
      } else {
        qnext := qnext[pp.value := Some(i)];
      }
      q := q + [i];
      if idequeue == Some(i) { active := Some(CommandFor(bufs[i])); }
    }

    /** The device finishes its command and interrupts; ideintr takes the request off the queue and
        starts the next.  The effect is that of memide's iderw on the head of the queue. */
    method Interrupt()
      requires Inv()
      modifies this
      ensures Inv() && (old(q) == [] ==> W() == old(W()) && q == [])
      ensures old(q) != [] ==> q == old(q)[1..] && W() == Transfer(old(W()), old(q)[0]) && !Needy(bufs[old(q)[0]])
      ensures old(q) != [] ==> var i := old(q)[0]; var b := old(bufs)[i];
        && i < |bufs| && bufs == old(bufs)[i := bufs[i]] && bufs[i].blockno == b.blockno < |disk|
        && bufs[i].data == disk[b.blockno]
        && (b.dirty ==> bufs[i].data == b.data && disk == old(disk)[b.blockno := b.data])
        && (!b.dirty ==> disk == old(disk))
    {
      if active.Some? && active.value.Write? { disk := disk[active.value.blockno := active.value.data]; }
      if idequeue.None? { return; }
      Removed(idequeue, qnext, q);
      var i := idequeue.value;
      idequeue := qnext[i];
      if !bufs[i].dirty { bufs := bufs[i := bufs[i].(data := disk[bufs[i].blockno])]; }
      bufs := bufs[i := bufs[i].(valid := true)];
      bufs := bufs[i := bufs[i].(dirty := false)];
      q := q[1..];
      active := if idequeue.Some? then Some(CommandFor(bufs[idequeue.value])) else None;
    }
  }

  // ----- runs -----

  /** A holder of a buffer's lock may change a buffer that is not queued. */
  datatype Event = Submit(i: nat) | Interrupt | Own(i: nat, b: Buf)

  datatype State = State(w: World, q: seq<nat>)

  ghost predicate Enabled(s: State, e: Event) {
    match e
    case Submit(i) => i < |s.w.bufs| && i !in s.q && Needy(s.w.bufs[i]) && s.w.bufs[i].blockno < |s.w.disk|
    case Interrupt => Pending(s.w, s.q)
    case Own(i, b) => i < |s.w.bufs| && i !in s.q
  }

  /** What the methods of Disk do, as their contracts say. */
  function Do(s: State, e: Event): State
    requires Enabled(s, e)
  {
    match e
    case Submit(i) => s.(q := s.q + [i])
    case Interrupt => if s.q == [] then s else State(Transfer(s.w, s.q[0]), s.q[1..])
    case Own(i, b) => s.(w := s.w.(bufs := s.w.bufs[i := b]))
  }

  ghost predicate Run(ss: seq<State>, es: seq<Event>) {
    && |ss| == |es| + 1 && ss[0].q == []
    && forall k :: 0 <= k < |es| ==> Enabled(ss[k], es[k]) && ss[k + 1] == Do(ss[k], es[k])
  }

  /** The same run on the synchronous disk: submitting does nothing, and the interrupt for a request
      is the call of iderw. */
  datatype Call = Call(i: nat) | Change(i: nat, b: Buf)

  function Calls(ss: seq<State>, es: seq<Event>, k: nat): (cs: seq<Call>)
    requires |ss| == |es| + 1 && k <= |es|
  {
    if k == 0 then []
    else
      var cs := Calls(ss, es, k - 1);
      match es[k - 1]
      case Submit(i) => cs
      case Interrupt => if ss[k - 1].q == [] then cs else cs + [Call(ss[k - 1].q[0])]
      case Own(i, b) => cs + [Change(i, b)]
  }

  predicate Fits(w: World, c: Call) {
    c.i < |w.bufs| && (c.Call? ==> w.bufs[c.i].blockno < |w.disk| && Needy(w.bufs[c.i]))
  }

  /** The synchronous disk after those calls; None if memide's iderw would refuse one. */
  function Synchronous(w: World, cs: seq<Call>): (r: Option<World>) {
    if cs == [] then Some(w)
    else
      var v, c := Synchronous(w, cs[..|cs| - 1]), cs[|cs| - 1];
      if v.None? || !Fits(v.value, c) then None
      else if c.Call? then Some(Transfer(v.value, c.i))
      else Some(v.value.(bufs := v.value.bufs[c.i := c.b]))
  }

  function Submitted(es: seq<Event>): (r: seq<nat>) {
    if es == [] then []
    else
      var r := Submitted(es[..|es| - 1]);
      if es[|es| - 1].Submit? then r + [es[|es| - 1].i] else r
  }

  function Called(cs: seq<Call>): (r: seq<nat>) {
    if cs == [] then []
    else
      var r := Called(cs[..|cs| - 1]);
      if cs[|cs| - 1].Call? then r + [cs[|cs| - 1].i] else r
  }

  lemma {:induction false} Snoc(w: World, cs: seq<Call>, c: Call)
    ensures Called(cs + [c]) == if c.Call? then Called(cs) + [c.i] else Called(cs)
    ensures var v := Synchronous(w, cs); v.Some? && Fits(v.value, c) ==>
      Synchronous(w, cs + [c]) ==
        Some(if c.Call? then Transfer(v.value, c.i) else v.value.(bufs := v.value.bufs[c.i := c.b]))
  {
    assert (cs + [c])[..|cs|] == cs;
  }

  ghost predicate Good(s: State) { Pending(s.w, s.q) && forall a, b :: 0 <= a < b < |s.q| ==> s.q[a] != s.q[b] }

  lemma {:induction false} StepKeepsGood(s: State, e: Event)
    requires Good(s) && Enabled(s, e)
    ensures Good(Do(s, e))
  {
  }

  /** What is queued is waiting, and queued once; so an interrupt always finds a request that
      fits. */
  lemma {:induction false} RunKeepsGood(ss: seq<State>, es: seq<Event>, k: nat)
    requires Run(ss, es) && k <= |es|
    ensures Good(ss[k])
    decreases k
  {
    hide Transfer;
    if k > 0 {
      RunKeepsGood(ss, es, k - 1);
      assert Enabled(ss[k - 1], es[k - 1]) && ss[k] == Do(ss[k - 1], es[k - 1]);
      StepKeepsGood(ss[k - 1], es[k - 1]);
    }
  }

  /** Refinement: every run of the queue is a run of the synchronous disk in which each request is
      called once, in the order submitted; the requests submitted are those called followed by
      those still queued. */
  lemma {:induction false} QueueRefinesMemide(ss: seq<State>, es: seq<Event>, k: nat)
    requires Run(ss, es) && k <= |es|
    ensures Synchronous(ss[0].w, Calls(ss, es, k)) == Some(ss[k].w)
    ensures Submitted(es[..k]) == Called(Calls(ss, es, k)) + ss[k].q
    decreases k
  {
    hide Synchronous, Called, Transfer, Pending;
    if k == 0 {
      SynchronousNothing(ss[0].w);
    } else {
      var s, e, cs := ss[k - 1], es[k - 1], Calls(ss, es, k - 1);
      QueueRefinesMemide(ss, es, k - 1);
      RunKeepsGood(ss, es, k - 1);
      assert Enabled(s, e) && ss[k] == Do(s, e) && es[..k][..k - 1] == es[..k - 1];
      match e
      case Submit(i) => assert (Called(cs) + s.q) + [i] == Called(cs) + (s.q + [i]);
      case Interrupt =>
        if s.q != [] {
          HeadFits(s);
          Snoc(ss[0].w, cs, Call(s.q[0]));
          assert Called(cs) + s.q == (Called(cs) + [s.q[0]]) + s.q[1..];
        }
      case Own(i, b) => Snoc(ss[0].w, cs, Change(i, b));
    }
  }

  lemma {:induction false} SynchronousNothing(w: World)
    ensures Synchronous(w, []) == Some(w) && Called([]) == []
  {
  }

  lemma {:induction false} HeadFits(s: State)
    requires Good(s) && s.q != []
    ensures Fits(s.w, Call(s.q[0]))
  {
  }
}
