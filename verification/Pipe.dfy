/** Pipes (pipe.c): a 512-byte ring indexed by two 32-bit counters that wrap.  Each method is
    what one process does between acquiring p->lock and giving it up again, by returning or
    by going to sleep; processes interleave at those points. */
module Pipe {
  import opened Common

  const PIPESIZE: nat := 512

  /** How a critical section ended. */
  datatype Outcome = Returned | Failed | Sleeping

  function Min(a: int, b: int): int { if a < b then a else b }

  // ----- the ring -----

  /** data, nread and nwrite of struct pipe. */
  datatype Ring = Ring(data: seq<byte>, nread: nat, nwrite: nat)

  function Empty(): (r: Ring)
    ensures |r.data| == PIPESIZE
  { Ring(seq(512, _ => 0), 0, 0) }

  predicate Full(r: Ring) { r.nwrite == (r.nread + PIPESIZE) % U32 }

  /** p->data[p->nwrite++ % PIPESIZE] = c. */
  function PutByte(r: Ring, c: byte): Ring
    requires |r.data| == PIPESIZE
  { r.(data := r.data[r.nwrite % PIPESIZE := c], nwrite := (r.nwrite + 1) % U32) }

  /** p->nread++. */
  function Advanced(r: Ring): Ring { r.(nread := (r.nread + 1) % U32) }

  /** The ring after one critical section of pipewrite, and how many bytes it took in. */
  function Pour(r: Ring, bytes: seq<byte>): (x: (Ring, nat))
    requires |r.data| == PIPESIZE
    ensures |x.0.data| == PIPESIZE && x.1 <= |bytes|
    decreases |bytes|
  {
    if bytes == [] || Full(r) then (r, 0)
    else
      var y := Pour(PutByte(r, bytes[0]), bytes[1..]);
      (y.0, y.1 + 1)
  }

  lemma {:induction false} PourNone(r: Ring, bytes: seq<byte>)
    requires |r.data| == PIPESIZE && bytes == []
    ensures Pour(r, bytes) == (r, 0)
  {
  }

  lemma {:induction false} PourOne(r: Ring, bytes: seq<byte>, j: nat)
    requires |r.data| == PIPESIZE && j < |bytes|
    ensures Full(r) ==> Pour(r, bytes[j..]) == (r, 0)
    ensures !Full(r) ==>
      Pour(r, bytes[j..]) ==
        (Pour(PutByte(r, bytes[j]), bytes[j + 1..]).0, Pour(PutByte(r, bytes[j]), bytes[j + 1..]).1 + 1)
  {
    assert bytes[j..][0] == bytes[j] && bytes[j..][1..] == bytes[j + 1..];
  }

  /** The ring after the copy loop of piperead, and the bytes it gave out. */
  function Drain(r: Ring, n: nat): (x: (Ring, seq<byte>))
    requires |r.data| == PIPESIZE
    ensures |x.0.data| == PIPESIZE && |x.1| <= n
    decreases n
  {
    if n == 0 || r.nread == r.nwrite then (r, [])
    else
      var y := Drain(Advanced(r), n - 1);
      (y.0, [r.data[r.nread % PIPESIZE]] + y.1)
  }

  /** One critical section of some process; closing an end leaves the ring alone. */
  datatype Event = Write(bytes: seq<byte>) | Read(n: nat) | Close(writable: bool)

  /** The ring, all bytes taken in and all bytes given out so far. */
  datatype Trace = Trace(ring: Ring, ins: seq<byte>, outs: seq<byte>)

  // ----- what the ring stands for -----

  /** Where byte k of the stream goes in the ring. */
  function Slot(k: nat): (i: nat)
    ensures i < PIPESIZE
  { k % PIPESIZE }

  /** The ring holds the bytes that came in and have not gone out, and what has gone out is what
      came in first. */
  ghost predicate Represents(r: Ring, ins: seq<byte>, outs: seq<byte>) {
    && |r.data| == PIPESIZE && outs <= ins && |ins| - |outs| <= PIPESIZE
    && r.nread == |outs| % U32 && r.nwrite == |ins| % U32
    && forall k :: |outs| <= k < |ins| ==> r.data[Slot(k)] == ins[k]
  }

  lemma {:induction false} Tick(k: nat)
    ensures (k % U32 + 1) % U32 == (k + 1) % U32
  {
  }

  /** The counters are the stream lengths modulo 2^32.  The tests of pipe.c on them see
      exactly whether the ring is empty or full. */
  lemma {:induction false} CountersTell(r: nat, w: nat)
    requires r <= w <= r + PIPESIZE
    ensures (w % U32 == r % U32) <==> w == r
    ensures (w % U32 == (r % U32 + PIPESIZE) % U32) <==> w == r + PIPESIZE
  {
    assert w == w / U32 * U32 + w % U32 && r == r / U32 * U32 + r % U32;
  }

  /** PIPESIZE divides 2^32, so wrapping does not disturb the slots. */
  lemma {:induction false} SlotOfCounter(k: nat)
    ensures k % U32 % PIPESIZE == Slot(k)
  {
    assert k == k / U32 * U32 + k % U32 && U32 == 8388608 * PIPESIZE;
  }

  /** Fewer than PIPESIZE apart, positions have different slots. */
  lemma {:induction false} RingSlots(r: nat, w: nat)
    requires r <= w < r + PIPESIZE
    ensures forall k :: r <= k < w ==> Slot(k) != Slot(w)
  {
    forall k | r <= k < w ensures Slot(k) != Slot(w) {
      assert k == k / PIPESIZE * PIPESIZE + k % PIPESIZE && w == w / PIPESIZE * PIPESIZE + w % PIPESIZE;
    }
  }

  lemma {:induction false} Tells(r: Ring, ins: seq<byte>, outs: seq<byte>)
    requires Represents(r, ins, outs)
    ensures Full(r) <==> |ins| - |outs| == PIPESIZE
    ensures r.nread == r.nwrite <==> |ins| == |outs|
  {
    CountersTell(|outs|, |ins|);
  }

  lemma {:induction false} PutKeeps(r: Ring, ins: seq<byte>, outs: seq<byte>, c: byte)
    requires Represents(r, ins, outs) && !Full(r)
    ensures Represents(PutByte(r, c), ins + [c], outs)
  {
    Tells(r, ins, outs);
    RingSlots(|outs|, |ins|);
    SlotOfCounter(|ins|);
    Tick(|ins|);
    hide Slot;
  }

  lemma {:induction false} GetKeeps(r: Ring, ins: seq<byte>, outs: seq<byte>)
    requires Represents(r, ins, outs) && r.nread != r.nwrite
    ensures Represents(Advanced(r), ins, outs + [r.data[r.nread % PIPESIZE]])
  {
    Tells(r, ins, outs);
    SlotOfCounter(|outs|);
    Tick(|outs|);
    hide Slot;
    assert outs + [r.data[r.nread % PIPESIZE]] == ins[..|outs| + 1];
  }

  lemma {:induction false} PourKeeps(r: Ring, ins: seq<byte>, outs: seq<byte>, bytes: seq<byte>)
    requires Represents(r, ins, outs)
    ensures var x := Pour(r, bytes);
      x.1 == Min(|bytes|, PIPESIZE - (|ins| - |outs|)) && Represents(x.0, ins + bytes[..x.1], outs)
    decreases |bytes|
  {
    hide Represents;
    Tells(r, ins, outs);
    Lengths(r, ins, outs);
    if bytes == [] || Full(r) {
      assert ins + bytes[..0] == ins;
    } else {
      PutKeeps(r, ins, outs, bytes[0]);
      PourKeeps(PutByte(r, bytes[0]), ins + [bytes[0]], outs, bytes[1..]);
      var m := Pour(r, bytes).1;
      assert ins + [bytes[0]] + bytes[1..][..m - 1] == ins + bytes[..m];
    }
  }

  lemma {:induction false} DrainKeeps(r: Ring, ins: seq<byte>, outs: seq<byte>, n: nat)
    requires Represents(r, ins, outs)
    ensures var x := Drain(r, n); |x.1| == Min(n, |ins| - |outs|) && Represents(x.0, ins, outs + x.1)
    decreases n
  {
    hide Represents;
    Tells(r, ins, outs);
    Lengths(r, ins, outs);
    if n == 0 || r.nread == r.nwrite {
      assert outs + [] == outs;
    } else {
      var c := r.data[r.nread % PIPESIZE];
      GetKeeps(r, ins, outs);
      DrainKeeps(Advanced(r), ins, outs + [c], n - 1);
      var s := Drain(Advanced(r), n - 1).1;
      assert outs + [c] + s == outs + ([c] + s);
    }
  }

  lemma {:induction false} Lengths(r: Ring, ins: seq<byte>, outs: seq<byte>)
    requires Represents(r, ins, outs)
    ensures |r.data| == PIPESIZE && 0 <= |ins| - |outs| <= PIPESIZE
  {
  }

  /** What a critical section adds to a trace. */
  function Step(t: Trace, e: Event): Trace
    requires |t.ring.data| == PIPESIZE
  {
    match e
    case Write(bytes) => var x := Pour(t.ring, bytes); Trace(x.0, t.ins + bytes[..x.1], t.outs)
    case Read(n) => var x := Drain(t.ring, n); Trace(x.0, t.ins, t.outs + x.1)
    case Close(writable) => t
  }

  /** The trace of any interleaving of critical sections on a new pipe. */
  function Run(es: seq<Event>): (r: Trace)
    ensures |r.ring.data| == PIPESIZE
  { if es == [] then Trace(Empty(), [], []) else Step(Run(es[..|es| - 1]), es[|es| - 1]) }

  /** First in, first out: whatever critical sections readers, writers and closers go through, in
      any order, the bytes given out are the first of those taken in, in order; at most PIPESIZE
      are on the way, and the ring holds exactly those. */
  lemma {:induction false} Fifo(es: seq<Event>)
    ensures var t := Run(es);
      Represents(t.ring, t.ins, t.outs) && t.outs <= t.ins && |t.ins| - |t.outs| <= PIPESIZE
  {
    if es != [] {
      Fifo(es[..|es| - 1]);
      var t, e := Run(es[..|es| - 1]), es[|es| - 1];
      match e
      case Write(bytes) => PourKeeps(t.ring, t.ins, t.outs, bytes);
      case Read(n) => DrainKeeps(t.ring, t.ins, t.outs, n);
      case Close(writable) =>
    }
  }

  // ----- the code -----

  class PipeRing {
    const data: array<byte>
    var nread: nat
    var nwrite: nat
    var readopen: bool
    var writeopen: bool
    /** All bytes accepted and all bytes delivered. */
    ghost var ins: seq<byte>
    ghost var outs: seq<byte>

    ghost function R(): Ring
      reads this`nread, this`nwrite, data
    { Ring(data[..], nread, nwrite) }

    ghost predicate Valid()
      reads this, data
    { Represents(R(), ins, outs) }

    /** pipealloc. */
    constructor ()
      ensures Valid() && fresh(data) && R() == Empty() && ins == outs == [] && readopen && writeopen
    {
      data := new byte[PIPESIZE](_ => 0);
      nread, nwrite, readopen, writeopen, ins, outs := 0, 0, true, true, [], [];
      new;
      assert data[..] == Empty().data;
    }

    /** p->data[p->nwrite++ % PIPESIZE] = c. */
    method Put(c: byte)
      requires Valid() && !Full(R())
      modifies this`nwrite, this`ins, data
      ensures Valid() && |old(R()).data| == PIPESIZE && R() == PutByte(old(R()), c) && ins == old(ins) + [c]
    {
      hide Represents;
      Lengths(R(), ins, outs);
      PutKeeps(R(), ins, outs, c);
      ghost var r := R();
      data[nwrite % PIPESIZE] := c;
      nwrite := (nwrite + 1) % U32;
      ins := ins + [c];
      assert R() == PutByte(r, c);
    }

    /** p->data[p->nread++ % PIPESIZE]. */
    method Get() returns (c: byte)
      requires Valid() && nread != nwrite
      modifies this`nread, this`outs
      ensures Valid() && |old(R()).data| == PIPESIZE && c == old(R()).data[old(nread) % PIPESIZE]
      ensures R() == Advanced(old(R())) && outs == old(outs) + [c]
    {
      hide Represents;
      Lengths(R(), ins, outs);
      GetKeeps(R(), ins, outs);
      c := data[nread % PIPESIZE];
      nread := (nread + 1) % U32;
      outs := outs + [c];
    }

    /** pipewrite from byte i of addr on: it fills the ring, and then returns, fails or sleeps with
        byte j next. */
    method WriteStep(addr: seq<byte>, i: nat, killed: bool) returns (j: nat, out: Outcome)
      requires Valid() && i <= |addr|
      modifies this`nwrite, this`ins, data
      ensures Valid() && |old(R()).data| == PIPESIZE && (R(), j - i) == Pour(old(R()), addr[i..])
      ensures i <= j <= |addr| && ins == old(ins) + addr[i..j]
      ensures out == if j == |addr| then Returned else if !readopen || killed then Failed else Sleeping
      ensures j < |addr| ==> |ins| - |outs| == PIPESIZE
    {
      hide Represents, Pour;
      Lengths(R(), ins, outs);
      j := i;
      while j < |addr|
        invariant i <= j <= |addr| && Valid() && ins == old(ins) + addr[i..j] && |R().data| == PIPESIZE
        invariant Pour(old(R()), addr[i..]) == (Pour(R(), addr[j..]).0, j - i + Pour(R(), addr[j..]).1)
      {
        Tells(R(), ins, outs);
        PourOne(R(), addr, j);
        if nwrite == (nread + PIPESIZE) % U32 {
          return j, if !readopen || killed then Failed else Sleeping;
        }
        Put(addr[j]);
        assert addr[i..j + 1] == addr[i..j] + [addr[j]];
        j := j + 1;
      }
      PourNone(R(), addr[j..]);
      out := Returned;
    }

    /** piperead: with the ring empty and writers left it fails or sleeps; else it returns what
        there is, up to n bytes.  Nothing for a positive request means drained and closed for
        writing. */
    method ReadStep(n: nat, killed: bool) returns (r: seq<byte>, out: Outcome)
      requires Valid()
      modifies this`nread, this`outs
      ensures Valid() && outs == old(outs) + r && |old(R()).data| == PIPESIZE
      ensures out != Returned <==> |ins| == |old(outs)| && writeopen
      ensures out != Returned ==> r == [] && R() == old(R()) && out == if killed then Failed else Sleeping
      ensures out == Returned ==> (R(), r) == Drain(old(R()), n)
      ensures out == Returned && n > 0 && r == [] ==> |ins| == |outs| && !writeopen
    {
      hide Represents;
      Lengths(R(), ins, outs);
      Tells(R(), ins, outs);
      r := [];
      if nread == nwrite && writeopen {
        return [], if killed then Failed else Sleeping;
      }
      assert [] + Drain(R(), n).1 == Drain(R(), n).1;
      while |r| < n
        invariant Valid() && |r| <= n && outs == old(outs) + r && |R().data| == PIPESIZE
        invariant Drain(old(R()), n) == (Drain(R(), n - |r|).0, r + Drain(R(), n - |r|).1)
      {
        Tells(R(), ins, outs);
        if nread == nwrite { break; }
        ghost var q := R();
        var c := Get();
        assert r + Drain(q, n - |r|).1 == r + [c] + Drain(R(), n - |r| - 1).1;
        r := r + [c];
      }
      assert r + [] == r;
      out := Returned;
    }

    /** pipeclose; freed tells whether the pipe's page is given back. */
    method Close(writable: bool) returns (freed: bool)
      requires Valid()
      modifies this`readopen, this`writeopen
      ensures Valid() && R() == old(R())
      ensures writeopen == (old(writeopen) && !writable) && readopen == (old(readopen) && writable)
      ensures freed <==> !readopen && !writeopen
    {
      if writable { writeopen := false; } else { readopen := false; }
      freed := !readopen && !writeopen;
    }
  }
}
