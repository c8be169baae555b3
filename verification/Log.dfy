/** The logging layer (log.c) on top of the buffer cache. */
module Log {
  import opened Common
  import opened Blocks
  import opened LogSpec
  import opened BufferCache
  import Reservation

  /** A sequence of writes about to be made, with the trace, the disk and the newest block
      contents at the moment it starts. */
  datatype Plan = Plan(t: seq<Write>, d: Disk, v: Disk, ws: seq<Write>)

  /** The first k writes of the plan are on disk and on the trace. */
  ghost predicate OnDisk(p: Plan, k: nat, t: seq<Write>, d: Disk) {
    k <= |p.ws| && t == p.t + p.ws[..k] && d == Apply(p.d, p.ws[..k])
  }

  /** ... and the cache has seen the same writes. */
  ghost predicate Reached(p: Plan, k: nat, t: seq<Write>, d: Disk, v: Disk) {
    OnDisk(p, k, t, d) && v == Apply(p.v, p.ws[..k])
  }

  /** Some prefix of the plan, and nothing else, is on disk. */
  ghost predicate Cut(p: Plan, t: seq<Write>, d: Disk) { exists k :: OnDisk(p, k, t, d) }

  lemma {:induction false} CutApplied(p: Plan, t: seq<Write>, d: Disk)
    requires Cut(p, t, d)
    ensures p.t <= t && d == Apply(p.d, t[|p.t|..])
  {
    var k: nat :| OnDisk(p, k, t, d);
    assert t[|p.t|..] == p.ws[..k];
  }

  lemma {:induction false} Start(p: Plan)
    ensures Reached(p, 0, p.t, p.d, p.v)
  {
    assert p.ws[..0] == [];
  }

  lemma {:induction false} Advance(p: Plan, k: nat, t: seq<Write>, d: Disk, v: Disk)
    requires Reached(p, k, t, d, v)
    ensures Cut(p, t, d)
    ensures k < |p.ws| ==> var w := p.ws[k];
      Reached(p, k + 1, t + [w], d[w.blockno := w.data], v[w.blockno := w.data])
  {
    if k < |p.ws| {
      assert p.ws[..k + 1] == p.ws[..k] + [p.ws[k]];
      assert p.ws[..k + 1][..k] == p.ws[..k];
    }
  }

  /** A block no write so far names is as it was. */
  lemma {:induction false} Unwritten(p: Plan, k: nat, t: seq<Write>, d: Disk, v: Disk, b: nat)
    requires Reached(p, k, t, d, v) && b in p.v && forall i :: 0 <= i < k ==> p.ws[i].blockno != b
    ensures b in v && v[b] == p.v[b]
  {
    ApplyFrame(p.v, p.ws[..k], b);
  }

  /** A block last named by write j holds what that write stored. */
  lemma {:induction false} LastWritten(p: Plan, k: nat, t: seq<Write>, d: Disk, v: Disk, j: nat)
    requires j < k && Reached(p, k, t, d, v) && forall i :: j < i < k ==> p.ws[i].blockno != p.ws[j].blockno
    ensures p.ws[j].blockno in v && v[p.ws[j].blockno] == p.ws[j].data
  {
    WrittenValue(p.v, p.ws[..k], j);
  }

  lemma {:induction false} WrittenValue(d: Disk, ws: seq<Write>, j: nat)
    requires j < |ws| && forall i :: j < i < |ws| ==> ws[i].blockno != ws[j].blockno
    ensures ws[j].blockno in Apply(d, ws) && Apply(d, ws)[ws[j].blockno] == ws[j].data
  {
    if j < |ws| - 1 { WrittenValue(d, ws[..|ws| - 1], j); }
  }

  /** The contents v gives to the blocks bs. */
  ghost function Newest(v: Disk, bs: seq<nat>): (cs: seq<Block>)
    requires forall i :: 0 <= i < |bs| ==> bs[i] in v
    ensures |cs| == |bs|
  {
    seq(|bs|, i requires 0 <= i < |bs| => v[bs[i]])
  }

  /** The body shared by the loops of write_log (toLog) and install_trans: read log block lb
      and home block hb, copy one to the other through the cache and write it to disk. */
  method CopyBlock(cache: Cache, lb: nat, hb: nat, toLog: bool, me: nat) returns (ok: bool)
    requires cache.Valid() && cache.Holds(me, {}) && lb in cache.disk && hb in cache.disk && lb != hb
    modifies cache
    ensures cache.Valid() && cache.disk.Keys == old(cache.disk).Keys
    ensures !ok ==>
      cache.disk == old(cache.disk) && cache.trace == old(cache.trace) && cache.Pinned() == old(cache.Pinned())
    ensures ok ==>
      var src, dst := if toLog then hb else lb, if toLog then lb else hb;
      var data := old(cache.Contents())[src];
      && cache.Holds(me, {}) && cache.Contents() == old(cache.Contents())[dst := data]
      && cache.disk == old(cache.disk)[dst := data] && cache.trace == old(cache.trace) + [Write(dst, data)]
      && cache.Pinned() == old(cache.Pinned()) - {dst}
    ensures !ok ==> cache.Crowded(me)
  {
    hide Cache.Valid, Cache.Contents, Cache.Pinned, Cache.Crowded;
    var l := cache.Bread(lb, me, {});
    if l.None? { return false; }
    var h := cache.Bread(hb, me, {l.value});
    if h.None? { return false; }
    var src, dst := if toLog then h.value else l.value, if toLog then l.value else h.value;
    assert {} + {l.value} == {l.value} && {l.value} + {h.value} == {src, dst};
    CopyHeld(cache, src, dst, me);
    return true;
  }

  /** The rest, with both buffers held: copy, write to disk and release. */
  method CopyHeld(cache: Cache, src: nat, dst: nat, me: nat)
    requires cache.Valid() && src < NBUF && dst < NBUF && src != dst && cache.Holds(me, {src, dst})
      && cache.unlogged == {}
    modifies cache
    ensures cache.Valid() && cache.Holds(me, {}) && cache.disk.Keys == old(cache.disk).Keys
    ensures var bn, data := old(cache.buf)[dst].blockno, old(cache.buf)[src].data;
      && cache.Contents() == old(cache.Contents())[bn := data] && cache.disk == old(cache.disk)[bn := data]
      && cache.trace == old(cache.trace) + [Write(bn, data)] && cache.Pinned() == old(cache.Pinned()) - {bn}
  {
    hide Cache.Valid, Cache.Contents, Cache.Pinned, Cache.Holds;
    cache.WriteThrough(dst, cache.buf[src].data, me, {src, dst});
    cache.Brelse(src, me, {src, dst});
    assert {src, dst} - {src} == {dst} && {dst} - {dst} == {};
    cache.Brelse(dst, me, {dst});
  }

  /** Store data into the one buffer held, write it to disk and release it. */
  method WriteAndRelease(cache: Cache, b: nat, data: Block, me: nat)
    requires cache.Valid() && b < NBUF && cache.Holds(me, {b}) && cache.unlogged == {}
    modifies cache
    ensures cache.Valid() && cache.Holds(me, {}) && cache.disk.Keys == old(cache.disk).Keys
    ensures var bn := old(cache.buf)[b].blockno;
      && cache.Contents() == old(cache.Contents())[bn := data] && cache.disk == old(cache.disk)[bn := data]
      && cache.trace == old(cache.trace) + [Write(bn, data)] && cache.Pinned() == old(cache.Pinned()) - {bn}
  {
    hide Cache.Valid, Cache.Contents, Cache.Pinned, Cache.Holds;
    cache.WriteThrough(b, data, me, {b});
    cache.Brelse(b, me, {b});
    assert {b} - {b} == {};
  }

  class Logger {
    const cache: Cache
    const g: Geometry
    var n: nat             // lh.n
    var block: seq<word>   // lh.block
    var outstanding: nat
    var committing: bool
    /** The distinct blocks each outstanding operation has logged. */
    ghost var ops: seq<set<nat>>

    ghost predicate Shape()
      reads this`n, this`block, cache
    {
      && cache.Valid() && g.Fits(cache.disk)
      && |block| == LOGSIZE && n <= LOGSIZE && n < g.size
      && (forall i :: 0 <= i < n ==> block[i] in cache.disk && !g.InLog(block[i]))
    }

    constructor (c: Cache, geo: Geometry)
      ensures cache == c && g == geo && n == 0 && |block| == LOGSIZE && outstanding == 0 && !committing && ops == []
    {
      cache, g, n, block, outstanding, committing, ops := c, geo, 0, seq(LOGSIZE, _ => 0), 0, false, [];
    }

    lemma {:induction false} ShapeSays()
      requires Shape()
      ensures cache.Valid() && n <= LOGSIZE == |block| && forall i :: 0 <= i < n ==>
        block[i] in cache.disk && !g.InLog(block[i])
    {
    }

    lemma {:induction false} NoneUnlogged(me: nat)
      requires Shape() && cache.Holds(me, {})
      ensures cache.unlogged == {} && g.InLog(g.start) && g.start in cache.disk
    {
      assert g.start in g.Region();
    }

    twostate lemma {:induction false} KeepShape()
      requires old(Shape()) && cache.Valid() && cache.disk.Keys == old(cache.disk).Keys && n == old(n)
        && block == old(block)
      ensures Shape()
    {
    }

    ghost predicate At(p: Plan, k: nat)
      reads cache
    { Reached(p, k, cache.trace, cache.disk, cache.Contents()) }

    /** What was pinned and is not a log block still is; nothing else was pinned. */
    ghost predicate HomePinned(was: set<nat>, now: set<nat>) {
      now <= was && forall b :: b in was && !g.InLog(b) ==> b in now
    }

    lemma {:induction false} StillPinned(was: set<nat>, now: set<nat>, lb: nat)
      requires HomePinned(was, now) && g.InLog(lb)
      ensures HomePinned(was, now - {lb})
    {
    }

    lemma {:induction false} PinnedStart(was: set<nat>)
      ensures HomePinned(was, was)
    {
    }

    /** write_log, as the first n writes of plan p.  The logged blocks stay pinned. */
    method WriteLog(me: nat, ghost p: Plan) returns (ok: bool)
      requires Shape() && cache.Holds(me, {}) && At(p, 0) && n <= |p.ws|
      requires forall i :: 0 <= i < n ==> block[i] in p.v && p.ws[i] == Write(g.start + i + 1, p.v[block[i]])
      modifies cache
      ensures Shape() && cache.disk.Keys == old(cache.disk).Keys && HomePinned(old(cache.Pinned()), cache.Pinned())
      ensures if ok then At(p, n) && cache.Holds(me, {}) else Cut(p, cache.trace, cache.disk)
      ensures !ok ==> cache.Crowded(me)
    {
      hide Cache.Valid, Cache.Contents, Cache.Pinned, Cache.Holds, Reached, Cut, HomePinned, Cache.Crowded;
      PinnedStart(cache.Pinned());
      var tail := 0;
      while tail < n
        invariant 0 <= tail <= n && Shape() && cache.Holds(me, {}) && At(p, tail)
        invariant HomePinned(old(cache.Pinned()), cache.Pinned()) && cache.disk.Keys == old(cache.disk).Keys
      {
        assert g.InLog(g.start + tail + 1);
        StillPinned(old(cache.Pinned()), cache.Pinned(), g.start + tail + 1);
        Unwritten(p, tail, cache.trace, cache.disk, cache.Contents(), block[tail]);
        Advance(p, tail, cache.trace, cache.disk, cache.Contents());
        var copied := CopyBlock(cache, g.start + tail + 1, block[tail], true, me);
        if !copied { return false; }
        tail := tail + 1;
      }
      return true;
    }

    /** The header block write_head stores. */
    method EncodeHead(b: Block) returns (hb: Block)
      requires n <= LOGSIZE == |block|
      ensures hb == PutHeader(b, block[..n])
    {
      hb := SetWord(b, 0, n);
      var i := 0;
      while i < n
        invariant 0 <= i <= n && hb == SetWords(SetWord(b, 0, n), 1, block[..i])
      {
        assert block[..i + 1][..i] == block[..i];
        hb := SetWord(hb, 1 + i, block[i]);
        i := i + 1;
      }
    }

    /** write_head, as write k of plan p.  The logged blocks stay pinned. */
    method WriteHead(me: nat, ghost p: Plan, ghost k: nat) returns (ok: bool)
      requires Shape() && cache.Holds(me, {}) && At(p, k) && k < |p.ws|
      requires g.start in cache.Contents()
        && p.ws[k] == Write(g.start, PutHeader(cache.Contents()[g.start], block[..n]))
      modifies cache
      ensures Shape() && cache.disk.Keys == old(cache.disk).Keys && HomePinned(old(cache.Pinned()), cache.Pinned())
      ensures if ok then At(p, k + 1) && cache.Holds(me, {}) else Cut(p, cache.trace, cache.disk)
      ensures !ok ==> cache.Crowded(me)
    {
      hide Cache.Valid, Cache.Contents, Cache.Pinned, Cache.Holds, PutHeader, Reached, Cut, Shape, HomePinned,
        Cache.Crowded;
      ShapeSays();
      NoneUnlogged(me);
      PinnedStart(cache.Pinned());
      StillPinned(cache.Pinned(), cache.Pinned(), g.start);
      Advance(p, k, cache.trace, cache.disk, cache.Contents());
      var b := cache.Bread(g.start, me, {});
      if b.None? { KeepShape(); return false; }
      assert {} + {b.value} == {b.value};
      var hb := EncodeHead(cache.buf[b.value].data);
      WriteAndRelease(cache, b.value, hb, me);
      KeepShape();
      return true;
    }

    /** The body of install_trans's loop. */
    method InstallBlock(me: nat, ghost p: Plan, ghost k: nat, ghost cs: seq<Block>, tail: nat) returns (ok: bool)
      requires Shape() && cache.Holds(me, {}) && tail < n && At(p, k + tail) && k + n <= |p.ws|
      requires |cs| == n && p.ws[k..k + n] == InstallWrites(block[..n], cs) && g.start in cache.Contents()
      requires forall i :: 0 <= i < n ==> Copies(cs[i], cache.Contents(), i)
      modifies cache
      ensures cache.Valid() && cache.disk.Keys == old(cache.disk).Keys
      ensures ok ==> cache.Pinned() == old(cache.Pinned()) - {block[tail]}
      ensures !ok ==> cache.Pinned() == old(cache.Pinned())
      ensures ok ==> g.start in cache.Contents() && cache.Contents()[g.start] == old(cache.Contents())[g.start]
      ensures ok ==> forall i :: 0 <= i < n ==> Copies(cs[i], cache.Contents(), i)
      ensures if ok then At(p, k + tail + 1) && cache.Holds(me, {}) else Cut(p, cache.trace, cache.disk)
      ensures !ok ==> cache.Crowded(me)
    {
      hide Cache.Valid, Cache.Contents, Cache.Pinned, Cache.Holds, Reached, Cut, Shape, Cache.Crowded;
      ShapeSays();
      NoneUnlogged(me);
      assert p.ws[k + tail] == p.ws[k..k + n][tail] == Write(block[tail], cs[tail]);
      assert Copies(cs[tail], cache.Contents(), tail);
      Advance(p, k + tail, cache.trace, cache.disk, cache.Contents());
      ok := CopyBlock(cache, g.start + tail + 1, block[tail], false, me);
    }

    /** install_trans, as writes k, k + 1, ... of plan p. */
    method InstallTrans(me: nat, ghost p: Plan, ghost k: nat, ghost cs: seq<Block>) returns (ok: bool)
      requires Shape() && cache.Holds(me, {}) && At(p, k) && k + n <= |p.ws| && g.start in cache.Contents()
      requires |cs| == n && p.ws[k..k + n] == InstallWrites(block[..n], cs)
      requires forall i :: 0 <= i < n ==> Copies(cs[i], cache.Contents(), i)
      modifies cache
      ensures Shape() && cache.Pinned() <= old(cache.Pinned()) && cache.disk.Keys == old(cache.disk).Keys
      ensures ok ==> forall i :: 0 <= i < n ==> block[i] !in cache.Pinned()
      ensures ok ==> g.start in cache.Contents() && cache.Contents()[g.start] == old(cache.Contents())[g.start]
      ensures if ok then At(p, k + n) && cache.Holds(me, {}) else Cut(p, cache.trace, cache.disk)
      ensures !ok ==> cache.Crowded(me)
    {
      hide Cache.Valid, Cache.Contents, Cache.Pinned, Cache.Holds, Reached, Cut, Shape, Cache.Crowded;
      ShapeSays();
      var tail := 0;
      while tail < n
        invariant 0 <= tail <= n && cache.Valid() && cache.Holds(me, {}) && At(p, k + tail)
        invariant cache.Pinned() <= old(cache.Pinned()) && cache.disk.Keys == old(cache.disk).Keys
        invariant forall i :: 0 <= i < tail ==> block[i] !in cache.Pinned()
        invariant g.start in cache.Contents() && cache.Contents()[g.start] == old(cache.Contents())[g.start]
        invariant forall i :: 0 <= i < n ==> Copies(cs[i], cache.Contents(), i)
      {
        KeepShape();
        var copied := InstallBlock(me, p, k, cs, tail);
        if !copied { KeepShape(); return false; }
        tail := tail + 1;
      }
      KeepShape();
      return true;
    }

    /** Log block i + 1 holds b. */
    ghost predicate Copies(b: Block, v: Disk, i: nat)
    { g.InLog(g.start + i + 1) && g.start + i + 1 in v && v[g.start + i + 1] == b }

    /** Holds whenever log.lock is free, and when commit() starts: the dirty buffers are
        exactly the logged blocks, which are distinct home blocks, and the log on disk is
        empty. */
    ghost predicate Core()
      reads this`n, this`block, cache
    {
      && Shape() && Clean(g, cache.disk)
      && (forall i, j :: 0 <= i < j < n ==> block[i] != block[j])
      && (forall b :: b in cache.Pinned() <==> b in block[..n])
    }

    /** The transaction a commit started now would make durable. */
    ghost function Pending(): Tx
      reads this`n, this`block, cache
      requires Core()
    { Tx(block[..n], Newest(cache.Contents(), block[..n])) }

    /** The writes of a commit started now. */
    ghost function CommitPlan(): Plan
      reads this`n, this`block, cache
      requires Core()
    {
      Plan(cache.trace, cache.disk, cache.Contents(),
           CommitWrites(g, cache.disk[g.start], Pending().bs, Pending().cs))
    }

    /** commit. */
    method Commit(me: nat) returns (ok: bool)
      requires Core() && cache.Holds(me, {})
      modifies this`n, cache
      ensures cache.disk.Keys == old(cache.disk).Keys && Cut(old(CommitPlan()), cache.trace, cache.disk)
      ensures ok ==> n == 0 && Shape() && cache.Pinned() == {} && cache.Holds(me, {})
      ensures ok ==> At(old(CommitPlan()), |old(CommitPlan()).ws|)
      ensures !ok ==> cache.Crowded(me)
    {
      hide Cache.Valid, Cache.Contents, Cache.Pinned, Cache.Holds, Reached, Cut, PutHeader, Clean, CommitPlan, Pending,
           InstallWrites, Ordered, Shape, Core, At, Copies, Cache.Crowded;
      CommitReady(me);
      ghost var p, cs := CommitPlan(), Pending().cs;
      if n == 0 { return true; }
      ok := WriteTransaction(me, p, cs);
      if !ok { return; }
      InstallOrdered(p, cs);
      ok := InstallAndClear(me, p, n + 1, cs);
      if ok {
        forall b ensures b !in cache.Pinned() {
          if b in old(cache.Pinned()) { var i :| 0 <= i < old(n) && block[i] == b; }
        }
      }
    }

    /** Plan p commits the logged blocks with contents cs over header block hb. */
    ghost predicate Ordered(p: Plan, hb: Block, cs: seq<Block>)
      reads this
    {
      && 0 < n <= LOGSIZE == |block| && |cs| == n && |p.ws| == 2 * n + 2
      && (forall i :: 0 <= i < n ==> block[i] in p.v && cs[i] == p.v[block[i]])
      && (forall i :: 0 <= i < n ==> p.ws[i] == Write(g.start + i + 1, cs[i]))
      && p.ws[n] == Write(g.start, PutHeader(hb, block[..n]))
      && p.ws[n + 1..2 * n + 1] == InstallWrites(block[..n], cs)
      && p.ws[2 * n + 1] == Write(g.start, PutHeader(PutHeader(hb, block[..n]), []))
    }

    lemma {:induction false} InstallOrdered(p: Plan, cs: seq<Block>)
      requires g.start in p.v && Ordered(p, p.v[g.start], cs)
      ensures |p.ws| == n + 1 + n + 1 && |cs| == n && p.ws[n + 1..n + 1 + n] == InstallWrites(block[..n], cs)
      ensures p.ws[n + 1 + n] == Write(g.start, PutHeader(p.ws[n].data, []))
    {
      hide PutHeader, InstallWrites;
      assert n + 1 + n == 2 * n + 1;
    }

    /** What commit() is about to write. */
    lemma {:induction false} CommitReady(me: nat)
      requires Core() && cache.Holds(me, {})
      ensures var p := CommitPlan();
        && At(p, 0) && Cut(p, cache.trace, cache.disk) && p.v == cache.Contents()
        && g.start in p.v && p.v[g.start] == cache.disk[g.start]
        && if n == 0 then p.ws == [] else Ordered(p, p.v[g.start], Pending().cs)
      ensures Shape() && n <= |block| && forall b :: b in cache.Pinned() ==> b in block[..n]
    {
      hide Cache.Valid, Cache.Contents, Cache.Pinned, PutHeader;
      var p := CommitPlan();
      Start(p);
      Advance(p, 0, p.t, p.d, p.v);
      if n > 0 { CommitShape(g, cache.disk[g.start], block[..n], Pending().cs); }
      UnloggedStart();
    }

    /** write_log(); write_head(): everything up to the commit point. */
    method WriteTransaction(me: nat, ghost p: Plan, ghost cs: seq<Block>) returns (ok: bool)
      requires Shape() && cache.Holds(me, {}) && At(p, 0) && g.start in p.v && Ordered(p, p.v[g.start], cs)
      modifies cache
      ensures Shape() && cache.disk.Keys == old(cache.disk).Keys && HomePinned(old(cache.Pinned()), cache.Pinned())
      ensures if ok then At(p, n + 1) && cache.Holds(me, {}) else Cut(p, cache.trace, cache.disk)
      ensures ok ==> forall i :: 0 <= i < n ==> Copies(cs[i], cache.Contents(), i)
      ensures ok ==> g.start in cache.Contents() && cache.Contents()[g.start] == p.ws[n].data
      ensures !ok ==> cache.Crowded(me)
    {
      hide Cache.Valid, Cache.Contents, Cache.Pinned, Cache.Holds, Reached, Cut, PutHeader, InstallWrites,
        Cache.Crowded;
      ok := WriteLog(me, p);
      if !ok { return; }
      Unwritten(p, n, cache.trace, cache.disk, cache.Contents(), g.start);
      ok := WriteHead(me, p, n);
      if !ok { return; }
      CommitPoint(p, block[..n], cs);
    }

    /** At the commit point the log holds the whole transaction. */
    lemma {:induction false} CommitPoint(p: Plan, bs: seq<word>, cs: seq<Block>)
      requires |bs| == |cs| < g.size && At(p, |bs| + 1) && |bs| < |p.ws|
      requires forall i :: 0 <= i < |bs| ==> p.ws[i] == Write(g.start + i + 1, cs[i])
      requires p.ws[|bs|].blockno == g.start
      ensures forall i :: 0 <= i < |cs| ==> Copies(cs[i], cache.Contents(), i)
      ensures g.start in cache.Contents() && cache.Contents()[g.start] == p.ws[|bs|].data
    {
      hide Reached, Cache.Contents;
      forall i | 0 <= i < |bs| ensures Copies(cs[i], cache.Contents(), i) {
        LastWritten(p, |bs| + 1, cache.trace, cache.disk, cache.Contents(), i);
      }
      LastWritten(p, |bs| + 1, cache.trace, cache.disk, cache.Contents(), |bs|);
    }

    /** The last lines of both commit and recover_from_log: install, then erase the log. */
    method InstallAndClear(me: nat, ghost p: Plan, ghost k: nat, ghost cs: seq<Block>) returns (ok: bool)
      requires Shape() && cache.Holds(me, {}) && At(p, k) && |p.ws| == k + n + 1 && g.start in cache.Contents()
      requires |cs| == n && p.ws[k..k + n] == InstallWrites(block[..n], cs)
      requires forall i :: 0 <= i < n ==> Copies(cs[i], cache.Contents(), i)
      requires p.ws[k + n] == Write(g.start, PutHeader(cache.Contents()[g.start], []))
      modifies this`n, cache
      ensures cache.disk.Keys == old(cache.disk).Keys && Cut(p, cache.trace, cache.disk)
      ensures ok ==> n == 0 && Shape() && cache.Holds(me, {}) && At(p, |p.ws|)
      ensures ok ==> cache.Pinned() <= old(cache.Pinned()) && forall i :: 0 <= i < old(n) ==>
        block[i] !in cache.Pinned()
      ensures !ok ==> cache.Crowded(me)
    {
      hide Cache.Valid, Cache.Contents, Cache.Pinned, Cache.Holds, Reached, Cut, PutHeader, InstallWrites,
        Cache.Crowded;
      Advance(p, k, cache.trace, cache.disk, cache.Contents());
      ok := InstallTrans(me, p, k, cs);
      if !ok { return; }
      n := 0;
      assert block[..0] == [];
      ok := WriteHead(me, p, |p.ws| - 1);
      if ok { Advance(p, |p.ws|, cache.trace, cache.disk, cache.Contents()); }
    }

    /** read_head. */
    method ReadHead(me: nat) returns (ok: bool)
      requires cache.Valid() && cache.Holds(me, {}) && Recoverable(g, cache.disk) && |block| == LOGSIZE
      requires cache.Contents() == cache.disk
      modifies this`n, this`block, cache
      ensures cache.disk == old(cache.disk) && cache.trace == old(cache.trace)
        && cache.Contents() == old(cache.Contents())
      ensures cache.Valid() && cache.Pinned() == old(cache.Pinned())
      ensures ok ==> cache.Holds(me, {}) && Shape() && block[..n] == GetHeader(cache.disk[g.start])
      ensures !ok ==> cache.Crowded(me)
    {
      assert g.InLog(g.start) && g.start in cache.disk && cache.unlogged == {};
      hide Cache.Valid, Cache.Contents, Cache.Pinned, Cache.Holds, Recoverable, Shape, GetHeader, Cache.Crowded;
      var b := cache.Bread(g.start, me, {});
      if b.None? { return false; }
      assert {} + {b.value} == {b.value} && {b.value} - {b.value} == {};
      HeaderListed(cache.disk);
      DecodeHead(cache.buf[b.value].data);
      cache.Brelse(b.value, me, {b.value});
      HeaderShape();
      return true;
    }

    /** The loop of read_head. */
    method DecodeHead(hb: Block)
      requires Word(hb, 0) <= LOGSIZE == |block|
      modifies this`n, this`block
      ensures n == Word(hb, 0) && |block| == LOGSIZE && block[..n] == GetHeader(hb)
    {
      hide Word;
      n := Word(hb, 0);
      var i := 0;
      while i < n
        invariant 0 <= i <= n == Word(hb, 0) <= LOGSIZE == |block|
        invariant forall j :: 0 <= j < i ==> block[j] == Word(hb, 1 + j)
      {
        block := block[i := Word(hb, 1 + i)];
        i := i + 1;
      }
    }

    lemma {:induction false} HeaderListed(d: Disk)
      requires Recoverable(g, d)
      ensures g.start in d && Word(d[g.start], 0) <= LOGSIZE
    {
      assert g.InLog(g.start);
    }

    lemma {:induction false} HeaderShape()
      requires cache.Valid() && Recoverable(g, cache.disk) && |block| == LOGSIZE && n <= LOGSIZE
      requires g.start in cache.disk && Word(cache.disk[g.start], 0) <= LOGSIZE
        && block[..n] == GetHeader(cache.disk[g.start])
      ensures Shape()
    {
      hide Word, Cache.Valid;
      forall i | 0 <= i < n ensures block[i] in GetHeader(cache.disk[g.start]) {
        assert block[..n][i] == block[i];
      }
    }

    /** The writes of a recovery started now. */
    ghost function RecoveryPlan(): Plan
      reads cache
      requires Recoverable(g, cache.disk)
    { Plan(cache.trace, cache.disk, cache.Contents(), RecoveryWrites(g, cache.disk)) }

    /** recover_from_log, at boot: the cache holds nothing the disk does not. */
    method RecoverFromLog(me: nat) returns (ok: bool)
      requires cache.Valid() && cache.Holds(me, {}) && Recoverable(g, cache.disk) && |block| == LOGSIZE
      requires cache.Contents() == cache.disk && cache.Pinned() == {} && outstanding == 0 && ops == [] && !committing
      modifies this`n, this`block, cache
      ensures Cut(old(RecoveryPlan()), cache.trace, cache.disk)
      ensures ok ==> Valid() && cache.Holds(me, {}) && cache.disk == Recovered(g, old(cache.disk)) == cache.Contents()
      ensures !ok ==> cache.Crowded(me)
    {
      hide Cache.Valid, Cache.Contents, Cache.Pinned, Cache.Holds, Reached, Cut, Recoverable, Recovered, Shape,
           GetHeader, PutHeader, RecoveryWrites, LoggedBlocks, InstallWrites, Word, Core, RecoveryPlan, Cache.Crowded;
      ghost var p, d := RecoveryPlan(), cache.disk;
      RecoveryStart(me);
      ok := ReadHead(me);
      if !ok { return; }
      RecoveryOrdered(p);
      ok := InstallAndClear(me, p, 0, LoggedBlocks(g, d));
      if ok { RecoveredCore(p, me); }
    }

    lemma {:induction false} RecoveryStart(me: nat)
      requires cache.Holds(me, {}) && Recoverable(g, cache.disk)
      ensures var p := RecoveryPlan();
        At(p, 0) && Cut(p, cache.trace, cache.disk) && p.d == cache.disk && p.v == cache.Contents()
          && p.ws == RecoveryWrites(g, p.d)
      ensures g.start in cache.disk && Word(cache.disk[g.start], 0) <= LOGSIZE && cache.unlogged == {}
    {
      var p := RecoveryPlan();
      Start(p);
      Advance(p, 0, p.t, p.d, p.v);
      assert g.InLog(g.start);
    }

    lemma {:induction false} RecoveredCore(p: Plan, me: nat)
      requires Shape() && n == 0 && cache.Pinned() <= {} && Recoverable(g, p.d) && p.ws == RecoveryWrites(g, p.d)
        && p.v == p.d
      requires At(p, |p.ws|) && cache.Holds(me, {})
      ensures Core() && cache.disk == Recovered(g, p.d) == cache.Contents() && cache.unlogged == {}
    {
      hide Cache.Valid, Cache.Contents, Cache.Pinned, Recoverable, RecoveryWrites;
      Finished(p);
      CleanAfterRecovery(g, p.d);
    }

    lemma {:induction false} RecoveryOrdered(p: Plan)
      requires Shape() && Recoverable(g, cache.disk) && block[..n] == GetHeader(cache.disk[g.start])
      requires cache.Contents() == cache.disk && p.ws == RecoveryWrites(g, cache.disk)
      ensures |LoggedBlocks(g, cache.disk)| == n && |p.ws| == n + 1
      ensures p.ws[0..n] == InstallWrites(block[..n], LoggedBlocks(g, cache.disk))
      ensures forall i :: 0 <= i < n ==> Copies(LoggedBlocks(g, cache.disk)[i], cache.Contents(), i)
      ensures g.start in cache.disk && p.ws[n] == Write(g.start, PutHeader(cache.Contents()[g.start], []))
    {
      hide PutHeader, Word, Cache.Contents, Cache.Valid;
      assert g.InLog(g.start);
      forall i | 0 <= i < n ensures Copies(LoggedBlocks(g, cache.disk)[i], cache.Contents(), i) {
        assert g.InLog(g.start + i + 1);
      }
    }

    lemma {:induction false} Finished(p: Plan)
      requires At(p, |p.ws|)
      ensures cache.disk == Apply(p.d, p.ws) && cache.Contents() == Apply(p.v, p.ws)
    {
      assert p.ws[..|p.ws|] == p.ws;
    }

    /** The invariant of the logging layer whenever log.lock is free and no commit runs. */
    ghost predicate Valid()
      reads this, cache
    {
      && Core() && outstanding == |ops| && !committing
      && (outstanding == 0 ==> n == 0 && cache.unlogged == {})
    }

    /** The reservation protocol's view of this log. */
    ghost function Reserved(): Reservation.State
      reads this
      requires n <= |block|
    { Reservation.State(block[..n], ops, committing) }

    /** Cache activity of any process that neither writes the disk nor changes which blocks
        are pinned (every Cache method but Pin and Bwrite) keeps the logging invariant. */
    twostate lemma {:induction false} CacheStepKeepsValid()
      requires old(Valid()) && cache.Valid() && cache.disk == old(cache.disk) && cache.Pinned() == old(cache.Pinned())
      requires n == old(n) && block == old(block) && outstanding == old(outstanding) && ops == old(ops)
        && committing == old(committing)
      requires outstanding > 0 || cache.unlogged == old(cache.unlogged)
      ensures Valid()
    {
      hide Cache.Valid, Cache.Pinned, Clean;
    }

    /** begin_op, between operations or while a commit runs: false stands for going back to sleep. */
    method BeginOp() returns (started: bool)
      requires Valid() || (committing && n <= LOGSIZE == |block| && outstanding == |ops|)
      modifies this`outstanding, this`ops
      ensures (old(Valid()) ==> Valid()) && (committing ==> !started)
      ensures started == Reservation.Enabled(old(Reserved()), Reservation.Begin, MAXOPBLOCKS)
      ensures Reserved() == if started then Reservation.Do(old(Reserved()), Reservation.Begin) else old(Reserved())
    {
      if committing || n + (outstanding + 1) * MAXOPBLOCKS > LOGSIZE { return false; }
      outstanding, ops := outstanding + 1, ops + [{}];
      return true;
    }

    /** log_write up to acquire(&log.lock); false stands for the panic.  Others may log blocks
        before the caller gets the lock. */
    method Test() returns (ok: bool)
      requires n <= |block|
      ensures ok == Reservation.Guard(Reserved(), g.size)
    {
      return n < LOGSIZE && n + 1 < g.size;
    }

    /** log_write from acquire(&log.lock) on, by operation op on buffer b, which process me holds:
        right whenever the block is logged already or there still is room for it. */
    method LogBlock(ghost op: nat, b: nat, ghost me: nat)
      requires Valid() && op < |ops| && b < NBUF && cache.buf[b].pid == me != 0 && cache.buf[b].valid
      requires cache.buf[b].dev == ROOTDEV && cache.buf[b].blockno < U32 && !g.InLog(cache.buf[b].blockno)
      requires n <= |block|
        && Reservation.InLog(Reservation.Do(Reserved(), Reservation.Write(op, cache.buf[b].blockno)), g.size)
      modifies this`n, this`block, this`ops, cache`buf, cache`unlogged
      ensures Valid() && n <= |block|
      ensures Reserved() == Reservation.Do(old(Reserved()), Reservation.Write(op, old(cache.buf)[b].blockno))
      ensures cache.Contents() == old(cache.Contents())
      ensures cache.buf == old(cache.buf)[b := old(cache.buf)[b].(dirty := true)]
      ensures cache.Pinned() == old(cache.Pinned()) + {cache.buf[b].blockno}
        && cache.unlogged == old(cache.unlogged) - {b}
    {
      hide Cache.Valid, Cache.Contents, Cache.Pinned, Core;
      CoreListed(b);
      Append(cache.buf[b].blockno);
      cache.Pin(b);
      ops := ops[op := ops[op] + {cache.buf[b].blockno}];
      StillCore(cache.buf[b].blockno);
    }

    /** log_write by operation op on buffer b, which process me holds, when no other process logs
        a block between the test and the rest; false stands for the panic. */
    method LogWrite(ghost op: nat, b: nat, ghost me: nat) returns (ok: bool)
      requires Valid() && op < |ops| && b < NBUF && cache.buf[b].pid == me != 0 && cache.buf[b].valid
      requires cache.buf[b].dev == ROOTDEV && cache.buf[b].blockno < U32 && !g.InLog(cache.buf[b].blockno)
      modifies this`n, this`block, this`ops, cache`buf, cache`unlogged
      ensures var step := Reservation.Write(op, old(cache.buf)[b].blockno);
        && ok == !Reservation.Panics(old(Reserved()), step, g.size)
        && Valid() && Reserved() == if ok then Reservation.Do(old(Reserved()), step) else old(Reserved())
      ensures cache.Contents() == old(cache.Contents())
      ensures cache.buf == if ok then old(cache.buf)[b := old(cache.buf)[b].(dirty := true)] else old(cache.buf)
      ensures ok ==>
        cache.Pinned() == old(cache.Pinned()) + {cache.buf[b].blockno} && cache.unlogged == old(cache.unlogged) - {b}
    {
      hide Cache.Valid, Cache.Contents, Cache.Pinned, Core;
      CoreListed(b);
      ok := Test();
      if ok { LogBlock(op, b, me); }
    }

    lemma {:induction false} CoreListed(b: nat)
      requires Core() && b < NBUF
      ensures cache.Valid() && n <= LOGSIZE == |block| && n < g.size
      ensures forall i, j :: 0 <= i < j < n ==> block[i] != block[j]
      ensures cache.buf[b].dev == ROOTDEV ==> cache.buf[b].blockno in cache.disk
    {
      assert BufOk(cache.buf[b], cache.refs[b], b in cache.unlogged, cache.disk);
    }

    twostate lemma {:induction false} StillCore(bn: nat)
      requires old(Core()) && cache.Valid() && cache.disk == old(cache.disk)
      requires |block| == LOGSIZE && n <= LOGSIZE && n < g.size && bn in cache.disk && !g.InLog(bn)
      requires forall i, j :: 0 <= i < j < n ==> block[i] != block[j]
      requires forall x :: x in block[..n] <==> x in old(block[..n]) || x == bn
      requires cache.Pinned() == old(cache.Pinned()) + {bn}
      ensures Core()
    {
      hide Cache.Valid, Cache.Pinned, Clean;
      forall i | 0 <= i < n ensures block[i] in cache.disk && !g.InLog(block[i]) {
        assert block[i] in block[..n];
      }
    }

    /** The body of log_write under log.lock: look for the block, else append it. */
    method Append(bn: word)
      requires n <= LOGSIZE == |block| && (n < LOGSIZE || bn in block[..n])
      requires forall i, j :: 0 <= i < j < n ==> block[i] != block[j]
      modifies this`n, this`block
      ensures |block| == LOGSIZE && n <= LOGSIZE && old(n) <= n <= old(n) + 1
      ensures block[..n] == Reservation.Absorb(old(block[..n]), bn)
      ensures forall i, j :: 0 <= i < j < n ==> block[i] != block[j]
      ensures forall x :: x in block[..n] <==> x in old(block[..n]) || x == bn
    {
      var i := 0;
      while i < n && block[i] != bn
        invariant 0 <= i <= n && bn !in block[..i]
      {
        i := i + 1;
      }
      block := block[i := bn];
      if i == n { n := n + 1; }
      if i == old(n) {
        assert block[..n] == old(block[..n]) + [bn];
      } else {
        assert old(block)[i] == bn && block == old(block);
        assert old(block[..n])[i] == bn;
      }
    }

    /** end_op.  Every prefix of the block writes it makes leaves a disk that recovers either
        to the home blocks before the transaction or to all its new contents; if it returns
        and was the last operation, the new contents are on disk.  false stands for a panic
        inside commit. */
    method EndOp(ghost op: nat, me: nat) returns (ok: bool)
      requires Valid() && op < |ops| && (outstanding == 1 ==> cache.Holds(me, {}))
      modifies this`n, this`outstanding, this`committing, this`ops, cache
      ensures old(outstanding) > 1 ==>
        && ok && Valid() && Reserved() == Reservation.Do(old(Reserved()), Reservation.End(op))
        && unchanged(cache) && cache.Contents() == old(cache.Contents())
      ensures old(outstanding) == 1 && ok ==>
        && Valid() && Reserved() ==
          Reservation.Do(Reservation.Do(old(Reserved()), Reservation.End(op)), Reservation.Committed)
        && Home(g, cache.disk) == Home(g, cache.Contents()) == Home(g, old(cache.Contents()))
        && cache.Holds(me, {}) && cache.disk.Keys == old(cache.disk).Keys
      ensures old(cache.trace) <= cache.trace
      ensures cache.disk == Apply(old(cache.disk), cache.trace[|old(cache.trace)|..])
      ensures forall j :: 0 <= j <= |cache.trace| - |old(cache.trace)| ==>
        CrashSafe(g, Home(g, old(cache.disk)), Home(g, old(cache.Contents())),
          Apply(old(cache.disk), WritesSince(old(cache.trace), cache.trace, j)))
      ensures !ok ==> cache.Crowded(me)
    {
      hide Cache.Valid, Cache.Contents, Cache.Pinned, Cache.Holds, Core, CrashSafe, Home, Apply, WritesSince,
        Cache.Crowded;
      CoreListed(0);
      outstanding, ops := outstanding - 1, ops[..op] + ops[op + 1..];
      if outstanding > 0 {
        NoWriteIsSafe();
        return true;
      }
      committing := true;
      ok := CommitAll(me);
      if ok { committing := false; }
    }

    /** commit() as end_op calls it. */
    method CommitAll(me: nat) returns (ok: bool)
      requires Core() && cache.Holds(me, {})
      modifies this`n, cache
      ensures ok ==>
        n == 0 && Core() && cache.Holds(me, {}) && cache.unlogged == {} && cache.disk.Keys == old(cache.disk).Keys
      ensures ok ==> Home(g, cache.disk) == Home(g, cache.Contents()) == Home(g, old(cache.Contents()))
      ensures old(cache.trace) <= cache.trace
      ensures cache.disk == Apply(old(cache.disk), cache.trace[|old(cache.trace)|..])
      ensures forall j :: 0 <= j <= |cache.trace| - |old(cache.trace)| ==>
        CrashSafe(g, Home(g, old(cache.disk)), Home(g, old(cache.Contents())),
          Apply(old(cache.disk), WritesSince(old(cache.trace), cache.trace, j)))
      ensures !ok ==> cache.Crowded(me)
    {
      hide Cache.Valid, Cache.Contents, Cache.Pinned, Cache.Holds, Core, CommitPlan, CrashSafe, Home, Apply, Cut, At,
           Shape, WritesSince, PlanOk, Cache.Crowded;
      ghost var p := CommitPlan();
      ghost var bs := CommitStart(me);
      ok := Commit(me);
      CommitSafe(p, bs, cache.trace, cache.disk);
      if ok { CommitFinish(p, bs, me); }
    }

    /** With no write made, a crash loses nothing. */
    lemma {:induction false} NoWriteIsSafe()
      requires Core()
      ensures cache.disk == Apply(cache.disk, cache.trace[|cache.trace|..])
      ensures forall j :: 0 <= j <= 0 ==>
        CrashSafe(g, Home(g, cache.disk), Home(g, cache.Contents()),
          Apply(cache.disk, WritesSince(cache.trace, cache.trace, j)))
    {
      hide Cache.Valid, Cache.Contents, Cache.Pinned, Home, Recovered, Word;
      RecoverClean(g, cache.disk);
      assert WritesSince(cache.trace, cache.trace, 0) == [];
    }

    /** p is what a commit would write, and it would take home blocks to v's. */
    ghost predicate PlanOk(p: Plan, bs: seq<word>) {
      && Clean(g, p.d) && p.v.Keys == p.d.Keys && |bs| <= LOGSIZE && |bs| < g.size
      && (forall i :: 0 <= i < |bs| ==> bs[i] in p.d && !g.InLog(bs[i]))
      && (forall b :: b in p.d && b !in bs ==> p.v[b] == p.d[b])
      && p.ws == CommitWrites(g, p.d[g.start], bs, Newest(p.v, bs))
    }

    lemma {:induction false} CommitStart(me: nat) returns (bs: seq<word>)
      requires Core() && cache.Holds(me, {})
      ensures var p := CommitPlan(); PlanOk(p, bs) && p.d == cache.disk && p.v == cache.Contents() && p.t == cache.trace
    {
      hide Cache.Valid, Cache.Contents, CommitWrites, Clean;
      bs := block[..n];
      forall b | b in cache.disk && b !in block[..n] ensures cache.Contents()[b] == cache.disk[b] {
        cache.UnpinnedIsOnDisk(b);
      }
    }

    lemma {:induction false} CommitSafe(p: Plan, bs: seq<word>, t: seq<Write>, d: Disk)
      requires PlanOk(p, bs) && Cut(p, t, d)
      ensures p.t <= t && d == Apply(p.d, t[|p.t|..])
      ensures forall j :: 0 <= j <= |t| - |p.t| ==>
        CrashSafe(g, Home(g, p.d), Home(g, p.v), Apply(p.d, WritesSince(p.t, t, j)))
    {
      hide CommitWrites, Newest, CrashSafe, Home, Installed, Apply, Clean;
      CutApplied(p, t, d);
      var tx := Tx(bs, Newest(p.v, bs));
      assert Home(g, Installed(p.d, tx)) == Home(g, p.v) by { InstalledIsNewest(p, bs); }
      forall j | 0 <= j <= |t| - |p.t|
        ensures CrashSafe(g, Home(g, p.d), Home(g, p.v), Apply(p.d, WritesSince(p.t, t, j)))
      {
        CutIsSafe(g, p, tx, t, d, j);
      }
    }

    lemma {:induction false} InstalledIsNewest(p: Plan, bs: seq<word>)
      requires PlanOk(p, bs)
      ensures Tx(bs, Newest(p.v, bs)).Fits(g, p.d) && Home(g, Installed(p.d, Tx(bs, Newest(p.v, bs)))) == Home(g, p.v)
    {
      hide CommitWrites, Newest, Home, Installed, Apply, Clean;
      CommitCompletes(g, p.d, Tx(bs, Newest(p.v, bs)));
      CommitDurable(g, p.d, p.v, bs);
    }

    lemma {:induction false} CommitFinish(p: Plan, bs: seq<word>, me: nat)
      requires PlanOk(p, bs) && At(p, |p.ws|) && Shape() && n == 0 && cache.Pinned() == {} && cache.Holds(me, {})
      ensures Core() && cache.unlogged == {} && Home(g, cache.disk) == Home(g, cache.Contents()) == Home(g, p.v)
    {
      hide CommitWrites, Newest, Home, Cache.Valid, Cache.Contents, Cache.Pinned, Clean;
      Finished(p);
      CommitDurable(g, p.d, p.v, bs);
    }

    lemma {:induction false} UnloggedStart()
      requires Core() && cache.unlogged == {}
      ensures g.start in cache.disk && cache.Contents()[g.start] == cache.disk[g.start]
    {
      assert g.InLog(g.start);
      cache.UnpinnedIsOnDisk(g.start);
    }
  }

  /** The order of the writes of a commit. */
  lemma {:induction false} CommitShape(g: Geometry, hb: Block, bs: seq<word>, cs: seq<Block>)
    requires 0 < |bs| == |cs| <= LOGSIZE
    ensures var ws, n := CommitWrites(g, hb, bs, cs), |bs|;
      && |ws| == 2 * n + 2
      && (forall i :: 0 <= i < n ==> ws[i] == Write(g.start + i + 1, cs[i]))
      && ws[n] == Write(g.start, PutHeader(hb, bs))
      && ws[n + 1..2 * n + 1] == InstallWrites(bs, cs)
      && ws[2 * n + 1] == Write(g.start, PutHeader(PutHeader(hb, bs), []))
  {
    hide PutHeader;
  }

  lemma {:induction false} SameValueWrites(d: Disk, ws: seq<Write>, b: nat, x: Block)
    requires forall i :: 0 <= i < |ws| && ws[i].blockno == b ==> ws[i].data == x
    ensures if Writes(ws, b) then b in Apply(d, ws) && Apply(d, ws)[b] == x
            else (b in Apply(d, ws) <==> b in d) && (b in d ==> Apply(d, ws)[b] == d[b])
  {
    if ws != [] {
      var init := ws[..|ws| - 1];
      SameValueWrites(d, init, b, x);
      if Writes(ws, b) && ws[|ws| - 1].blockno != b {
        var i :| 0 <= i < |ws| && ws[i].blockno == b;
        assert init[i].blockno == b;
      }
    }
  }

  /** The writes of a commit that name a home block all store its newest contents. */
  lemma {:induction false} HomeWrites(g: Geometry, hb: Block, bs: seq<word>, v: Disk, b: nat)
    requires |bs| <= LOGSIZE && |bs| < g.size && !g.InLog(b)
    requires forall i :: 0 <= i < |bs| ==> bs[i] in v
    ensures var ws := CommitWrites(g, hb, bs, Newest(v, bs));
      && (Writes(ws, b) <==> b in bs)
      && forall i :: 0 <= i < |ws| && ws[i].blockno == b ==> b in v && ws[i].data == v[b]
  {
    hide PutHeader, CommitWrites, Writes, Newest, InstallWrites;
    var cs, n := Newest(v, bs), |bs|;
    var ws := CommitWrites(g, hb, bs, cs);
    if bs != [] {
      CommitShape(g, hb, bs, cs);
      assert g.InLog(g.start);
      forall i | 0 <= i < |ws| ensures ws[i].blockno == b ==> n < i < 2 * n + 1 {
        assert i < n ==> g.InLog(g.start + i + 1);
      }
      InMiddle(ws, n, bs, cs, b);
      NewestAt(v, bs);
    } else {
      assert ws == [] by { NoCommit(g, hb, cs); }
      NothingWritten(ws, b);
    }
  }

  lemma {:induction false} NewestAt(v: Disk, bs: seq<nat>)
    requires forall i :: 0 <= i < |bs| ==> bs[i] in v
    ensures forall i :: 0 <= i < |bs| ==> Newest(v, bs)[i] == v[bs[i]]
  {
  }

  lemma {:induction false} NothingWritten(ws: seq<Write>, b: nat)
    requires ws == []
    ensures !Writes(ws, b)
  {
  }

  /** Block b is written only among the installs, there iff it is logged. */
  lemma {:induction false} InMiddle(ws: seq<Write>, n: nat, bs: seq<nat>, cs: seq<Block>, b: nat)
    requires |ws| == 2 * n + 2 && n == |bs| == |cs| && ws[n + 1..2 * n + 1] == InstallWrites(bs, cs)
    requires forall i :: 0 <= i < |ws| && ws[i].blockno == b ==> n < i < 2 * n + 1
    ensures Writes(ws, b) <==> b in bs
    ensures forall i :: 0 <= i < |ws| && ws[i].blockno == b ==> bs[i - n - 1] == b && ws[i].data == cs[i - n - 1]
  {
    var mid := ws[n + 1..2 * n + 1];
    forall i | n < i < 2 * n + 1
      ensures ws[i] == Write(bs[i - n - 1], cs[i - n - 1])
    {
      assert ws[i] == mid[i - n - 1];
    }
    if b in bs {
      var j :| 0 <= j < n && bs[j] == b;
      assert ws[n + 1 + j].blockno == b;
    }
  }

  lemma {:induction false} NoCommit(g: Geometry, hb: Block, cs: seq<Block>)
    requires cs == []
    ensures CommitWrites(g, hb, [], cs) == []
  {
  }

  /** A finished commit makes every home block on disk equal its newest contents, and
      changes no home block's contents. */
  lemma {:induction false} CommitDurable(g: Geometry, d: Disk, v: Disk, bs: seq<word>)
    requires Clean(g, d) && v.Keys == d.Keys && |bs| <= LOGSIZE && |bs| < g.size
    requires forall i :: 0 <= i < |bs| ==> bs[i] in d && !g.InLog(bs[i])
    requires forall b :: b in d && b !in bs ==> v[b] == d[b]
    ensures var ws := CommitWrites(g, d[g.start], bs, Newest(v, bs));
      && Clean(g, Apply(d, ws))
      && Home(g, Apply(d, ws)) == Home(g, v) == Home(g, Apply(v, ws))
  {
    hide Word, CommitWrites, Newest, Apply;
    var ws := CommitWrites(g, d[g.start], bs, Newest(v, bs));
    CommitCleans(g, d, v, bs);
    forall b | !g.InLog(b)
      ensures b in Apply(d, ws) <==> b in v
      ensures b in Apply(v, ws) <==> b in v
      ensures b in v ==> Apply(d, ws)[b] == v[b] == Apply(v, ws)[b]
    {
      HomeBlockDurable(g, d, v, d[g.start], bs, b);
    }
  }

  lemma {:induction false} HomeBlockDurable(g: Geometry, d: Disk, v: Disk, hb: Block, bs: seq<word>, b: nat)
    requires |bs| <= LOGSIZE && |bs| < g.size && !g.InLog(b) && v.Keys == d.Keys
    requires forall i :: 0 <= i < |bs| ==> bs[i] in v
    requires b in d && b !in bs ==> v[b] == d[b]
    ensures var ws := CommitWrites(g, hb, bs, Newest(v, bs));
      && (b in Apply(d, ws) <==> b in v) && (b in Apply(v, ws) <==> b in v)
      && (b in v ==> Apply(d, ws)[b] == v[b] == Apply(v, ws)[b])
  {
    hide CommitWrites, Newest;
    var ws := CommitWrites(g, hb, bs, Newest(v, bs));
    HomeWrites(g, hb, bs, v, b);
    if b in v {
      SameValueWrites(d, ws, b, v[b]);
      SameValueWrites(v, ws, b, v[b]);
    } else {
      ApplyFrame(d, ws, b);
      ApplyFrame(v, ws, b);
    }
  }

  lemma {:induction false} CommitCleans(g: Geometry, d: Disk, v: Disk, bs: seq<word>)
    requires Clean(g, d) && v.Keys == d.Keys && |bs| <= LOGSIZE && |bs| < g.size
    requires forall i :: 0 <= i < |bs| ==> bs[i] in d && !g.InLog(bs[i])
    ensures Clean(g, Apply(d, CommitWrites(g, d[g.start], bs, Newest(v, bs))))
  {
    hide CommitWrites, Word;
    CommitCompletes(g, d, Tx(bs, Newest(v, bs)));
  }

  /** What a crash in the middle of a commit may leave: a disk that recovers to the home
      blocks before the transaction, or to those after it. */
  ghost predicate CrashSafe(g: Geometry, before: Disk, after: Disk, d: Disk) {
    Recoverable(g, d) && (Home(g, Recovered(g, d)) == before || Home(g, Recovered(g, d)) == after)
  }

  /** The first j writes t1 has beyond t0. */
  ghost function WritesSince(t0: seq<Write>, t1: seq<Write>, j: int): seq<Write>
  {
    if 0 <= j <= |t1| - |t0| then t1[|t0|..|t0| + j] else []
  }

  /** Every disk state on the way of a cut commit is crash safe. */
  lemma {:induction false} CutIsSafe(g: Geometry, p: Plan, tx: Tx, t: seq<Write>, d: Disk, j: nat)
    requires Clean(g, p.d) && tx.Fits(g, p.d) && p.ws == CommitWrites(g, p.d[g.start], tx.bs, tx.cs)
    requires Cut(p, t, d) && |p.t| + j <= |t|
    ensures CrashSafe(g, Home(g, p.d), Home(g, Installed(p.d, tx)), Apply(p.d, WritesSince(p.t, t, j)))
  {
    hide Recoverable, Recovered, Home, CommitWrites, Clean, Installed;
    var k :| OnDisk(p, k, t, d);
    assert t[|p.t|..|p.t| + j] == p.ws[..j];
    CommitCrash(g, p.d, tx, j);
  }
}
