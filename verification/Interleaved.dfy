/** Any number of processes running file-system operations at once on the log and the buffer cache
    (bio.c, log.c): every interleaving of their steps, and a crash at every disk write. */
module Interleaved {
  import opened Common
  import opened Blocks
  import opened LogSpec
  import opened BufferCache
  import opened Log
  import Reservation

  /** One step of process me.  b is a buffer, bn a block number. */
  datatype Act =
    | Begin(me: nat)                                    // begin_op
    | Get(me: nat, bn: nat)                             // bget, up to the release of bcache.lock
    | Lock(me: nat, b: nat)                             // acquiresleep(&b->lock)
    | Fill(me: nat, b: nat)                             // the read in bread
    | Store(me: nat, b: nat, bn: nat, data: Block)      // change what the buffer of block bn holds
    | LogIt(me: nat, b: nat)                            // log_write
    | Unlock(me: nat, b: nat)                           // brelse, its first half
    | Unref(me: nat, b: nat)                            // and its second
    | End(me: nat)                                      // end_op, with the commit if it is the last

  // ----- what happened so far -----

  /** The disk, the newest block contents and the write trace at the start; the stores made since,
      and the operation that made each; how many stores there were at each commit; and the
      operations outstanding, numbered in the order they began, those below epoch being
      committed. */
  datatype History = History(d0: Disk, v0: Disk, t0: seq<Write>, stores: seq<Write>, made: seq<nat>, cuts: seq<nat>,
    ids: seq<nat>, epoch: nat, next: nat)

  ghost function LastCut(h: History): nat
    requires h.cuts != []
  { h.cuts[|h.cuts| - 1] }

  /** The first m stores are those of whole operations. */
  ghost predicate Whole(made: seq<nat>, m: nat) { forall j, k :: 0 <= j < m <= k < |made| ==> made[j] != made[k] }

  ghost predicate Numbered(h: History) {
    && |h.made| == |h.stores| && h.cuts != [] && h.epoch <= h.next
    && (forall i :: 0 <= i < |h.cuts| ==> h.cuts[i] <= LastCut(h) <= |h.stores| && Whole(h.made, h.cuts[i]))
    && (forall j :: 0 <= j < LastCut(h) ==> h.made[j] < h.epoch)
    && (forall j :: LastCut(h) <= j < |h.made| ==> h.epoch <= h.made[j] < h.next)
    && (forall i :: 0 <= i < |h.ids| ==> h.epoch <= h.ids[i] < h.next)
  }

  /** The home blocks once the first m stores have been made. */
  ghost function HomeAfter(g: Geometry, h: History, m: nat): Disk
    requires m <= |h.stores|
  { Home(g, Apply(h.v0, h.stores[..m])) }

  /** The cache has all stores, the disk those up to the last commit. */
  ghost predicate Story(g: Geometry, h: History, disk: Disk, contents: Disk, trace: seq<Write>) {
    && h.cuts != [] && LastCut(h) <= |h.stores|
    && h.t0 <= trace && disk == Apply(h.d0, trace[|h.t0|..])
    && Home(g, contents) == HomeAfter(g, h, |h.stores|) && Home(g, disk) == HomeAfter(g, h, LastCut(h))
  }

  /** What d recovers to is a commit point. */
  ghost predicate Recovers(g: Geometry, h: History, d: Disk) {
    Recoverable(g, d) && exists i ::
      0 <= i < |h.cuts| && h.cuts[i] <= |h.stores| && Home(g, Recovered(g, d)) == HomeAfter(g, h, h.cuts[i])
  }

  /** The disk after the first j writes. */
  ghost function DiskAt(h: History, trace: seq<Write>, j: nat): Disk
    requires |h.t0| + j <= |trace|
  { Apply(h.d0, trace[|h.t0|..|h.t0| + j]) }

  /** A crash after any write recovers to a commit point. */
  ghost predicate Safe(g: Geometry, h: History, trace: seq<Write>) {
    forall j: nat :: |h.t0| + j <= |trace| ==> Recovers(g, h, DiskAt(h, trace, j))
  }

  // ----- a store -----

  ghost function Stored(h: History, w: Write, id: nat): History { h.(stores := h.stores + [w], made := h.made + [id]) }

  lemma {:induction false} StoreNumbers(h: History, w: Write, k: nat)
    requires Numbered(h) && k < |h.ids|
    ensures Numbered(Stored(h, w, h.ids[k]))
  {
  }

  lemma {:induction false} SameAfter(g: Geometry, h: History, h': History, m: nat)
    requires h'.v0 == h.v0 && h.stores <= h'.stores && m <= |h.stores|
    ensures HomeAfter(g, h', m) == HomeAfter(g, h, m)
  {
    assert h'.stores[..m] == h.stores[..m];
  }

  lemma {:induction false} StoreStory(g: Geometry, h: History, disk: Disk, contents: Disk, trace: seq<Write>, w: Write,
      id: nat)
    requires Story(g, h, disk, contents, trace) && w.blockno in contents
    ensures Story(g, Stored(h, w, id), disk, contents[w.blockno := w.data], trace)
  {
    hide Apply;
    var h' := Stored(h, w, id);
    SameAfter(g, h, h', LastCut(h));
    assert h'.stores[..|h'.stores|] == h.stores + [w] && h.stores[..|h.stores|] == h.stores;
    ApplyOne(h.v0, h.stores, w);
    HomeUpdate(g, contents, Apply(h.v0, h.stores), w);
  }

  lemma {:induction false} ApplyOne(d: Disk, ws: seq<Write>, w: Write)
    ensures Apply(d, ws + [w]) == Apply(d, ws)[w.blockno := w.data]
  {
    assert (ws + [w])[..|ws|] == ws;
  }

  lemma {:induction false} HomeUpdate(g: Geometry, d: Disk, e: Disk, w: Write)
    requires Home(g, d) == Home(g, e)
    ensures Home(g, d[w.blockno := w.data]) == Home(g, e[w.blockno := w.data])
  {
    forall b | b !in g.Region() ensures (b in d <==> b in e) && (b in d ==> d[b] == e[b]) {
      assert (b in d <==> b in Home(g, d)) && (b in e <==> b in Home(g, e));
      assert b in d ==> d[b] == Home(g, d)[b] && e[b] == Home(g, e)[b];
    }
  }

  lemma {:induction false} SafeStays(g: Geometry, h: History, h': History, trace: seq<Write>)
    requires Safe(g, h, trace) && h'.v0 == h.v0 && h'.d0 == h.d0 && h'.t0 == h.t0
    requires h.stores <= h'.stores && h.cuts <= h'.cuts
    ensures Safe(g, h', trace)
  {
    hide Apply, HomeAfter, Recoverable, Recovered, Home;
    forall j: nat | |h.t0| + j <= |trace| ensures Recovers(g, h', DiskAt(h', trace, j)) {
      assert Recovers(g, h, DiskAt(h, trace, j));
      var i :| 0 <= i < |h.cuts| && h.cuts[i] <= |h.stores|
        && Home(g, Recovered(g, DiskAt(h, trace, j))) == HomeAfter(g, h, h.cuts[i]);
      SameAfter(g, h, h', h.cuts[i]);
      assert h'.cuts[i] == h.cuts[i];
    }
  }

  // ----- a commit -----

  /** All stores so far are on their way to disk. */
  ghost function Committing(h: History): History { h.(cuts := h.cuts + [|h.stores|]) }

  lemma {:induction false} CommitSafe(g: Geometry, h: History, disk: Disk, contents: Disk, t1: seq<Write>,
      t2: seq<Write>)
    requires Story(g, h, disk, contents, t1) && Safe(g, h, t1) && t1 <= t2
    requires forall j :: 0 <= j <= |t2| - |t1| ==>
      CrashSafe(g, Home(g, disk), Home(g, contents), Apply(disk, WritesSince(t1, t2, j)))
    ensures Safe(g, Committing(h), t2)
  {
    hide Apply, HomeAfter, Recoverable, Recovered, Home, CrashSafe, WritesSince;
    var h' := Committing(h);
    SafeStays(g, h, h', t1);
    forall j: nat | |h.t0| + j <= |t2| ensures Recovers(g, h', DiskAt(h', t2, j)) {
      if |h.t0| + j <= |t1| {
        assert Recovers(g, h', DiskAt(h', t1, j));
        assert t1[|h.t0|..|h.t0| + j] == t2[|h.t0|..|h.t0| + j];
      } else {
        CommitPoint(g, h, disk, contents, t1, t2, |h.t0| + j - |t1|);
      }
    }
  }

  lemma {:induction false} CommitPoint(g: Geometry, h: History, disk: Disk, contents: Disk, t1: seq<Write>,
      t2: seq<Write>, i: nat)
    requires Story(g, h, disk, contents, t1) && t1 <= t2 && |t1| + i <= |t2|
    requires CrashSafe(g, Home(g, disk), Home(g, contents), Apply(disk, WritesSince(t1, t2, i)))
    ensures Recovers(g, Committing(h), DiskAt(h, t2, |t1| - |h.t0| + i))
  {
    hide Apply, Recoverable, Recovered, Home;
    var h', n := Committing(h), |h.cuts|;
    var xs, ys := t1[|h.t0|..], t2[|t1|..|t1| + i];
    assert WritesSince(t1, t2, i) == ys;
    assert t2[|h.t0|..|t1| + i] == xs + ys;
    ApplyAppend(h.d0, xs, ys);
    SameAfter(g, h, h', LastCut(h));
    SameAfter(g, h, h', |h.stores|);
    assert h'.cuts[n] == |h.stores| && h'.cuts[n - 1] == LastCut(h);
  }

  /** The commit is over and nothing is outstanding. */
  ghost function Done(h: History): History { Committing(h).(ids := [], epoch := h.next) }

  lemma {:induction false} DoneNumbers(h: History)
    requires Numbered(h)
    ensures Numbered(Done(h))
  {
    assert LastCut(Done(h)) == |h.stores|;
  }

  lemma {:induction false} DoneStory(g: Geometry, h: History, d1: Disk, v1: Disk, t1: seq<Write>, d2: Disk, v2: Disk,
      t2: seq<Write>)
    requires Story(g, h, d1, v1, t1) && t1 <= t2 && d2 == Apply(d1, t2[|t1|..])
    requires Home(g, d2) == Home(g, v2) == Home(g, v1)
    ensures Story(g, Done(h), d2, v2, t2)
  {
    hide Apply, Home;
    var xs, ys := t1[|h.t0|..], t2[|t1|..];
    assert t2[|h.t0|..] == xs + ys;
    ApplyAppend(h.d0, xs, ys);
    assert LastCut(Done(h)) == |h.stores|;
  }

  // ----- the processes -----

  /** The stores among acts that were made. */
  ghost function StoresOf(acts: seq<Act>, did: seq<bool>): seq<Write>
    requires |did| == |acts|
  {
    if acts == [] then []
    else
      var n := |acts| - 1;
      StoresOf(acts[..n], did[..n]) + if did[n] && acts[n].Store? then [Write(acts[n].bn, acts[n].data)] else []
  }

  lemma {:induction false} NoStores(acts: seq<Act>, did: seq<bool>)
    requires acts == [] && did == []
    ensures StoresOf(acts, did) == []
  {
  }

  lemma {:induction false} More(a: seq<Write>, b: seq<Write>, c: seq<Write>)
    ensures a + b + c == a + (b + c)
  {
  }

  lemma {:induction false} OneMore(acts: seq<Act>, did: seq<bool>, i: nat, made: bool)
    requires i < |acts| && |did| == i && (made ==> acts[i].Store?)
    ensures StoresOf(acts[..i + 1], did + [made]) ==
      StoresOf(acts[..i], did) + if made then [Write(acts[i].bn, acts[i].data)] else []
  {
    assert acts[..i + 1][..i] == acts[..i] && (did + [made])[..i] == did;
  }

  // ----- what a step does -----

  /** The state of the system: the processes inside an operation, the buffers changed and not logged
      yet, the cache, the disk and its write trace, the blocks in the log, those each operation has
      logged, and the history. */
  datatype View = View(who: seq<nat>, unsaved: set<nat>, buf: Bufs, refs: Refs, disk: Disk, trace: seq<Write>,
    logged: seq<nat>, ops: seq<set<nat>>, h: History)

  /** Process me, inside an operation, holds buffer b locked and filled, with home block bn. */
  ghost predicate Owns(g: Geometry, v: View, me: nat, b: nat, bn: nat) {
    && me in v.who && b < NBUF && v.buf[b].pid == me && v.buf[b].valid
    && v.buf[b].dev == ROOTDEV && v.buf[b].blockno == bn && !g.InLog(bn)
  }

  /** Operation k, of process me, leaves. */
  ghost predicate Leaves(v: View, me: nat, k: nat, v': View) {
    && k < |v.who| == |v.ops| == |v.h.ids| && v.who[k] == me
    && v' == v.(who := Dropped(v.who, k), ops := Dropped(v.ops, k), h := v.h.(ids := Dropped(v.h.ids, k)))
    && forall q :: q in v'.who <==> q in v.who && q != me
  }

  ghost function Dropped<T>(s: seq<T>, k: nat): seq<T>
    requires k < |s|
  { s[..k] + s[k + 1..] }

  /** begin_op: refused while the log might not have room for one more operation. */
  ghost predicate BeginStep(v: View, me: nat, v': View) {
    if me == 0 || me in v.who || |v.logged| + (|v.ops| + 1) * MAXOPBLOCKS > LOGSIZE then v' == v
    else v' == v.(who := v.who + [me], ops := v.ops + [{}], h := Begun(v.h))
  }

  /** bget: the buffer of the block, else one that is not in use; a panic if there is neither. */
  ghost predicate GetStep(v: View, me: nat, bn: nat, v': View, ok: bool) {
    if me == 0 || bn !in v.disk || exists i :: 0 <= i < NBUF && v.buf[i].Caches(bn) && me in v.refs[i] then
      ok && v' == v
    else if forall i :: 0 <= i < NBUF ==> !v.buf[i].Caches(bn) && v.buf[i].InUse() then !ok && v' == v
    else ok && exists i :: Gets(v, me, bn, i, v')
  }

  ghost predicate Gets(v: View, me: nat, bn: nat, i: nat, v': View) {
    && i < NBUF && me !in v.refs[i]
    && (v.buf[i].Caches(bn) || (!v.buf[i].InUse() && forall j :: 0 <= j < NBUF ==> !v.buf[j].Caches(bn)))
    && var b := if v.buf[i].Caches(bn) then v.buf[i].(refcnt := v.buf[i].refcnt + 1)
                else Buf(ROOTDEV, bn, false, false, 1, v.buf[i].pid, v.buf[i].data);
       v' == v.(buf := v.buf[i := b], refs := v.refs[i := v.refs[i] + {me}])
  }

  ghost predicate LockStep(v: View, me: nat, b: nat, v': View) {
    if b < NBUF && v.buf[b].pid == 0 && me in v.refs[b] then v' == v.(buf := v.buf[b := v.buf[b].(pid := me)])
    else v' == v
  }

  ghost predicate FillStep(v: View, me: nat, b: nat, v': View) {
    if b < NBUF && v.buf[b].pid == me != 0 && !v.buf[b].valid then
      && v.buf[b].blockno in v.disk
      && v' == v.(buf := v.buf[b := v.buf[b].(valid := true, data := v.disk[v.buf[b].blockno])])
    else v' == v
  }

  ghost predicate StoreStep(g: Geometry, v: View, me: nat, b: nat, bn: nat, data: Block, v': View) {
    if Owns(g, v, me, b, bn) then
      exists k :: 0 <= k < |v.who| == |v.h.ids| && v.who[k] == me
        && v' == v.(buf := v.buf[b := v.buf[b].(data := data)], unsaved := v.unsaved + {b},
                    h := Stored(v.h, Write(bn, data), v.h.ids[k]))
    else v' == v
  }

  /** log_write: a panic if the log is full, even for a block that is in it. */
  ghost predicate LogStep(g: Geometry, v: View, me: nat, b: nat, v': View, ok: bool) {
    if b < NBUF && v.buf[b].blockno < U32 && Owns(g, v, me, b, v.buf[b].blockno) then
      if |v.logged| < LOGSIZE && |v.logged| + 1 < g.size then
        ok && exists k :: 0 <= k < |v.who| == |v.ops| && v.who[k] == me && var bn := v.buf[b].blockno;
          v' == v.(buf := v.buf[b := v.buf[b].(dirty := true)], unsaved := v.unsaved - {b},
                   logged := if bn in v.logged then v.logged else v.logged + [bn],
                   ops := v.ops[k := v.ops[k] + {bn}])
      else !ok && v' == v
    else ok && v' == v
  }

  ghost predicate UnlockStep(v: View, me: nat, b: nat, v': View) {
    if b < NBUF && v.buf[b].pid == me != 0 && b !in v.unsaved then v' == v.(buf := v.buf[b := v.buf[b].(pid := 0)])
    else v' == v
  }

  ghost predicate UnrefStep(v: View, me: nat, b: nat, v': View) {
    if b < NBUF && me in v.refs[b] && v.buf[b].pid != me then
      && v.buf[b].refcnt >= 1
      && v' == v.(buf := v.buf[b := v.buf[b].(refcnt := v.buf[b].refcnt - 1)], refs := v.refs[b := v.refs[b] - {me}])
    else v' == v
  }

  /** end_op of a process that has released its buffers: its operation leaves.  If it was the last,
      everything stored so far goes to disk and the log is empty again; a panic on the way means
      that other readers have all but one of the buffers that are not pinned. */
  ghost predicate EndStep(g: Geometry, v: View, me: nat, v': View, ok: bool) {
    if me !in v.who || exists i :: 0 <= i < NBUF && me in v.refs[i] then ok && v' == v
    else if |v.who| > 1 then ok && exists k: nat :: Leaves(v, me, k, v')
    else
      && v'.h == Done(v.h)
      && if ok then
           && v'.who == [] && v'.unsaved == {} && v'.logged == [] && v'.ops == [] && v'.disk.Keys == v.disk.Keys
           && Home(g, v'.disk) == Home(g, Views(v'.buf, v'.disk)) == Home(g, Views(v.buf, v.disk))
         else |HeldByOthers(v'.refs, me)| + |Dirty(v'.buf)| + 1 >= NBUF
  }

  /** What step a makes of v; ok is false for a panic. */
  ghost predicate Next(g: Geometry, v: View, a: Act, v': View, ok: bool) {
    match a
    case Begin(me) => ok && BeginStep(v, me, v')
    case Get(me, bn) => GetStep(v, me, bn, v', ok)
    case Lock(me, b) => ok && LockStep(v, me, b, v')
    case Fill(me, b) => ok && FillStep(v, me, b, v')
    case Store(me, b, bn, data) => ok && StoreStep(g, v, me, b, bn, data, v')
    case LogIt(me, b) => LogStep(g, v, me, b, v', ok)
    case Unlock(me, b) => ok && UnlockStep(v, me, b, v')
    case Unref(me, b) => ok && UnrefStep(v, me, b, v')
    case End(me) => EndStep(g, v, me, v', ok)
  }

  // ----- runs -----

  /** vs are the states the first n acts go through; did[i] tells whether acts[i] is a store by a
      process that owns the buffer.  Without ok the last one panicked. */
  ghost predicate Steps(g: Geometry, vs: seq<View>, acts: seq<Act>, did: seq<bool>, n: nat, ok: bool) {
    && n <= |acts| && |vs| == n + 1 && |did| == n
    && forall i :: 0 <= i < n ==> Taken(g, vs[i], acts[i], vs[i + 1], did[i], ok || i < n - 1)
  }

  ghost predicate Taken(g: Geometry, v: View, a: Act, v': View, did: bool, ok: bool) {
    Next(g, v, a, v', ok) && (did <==> a.Store? && Owns(g, v, a.me, a.b, a.bn))
  }

  lemma {:induction false} NoSteps(g: Geometry, v: View, acts: seq<Act>)
    ensures Steps(g, [v], acts, [], 0, true)
  {
  }

  lemma {:induction false} OneStep(g: Geometry, vs: seq<View>, acts: seq<Act>, did: seq<bool>, n: nat, v: View,
      made: bool, ok: bool)
    requires Steps(g, vs, acts, did, n, true) && n < |acts| && Next(g, vs[n], acts[n], v, ok)
    requires made <==> acts[n].Store? && Owns(g, vs[n], acts[n].me, acts[n].b, acts[n].bn)
    ensures Steps(g, vs + [v], acts, did + [made], n + 1, ok)
  {
    hide Next, Owns;
    var ws, ds := vs + [v], did + [made];
    forall i | 0 <= i < n + 1 ensures Taken(g, ws[i], acts[i], ws[i + 1], ds[i], ok || i < n) {
      if i < n { assert Taken(g, vs[i], acts[i], vs[i + 1], did[i], true); }
    }
  }

  /** What a step adds to the history. */
  lemma {:induction false} StepStores(g: Geometry, v: View, a: Act, v': View, ok: bool, did: bool)
    requires Next(g, v, a, v', ok) && (did <==> a.Store? && Owns(g, v, a.me, a.b, a.bn))
    ensures v'.h.v0 == v.h.v0 && v'.h.d0 == v.h.d0 && v'.h.t0 == v.h.t0 && v.h.cuts <= v'.h.cuts
    ensures v'.h.stores == v.h.stores + if did then [Write(a.bn, a.data)] else []
  {
    hide Owns, Home, Views, Dirty;
  }

  /** Process me begins an operation in step i. */
  ghost predicate Enters(vs: seq<View>, acts: seq<Act>, i: nat, me: nat) {
    && i < |acts| && i + 1 < |vs| && acts[i] == Begin(me)
    && me !in vs[i].who && me in vs[i + 1].who
  }

  /** Process me, its buffers released, ends its operation in step i. */
  ghost predicate Exits(vs: seq<View>, acts: seq<Act>, i: nat, me: nat) {
    && i < |acts| && i < |vs| && acts[i] == End(me)
    && me in vs[i].who && forall b :: 0 <= b < NBUF ==> me !in vs[i].refs[b]
  }

  ghost predicate EveryoneEnds(vs: seq<View>, acts: seq<Act>) {
    forall i: nat, me: nat :: Enters(vs, acts, i, me) ==> exists j: nat :: i < j && Exits(vs, acts, j, me)
  }

  /** Processes come in by begin_op alone, and end_op takes them out. */
  lemma {:induction false} WhoStep(g: Geometry, v: View, a: Act, v': View, me: nat)
    requires Next(g, v, a, v', true)
    ensures me in v'.who && me !in v.who ==> a == Begin(me)
    ensures a == End(me) && me in v.who && (forall b :: 0 <= b < NBUF ==> me !in v.refs[b]) ==> me !in v'.who
  {
    hide Owns, Home, Views, Dirty;
  }

  /** Who is inside began at some step and has been inside since. */
  lemma {:induction false} Inside(g: Geometry, vs: seq<View>, acts: seq<Act>, did: seq<bool>, n: nat, k: nat, me: nat)
      returns (i: nat)
    requires Steps(g, vs, acts, did, n, true) && k <= n && me in vs[k].who && me !in vs[0].who
    ensures i < k && Enters(vs, acts, i, me) && forall j :: i < j <= k ==> me in vs[j].who
  {
    hide Next, Owns;
    assert Taken(g, vs[k - 1], acts[k - 1], vs[k], did[k - 1], true);
    WhoStep(g, vs[k - 1], acts[k - 1], vs[k], me);
    if me in vs[k - 1].who { i := Inside(g, vs, acts, did, n, k - 1, me); } else { i := k - 1; }
  }

  /** If everyone who begins ends, nobody is left. */
  lemma {:induction false} NobodyLeft(g: Geometry, vs: seq<View>, acts: seq<Act>, did: seq<bool>)
    requires Steps(g, vs, acts, did, |acts|, true) && vs[0].who == [] && EveryoneEnds(vs, acts)
    ensures vs[|acts|].who == []
  {
    hide Next, Owns;
    var n := |acts|;
    if vs[n].who != [] {
      var me := vs[n].who[0];
      var i := Inside(g, vs, acts, did, n, n, me);
      var j: nat :| i < j && Exits(vs, acts, j, me);
      assert Taken(g, vs[j], acts[j], vs[j + 1], did[j], true);
      WhoStep(g, vs[j], acts[j], vs[j + 1], me);
    }
  }

  class Kernel {
    const log: Logger
    /** The processes inside an operation. */
    var who: seq<nat>
    /** The buffers changed and not logged yet. */
    var unsaved: set<nat>
    ghost var h: History

    ghost predicate Procs()
      reads this, log, log.cache
    {
      && |who| == |log.ops| == |h.ids| && 0 !in who && (forall i, j :: 0 <= i < j < |who| ==> who[i] != who[j])
      && unsaved == log.cache.unlogged
      && forall b :: b in unsaved ==> 0 <= b < NBUF && log.cache.buf[b].pid in who
    }

    /** The logging invariant (exactly the logged blocks are pinned, the log on disk is empty), and
        the history. */
    ghost predicate Valid()
      reads this, log, log.cache
    {
      && log.Valid() && Procs() && Numbered(h)
      && Story(log.g, h, log.cache.disk, log.cache.Contents(), log.cache.trace)
      && Safe(log.g, h, log.cache.trace)
    }

    ghost function Now(): View
      reads this, log, log.cache
    {
      View(who, unsaved, log.cache.buf, log.cache.refs, log.cache.disk, log.cache.trace,
           if log.n <= |log.block| then log.block[..log.n] else [], log.ops, h)
    }

    /** Nobody runs yet. */
    constructor (l: Logger)
      requires l.Valid() && l.outstanding == 0
      ensures log == l && Valid() && fresh(this)
      ensures h == History(l.cache.disk, l.cache.Contents(), l.cache.trace, [], [], [0], [], 0, 0)
    {
      log, who, unsaved := l, [], {};
      h := History(l.cache.disk, l.cache.Contents(), l.cache.trace, [], [], [0], [], 0, 0);
      new;
      AtStart(l);
    }

    /** A step of the cache alone. */
    twostate lemma {:induction false} CacheStep()
      requires old(Valid()) && log.cache.Valid() && log.cache.disk == old(log.cache.disk)
      requires log.cache.trace == old(log.cache.trace) && log.cache.Contents() == old(log.cache.Contents())
      requires log.cache.Pinned() == old(log.cache.Pinned()) && log.cache.unlogged == old(log.cache.unlogged)
      requires unchanged(this) && unchanged(log)
      requires forall b :: b in unsaved ==> log.cache.buf[b].pid == old(log.cache.buf)[b].pid
      ensures Valid()
    {
      hide Cache.Valid, Cache.Contents, Cache.Pinned, Logger.Core, Numbered, Story, Safe;
      log.CacheStepKeepsValid();
    }

    /** Whatever happens, even a panic: a crash after any disk write recovers to a commit point,
        and commit points do not split operations. */
    ghost predicate Told()
      reads this, log, log.cache
    { Numbered(h) && Safe(log.g, h, log.cache.trace) }

    method DoBegin(me: nat)
      requires Valid()
      modifies this, log
      ensures Valid() && BeginStep(old(Now()), me, Now())
    {
      hide Cache.Valid, Cache.Contents, Cache.Pinned, Logger.Core, Story, Safe, Numbered;
      if me == 0 || me in who { return; }
      log.CoreListed(0);
      ghost var was := log.Reserved();
      var started := log.BeginOp();
      if started {
        assert log.ops == was.ops + [{}];
        who := who + [me];
        BeginNumbers(h);
        h := Begun(h);
        SameTale(log.g, old(h), h, log.cache.disk, log.cache.Contents(), log.cache.trace);
      } else {
        assert log.ops == was.ops;
      }
    }

    method DoGet(me: nat, bn: nat) returns (ok: bool)
      requires Valid()
      modifies log.cache
      ensures Valid() && GetStep(old(Now()), me, bn, Now(), ok)
    {
      hide Cache.Contents, Cache.Pinned, Logger.Core, Numbered, Story, Safe, Inv, Linked, AllListed;
      var cache := log.cache;
      log.CoreListed(0);
      ok := true;
      if me != 0 && bn in cache.disk && forall i :: 0 <= i < NBUF && cache.buf[i].Caches(bn) ==> me !in cache.refs[i] {
        InUseStays();
        var r := cache.Bget(bn, me);
        ok := r.Some?;
        assert ok ==> Gets(old(Now()), me, bn, r.value, Now());
      }
      CacheStep();
    }

    method DoLock(me: nat, b: nat)
      requires Valid()
      modifies log.cache
      ensures Valid() && LockStep(old(Now()), me, b, Now())
    {
      hide Cache.Contents, Cache.Pinned, Logger.Core, Numbered, Story, Safe, Inv, Linked, AllListed;
      log.CoreListed(0);
      if b < NBUF && log.cache.buf[b].pid == 0 && me in log.cache.refs[b] {
        InUseStays();
        log.cache.Lock(b, me);
      }
      CacheStep();
    }

    method DoFill(me: nat, b: nat)
      requires Valid()
      modifies log.cache
      ensures Valid() && FillStep(old(Now()), me, b, Now())
    {
      hide Cache.Contents, Cache.Pinned, Logger.Core, Numbered, Story, Safe, Inv, Linked, AllListed;
      log.CoreListed(0);
      if b < NBUF && log.cache.buf[b].pid == me != 0 && !log.cache.buf[b].valid { log.cache.Fill(b); }
      CacheStep();
    }

    method DoUnlock(me: nat, b: nat)
      requires Valid()
      modifies log.cache
      ensures Valid() && UnlockStep(old(Now()), me, b, Now())
    {
      hide Cache.Contents, Cache.Pinned, Logger.Core, Numbered, Story, Safe, Inv, Linked, AllListed;
      log.CoreListed(0);
      if b < NBUF && log.cache.buf[b].pid == me != 0 && b !in unsaved { log.cache.Unlock(b); }
      CacheStep();
    }

    method DoUnref(me: nat, b: nat)
      requires Valid()
      modifies log.cache
      ensures Valid() && UnrefStep(old(Now()), me, b, Now())
    {
      hide Cache.Contents, Cache.Pinned, Logger.Core, Numbered, Story, Safe, Inv, Linked, AllListed, MovedToFront;
      log.CoreListed(0);
      if b < NBUF && me in log.cache.refs[b] && log.cache.buf[b].pid != me { log.cache.Unref(b, me); }
      CacheStep();
    }

    /** A changed buffer is locked, so it is in use. */
    lemma {:induction false} InUseStays()
      requires log.cache.Valid() && unsaved == log.cache.unlogged
      ensures forall b :: b in unsaved ==> 0 <= b < NBUF && log.cache.buf[b].pid != 0 && log.cache.refs[b] != {}
    {
      var c := log.cache;
      forall b | b in unsaved ensures 0 <= b < NBUF && c.buf[b].pid != 0 && c.refs[b] != {} {
        assert BufOk(c.buf[b], c.refs[b], b in c.unlogged, c.disk);
      }
    }

    /** The holder of a locked buffer changes it; did tells whether the step was possible. */
    method DoStore(me: nat, b: nat, bn: nat, data: Block) returns (did: bool)
      requires Valid()
      modifies this, log.cache
      ensures Valid() && StoreStep(log.g, old(Now()), me, b, bn, data, Now())
      ensures did <==> Owns(log.g, old(Now()), me, b, bn)
    {
      hide Cache.Valid, Cache.Contents, Cache.Pinned, Logger.Core, Numbered, Story, Safe;
      var cache := log.cache;
      did := me in who && b < NBUF && cache.buf[b].pid == me && cache.buf[b].valid && cache.buf[b].dev == ROOTDEV
        && cache.buf[b].blockno == bn && !log.g.InLog(bn);
      if !did { return; }
      log.CoreListed(b);
      ghost var k: nat :| k < |who| && who[k] == me;
      ghost var w, id := Write(bn, data), h.ids[k];
      StoreNumbers(h, w, k);
      StoreStory(log.g, h, cache.disk, cache.Contents(), cache.trace, w, id);
      SafeStays(log.g, h, Stored(h, w, id), cache.trace);
      cache.Store(b, data);
      unsaved := unsaved + {b};
      h := Stored(h, w, id);
      log.CacheStepKeepsValid();
    }

    method DoLog(me: nat, b: nat) returns (ok: bool)
      requires Valid()
      modifies this, log, log.cache
      ensures Told() && (ok ==> Valid()) && LogStep(log.g, old(Now()), me, b, Now(), ok)
    {
      hide Cache.Valid, Cache.Contents, Cache.Pinned, Logger.Core, Numbered, Story, Safe;
      var cache := log.cache;
      if !(me in who && b < NBUF && cache.buf[b].pid == me && cache.buf[b].valid && cache.buf[b].dev == ROOTDEV
           && cache.buf[b].blockno < U32 && !log.g.InLog(cache.buf[b].blockno)) {
        return true;
      }
      ghost var k: nat :| k < |who| && who[k] == me;
      log.CoreListed(b);
      ghost var was := log.Reserved();
      ok := log.LogWrite(k, b, me);
      log.CoreListed(b);
      assert ok ==> log.Reserved() == Reservation.Do(was, Reservation.Write(k, cache.buf[b].blockno));
      if ok { unsaved := unsaved - {b}; }
    }

    /** end_op of a process that has released all its buffers. */
    method DoEnd(me: nat) returns (ok: bool)
      requires Valid()
      modifies this, log, log.cache
      ensures Told() && (ok ==> Valid()) && EndStep(log.g, old(Now()), me, Now(), ok)
      ensures me in old(who) && |old(who)| == 1 && (forall i :: 0 <= i < NBUF ==> me !in old(log.cache.refs)[i]) ==>
        LastCut(h) == |h.stores| && (ok ==> Home(log.g, log.cache.disk) == HomeAfter(log.g, h, |h.stores|))
    {
      hide Cache.Valid, Logger.Core, Numbered, Story, Safe, Home, HomeAfter, Views, Dirty, HeldByOthers, Leaves, Done,
           LastCut;
      if me !in who || exists i :: 0 <= i < NBUF && me in log.cache.refs[i] { return true; }
      var k: nat :| k < |who| && who[k] == me;
      log.CoreListed(0);
      LastHolds(me, k);
      if |who| == 1 {
        ok := LastEnd(me);
      } else {
        EarlyEnd(me, k);
        ok := true;
      }
    }

    /** The last operation ends and commits. */
    method LastEnd(me: nat) returns (ok: bool)
      requires Valid() && |who| == 1 && log.cache.Holds(me, {})
      modifies this, log, log.cache
      ensures Told() && (ok ==> Valid()) && h == Done(old(h)) && LastCut(h) == |h.stores|
      ensures ok ==> who == [] && unsaved == {} && log.n == 0 <= |log.block| && log.ops == []
      ensures ok ==> log.cache.disk.Keys == old(log.cache.disk).Keys
      ensures ok ==> Home(log.g, log.cache.disk) == Home(log.g, log.cache.Contents())
      ensures ok ==> Home(log.g, log.cache.disk) == Home(log.g, old(log.cache.Contents()))
      ensures ok ==> Home(log.g, log.cache.disk) == HomeAfter(log.g, h, |h.stores|)
      ensures !ok ==> log.cache.Crowded(me)
    {
      hide Cache.Valid, Cache.Contents, Cache.Pinned, Cache.Holds, Logger.Core, Numbered, Story, Safe, Home, Apply,
           CrashSafe, WritesSince;
      var cache := log.cache;
      ghost var d1, v1, t1 := cache.disk, cache.Contents(), cache.trace;
      ok := log.EndOp(0, me);
      CommitSafe(log.g, h, d1, v1, t1, cache.trace);
      DoneNumbers(h);
      SameSafe(log.g, Committing(h), Done(h), cache.trace);
      if ok {
        DoneStory(log.g, h, d1, v1, t1, cache.disk, cache.Contents(), cache.trace);
        StorySays(log.g, Done(h), cache.disk, cache.Contents(), cache.trace);
        HoldsNothing(me);
        who, unsaved := [], {};
        log.CoreListed(0);
      }
      h := Done(h);
    }

    lemma {:induction false} HoldsNothing(me: nat)
      requires log.cache.Holds(me, {})
      ensures log.cache.unlogged == {}
    {
    }

    /** Others are still outstanding. */
    method EarlyEnd(me: nat, k: nat)
      requires Valid() && |who| > 1 && k < |who| && who[k] == me
      requires forall b :: b in unsaved ==> log.cache.buf[b].pid != me
      modifies this, log, log.cache
      ensures Valid() && Leaves(old(Now()), me, k, Now())
    {
      hide Cache.Valid, Cache.Contents, Cache.Pinned, Cache.Holds, Logger.Core, Numbered, Story, Safe, Home, Apply,
           CrashSafe, WritesSince;
      log.CoreListed(0);
      ghost var was := log.Reserved();
      var ok := log.EndOp(k, me);
      log.CoreListed(0);
      assert log.Reserved() == Reservation.Do(was, Reservation.End(k));
      Missing(who, k);
      who := who[..k] + who[k + 1..];
      ghost var h' := h.(ids := h.ids[..k] + h.ids[k + 1..]);
      SameTale(log.g, h, h', log.cache.disk, log.cache.Contents(), log.cache.trace);
      EndNumbers(h, k);
      h := h';
    }

    /** Any step of any process; ok is false for a panic, did tells whether a store was made. */
    method Step(a: Act) returns (ok: bool, did: bool)
      requires Valid()
      modifies this, log, log.cache
      ensures Told() && (ok ==> Valid()) && Next(log.g, old(Now()), a, Now(), ok)
      ensures did <==> a.Store? && Owns(log.g, old(Now()), a.me, a.b, a.bn)
    {
      hide Logger.Valid, Procs, Numbered, Story, Safe, Now, Owns, BeginStep, GetStep, LockStep, FillStep, StoreStep,
           LogStep, UnlockStep, UnrefStep, EndStep;
      ok, did := true, false;
      match a {
        case Begin(me) => DoBegin(me);
        case Get(me, bn) => ok := DoGet(me, bn);
        case Lock(me, b) => DoLock(me, b);
        case Fill(me, b) => DoFill(me, b);
        case Store(me, b, bn, data) => did := DoStore(me, b, bn, data);
        case LogIt(me, b) => ok := DoLog(me, b);
        case Unlock(me, b) => DoUnlock(me, b);
        case Unref(me, b) => DoUnref(me, b);
        case End(me) => ok := DoEnd(me);
      }
    }

    /** Any interleaving.  did[i] tells whether acts[i] was a store that was made.  A crash after
        any write to the disk, a panic's last one included, recovers to the home blocks at some
        commit point: those that the stores of whole operations leave, in the order they were
        made.  While it runs, the disk is at the last commit point and the cache has everything. */
    method Run(acts: seq<Act>) returns (ok: bool, ghost did: seq<bool>, ghost vs: seq<View>)
      requires Valid()
      modifies this, log, log.cache
      ensures Told() && (ok ==> Valid() && |did| == |acts|)
      ensures h.v0 == old(h.v0) && h.d0 == old(h.d0) && h.t0 == old(h.t0) && old(h.cuts) <= h.cuts
      ensures |did| <= |acts| && h.stores == old(h.stores) + StoresOf(acts[..|did|], did)
      ensures Steps(log.g, vs, acts, did, |did|, ok) && vs[0] == old(Now()) && vs[|did|] == Now()
      ensures ok && who == [] ==> Home(log.g, log.cache.disk) == HomeAfter(log.g, h, |h.stores|)
      ensures ok && old(who) == [] && EveryoneEnds(vs, acts) ==> who == []
    {
      hide Valid, Told, StoresOf, Next, Now, Owns, Steps, Home, HomeAfter, EveryoneEnds;
      ok, did, vs := true, [], [Now()];
      NowSays();
      NoSteps(log.g, Now(), acts);
      NoStores(acts[..0], did);
      ValidSays();
      var i := 0;
      while i < |acts|
        invariant 0 <= i <= |acts| && ok && Valid() && Told() && |did| == i
        invariant h.v0 == old(h.v0) && h.d0 == old(h.d0) && h.t0 == old(h.t0) && old(h.cuts) <= h.cuts
        invariant h.stores == old(h.stores) + StoresOf(acts[..i], did)
        invariant Steps(log.g, vs, acts, did, i, true) && |vs| == i + 1 && vs[0] == old(Now()) && vs[i] == Now()
      {
        var made;
        NowSays();
        ok, made := Step(acts[i]);
        NowSays();
        StepStores(log.g, vs[i], acts[i], Now(), ok, made);
        OneStep(log.g, vs, acts, did, i, Now(), made, ok);
        vs := vs + [Now()];
        OneMore(acts, did, i, made);
        More(old(h.stores), StoresOf(acts[..i], did), if made then [Write(acts[i].bn, acts[i].data)] else []);
        did := did + [made];
        i := i + 1;
        if !ok { return; }
      }
      NowSays();
      if who == [] { AllOnDisk(); }
      if old(who) == [] && EveryoneEnds(vs, acts) { NobodyLeft(log.g, vs, acts, did); }
    }

    lemma {:induction false} NowSays()
      ensures Now().h == h && Now().who == who
    {
    }

    /** With nobody inside an operation the disk has everything. */
    lemma {:induction false} AllOnDisk()
      requires Valid() && who == []
      ensures Home(log.g, log.cache.disk) == HomeAfter(log.g, h, |h.stores|)
    {
      hide Cache.Contents, Cache.Valid, HomeAfter, Home, Safe, Numbered;
      var c := log.cache;
      forall b | b in c.disk ensures c.Contents()[b] == c.disk[b] { c.UnpinnedIsOnDisk(b); }
      assert c.Contents() == c.disk;
    }

    lemma {:induction false} ValidSays()
      requires Valid()
      ensures Told()
    {
    }

    /** The last process in an operation holds nothing, so nothing is unsaved. */
    lemma {:induction false} LastHolds(me: nat, k: nat)
      requires log.cache.Valid() && Procs() && k < |who| && who[k] == me
      requires forall i :: 0 <= i < NBUF ==> me !in log.cache.refs[i]
      ensures forall b :: b in unsaved ==> log.cache.buf[b].pid != me
      ensures |who| == 1 ==> log.cache.Holds(me, {})
    {
      var c := log.cache;
      forall b | b in unsaved ensures c.buf[b].pid != me {
        assert BufOk(c.buf[b], c.refs[b], b in c.unlogged, c.disk);
      }
    }
  }

  lemma {:induction false} StorySays(g: Geometry, h: History, disk: Disk, contents: Disk, trace: seq<Write>)
    requires Story(g, h, disk, contents, trace)
    ensures Home(g, contents) == HomeAfter(g, h, |h.stores|)
  {
  }

  lemma {:induction false} Missing(who: seq<nat>, k: nat)
    requires k < |who| && forall i, j :: 0 <= i < j < |who| ==> who[i] != who[j]
    ensures forall q :: q in Dropped(who, k) <==> q in who && q != who[k]
  {
    var rest := Dropped(who, k);
    forall q | q in who && q != who[k] ensures q in rest {
      var i :| 0 <= i < |who| && who[i] == q;
      assert rest[if i < k then i else i - 1] == q;
    }
  }

  lemma {:induction false} SameTale(g: Geometry, h: History, h': History, disk: Disk, v: Disk, t: seq<Write>)
    requires Story(g, h, disk, v, t) && Safe(g, h, t) && h' == h.(ids := h'.ids, next := h'.next)
    ensures Story(g, h', disk, v, t) && Safe(g, h', t)
  {
    hide Apply;
    SameAfter(g, h, h', |h.stores|);
    SameAfter(g, h, h', LastCut(h));
    SafeStays(g, h, h', t);
  }

  lemma {:induction false} SameSafe(g: Geometry, h: History, h': History, t: seq<Write>)
    requires Safe(g, h, t) && h' == h.(ids := h'.ids, epoch := h'.epoch)
    ensures Safe(g, h', t)
  {
    SafeStays(g, h, h', t);
  }

  ghost function Begun(h: History): History { h.(ids := h.ids + [h.next], next := h.next + 1) }

  lemma {:induction false} BeginNumbers(h: History)
    requires Numbered(h)
    ensures Numbered(Begun(h))
  {
  }

  lemma {:induction false} EndNumbers(h: History, k: nat)
    requires Numbered(h) && k < |h.ids|
    ensures Numbered(h.(ids := h.ids[..k] + h.ids[k + 1..]))
  {
  }

  lemma {:induction false} AtStart(l: Logger)
    requires l.Valid() && l.outstanding == 0
    ensures var h := History(l.cache.disk, l.cache.Contents(), l.cache.trace, [], [], [0], [], 0, 0);
      && Numbered(h) && Story(l.g, h, l.cache.disk, l.cache.Contents(), l.cache.trace) && Safe(l.g, h, l.cache.trace)
  {
    hide Cache.Contents, Recoverable, Recovered, Home, Cache.Valid;
    var h := History(l.cache.disk, l.cache.Contents(), l.cache.trace, [], [], [0], [], 0, 0);
    var ws: seq<Write> := [];
    assert h.stores[..0] == ws && l.cache.trace[|h.t0|..] == ws;
    forall b | b in l.cache.disk ensures l.cache.Contents()[b] == l.cache.disk[b] { l.cache.UnpinnedIsOnDisk(b); }
    assert l.cache.Contents() == l.cache.disk;
    RecoverClean(l.g, l.cache.disk);
    forall j: nat | |h.t0| + j <= |l.cache.trace| ensures Recovers(l.g, h, DiskAt(h, l.cache.trace, j)) {
      assert l.cache.trace[|h.t0|..|h.t0| + j] == ws;
      assert h.cuts[0] == 0;
    }
  }
}
