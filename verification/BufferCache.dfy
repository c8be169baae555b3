/** The buffer cache (bio.c) over a synchronous disk (memide.c). */
module BufferCache {
  import opened Common
  import opened Blocks
  import opened LogSpec

  const NBUF: nat := 30
  /** Index of bcache.head in the link arrays. */
  const HEAD: nat := 30
  const ROOTDEV: nat := 1

  /** struct buf.  pid is the sleep lock: 0 when free, else the process holding it. */
  datatype Buf = Buf(dev: nat, blockno: nat, valid: bool, dirty: bool, refcnt: nat, pid: nat, data: Block) {
    predicate Caches(bn: nat) { dev == ROOTDEV && blockno == bn }
    predicate InUse() { refcnt > 0 || dirty }
  }

  type Bufs = s: seq<Buf> | |s| == 30 witness seq(30, _ => Buf(0, 0, false, false, 0, 0, Zero()))
  type Refs = s: seq<set<nat>> | |s| == 30 witness seq(30, _ => {})

  // ----- the LRU list -----

  type Links = s: seq<nat> | |s| == 31 && forall i :: 0 <= i < 31 ==> s[i] <= 30
    witness seq(31, _ => 0)

  /** The nodes from the head round to the head again. */
  ghost function Path(lru: seq<nat>): seq<nat> { [HEAD] + lru + [HEAD] }

  ghost predicate Distinct(lru: seq<nat>) {
    && (forall i :: 0 <= i < |lru| ==> lru[i] < NBUF)
    && forall i, j :: 0 <= i < j < |lru| ==> lru[i] != lru[j]
  }

  /** next and prev are the two directions of one circular list. */
  ghost predicate Linked(next: Links, prev: Links, lru: seq<nat>) {
    && Distinct(lru)
    && forall i :: 0 <= i <= |lru| ==> next[Path(lru)[i]] == Path(lru)[i + 1] && prev[Path(lru)[i + 1]] == Path(lru)[i]
  }

  /** b->next->prev = b->prev; b->prev->next = b->next. */
  function UnlinkNext(next: Links, prev: Links, b: nat): Links
    requires b < NBUF
  { next[prev[b] := next[b]] }

  function UnlinkPrev(next: Links, prev: Links, b: nat): Links
    requires b < NBUF
  { prev[next[b] := prev[b]] }

  lemma {:induction false} UnlinkLinked(next: Links, prev: Links, lru: seq<nat>, k: nat)
    requires Linked(next, prev, lru) && k < |lru|
    ensures Linked(UnlinkNext(next, prev, lru[k]), UnlinkPrev(next, prev, lru[k]), lru[..k] + lru[k + 1..])
  {
    var b := lru[k];
    var rest := lru[..k] + lru[k + 1..];
    var p, q := Path(lru), Path(rest);
    assert p[k + 1] == b && next[b] == p[k + 2] && prev[b] == p[k];
    assert forall i :: 0 <= i <= k ==> q[i] == p[i];
    assert forall i :: k < i < |q| ==> q[i] == p[i + 1];
    forall i | 0 <= i <= |rest|
      ensures UnlinkNext(next, prev, b)[q[i]] == q[i + 1] && UnlinkPrev(next, prev, b)[q[i + 1]] == q[i]
    {
      if i < k {
        assert next[p[i]] == p[i + 1] && prev[p[i + 1]] == p[i];
      } else if i > k {
        assert next[p[i + 1]] == p[i + 2] && prev[p[i + 2]] == p[i + 1];
      }
    }
  }

  /** b->next = head.next; b->prev = &head; head.next->prev = b; head.next = b. */
  function PushNext(next: Links, b: nat): Links
    requires b < NBUF
  { next[b := next[HEAD]][HEAD := b] }

  function PushPrev(next: Links, prev: Links, b: nat): Links
    requires b < NBUF
  { prev[b := HEAD][next[HEAD] := b] }

  lemma {:induction false} PushLinked(next: Links, prev: Links, lru: seq<nat>, b: nat)
    requires Linked(next, prev, lru) && b < NBUF && b !in lru
    ensures Linked(PushNext(next, b), PushPrev(next, prev, b), [b] + lru)
  {
    var p, q := Path(lru), Path([b] + lru);
    assert next[HEAD] == p[1] by { assert p[0] == HEAD; }
    assert forall i :: 1 <= i < |q| - 1 ==> q[i + 1] == p[i];
    forall i | 0 <= i <= |lru| + 1
      ensures PushNext(next, b)[q[i]] == q[i + 1] && PushPrev(next, prev, b)[q[i + 1]] == q[i]
    {
      if i >= 2 {
        assert next[p[i - 1]] == p[i] && prev[p[i]] == p[i - 1];
        assert q[i] == p[i - 1] == lru[i - 2];
      }
    }
  }

  /** Every buffer is on the list. */
  ghost predicate AllListed(lru: seq<nat>) { forall i :: 0 <= i < NBUF ==> i in lru }

  lemma {:induction false} MoveToFront(next: Links, prev: Links, lru: seq<nat>, k: nat)
    requires Linked(next, prev, lru) && AllListed(lru) && k < |lru|
    ensures var b, next', prev' := lru[k], UnlinkNext(next, prev, lru[k]), UnlinkPrev(next, prev, lru[k]);
      && Linked(PushNext(next', b), PushPrev(next', prev', b), [b] + (lru[..k] + lru[k + 1..]))
      && AllListed([b] + (lru[..k] + lru[k + 1..]))
  {
    var b, rest := lru[k], lru[..k] + lru[k + 1..];
    UnlinkLinked(next, prev, lru, k);
    PushLinked(UnlinkNext(next, prev, b), UnlinkPrev(next, prev, b), rest, b);
    forall i | 0 <= i < NBUF ensures i in [b] + rest {
      assert i in lru;
      var j :| 0 <= j < |lru| && lru[j] == i;
      if j < k { assert rest[j] == i; } else if j > k { assert rest[j - 1] == i; }
    }
  }

  // ----- cache contents -----

  ghost predicate Unique(buf: seq<Buf>) {
    forall i, j :: 0 <= i < j < |buf| && buf[i].dev == ROOTDEV && buf[j].dev == ROOTDEV ==>
      buf[i].blockno != buf[j].blockno
  }

  /** The newest contents of block bn: the cached copy if there is one, else the disk's. */
  ghost function View(buf: seq<Buf>, disk: Disk, bn: nat): Block
    requires bn in disk
  {
    if exists i :: 0 <= i < |buf| && buf[i].Caches(bn) && buf[i].valid then
      var i :| 0 <= i < |buf| && buf[i].Caches(bn) && buf[i].valid; buf[i].data
    else disk[bn]
  }

  ghost function Views(buf: seq<Buf>, disk: Disk): (v: Disk)
    ensures v.Keys == disk.Keys
  {
    map bn | bn in disk :: View(buf, disk, bn)
  }

  /** The blocks whose newest contents exist only in the cache. */
  ghost function Dirty(buf: seq<Buf>): set<nat> { set i | 0 <= i < |buf| && buf[i].dirty :: buf[i].blockno }

  /** refs[i]: the processes whose references buf[i].refcnt counts.
      unlogged: buffers changed by their holder but not yet passed to log_write or bwrite. */
  ghost predicate BufOk(b: Buf, refs: set<nat>, unlogged: bool, disk: Disk) {
    && b.refcnt == |refs| && 0 !in refs
    && (b.pid != 0 ==> b.pid in refs)
    && (b.dev == ROOTDEV || (b.dev == 0 && !b.valid && !b.dirty && refs == {}))
    && (b.dev == ROOTDEV ==> b.blockno in disk)
    && (b.dirty ==> b.valid)
    && (unlogged ==> b.valid && b.pid != 0)
    && (b.valid && !b.dirty && !unlogged ==> b.blockno in disk && b.data == disk[b.blockno])
  }

  ghost predicate Inv(buf: seq<Buf>, refs: seq<set<nat>>, unlogged: set<nat>, disk: Disk) {
    && |buf| == |refs| == NBUF
    && Unique(buf)
    && (forall i :: 0 <= i < NBUF ==> BufOk(buf[i], refs[i], i in unlogged, disk))
    && (forall i :: i in unlogged ==> 0 <= i < NBUF)
  }

  lemma {:induction false} ViewAt(buf: seq<Buf>, disk: Disk, i: nat)
    requires Unique(buf) && i < |buf| && buf[i].dev == ROOTDEV && buf[i].blockno in disk
    ensures View(buf, disk, buf[i].blockno) == if buf[i].valid then buf[i].data else disk[buf[i].blockno]
  {
    var bn := buf[i].blockno;
    forall j | 0 <= j < |buf| && buf[j].Caches(bn)
      ensures j == i
    {
    }
    if buf[i].valid { assert buf[i].Caches(bn); }
  }

  lemma {:induction false} ViewsAt(buf: seq<Buf>, disk: Disk, i: nat)
    requires Unique(buf) && i < |buf| && buf[i].dev == ROOTDEV && buf[i].blockno in disk && buf[i].valid
    ensures Views(buf, disk)[buf[i].blockno] == buf[i].data
  {
    ViewAt(buf, disk, i);
  }

  lemma {:induction false} ViewUncached(buf: seq<Buf>, disk: Disk, bn: nat)
    requires bn in disk && forall i :: 0 <= i < |buf| ==> !buf[i].Caches(bn)
    ensures View(buf, disk, bn) == disk[bn]
  {
  }

  /** Replacing one buffer by another for the same block changes at most that block's view. */
  lemma {:induction false} ViewsUpdate(buf: seq<Buf>, disk: Disk, i: nat, b: Buf)
    requires Unique(buf) && i < |buf| && buf[i].dev == ROOTDEV && buf[i].blockno in disk
    requires b.dev == ROOTDEV && b.blockno == buf[i].blockno
    ensures Unique(buf[i := b])
    ensures Views(buf[i := b], disk) == Views(buf, disk)[b.blockno := if b.valid then b.data else disk[b.blockno]]
  {
    var buf' := buf[i := b];
    assert Unique(buf');
    ViewAt(buf', disk, i);
    forall bn | bn in disk && bn != b.blockno
      ensures View(buf', disk, bn) == View(buf, disk, bn)
    {
      SameView(buf, buf', disk, disk, bn, i);
    }
  }

  lemma {:induction false} SameView(buf: seq<Buf>, buf': seq<Buf>, disk: Disk, disk': Disk, bn: nat, i: nat)
    requires Unique(buf) && Unique(buf') && |buf| == |buf'| && i < |buf| && buf' == buf[i := buf'[i]]
    requires bn in disk && bn in disk' && disk[bn] == disk'[bn]
    requires !buf[i].Caches(bn) && !buf'[i].Caches(bn)
    ensures View(buf', disk', bn) == View(buf, disk, bn)
  {
    if k :| 0 <= k < |buf| && buf[k].Caches(bn) {
      ViewAt(buf, disk, k);
      assert buf'[k] == buf[k];
      ViewAt(buf', disk', k);
    } else {
      assert forall k :: 0 <= k < |buf| ==> k != i ==> buf'[k] == buf[k];
      ViewUncached(buf, disk, bn);
      ViewUncached(buf', disk', bn);
    }
  }

  /** A buffer that is clean and unheld can be given to another block: nothing is lost. */
  lemma {:induction false} ViewsRecycle(buf: seq<Buf>, refs: seq<set<nat>>, unlogged: set<nat>, disk: Disk, i: nat,
      b: Buf)
    requires Inv(buf, refs, unlogged, disk) && i < NBUF && !buf[i].dirty && buf[i].refcnt == 0
    requires b.dev == ROOTDEV && !b.valid && !b.dirty && b.blockno in disk
    requires forall j :: 0 <= j < NBUF ==> !buf[j].Caches(b.blockno)
    ensures Unique(buf[i := b]) && Views(buf[i := b], disk) == Views(buf, disk) && Dirty(buf[i := b]) == Dirty(buf)
  {
    var buf' := buf[i := b];
    assert BufOk(buf[i], refs[i], i in unlogged, disk);
    assert refs[i] == {};
    forall j | 0 <= j < NBUF && j != i && buf[j].dev == ROOTDEV
      ensures buf[j].blockno != b.blockno
    {
      assert !buf[j].Caches(b.blockno);
    }
    assert Unique(buf');
    forall bn | bn in disk
      ensures View(buf', disk, bn) == View(buf, disk, bn)
    {
      if bn == b.blockno {
        ViewAt(buf', disk, i);
        ViewUncached(buf, disk, bn);
      } else if buf[i].Caches(bn) {
        ViewAt(buf, disk, i);
        forall k | 0 <= k < |buf'| ensures !buf'[k].Caches(bn) {
          if k < i { assert buf[k].dev == ROOTDEV ==> buf[k].blockno != buf[i].blockno; }
          else if i < k { assert buf[k].dev == ROOTDEV ==> buf[k].blockno != buf[i].blockno; }
        }
        ViewUncached(buf', disk, bn);
      } else {
        SameView(buf, buf', disk, disk, bn, i);
      }
    }
    DirtyUpdate(buf, i, b);
  }

  lemma {:induction false} DirtyUpdate(buf: seq<Buf>, i: nat, b: Buf)
    requires i < |buf| && b.dirty == buf[i].dirty && (b.dirty ==> b.blockno == buf[i].blockno)
    ensures Dirty(buf[i := b]) == Dirty(buf)
  {
    var buf' := buf[i := b];
    forall j | 0 <= j < |buf| && buf[j].dirty ensures buf[j].blockno in Dirty(buf') {
      assert buf'[j].dirty && buf'[j].blockno == buf[j].blockno;
    }
    forall j | 0 <= j < |buf| && buf'[j].dirty ensures buf'[j].blockno in Dirty(buf) {
      assert buf[j].dirty && buf[j].blockno == buf'[j].blockno;
    }
  }

  /** Inv after one buffer changes hands or contents. */
  lemma {:induction false} InvUpdate(buf: seq<Buf>, refs: seq<set<nat>>, u: set<nat>, disk: Disk, i: nat, b: Buf,
      rs: set<nat>, u': set<nat>)
    requires Inv(buf, refs, u, disk) && i < NBUF && Unique(buf[i := b])
    requires BufOk(b, rs, i in u', disk) && (u' == u || u' == u + {i} || u' == u - {i})
    ensures Inv(buf[i := b], refs[i := rs], u', disk)
  {
  }

  lemma {:induction false} TakeReference(buf: seq<Buf>, refs: seq<set<nat>>, u: set<nat>, disk: Disk, i: nat, me: nat)
    requires Inv(buf, refs, u, disk) && i < NBUF && buf[i].dev == ROOTDEV && me != 0 && me !in refs[i]
    ensures var b := buf[i].(refcnt := buf[i].refcnt + 1);
      && Inv(buf[i := b], refs[i := refs[i] + {me}], u, disk)
      && Views(buf[i := b], disk) == Views(buf, disk) && Dirty(buf[i := b]) == Dirty(buf)
  {
    var b := buf[i].(refcnt := buf[i].refcnt + 1);
    assert BufOk(buf[i], refs[i], i in u, disk);
    SameContents(buf, disk, i, b);
    InvUpdate(buf, refs, u, disk, i, b, refs[i] + {me}, u);
  }

  /** Changing only the bookkeeping fields of a buffer changes no block. */
  lemma {:induction false} SameContents(buf: seq<Buf>, disk: Disk, i: nat, b: Buf)
    requires Unique(buf) && i < |buf| && buf[i].dev == ROOTDEV && buf[i].blockno in disk
    requires b == buf[i].(refcnt := b.refcnt, pid := b.pid)
    ensures Unique(buf[i := b]) && Views(buf[i := b], disk) == Views(buf, disk) && Dirty(buf[i := b]) == Dirty(buf)
  {
    ViewsUpdate(buf, disk, i, b);
    ViewAt(buf, disk, i);
    DirtyUpdate(buf, i, b);
  }

  lemma {:induction false} Recycle(buf: seq<Buf>, refs: seq<set<nat>>, u: set<nat>, disk: Disk, i: nat, bn: nat,
      me: nat)
    requires Inv(buf, refs, u, disk) && i < NBUF && !buf[i].dirty && buf[i].refcnt == 0 && me != 0
    requires bn in disk && forall j :: 0 <= j < NBUF ==> !buf[j].Caches(bn)
    ensures var b := Buf(ROOTDEV, bn, false, false, 1, buf[i].pid, buf[i].data);
      && Inv(buf[i := b], refs[i := {me}], u, disk) && refs[i] == {}
      && Views(buf[i := b], disk) == Views(buf, disk) && Dirty(buf[i := b]) == Dirty(buf)
  {
    var b := Buf(ROOTDEV, bn, false, false, 1, buf[i].pid, buf[i].data);
    assert BufOk(buf[i], refs[i], i in u, disk);
    ViewsRecycle(buf, refs, u, disk, i, b);
    InvUpdate(buf, refs, u, disk, i, b, {me}, u);
  }

  /** releasesleep: the lock is free, the reference is still counted. */
  lemma {:induction false} DropLock(buf: seq<Buf>, refs: seq<set<nat>>, u: set<nat>, disk: Disk, i: nat)
    requires Inv(buf, refs, u, disk) && i < NBUF && buf[i].pid != 0 && i !in u
    ensures var b := buf[i].(pid := 0);
      && Inv(buf[i := b], refs, u, disk)
      && Views(buf[i := b], disk) == Views(buf, disk) && Dirty(buf[i := b]) == Dirty(buf)
  {
    assert BufOk(buf[i], refs[i], i in u, disk);
    var b := buf[i].(pid := 0);
    SameContents(buf, disk, i, b);
    InvUpdate(buf, refs, u, disk, i, b, refs[i], u);
    assert refs[i := refs[i]] == refs;
  }

  lemma {:induction false} DropReference(buf: seq<Buf>, refs: seq<set<nat>>, u: set<nat>, disk: Disk, i: nat, me: nat)
    requires Inv(buf, refs, u, disk) && i < NBUF && me in refs[i] && buf[i].pid != me
    ensures var b := buf[i].(refcnt := buf[i].refcnt - 1);
      && buf[i].refcnt >= 1
      && Inv(buf[i := b], refs[i := refs[i] - {me}], u, disk)
      && Views(buf[i := b], disk) == Views(buf, disk) && Dirty(buf[i := b]) == Dirty(buf)
  {
    assert BufOk(buf[i], refs[i], i in u, disk);
    assert |refs[i] - {me}| == |refs[i]| - 1;
    var b := buf[i].(refcnt := buf[i].refcnt - 1);
    SameContents(buf, disk, i, b);
    InvUpdate(buf, refs, u, disk, i, b, refs[i] - {me}, u);
  }

  /** The holder stores new data into its buffer. */
  lemma {:induction false} StoreInto(buf: seq<Buf>, refs: seq<set<nat>>, u: set<nat>, disk: Disk, i: nat, data: Block)
    requires Inv(buf, refs, u, disk) && i < NBUF && buf[i].pid != 0 && buf[i].valid
    ensures var b := buf[i].(data := data);
      && b.blockno in disk && Inv(buf[i := b], refs, u + {i}, disk)
      && Views(buf[i := b], disk) == Views(buf, disk)[b.blockno := data] && Dirty(buf[i := b]) == Dirty(buf)
  {
    var b := buf[i].(data := data);
    assert BufOk(buf[i], refs[i], i in u, disk);
    ViewsUpdate(buf, disk, i, b);
    DirtyUpdate(buf, i, b);
    InvUpdate(buf, refs, u, disk, i, b, refs[i], u + {i});
    assert refs[i := refs[i]] == refs;
  }

  /** B_DIRTY keeps the buffer in the cache until it is written. */
  lemma {:induction false} MarkDirty(buf: seq<Buf>, refs: seq<set<nat>>, u: set<nat>, disk: Disk, i: nat)
    requires Inv(buf, refs, u, disk) && i < NBUF && buf[i].valid
    ensures var b := buf[i].(dirty := true);
      && Inv(buf[i := b], refs, u - {i}, disk)
      && Views(buf[i := b], disk) == Views(buf, disk) && Dirty(buf[i := b]) == Dirty(buf) + {b.blockno}
  {
    var b := buf[i].(dirty := true);
    var buf' := buf[i := b];
    assert BufOk(buf[i], refs[i], i in u, disk);
    ViewsUpdate(buf, disk, i, b);
    ViewAt(buf, disk, i);
    InvUpdate(buf, refs, u, disk, i, b, refs[i], u - {i});
    assert refs[i := refs[i]] == refs;
    DirtyMore(buf, i);
  }

  lemma {:induction false} DirtyMore(buf: seq<Buf>, i: nat)
    requires i < |buf|
    ensures Dirty(buf[i := buf[i].(dirty := true)]) == Dirty(buf) + {buf[i].blockno}
  {
    var buf' := buf[i := buf[i].(dirty := true)];
    forall j | 0 <= j < |buf| && buf[j].dirty ensures buf[j].blockno in Dirty(buf') {
      assert buf'[j].dirty && buf'[j].blockno == buf[j].blockno;
    }
    assert buf'[i].dirty;
    forall j | 0 <= j < |buf| && buf'[j].dirty && j != i ensures buf'[j].blockno in Dirty(buf) {
      assert buf[j].dirty && buf[j].blockno == buf'[j].blockno;
    }
  }

  /** Writing a buffer to disk: the block's newest contents are then the disk's. */
  lemma {:induction false} WriteBack(buf: seq<Buf>, refs: seq<set<nat>>, u: set<nat>, disk: Disk, i: nat)
    requires Inv(buf, refs, u, disk) && i < NBUF && buf[i].valid
    ensures var b, d := buf[i].(dirty := false), disk[buf[i].blockno := buf[i].data];
      && b.blockno in disk && Inv(buf[i := b], refs, u - {i}, d)
      && Views(buf[i := b], d) == Views(buf, disk) && Dirty(buf[i := b]) == Dirty(buf) - {b.blockno}
  {
    var b, d := buf[i].(dirty := false), disk[buf[i].blockno := buf[i].data];
    var buf' := buf[i := b];
    assert BufOk(buf[i], refs[i], i in u, disk);
    forall j | 0 <= j < NBUF && j != i && buf[j].dev == ROOTDEV ensures buf[j].blockno != b.blockno {}
    assert Unique(buf');
    forall j | 0 <= j < NBUF ensures BufOk(buf'[j], refs[j], j in u - {i}, d) {
      assert BufOk(buf[j], refs[j], j in u, disk);
    }
    forall bn | bn in disk ensures View(buf', d, bn) == View(buf, disk, bn) {
      if bn == b.blockno {
        ViewAt(buf, disk, i);
        ViewAt(buf', d, i);
      } else {
        SameView(buf, buf', disk, d, bn, i);
      }
    }
    forall j | 0 <= j < NBUF && buf'[j].dirty ensures buf'[j].blockno in Dirty(buf) - {b.blockno} {
      assert BufOk(buf[j], refs[j], j in u, disk);
      assert buf[j].dirty && buf[j].blockno == buf'[j].blockno;
    }
    forall j | 0 <= j < NBUF && buf[j].dirty && buf[j].blockno != b.blockno ensures buf[j].blockno in Dirty(buf') {
      assert buf'[j].dirty && buf'[j].blockno == buf[j].blockno;
    }
  }

  // ----- the cache -----

  /** b is the least recently used buffer that is not in use. */
  ghost predicate LeastRecent(lru: seq<nat>, buf: Bufs, b: nat) {
    exists k ::
      && 0 <= k < |lru| && lru[k] == b && b < NBUF && !buf[b].InUse()
      && forall j :: k < j < |lru| && lru[j] < NBUF ==> buf[lru[j]].InUse()
  }

  /** lru' is lru with b moved to the front. */
  ghost predicate MovedToFront(lru: seq<nat>, b: nat, lru': seq<nat>) {
    exists k :: 0 <= k < |lru| && lru[k] == b && lru' == [b] + (lru[..k] + lru[k + 1..])
  }

  /** The buffers process me has a reference to. */
  ghost function Held(refs: Refs, me: nat): set<nat> { set i | 0 <= i < NBUF && me in refs[i] }

  /** The buffers other processes have a reference to. */
  ghost function HeldByOthers(refs: Refs, me: nat): set<nat> { set i: nat | i < NBUF && refs[i] - {me} != {} }

  /** The numbers below n. */
  ghost function Numbers(n: nat): set<nat> { if n == 0 then {} else Numbers(n - 1) + {n - 1} }

  lemma {:induction false} NumbersSize(n: nat)
    ensures |Numbers(n)| == n && forall i :: i in Numbers(n) ==> i < n
  {
    if n > 0 { NumbersSize(n - 1); }
  }

  lemma {:induction false} SetBound(a: set<nat>, b: set<nat>)
    requires a <= b
    ensures |a| <= |b|
  {
    assert b == a + (b - a);
  }

  lemma {:induction false} UnionBound(a: set<nat>, b: set<nat>)
    ensures |a + b| <= |a| + |b|
  {
    assert a + b == a + (b - a);
    SetBound(b - a, b);
  }

  /** The dirty ones among the first n buffers. */
  ghost function PinnedIn(buf: seq<Buf>, n: nat): set<nat> { set i: nat | i < n && i < |buf| && buf[i].dirty }

  /** Each pinned block is in one buffer. */
  lemma {:induction false} PinnedOnce(buf: seq<Buf>, refs: seq<set<nat>>, u: set<nat>, disk: Disk, n: nat)
    requires Inv(buf, refs, u, disk) && n <= NBUF == |buf|
    ensures |PinnedIn(buf, n)| == |Dirty(buf[..n])|
    ensures n == NBUF ==> |PinnedIn(buf, n)| == |Dirty(buf)|
  {
    hide Inv, Dirty, PinnedIn;
    if n == 0 {
      NonePinned(buf);
    } else {
      PinnedOnce(buf, refs, u, disk, n - 1);
      PinnedPrefix(buf, n - 1);
      DirtyPrefix(buf, refs, u, disk, n - 1);
    }
    if n == NBUF { assert buf[..n] == buf; }
  }

  lemma {:induction false} NonePinned(buf: seq<Buf>)
    ensures PinnedIn(buf, 0) == {} && Dirty(buf[..0]) == {}
  {
  }

  lemma {:induction false} PinnedPrefix(buf: seq<Buf>, i: nat)
    requires i < |buf|
    ensures |PinnedIn(buf, i + 1)| == |PinnedIn(buf, i)| + if buf[i].dirty then 1 else 0
  {
    var a, b := PinnedIn(buf, i), PinnedIn(buf, i + 1);
    forall j: nat ensures j in b <==> j in a || (j == i && buf[i].dirty) {}
    if buf[i].dirty { assert b == a + {i}; } else { assert b == a; }
  }

  lemma {:induction false} DirtyPrefix(buf: seq<Buf>, refs: seq<set<nat>>, u: set<nat>, disk: Disk, i: nat)
    requires Inv(buf, refs, u, disk) && i < NBUF
    ensures |Dirty(buf[..i + 1])| == |Dirty(buf[..i])| + if buf[i].dirty then 1 else 0
  {
    var a, b := buf[..i], buf[..i + 1];
    assert BufOk(buf[i], refs[i], i in u, disk);
    forall j | 0 <= j < |a| && a[j].dirty ensures a[j].blockno in Dirty(b) {
      assert b[j].dirty;
    }
    forall j | 0 <= j < |b| && b[j].dirty
      ensures b[j].blockno in Dirty(a) + if buf[i].dirty then {buf[i].blockno} else {}
    {
      if j < i { assert a[j].dirty; }
    }
    if buf[i].dirty {
      assert b[i].dirty;
      forall j | 0 <= j < |a| && a[j].dirty ensures a[j].blockno != buf[i].blockno {
        assert BufOk(buf[j], refs[j], j in u, disk);
      }
      assert Dirty(b) == Dirty(a) + {buf[i].blockno};
    } else {
      assert Dirty(b) == Dirty(a);
    }
  }

  /** The buffers in s look the same to their holder. */
  ghost predicate SameFor(s: set<nat>, buf: Bufs, buf': Bufs) {
    forall i :: i in s && i < NBUF ==> buf'[i] == buf[i].(refcnt := buf'[i].refcnt)
  }

  class Cache {
    var buf: Bufs
    var next: Links
    var prev: Links
    var disk: Disk
    var refs: Refs
    ghost var unlogged: set<nat>
    /** List order, most recently used first. */
    ghost var lru: seq<nat>
    /** Every block write since the cache was made. */
    ghost var trace: seq<Write>

    ghost predicate Valid()
      reads this
    {
      && Inv(buf, refs, unlogged, disk)
      && Linked(next, prev, lru) && AllListed(lru)
    }

    /** The newest contents of every block. */
    ghost function Contents(): (v: Disk)
      reads this`buf, this`disk
      ensures v.Keys == disk.Keys
    { Views(buf, disk) }

    /** The blocks only the cache has the newest contents of. */
    ghost function Pinned(): set<nat>
      reads this`buf
    { Dirty(buf) }

    /** binit. */
    constructor (d: Disk)
      ensures Valid() && disk == d && Contents() == d && Pinned() == {} && unlogged == {} && trace == []
      ensures forall i :: 0 <= i < NBUF ==> refs[i] == {}
    {
      buf := seq(NBUF, _ => Buf(0, 0, false, false, 0, 0, Zero()));
      refs := seq(NBUF, _ => {});
      disk, unlogged, trace := d, {}, [];
      next := seq(NBUF + 1, _ => HEAD);
      prev := seq(NBUF + 1, _ => HEAD);
      lru := [];
      new;
      var b := 0;
      while b < NBUF
        invariant 0 <= b <= NBUF && Linked(next, prev, lru)
        invariant forall i :: i in lru <==> 0 <= i < b
        invariant Inv(buf, refs, unlogged, disk) && Contents() == d && Pinned() == {} && disk == d
        invariant unlogged == {} && trace == [] && forall i :: 0 <= i < NBUF ==> refs[i] == {}
      {
        PushLinked(next, prev, lru, b);
        prev := PushPrev(next, prev, b);
        next := PushNext(next, b);
        lru := [b] + lru;
        b := b + 1;
      }
    }

    /** The scan of bget from the most recently used end. */
    method FindCached(bn: nat) returns (b: nat)
      requires Valid()
      ensures b <= NBUF
      ensures b < NBUF ==> buf[b].Caches(bn)
      ensures b == NBUF ==> forall i :: 0 <= i < NBUF ==> !buf[i].Caches(bn)
    {
      b := next[HEAD];
      ghost var k := 0;
      assert Path(lru)[0] == HEAD;
      while b != HEAD
        invariant 0 <= k <= |lru| && b == Path(lru)[k + 1]
        invariant forall j :: 0 <= j < k ==> !buf[lru[j]].Caches(bn)
        decreases |lru| - k
      {
        assert b == lru[k];
        if buf[b].Caches(bn) { return; }
        b := next[b];
        k := k + 1;
      }
      forall i | 0 <= i < NBUF ensures !buf[i].Caches(bn) {
        assert i in lru;
        var j :| 0 <= j < |lru| && lru[j] == i;
      }
    }

    /** The scan of bget from the least recently used end: the buffer to recycle. */
    method FindVictim() returns (b: nat)
      requires Valid()
      ensures b <= NBUF
      ensures b < NBUF ==> LeastRecent(lru, buf, b) && !buf[b].InUse()
      ensures b == NBUF ==> forall i :: 0 <= i < NBUF ==> buf[i].InUse()
    {
      b := prev[HEAD];
      ghost var k := |lru|;
      assert Path(lru)[|lru| + 1] == HEAD && Path(lru)[|lru|] == b;
      while b != HEAD
        invariant 0 <= k <= |lru| && b == Path(lru)[k]
        invariant forall j :: k <= j < |lru| ==> buf[lru[j]].InUse()
        decreases k
      {
        assert b == lru[k - 1];
        if buf[b].refcnt == 0 && !buf[b].dirty { return; }
        assert prev[Path(lru)[k]] == Path(lru)[k - 1];
        b := prev[b];
        k := k - 1;
      }
      forall i | 0 <= i < NBUF ensures buf[i].InUse() {
        assert i in lru;
        var j :| 0 <= j < |lru| && lru[j] == i;
      }
    }

    /** bget up to the release of bcache.lock: the caller now counts as a user of the
        buffer but does not hold its lock yet.  None stands for the panic. */
    method Bget(bn: nat, me: nat) returns (r: Option<nat>)
      requires Valid() && bn in disk && me != 0
      requires forall i :: 0 <= i < NBUF && buf[i].Caches(bn) ==> me !in refs[i]
      modifies this`buf, this`refs
      ensures Valid() && Contents() == old(Contents()) && Pinned() == old(Pinned())
      ensures r.None? ==> buf == old(buf) && refs == old(refs)
      ensures r.None? ==> forall i :: 0 <= i < NBUF ==> !buf[i].Caches(bn) && buf[i].InUse()
      ensures r.Some? ==> r.value < NBUF && buf[r.value].Caches(bn) && buf[r.value].pid == old(buf)[r.value].pid
      ensures r.Some? ==> refs == old(refs)[r.value := old(refs)[r.value] + {me}] && me !in old(refs)[r.value]
      ensures r.Some? ==> buf == old(buf)[r.value := buf[r.value]] && buf[r.value].dirty == old(buf)[r.value].dirty
      ensures r.Some? && !old(buf)[r.value].Caches(bn) ==>
        LeastRecent(lru, old(buf), r.value) && old(refs)[r.value] == {} && buf[r.value] ==
          Buf(ROOTDEV, bn, false, false, 1, old(buf)[r.value].pid, old(buf)[r.value].data)
      ensures r.Some? && !old(buf)[r.value].Caches(bn) ==> forall j :: 0 <= j < NBUF ==> !old(buf)[j].Caches(bn)
      ensures r.Some? && old(buf)[r.value].Caches(bn) ==>
        buf[r.value] == old(buf)[r.value].(refcnt := old(buf)[r.value].refcnt + 1)
    {
      hide Linked, AllListed, Views, Dirty, Unique, LeastRecent;
      var b := FindCached(bn);
      if b < NBUF {
        TakeReference(buf, refs, unlogged, disk, b, me);
        buf, refs := buf[b := buf[b].(refcnt := buf[b].refcnt + 1)], refs[b := refs[b] + {me}];
        return Some(b);
      }
      b := FindVictim();
      if b == NBUF { return None; }
      Recycle(buf, refs, unlogged, disk, b, bn, me);
      buf, refs := buf[b := Buf(ROOTDEV, bn, false, false, 1, buf[b].pid, buf[b].data)], refs[b := refs[b] + {me}];
      return Some(b);
    }

    /** acquiresleep(&b->lock), once the lock is free. */
    method Lock(b: nat, me: nat)
      requires Valid() && b < NBUF && buf[b].pid == 0 && me in refs[b]
      modifies this`buf
      ensures Valid() && Contents() == old(Contents()) && Pinned() == old(Pinned())
      ensures buf == old(buf)[b := old(buf)[b].(pid := me)]
    {
      assert BufOk(buf[b], refs[b], b in unlogged, disk);
      SameContents(buf, disk, b, buf[b].(pid := me));
      buf := buf[b := buf[b].(pid := me)];
    }

    /** iderw reading an invalid buffer. */
    method Fill(b: nat)
      requires Valid() && b < NBUF && buf[b].pid != 0 && !buf[b].valid
      modifies this`buf
      ensures Valid() && Contents() == old(Contents()) && Pinned() == old(Pinned())
      ensures buf[b].blockno in disk && buf == old(buf)[b := old(buf)[b].(valid := true, data := disk[buf[b].blockno])]
    {
      assert BufOk(buf[b], refs[b], b in unlogged, disk);
      var b' := buf[b].(valid := true, data := disk[buf[b].blockno]);
      ViewsUpdate(buf, disk, b, b');
      ViewAt(buf, disk, b);
      DirtyUpdate(buf, b, b');
      buf := buf[b := b'];
    }

    lemma {:induction false} InList(b: nat)
      requires Valid() && b < NBUF
      ensures b in lru
    {
    }

    /** The first half of brelse, releasesleep: the lock is free, the reference still counted. */
    method Unlock(b: nat)
      requires Valid() && b < NBUF && buf[b].pid != 0 && b !in unlogged
      modifies this`buf
      ensures Valid() && Contents() == old(Contents()) && Pinned() == old(Pinned())
      ensures buf == old(buf)[b := old(buf)[b].(pid := 0)]
    {
      hide Inv, Linked, AllListed, Views, Dirty;
      DropLock(buf, refs, unlogged, disk, b);
      buf := buf[b := buf[b].(pid := 0)];
    }

    /** The second half of brelse, under bcache.lock. */
    method Unref(b: nat, me: nat)
      requires Valid() && b < NBUF && me in refs[b] && buf[b].pid != me
      modifies this`buf, this`refs, this`next, this`prev, this`lru
      ensures Valid() && Contents() == old(Contents()) && Pinned() == old(Pinned())
      ensures old(buf)[b].refcnt >= 1 && refs == old(refs)[b := old(refs)[b] - {me}]
      ensures buf == old(buf)[b := old(buf)[b].(refcnt := old(buf)[b].refcnt - 1)]
      ensures if buf[b].refcnt == 0 then MovedToFront(old(lru), b, lru) else lru == old(lru)
    {
      hide Inv, Linked, AllListed, Views, Dirty;
      DropReference(buf, refs, unlogged, disk, b, me);
      InList(b);
      buf, refs := buf[b := buf[b].(refcnt := buf[b].refcnt - 1)], refs[b := refs[b] - {me}];
      if buf[b].refcnt == 0 {
        ghost var k :| 0 <= k < |lru| && lru[k] == b;
        MoveToFront(next, prev, lru, k);
        next, prev := UnlinkNext(next, prev, b), UnlinkPrev(next, prev, b);
        next, prev := PushNext(next, b), PushPrev(next, prev, b);
        lru := [b] + (lru[..k] + lru[k + 1..]);
      }
    }

    /** The holder of a buffer changes its data. */
    method Store(b: nat, data: Block)
      requires Valid() && b < NBUF && buf[b].pid != 0 && buf[b].valid
      modifies this`buf, this`unlogged
      ensures Valid() && Contents() == old(Contents())[buf[b].blockno := data] && Pinned() == old(Pinned())
      ensures buf == old(buf)[b := old(buf)[b].(data := data)] && unlogged == old(unlogged) + {b}
    {
      hide Inv, Linked, AllListed, Views, Dirty;
      StoreInto(buf, refs, unlogged, disk, b, data);
      buf, unlogged := buf[b := buf[b].(data := data)], unlogged + {b};
    }

    /** b->flags |= B_DIRTY, as log_write does. */
    method Pin(b: nat)
      requires Valid() && b < NBUF && buf[b].valid
      modifies this`buf, this`unlogged
      ensures Valid() && Contents() == old(Contents()) && Pinned() == old(Pinned()) + {buf[b].blockno}
      ensures buf == old(buf)[b := old(buf)[b].(dirty := true)] && unlogged == old(unlogged) - {b}
    {
      hide Inv, Linked, AllListed, Views, Dirty;
      MarkDirty(buf, refs, unlogged, disk, b);
      buf, unlogged := buf[b := buf[b].(dirty := true)], unlogged - {b};
    }

    /** bwrite: iderw with B_DIRTY set. */
    method Bwrite(b: nat, me: nat)
      requires Valid() && b < NBUF && buf[b].pid == me != 0 && buf[b].valid
      modifies this`buf, this`unlogged, this`disk, this`trace
      ensures Valid() && Contents() == old(Contents()) && Pinned() == old(Pinned()) - {buf[b].blockno}
      ensures buf == old(buf)[b := old(buf)[b].(dirty := false)] && unlogged == old(unlogged) - {b}
      ensures disk == old(disk)[buf[b].blockno := buf[b].data] && disk.Keys == old(disk).Keys
      ensures trace == old(trace) + [Write(buf[b].blockno, buf[b].data)]
    {
      hide Inv, Linked, AllListed, Views, Dirty;
      WriteBack(buf, refs, unlogged, disk, b);
      disk := disk[buf[b].blockno := buf[b].data];
      buf, unlogged := buf[b := buf[b].(dirty := false)], unlogged - {b};
      trace := trace + [Write(buf[b].blockno, buf[b].data)];
    }

    /** Process me holds exactly the buffers in s, locked, and every unlogged change is in one
        of them. */
    ghost predicate Holds(me: nat, s: set<nat>)
      reads this`buf, this`refs, this`unlogged
    {
      && me != 0 && unlogged <= s
      && forall i :: 0 <= i < NBUF ==> (me in refs[i] <==> i in s) && (i in s ==> buf[i].pid == me && buf[i].valid)
    }

    /** Fewer than two buffers beside the pinned ones are free of readers other than me. */
    ghost predicate Crowded(me: nat)
      reads this`buf, this`refs
    { |HeldByOthers(refs, me)| + |Pinned()| + 1 >= NBUF }

    /** Then me, with one buffer at most, finds them all in use only if it is crowded. */
    lemma {:induction false} AllInUse(me: nat, s: set<nat>)
      requires Valid() && Holds(me, s) && |s| <= 1 && forall i :: 0 <= i < NBUF ==> buf[i].InUse()
      ensures Crowded(me)
    {
      hide Linked, AllListed, Views, Dirty, Numbers, Unique;
      var all, others, pinned := Numbers(NBUF), HeldByOthers(refs, me), PinnedIn(buf, NBUF);
      NumbersSize(NBUF);
      forall i | i in all ensures i in others + s + pinned {
        assert BufOk(buf[i], refs[i], i in unlogged, disk);
        if !buf[i].dirty && me !in refs[i] {
          var q :| q in refs[i];
          assert q in refs[i] - {me};
        }
      }
      PinnedOnce(buf, refs, unlogged, disk, NBUF);
      SetBound(all, others + s + pinned);
      UnionBound(others, s);
      UnionBound(others + s, pinned);
    }

    /** One step of process q reading some block. */
    method ReaderStep(q: nat, i: nat, bn: nat, ghost me: nat, ghost s: set<nat>, ghost b: nat)
      requires Valid() && i < NBUF && b < NBUF && q != 0 && q != me && Awaits(me, s, b)
      modifies this`buf, this`refs, this`next, this`prev, this`lru
      ensures Valid() && Contents() == old(Contents()) && Pinned() == old(Pinned())
      ensures Awaits(me, s, b) && SameFor(s, old(buf), buf)
      ensures buf[b].dev == old(buf)[b].dev && buf[b].blockno == old(buf)[b].blockno
    {
      hide Inv, Linked, AllListed, Views, Dirty, LeastRecent, MovedToFront;
      if bn in disk && forall j :: 0 <= j < |buf| && buf[j].Caches(bn) ==> q !in refs[j] {
        var _ := Bget(bn, q);
      } else if buf[i].pid == 0 && q in refs[i] {
        Lock(i, q);
      } else if buf[i].pid == q && !buf[i].valid {
        Fill(i);
      } else if buf[i].pid == q {
        Unlock(i);
      } else if q in refs[i] {
        Unref(i, q);
      }
    }

    /** Process me holds the buffers in s and waits for the lock of buffer b. */
    ghost predicate Awaits(me: nat, s: set<nat>, b: nat)
      reads this`buf, this`refs, this`unlogged
      requires b < NBUF
    {
      && me != 0 && unlogged <= s && b !in s && buf[b].pid != me
      && forall i :: 0 <= i < NBUF ==>
        (me in refs[i] <==> i in s + {b}) && (i in s ==> buf[i].pid == me && buf[i].valid)
    }

    /** Any number of steps of other processes, each reading blocks and none writing. */
    method Others(me: nat, ghost s: set<nat>, b: nat)
      requires Valid() && b < NBUF && Awaits(me, s, b)
      modifies this`buf, this`refs, this`next, this`prev, this`lru
      ensures Valid() && Contents() == old(Contents()) && Pinned() == old(Pinned())
      ensures Awaits(me, s, b) && SameFor(s, old(buf), buf)
      ensures buf[b].dev == old(buf)[b].dev && buf[b].blockno == old(buf)[b].blockno
    {
      hide Inv, Linked, AllListed, Views, Dirty, LeastRecent, MovedToFront;
      var steps: nat := *;
      while steps > 0
        invariant Valid() && Contents() == old(Contents()) && Pinned() == old(Pinned())
        invariant Awaits(me, s, b) && SameFor(s, old(buf), buf)
        invariant buf[b].dev == old(buf)[b].dev && buf[b].blockno == old(buf)[b].blockno
      {
        var q: nat, i: nat, bn: nat := *, *, *;
        if i < NBUF && q != 0 && q != me {
          ReaderStep(q, i, bn, me, s, b);
        }
        steps := steps - 1;
      }
    }

    /** The same, until buffer b is not locked by any of them. */
    method OthersRead(me: nat, ghost s: set<nat>, b: nat)
      requires Valid() && b < NBUF && Awaits(me, s, b)
      modifies this`buf, this`refs, this`next, this`prev, this`lru
      ensures Valid() && Contents() == old(Contents()) && Pinned() == old(Pinned())
      ensures Awaits(me, s, b) && SameFor(s, old(buf), buf) && buf[b].pid == 0
      ensures buf[b].dev == old(buf)[b].dev && buf[b].blockno == old(buf)[b].blockno
    {
      hide Inv, Linked, AllListed, Views, Dirty, LeastRecent, MovedToFront;
      Others(me, s, b);
      if buf[b].pid != 0 { Unlock(b); }
    }

    /** The rest of bread once the lock is free: lock the buffer and fill it if need be. */
    method LockAndFill(b: nat, me: nat, ghost s: set<nat>)
      requires Valid() && b < NBUF && Awaits(me, s, b) && buf[b].pid == 0 && buf[b].dev == ROOTDEV
      modifies this`buf
      ensures Valid() && Contents() == old(Contents()) && Pinned() == old(Pinned())
      ensures SameFor(s, old(buf), buf) && Holds(me, s + {b})
      ensures buf[b].Caches(old(buf)[b].blockno) && buf[b].blockno in disk && buf[b].data == Contents()[buf[b].blockno]
    {
      hide Linked, AllListed, Views, Dirty;
      assert BufOk(buf[b], refs[b], b in unlogged, disk);
      Lock(b, me);
      if !buf[b].valid { Fill(b); }
      ViewsAt(buf, disk, b);
    }

    /** bread: the caller gets a locked buffer with the newest contents of the block, while
        other processes go on reading. */
    method Bread(bn: nat, me: nat, ghost s: set<nat>) returns (r: Option<nat>)
      requires Valid() && bn in disk && Holds(me, s)
      requires forall i :: i in s && i < NBUF ==> !buf[i].Caches(bn)
      modifies this`buf, this`refs, this`next, this`prev, this`lru
      ensures Valid() && Contents() == old(Contents()) && Pinned() == old(Pinned())
      ensures SameFor(s, old(buf), buf)
      ensures r.None? ==> Holds(me, s) && buf == old(buf) && refs == old(refs)
      ensures r.None? <==> forall i :: 0 <= i < NBUF ==> !old(buf)[i].Caches(bn) && old(buf)[i].InUse()
      ensures r.None? && |s| <= 1 ==> Crowded(me)
      ensures r.Some? ==> r.value < NBUF && r.value !in s && Holds(me, s + {r.value})
      ensures r.Some? ==> buf[r.value].Caches(bn) && buf[r.value].data == Contents()[bn]
    {
      hide Inv, Linked, AllListed, Views, Dirty, MovedToFront, Crowded;
      UnheldByMe(me, s);
      r := Bget(bn, me);
      if r.None? && |s| <= 1 { AllInUse(me, s); }
      if r.Some? {
        OthersRead(me, s, r.value);
        LockAndFill(r.value, me, s);
      }
    }

    /** Change a held buffer and bwrite it. */
    method WriteThrough(b: nat, data: Block, me: nat, ghost s: set<nat>)
      requires Valid() && Holds(me, s) && b in s && b < NBUF && unlogged == {}
      modifies this`buf, this`unlogged, this`disk, this`trace
      ensures Valid() && Holds(me, s) && unlogged == {} && buf == old(buf)[b := buf[b]]
      ensures buf[b].blockno == old(buf)[b].blockno && disk.Keys == old(disk).Keys
      ensures Contents() == old(Contents())[buf[b].blockno := data] && disk == old(disk)[buf[b].blockno := data]
      ensures trace == old(trace) + [Write(buf[b].blockno, data)] && Pinned() == old(Pinned()) - {buf[b].blockno}
    {
      hide Cache.Valid, Cache.Contents, Cache.Pinned;
      Store(b, data);
      Bwrite(b, me);
    }

    /** brelse by the holder: between its two halves other processes may read, lock and release
        the very buffer. */
    method Brelse(b: nat, me: nat, ghost s: set<nat>)
      requires Valid() && Holds(me, s) && b in s && b < NBUF && unlogged == {}
      modifies this`buf, this`refs, this`next, this`prev, this`lru
      ensures Valid() && Contents() == old(Contents()) && Pinned() == old(Pinned())
      ensures Holds(me, s - {b}) && SameFor(s - {b}, old(buf), buf)
    {
      hide Cache.Valid, Cache.Contents, Cache.Pinned, MovedToFront;
      Unlock(b);
      Others(me, s - {b}, b);
      Unref(b, me);
    }

    lemma {:induction false} UnpinnedIsOnDisk(bn: nat)
      requires Valid() && bn in disk && bn !in Pinned() && unlogged == {}
      ensures Contents()[bn] == disk[bn]
    {
      if i :| 0 <= i < NBUF && buf[i].Caches(bn) {
        assert BufOk(buf[i], refs[i], i in unlogged, disk);
        ViewAt(buf, disk, i);
      } else {
        ViewUncached(buf, disk, bn);
      }
    }

    /** A buffer this process has no reference to is not locked by it. */
    lemma {:induction false} UnheldByMe(me: nat, s: set<nat>)
      requires Valid() && Holds(me, s)
      ensures forall i :: 0 <= i < NBUF && i !in s ==> buf[i].pid != me
    {
      forall i | 0 <= i < NBUF && i !in s ensures buf[i].pid != me {
        assert BufOk(buf[i], refs[i], i in unlogged, disk);
      }
    }
  }
}
