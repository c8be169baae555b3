/** Whole transactions, from begin_op to end_op, as the file system runs them on the log and the
    buffer cache (the pattern at the top of log.c). */
module Transaction {
  import opened Common
  import opened Blocks
  import opened LogSpec
  import opened BufferCache
  import opened Log
  import Reservation

  /** One step of an operation: bread, change the data, log_write, brelse.  The disk is not
      touched; ok is false for a panic. */
  method UpdateBlock(log: Logger, bn: word, data: Block, me: nat) returns (ok: bool)
    requires log.Valid() && |log.ops| == 1 && log.n < MAXOPBLOCKS && LOGSIZE <= log.g.size
    requires log.cache.Holds(me, {}) && bn in log.cache.disk && !log.g.InLog(bn)
    modifies log`n, log`block, log`ops, log.cache
    ensures log.cache.disk == old(log.cache.disk) && log.cache.trace == old(log.cache.trace)
    ensures ok ==> log.Valid() && log.cache.Holds(me, {}) && |log.ops| == 1 && log.n <= old(log.n) + 1
    ensures ok ==> log.cache.Contents() == old(log.cache.Contents())[bn := data]
    ensures !ok ==> log.cache.Crowded(me)
  {
    hide Cache.Valid, Cache.Contents, Cache.Pinned, Logger.Core, Cache.Crowded;
    var cache := log.cache;
    log.CoreListed(0);
    var r := cache.Bread(bn, me, {});
    if r.None? { return false; }
    var b := r.value;
    log.CacheStepKeepsValid();
    assert {} + {b} == {b} && {b} - {b} == {};
    StoreAndLog(log, b, data, me);
    ok := true;
    label Logged:
    log.CoreListed(0);
    cache.Brelse(b, me, {b});
    log.CacheStepKeepsValid@Logged();
  }

  /** The middle of it: change the buffer held and log it. */
  method StoreAndLog(log: Logger, b: nat, data: Block, me: nat)
    requires log.Valid() && |log.ops| == 1 && log.n < MAXOPBLOCKS && LOGSIZE <= log.g.size
    requires b < NBUF && log.cache.Holds(me, {b}) && log.cache.buf[b].dev == ROOTDEV
    requires log.cache.buf[b].blockno < U32 && !log.g.InLog(log.cache.buf[b].blockno)
    modifies log`n, log`block, log`ops, log.cache`buf, log.cache`unlogged
    ensures log.Valid() && log.cache.Holds(me, {b}) && log.cache.unlogged == {} && |log.ops| == 1
    ensures log.n <= old(log.n) + 1
    ensures log.cache.Contents() == old(log.cache.Contents())[old(log.cache.buf)[b].blockno := data]
  {
    hide Cache.Valid, Cache.Contents, Cache.Pinned, Logger.Core;
    log.CoreListed(0);
    log.cache.Store(b, data);
    log.CacheStepKeepsValid();
    ghost var was := log.Reserved();
    var ok := log.LogWrite(0, b, me);
    log.CoreListed(0);
    assert ok && log.Reserved() == Reservation.Do(was, Reservation.Write(0, log.cache.buf[b].blockno));
    assert log.n == |log.Reserved().blocks| && old(log.n) == |was.blocks|;
  }

  /** Between transactions the disk has the newest contents of every block. */
  lemma {:induction false} Quiet(log: Logger)
    requires log.Valid() && log.outstanding == 0
    ensures log.cache.Contents() == log.cache.disk && log.n == 0 && log.ops == []
  {
    hide Cache.Contents;
    forall bn | bn in log.cache.disk ensures log.cache.Contents()[bn] == log.cache.disk[bn] {
      log.cache.UnpinnedIsOnDisk(bn);
    }
  }

  lemma {:induction false} InstallStep(d: Disk, tx: Tx, i: nat)
    requires |tx.bs| == |tx.cs| && i < |tx.bs|
    ensures Apply(d, InstallWrites(tx.bs[..i + 1], tx.cs[..i + 1])) ==
      Apply(d, InstallWrites(tx.bs[..i], tx.cs[..i]))[tx.bs[i] := tx.cs[i]]
  {
    var ws := InstallWrites(tx.bs[..i + 1], tx.cs[..i + 1]);
    assert ws[..|ws| - 1] == InstallWrites(tx.bs[..i], tx.cs[..i]);
  }

  /** begin_op and the updates of a transaction: everything up to end_op. */
  method Prepare(log: Logger, tx: Tx, me: nat) returns (ok: bool)
    requires log.Valid() && log.outstanding == 0 && log.cache.Holds(me, {}) && LOGSIZE <= log.g.size
    requires tx.Fits(log.g, log.cache.disk) && |tx.bs| <= MAXOPBLOCKS
    modifies log, log.cache
    ensures log.cache.disk == old(log.cache.disk) && log.cache.trace == old(log.cache.trace)
    ensures ok ==> log.Valid() && log.cache.Holds(me, {}) && log.outstanding == 1
    ensures ok ==> log.cache.Contents() == Installed(old(log.cache.disk), tx)
    ensures !ok ==> log.cache.Crowded(me)
  {
    hide Cache.Valid, Cache.Contents, Cache.Pinned, Cache.Holds, Logger.Core, Apply, InstallWrites, Cache.Crowded;
    Quiet(log);
    ghost var d := log.cache.disk;
    ok := log.BeginOp();
    assert ok;
    NothingYet(d, tx);
    var i := 0;
    while i < |tx.bs|
      invariant 0 <= i <= |tx.bs| && log.Valid() && log.cache.Holds(me, {}) && |log.ops| == 1 && log.n <= i && ok
      invariant log.cache.disk == d && log.cache.trace == old(log.cache.trace)
      invariant log.cache.Contents() == Apply(d, InstallWrites(tx.bs[..i], tx.cs[..i]))
    {
      InstallStep(d, tx, i);
      assert tx.bs[i] in tx.bs;
      ok := UpdateBlock(log, tx.bs[i], tx.cs[i], me);
      if !ok { return; }
      i := i + 1;
    }
    assert tx.bs[..i] == tx.bs && tx.cs[..i] == tx.cs;
  }

  lemma {:induction false} NothingYet(d: Disk, tx: Tx)
    ensures Apply(d, InstallWrites(tx.bs[..0], tx.cs[..0])) == d
  {
  }

  /** A whole transaction alone on the log.  When it returns, its blocks are on disk and no other
      home block has changed; after every single disk write on the way a crash recovers to all of
      the old home blocks or all of the new ones.  It gets through as long as two buffers beside
      the pinned ones stay free of other readers. */
  method RunTransaction(log: Logger, tx: Tx, me: nat) returns (ok: bool)
    requires log.Valid() && log.outstanding == 0 && log.cache.Holds(me, {}) && LOGSIZE <= log.g.size
    requires tx.Fits(log.g, log.cache.disk) && |tx.bs| <= MAXOPBLOCKS
    modifies log, log.cache
    ensures ok ==>
      log.Valid() && log.outstanding == 0 && log.cache.Holds(me, {}) && log.cache.disk.Keys == old(log.cache.disk).Keys
    ensures ok ==> Home(log.g, log.cache.disk) == Home(log.g, Installed(old(log.cache.disk), tx))
    ensures old(log.cache.trace) <= log.cache.trace
    ensures forall j :: 0 <= j <= |log.cache.trace| - |old(log.cache.trace)| ==>
      CrashSafe(log.g, Home(log.g, old(log.cache.disk)), Home(log.g, Installed(old(log.cache.disk), tx)),
                Apply(old(log.cache.disk), WritesSince(old(log.cache.trace), log.cache.trace, j)))
    ensures !ok ==> log.cache.Crowded(me)
  {
    hide Cache.Valid, Cache.Contents, Cache.Pinned, Cache.Holds, Logger.Core, Apply, Installed, Home, CrashSafe,
         WritesSince, Cache.Crowded;
    CrashNow(log, tx);
    ok := Prepare(log, tx, me);
    if !ok { return; }
    ok := log.EndOp(0, me);
  }

  lemma {:induction false} CrashNow(log: Logger, tx: Tx)
    requires log.Valid() && |tx.bs| == |tx.cs|
    ensures forall j :: 0 <= j <= 0 ==>
      CrashSafe(log.g, Home(log.g, log.cache.disk), Home(log.g, Installed(log.cache.disk, tx)),
                Apply(log.cache.disk, WritesSince(log.cache.trace, log.cache.trace, j)))
  {
    hide Cache.Valid, Cache.Contents, Cache.Pinned, Home, Recovered, Word, Installed;
    RecoverClean(log.g, log.cache.disk);
    assert WritesSince(log.cache.trace, log.cache.trace, 0) == [];
  }

  /** From boot on: recover, then run transactions.  The home blocks on disk are those of running
      the transactions, with no log and no crash, on what the disk recovers to. */
  method BootAndRun(g: Geometry, d: Disk, txs: seq<Tx>, me: nat) returns (cache: Cache, ok: bool)
    requires Recoverable(g, d) && LOGSIZE <= g.size && me != 0
    requires forall i :: 0 <= i < |txs| ==> txs[i].Fits(g, d) && |txs[i].bs| <= MAXOPBLOCKS
    ensures Paired(txs)
    ensures ok ==> cache.Valid() && Home(g, cache.disk) == Home(g, InstallAll(Recovered(g, d), txs))
    ensures !ok ==> cache.Crowded(me)
  {
    hide Cache.Valid, Cache.Contents, Cache.Pinned, Cache.Holds, Logger.Core, Installed, Home, CrashSafe, Recoverable,
         Recovered, Apply, Cache.Crowded;
    cache := new Cache(d);
    var log := new Logger(cache, g);
    FreshHolds(cache, me);
    ok := log.RecoverFromLog(me);
    if !ok { return; }
    RecoveredKeys(g, d);
    var i := 0;
    assert txs[..0] == [];
    while i < |txs|
      invariant 0 <= i <= |txs| && log.Valid() && log.outstanding == 0 && cache.Holds(me, {})
        && cache.disk.Keys == d.Keys && ok
      invariant Home(g, cache.disk) == Home(g, InstallAll(Recovered(g, d), txs[..i]))
    {
      FitsToo(txs[i], g, d, cache.disk);
      ghost var e := cache.disk;
      ok := RunTransaction(log, txs[i], me);
      if !ok { return; }
      InstallLast(g, Recovered(g, d), e, txs, i);
      i := i + 1;
    }
    assert txs[..i] == txs;
    log.CoreListed(0);
  }

  lemma {:induction false} FreshHolds(cache: Cache, me: nat)
    requires me != 0 && cache.unlogged == {} && forall i :: 0 <= i < NBUF ==> cache.refs[i] == {}
    ensures cache.Holds(me, {})
  {
  }

  lemma {:induction false} FitsToo(tx: Tx, g: Geometry, d: Disk, e: Disk)
    requires tx.Fits(g, d) && e.Keys == d.Keys
    ensures tx.Fits(g, e)
  {
  }

  /** One more transaction, on a disk with the same home blocks. */
  lemma {:induction false} InstallLast(g: Geometry, d: Disk, e: Disk, txs: seq<Tx>, i: nat)
    requires Paired(txs) && i < |txs| && Home(g, e) == Home(g, InstallAll(d, txs[..i]))
    requires forall b :: b in txs[i].bs ==> !g.InLog(b)
    ensures Home(g, Installed(e, txs[i])) == Home(g, InstallAll(d, txs[..i + 1]))
  {
    var c := InstallAll(d, txs[..i]);
    assert [txs[i]][1..] == [];
    InstallAllHome(g, e, c, [txs[i]]);
    assert txs[..i + 1] == txs[..i] + [txs[i]];
    InstallAllAppend(d, txs[..i], [txs[i]]);
  }
}
