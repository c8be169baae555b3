/** The redo log as a sequence of single-block disk writes, and what a crash after any
    prefix of them leaves behind (log.c). */
module LogSpec {
  import opened Common
  import opened Blocks

  type Disk = map<nat, Block>

  /** One block write that reached the disk. */
  datatype Write = Write(blockno: nat, data: Block)

  /** Where the log lives: the header block, then size - 1 log blocks. */
  datatype Geometry = Geometry(start: nat, size: nat) {
    predicate InLog(b: nat) { start <= b < start + size }
    ghost function Region(): set<nat> { set b | start <= b < start + size && InLog(b) }
    /** The whole log is on the disk. */
    ghost predicate Fits(d: Disk) { size >= 1 && Region() <= d.Keys }
  }

  /** The part of a disk that file-system code sees. */
  ghost function Home(g: Geometry, d: Disk): Disk { d - g.Region() }

  ghost function Apply(d: Disk, ws: seq<Write>): Disk
    ensures d.Keys <= Apply(d, ws).Keys
  {
    if ws == [] then d
    else Apply(d, ws[..|ws| - 1])[ws[|ws| - 1].blockno := ws[|ws| - 1].data]
  }

  lemma {:induction false} ApplyAppend(d: Disk, xs: seq<Write>, ys: seq<Write>)
    ensures Apply(d, xs + ys) == Apply(Apply(d, xs), ys)
  {
    if ys == [] {
      assert xs + ys == xs;
    } else {
      var init := ys[..|ys| - 1];
      assert (xs + ys)[..|xs + ys| - 1] == xs + init;
      ApplyAppend(d, xs, init);
    }
  }

  predicate Writes(ws: seq<Write>, b: nat) { exists i :: 0 <= i < |ws| && ws[i].blockno == b }

  /** A block is left alone unless some write names it. */
  lemma {:induction false} ApplyFrame(d: Disk, ws: seq<Write>, b: nat)
    requires !Writes(ws, b)
    ensures b in Apply(d, ws) <==> b in d
    ensures b in d ==> Apply(d, ws)[b] == d[b]
  {
    if ws != [] {
      var init := ws[..|ws| - 1];
      assert forall i :: 0 <= i < |init| ==> init[i] == ws[i];
      ApplyFrame(d, init, b);
    }
  }

  /** Replaying the same writes on two disks gives the same block wherever the disks
      agreed or some write names the block.  This is why redo is idempotent. */
  lemma {:induction false} ApplyAgree(d: Disk, e: Disk, ws: seq<Write>, b: nat)
    requires Writes(ws, b) || (b in d && b in e && d[b] == e[b])
    ensures b in Apply(d, ws) && b in Apply(e, ws) && Apply(d, ws)[b] == Apply(e, ws)[b]
  {
    if ws != [] {
      var last := ws[|ws| - 1];
      var init := ws[..|ws| - 1];
      if b != last.blockno {
        if Writes(ws, b) {
          var i :| 0 <= i < |ws| && ws[i].blockno == b;
          assert init[i] == ws[i];
        }
        ApplyAgree(d, e, init, b);
      }
    }
  }

  // ----- the header block -----

  /** The block numbers a header block lists (struct logheader). */
  function GetHeader(b: Block): (bs: seq<word>)
    requires Word(b, 0) <= LOGSIZE
  {
    seq(Word(b, 0), i requires 0 <= i < Word(b, 0) => Word(b, 1 + i))
  }

  /** Entries past n keep whatever an earlier transaction left there. */
  function PutHeader(b: Block, bs: seq<word>): Block
    requires |bs| <= LOGSIZE
  {
    SetWords(SetWord(b, 0, |bs|), 1, bs)
  }

  lemma {:induction false} HeaderRoundTrip(b: Block, bs: seq<word>)
    requires |bs| <= LOGSIZE
    ensures Word(PutHeader(b, bs), 0) == |bs| && GetHeader(PutHeader(b, bs)) == bs
  {
    var h := SetWord(b, 0, |bs|);
    SetWordsReads(h, 1, bs, 0);
    SetWordReads(b, 0, |bs|, 0);
    forall i | 0 <= i < |bs|
      ensures Word(PutHeader(b, bs), 1 + i) == bs[i]
    {
      SetWordsReads(h, 1, bs, 1 + i);
    }
  }

  // ----- the write sequences of log.c -----

  /** write_log: the i-th logged block goes to log block i + 1. */
  function LogWrites(g: Geometry, cs: seq<Block>): (ws: seq<Write>)
  {
    seq(|cs|, i requires 0 <= i < |cs| => Write(g.start + 1 + i, cs[i]))
  }

  /** install_trans: the i-th logged block goes to its home location. */
  function InstallWrites(bs: seq<nat>, cs: seq<Block>): (ws: seq<Write>)
    requires |bs| == |cs|
  {
    seq(|bs|, i requires 0 <= i < |bs| => Write(bs[i], cs[i]))
  }

  /** The writes commit() makes, in order, when the header block holds hb. */
  function CommitWrites(g: Geometry, hb: Block, bs: seq<word>, cs: seq<Block>): (ws: seq<Write>)
    requires |bs| == |cs| <= LOGSIZE
  {
    if bs == [] then [] else
    LogWrites(g, cs) + [Write(g.start, PutHeader(hb, bs))]
    + InstallWrites(bs, cs) + [Write(g.start, PutHeader(PutHeader(hb, bs), []))]
  }

  /** A disk recover_from_log can read: the header lists n logged home blocks. */
  ghost predicate Recoverable(g: Geometry, d: Disk)
  {
    && g.Fits(d)
    && Word(d[g.start], 0) <= LOGSIZE && Word(d[g.start], 0) < g.size
    && forall b :: b in GetHeader(d[g.start]) ==> b in d && !g.InLog(b)
  }

  /** Nothing is committed but not yet installed. */
  ghost predicate Clean(g: Geometry, d: Disk) { g.Fits(d) && Word(d[g.start], 0) == 0 }

  ghost function LoggedBlocks(g: Geometry, d: Disk): (cs: seq<Block>)
    requires Recoverable(g, d)
  {
    seq(Word(d[g.start], 0), i requires 0 <= i < Word(d[g.start], 0) =>
      assert g.start + 1 + i in g.Region(); d[g.start + 1 + i])
  }

  /** The writes recover_from_log makes, in order. */
  ghost function RecoveryWrites(g: Geometry, d: Disk): (ws: seq<Write>)
    requires Recoverable(g, d)
  {
    InstallWrites(GetHeader(d[g.start]), LoggedBlocks(g, d)) + [Write(g.start, PutHeader(d[g.start], []))]
  }

  ghost function Recovered(g: Geometry, d: Disk): Disk
    requires Recoverable(g, d)
  {
    Apply(d, RecoveryWrites(g, d))
  }

  /** A transaction: the blocks logged and their newest contents. */
  datatype Tx = Tx(bs: seq<word>, cs: seq<Block>) {
    ghost predicate Fits(g: Geometry, d: Disk) {
      && |bs| == |cs| <= LOGSIZE && |bs| < g.size
      && forall b :: b in bs ==> b in d && !g.InLog(b)
    }
  }

  // ----- crash atomicity -----

  /** Recovery only ever rewrites home blocks with the logged contents and clears the header. */
  lemma {:induction false} RecoveredIs(g: Geometry, d: Disk)
    requires Recoverable(g, d)
    ensures Recovered(g, d) ==
      Apply(d, InstallWrites(GetHeader(d[g.start]), LoggedBlocks(g, d)))[g.start := PutHeader(d[g.start], [])]
    ensures Clean(g, Recovered(g, d))
  {
    var ws := RecoveryWrites(g, d);
    assert ws[..|ws| - 1] == InstallWrites(GetHeader(d[g.start]), LoggedBlocks(g, d));
    HeaderRoundTrip(d[g.start], []);
  }

  /** Installing the same blocks on two disks that agree elsewhere gives one disk. */
  lemma {:induction false} InstallAgree(d: Disk, e: Disk, bs: seq<nat>, cs: seq<Block>)
    requires |bs| == |cs| && d.Keys == e.Keys
    requires forall b :: b in d && b !in bs ==> d[b] == e[b]
    ensures Apply(d, InstallWrites(bs, cs)) == Apply(e, InstallWrites(bs, cs))
  {
    var ws := InstallWrites(bs, cs);
    forall b
      ensures Writes(ws, b) <==> b in bs
    {
      if b in bs {
        var i :| 0 <= i < |bs| && bs[i] == b;
        assert ws[i].blockno == b;
      }
    }
    forall b | b in Apply(d, ws) || b in Apply(e, ws)
      ensures b in Apply(d, ws) && b in Apply(e, ws) && Apply(d, ws)[b] == Apply(e, ws)[b]
    {
      if b !in bs {
        ApplyFrame(d, ws, b);
        ApplyFrame(e, ws, b);
      }
      ApplyAgree(d, e, ws, b);
    }
  }

  /** Two disks with the same log whose home blocks differ only where the log will be
      replayed recover to the same disk. */
  lemma {:induction false} SameRecovery(g: Geometry, d: Disk, e: Disk)
    requires Recoverable(g, d) && Recoverable(g, e) && d.Keys == e.Keys
    requires forall b :: b in d && g.InLog(b) ==> d[b] == e[b]
    requires forall b :: b in d && b !in GetHeader(d[g.start]) ==> d[b] == e[b]
    ensures Recovered(g, d) == Recovered(g, e)
  {
    hide Word, SetWord, SetWords;
    assert g.InLog(g.start);
    var cs := LoggedBlocks(g, d);
    assert cs == LoggedBlocks(g, e) by {
      forall i | 0 <= i < |cs| ensures cs[i] == LoggedBlocks(g, e)[i] {
        assert g.InLog(g.start + 1 + i);
      }
    }
    InstallAgree(d, e, GetHeader(d[g.start]), cs);
    RecoveredIs(g, d);
    RecoveredIs(g, e);
  }

  /** Writes that stay inside the log change no home block. */
  lemma {:induction false} LogOnly(g: Geometry, d: Disk, ws: seq<Write>)
    requires forall i :: 0 <= i < |ws| ==> g.InLog(ws[i].blockno)
    ensures Home(g, Apply(d, ws)) == Home(g, d)
  {
    forall b | !g.InLog(b)
      ensures b in Apply(d, ws) <==> b in d
      ensures b in d ==> Apply(d, ws)[b] == d[b]
    {
      ApplyFrame(d, ws, b);
    }
  }

  /** With an empty header, recovery changes no home block. */
  lemma {:induction false} RecoverClean(g: Geometry, d: Disk)
    requires Clean(g, d)
    ensures Recoverable(g, d) && Home(g, Recovered(g, d)) == Home(g, d)
  {
    RecoveredIs(g, d);
    assert g.InLog(g.start);
  }

  ghost function Installed(d: Disk, tx: Tx): Disk
    requires |tx.bs| == |tx.cs|
  {
    Apply(d, InstallWrites(tx.bs, tx.cs))
  }

  /** The disk once commit() has made its first k writes. */
  ghost function CommitCut(g: Geometry, d: Disk, tx: Tx, k: nat): Disk
    requires Clean(g, d) && tx.Fits(g, d)
  {
    var ws := CommitWrites(g, d[g.start], tx.bs, tx.cs);
    Apply(d, if k <= |ws| then ws[..k] else ws)
  }

  /** Until the header is written, a crash loses the whole transaction. */
  lemma {:induction false} CrashBeforeHeader(g: Geometry, d: Disk, tx: Tx, k: nat)
    requires Clean(g, d) && tx.Fits(g, d) && k <= |tx.bs|
    ensures Clean(g, CommitCut(g, d, tx, k)) && Home(g, CommitCut(g, d, tx, k)) == Home(g, d)
  {
    var ws := CommitWrites(g, d[g.start], tx.bs, tx.cs);
    if ws != [] {
      assert ws[..k] == LogWrites(g, tx.cs)[..k];
    }
    LogOnly(g, d, ws[..k]);
    assert g.InLog(g.start);
    ApplyFrame(d, ws[..k], g.start);
  }

  /** The disk at the commit point: logged blocks and header written, nothing installed. */
  ghost function Committed(g: Geometry, d: Disk, tx: Tx): Disk
    requires Clean(g, d) && tx.Fits(g, d)
  {
    assert g.InLog(g.start);
    Apply(d, LogWrites(g, tx.cs))[g.start := PutHeader(d[g.start], tx.bs)]
  }

  lemma {:induction false} LogWritesRead(g: Geometry, d: Disk, cs: seq<Block>, i: nat)
    requires i < |cs|
    ensures g.start + 1 + i in Apply(d, LogWrites(g, cs)) && Apply(d, LogWrites(g, cs))[g.start + 1 + i] == cs[i]
  {
    var init := cs[..|cs| - 1];
    assert LogWrites(g, cs)[..|cs| - 1] == LogWrites(g, init);
    if i < |init| {
      LogWritesRead(g, d, init, i);
    }
  }

  /** At the commit point the log holds exactly the transaction, so recovery installs it. */
  lemma {:induction false} AtCommitPoint(g: Geometry, d: Disk, tx: Tx)
    requires Clean(g, d) && tx.Fits(g, d)
    ensures var c := Committed(g, d, tx);
      && Recoverable(g, c) && GetHeader(c[g.start]) == tx.bs && LoggedBlocks(g, c) == tx.cs
      && Home(g, c) == Home(g, d) && c.Keys == d.Keys
  {
    hide Word, SetWord, SetWords, PutHeader, GetHeader, Committed, Home;
    CommittedHeader(g, d, tx);
    CommittedKeys(g, d, tx);
    CommittedHome(g, d, tx);
    var c := Committed(g, d, tx);
    HeaderLength(c[g.start]);
    forall i | 0 <= i < |tx.cs| ensures g.start + 1 + i in c && c[g.start + 1 + i] == tx.cs[i] {
      CommittedLog(g, d, tx, i);
    }
  }

  lemma {:induction false} HeaderLength(b: Block)
    requires Word(b, 0) <= LOGSIZE
    ensures |GetHeader(b)| == Word(b, 0)
  {
  }

  lemma {:induction false} CommittedHeader(g: Geometry, d: Disk, tx: Tx)
    requires Clean(g, d) && tx.Fits(g, d)
    ensures var c := Committed(g, d, tx);
      g.start in c && Word(c[g.start], 0) == |tx.bs| && GetHeader(c[g.start]) == tx.bs
  {
    hide Word, SetWord, SetWords, Apply;
    HeaderRoundTrip(d[g.start], tx.bs);
  }

  lemma {:induction false} CommittedLog(g: Geometry, d: Disk, tx: Tx, i: nat)
    requires Clean(g, d) && tx.Fits(g, d) && i < |tx.cs|
    ensures var c := Committed(g, d, tx); g.start + 1 + i in c && c[g.start + 1 + i] == tx.cs[i]
  {
    hide Apply, LogWrites, PutHeader, Word;
    LogWritesRead(g, d, tx.cs, i);
  }

  lemma {:induction false} CommittedKeys(g: Geometry, d: Disk, tx: Tx)
    requires Clean(g, d) && tx.Fits(g, d)
    ensures Committed(g, d, tx).Keys == d.Keys
  {
    hide Apply, PutHeader, Word;
    var ws := LogWrites(g, tx.cs);
    assert g.start in g.Region();
    forall b | b in Apply(d, ws)
      ensures b in d
    {
      if b !in d {
        assert forall i :: 0 <= i < |ws| ==> g.InLog(ws[i].blockno);
        assert b !in g.Region();
        ApplyFrame(d, ws, b);
      }
    }
  }

  lemma {:induction false} CommittedHome(g: Geometry, d: Disk, tx: Tx)
    requires Clean(g, d) && tx.Fits(g, d)
    ensures Home(g, Committed(g, d, tx)) == Home(g, d)
  {
    hide Apply, PutHeader, Word;
    LogOnly(g, d, LogWrites(g, tx.cs));
    assert g.start in g.Region();
  }

  /** Home blocks depend only on home blocks, whatever the log holds. */
  lemma {:induction false} InstallHome(g: Geometry, d: Disk, e: Disk, ws: seq<Write>)
    requires Home(g, d) == Home(g, e)
    requires forall i :: 0 <= i < |ws| ==> !g.InLog(ws[i].blockno)
    ensures Home(g, Apply(d, ws)) == Home(g, Apply(e, ws))
  {
    forall b | !g.InLog(b)
      ensures b in Apply(d, ws) <==> b in Apply(e, ws)
      ensures b in Apply(d, ws) ==> Apply(d, ws)[b] == Apply(e, ws)[b]
    {
      assert b in d <==> b in Home(g, d);
      assert b in e <==> b in Home(g, e);
      if Writes(ws, b) {
        ApplyAgree(d, e, ws, b);
      } else {
        ApplyFrame(d, ws, b);
        ApplyFrame(e, ws, b);
      }
    }
  }

  /** Installing any prefix of the log leaves the log readable and the outcome the same. */
  lemma {:induction false} PartlyInstalled(g: Geometry, d: Disk, j: nat)
    requires Recoverable(g, d) && j <= Word(d[g.start], 0)
    ensures var e := Apply(d, InstallWrites(GetHeader(d[g.start]), LoggedBlocks(g, d))[..j]);
      e.Keys == d.Keys && Recoverable(g, e) && Recovered(g, e) == Recovered(g, d)
  {
    hide Word, SetWord, SetWords;
    var bs := GetHeader(d[g.start]);
    var ws := InstallWrites(bs, LoggedBlocks(g, d))[..j];
    var e := Apply(d, ws);
    assert g.InLog(g.start);
    forall b
      ensures Writes(ws, b) ==> b in bs && b in d
    {
      if Writes(ws, b) {
        var i :| 0 <= i < |ws| && ws[i].blockno == b;
        assert bs[i] == b;
      }
    }
    forall b | b in d || b in e
      ensures b in d && b in e
      ensures b !in bs ==> d[b] == e[b]
    {
      if !Writes(ws, b) { ApplyFrame(d, ws, b); }
    }
    SameRecovery(g, d, e);
  }

  lemma {:induction false} RecoveredKeys(g: Geometry, d: Disk)
    requires Recoverable(g, d)
    ensures Recovered(g, d).Keys == d.Keys
  {
    PartlyInstalled(g, d, Word(d[g.start], 0));
    var ins := InstallWrites(GetHeader(d[g.start]), LoggedBlocks(g, d));
    assert ins[..Word(d[g.start], 0)] == ins;
    RecoveredIs(g, d);
    assert g.InLog(g.start);
  }

  lemma {:induction false} CleanAfterRecovery(g: Geometry, d: Disk)
    requires Recoverable(g, d)
    ensures Clean(g, Recovered(g, d))
  {
    RecoveredIs(g, d);
  }

  /** Recovery may itself be cut short after any number of writes: running it again ends
      with the same home blocks. */
  lemma {:induction false} RecoveryCrash(g: Geometry, d: Disk, k: nat)
    requires Recoverable(g, d) && k <= |RecoveryWrites(g, d)|
    ensures var e := Apply(d, RecoveryWrites(g, d)[..k]);
      e.Keys == d.Keys && Recoverable(g, e) && Home(g, Recovered(g, e)) == Home(g, Recovered(g, d))
  {
    hide Word, SetWord, SetWords;
    var ws := RecoveryWrites(g, d);
    if k < |ws| {
      assert ws[..k] == InstallWrites(GetHeader(d[g.start]), LoggedBlocks(g, d))[..k];
      PartlyInstalled(g, d, k);
    } else {
      assert ws[..k] == ws;
      CleanAfterRecovery(g, d);
      RecoverClean(g, Recovered(g, d));
      RecoveredKeys(g, d);
    }
  }

  /** Recovery started |ks| times and cut after ks[0], ks[1], ... writes. */
  ghost function RecoveryCuts(g: Geometry, d: Disk, ks: seq<nat>): Disk
  {
    if ks == [] then d else RecoveryCut(g, RecoveryCuts(g, d, ks[..|ks| - 1]), ks[|ks| - 1])
  }

  /** One recovery cut after k writes. */
  ghost function RecoveryCut(g: Geometry, d: Disk, k: nat): Disk
  {
    if !Recoverable(g, d) then d
    else var ws := RecoveryWrites(g, d); Apply(d, if k <= |ws| then ws[..k] else ws)
  }

  /** Any number of interrupted recoveries leave the disk recoverable to the same home blocks. */
  lemma {:induction false} RecoveriesCut(g: Geometry, d: Disk, ks: seq<nat>)
    requires Recoverable(g, d)
    ensures var e := RecoveryCuts(g, d, ks);
      e.Keys == d.Keys && Recoverable(g, e) && Home(g, Recovered(g, e)) == Home(g, Recovered(g, d))
  {
    if ks != [] {
      hide Recoverable, Recovered, Home, RecoveryCut;
      RecoveriesCut(g, d, ks[..|ks| - 1]);
      RecoveryCutOnce(g, RecoveryCuts(g, d, ks[..|ks| - 1]), ks[|ks| - 1]);
    }
  }

  lemma {:induction false} RecoveryCutOnce(g: Geometry, d: Disk, k: nat)
    requires Recoverable(g, d)
    ensures var e := RecoveryCut(g, d, k);
      e.Keys == d.Keys && Recoverable(g, e) && Home(g, Recovered(g, e)) == Home(g, Recovered(g, d))
  {
    hide Recoverable, Recovered, Home, RecoveryWrites, Apply;
    var ws := RecoveryWrites(g, d);
    assert ws[..|ws|] == ws;
    RecoveryCrash(g, d, if k <= |ws| then k else |ws|);
  }

  /** Crash atomicity of commit(): cut after any k writes, recovery yields the old home
      blocks up to and including the last log write, and the new ones from the header
      write on. */
  lemma {:induction false} CommitCrash(g: Geometry, d: Disk, tx: Tx, k: nat)
    requires Clean(g, d) && tx.Fits(g, d)
    ensures var c := CommitCut(g, d, tx, k);
      && Recoverable(g, c)
      && Home(g, Recovered(g, c)) == Home(g, if k <= |tx.bs| then d else Installed(d, tx))
  {
    hide Word, SetWord, SetWords, Recoverable, Recovered, Home, Apply, Committed, RecoveryWrites, CommitWrites,
         CommitCut, Installed, Clean;
    if k <= |tx.bs| {
      CrashBeforeHeader(g, d, tx, k);
      RecoverClean(g, CommitCut(g, d, tx, k));
    } else if tx.bs == [] {
      RecoverClean(g, d);
      NothingToCommit(g, d, tx, k);
    } else {
      var c := Committed(g, d, tx);
      CommittedRecovers(g, d, tx);
      CommitContinuesAsRecovery(g, d, tx, k);
      var ws := RecoveryWrites(g, c);
      assert ws[..|ws|] == ws;
      RecoveryCrash(g, c, if k - |tx.bs| - 1 <= |ws| then k - |tx.bs| - 1 else |ws|);
    }
  }

  lemma {:induction false} NothingToCommit(g: Geometry, d: Disk, tx: Tx, k: nat)
    requires Clean(g, d) && tx.Fits(g, d) && tx.bs == []
    ensures CommitCut(g, d, tx, k) == d == Installed(d, tx)
  {
  }

  /** Past the header write, commit() makes exactly the writes recovery would make. */
  lemma {:induction false} CommitContinuesAsRecovery(g: Geometry, d: Disk, tx: Tx, k: nat)
    requires Clean(g, d) && tx.Fits(g, d) && 0 < |tx.bs| < k
    ensures Recoverable(g, Committed(g, d, tx))
    ensures var ws := RecoveryWrites(g, Committed(g, d, tx));
      && |CommitWrites(g, d[g.start], tx.bs, tx.cs)| == |tx.bs| + 1 + |ws|
      && CommitCut(g, d, tx, k) ==
         Apply(Committed(g, d, tx), if k - |tx.bs| - 1 <= |ws| then ws[..k - |tx.bs| - 1] else ws)
  {
    hide Word, SetWord, SetWords;
    AtCommitPoint(g, d, tx);
    var pre := LogWrites(g, tx.cs) + [Write(g.start, PutHeader(d[g.start], tx.bs))];
    assert pre[..|pre| - 1] == LogWrites(g, tx.cs);
    assert Apply(d, pre) == Committed(g, d, tx);
    var post := RecoveryWrites(g, Committed(g, d, tx));
    var ws := CommitWrites(g, d[g.start], tx.bs, tx.cs);
    assert ws == pre + post;
    var j := if k - |tx.bs| - 1 <= |post| then k - |tx.bs| - 1 else |post|;
    assert (if k <= |ws| then ws[..k] else ws) == pre + post[..j];
    assert post[..|post|] == post;
    ApplyAppend(d, pre, post[..j]);
  }

  lemma {:induction false} CommittedRecovers(g: Geometry, d: Disk, tx: Tx)
    requires Clean(g, d) && tx.Fits(g, d)
    ensures Recoverable(g, Committed(g, d, tx))
    ensures Home(g, Recovered(g, Committed(g, d, tx))) == Home(g, Installed(d, tx))
  {
    hide Word, SetWord, SetWords, PutHeader, GetHeader, Committed, Home, Apply, Recoverable, Recovered, LoggedBlocks;
    var c := Committed(g, d, tx);
    AtCommitPoint(g, d, tx);
    InstallHome(g, c, d, InstallWrites(tx.bs, tx.cs));
    RecoveredIs(g, c);
    HeaderIsLog(g, Apply(c, InstallWrites(tx.bs, tx.cs)), PutHeader(c[g.start], []));
  }

  lemma {:induction false} HeaderIsLog(g: Geometry, d: Disk, x: Block)
    requires g.size >= 1
    ensures Home(g, d[g.start := x]) == Home(g, d)
  {
    assert g.InLog(g.start);
  }

  /** The disk after commit() has run to its end. */
  ghost function CommitDone(g: Geometry, d: Disk, tx: Tx): Disk
    requires Clean(g, d) && tx.Fits(g, d)
  {
    Apply(d, CommitWrites(g, d[g.start], tx.bs, tx.cs))
  }

  /** commit() run to its end leaves a clean log and the transaction installed. */
  lemma {:induction false} CommitCompletes(g: Geometry, d: Disk, tx: Tx)
    requires Clean(g, d) && tx.Fits(g, d)
    ensures Clean(g, CommitDone(g, d, tx))
    ensures Home(g, CommitDone(g, d, tx)) == Home(g, Installed(d, tx))
    ensures CommitDone(g, d, tx).Keys == d.Keys
  {
    if tx.bs != [] {
      var c := Committed(g, d, tx);
      var k := |CommitWrites(g, d[g.start], tx.bs, tx.cs)|;
      CommitContinuesAsRecovery(g, d, tx, k);
      CommitDoneIsCut(g, d, tx, k);
      CommittedRecovers(g, d, tx);
      assert CommitDone(g, d, tx) == Recovered(g, c) by { var ws := RecoveryWrites(g, c); assert ws[..|ws|] == ws; }
      CleanAfterRecovery(g, c);
      RecoveredKeys(g, c);
      CommittedKeys(g, d, tx);
    }
  }

  lemma {:induction false} CommitDoneIsCut(g: Geometry, d: Disk, tx: Tx, k: nat)
    requires Clean(g, d) && tx.Fits(g, d) && k >= |CommitWrites(g, d[g.start], tx.bs, tx.cs)|
    ensures CommitCut(g, d, tx, k) == CommitDone(g, d, tx)
  {
    var ws := CommitWrites(g, d[g.start], tx.bs, tx.cs);
    assert ws[..|ws|] == ws;
  }

  // ----- whole lifetimes -----

  ghost predicate TxsFit(g: Geometry, d: Disk, txs: seq<Tx>) { forall i :: 0 <= i < |txs| ==> txs[i].Fits(g, d) }

  /** How many block writes commit() makes. */
  function CommitLength(tx: Tx): nat { if tx.bs == [] then 0 else 2 * |tx.bs| + 2 }

  /** Transactions committed in order until the power fails after `cut` block writes. */
  ghost function PowerCut(g: Geometry, d: Disk, txs: seq<Tx>, cut: nat): (e: Disk)
    requires Clean(g, d) && TxsFit(g, d, txs)
    decreases |txs|
  {
    if txs == [] then d
    else if cut < CommitLength(txs[0]) then CommitCut(g, d, txs[0], cut)
    else
      CommitCompletes(g, d, txs[0]);
      PowerCut(g, CommitDone(g, d, txs[0]), txs[1..], cut - CommitLength(txs[0]))
  }

  /** How many transactions survive: those whose header write reached the disk. */
  function Durable(txs: seq<Tx>, cut: nat): (m: nat)
    ensures m <= |txs|
  {
    if txs == [] then 0
    else if cut < CommitLength(txs[0]) then (if cut <= |txs[0].bs| then 0 else 1)
    else 1 + Durable(txs[1..], cut - CommitLength(txs[0]))
  }

  ghost predicate Paired(txs: seq<Tx>) { forall i :: 0 <= i < |txs| ==> |txs[i].bs| == |txs[i].cs| }

  /** The effect of transactions with no log and no crash. */
  ghost function InstallAll(d: Disk, txs: seq<Tx>): Disk
    requires Paired(txs)
    decreases |txs|
  {
    if txs == [] then d else InstallAll(Installed(d, txs[0]), txs[1..])
  }

  lemma {:induction false} InstallAllHome(g: Geometry, d: Disk, e: Disk, txs: seq<Tx>)
    requires Home(g, d) == Home(g, e) && Paired(txs)
    requires forall i, b :: 0 <= i < |txs| && b in txs[i].bs ==> !g.InLog(b)
    ensures Home(g, InstallAll(d, txs)) == Home(g, InstallAll(e, txs))
    decreases |txs|
  {
    if txs != [] {
      InstallHome(g, d, e, InstallWrites(txs[0].bs, txs[0].cs));
      InstallAllHome(g, Installed(d, txs[0]), Installed(e, txs[0]), txs[1..]);
    }
  }

  /** A power cut anywhere in a run of transactions: recovery ends with exactly the first
      Durable(txs, cut) of them, in full. */
  lemma {:induction false} PowerCutRecovers(g: Geometry, d: Disk, txs: seq<Tx>, cut: nat)
    requires Clean(g, d) && TxsFit(g, d, txs)
    ensures Recoverable(g, PowerCut(g, d, txs, cut)) && Paired(txs[..Durable(txs, cut)])
    ensures PowerCut(g, d, txs, cut).Keys == d.Keys
    ensures Home(g, Recovered(g, PowerCut(g, d, txs, cut))) == Home(g, InstallAll(d, txs[..Durable(txs, cut)]))
    decreases |txs|
  {
    hide Clean, Home, Recoverable, Recovered, CommitDone, CommitCut, Installed;
    if txs == [] {
      RecoverClean(g, d);
    } else if cut < CommitLength(txs[0]) {
      CommitCrash(g, d, txs[0], cut);
      CommitCutKeys(g, d, txs[0], cut);
      FirstOnly(d, txs, Durable(txs, cut));
    } else {
      CutLater(g, d, txs, cut);
      PowerCutRecovers(g, CommitDone(g, d, txs[0]), txs[1..], cut - CommitLength(txs[0]));
    }
  }

  lemma {:induction false} CutLater(g: Geometry, d: Disk, txs: seq<Tx>, cut: nat)
    requires Clean(g, d) && TxsFit(g, d, txs) && txs != [] && cut >= CommitLength(txs[0])
    ensures var e, m := CommitDone(g, d, txs[0]), Durable(txs[1..], cut - CommitLength(txs[0]));
      && Clean(g, e) && TxsFit(g, e, txs[1..]) && e.Keys == d.Keys
      && Paired(txs[1..][..m]) && Paired(txs[..m + 1])
      && Home(g, InstallAll(e, txs[1..][..m])) == Home(g, InstallAll(d, txs[..m + 1]))
  {
    hide Word, SetWord, SetWords;
    CommitCompletes(g, d, txs[0]);
    var m := Durable(txs[1..], cut - CommitLength(txs[0]));
    assert txs[..m + 1][1..] == txs[1..][..m];
    InstallAllHome(g, CommitDone(g, d, txs[0]), Installed(d, txs[0]), txs[1..][..m]);
  }

  lemma {:induction false} FirstOnly(d: Disk, txs: seq<Tx>, m: nat)
    requires Paired(txs) && m <= 1 && m <= |txs|
    ensures Paired(txs[..m]) && InstallAll(d, txs[..m]) == if m == 0 then d else Installed(d, txs[0])
  {
    if m == 1 {
      assert txs[..m] == [txs[0]];
      assert InstallAll(Installed(d, txs[0]), txs[..m][1..]) == Installed(d, txs[0]);
    }
  }

  lemma {:induction false} CommitCutKeys(g: Geometry, d: Disk, tx: Tx, k: nat)
    requires Clean(g, d) && tx.Fits(g, d)
    ensures CommitCut(g, d, tx, k).Keys == d.Keys
  {
    var ws := CommitWrites(g, d[g.start], tx.bs, tx.cs);
    var vs := if k <= |ws| then ws[..k] else ws;
    forall i | 0 <= i < |vs| ensures vs[i].blockno in d {
      assert vs[i] == ws[i];
      assert g.InLog(g.start);
      if i < |tx.bs| { assert g.InLog(g.start + 1 + i); }
      else if |tx.bs| < i <= 2 * |tx.bs| { assert ws[i].blockno == tx.bs[i - |tx.bs| - 1]; }
    }
    forall b | b in Apply(d, vs) ensures b in d {
      if b !in d && !Writes(vs, b) { ApplyFrame(d, vs, b); }
    }
  }

  /** One boot: transactions until a power cut, recoveries cut short after recuts[0],
      recuts[1], ... writes, and then one that completes. */
  datatype Boot = Boot(txs: seq<Tx>, cut: nat, recuts: seq<nat>)

  /** The disk after a boot; what the cuts leave is always recoverable (AfterBootIs). */
  ghost function AfterBoot(g: Geometry, d: Disk, boot: Boot): Disk
    requires Clean(g, d) && TxsFit(g, d, boot.txs)
  {
    var e := RecoveryCuts(g, PowerCut(g, d, boot.txs, boot.cut), boot.recuts);
    if Recoverable(g, e) then Recovered(g, e) else e
  }

  lemma {:induction false} AfterBootIs(g: Geometry, d: Disk, boot: Boot)
    requires Clean(g, d) && TxsFit(g, d, boot.txs)
    ensures Clean(g, AfterBoot(g, d, boot)) && Paired(boot.txs[..Durable(boot.txs, boot.cut)])
    ensures AfterBoot(g, d, boot).Keys == d.Keys
    ensures Home(g, AfterBoot(g, d, boot)) == Home(g, InstallAll(d, boot.txs[..Durable(boot.txs, boot.cut)]))
  {
    PowerCutRecovers(g, d, boot.txs, boot.cut);
    hide Recoverable, Recovered, Home, PowerCut, RecoveryCuts, InstallAll, Clean;
    var c := PowerCut(g, d, boot.txs, boot.cut);
    RecoveriesCut(g, c, boot.recuts);
    var e := RecoveryCuts(g, c, boot.recuts);
    CleanAfterRecovery(g, e);
    RecoveredKeys(g, e);
  }

  ghost predicate BootsFit(g: Geometry, d: Disk, boots: seq<Boot>) {
    forall i :: 0 <= i < |boots| ==> TxsFit(g, d, boots[i].txs)
  }

  /** The disk after all boots; each finds a clean log (LifetimeAtomic). */
  ghost function Lifetime(g: Geometry, d: Disk, boots: seq<Boot>): Disk
    decreases |boots|
  {
    if boots != [] && Clean(g, d) && TxsFit(g, d, boots[0].txs) then
      Lifetime(g, AfterBoot(g, d, boots[0]), boots[1..])
    else d
  }

  /** The transactions that survive a lifetime: a prefix of each boot's. */
  function Survivors(boots: seq<Boot>): seq<Tx>
  {
    if boots == [] then []
    else boots[0].txs[..Durable(boots[0].txs, boots[0].cut)] + Survivors(boots[1..])
  }

  /** Over any number of boots, each with any power cut and any number of interrupted
      recoveries, the file system ends as if exactly the surviving transactions had run
      one after the other, whole. */
  lemma {:induction false} LifetimeAtomic(g: Geometry, d: Disk, boots: seq<Boot>)
    requires Clean(g, d) && BootsFit(g, d, boots)
    ensures Paired(Survivors(boots))
    ensures Clean(g, Lifetime(g, d, boots))
    ensures Home(g, Lifetime(g, d, boots)) == Home(g, InstallAll(d, Survivors(boots)))
    decreases |boots|
  {
    hide Clean, Home, AfterBoot, Installed, Durable;
    if boots != [] {
      var boot := boots[0];
      var kept := boot.txs[..Durable(boot.txs, boot.cut)];
      var rest := Survivors(boots[1..]);
      var e := AfterBoot(g, d, boot);
      AfterBootIs(g, d, boot);
      LifetimeAtomic(g, e, boots[1..]);
      ThenInstall(g, d, e, kept, boots[1..]);
    }
  }

  lemma {:induction false} ThenInstall(g: Geometry, d: Disk, e: Disk, kept: seq<Tx>, boots: seq<Boot>)
    requires BootsFit(g, d, boots) && Paired(kept) && Home(g, e) == Home(g, InstallAll(d, kept))
    ensures Paired(kept + Survivors(boots)) && Paired(Survivors(boots))
    ensures Home(g, InstallAll(e, Survivors(boots))) == Home(g, InstallAll(d, kept + Survivors(boots)))
  {
    SurvivorsFit(g, d, boots);
    InstallAllHome(g, e, InstallAll(d, kept), Survivors(boots));
    InstallAllAppend(d, kept, Survivors(boots));
  }

  lemma {:induction false} SurvivorsFit(g: Geometry, d: Disk, boots: seq<Boot>)
    requires BootsFit(g, d, boots)
    ensures TxsFit(g, d, Survivors(boots))
  {
    if boots != [] { SurvivorsFit(g, d, boots[1..]); }
  }

  lemma {:induction false} InstallAllAppend(d: Disk, xs: seq<Tx>, ys: seq<Tx>)
    requires Paired(xs) && Paired(ys)
    ensures Paired(xs + ys) && InstallAll(d, xs + ys) == InstallAll(InstallAll(d, xs), ys)
    decreases |xs|
  {
    if xs == [] {
      assert xs + ys == ys;
    } else {
      assert (xs + ys)[1..] == xs[1..] + ys;
      InstallAllAppend(Installed(d, xs[0]), xs[1..], ys);
    }
  }
}
