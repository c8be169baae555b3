/** The file system on the log: what a crash in the middle of one chunk of filewrite leaves
    (file.c:117-156, fs.c:481-511, log.c).  Bitmap, inodes and data blocks are laid out on disk as
    fs.h says. */
module FsOnLog {
  import opened Common
  import opened Blocks
  import opened FsSpec
  import opened FileSys
  import opened Format
  import opened LogSpec
  import opened BufferCache
  import opened Log
  import opened Transaction

  /** Bitmap bits, inodes and block contents. */
  datatype FsState = FsState(bm: seq<bool>, t: Table, d: Data)

  function StateOf(fs: Fs): FsState
    reads fs
  { FsState(fs.bitmap, fs.dinodes, fs.data) }

  // ----- the layout -----

  function AsBytes(b: Block): Bytes8 { seq(512, i requires 0 <= i < 512 => b[i] as bv8) }

  function FromBytes(y: Bytes8): Block { seq(512, i requires 0 <= i < 512 => y[i] as int) }

  predicate IsData(sb: Super, s: FsState, b: nat) { sb.nmeta <= b < |s.d| }
  predicate IsBits(sb: Super, s: FsState, b: nat) { sb.bmapstart <= b && (b - sb.bmapstart) * BPB < |s.bm| }
  predicate IsInodes(sb: Super, s: FsState, b: nat) { sb.inodestart <= b && (b - sb.inodestart) * IPB < |s.t| }
  predicate Used(sb: Super, s: FsState, b: nat) { IsData(sb, s, b) || IsBits(sb, s, b) || IsInodes(sb, s, b) }

  /** Bitmap, inodes and log are in different blocks, below the data. */
  ghost predicate Laid(sb: Super, g: Geometry, s: FsState) {
    && |s.bm| == |s.d| == sb.size && sb.nmeta <= sb.size < U32
    && (forall b :: 0 <= b && IsBits(sb, s, b) ==> b < sb.nmeta && !IsInodes(sb, s, b))
    && (forall b :: 0 <= b && IsInodes(sb, s, b) ==> b < sb.nmeta)
    && (forall b :: 0 <= b && Used(sb, s, b) ==> !g.InLog(b))
  }

  /** Bit i of block b, if it is a bitmap block. */
  ghost predicate BitIs(sb: Super, s: FsState, b: nat, x: Block, i: nat) {
    i < BPB && IsBits(sb, s, b) && (b - sb.bmapstart) * BPB + i < |s.bm| ==>
      Bit(AsBytes(x), i) == s.bm[(b - sb.bmapstart) * BPB + i]
  }

  /** Inode i of block b, if it is an inode block. */
  ghost predicate InodeIs(sb: Super, s: FsState, b: nat, x: Block, i: nat) {
    i < IPB && IsInodes(sb, s, b) && (b - sb.inodestart) * IPB + i < |s.t| ==>
      InodeIn(x, i) == s.t[(b - sb.inodestart) * IPB + i]
  }

  /** Block b has the contents x in state s. */
  ghost predicate Is(sb: Super, s: FsState, b: nat, x: Block) {
    && (IsData(sb, s, b) ==> x == s.d[b])
    && (forall i: nat :: BitIs(sb, s, b, x, i)) && forall i: nat :: InodeIs(sb, s, b, x, i)
  }

  /** The disk holds the file system s. */
  ghost predicate Encodes(sb: Super, disk: Disk, s: FsState) {
    forall b :: 0 <= b && Used(sb, s, b) ==> b in disk && Is(sb, s, b, disk[b])
  }

  // ----- what an operation changes -----

  ghost predicate SameShape(s: FsState, s': FsState) { |s'.bm| == |s.bm| && |s'.t| == |s.t| && |s'.d| == |s.d| }

  /** Outside l the new state is encoded as the old one. */
  ghost predicate Confined(sb: Super, s: FsState, s': FsState, l: set<nat>) {
    SameShape(s, s') && forall b, x {:trigger Is(sb, s', b, x)} :: 0 <= b && b !in l && Is(sb, s, b, x) ==>
      Is(sb, s', b, x)
  }

  lemma {:induction false} LoggedIsConfined(sb: Super, s: FsState, s': FsState, l: set<nat>, n: nat)
    requires AllLogged(sb, s.bm, s.d, {}, s'.bm, s'.d, l) && n < |s.t| == |s'.t|
    requires s'.t == s.t[n := s'.t[n]] && (s'.t != s.t ==> IBlock(sb, n) in l)
    ensures Confined(sb, s, s', l)
  {
    forall b: nat, x | b !in l && Is(sb, s, b, x) ensures Is(sb, s', b, x) {
      forall i: nat ensures BitIs(sb, s', b, x, i) && InodeIs(sb, s', b, x, i) {
        assert BitIs(sb, s, b, x, i) && InodeIs(sb, s, b, x, i);
        SamePlace(sb, s, s', l, n, b, i);
      }
    }
  }

  lemma {:induction false} SamePlace(sb: Super, s: FsState, s': FsState, l: set<nat>, n: nat, b: nat, i: nat)
    requires AllLogged(sb, s.bm, s.d, {}, s'.bm, s'.d, l) && n < |s.t| == |s'.t| && b !in l
    requires s'.t == s.t[n := s'.t[n]] && (s'.t != s.t ==> IBlock(sb, n) in l)
    ensures var j := (b - sb.bmapstart) * BPB + i; sb.bmapstart <= b && i < BPB && j < |s.bm| ==> s'.bm[j] == s.bm[j]
    ensures var j := (b - sb.inodestart) * IPB + i; sb.inodestart <= b && i < IPB && j < |s.t| ==> s'.t[j] == s.t[j]
  {
    if sb.bmapstart <= b && i < BPB { BlockParts(b - sb.bmapstart, i); }
    if sb.inodestart <= b && i < IPB { InodeParts(b - sb.inodestart, i); }
  }

  lemma {:induction false} InodeParts(q: nat, i: nat)
    requires i < IPB
    ensures (q * IPB + i) / IPB == q && (q * IPB + i) % IPB == i
  {
  }

  /** The transaction has every block of l, as it is in s. */
  ghost predicate Carries(sb: Super, s: FsState, l: set<nat>, tx: Tx) {
    && |tx.bs| == |tx.cs| && (forall b :: b in l && Used(sb, s, b) ==> b in tx.bs)
    && forall i :: 0 <= i < |tx.bs| ==> Is(sb, s, tx.bs[i], tx.cs[i])
  }

  lemma {:induction false} InstalledAt(d: Disk, bs: seq<nat>, cs: seq<Block>, b: nat)
    requires |bs| == |cs|
    ensures var e := Apply(d, InstallWrites(bs, cs));
      if b in bs then b in e && exists i :: 0 <= i < |bs| && bs[i] == b && cs[i] == e[b]
      else (b in e <==> b in d) && (b in d ==> e[b] == d[b])
  {
    if bs != [] {
      var n, ws := |bs| - 1, InstallWrites(bs, cs);
      assert ws[..n] == InstallWrites(bs[..n], cs[..n]) && ws[n] == Write(bs[n], cs[n]);
      InstalledAt(d, bs[..n], cs[..n], b);
      if b in bs && b != bs[n] {
        assert b in bs[..n];
        var i :| 0 <= i < n && bs[..n][i] == b && cs[..n][i] == Apply(d, InstallWrites(bs[..n], cs[..n]))[b];
        assert bs[i] == b && cs[i] == Apply(d, ws)[b];
      } else if b !in bs {
        assert b !in bs[..n];
      }
    }
  }

  /** Installing the logged blocks takes the disk from the old state to the new. */
  lemma {:induction false} InstalledEncodes(sb: Super, disk: Disk, s: FsState, s': FsState, l: set<nat>, tx: Tx)
    requires Encodes(sb, disk, s) && Confined(sb, s, s', l) && Carries(sb, s', l, tx)
    ensures Encodes(sb, Installed(disk, tx), s')
  {
    hide Is, Apply;
    forall b: nat | Used(sb, s', b) ensures b in Installed(disk, tx) && Is(sb, s', b, Installed(disk, tx)[b]) {
      InstalledAt(disk, tx.bs, tx.cs, b);
      assert Used(sb, s, b);
    }
  }

  lemma {:induction false} HomeEncodes(sb: Super, g: Geometry, d: Disk, e: Disk, s: FsState)
    requires Laid(sb, g, s) && Home(g, e) == Home(g, d) && Encodes(sb, d, s)
    ensures Encodes(sb, e, s)
  {
    hide Is;
    forall b: nat | Used(sb, s, b) ensures b in e && e[b] == d[b] {
      assert b in d && !g.InLog(b) && b in Home(g, d) && b in Home(g, e);
    }
  }

  ghost predicate OldOrNew(sb: Super, g: Geometry, e: Disk, s: FsState, s': FsState) {
    Recoverable(g, e) && (Encodes(sb, Recovered(g, e), s) || Encodes(sb, Recovered(g, e), s'))
  }

  /** A crash that recovers to the home blocks before or after the transaction recovers to the old
      file system or the new. */
  lemma {:induction false} Survives(sb: Super, g: Geometry, disk: Disk, s: FsState, s': FsState, l: set<nat>, tx: Tx,
      e: Disk)
    requires Laid(sb, g, s) && Encodes(sb, disk, s) && Confined(sb, s, s', l) && Carries(sb, s', l, tx)
    requires CrashSafe(g, Home(g, disk), Home(g, Installed(disk, tx)), e)
    ensures OldOrNew(sb, g, e, s, s')
  {
    hide Is, Recovered, Recoverable, Home, Installed, Encodes;
    InstalledEncodes(sb, disk, s, s', l, tx);
    LaidToo(sb, g, s, s');
    if Home(g, Recovered(g, e)) == Home(g, disk) {
      HomeEncodes(sb, g, disk, Recovered(g, e), s);
    } else {
      HomeEncodes(sb, g, Installed(disk, tx), Recovered(g, e), s');
    }
  }

  lemma {:induction false} LaidToo(sb: Super, g: Geometry, s: FsState, s': FsState)
    requires Laid(sb, g, s) && SameShape(s, s')
    ensures Laid(sb, g, s')
  {
    forall b: nat ensures (IsBits(sb, s', b) <==> IsBits(sb, s, b)) && (Used(sb, s', b) <==> Used(sb, s, b)) {}
    forall b: nat ensures IsInodes(sb, s', b) <==> IsInodes(sb, s, b) {}
  }

  // ----- encoding -----

  function BitBlock(bits: seq<bool>): Bytes8
    requires |bits| <= BPB
  {
    if bits == [] then seq(512, _ => 0)
    else Stored([BitBlock(bits[..|bits| - 1])], |bits| - 1, bits[|bits| - 1])[0]
  }

  lemma {:induction false} BitBlockIs(bits: seq<bool>, i: nat)
    requires i < |bits| <= BPB
    ensures Bit(BitBlock(bits), i) == bits[i]
  {
    hide Mask, Has, Or, AndNot;
    var n := |bits| - 1;
    var b := BitBlock(bits[..n]);
    StoredAt([b], n, bits[n], i);
    assert Stored([b], n, bits[n]) == [BitBlock(bits)];
    if i < n { BitBlockIs(bits[..n], i); }
  }

  function InodeBlock(ds: seq<Dinode>): Block
    requires |ds| <= IPB
  {
    if ds == [] then Zero()
    else Put(InodeBlock(ds[..|ds| - 1]), DINODE * (|ds| - 1), Packed(ds[|ds| - 1]))
  }

  lemma {:induction false} InodeBlockIs(ds: seq<Dinode>, i: nat)
    requires i < |ds| <= IPB && forall k :: 0 <= k < |ds| ==> Storable(ds[k])
    ensures InodeIn(InodeBlock(ds), i) == ds[i]
  {
    hide InodeIn, Put, Packed;
    var n := |ds| - 1;
    PutInode(InodeBlock(ds[..n]), n, ds[n], i);
    if i < n { InodeBlockIs(ds[..n], i); }
  }

  lemma {:induction false} BytesBack(y: Bytes8)
    ensures AsBytes(FromBytes(y)) == y
  {
  }

  predicate AllStorable(t: Table) { forall n :: 0 <= n < |t| ==> Storable(t[n]) }

  function Slice<T>(s: seq<T>, k: nat, n: nat): (r: seq<T>)
    requires k <= |s|
    ensures |r| <= n && forall i :: 0 <= i < n && k + i < |s| ==> i < |r| && r[i] == s[k + i]
  { if k + n <= |s| then s[k..k + n] else s[k..] }

  /** What block b holds in state s. */
  function Encode(sb: Super, s: FsState, b: nat): Block
    requires Used(sb, s, b)
  {
    if IsData(sb, s, b) then s.d[b]
    else if IsBits(sb, s, b) then FromBytes(BitBlock(Slice(s.bm, (b - sb.bmapstart) * BPB, BPB)))
    else InodeBlock(Slice(s.t, (b - sb.inodestart) * IPB, IPB))
  }

  lemma {:induction false} EncodeIs(sb: Super, g: Geometry, s: FsState, b: nat)
    requires Laid(sb, g, s) && Used(sb, s, b) && AllStorable(s.t)
    ensures Is(sb, s, b, Encode(sb, s, b))
  {
    hide Bit, InodeIn, BitBlock, InodeBlock, AsBytes, FromBytes;
    var x := Encode(sb, s, b);
    if IsBits(sb, s, b) {
      var bits := Slice(s.bm, (b - sb.bmapstart) * BPB, BPB);
      BytesBack(BitBlock(bits));
      forall i: nat ensures BitIs(sb, s, b, x, i) {
        if i < |bits| { BitBlockIs(bits, i); }
      }
    }
    if IsInodes(sb, s, b) {
      var ds := Slice(s.t, (b - sb.inodestart) * IPB, IPB);
      forall i: nat ensures InodeIs(sb, s, b, x, i) {
        if i < |ds| { InodeBlockIs(ds, i); }
      }
    }
  }

  /** The transaction that logs the blocks of l. */
  method LogAll(sb: Super, g: Geometry, s: FsState, l: set<nat>, disk: Disk) returns (tx: Tx)
    requires Laid(sb, g, s) && AllStorable(s.t) && (forall b :: 0 <= b && Used(sb, s, b) ==> b in disk)
    ensures |tx.bs| <= |l| && |tx.bs| == |tx.cs| && forall b :: b in tx.bs ==> b in disk && !g.InLog(b)
    ensures Carries(sb, s, l, tx)
  {
    hide Is, Encode;
    var bs: seq<word>, cs: seq<Block> := [], [];
    var todo := l;
    while todo != {}
      invariant todo <= l && |bs| == |cs| && |bs| + |todo| <= |l|
      invariant forall b :: b in l && Used(sb, s, b) ==> b in todo || b in bs
      invariant forall i :: 0 <= i < |bs| ==> bs[i] in disk && !g.InLog(bs[i]) && Is(sb, s, bs[i], cs[i])
      decreases |todo|
    {
      var b: nat :| b in todo;
      todo := todo - {b};
      if Used(sb, s, b) {
        EncodeIs(sb, g, s, b);
        InWord(sb, g, s, b);
        bs, cs := bs + [b], cs + [Encode(sb, s, b)];
      }
    }
    tx := Tx(bs, cs);
  }

  lemma {:induction false} InWord(sb: Super, g: Geometry, s: FsState, b: nat)
    requires Laid(sb, g, s) && Used(sb, s, b)
    ensures b < U32 && !g.InLog(b)
  {
  }

  // ----- one chunk of filewrite -----

  lemma {:induction false} StillStorable(fs: Fs, ip: Inode, t: Table, size: nat)
    requires fs.Settled(ip) && ip.inum < |t| && fs.dinodes == t[ip.inum := ip.din] && AllStorable(t)
    requires ip.din == t[ip.inum].(size := size, addrs := ip.din.addrs) && fs.sb.size < U32
    ensures AllStorable(fs.dinodes)
  {
    assert fs.Tab(ip) == fs.dinodes;
    forall i | 0 <= i < 13 ensures ip.din.addrs[i] < U32 {
      assert RefOk(fs.sb, fs.bitmap, fs.dinodes, fs.data, if i < NDIRECT then Direct(ip.inum, i)
        else Indirect(ip.inum));
    }
  }

  /** A settled inode that is on disk as in memory: the whole file system is consistent. */
  lemma {:induction false} SettledInv(fs: Fs, ip: Inode)
    requires fs.Settled(ip) && fs.dinodes[ip.inum] == ip.din
    ensures FsInv(fs.sb, fs.bitmap, fs.dinodes, fs.data)
  {
    assert fs.Tab(ip) == fs.dinodes;
    forall n | 0 <= n < |fs.dinodes| ensures NoHoles(fs.dinodes, fs.data, n) {}
  }

  /** writei of at most three blocks' worth, seen from the disk. */
  method ChunkInMemory(fs: Fs, ip: Inode, off: word, src: seq<byte>) returns (r: int, wrote: bool)
    requires fs.Settled(ip) && fs.dinodes[ip.inum] == ip.din && fs.logged == {} && |src| <= 3 * BSIZE
    requires AllStorable(fs.dinodes) && fs.sb.size < U32
    modifies fs, ip
    ensures FsInv(fs.sb, old(fs.bitmap), old(fs.dinodes), old(fs.data))
    ensures wrote ==> FsInv(fs.sb, fs.bitmap, fs.dinodes, fs.data) && fs.Settled(ip) && fs.dinodes[ip.inum] == ip.din
    ensures wrote && r != -1 ==> off <= |old(fs.ContentOf(ip))|
    ensures wrote && r != -1 ==> r == |src| && fs.ContentOf(ip) == FlatWrite(old(fs.ContentOf(ip)), off, src)
    ensures wrote && r == -1 ==> StateOf(fs) == old(StateOf(fs))
    ensures wrote && r != -1 ==> OthersKept(old(fs.dinodes), old(fs.data), fs.dinodes, fs.data, ip.inum)
    ensures wrote ==> |fs.logged| <= MAXOPBLOCKS && AllStorable(fs.dinodes)
    ensures wrote ==> Confined(fs.sb, old(StateOf(fs)), StateOf(fs), fs.logged)
    ensures r == -1 <==> Refused(old(ip.din).size, off, |src|)
    ensures wrote <==>
      r == -1 || ClearBits(old(fs.bitmap)) >= FileBlocks(old(ip.din).size, |FlatWrite(old(fs.ContentOf(ip)), off, src)|)
    ensures !wrote ==> |fs.bitmap| == fs.sb.size && forall x :: 0 <= x < fs.sb.size ==> fs.bitmap[x]
  {
    hide Owned, Mapped, NoHoles, FsInv, OthersKept, Content, FlatWrite, AllLogged, Confined, AllStorable, ClearBits,
         FileBlocks;
    SettledInv(fs, ip);
    ghost var s, t := StateOf(fs), fs.dinodes;
    assert fs.Tab(ip) == fs.dinodes;
    r, wrote := fs.Writei(ip, off, src);
    if !wrote { return; }
    assert fs.Tab(ip) == fs.dinodes;
    SettledInv(fs, ip);
    LoggedIsConfined(fs.sb, s, StateOf(fs), fs.logged, ip.inum);
    StillStorable(fs, ip, t, ip.din.size);
  }

  /** Log the blocks of l as they are in s' and commit. */
  method CommitState(log: Logger, sb: Super, ghost s: FsState, s': FsState, l: set<nat>, me: nat) returns (ok: bool)
    requires log.Valid() && log.outstanding == 0 && log.cache.Holds(me, {}) && LOGSIZE <= log.g.size
    requires Laid(sb, log.g, s) && Encodes(sb, log.cache.disk, s) && Confined(sb, s, s', l)
    requires AllStorable(s'.t) && |l| <= MAXOPBLOCKS
    modifies log, log.cache
    ensures ok ==> log.Valid() && log.outstanding == 0 && log.cache.Holds(me, {}) && Encodes(sb, log.cache.disk, s')
    ensures old(log.cache.trace) <= log.cache.trace
    ensures forall j :: 0 <= j <= |log.cache.trace| - |old(log.cache.trace)| ==>
      OldOrNew(sb, log.g, Apply(old(log.cache.disk), WritesSince(old(log.cache.trace), log.cache.trace, j)), s, s')
    ensures !ok ==> log.cache.Crowded(me)
  {
    hide Is, Encodes, Confined, Carries, Apply, OldOrNew, WritesSince, Cache.Valid, Cache.Contents, Cache.Pinned,
         Cache.Holds, Logger.Valid, CrashSafe, Home, Installed, Laid, Cache.Crowded;
    var g := log.g;
    ghost var disk := log.cache.disk;
    Shapes(sb, g, s, s', l, disk);
    var tx := LogAll(sb, g, s', l, log.cache.disk);
    CarriesSays(sb, s', l, tx);
    ok := RunTransaction(log, tx, me);
    forall j | 0 <= j <= |log.cache.trace| - |old(log.cache.trace)|
      ensures OldOrNew(sb, g, Apply(disk, WritesSince(old(log.cache.trace), log.cache.trace, j)), s, s')
    {
      Survives(sb, g, disk, s, s', l, tx, Apply(disk, WritesSince(old(log.cache.trace), log.cache.trace, j)));
    }
    if ok {
      InstalledEncodes(sb, disk, s, s', l, tx);
      HomeEncodes(sb, g, Installed(disk, tx), log.cache.disk, s');
    }
  }

  lemma {:induction false} Shapes(sb: Super, g: Geometry, s: FsState, s': FsState, l: set<nat>, disk: Disk)
    requires Laid(sb, g, s) && Encodes(sb, disk, s) && Confined(sb, s, s', l)
    ensures Laid(sb, g, s') && forall b :: 0 <= b && Used(sb, s', b) ==> b in disk
  {
    LaidToo(sb, g, s, s');
    forall b: nat | Used(sb, s', b) ensures b in disk { assert Used(sb, s, b); }
  }

  lemma {:induction false} CarriesSays(sb: Super, s: FsState, l: set<nat>, tx: Tx)
    requires Carries(sb, s, l, tx)
    ensures |tx.bs| == |tx.cs|
  {
  }

  /** With nothing written, a crash leaves the old file system. */
  lemma {:induction false} NoWriteYet(log: Logger, sb: Super, s: FsState, s': FsState)
    requires log.Valid() && Laid(sb, log.g, s) && Encodes(sb, log.cache.disk, s)
    ensures forall j :: 0 <= j <= 0 ==>
      OldOrNew(sb, log.g, Apply(log.cache.disk, WritesSince(log.cache.trace, log.cache.trace, j)), s, s')
  {
    hide Is, Encodes, Laid, Home, Recovered, Word, Cache.Valid, Cache.Contents, Cache.Pinned;
    RecoverClean(log.g, log.cache.disk);
    HomeEncodes(sb, log.g, log.cache.disk, Recovered(log.g, log.cache.disk), s);
    assert WritesSince(log.cache.trace, log.cache.trace, 0) == [];
  }

  /** begin_op, writei, end_op for at most three blocks' worth, alone on the log.  wrote tells
      whether the write was made, ok whether it got through without a panic.  After every single
      disk write a crash recovers to a disk that holds the file system as it was or as it is now;
      both are consistent, and they differ as a flat write says.  If it returns, the disk holds the
      new one. */
  method FileChunk(fs: Fs, ip: Inode, off: word, src: seq<byte>, log: Logger, me: nat)
      returns (r: int, wrote: bool, ok: bool)
    requires fs.Settled(ip) && fs.dinodes[ip.inum] == ip.din && fs.logged == {} && |src| <= 3 * BSIZE
    requires log.Valid() && log.outstanding == 0 && log.cache.Holds(me, {}) && LOGSIZE <= log.g.size
    requires Laid(fs.sb, log.g, StateOf(fs)) && Encodes(fs.sb, log.cache.disk, StateOf(fs)) && AllStorable(fs.dinodes)
    modifies fs, ip, log, log.cache
    ensures FsInv(fs.sb, old(fs.bitmap), old(fs.dinodes), old(fs.data))
    ensures wrote ==> FsInv(fs.sb, fs.bitmap, fs.dinodes, fs.data) && fs.Settled(ip)
    ensures wrote && r != -1 ==> off <= |old(fs.ContentOf(ip))|
    ensures wrote && r != -1 ==> r == |src| && fs.ContentOf(ip) == FlatWrite(old(fs.ContentOf(ip)), off, src)
    ensures wrote && r != -1 ==> OthersKept(old(fs.dinodes), old(fs.data), fs.dinodes, fs.data, ip.inum)
    ensures wrote && r == -1 ==> StateOf(fs) == old(StateOf(fs))
    ensures ok ==> wrote && log.Valid() && log.outstanding == 0 && Encodes(fs.sb, log.cache.disk, StateOf(fs))
    ensures r == -1 <==> Refused(old(ip.din).size, off, |src|)
    ensures wrote <==>
      r == -1 || ClearBits(old(fs.bitmap)) >= FileBlocks(old(ip.din).size, |FlatWrite(old(fs.ContentOf(ip)), off, src)|)
    ensures !wrote ==> |fs.bitmap| == fs.sb.size && forall x :: 0 <= x < fs.sb.size ==> fs.bitmap[x]
    ensures wrote && !ok ==> log.cache.Crowded(me)
    ensures old(log.cache.trace) <= log.cache.trace
    ensures forall j :: 0 <= j <= |log.cache.trace| - |old(log.cache.trace)| ==>
      OldOrNew(fs.sb, log.g, Apply(old(log.cache.disk), WritesSince(old(log.cache.trace), log.cache.trace, j)),
               old(StateOf(fs)), StateOf(fs))
  {
    hide Is, Encodes, FsInv, OthersKept, FlatWrite, Confined, Apply, OldOrNew, WritesSince, Cache.Valid, Cache.Contents,
         Cache.Pinned, Cache.Holds, Logger.Valid, AllStorable, Fs.Settled, Fs.ContentOf, ClearBits, FileBlocks,
         Cache.Crowded;
    ghost var s := StateOf(fs);
    r, wrote := ChunkInMemory(fs, ip, off, src);
    ok := false;
    NoWriteYet(log, fs.sb, s, StateOf(fs));
    if !wrote { return; }
    var l := fs.logged;
    ok := CommitState(log, fs.sb, s, StateOf(fs), l, me);
  }
}
