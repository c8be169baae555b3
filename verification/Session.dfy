/** Sequences of file operations on one file system: every open file behaves as an offset into a
    plain byte sequence that all open files of its inode share. */
module Session {
  import opened Common
  import opened Blocks
  import opened FsSpec
  import opened FileSys
  import Mkfs

  // ----- plain files -----

  /** An open file: its inode and the offset its readers and writers share. */
  datatype Handle = Handle(inum: nat, readable: bool, writable: bool, off: word)

  /** The type of an inode, 0 for a free one, and how many directory entries name it. */
  datatype Kind = Kind(typ: nat, nlink: nat)

  /** Kind and bytes of every inode, and the open files. */
  datatype World = World(kinds: seq<Kind>, files: seq<seq<byte>>, handles: seq<Handle>)

  datatype Op =
    | Read(f: nat, n: word)
    | Write(f: nat, src: seq<byte>)
    | Seek(f: nat, offset: int, whence: int)
    | Open(inum: nat, readable: bool, writable: bool)
    | Create(typ: nat)   // a new inode with one link, opened for reading and writing
    | Unlink(inum: nat)  // one link less
    | Close(f: nat)

  datatype Answer =
    | Got(bytes: Option<seq<byte>>)
    | Wrote(all: bool)
    | Sought(at: Option<word>)
    | Made(inum: Option<nat>)
    | Done
    | Refused  // not an open file, no inode or link, a negative size, or no type

  predicate Sane(w: World) {
    && |w.kinds| == |w.files|
    && forall f :: 0 <= f < |w.handles| ==> InUse(w.kinds, w.handles[f].inum)
  }

  predicate InUse(kinds: seq<Kind>, i: nat) { i < |kinds| && kinds[i].typ != 0 }

  predicate Legal(kinds: seq<Kind>, hs: seq<Handle>, op: Op) {
    match op
    case Read(f, n) => f < |hs|
    case Write(f, src) => f < |hs| && |src| < U32 / 2
    case Seek(f, offset, whence) => f < |hs|
    case Open(i, r, w) => InUse(kinds, i)
    case Create(typ) => typ != 0
    case Unlink(i) => InUse(kinds, i) && kinds[i].nlink >= 1
    case Close(f) => f < |hs|
  }

  function FlatOf(w: World, f: nat): Flat
    requires Sane(w) && f < |w.handles|
  { Flat(w.files[w.handles[f].inum], w.handles[f].off) }

  function WithFlat(w: World, f: nat, x: Flat): World
    requires Sane(w) && f < |w.handles|
  { w.(files := w.files[w.handles[f].inum := x.content], handles := w.handles[f := w.handles[f].(off := x.off)]) }

  /** The first free inode, None if there is none. */
  ghost predicate FirstFree(kinds: seq<Kind>, r: Option<nat>) {
    && (r.None? ==> forall i :: 1 <= i < |kinds| ==> kinds[i].typ != 0)
    && (r.Some? ==> 1 <= r.value < |kinds| && kinds[r.value].typ == 0)
    && (r.Some? ==> forall i :: 1 <= i < r.value ==> kinds[i].typ != 0)
  }

  predicate IsOpen(hs: seq<Handle>, i: nat) { exists g :: 0 <= g < |hs| && hs[g].inum == i }

  /** What is left once nobody names inode i and, with the open files hs, nobody has it open. */
  function Put(kinds: seq<Kind>, files: seq<seq<byte>>, hs: seq<Handle>, i: nat): World
    requires i < |kinds| == |files|
  {
    if kinds[i].nlink == 0 && !IsOpen(hs, i) then World(kinds[i := kinds[i].(typ := 0)], files[i := []], hs)
    else World(kinds, files, hs)
  }

  function Without<T>(s: seq<T>, f: nat): seq<T>
    requires f < |s|
  { s[..f] + s[f + 1..] }

  /** How plain files answer. */
  ghost predicate Answers(w: World, op: Op, w': World, a: Answer)
    requires Sane(w)
  {
    if !Legal(w.kinds, w.handles, op) then w' == w && a == Refused
    else match op
    case Read(f, n) =>
      if !w.handles[f].readable then w' == w && a == Got(None)
      else var x := FlatFileRead(FlatOf(w, f), n); w' == WithFlat(w, f, x.0) && a == Got(x.1)
    case Write(f, src) =>
      if !w.handles[f].writable then w' == w && a == Wrote(false)
      else var x := FlatFileWrite(FlatOf(w, f), src); w' == WithFlat(w, f, x.0) && a == Wrote(x.1)
    case Seek(f, offset, whence) =>
      var x := FlatSeek(FlatOf(w, f), offset, whence); w' == WithFlat(w, f, x.0) && a == Sought(x.1)
    case Open(i, r, wr) => w' == w.(handles := w.handles + [Handle(i, r, wr, 0)]) && a == Done
    case Create(typ) =>
      && a.Made? && FirstFree(w.kinds, a.inum)
      && w' == if a.inum.None? then w
               else World(w.kinds[a.inum.value := Kind(typ, 1)], w.files,
                          w.handles + [Handle(a.inum.value, true, true, 0)])
    case Unlink(i) =>
      w' == Put(w.kinds[i := w.kinds[i].(nlink := w.kinds[i].nlink - 1)], w.files, w.handles, i) && a == Done
    case Close(f) =>
      w' == Put(w.kinds, w.files, Without(w.handles, f), w.handles[f].inum) && a == Done
  }

  lemma {:induction false} AnswersSane(w: World, op: Op, w': World, a: Answer)
    requires Sane(w) && Answers(w, op, w', a)
    ensures Sane(w')
  {
    if Legal(w.kinds, w.handles, op) && op.Close? {
      var hs := Without(w.handles, op.f);
      forall g | 0 <= g < |hs| ensures hs[g] == w.handles[if g < op.f then g else g + 1] {}
    }
  }

  /** Only one answer is right. */
  lemma {:induction false} AnswerUnique(w: World, op: Op, w1: World, a1: Answer, w2: World, a2: Answer)
    requires Sane(w) && Answers(w, op, w1, a1) && Answers(w, op, w2, a2)
    ensures w1 == w2 && a1 == a2
  {
  }

  // ----- room on the disk -----

  /** The blocks that the files take, their indirect blocks included. */
  ghost function Used(files: seq<seq<byte>>): nat {
    if files == [] then 0 else Used(files[..|files| - 1]) + FileBlocks(0, |files[|files| - 1]|)
  }

  lemma {:induction false} UsedUpdate(files: seq<seq<byte>>, i: nat, c: seq<byte>)
    requires i < |files|
    ensures Used(files[i := c]) + FileBlocks(0, |files[i]|) == Used(files) + FileBlocks(0, |c|)
    decreases |files|
  {
    var l := |files| - 1;
    if i < l {
      UsedUpdate(files[..l], i, c);
      assert files[i := c][..l] == files[..l][i := c];
    } else {
      assert files[i := c][..l] == files[..l];
    }
  }

  /** Plain files never take more than cap blocks while these operations are answered. */
  ghost predicate Fits(w: World, ops: seq<Op>, cap: nat)
    requires Sane(w)
    decreases |ops|
  {
    ops == [] ||
    forall w', a :: Answers(w, ops[0], w', a) && Sane(w') ==> Used(w'.files) <= cap && Fits(w', ops[1..], cap)
  }

  lemma {:induction false} FitsStep(w: World, ops: seq<Op>, cap: nat, w': World, a: Answer)
    requires Sane(w) && ops != [] && Answers(w, ops[0], w', a) && Sane(w')
    ensures Fits(w, ops, cap) <==> Used(w'.files) <= cap && Fits(w', ops[1..], cap)
  {
    hide Answers;
    forall w2, a2 | Answers(w, ops[0], w2, a2) && Sane(w2) ensures w2 == w' { AnswerUnique(w, ops[0], w', a, w2, a2); }
  }

  /** At most the blocks that the operations can take: for a write those its bytes reach, and an
      indirect block. */
  function Demand(ops: seq<Op>): nat {
    if ops == [] then 0 else (if ops[0].Write? then |ops[0].src| / BSIZE + 2 else 0) + Demand(ops[1..])
  }

  /** A write of n bytes grows a file by at most n bytes. */
  lemma {:induction false} GrowthBound(f: Flat, src: seq<byte>)
    ensures |FlatFileWrite(f, src).0.content| <= |f.content| + |src|
    decreases |src|
  {
    if src != [] {
      var k := ChunkLength(|src|);
      var (g, r) := ChunkStep(f, src[..k]);
      if r { GrowthBound(g, src[k..]); }
    }
  }

  lemma {:induction false} StepDemand(w: World, op: Op, w': World, a: Answer)
    requires Sane(w) && Answers(w, op, w', a)
    ensures Used(w'.files) <= Used(w.files) + Demand([op])
  {
    hide FlatFileWrite, Used;
    if Legal(w.kinds, w.handles, op) {
      if op.Write? {
        var i := w.handles[op.f].inum;
        var x := FlatFileWrite(FlatOf(w, op.f), op.src).0;
        UsedUpdate(w.files, i, x.content);
        GrowthBound(FlatOf(w, op.f), op.src);
        BytesReach(|w.files[i]|, |x.content|, |op.src|);
      } else if op.Unlink? {
        UsedUpdate(w.files, op.inum, []);
      } else if op.Close? {
        UsedUpdate(w.files, w.handles[op.f].inum, []);
      } else if op.Read? || op.Seek? {
        var i := w.handles[op.f].inum;
        assert w.files[i := w.files[i]] == w.files;
      }
    }
  }

  lemma {:induction false} BytesReach(size: nat, size': nat, n: nat)
    requires size' <= size + n
    ensures FileBlocks(0, size') <= FileBlocks(0, size) + n / BSIZE + 2
  {
  }

  /** Free blocks for everything the operations can take are enough. */
  lemma {:induction false} EnoughRoom(w: World, ops: seq<Op>, cap: nat)
    requires Sane(w) && Used(w.files) + Demand(ops) <= cap
    ensures Fits(w, ops, cap)
    decreases |ops|
  {
    hide Answers, Used;
    if ops != [] {
      forall w', a | Answers(w, ops[0], w', a) && Sane(w')
        ensures Used(w'.files) <= cap && Fits(w', ops[1..], cap)
      {
        StepDemand(w, ops[0], w', a);
        EnoughRoom(w', ops[1..], cap);
      }
    }
  }

  // ----- the file system -----

  /** The bytes of every inode. */
  ghost function Files(sb: Super, bm: seq<bool>, t: Table, d: Data): (files: seq<seq<byte>>)
    requires FsInv(sb, bm, t, d)
    ensures |files| == |t|
  {
    seq(|t|, i requires 0 <= i < |t| => assert NoHoles(t, d, i); Content(sb, bm, t, d, i))
  }

  ghost function Kinds(t: Table): seq<Kind> { seq(|t|, i requires 0 <= i < |t| => Kind(t[i].typ, t[i].nlink)) }

  ghost function WorldOf(fs: Fs, hs: seq<Handle>): World
    reads fs
    requires fs.Consistent()
  { World(Kinds(fs.dinodes), Files(fs.sb, fs.bitmap, fs.dinodes, fs.data), hs) }

  /** The blocks that files can take: those they have and those that are free. */
  ghost function Room(fs: Fs): nat
    reads fs
    requires fs.Consistent()
  { ClearBits(fs.bitmap) + Used(Files(fs.sb, fs.bitmap, fs.dinodes, fs.data)) }

  /** Every block is taken, and still the operation would need more than cap. */
  ghost predicate Panics(fs: Fs, w: World, op: Op, cap: nat)
    reads fs
  {
    && |fs.bitmap| == fs.sb.size && (forall x :: 0 <= x < fs.sb.size ==> fs.bitmap[x])
    && Sane(w) && exists w', a :: Answers(w, op, w', a) && Sane(w') && Used(w'.files) > cap
  }

  /** A change to inode i alone. */
  lemma {:induction false} OneFile(sb: Super, bm: seq<bool>, t: Table, d: Data, bm': seq<bool>, t': Table, d': Data,
      i: nat)
    requires FsInv(sb, bm, t, d) && FsInv(sb, bm', t', d') && i < |t| && OthersKept(t, d, t', d', i)
    ensures Files(sb, bm', t', d') == Files(sb, bm, t, d)[i := Files(sb, bm', t', d')[i]]
    ensures Kinds(t') == Kinds(t)[i := Kind(t'[i].typ, t'[i].nlink)]
  {
    forall n | 0 <= n < |t| && n != i ensures Files(sb, bm', t', d')[n] == Files(sb, bm, t, d)[n] {
      assert NoHoles(t, d, n);
      OthersContent(sb, bm, t, d, bm', t', d', i, n);
    }
  }

  /** ilock reads an inode from disk: in memory it is settled and stands for its bytes. */
  lemma {:induction false} Locked(fs: Fs, ip: Inode)
    requires fs.Consistent() && ip.inum < |fs.dinodes| && ip.din == fs.dinodes[ip.inum]
    ensures fs.Settled(ip) && fs.Tab(ip) == fs.dinodes
    ensures fs.ContentOf(ip) == Files(fs.sb, fs.bitmap, fs.dinodes, fs.data)[ip.inum]
  {
    assert fs.Tab(ip) == fs.dinodes;
    assert NoHoles(fs.dinodes, fs.data, ip.inum);
  }

  /** A settled inode equal to the one on disk leaves the file system consistent. */
  lemma {:induction false} Unlocked(fs: Fs, ip: Inode)
    requires fs.Settled(ip) && fs.dinodes[ip.inum] == ip.din && fs.FreeEmpty()
    ensures fs.Consistent() && fs.Tab(ip) == fs.dinodes
    ensures fs.ContentOf(ip) == Files(fs.sb, fs.bitmap, fs.dinodes, fs.data)[ip.inum]
  {
    assert fs.Tab(ip) == fs.dinodes;
    forall n | 0 <= n < |fs.dinodes| ensures NoHoles(fs.dinodes, fs.data, n) {}
  }

  /** fileread. */
  method DoRead(fs: Fs, hs: seq<Handle>, f: nat, n: word) returns (hs': seq<Handle>, a: Answer)
    requires fs.Consistent() && Sane(WorldOf(fs, hs)) && f < |hs|
    modifies fs
    ensures fs.Consistent() && Answers(old(WorldOf(fs, hs)), Read(f, n), WorldOf(fs, hs'), a)
    ensures Room(fs) == old(Room(fs))
  {
    hide Fs.Settled, FsInv, FlatFileRead, FlatFileWrite;
    var h := hs[f];
    var ip := new Inode(h.inum, fs.dinodes[h.inum]);
    var file := new OpenFile(fs, ip, h.readable, h.writable);
    file.off := h.off;
    Locked(fs, ip);
    ghost var t, d, bm := fs.dinodes, fs.data, fs.bitmap;
    var r := file.Read(n);
    assert fs.dinodes == t && fs.data == d && fs.bitmap == bm;
    hs' := hs[f := h.(off := file.off)];
    assert Files(fs.sb, bm, t, d)[h.inum := Files(fs.sb, bm, t, d)[h.inum]] == Files(fs.sb, bm, t, d);
    assert !h.readable ==> hs' == hs;
    a := Got(r);
  }

  /** filewrite. */
  method DoWrite(fs: Fs, hs: seq<Handle>, f: nat, src: seq<byte>) returns (hs': seq<Handle>, a: Answer, ok: bool)
    requires fs.Consistent() && Sane(WorldOf(fs, hs)) && f < |hs| && |src| < U32 / 2
    modifies fs
    ensures ok ==> fs.Consistent() && Answers(old(WorldOf(fs, hs)), Write(f, src), WorldOf(fs, hs'), a)
    ensures ok ==> Room(fs) == old(Room(fs))
    ensures !ok ==> Panics(fs, old(WorldOf(fs, hs)), Write(f, src), old(Room(fs)))
  {
    hide Fs.Settled, FsInv, FlatFileRead, FlatFileWrite, OthersKept, Took, FileBlocks, Used;
    var h := hs[f];
    var ip := new Inode(h.inum, fs.dinodes[h.inum]);
    var file := new OpenFile(fs, ip, h.readable, h.writable);
    file.off := h.off;
    Locked(fs, ip);
    ghost var t, d, bm := fs.dinodes, fs.data, fs.bitmap;
    var r;
    ghost var worst;
    ghost var w := WorldOf(fs, hs);
    ghost var x := FlatFileWrite(FlatOf(w, f), src).0;
    r, ok, worst := file.Write(src);
    hs', a := hs[f := h.(off := file.off)], Wrote(r);
    UsedUpdate(w.files, h.inum, x.content);
    NeverShorter(FlatOf(w, f), src);
    if h.writable { RoomKept(bm, fs.bitmap, |w.files[h.inum]|, |x.content|, ok); }
    if !ok {
      PlainWrite(w, f, src);
      return;
    }
    StillEmpty(t, d, fs.dinodes, fs.data, h.inum, fs.Tab(ip), ip);
    Unlocked(fs, ip);
    OneFile(fs.sb, bm, t, d, fs.bitmap, fs.dinodes, fs.data, h.inum);
    assert Kinds(t)[h.inum := Kind(t[h.inum].typ, t[h.inum].nlink)] == Kinds(t);
    assert !h.writable ==> hs' == hs;
  }

  /** What a file takes beyond what it had is what was taken. */
  lemma {:induction false} RoomKept(bm: seq<bool>, bm': seq<bool>, size: nat, size': nat, ok: bool)
    requires size <= size' && Took(bm, bm', FileBlocks(size, size'), ok)
    ensures ok ==> ClearBits(bm') + FileBlocks(0, size') == ClearBits(bm) + FileBlocks(0, size)
    ensures !ok ==> ClearBits(bm) + FileBlocks(0, size) < FileBlocks(0, size')
  {
    assert BlocksFor(size) <= BlocksFor(size');
  }

  lemma {:induction false} PlainWrite(w: World, f: nat, src: seq<byte>)
    requires Sane(w) && f < |w.handles| && |src| < U32 / 2 && w.handles[f].writable
    ensures var x := FlatFileWrite(FlatOf(w, f), src);
      Answers(w, Write(f, src), WithFlat(w, f, x.0), Wrote(x.1)) && Sane(WithFlat(w, f, x.0))
  {
    hide FlatFileWrite;
  }

  lemma {:induction false} StillEmpty(t: Table, d: Data, t': Table, d': Data, i: nat, tab: Table, ip: Inode)
    requires OthersKept(t, d, tab, d', i) && i < |t'| && tab == t'[i := ip.din] && t'[i] == ip.din && i < |t|
      && t[i].typ != 0
    requires ip.din.typ == t[i].typ && forall n :: 0 <= n < |t| && t[n].typ == 0 ==> t[n].size == 0
    ensures tab == t' && forall n :: 0 <= n < |t'| && t'[n].typ == 0 ==> t'[n].size == 0
  {
    assert tab == t';
  }

  /** sys_lseek. */
  method DoSeek(fs: Fs, hs: seq<Handle>, f: nat, offset: int, whence: int) returns (hs': seq<Handle>, a: Answer)
    requires fs.Consistent() && Sane(WorldOf(fs, hs)) && f < |hs|
    ensures Answers(WorldOf(fs, hs), Seek(f, offset, whence), WorldOf(fs, hs'), a)
  {
    hide Fs.Settled, FsInv, FlatFileRead, FlatFileWrite, Files, Kinds;
    var h := hs[f];
    var ip := new Inode(h.inum, fs.dinodes[h.inum]);
    var file := new OpenFile(fs, ip, h.readable, h.writable);
    file.off := h.off;
    Locked(fs, ip);
    var r := file.Lseek(offset, whence);
    hs', a := hs[f := h.(off := file.off)], Sought(r);
    ghost var w := WorldOf(fs, hs);
    assert w.files[h.inum := w.files[h.inum]] == w.files;
  }

  lemma {:induction false} EmptyFile(sb: Super, bm: seq<bool>, t: Table, d: Data, i: nat)
    requires FsInv(sb, bm, t, d) && i < |t| && t[i].size == 0
    ensures Files(sb, bm, t, d)[i] == []
  {
    assert NoHoles(t, d, i);
  }

  /** sys_open of an existing inode. */
  method DoOpen(fs: Fs, hs: seq<Handle>, i: nat, r: bool, w: bool) returns (hs': seq<Handle>, a: Answer)
    requires fs.Consistent() && Sane(WorldOf(fs, hs)) && i < |fs.dinodes| && fs.dinodes[i].typ != 0
    ensures Answers(WorldOf(fs, hs), Open(i, r, w), WorldOf(fs, hs'), a)
  {
    hide FsInv, Files;
    hs', a := hs + [Handle(i, r, w, 0)], Done;
  }

  /** The link count set and written through: bytes and other inodes are as before. */
  method SetLinks(fs: Fs, ip: Inode, n: nat)
    requires fs.Consistent() && ip.inum < |fs.dinodes| && fs.dinodes[ip.inum] == ip.din
    modifies fs, ip
    ensures ip.din == old(ip.din).(nlink := n) && fs.dinodes == old(fs.dinodes)[ip.inum := ip.din]
    ensures fs.bitmap == old(fs.bitmap) && fs.data == old(fs.data) && fs.Consistent()
    ensures Files(fs.sb, fs.bitmap, fs.dinodes, fs.data) == old(Files(fs.sb, fs.bitmap, fs.dinodes, fs.data))
    ensures Kinds(fs.dinodes) == old(Kinds(fs.dinodes))[ip.inum := Kind(ip.din.typ, n)]
  {
    hide FsInv, Files, OthersKept;
    ghost var t := fs.dinodes;
    Relinked(fs.sb, fs.bitmap, t, fs.data, ip.inum, n);
    ip.din := ip.din.(nlink := n);
    fs.Iupdate(ip);
  }

  lemma {:induction false} Relinked(sb: Super, bm: seq<bool>, t: Table, d: Data, i: nat, n: nat)
    requires FsInv(sb, bm, t, d) && i < |t|
    ensures var t' := t[i := t[i].(nlink := n)];
      && FsInv(sb, bm, t', d) && Files(sb, bm, t', d) == Files(sb, bm, t, d)
      && Kinds(t') == Kinds(t)[i := Kind(t[i].typ, n)]
  {
    var t' := t[i := t[i].(nlink := n)];
    Relabel(sb, bm, t, d, i, t'[i]);
    OneFile(sb, bm, t, d, bm, t', d, i);
    SameBytes(sb, bm, t, d, i, t'[i]);
    assert Files(sb, bm, t', d)[i] == Files(sb, bm, t, d)[i];
  }

  lemma {:induction false} SameBytes(sb: Super, bm: seq<bool>, t: Table, d: Data, i: nat, x: Dinode)
    requires i < |t| && FsInv(sb, bm, t, d) && FsInv(sb, bm, t[i := x], d)
    requires x.size == t[i].size && x.addrs == t[i].addrs
    ensures Files(sb, bm, t[i := x], d)[i] == Files(sb, bm, t, d)[i]
  {
    hide Owned, FsInv;
  }

  /** create, as far as the inode goes. */
  method DoCreate(fs: Fs, hs: seq<Handle>, typ: nat) returns (hs': seq<Handle>, a: Answer)
    requires fs.Consistent() && Sane(WorldOf(fs, hs)) && typ != 0
    modifies fs
    ensures fs.Consistent() && Answers(old(WorldOf(fs, hs)), Create(typ), WorldOf(fs, hs'), a)
    ensures Room(fs) == old(Room(fs))
  {
    hide FsInv, FlatFileRead, FlatFileWrite, OthersKept, Files;
    ghost var t, w := fs.dinodes, WorldOf(fs, hs);
    var r := fs.Ialloc(typ);
    hs', a := hs, Made(r);
    if r.Some? {
      var i := r.value;
      hs' := hs + [Handle(i, true, true, 0)];
      EmptyFile(fs.sb, fs.bitmap, t, fs.data, i);
      EmptyFile(fs.sb, fs.bitmap, fs.dinodes, fs.data, i);
      OneFile(fs.sb, fs.bitmap, t, fs.data, fs.bitmap, fs.dinodes, fs.data, i);
      assert w.files[i := w.files[i]] == w.files;
      var ip := new Inode(i, fs.dinodes[i]);
      SetLinks(fs, ip, 1);
    }
    assert FirstFree(w.kinds, r);
  }

  /** iput: with the open files hs, free inode ip if nothing names it and nobody has it open. */
  method DoPut(fs: Fs, hs: seq<Handle>, ip: Inode) returns (ok: bool)
    requires fs.Consistent() && ip.inum < |fs.dinodes| && fs.dinodes[ip.inum] == ip.din
    modifies fs, ip
    ensures ok && fs.Consistent()
    ensures WorldOf(fs, hs) ==
      Put(old(WorldOf(fs, hs).kinds), old(WorldOf(fs, hs).files), hs, ip.inum)
    ensures Room(fs) == old(Room(fs))
  {
    hide FsInv, OthersKept, Files, ClearedUpTo, Used, FileBlocks;
    ok := true;
    if ip.din.nlink == 0 && !IsOpen(hs, ip.inum) {
      ghost var t, bm := fs.dinodes, fs.bitmap;
      ghost var files := Files(fs.sb, bm, t, fs.data);
      UsedUpdate(files, ip.inum, []);
      SizeOf(fs.sb, bm, t, fs.data, ip.inum);
      ok := fs.FreeInode(ip);
      EmptyFile(fs.sb, fs.bitmap, fs.dinodes, fs.data, ip.inum);
      OneFile(fs.sb, bm, t, fs.data, fs.bitmap, fs.dinodes, fs.data, ip.inum);
    }
  }

  lemma {:induction false} SizeOf(sb: Super, bm: seq<bool>, t: Table, d: Data, i: nat)
    requires FsInv(sb, bm, t, d) && i < |t|
    ensures |Files(sb, bm, t, d)[i]| == t[i].size && FileBlocks(0, 0) == 0
  {
    assert NoHoles(t, d, i);
  }

  /** The end of sys_unlink: one link less, and iput. */
  method DoUnlink(fs: Fs, hs: seq<Handle>, i: nat) returns (a: Answer, ok: bool)
    requires fs.Consistent() && Sane(WorldOf(fs, hs)) && Legal(Kinds(fs.dinodes), hs, Unlink(i))
    modifies fs
    ensures ok && fs.Consistent() && Answers(old(WorldOf(fs, hs)), Unlink(i), WorldOf(fs, hs), a)
    ensures Room(fs) == old(Room(fs))
  {
    hide FsInv, Files, Put;
    var ip := new Inode(i, fs.dinodes[i]);
    SetLinks(fs, ip, ip.din.nlink - 1);
    ok := DoPut(fs, hs, ip);
    a := Done;
  }

  /** fileclose. */
  method DoClose(fs: Fs, hs: seq<Handle>, f: nat) returns (hs': seq<Handle>, a: Answer, ok: bool)
    requires fs.Consistent() && Sane(WorldOf(fs, hs)) && f < |hs|
    modifies fs
    ensures ok && fs.Consistent() && Answers(old(WorldOf(fs, hs)), Close(f), WorldOf(fs, hs'), a)
    ensures Room(fs) == old(Room(fs))
  {
    hide FsInv, Files, Put;
    hs', a := hs[..f] + hs[f + 1..], Done;
    var ip := new Inode(hs[f].inum, fs.dinodes[hs[f].inum]);
    ok := DoPut(fs, hs', ip);
  }

  /** One operation, whatever it is; ok is false for a panic. */
  method Do(fs: Fs, hs: seq<Handle>, op: Op) returns (hs': seq<Handle>, a: Answer, ok: bool)
    requires fs.Consistent() && Sane(WorldOf(fs, hs))
    modifies fs
    ensures ok ==> fs.Consistent() && Answers(old(WorldOf(fs, hs)), op, WorldOf(fs, hs'), a) && Sane(WorldOf(fs, hs'))
    ensures ok ==> Room(fs) == old(Room(fs))
    ensures !ok ==> Panics(fs, old(WorldOf(fs, hs)), op, old(Room(fs)))
  {
    hide FsInv, Answers, Files, Used, Panics;
    hs', a, ok := hs, Refused, true;
    ghost var w := WorldOf(fs, hs);
    var legal := match op
      case Read(f, n) => f < |hs|
      case Write(f, src) => f < |hs| && |src| < U32 / 2
      case Seek(f, offset, whence) => f < |hs|
      case Open(i, r, wr) => i < |fs.dinodes| && fs.dinodes[i].typ != 0
      case Create(typ) => typ != 0
      case Unlink(i) => i < |fs.dinodes| && fs.dinodes[i].typ != 0 && fs.dinodes[i].nlink >= 1
      case Close(f) => f < |hs|;
    if !legal {
      RefusedAnswer(w, op);
      return;
    }
    match op {
      case Read(f, n) => hs', a := DoRead(fs, hs, f, n);
      case Write(f, src) => hs', a, ok := DoWrite(fs, hs, f, src);
      case Seek(f, offset, whence) => hs', a := DoSeek(fs, hs, f, offset, whence);
      case Open(i, r, wr) => hs', a := DoOpen(fs, hs, i, r, wr);
      case Create(typ) => hs', a := DoCreate(fs, hs, typ);
      case Unlink(i) => a, ok := DoUnlink(fs, hs, i);
      case Close(f) => hs', a, ok := DoClose(fs, hs, f);
    }
    if ok { AnswersSane(w, op, WorldOf(fs, hs'), a); }
  }

  lemma {:induction false} RefusedAnswer(w: World, op: Op)
    requires Sane(w) && !Legal(w.kinds, w.handles, op)
    ensures Answers(w, op, w, Refused)
  {
  }

  /** The worlds a sequence of operations goes through, each answered as plain files answer. */
  ghost predicate Plain(ws: seq<World>, ops: seq<Op>, answers: seq<Answer>, k: nat) {
    && k <= |ops| && k <= |answers| && k < |ws|
    && (forall i :: 0 <= i <= k ==> Sane(ws[i]))
    && forall i :: 0 <= i < k ==> Answers(ws[i], ops[i], ws[i + 1], answers[i])
  }

  lemma {:induction false} PlainSnoc(ws: seq<World>, ops: seq<Op>, answers: seq<Answer>, k: nat, w: World, a: Answer)
    requires Plain(ws, ops, answers, k) && |ws| == k + 1 && |answers| == k && k < |ops|
    requires Sane(w) && Answers(ws[k], ops[k], w, a)
    ensures Plain(ws + [w], ops, answers + [a], k + 1)
  {
  }

  /** Any sequence of operations on a consistent file system: every answer is that of plain files,
      the bytes of all inodes end as theirs, and the file system stays consistent.  It goes through
      exactly if plain files would never take more blocks than they have now and are free. */
  method Run(fs: Fs, hs: seq<Handle>, ops: seq<Op>)
      returns (hs': seq<Handle>, answers: seq<Answer>, ok: bool, ghost ws: seq<World>)
    requires fs.Consistent() && Sane(WorldOf(fs, hs))
    modifies fs
    ensures ok ==> fs.Consistent() && Plain(ws, ops, answers, |ops|)
    ensures ok ==> ws[0] == old(WorldOf(fs, hs)) && ws[|ops|] == WorldOf(fs, hs')
    ensures ok ==> Room(fs) == old(Room(fs))
    ensures ok <==> Fits(old(WorldOf(fs, hs)), ops, old(Room(fs)))
    ensures ClearBits(old(fs.bitmap)) >= Demand(ops) ==> ok
    ensures !ok ==> |fs.bitmap| == fs.sb.size && forall x :: 0 <= x < fs.sb.size ==> fs.bitmap[x]
  {
    hide FsInv, Answers, Files, Kinds, Plain, Sane, Fs.Consistent, Fits, Used, Room, Panics;
    hs', answers, ok, ws := hs, [], true, [WorldOf(fs, hs)];
    PlainStart(ws[0], ops);
    ghost var cap := Room(fs);
    DemandFits(fs, hs, ops);
    assert ops[0..] == ops;
    var i := 0;
    while i < |ops|
      invariant 0 <= i <= |ops| && ok && fs.Consistent() && |ws| == i + 1 && |answers| == i
        && Plain(ws, ops, answers, i)
      invariant Sane(WorldOf(fs, hs')) && ws[i] == WorldOf(fs, hs') && ws[0] == old(WorldOf(fs, hs))
      invariant Room(fs) == cap && (Fits(ws[0], ops, cap) <==> Fits(ws[i], ops[i..], cap))
    {
      var a;
      assert ops[i..][0] == ops[i] && ops[i..][1..] == ops[i + 1..];
      hs', a, ok := Do(fs, hs', ops[i]);
      if !ok {
        NoFit(fs, ws[i], ops[i..], cap);
        return;
      }
      FitsStep(ws[i], ops[i..], cap, WorldOf(fs, hs'), a);
      RoomFits(fs, hs');
      PlainSnoc(ws, ops, answers, i, WorldOf(fs, hs'), a);
      ws, answers := ws + [WorldOf(fs, hs')], answers + [a];
      i := i + 1;
    }
    NothingMore(ws[i], ops[i..], cap);
  }

  lemma {:induction false} DemandFits(fs: Fs, hs: seq<Handle>, ops: seq<Op>)
    requires fs.Consistent() && Sane(WorldOf(fs, hs))
    ensures ClearBits(fs.bitmap) >= Demand(ops) ==> Fits(WorldOf(fs, hs), ops, Room(fs))
  {
    hide FsInv, Files, Used, ClearBits, Fits;
    if ClearBits(fs.bitmap) >= Demand(ops) { EnoughRoom(WorldOf(fs, hs), ops, Room(fs)); }
  }

  lemma {:induction false} NoFit(fs: Fs, w: World, ops: seq<Op>, cap: nat)
    requires ops != [] && Panics(fs, w, ops[0], cap)
    ensures |fs.bitmap| == fs.sb.size && (forall x :: 0 <= x < fs.sb.size ==> fs.bitmap[x]) && !Fits(w, ops, cap)
  {
    hide Answers, Used, Sane;
    var w', a :| Answers(w, ops[0], w', a) && Sane(w') && Used(w'.files) > cap;
    FitsStep(w, ops, cap, w', a);
  }

  lemma {:induction false} RoomFits(fs: Fs, hs: seq<Handle>)
    requires fs.Consistent()
    ensures Used(WorldOf(fs, hs).files) <= Room(fs)
  {
    hide FsInv, Files, Used, ClearBits;
  }

  lemma {:induction false} NothingMore(w: World, ops: seq<Op>, cap: nat)
    requires Sane(w) && ops == []
    ensures Fits(w, ops, cap)
  {
  }

  lemma {:induction false} PlainStart(w: World, ops: seq<Op>)
    requires Sane(w)
    ensures Plain([w], ops, [], 0)
  {
  }

  /** From the image mkfs finishes on: the files start as mkfs left them, the root directory padded
      with zeros, and answer as plain files do ever after. */
  method MkfsAndRun(img: Mkfs.Image, ops: seq<Op>)
      returns (fs: Fs, hs: seq<Handle>, answers: seq<Answer>, ok: bool, ghost ws: seq<World>)
    requires img.Valid() && Mkfs.ROOTINO < |img.dinodes| && img.dinodes[Mkfs.ROOTINO].typ != 0
    requires forall b :: 0 <= b < |img.bitmap| ==> !img.bitmap[b]
    requires img.dinodes[Mkfs.ROOTINO].size % BSIZE != 0
    modifies img
    ensures ok ==> fs.Consistent() && Plain(ws, ops, answers, |ops|) && ws[|ops|] == WorldOf(fs, hs)
    ensures ok ==> |ws[0].files| == |old(img.dinodes)| && ws[0].kinds == Kinds(old(img.dinodes)) && ws[0].handles == []
    ensures ok ==> forall n :: 0 <= n < |ws[0].files| ==>
      ws[0].files[n] == if n == Mkfs.ROOTINO then Mkfs.Pad(old(img.ContentOf(n))) else old(img.ContentOf(n))
    ensures img.freeblock < BPB && img.freeblock + Demand(ops) <= img.sb.size ==> ok
    ensures !ok ==> img.freeblock >= BPB || (|fs.bitmap| == img.sb.size && forall x :: 0 <= x < img.sb.size ==>
      fs.bitmap[x])
  {
    hide FsInv, Answers, Plain, Mkfs.Pad, Demand, Fits;
    ok := img.Finish();
    fs := new Fs(img.sb, img.bitmap, img.dinodes, img.data);
    hs, answers, ws := [], [], [];
    if !ok { return; }
    assert Kinds(fs.dinodes) == Kinds(old(img.dinodes));
    Mkfs.FirstUsedClear(img.sb.size, img.freeblock);
    hs, answers, ok, ws := Run(fs, [], ops);
  }
}
