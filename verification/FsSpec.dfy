/** The on-disk shape of files (fs.h): which blocks an inode refers to, who owns which block,
    and the byte sequence a file stands for. */
module FsSpec {
  import opened Common
  import opened Blocks

  const NDIRECT: nat := 12
  const NINDIRECT: nat := 128
  const MAXFILE: nat := 140
  /** Largest file, in bytes. */
  const MAXBYTES: nat := 71680
  /** Bits of the bitmap, and inodes, per block. */
  const BPB: nat := 4096
  const IPB: nat := 8

  type Addrs = s: seq<nat> | |s| == 13 witness seq(13, _ => 0)

  datatype Dinode = Dinode(typ: nat, major: nat, minor: nat, nlink: nat, size: nat, addrs: Addrs)

  type Table = seq<Dinode>
  type Data = seq<Block>

  /** Blocks below nmeta are boot, super, log, inode and bitmap blocks. */
  datatype Super = Super(size: nat, nmeta: nat, inodestart: nat, bmapstart: nat)

  /** The places where inode n can refer to a block. */
  datatype Slot = Direct(n: nat, i: nat) | Indirect(n: nat) | Entry(n: nat, j: nat)

  predicate IsSlot(t: Table, s: Slot) {
    s.n < |t| && (s.Direct? ==> s.i < NDIRECT) && (s.Entry? ==> s.j < NINDIRECT)
  }

  /** The block a slot refers to; 0 for none. */
  function Ref(t: Table, d: Data, s: Slot): nat
    requires IsSlot(t, s)
  {
    match s
    case Direct(n, i) => t[n].addrs[i]
    case Indirect(n) => t[n].addrs[NDIRECT]
    case Entry(n, j) => var a := t[n].addrs[NDIRECT]; if a == 0 || a >= |d| then 0 else Word(d[a], j)
  }

  /** The slot for block k of file n. */
  function FileSlot(n: nat, k: nat): Slot { if k < NDIRECT then Direct(n, k) else Entry(n, k - NDIRECT) }

  function BlockOf(t: Table, d: Data, n: nat, k: nat): nat
    requires n < |t| && k < MAXFILE
  { Ref(t, d, FileSlot(n, k)) }

  ghost predicate RefersTo(t: Table, d: Data, s: Slot, b: nat) { IsSlot(t, s) && Ref(t, d, s) == b }

  /** Every block referred to is an allocated data block. */
  ghost predicate RefOk(sb: Super, bm: seq<bool>, t: Table, d: Data, s: Slot) {
    IsSlot(t, s) && Ref(t, d, s) != 0 ==> sb.nmeta <= Ref(t, d, s) < |bm| && bm[Ref(t, d, s)]
  }

  /** Two slots never share a block. */
  ghost predicate Unshared(t: Table, d: Data, s: Slot, u: Slot) {
    IsSlot(t, s) && IsSlot(t, u) && Ref(t, d, s) == Ref(t, d, u) && Ref(t, d, s) != 0 ==> s == u
  }

  ghost predicate Accounted(sb: Super, bm: seq<bool>, t: Table, d: Data, b: nat) {
    b < |bm| ==> (bm[b] <==> b < sb.nmeta || exists s :: RefersTo(t, d, s, b))
  }

  /** A bitmap bit is set exactly when its block is metadata or has one owner. */
  ghost predicate Owned(sb: Super, bm: seq<bool>, t: Table, d: Data) {
    && |bm| == |d| == sb.size && 1 <= sb.nmeta <= sb.size < U32
    && (forall s {:trigger RefOk(sb, bm, t, d, s)} :: RefOk(sb, bm, t, d, s))
    && (forall s, u {:trigger Unshared(t, d, s, u)} :: Unshared(t, d, s, u))
    && (forall b {:trigger Accounted(sb, bm, t, d, b)} :: Accounted(sb, bm, t, d, b))
  }

  /** Exactly the first m blocks of file n are mapped. */
  ghost predicate Mapped(t: Table, d: Data, n: nat, m: nat) {
    FirstMapped(t, d, n, m) && (t[n].addrs[NDIRECT] != 0 <==> m > NDIRECT)
  }

  ghost predicate FirstMapped(t: Table, d: Data, n: nat, m: nat) {
    && n < |t| && m <= MAXFILE
    && forall k {:trigger BlockOf(t, d, n, k)} :: 0 <= k < MAXFILE ==> (BlockOf(t, d, n, k) != 0 <==> k < m)
  }

  function BlocksFor(size: nat): nat { (size + BSIZE - 1) / BSIZE }

  /** No holes: the blocks mapped are those the size calls for. */
  ghost predicate NoHoles(t: Table, d: Data, n: nat) {
    n < |t| && t[n].size <= MAXBYTES && Mapped(t, d, n, BlocksFor(t[n].size))
  }

  ghost predicate FsInv(sb: Super, bm: seq<bool>, t: Table, d: Data) {
    Owned(sb, bm, t, d) && forall n :: 0 <= n < |t| ==> NoHoles(t, d, n)
  }

  // ----- changing one reference -----

  /** The references of (t', d') are those of (t, d) except that slot s0 refers to b. */
  ghost predicate OneChange(t: Table, d: Data, t': Table, d': Data, s0: Slot, b: nat) {
    && |t'| == |t|
    && forall s {:trigger IsSlot(t, s)} :: IsSlot(t, s) ==> Ref(t', d', s) == if s == s0 then b else Ref(t, d, s)
  }

  /** Giving a free block to an empty slot keeps ownership. */
  lemma {:induction false} OwnedAdd(sb: Super, bm: seq<bool>, t: Table, d: Data, t': Table, d': Data, s0: Slot, b: nat)
    requires Owned(sb, bm, t, d) && |d'| == |d| && IsSlot(t, s0) && Ref(t, d, s0) == 0
    requires b < |bm| && !bm[b] && OneChange(t, d, t', d', s0, b)
    ensures Owned(sb, bm[b := true], t', d') && sb.nmeta <= b
  {
    var bm' := bm[b := true];
    assert Accounted(sb, bm, t, d, b);
    forall s ensures RefOk(sb, bm', t', d', s) { assert RefOk(sb, bm, t, d, s) && (IsSlot(t', s) <==> IsSlot(t, s)); }
    forall s, u ensures Unshared(t', d', s, u) {
      assert (IsSlot(t', s) <==> IsSlot(t, s)) && (IsSlot(t', u) <==> IsSlot(t, u));
      assert Unshared(t, d, s, u) && RefOk(sb, bm, t, d, s) && RefOk(sb, bm, t, d, u);
    }
    forall x ensures Accounted(sb, bm', t', d', x) {
      assert Accounted(sb, bm, t, d, x);
      if x == b {
        assert RefersTo(t', d', s0, b);
      } else {
        if s :| RefersTo(t, d, s, x) {
          if x != 0 { assert RefersTo(t', d', s, x); }
        }
        if s :| RefersTo(t', d', s, x) {
          assert IsSlot(t, s);
          if x != 0 { assert RefersTo(t, d, s, x); }
        }
      }
    }
  }

  /** No slot refers to a free block. */
  lemma {:induction false} FreeUnreferenced(sb: Super, bm: seq<bool>, t: Table, d: Data, b: nat, s: Slot)
    requires Owned(sb, bm, t, d) && b < |bm| && !bm[b] && IsSlot(t, s)
    ensures Ref(t, d, s) != b
  {
    assert RefOk(sb, bm, t, d, s) && Accounted(sb, bm, t, d, 0);
  }

  function WithAddr(t: Table, n: nat, i: nat, b: nat): Table
    requires n < |t| && i <= NDIRECT
  { t[n := t[n].(addrs := t[n].addrs[i := b])] }

  lemma {:induction false} SetDirect(sb: Super, bm: seq<bool>, t: Table, d: Data, n: nat, i: nat, b: nat)
    requires Owned(sb, bm, t, d) && n < |t| && i < NDIRECT && b < |bm| && !bm[b]
    ensures OneChange(t, d, WithAddr(t, n, i, b), d[b := Zero()], Direct(n, i), b)
  {
    forall s | IsSlot(t, s)
      ensures Ref(WithAddr(t, n, i, b), d[b := Zero()], s) == if s == Direct(n, i) then b
        else Ref(t, d, s)
    {
      if s.Entry? { FreeUnreferenced(sb, bm, t, d, b, Indirect(s.n)); }
    }
  }

  lemma {:induction false} SetIndirect(sb: Super, bm: seq<bool>, t: Table, d: Data, n: nat, b: nat)
    requires Owned(sb, bm, t, d) && n < |t| && t[n].addrs[NDIRECT] == 0 && b < |bm| && !bm[b]
    ensures OneChange(t, d, WithAddr(t, n, NDIRECT, b), d[b := Zero()], Indirect(n), b)
  {
    forall s | IsSlot(t, s)
      ensures Ref(WithAddr(t, n, NDIRECT, b), d[b := Zero()], s) == if s == Indirect(n) then b
        else Ref(t, d, s)
    {
      if s.Entry? {
        FreeUnreferenced(sb, bm, t, d, b, Indirect(s.n));
        ZeroWords(s.j);
      }
    }
  }

  lemma {:induction false} SetEntry(sb: Super, bm: seq<bool>, t: Table, d: Data, n: nat, j: nat, b: nat)
    requires Owned(sb, bm, t, d) && n < |t| && j < NINDIRECT && b < |bm| && !bm[b]
    requires 0 < t[n].addrs[NDIRECT] < |d|
    ensures b < U32 && var a := t[n].addrs[NDIRECT];
      a != b && OneChange(t, d, t, d[b := Zero()][a := SetWord(d[a], j, b)], Entry(n, j), b)
  {
    var a := t[n].addrs[NDIRECT];
    FreeUnreferenced(sb, bm, t, d, b, Indirect(n));
    forall s | IsSlot(t, s)
      ensures Ref(t, d[b := Zero()][a := SetWord(d[a], j, b)], s) == if s == Entry(n, j) then b
        else Ref(t, d, s)
    {
      if s.Entry? {
        FreeUnreferenced(sb, bm, t, d, b, Indirect(s.n));
        if s.n == n {
          SetWordReads(d[a], j, b, s.j);
        } else {
          assert Unshared(t, d, Indirect(n), Indirect(s.n));
        }
      }
    }
  }

  /** Writing a file's data block changes no reference. */
  lemma {:induction false} WriteKeepsRefs(sb: Super, bm: seq<bool>, t: Table, d: Data, n: nat, k: nat, x: Block)
    requires Owned(sb, bm, t, d) && n < |t| && k < MAXFILE && 0 < BlockOf(t, d, n, k) < |d|
    ensures forall s :: IsSlot(t, s) ==> Ref(t, d[BlockOf(t, d, n, k) := x], s) == Ref(t, d, s)
  {
    var b := BlockOf(t, d, n, k);
    forall s | IsSlot(t, s) ensures Ref(t, d[b := x], s) == Ref(t, d, s) {
      if s.Entry? { assert Unshared(t, d, Indirect(s.n), FileSlot(n, k)); }
    }
  }

  // ----- what a change leaves alone -----

  /** Every mapped file block keeps its place and its contents. */
  ghost predicate KeptBlock(t: Table, d: Data, t': Table, d': Data, n: nat, k: nat) {
    n < |t| && n < |t'| && k < MAXFILE && BlockOf(t, d, n, k) != 0 ==>
      && BlockOf(t', d', n, k) == BlockOf(t, d, n, k)
      && (BlockOf(t, d, n, k) < |d| && BlockOf(t, d, n, k) < |d'| ==> d'[BlockOf(t, d, n, k)] == d[BlockOf(t, d, n, k)])
  }

  ghost predicate Kept(t: Table, d: Data, t': Table, d': Data) {
    && |t'| == |t| && |d'| == |d|
    && forall n, k {:trigger KeptBlock(t, d, t', d', n, k)} :: KeptBlock(t, d, t', d', n, k)
  }

  /** Inodes other than n are untouched, and so are the references of their files. */
  ghost predicate OthersSame(t: Table, d: Data, t': Table, d': Data, n: nat) {
    && |t'| == |t|
    && (forall i :: 0 <= i < |t| && i != n ==> t'[i] == t[i])
    && (forall i, k {:trigger BlockOf(t', d', i, k)} :: 0 <= i < |t| && i != n && 0 <= k < MAXFILE ==>
      BlockOf(t', d', i, k) == BlockOf(t, d, i, k))
  }

  lemma {:induction false} KeptTrans(t: Table, d: Data, t1: Table, d1: Data, t2: Table, d2: Data, n: nat)
    requires Kept(t, d, t1, d1) && Kept(t1, d1, t2, d2)
    ensures Kept(t, d, t2, d2)
    ensures OthersSame(t, d, t1, d1, n) && OthersSame(t1, d1, t2, d2, n) ==> OthersSame(t, d, t2, d2, n)
  {
    forall i, k ensures KeptBlock(t, d, t2, d2, i, k) {
      assert KeptBlock(t, d, t1, d1, i, k) && KeptBlock(t1, d1, t2, d2, i, k);
    }
    if OthersSame(t, d, t1, d1, n) && OthersSame(t1, d1, t2, d2, n) {
      forall i, k | 0 <= i < |t| && i != n && 0 <= k < MAXFILE ensures BlockOf(t2, d2, i, k) == BlockOf(t, d, i, k) {
        assert BlockOf(t1, d1, i, k) == BlockOf(t, d, i, k);
      }
    }
  }

  /** The one thing a step changes besides slot s0 of inode s0.n. */
  lemma {:induction false} OneChangeOthers(t: Table, d: Data, t': Table, d': Data, s0: Slot, b: nat)
    requires OneChange(t, d, t', d', s0, b) && forall i :: 0 <= i < |t| && i != s0.n ==> t'[i] == t[i]
    ensures OthersSame(t, d, t', d', s0.n)
  {
    forall i, k | 0 <= i < |t| && i != s0.n && 0 <= k < MAXFILE ensures BlockOf(t', d', i, k) == BlockOf(t, d, i, k) {
      assert IsSlot(t, FileSlot(i, k));
    }
  }

  lemma {:induction false} DirectKeeps(sb: Super, bm: seq<bool>, t: Table, d: Data, n: nat, i: nat, b: nat)
    requires Owned(sb, bm, t, d) && n < |t| && i < NDIRECT && b < |bm| && !bm[b] && t[n].addrs[i] == 0
    ensures var t', d' := WithAddr(t, n, i, b), d[b := Zero()];
      && Owned(sb, bm[b := true], t', d') && Kept(t, d, t', d') && OthersSame(t, d, t', d', n)
      && OneChange(t, d, t', d', Direct(n, i), b)
  {
    var t', d' := WithAddr(t, n, i, b), d[b := Zero()];
    SetDirect(sb, bm, t, d, n, i, b);
    OwnedAdd(sb, bm, t, d, t', d', Direct(n, i), b);
    OneChangeOthers(t, d, t', d', Direct(n, i), b);
    forall m: nat, k: nat ensures KeptBlock(t, d, t', d', m, k) {
      if m < |t| && k < MAXFILE { FreeUnreferenced(sb, bm, t, d, b, FileSlot(m, k)); assert IsSlot(t, FileSlot(m, k)); }
    }
  }

  lemma {:induction false} IndirectKeeps(sb: Super, bm: seq<bool>, t: Table, d: Data, n: nat, b: nat)
    requires Owned(sb, bm, t, d) && n < |t| && b < |bm| && !bm[b] && t[n].addrs[NDIRECT] == 0
    ensures var t', d' := WithAddr(t, n, NDIRECT, b), d[b := Zero()];
      && Owned(sb, bm[b := true], t', d') && Kept(t, d, t', d') && OthersSame(t, d, t', d', n)
      && OneChange(t, d, t', d', Indirect(n), b)
  {
    var t', d' := WithAddr(t, n, NDIRECT, b), d[b := Zero()];
    SetIndirect(sb, bm, t, d, n, b);
    OwnedAdd(sb, bm, t, d, t', d', Indirect(n), b);
    OneChangeOthers(t, d, t', d', Indirect(n), b);
    forall m: nat, k: nat ensures KeptBlock(t, d, t', d', m, k) {
      if m < |t| && k < MAXFILE { FreeUnreferenced(sb, bm, t, d, b, FileSlot(m, k)); assert IsSlot(t, FileSlot(m, k)); }
    }
  }

  lemma {:induction false} EntryKeeps(sb: Super, bm: seq<bool>, t: Table, d: Data, n: nat, j: nat, b: nat)
    requires Owned(sb, bm, t, d) && n < |t| && j < NINDIRECT && b < |bm| && !bm[b]
    requires 0 < t[n].addrs[NDIRECT] < |d| && Ref(t, d, Entry(n, j)) == 0
    ensures b < U32 && var a := t[n].addrs[NDIRECT]; a != b && var d' := d[b := Zero()][a := SetWord(d[a], j, b)];
      && Owned(sb, bm[b := true], t, d') && Kept(t, d, t, d') && OthersSame(t, d, t, d', n)
      && OneChange(t, d, t, d', Entry(n, j), b)
  {
    var a := t[n].addrs[NDIRECT];
    SetEntry(sb, bm, t, d, n, j, b);
    var d' := d[b := Zero()][a := SetWord(d[a], j, b)];
    OwnedAdd(sb, bm, t, d, t, d', Entry(n, j), b);
    OneChangeOthers(t, d, t, d', Entry(n, j), b);
    forall m: nat, k: nat ensures KeptBlock(t, d, t, d', m, k) {
      if m < |t| && k < MAXFILE {
        FreeUnreferenced(sb, bm, t, d, b, FileSlot(m, k));
        assert IsSlot(t, FileSlot(m, k)) && Unshared(t, d, FileSlot(m, k), Indirect(n));
      }
    }
  }

  // ----- contents -----

  /** Byte p of file n. */
  ghost function ByteAt(t: Table, d: Data, n: nat, p: nat): byte
    requires n < |t| && p < MAXBYTES && BlockOf(t, d, n, p / BSIZE) < |d|
  { d[BlockOf(t, d, n, p / BSIZE)][p % BSIZE] }

  lemma {:induction false} InRange(sb: Super, bm: seq<bool>, t: Table, d: Data, n: nat, k: nat)
    requires Owned(sb, bm, t, d) && n < |t| && k < MAXFILE
    ensures BlockOf(t, d, n, k) < |d|
  {
    assert RefOk(sb, bm, t, d, FileSlot(n, k));
  }

  /** The byte sequence file n stands for. */
  ghost function Content(sb: Super, bm: seq<bool>, t: Table, d: Data, n: nat): (c: seq<byte>)
    requires Owned(sb, bm, t, d) && n < |t| && t[n].size <= MAXBYTES
    ensures |c| == t[n].size
  {
    seq(t[n].size, p requires 0 <= p < t[n].size => InRange(sb, bm, t, d, n, p / BSIZE); ByteAt(t, d, n, p))
  }

  /** Blocks mapped for other files stay exactly those. */
  lemma {:induction false} MappedKept(t: Table, d: Data, t': Table, d': Data, n: nat, i: nat, m: nat)
    requires OthersSame(t, d, t', d', n) && i != n && Mapped(t, d, i, m)
    ensures Mapped(t', d', i, m)
  {
    forall k | 0 <= k < MAXFILE
      ensures BlockOf(t', d', i, k) != 0 <==> k < m
    {
      assert BlockOf(t, d, i, k) != 0 <==> k < m;
    }
  }

  lemma {:induction false} FirstMappedSame(t: Table, d: Data, t': Table, d': Data, n: nat, m: nat, s0: Slot, b: nat)
    requires FirstMapped(t, d, n, m) && OneChange(t, d, t', d', s0, b) && s0.Indirect?
    ensures FirstMapped(t', d', n, m)
  {
    forall k | 0 <= k < MAXFILE ensures BlockOf(t', d', n, k) != 0 <==> k < m {
      assert IsSlot(t, FileSlot(n, k)) && (BlockOf(t, d, n, k) != 0 <==> k < m);
    }
  }

  lemma {:induction false} FirstMappedGrows(t: Table, d: Data, t': Table, d': Data, n: nat, m: nat, b: nat)
    requires FirstMapped(t, d, n, m) && m < MAXFILE && OneChange(t, d, t', d', FileSlot(n, m), b) && b != 0
    ensures FirstMapped(t', d', n, m + 1) && BlockOf(t', d', n, m) == b
  {
    forall k | 0 <= k < MAXFILE ensures BlockOf(t', d', n, k) != 0 <==> k < m + 1 {
      assert IsSlot(t, FileSlot(n, k)) && (BlockOf(t, d, n, k) != 0 <==> k < m);
    }
    assert IsSlot(t, FileSlot(n, m));
  }

  // ----- byte ranges -----

  /** c written over from offset off, growing the file if need be. */
  function FlatWrite(c: seq<byte>, off: nat, w: seq<byte>): (r: seq<byte>)
    requires off <= |c|
    ensures |r| == (if off + |w| > |c| then off + |w| else |c|)
  {
    c[..off] + w + (if off + |w| < |c| then c[off + |w|..] else [])
  }

  /** One write is as good as two in a row. */
  lemma {:induction false} FlatWriteTwice(c: seq<byte>, off: nat, w: seq<byte>, k: nat, l: nat)
    requires off <= |c| && k <= l <= |w|
    ensures FlatWrite(FlatWrite(c, off, w[..k]), off + k, w[k..l]) == FlatWrite(c, off, w[..l])
  {
    assert w[..k] + w[k..l] == w[..l];
  }

  /** memmove into a block. */
  function Blit(b: Block, at: nat, w: seq<byte>): (r: Block)
    requires at + |w| <= 512
  { b[..at] + w + b[at + |w|..] }

  /** Byte p of file n is mapped and is x. */
  ghost predicate HasByte(t: Table, d: Data, n: nat, p: nat, x: byte) {
    && n < |t| && p < MAXBYTES && 0 < BlockOf(t, d, n, p / BSIZE) < |d|
    && d[BlockOf(t, d, n, p / BSIZE)][p % BSIZE] == x
  }

  /** File n starts with the bytes c, all in mapped blocks. */
  ghost predicate StartsWith(t: Table, d: Data, n: nat, c: seq<byte>) {
    |c| <= MAXBYTES && forall p {:trigger c[p]} :: 0 <= p < |c| ==> HasByte(t, d, n, p, c[p])
  }

  lemma {:induction false} ContentStarts(sb: Super, bm: seq<bool>, t: Table, d: Data, n: nat)
    requires Owned(sb, bm, t, d) && NoHoles(t, d, n)
    ensures StartsWith(t, d, n, Content(sb, bm, t, d, n))
  {
    forall p | 0 <= p < t[n].size ensures HasByte(t, d, n, p, Content(sb, bm, t, d, n)[p]) {
      InRange(sb, bm, t, d, n, p / BSIZE);
      assert BlockOf(t, d, n, p / BSIZE) != 0;
    }
  }

  lemma {:induction false} StartsIsContent(sb: Super, bm: seq<bool>, t: Table, d: Data, n: nat, c: seq<byte>)
    requires Owned(sb, bm, t, d) && n < |t| && t[n].size == |c| && StartsWith(t, d, n, c)
    ensures Content(sb, bm, t, d, n) == c
  {
    forall p | 0 <= p < |c| ensures Content(sb, bm, t, d, n)[p] == c[p] {
      InRange(sb, bm, t, d, n, p / BSIZE);
      assert HasByte(t, d, n, p, c[p]);
    }
  }

  lemma {:induction false} StartsKept(t: Table, d: Data, t': Table, d': Data, n: nat, c: seq<byte>)
    requires Kept(t, d, t', d') && StartsWith(t, d, n, c)
    ensures StartsWith(t', d', n, c)
  {
    forall p | 0 <= p < |c| ensures HasByte(t', d', n, p, c[p]) {
      assert HasByte(t, d, n, p, c[p]) && KeptBlock(t, d, t', d', n, p / BSIZE);
    }
  }

  /** Storing w inside one mapped block of the file is a flat write. */
  lemma {:induction false} StartsWrite(sb: Super, bm: seq<bool>, t: Table, d: Data, n: nat, c: seq<byte>, o: nat,
      w: seq<byte>)
    requires Owned(sb, bm, t, d) && n < |t| && StartsWith(t, d, n, c) && o <= |c| && o < MAXBYTES
    requires o % BSIZE + |w| <= BSIZE && o + |w| <= MAXBYTES && 0 < BlockOf(t, d, n, o / BSIZE) < |d|
    ensures var b := BlockOf(t, d, n, o / BSIZE);
      StartsWith(t, d[b := Blit(d[b], o % BSIZE, w)], n, FlatWrite(c, o, w))
  {
    var k, b := o / BSIZE, BlockOf(t, d, n, o / BSIZE);
    var d', c' := d[b := Blit(d[b], o % BSIZE, w)], FlatWrite(c, o, w);
    WriteKeepsRefs(sb, bm, t, d, n, k, Blit(d[b], o % BSIZE, w));
    forall p | 0 <= p < |c'| ensures HasByte(t, d', n, p, c'[p]) {
      assert IsSlot(t, FileSlot(n, p / BSIZE)) && BlockOf(t, d', n, p / BSIZE) == BlockOf(t, d, n, p / BSIZE);
      if o <= p < o + |w| {
        assert p / BSIZE == k && p % BSIZE == o % BSIZE + (p - o);
      } else {
        assert c'[p] == c[p] && HasByte(t, d, n, p, c[p]);
        if p / BSIZE != k {
          assert Unshared(t, d, FileSlot(n, p / BSIZE), FileSlot(n, k));
        }
      }
    }
  }

  /** Other files are untouched by a store into file n. */
  ghost predicate OthersKept(t: Table, d: Data, t': Table, d': Data, n: nat) {
    && |t'| == |t| && |d'| == |d|
    && (forall i :: 0 <= i < |t| && i != n ==> t'[i] == t[i])
    && forall i, k {:trigger KeptBlock(t, d, t', d', i, k)} :: i != n ==> KeptBlock(t, d, t', d', i, k)
  }

  lemma {:induction false} StoreKeeps(sb: Super, bm: seq<bool>, t: Table, d: Data, n: nat, k: nat, m: nat, x: Block)
    requires Owned(sb, bm, t, d) && Mapped(t, d, n, m) && k < m
    ensures 0 < BlockOf(t, d, n, k) < |d| && var d' := d[BlockOf(t, d, n, k) := x];
      Owned(sb, bm, t, d') && Mapped(t, d', n, m) && OthersSame(t, d, t, d', n) && OthersKept(t, d, t, d', n)
  {
    InRange(sb, bm, t, d, n, k);
    var b := BlockOf(t, d, n, k);
    var d' := d[b := x];
    WriteKeepsRefs(sb, bm, t, d, n, k, x);
    forall s ensures RefOk(sb, bm, t, d', s) { assert RefOk(sb, bm, t, d, s); }
    forall s, u ensures Unshared(t, d', s, u) { assert Unshared(t, d, s, u); }
    forall y ensures Accounted(sb, bm, t, d', y) {
      assert Accounted(sb, bm, t, d, y);
      if s :| RefersTo(t, d, s, y) { assert RefersTo(t, d', s, y); }
      if s :| RefersTo(t, d', s, y) { assert RefersTo(t, d, s, y); }
    }
    forall i: nat, j: nat ensures i < |t| && j < MAXFILE ==> BlockOf(t, d', i, j) == BlockOf(t, d, i, j) {
      if i < |t| && j < MAXFILE { assert IsSlot(t, FileSlot(i, j)); }
    }
    forall i: nat, j: nat | i != n ensures KeptBlock(t, d, t, d', i, j) {
      if i < |t| && j < MAXFILE { assert Unshared(t, d, FileSlot(i, j), FileSlot(n, k)); }
    }
  }

  lemma {:induction false} OthersKeptTrans(t: Table, d: Data, t1: Table, d1: Data, t2: Table, d2: Data, n: nat)
    requires OthersKept(t, d, t1, d1, n) && OthersKept(t1, d1, t2, d2, n)
    ensures OthersKept(t, d, t2, d2, n)
  {
    forall i: nat, k: nat | i != n ensures KeptBlock(t, d, t2, d2, i, k) {
      assert KeptBlock(t, d, t1, d1, i, k) && KeptBlock(t1, d1, t2, d2, i, k);
    }
  }

  lemma {:induction false} GrewOthersKept(t: Table, d: Data, t': Table, d': Data, n: nat)
    requires Kept(t, d, t', d') && OthersSame(t, d, t', d', n)
    ensures OthersKept(t, d, t', d', n)
  {
  }

  /** A file whose blocks are kept keeps its contents. */
  lemma {:induction false} OthersContent(sb: Super, bm: seq<bool>, t: Table, d: Data, bm': seq<bool>, t': Table,
      d': Data, n: nat, i: nat)
    requires Owned(sb, bm, t, d) && Owned(sb, bm', t', d') && OthersKept(t, d, t', d', n) && i != n && NoHoles(t, d, i)
    ensures Content(sb, bm', t', d', i) == Content(sb, bm, t, d, i)
  {
    forall p | 0 <= p < t[i].size ensures Content(sb, bm', t', d', i)[p] == Content(sb, bm, t, d, i)[p] {
      InRange(sb, bm, t, d, i, p / BSIZE);
      assert KeptBlock(t, d, t', d', i, p / BSIZE) && BlockOf(t, d, i, p / BSIZE) != 0;
    }
  }

  // ----- giving up all blocks of an inode -----

  /** The slots of inode n in the order itrunc frees them. */
  function SlotAt(n: nat, q: nat): Slot { if q < MAXFILE then FileSlot(n, q) else Indirect(n) }

  const SLOTS: nat := 141

  ghost predicate FreedBelow(t: Table, d: Data, n: nat, q: nat, b: nat) {
    exists k :: 0 <= k < q && RefersTo(t, d, SlotAt(n, k), b)
  }

  /** bm is bm0 with the blocks of the first q slots of inode n freed. */
  ghost predicate ClearedUpTo(bm0: seq<bool>, bm: seq<bool>, t: Table, d: Data, n: nat, q: nat) {
    |bm| == |bm0| && forall b {:trigger bm[b]} :: 0 < b < |bm| ==> (bm[b] <==> bm0[b] && !FreedBelow(t, d, n, q, b))
  }

  lemma {:induction false} ClearStart(bm0: seq<bool>, t: Table, d: Data, n: nat)
    ensures ClearedUpTo(bm0, bm0, t, d, n, 0)
  {
  }

  /** The next block to free is still allocated: freeing it never panics. */
  lemma {:induction false} ClearStep(sb: Super, bm0: seq<bool>, bm: seq<bool>, t: Table, d: Data, n: nat, q: nat)
    requires Owned(sb, bm0, t, d) && n < |t| && q < SLOTS && ClearedUpTo(bm0, bm, t, d, n, q)
    ensures var r := Ref(t, d, SlotAt(n, q));
      if r == 0 then ClearedUpTo(bm0, bm, t, d, n, q + 1)
      else r < |bm| && bm[r] && ClearedUpTo(bm0, bm[r := false], t, d, n, q + 1)
  {
    var s := SlotAt(n, q);
    var r := Ref(t, d, s);
    assert RefOk(sb, bm0, t, d, s);
    forall k | 0 <= k < q && RefersTo(t, d, SlotAt(n, k), r) ensures r == 0 {
      assert Unshared(t, d, SlotAt(n, k), s);
    }
    forall b: nat | 0 < b ensures FreedBelow(t, d, n, q + 1, b) <==> FreedBelow(t, d, n, q, b) || b == r {
      if b == r { assert RefersTo(t, d, SlotAt(n, q), b); }
    }
  }

  /** With every slot cleared, inode n owns nothing and ownership still holds. */
  lemma {:induction false} OwnedRemove(sb: Super, bm0: seq<bool>, bm: seq<bool>, t: Table, d: Data, n: nat, x: Dinode)
    requires Owned(sb, bm0, t, d) && n < |t| && ClearedUpTo(bm0, bm, t, d, n, SLOTS) && x.addrs == seq(13, _ => 0)
    requires bm[0]
    ensures Owned(sb, bm, t[n := x], d) && Mapped(t[n := x], d, n, 0) && OthersSame(t, d, t[n := x], d, n)
    ensures OthersKept(t, d, t[n := x], d, n)
  {
    var t' := t[n := x];
    forall s | IsSlot(t, s) ensures Ref(t', d, s) == if s.n == n then 0 else Ref(t, d, s) {}
    forall s ensures RefOk(sb, bm, t', d, s) {
      assert RefOk(sb, bm0, t, d, s);
      if IsSlot(t, s) && s.n != n && Ref(t, d, s) != 0 {
        forall k | 0 <= k < SLOTS
          ensures !RefersTo(t, d, SlotAt(n, k), Ref(t, d, s))
        {
          assert Unshared(t, d, SlotAt(n, k), s);
        }
      }
    }
    forall s, u ensures Unshared(t', d, s, u) { assert Unshared(t, d, s, u); }
    forall b: nat ensures Accounted(sb, bm, t', d, b) {
      if b < |bm| { AccountedAfter(sb, bm0, bm, t, d, n, x, b); }
    }
    forall k | 0 <= k < MAXFILE ensures BlockOf(t', d, n, k) == 0 { assert IsSlot(t, FileSlot(n, k)); }
    forall i: nat, k: nat | i < |t| && i != n && k < MAXFILE
      ensures BlockOf(t', d, i, k) == BlockOf(t, d, i, k)
    {
      assert IsSlot(t, FileSlot(i, k));
    }
  }

  lemma {:induction false} AccountedAfter(sb: Super, bm0: seq<bool>, bm: seq<bool>, t: Table, d: Data, n: nat,
      x: Dinode, b: nat)
    requires Owned(sb, bm0, t, d) && n < |t| && ClearedUpTo(bm0, bm, t, d, n, SLOTS) && x.addrs == seq(13, _ => 0)
    requires bm[0] && b < |bm|
    ensures Accounted(sb, bm, t[n := x], d, b)
  {
    var t' := t[n := x];
    assert Accounted(sb, bm0, t, d, b);
    if b > 0 {
      if k :| 0 <= k < SLOTS && RefersTo(t, d, SlotAt(n, k), b) {
        assert RefOk(sb, bm0, t, d, SlotAt(n, k));
        forall s ensures !RefersTo(t', d, s, b) {
          assert Unshared(t, d, SlotAt(n, k), s);
        }
      } else {
        if s :| RefersTo(t, d, s, b) {
          var q: nat := if s.Direct? then s.i else if s.Entry? then NDIRECT + s.j else MAXFILE;
          assert s == SlotAt(s.n, q);
          assert RefersTo(t', d, s, b);
        }
        if s :| RefersTo(t', d, s, b) { assert RefersTo(t, d, s, b); }
      }
    }
  }
}
