/** mkfs.c: the image the file system starts from. */
module Mkfs {
  import opened Common
  import opened Blocks
  import opened FsSpec
  import opened FileSys

  const ROOTINO: nat := 1

  /** The bitmap balloc(used) writes: the first `used` blocks are taken. */
  function FirstUsed(size: nat, used: nat): (bm: seq<bool>) { seq(size, b => b < used) }

  function Zeros(k: nat): (z: seq<byte>) { seq(k, _ => 0) }

  /** c followed by zeros up to the end of m blocks. */
  function PadTo(c: seq<byte>, m: nat): (r: seq<byte>)
    requires |c| <= m * BSIZE
  { c + Zeros(m * BSIZE - |c|) }

  function Pad(c: seq<byte>): (r: seq<byte>) { PadTo(c, BlocksFor(|c|)) }

  const FreeDinode := Dinode(0, 0, 0, 0, 0, seq(13, _ => 0))

  /** File n is followed by zeros up to the end of its last block. */
  ghost predicate Padded(sb: Super, f: nat, t: Table, d: Data, n: nat) {
    var bm := FirstUsed(sb.size, f);
    && n < |t| && Owned(sb, bm, t, d) && NoHoles(t, d, n)
    && StartsWith(t, d, n, Pad(Content(sb, bm, t, d, n)))
  }

  ghost predicate AllPadded(sb: Super, f: nat, t: Table, d: Data) {
    forall n {:trigger Padded(sb, f, t, d, n)} :: 0 <= n < |t| ==> Padded(sb, f, t, d, n)
  }

  /** The first f blocks count as used, the rest are zero, and only file n may be in the
      middle of growing: m of its blocks are mapped. */
  ghost predicate Pending(sb: Super, f: nat, t: Table, d: Data, n: nat, m: nat) {
    && sb.nmeta <= f <= sb.size && Owned(sb, FirstUsed(sb.size, f), t, d)
    && (forall b :: f <= b < |d| ==> d[b] == Zero())
    && Mapped(t, d, n, m) && forall i :: 0 <= i < |t| && i != n ==> NoHoles(t, d, i)
  }

  /** Beyond the first f blocks all are free. */
  lemma {:induction false} FirstUsedClear(size: nat, f: nat)
    requires f <= size
    ensures ClearBits(FirstUsed(size, f)) == size - f
    decreases size
  {
    var bm := FirstUsed(size, f);
    if f == size {
      NoneClear(bm);
    } else {
      FirstUsedClear(size - 1, f);
      assert bm[..size - 1] == FirstUsed(size - 1, f);
    }
  }

  /** k blocks taken from freeblock on, or the image has not as many left. */
  ghost predicate Spent(sb: Super, f0: nat, f: nat, k: nat, ok: bool) {
    if ok then f == f0 + k <= sb.size else f0 + k > sb.size
  }

  lemma {:induction false} NothingSpent(sb: Super, f: nat, t: Table, d: Data, n: nat, size: nat)
    requires Pending(sb, f, t, d, n, BlocksFor(size))
    ensures Spent(sb, f, f, FileBlocks(size, size), true)
  {
  }

  /** A file grown from size0 to size1 grows to size2, on the way to end. */
  lemma {:induction false} SpentMore(sb: Super, f0: nat, f1: nat, f2: nat, size0: nat, size1: nat, size2: nat, end: nat,
      ok: bool)
    requires size0 <= size1 <= size2 <= end && Spent(sb, f0, f1, FileBlocks(size0, size1), true)
    requires Spent(sb, f1, f2, NewBlocks(BlocksFor(size1), BlocksFor(size2)), ok)
    ensures if ok then Spent(sb, f0, f2, FileBlocks(size0, size2), true) else f0 + FileBlocks(size0, end) > sb.size
  {
    assert BlocksFor(size0) <= BlocksFor(size1) <= BlocksFor(size2) <= BlocksFor(end);
  }

  /** An image under construction. */
  class Image {
    const sb: Super
    var dinodes: Table
    var data: Data
    var bitmap: seq<bool>
    var freeblock: nat
    var freeinode: nat

    /** What every step of mkfs keeps: with the first freeblock blocks marked, the image is a
        consistent file system; unused blocks, and the bytes after the end of each file in its
        last block, are zero. */
    ghost predicate Valid()
      reads this
    {
      && sb.nmeta <= freeblock <= sb.size && FsInv(sb, FirstUsed(sb.size, freeblock), dinodes, data)
      && (forall b :: freeblock <= b < |data| ==> data[b] == Zero())
      && AllPadded(sb, freeblock, dinodes, data)
      && 1 <= freeinode && |bitmap| == sb.size
      && (forall i :: 0 <= i < |dinodes| && (i >= freeinode || dinodes[i].typ == 0) ==>
        dinodes[i].typ == 0 && dinodes[i].size == 0)
    }

    ghost function ContentOf(n: nat): seq<byte>
      reads this`dinodes, this`data, this`freeblock
      requires n < |dinodes| && FsInv(sb, FirstUsed(sb.size, freeblock), dinodes, data)
    { assert NoHoles(dinodes, data, n); Content(sb, FirstUsed(sb.size, freeblock), dinodes, data, n) }

    constructor (s: Super, ninodes: nat)
      requires 1 <= s.nmeta <= s.size < U32
      ensures Valid() && sb == s && freeinode == 1 && |dinodes| == ninodes && forall b :: 0 <= b < |bitmap| ==>
        !bitmap[b]
    {
      sb := s;
      dinodes := seq(ninodes, _ => FreeDinode);
      data := seq(s.size, _ => Zero());
      bitmap := seq(s.size, _ => false);
      freeblock, freeinode := s.nmeta, 1;
      new;
      EmptyImage(sb, dinodes, data);
    }

    /** ialloc. */
    method Ialloc(typ: nat) returns (inum: nat)
      requires Valid() && typ != 0 && freeinode < |dinodes|
      modifies this`dinodes, this`freeinode
      ensures Valid() && inum == old(freeinode) && freeinode == inum + 1
      ensures dinodes == old(dinodes)[inum := FreeDinode.(typ := typ, nlink := 1)]
      ensures forall n :: 0 <= n < |dinodes| ==> ContentOf(n) == old(ContentOf(n))
    {
      inum := freeinode;
      var x := FreeDinode.(typ := typ, nlink := 1);
      ghost var bm, t := FirstUsed(sb.size, freeblock), dinodes;
      ClearInode(sb, bm, dinodes, data, inum, x);
      freeinode := freeinode + 1;
      dinodes := dinodes[inum := x];
      forall n | 0 <= n < |dinodes|
        ensures ContentOf(n) == old(ContentOf(n)) && Padded(sb, freeblock, dinodes, data, n)
      {
        assert Padded(sb, freeblock, t, data, n) && NoHoles(t, data, n);
        if n != inum { OthersPadded(sb, bm, bm, t, data, dinodes, data, inum, n); }
      }
    }

    /** freeblock++. */
    method TakeBlock() returns (b: nat, ok: bool)
      requires |data| == sb.size && forall x :: freeblock <= x < |data| ==> data[x] == Zero()
      modifies this`freeblock
      ensures ok == (old(freeblock) < sb.size)
      ensures !ok ==> freeblock == old(freeblock)
      ensures ok ==> b == old(freeblock) && freeblock == b + 1 && data[b] == Zero() && data[b := Zero()] == data
      ensures ok ==>
        |FirstUsed(sb.size, b)| == sb.size && !FirstUsed(sb.size, b)[b]
        && FirstUsed(sb.size, b)[b := true] == FirstUsed(sb.size, freeblock)
    {
      b, ok := freeblock, false;
      if freeblock >= sb.size { return; }
      freeblock, ok := freeblock + 1, true;
    }

    /** What mapping a block leaves alone. */
    ghost predicate Grew(t: Table, d: Data, t': Table, n: nat)
      reads this`data
    { Kept(t, d, t', data) && OthersSame(t, d, t', data, n) }

    /** Block fbn of the file, taken from freeblock if it is the next one to map; ok is false
        when the image is full. */
    method MapBlock(inum: nat, din: Dinode, fbn: nat, ghost m: nat) returns (e: Dinode, x: nat, ok: bool)
      requires inum < |dinodes| && Pending(sb, freeblock, dinodes[inum := din], data, inum, m) && fbn <= m
        && fbn < MAXFILE
      modifies this`data, this`freeblock
      ensures ok ==>
        Pending(sb, freeblock, dinodes[inum := e], data, inum, if fbn < m then m else m + 1)
        && e == din.(addrs := e.addrs)
      ensures ok ==> Grew(dinodes[inum := din], old(data), dinodes[inum := e], inum)
      ensures ok ==>
        x == BlockOf(dinodes[inum := e], data, inum, fbn) && 0 < x < |data| && (fbn == m ==> data[x] == Zero())
      ensures Spent(sb, old(freeblock), freeblock, NewBlocks(m, if fbn < m then m else m + 1), ok)
    {
      hide Owned, Kept, OthersSame, OneChange, FirstMapped, FirstUsed;
      ghost var t := dinodes[inum := din];
      e, x, ok := din, 0, true;
      Shape(t, inum, m, fbn);
      KeptSame(t, data, inum);
      if fbn < NDIRECT {
        if e.addrs[fbn] == 0 {
          var b;
          b, ok := TakeBlock();
          if !ok { return; }
          AppendDirect(sb, FirstUsed(sb.size, b), t, data, inum, m, b);
          e := e.(addrs := e.addrs[fbn := b]);
          assert dinodes[inum := e] == WithAddr(t, inum, m, b);
        }
        x := e.addrs[fbn];
      } else {
        e, x, ok := MapEntry(inum, din, fbn, m);
      }
    }

    /** The indirect half of MapBlock. */
    method MapEntry(inum: nat, din: Dinode, fbn: nat, ghost m: nat) returns (e: Dinode, x: nat, ok: bool)
      requires inum < |dinodes| && Pending(sb, freeblock, dinodes[inum := din], data, inum, m) && NDIRECT <= fbn <= m
        && fbn < MAXFILE
      modifies this`data, this`freeblock
      ensures ok ==>
        Pending(sb, freeblock, dinodes[inum := e], data, inum, if fbn < m then m else m + 1)
        && e == din.(addrs := e.addrs)
      ensures ok ==> Grew(dinodes[inum := din], old(data), dinodes[inum := e], inum)
      ensures ok ==>
        x == BlockOf(dinodes[inum := e], data, inum, fbn) && 0 < x < |data| && (fbn == m ==> data[x] == Zero())
      ensures Spent(sb, old(freeblock), freeblock, NewBlocks(m, if fbn < m then m else m + 1), ok)
    {
      hide Owned, Kept, OthersSame, OneChange, FirstMapped, FirstUsed;
      ghost var t, d := dinodes[inum := din], data;
      e, x, ok := din, 0, true;
      Shape(t, inum, m, fbn);
      KeptSame(t, d, inum);
      if e.addrs[NDIRECT] == 0 {
        var b;
        b, ok := TakeBlock();
        if !ok { return; }
        AppendIndirect(sb, FirstUsed(sb.size, b), t, d, inum, b);
        e := e.(addrs := e.addrs[NDIRECT := b]);
        assert dinodes[inum := e] == WithAddr(t, inum, NDIRECT, b);
      }
      ghost var t1 := dinodes[inum := e];
      EntryShape(t1, inum, m, fbn);
      x := Word(data[e.addrs[NDIRECT]], fbn - NDIRECT);
      if x == 0 {
        x, ok := TakeBlock();
        if !ok { return; }
        AppendEntry(sb, FirstUsed(sb.size, x), t1, d, inum, m, x);
        data := data[e.addrs[NDIRECT] := SetWord(data[e.addrs[NDIRECT]], fbn - NDIRECT, x)];
        KeptTrans(t, d, t1, d, t1, data, inum);
      }
    }

    lemma {:induction false} Shape(t: Table, n: nat, m: nat, k: nat)
      requires Pending(sb, freeblock, t, data, n, m) && k < MAXFILE
      ensures n < |t| && |data| == sb.size && BlockOf(t, data, n, k) < |data|
        && (BlockOf(t, data, n, k) != 0 <==> k < m)
      ensures k < NDIRECT ==> BlockOf(t, data, n, k) == t[n].addrs[k]
    {
      InRange(sb, FirstUsed(sb.size, freeblock), t, data, n, k);
    }

    lemma {:induction false} EntryShape(t: Table, n: nat, m: nat, k: nat)
      requires NDIRECT <= k < MAXFILE && n < |t| && Owned(sb, FirstUsed(sb.size, freeblock), t, data)
      requires FirstMapped(t, data, n, m) && t[n].addrs[NDIRECT] != 0
      ensures |data| == sb.size && 0 < t[n].addrs[NDIRECT] < |data|
        && Word(data[t[n].addrs[NDIRECT]], k - NDIRECT) == BlockOf(t, data, n, k) < |data|
      ensures t[n].addrs[NDIRECT] < freeblock && (BlockOf(t, data, n, k) != 0 <==> k < m)
    {
      assert RefOk(sb, FirstUsed(sb.size, freeblock), t, data, Indirect(n));
      InRange(sb, FirstUsed(sb.size, freeblock), t, data, n, k);
    }

    /** The loop of iappend. */
    method AppendLoop(inum: nat, xp: seq<byte>, ghost c: seq<byte>) returns (din: Dinode, ok: bool)
      requires inum < |dinodes| && Pending(sb, freeblock, dinodes, data, inum, BlocksFor(|c|))
        && |c| == dinodes[inum].size <= MAXBYTES
      requires StartsWith(dinodes, data, inum, Pad(c))
      modifies this`data, this`freeblock
      ensures ok ==>
        Pending(sb, freeblock, dinodes[inum := din], data, inum, BlocksFor(|c + xp|)) && |c + xp| <= MAXBYTES
      ensures ok ==> din == dinodes[inum].(size := |c + xp|, addrs := din.addrs)
      ensures ok ==> OthersKept(dinodes, old(data), dinodes[inum := din], data, inum)
      ensures ok ==> StartsWith(dinodes[inum := din], data, inum, Pad(c + xp))
      ensures ok ==> Spent(sb, old(freeblock), freeblock, FileBlocks(|c|, |c + xp|), true)
      ensures !ok ==> |c + xp| > MAXBYTES || old(freeblock) + FileBlocks(|c|, |c + xp|) > sb.size
    {
      hide Owned, Kept, OthersSame, FirstMapped, Mapped, StartsWith, OthersKept, FlatWrite, FirstUsed, Pad, Pending,
           Grew, NoHoles, BlocksFor, Blit, FileBlocks, NewBlocks, Spent;
      ghost var d0, f0 := data, freeblock;
      NothingSpent(sb, f0, dinodes, data, inum, |c|);
      din := dinodes[inum];
      var off, i := din.size, 0;
      assert dinodes[inum := din] == dinodes && c + xp[..0] == c;
      KeptSame(dinodes, data, inum);
      GrewOthersKept(dinodes, data, dinodes, data, inum);
      while i < |xp|
        invariant 0 <= i <= |xp| && off == |c| + i <= MAXBYTES && din == dinodes[inum].(addrs := din.addrs)
        invariant Pending(sb, freeblock, dinodes[inum := din], data, inum, BlocksFor(off))
          && OthersKept(dinodes, d0, dinodes[inum := din], data, inum)
        invariant StartsWith(dinodes[inum := din], data, inum, Pad(c + xp[..i]))
        invariant Spent(sb, f0, freeblock, FileBlocks(|c|, off), true)
        modifies this`data, this`freeblock
      {
        var fbn := off / BSIZE;
        ok := false;
        if fbn >= MAXFILE { return; }
        ghost var d1, t1, f1 := data, dinodes[inum := din], freeblock;
        var n1 := if |xp| - i < (fbn + 1) * BSIZE - off then |xp| - i else (fbn + 1) * BSIZE - off;
        NextBlocks(off, n1);
        var x;
        din, x, ok := MapBlock(inum, din, fbn, BlocksFor(off));
        SpentMore(sb, f0, f1, freeblock, |c|, off, off + n1, |c + xp|, ok);
        if !ok { return; }
        GrowStep(dinodes, d0, t1, d1, dinodes[inum := din], inum, c + xp[..i], xp[i..i + n1]);
        assert (c + xp[..i]) + xp[i..i + n1] == c + xp[..i + n1];
        data := data[x := Blit(data[x], off - fbn * BSIZE, xp[i..i + n1])];
        i, off := i + n1, off + n1;
      }
      assert xp[..|xp|] == xp;
      EndAppend(dinodes, d0, dinodes[inum := din], inum, c + xp);
      assert dinodes[inum := din][inum := din.(size := off)] == dinodes[inum := din.(size := off)];
      din := din.(size := off);
      ok := true;
    }

    /** iappend.  The file grows by xp; ok is false when mkfs would abort. */
    method Iappend(inum: nat, xp: seq<byte>) returns (ok: bool)
      requires Valid() && inum < |dinodes| && dinodes[inum].typ != 0
      modifies this`data, this`freeblock, this`dinodes
      ensures ok ==> Valid() && |dinodes| == |old(dinodes)| && ContentOf(inum) == old(ContentOf(inum)) + xp
      ensures ok ==> dinodes[inum] == old(dinodes)[inum].(size := dinodes[inum].size, addrs := dinodes[inum].addrs)
      ensures ok ==> forall n :: 0 <= n < |dinodes| && n != inum ==>
        dinodes[n] == old(dinodes)[n] && ContentOf(n) == old(ContentOf(n))
      ensures var end := old(dinodes)[inum].size + |xp|; var need := FileBlocks(old(dinodes)[inum].size, end);
        && (ok <==> end <= MAXBYTES && old(freeblock) + need <= sb.size)
        && (ok ==> freeblock == old(freeblock) + need)
    {
      hide Owned, Kept, OthersSame, FirstMapped, Mapped, StartsWith, OthersKept, FirstUsed, Content, NoHoles, Pad,
           Padded, FileBlocks;
      ghost var t0, d0, f0, c := dinodes, data, freeblock, ContentOf(inum);
      StartAppend(inum, c);
      var din;
      din, ok := AppendLoop(inum, xp, c);
      if !ok { return; }
      dinodes := dinodes[inum := din];
      Settle(t0, d0, f0, inum, c + xp);
    }

    /** balloc; ok is false when the assertion that one bitmap block is enough fails. */
    method Balloc(used: nat) returns (ok: bool)
      requires used <= sb.size == |bitmap| && forall b :: 0 <= b < |bitmap| ==> !bitmap[b]
      modifies this`bitmap
      ensures ok == (used < BPB)
      ensures ok ==> bitmap == FirstUsed(sb.size, used)
    {
      if used >= BPB { return false; }
      var i := 0;
      while i < used
        invariant 0 <= i <= used && |bitmap| == sb.size && forall b :: 0 <= b < |bitmap| ==> bitmap[b] == (b < i)
      {
        bitmap := bitmap[i := true];
        i := i + 1;
      }
      ok := true;
    }

    /** The end of main: round the root directory up and write the bitmap.  The image is a
        consistent file system exactly when the root directory did not already fill its last
        block; then it has gained only zeros and every other file is as it was. */
    method Finish() returns (ok: bool)
      requires Valid() && ROOTINO < |dinodes| && dinodes[ROOTINO].typ != 0 && forall b :: 0 <= b < |bitmap| ==>
        !bitmap[b]
      modifies this`dinodes, this`bitmap
      ensures ok == (freeblock < BPB)
      ensures dinodes == old(dinodes)[ROOTINO := old(dinodes)[ROOTINO].(size := Rounded(old(dinodes)[ROOTINO].size))]
      ensures ok ==> (FsInv(sb, bitmap, dinodes, data) <==> old(dinodes)[ROOTINO].size % BSIZE != 0)
      ensures ok && old(dinodes)[ROOTINO].size % BSIZE != 0 ==>
        && bitmap == FirstUsed(sb.size, freeblock) && ContentOf(ROOTINO) == Pad(old(ContentOf(ROOTINO)))
        && forall n :: 0 <= n < |dinodes| && n != ROOTINO ==>
          dinodes[n] == old(dinodes)[n] && ContentOf(n) == old(ContentOf(n))
      ensures forall n :: 0 <= n < |dinodes| && dinodes[n].typ == 0 ==> dinodes[n].size == 0
    {
      hide Owned, Kept, OthersSame, FirstMapped, Mapped, StartsWith, OthersKept, FirstUsed, Content, NoHoles, Pad,
           Padded, FsInv;
      ghost var t := dinodes;
      var din := dinodes[ROOTINO];
      din := din.(size := Rounded(din.size));
      RootRounded(sb, freeblock, t, data, ROOTINO);
      dinodes := dinodes[ROOTINO := din];
      ok := Balloc(freeblock);
    }

    lemma {:induction false} StartAppend(inum: nat, c: seq<byte>)
      requires Valid() && inum < |dinodes| && c == ContentOf(inum)
      ensures Pending(sb, freeblock, dinodes, data, inum, BlocksFor(|c|)) && |c| == dinodes[inum].size <= MAXBYTES
        && StartsWith(dinodes, data, inum, Pad(c))
    {
      assert Padded(sb, freeblock, dinodes, data, inum);
    }

    /** One turn of iappend's loop: a block is mapped if need be and w goes into it. */
    lemma {:induction false} GrowStep(t0: Table, d0: Data, t1: Table, d1: Data, t: Table, n: nat, c: seq<byte>,
        w: seq<byte>)
      requires |c| / BSIZE < MAXFILE && 1 <= |w| <= BSIZE - |c| % BSIZE && n < |t1|
      requires Grew(t1, d1, t, n) && OthersKept(t0, d0, t1, d1, n)
      requires StartsWith(t1, d1, n, Pad(c)) && Pending(sb, freeblock, t, data, n, BlocksFor(|c| + |w|))
      requires n < |t| && 0 < BlockOf(t, data, n, |c| / BSIZE) < |data|
      requires |c| % BSIZE == 0 ==> data[BlockOf(t, data, n, |c| / BSIZE)] == Zero()
      ensures var x := BlockOf(t, data, n, |c| / BSIZE); var d := data[x := Blit(data[x], |c| % BSIZE, w)];
        && Pending(sb, freeblock, t, d, n, BlocksFor(|c| + |w|)) && |c| + |w| <= MAXBYTES
        && StartsWith(t, d, n, Pad(c + w)) && OthersKept(t0, d0, t, d, n)
    {
      hide Owned, Kept, OthersSame, FirstMapped, StartsWith, OthersKept, FlatWrite, FirstUsed, NoHoles;
      var m, bm := BlocksFor(|c| + |w|), FirstUsed(sb.size, freeblock);
      assert |c| / BSIZE < m <= MAXFILE && |c| + |w| <= MAXBYTES;
      StartsKept(t1, d1, t, data, n, Pad(c));
      PadGrows(t, data, n, c, m);
      KeptSame(t, data, n);
      StoreStep(sb, bm, t, data, t, data, n, PadTo(c, m), |c|, w, m);
      PadWrite(c, w, m);
      GrewOthersKept(t1, d1, t, data, n);
      OthersKeptTrans(t0, d0, t1, d1, t, data, n);
      var x := BlockOf(t, data, n, |c| / BSIZE);
      OthersKeptTrans(t0, d0, t, data, t, data[x := Blit(data[x], |c| % BSIZE, w)], n);
      UsedBlock(sb, freeblock, t, data, n, |c| / BSIZE);
    }

    /** Setting the size settles the file. */
    lemma {:induction false} EndAppend(t0: Table, d0: Data, t: Table, n: nat, c: seq<byte>)
      requires Pending(sb, freeblock, t, data, n, BlocksFor(|c|)) && StartsWith(t, data, n, Pad(c))
        && OthersKept(t0, d0, t, data, n) && |c| <= MAXBYTES
      ensures n < |t| && var t' := t[n := t[n].(size := |c|)];
        Pending(sb, freeblock, t', data, n, BlocksFor(|c|)) && OthersKept(t0, d0, t', data, n)
          && StartsWith(t', data, n, Pad(c))
    {
      StartsPrefix(t, data, n, Pad(c), c);
      Resized(sb, FirstUsed(sb.size, freeblock), t0, d0, t, data, n, BlocksFor(|c|), |c|, c);
      var t' := t[n := t[n].(size := |c|)];
      forall p | 0 <= p < |Pad(c)|
        ensures HasByte(t', data, n, p, Pad(c)[p])
      {
        assert HasByte(t, data, n, p, Pad(c)[p]);
      }
    }

    /** The image is consistent again once file n stands for c. */
    lemma {:induction false} Settle(t0: Table, d0: Data, f0: nat, n: nat, c: seq<byte>)
      requires n < |dinodes| && |t0| == |dinodes| && FsInv(sb, FirstUsed(sb.size, f0), t0, d0)
        && AllPadded(sb, f0, t0, d0)
      requires Pending(sb, freeblock, dinodes, data, n, BlocksFor(|c|)) && dinodes[n].size == |c| <= MAXBYTES
      requires OthersKept(t0, d0, dinodes, data, n) && StartsWith(dinodes, data, n, Pad(c))
      ensures FsInv(sb, FirstUsed(sb.size, freeblock), dinodes, data) && AllPadded(sb, freeblock, dinodes, data)
        && ContentOf(n) == c
      ensures forall i :: 0 <= i < |dinodes| && i != n ==>
        dinodes[i] == t0[i] && NoHoles(t0, d0, i) && ContentOf(i) == Content(sb, FirstUsed(sb.size, f0), t0, d0, i)
    {
      var bm := FirstUsed(sb.size, freeblock);
      assert FsInv(sb, bm, dinodes, data) by { forall i | 0 <= i < |dinodes| ensures NoHoles(dinodes, data, i) {} }
      StartsPrefix(dinodes, data, n, Pad(c), c);
      StartsIsContent(sb, bm, dinodes, data, n, c);
      forall i | 0 <= i < |dinodes|
        ensures Padded(sb, freeblock, dinodes, data, i)
        ensures i != n ==> NoHoles(t0, d0, i) && ContentOf(i) == Content(sb, FirstUsed(sb.size, f0), t0, d0, i)
      {
        assert NoHoles(dinodes, data, i);
        if i != n {
          assert Padded(sb, f0, t0, d0, i);
          OthersPadded(sb, FirstUsed(sb.size, f0), bm, t0, d0, dinodes, data, n, i);
        }
      }
    }
  }

  lemma {:induction false} NextBlocks(off: nat, k: nat)
    requires 1 <= k <= BSIZE - off % BSIZE
    ensures off / BSIZE <= BlocksFor(off)
    ensures BlocksFor(off + k) == if off / BSIZE < BlocksFor(off) then BlocksFor(off) else BlocksFor(off) + 1
    ensures off % BSIZE == 0 <==> off / BSIZE == BlocksFor(off)
  {
  }

  lemma {:induction false} KeptSame(t: Table, d: Data, n: nat)
    ensures Kept(t, d, t, d) && OthersSame(t, d, t, d, n)
  {
  }

  lemma {:induction false} StartsPrefix(t: Table, d: Data, n: nat, c: seq<byte>, p: seq<byte>)
    requires StartsWith(t, d, n, c) && p <= c
    ensures StartsWith(t, d, n, p)
  {
    forall i | 0 <= i < |p| ensures HasByte(t, d, n, i, p[i]) { assert HasByte(t, d, n, i, c[i]); }
  }

  lemma {:induction false} UsedBlock(sb: Super, f: nat, t: Table, d: Data, n: nat, k: nat)
    requires Owned(sb, FirstUsed(sb.size, f), t, d) && n < |t| && k < MAXFILE && BlockOf(t, d, n, k) != 0
    ensures BlockOf(t, d, n, k) < f
  {
    assert RefOk(sb, FirstUsed(sb.size, f), t, d, FileSlot(n, k));
  }

  lemma {:induction false} PadGrows(t: Table, d: Data, n: nat, c: seq<byte>, m: nat)
    requires n < |t| && StartsWith(t, d, n, Pad(c)) && |c| / BSIZE < MAXFILE && m == |c| / BSIZE + 1
    requires 0 < BlockOf(t, d, n, |c| / BSIZE) < |d|
    requires |c| % BSIZE == 0 ==> d[BlockOf(t, d, n, |c| / BSIZE)] == Zero()
    ensures StartsWith(t, d, n, PadTo(c, m))
  {
    var r := PadTo(c, m);
    forall p | 0 <= p < |r| ensures HasByte(t, d, n, p, r[p]) {
      if p < |Pad(c)| {
        assert r[p] == Pad(c)[p] && HasByte(t, d, n, p, Pad(c)[p]);
      } else {
        assert |c| % BSIZE == 0 && p / BSIZE == |c| / BSIZE;
      }
    }
  }

  lemma {:induction false} PadWrite(c: seq<byte>, w: seq<byte>, m: nat)
    requires 1 <= |w| <= BSIZE - |c| % BSIZE && m == |c| / BSIZE + 1
    ensures FlatWrite(PadTo(c, m), |c|, w) == Pad(c + w) && BlocksFor(|c| + |w|) == m
  {
    assert BlocksFor(|c| + |w|) == m;
    assert |c| + |w| <= m * BSIZE;
  }

  lemma {:induction false} OthersPadded(sb: Super, bm: seq<bool>, bm': seq<bool>, t: Table, d: Data, t': Table,
      d': Data, n: nat, i: nat)
    requires Owned(sb, bm, t, d) && Owned(sb, bm', t', d') && OthersKept(t, d, t', d', n) && i != n && NoHoles(t, d, i)
    requires StartsWith(t, d, i, Pad(Content(sb, bm, t, d, i)))
    ensures i < |t'| && t'[i] == t[i] && Content(sb, bm', t', d', i) == Content(sb, bm, t, d, i)
    ensures StartsWith(t', d', i, Pad(Content(sb, bm, t, d, i)))
  {
    var c := Pad(Content(sb, bm, t, d, i));
    OthersContent(sb, bm, t, d, bm', t', d', n, i);
    forall p | 0 <= p < |c| ensures HasByte(t', d', i, p, c[p]) {
      assert HasByte(t, d, i, p, c[p]) && KeptBlock(t, d, t', d', i, p / BSIZE);
    }
  }

  /** off = ((off/BSIZE) + 1) * BSIZE. */
  function Rounded(size: nat): nat { (size / BSIZE + 1) * BSIZE }

  /** Rounding up the size of a file keeps the image consistent exactly when the size was not a
      multiple of the block size; the file then gains only zeros. */
  lemma {:induction false} RootRounded(sb: Super, f: nat, t: Table, d: Data, n: nat)
    requires n < |t| && FsInv(sb, FirstUsed(sb.size, f), t, d) && AllPadded(sb, f, t, d)
    ensures var bm, t' := FirstUsed(sb.size, f), t[n := t[n].(size := Rounded(t[n].size))];
      && NoHoles(t, d, n) && (FsInv(sb, bm, t', d) <==> t[n].size % BSIZE != 0)
      && (FsInv(sb, bm, t', d) ==> NoHoles(t', d, n) && Content(sb, bm, t', d, n) == Pad(Content(sb, bm, t, d, n)))
      && (FsInv(sb, bm, t', d) ==> forall i :: 0 <= i < |t| && i != n ==>
        NoHoles(t, d, i) && NoHoles(t', d, i) && Content(sb, bm, t', d, i) == Content(sb, bm, t, d, i))
  {
    hide Owned, OthersKept, StartsWith, Content;
    assert Padded(sb, f, t, d, n) && NoHoles(t, d, n);
    var bm, c, t' := FirstUsed(sb.size, f), Content(sb, FirstUsed(sb.size, f), t, d, n),
      t[n := t[n].(size := Rounded(t[n].size))];
    if t[n].size % BSIZE != 0 {
      assert Rounded(t[n].size) == |Pad(c)| && BlocksFor(|Pad(c)|) == BlocksFor(|c|);
      KeptSame(t, d, n);
      GrewOthersKept(t, d, t, d, n);
      Resized(sb, bm, t, d, t, d, n, BlocksFor(|c|), |Pad(c)|, Pad(c));
      forall i | 0 <= i < |t| && i != n
        ensures NoHoles(t, d, i) && NoHoles(t', d, i) && Content(sb, bm, t', d, i) == Content(sb, bm, t, d, i)
      {
        assert NoHoles(t, d, i) && NoHoles(t', d, i);
        OthersContent(sb, bm, t, d, bm, t', d, n, i);
      }
    } else {
      SizeIrrelevant(sb, bm, t, d, n, Rounded(t[n].size));
      var k := t[n].size / BSIZE;
      if k < MAXFILE {
        assert IsSlot(t, FileSlot(n, k)) && BlockOf(t', d, n, k) == BlockOf(t, d, n, k) == 0;
        assert BlocksFor(t'[n].size) == k + 1;
      }
      assert !NoHoles(t', d, n);
    }
  }

  /** A root directory of 32 entries fills its block: the rounded image has a hole. */
  lemma {:induction false} FullRootHasHole(sb: Super, f: nat, t: Table, d: Data)
    requires ROOTINO < |t| && FsInv(sb, FirstUsed(sb.size, f), t, d) && AllPadded(sb, f, t, d)
      && t[ROOTINO].size == 32 * 16
    ensures !FsInv(sb, FirstUsed(sb.size, f), t[ROOTINO := t[ROOTINO].(size := 1024)], d)
  {
    RootRounded(sb, f, t, d, ROOTINO);
  }

  lemma {:induction false} EmptyImage(sb: Super, t: Table, d: Data)
    requires 1 <= sb.nmeta <= sb.size < U32 && |d| == sb.size && forall n :: 0 <= n < |t| ==> t[n] == FreeDinode
    ensures FsInv(sb, FirstUsed(sb.size, sb.nmeta), t, d)
  {
    var bm := FirstUsed(sb.size, sb.nmeta);
    forall s | IsSlot(t, s) ensures Ref(t, d, s) == 0 {}
    forall b: nat ensures Accounted(sb, bm, t, d, b) {
      if s :| RefersTo(t, d, s, b) { assert b == 0; }
    }
    forall n: nat, k: nat | n < |t| && k < MAXFILE
      ensures BlockOf(t, d, n, k) == 0
    {
      assert IsSlot(t, FileSlot(n, k));
    }
  }
}
