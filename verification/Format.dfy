/** The bitmap and the inodes as bytes (fs.h:30-52): balloc, bfree, ialloc and iupdate on the
    blocks they work in.  What the rest of the file system sees is Marks(), one boolean per
    block, and Inodes(), one record per inode; each operation here does to those what its
    namesake in FileSys.Fs does to bitmap and dinodes. */
module Format {
  import opened Common
  import opened Blocks
  import opened FsSpec
  import opened FileSys

  // ----- the bitmap -----

  type Bytes8 = b: seq<bv8> | |b| == 512 witness seq(512, _ => 0)

  /** 1 << k. */
  function Mask(k: nat): bv8
    requires k < 8
  { 1 << k }

  /** The tests and stores on one byte. */
  predicate Has(x: bv8, m: bv8) { x & m != 0 }
  function Or(x: bv8, m: bv8): bv8 { x | m }
  function AndNot(x: bv8, m: bv8): bv8 { x & !m }

  lemma {:induction false} MaskIs(k: nat)
    requires k < 8
    ensures Mask(k) == [1, 2, 4, 8, 16, 32, 64, 128][k]
  {
    if k == 0 { assert 1 as bv8 << 0 == 1; }
    if k == 1 { assert 1 as bv8 << 1 == 2; }
    if k == 2 { assert 1 as bv8 << 2 == 4; }
    if k == 3 { assert 1 as bv8 << 3 == 8; }
    if k == 4 { assert 1 as bv8 << 4 == 16; }
    if k == 5 { assert 1 as bv8 << 5 == 32; }
    if k == 6 { assert 1 as bv8 << 6 == 64; }
    if k == 7 { assert 1 as bv8 << 7 == 128; }
  }

  lemma {:induction false} MasksDiffer(j: nat, k: nat)
    requires j < 8 && k < 8
    ensures Mask(k) != 0 && (j != k ==> Mask(j) & Mask(k) == 0)
  {
    MaskIs(j);
    MaskIs(k);
    hide Mask;
    Literals(j, k);
  }

  lemma {:induction false} Literals(j: nat, k: nat)
    requires j < 8 && k < 8
    ensures var ms: seq<bv8> := [1, 2, 4, 8, 16, 32, 64, 128]; ms[k] != 0 && (j != k ==> ms[j] & ms[k] == 0)
  {
  }

  lemma {:induction false} StoreBits(x: bv8, m: bv8, m': bv8)
    requires m != 0 && (m != m' ==> m & m' == 0)
    ensures Has(Or(x, m), m') <==> m == m' || Has(x, m')
    ensures Has(AndNot(x, m), m') <==> m != m' && Has(x, m')
  {
  }

  lemma {:induction false} SetBit(x: bv8, j: nat, k: nat)
    requires j < 8 && k < 8
    ensures Has(Or(x, Mask(j)), Mask(k)) <==> j == k || Has(x, Mask(k))
    ensures Has(AndNot(x, Mask(j)), Mask(k)) <==> j != k && Has(x, Mask(k))
  {
    hide Mask, Has, Or, AndNot;
    MasksDiffer(j, k);
    MasksDiffer(k, j);
    MaskTwice(Mask(j));
    StoreBits(x, Mask(j), Mask(k));
  }

  lemma {:induction false} MaskTwice(m: bv8)
    ensures m & m == m
  {
  }

  predicate Bit(b: Bytes8, i: nat)
    requires i < BPB
  { Has(b[i / 8], Mask(i % 8)) }

  predicate BitAt(bs: seq<Bytes8>, i: nat)
    requires i < |bs| * BPB
  { Bit(bs[i / BPB], i % BPB) }

  function Bits(bs: seq<Bytes8>, n: nat): seq<bool>
    requires n <= |bs| * BPB
  { seq(n, i requires 0 <= i < n => BitAt(bs, i)) }

  /** Byte i % BPB / 8 of block i / BPB, the one that holds bit i. */
  function ByteAt(bs: seq<Bytes8>, i: nat): bv8
    requires i < |bs| * BPB
  { bs[i / BPB][i % BPB / 8] }

  /** Bit i set or cleared. */
  function Stored(bs: seq<Bytes8>, i: nat, v: bool): seq<Bytes8>
    requires i < |bs| * BPB
  {
    var x := if v then Or(ByteAt(bs, i), Mask(i % 8)) else AndNot(ByteAt(bs, i), Mask(i % 8));
    bs[i / BPB := bs[i / BPB][i % BPB / 8 := x]]
  }

  /** Bit i is now v and every other bit of every bitmap block is as it was. */
  ghost predicate OnlyBit(bs: seq<Bytes8>, bs': seq<Bytes8>, i: nat, v: bool) {
    |bs'| == |bs| && forall j: nat :: j < |bs| * BPB ==> (BitAt(bs', j) <==> if j == i then v else BitAt(bs, j))
  }

  lemma {:induction false} StoredIs(bs: seq<Bytes8>, i: nat, v: bool, n: nat)
    requires i < n <= |bs| * BPB
    ensures OnlyBit(bs, Stored(bs, i, v), i, v) && Bits(Stored(bs, i, v), n) == Bits(bs, n)[i := v]
  {
    forall j: nat | j < |bs| * BPB
      ensures BitAt(Stored(bs, i, v), j) <==> if j == i then v else BitAt(bs, j)
    {
      StoredAt(bs, i, v, j);
    }
  }

  lemma {:induction false} StoredAt(bs: seq<Bytes8>, i: nat, v: bool, j: nat)
    requires i < |bs| * BPB && j < |bs| * BPB
    ensures BitAt(Stored(bs, i, v), j) <==> if j == i then v else BitAt(bs, j)
  {
    hide Mask, Has, Or, AndNot;
    Place(i);
    Place(j);
    SetBit(ByteAt(bs, i), i % 8, j % 8);
  }

  lemma {:induction false} Place(i: nat)
    ensures i % BPB % 8 == i % 8 && i == i / BPB * BPB + i % BPB / 8 * 8 + i % 8
  {
    assert i == 8 * (i / BPB * 512) + i % BPB;
  }

  class Bitmap {
    const size: nat
    var blocks: seq<Bytes8>

    constructor (n: nat, bs: seq<Bytes8>)
      requires n <= |bs| * BPB
      ensures size == n && blocks == bs
    {
      size, blocks := n, bs;
    }

    ghost predicate Valid()
      reads this
    { size <= |blocks| * BPB }

    /** Which blocks of the disk are taken. */
    ghost function Marks(): seq<bool>
      reads this
      requires Valid()
    { Bits(blocks, size) }

    lemma {:induction false} BitsAre()
      requires Valid()
      ensures |Marks()| == size && forall x: nat :: x < size ==> Marks()[x] == BitAt(blocks, x)
    {
    }

    /** The two loops of balloc: the first clear bit is set; ok is false for the panic. */
    method Balloc() returns (r: nat, ok: bool)
      requires Valid()
      modifies this`blocks
      ensures Valid()
      ensures !ok ==> blocks == old(blocks) && forall x :: 0 <= x < size ==> Marks()[x]
      ensures ok ==> r < size && !old(Marks())[r] && forall x :: 0 <= x < r ==> old(Marks())[x]
      ensures ok ==> Marks() == old(Marks())[r := true] && OnlyBit(old(blocks), blocks, r, true)
    {
      hide Mask, Has, Or, AndNot, OnlyBit, Bits;
      BitsAre();
      var b := 0;
      while b < size
        invariant b % BPB == 0 && blocks == old(blocks)
        invariant forall x: nat :: x < b && x < size ==> BitAt(blocks, x)
      {
        var bi := 0;
        while bi < BPB && b + bi < size
          invariant 0 <= bi <= BPB && blocks == old(blocks)
          invariant forall x: nat :: x < b + bi && x < size ==> BitAt(blocks, x)
        {
          var m := Mask(bi % 8);
          InBlock(b, bi);
          if !Has(blocks[b / BPB][bi / 8], m) {
            StoredIs(blocks, b + bi, true, size);
            blocks := blocks[b / BPB := blocks[b / BPB][bi / 8 := Or(blocks[b / BPB][bi / 8], m)]];
            return b + bi, true;
          }
          bi := bi + 1;
        }
        b := b + BPB;
      }
      return 0, false;
    }

    /** bfree: ok is false for the panic "freeing free block". */
    method Bfree(b: nat) returns (ok: bool)
      requires Valid() && b < size
      modifies this`blocks
      ensures Valid() && ok == old(Marks())[b]
      ensures ok ==> Marks() == old(Marks())[b := false] && OnlyBit(old(blocks), blocks, b, false)
      ensures !ok ==> blocks == old(blocks)
    {
      hide Mask, Has, Or, AndNot, OnlyBit;
      var bi := b % BPB;
      var m := Mask(bi % 8);
      Place(b);
      if !Has(blocks[b / BPB][bi / 8], m) { return false; }
      StoredIs(blocks, b, false, size);
      blocks := blocks[b / BPB := blocks[b / BPB][bi / 8 := AndNot(blocks[b / BPB][bi / 8], m)]];
      return true;
    }
  }

  lemma {:induction false} InBlock(b: nat, bi: nat)
    requires b % BPB == 0 && bi < BPB
    ensures (b + bi) / BPB == b / BPB && (b + bi) % BPB == bi && (b + bi) % 8 == bi % 8
  {
    BlockParts(b / BPB, bi);
    EightsParts(b / BPB, bi);
  }

  lemma {:induction false} BlockParts(q: nat, bi: nat)
    requires bi < BPB
    ensures (q * BPB + bi) / BPB == q && (q * BPB + bi) % BPB == bi
  {
  }

  lemma {:induction false} EightsParts(q: nat, bi: nat)
    ensures (q * BPB + bi) % 8 == bi % 8
  {
    var k, r := bi / 8, bi % 8;
    assert q * BPB + bi == 8 * (q * 512 + k) + r;
  }

  /** mkfs's balloc: the bitmap block with exactly the first `used` bits set. */
  method FirstBits(used: nat) returns (buf: Bytes8)
    requires used < BPB
    ensures forall j: nat :: j < BPB ==> (Bit(buf, j) <==> j < used)
  {
    hide Mask, Has, Or, AndNot;
    buf := seq(512, _ => 0);
    forall j: nat | j < BPB ensures !Bit(buf, j) { NoBits(j % 8); }
    var i := 0;
    while i < used
      invariant 0 <= i <= used && forall j: nat :: j < BPB ==> (Bit(buf, j) <==> j < i)
    {
      StoredIs([buf], i, true, BPB);
      ghost var was := buf;
      buf := buf[i / 8 := Or(buf[i / 8], Mask(i % 8))];
      assert Stored([was], i, true) == [buf];
      forall j: nat | j < BPB ensures Bit(buf, j) <==> j < i + 1 {
        assert BitAt([buf], j) == Bit(buf, j) && BitAt([was], j) == Bit(was, j);
      }
      i := i + 1;
    }
  }

  lemma {:induction false} NoBits(k: nat)
    requires k < 8
    ensures !Has(0, Mask(k))
  {
    hide Mask;
  }

  // ----- inodes -----

  /** Bytes as a number, least significant first. */
  function Little(s: seq<byte>): nat { if s == [] then 0 else s[0] + 256 * Little(s[1..]) }

  /** The n bytes of v, least significant first. */
  function Bytes(v: nat, n: nat): (s: seq<byte>)
    ensures |s| == n
  { if n == 0 then [] else [v % 256] + Bytes(v / 256, n - 1) }

  /** 256 to the power n. */
  function Pow(n: nat): nat { if n == 0 then 1 else 256 * Pow(n - 1) }

  lemma {:induction false} PowWord()
    ensures Pow(4) == U32
  {
    assert Pow(1) == 256 && Pow(2) == 256 * Pow(1) && Pow(3) == 256 * Pow(2);
  }

  lemma {:induction false} LittleSmall(s: seq<byte>)
    ensures Little(s) < Pow(|s|)
  {
    if s != [] { LittleSmall(s[1..]); }
  }

  /** Numbers survive being split into enough bytes. */
  lemma {:induction false} LittleBytes(v: nat, n: nat)
    requires v < Pow(n)
    ensures Little(Bytes(v, n)) == v
  {
    if n > 0 {
      LittleBytes(v / 256, n - 1);
      assert Bytes(v, n)[1..] == Bytes(v / 256, n - 1);
    }
  }

  /** Bytes of a struct dinode. */
  const DINODE: nat := 64

  /** The values the fields of a struct dinode can take. */
  predicate Storable(d: Dinode) {
    && d.typ < 0x1_0000 && d.major < 0x1_0000 && d.minor < 0x1_0000 && d.nlink < 0x1_0000 && d.size < U32
    && forall i :: 0 <= i < 13 ==> d.addrs[i] < U32
  }

  function Words(ws: seq<nat>): (s: seq<byte>)
    ensures |s| == 4 * |ws|
  { if ws == [] then [] else Words(ws[..|ws| - 1]) + Bytes(ws[|ws| - 1], 4) }

  /** The fields that come before addrs, two bytes each but for size. */
  function Fields(d: Dinode): (s: seq<byte>)
    ensures |s| == 12
  { Bytes(d.typ, 2) + Bytes(d.major, 2) + Bytes(d.minor, 2) + Bytes(d.nlink, 2) + Bytes(d.size, 4) }

  function Packed(d: Dinode): (s: seq<byte>)
    ensures |s| == DINODE
  { Fields(d) + Words(d.addrs) }

  function Unpacked(s: seq<byte>): Dinode
    requires |s| == DINODE
  {
    Dinode(Little(s[0..2]), Little(s[2..4]), Little(s[4..6]), Little(s[6..8]), Little(s[8..12]),
           seq(13, i requires 0 <= i < 13 => Little(s[12 + 4 * i..16 + 4 * i])))
  }

  lemma {:induction false} WordsAt(ws: seq<nat>, i: nat)
    requires i < |ws| && ws[i] < U32
    ensures Little(Words(ws)[4 * i..4 * i + 4]) == ws[i]
  {
    var n := |ws| - 1;
    if i < n {
      WordsAt(ws[..n], i);
      assert Words(ws)[4 * i..4 * i + 4] == Words(ws[..n])[4 * i..4 * i + 4];
    } else {
      PowWord();
      LittleBytes(ws[n], 4);
      assert Words(ws)[4 * i..4 * i + 4] == Bytes(ws[n], 4);
    }
  }

  /** What is stored in an inode comes back. */
  lemma {:induction false} UnpackPacked(d: Dinode)
    requires Storable(d)
    ensures Unpacked(Packed(d)) == d
  {
    hide Little, Bytes, Words;
    var s := Packed(d);
    PowShort();
    PowWord();
    LittleBytes(d.typ, 2);
    LittleBytes(d.major, 2);
    LittleBytes(d.minor, 2);
    LittleBytes(d.nlink, 2);
    LittleBytes(d.size, 4);
    assert s[0..2] == Bytes(d.typ, 2) && s[2..4] == Bytes(d.major, 2) && s[4..6] == Bytes(d.minor, 2);
    assert s[6..8] == Bytes(d.nlink, 2) && s[8..12] == Bytes(d.size, 4);
    forall i | 0 <= i < 13 ensures Little(s[12 + 4 * i..16 + 4 * i]) == d.addrs[i] {
      WordsAt(d.addrs, i);
      assert s[12 + 4 * i..16 + 4 * i] == Words(d.addrs)[4 * i..4 * i + 4];
    }
  }

  lemma {:induction false} PowShort()
    ensures Pow(2) == 0x1_0000
  {
    assert Pow(1) == 256;
  }

  /** x written at offset o. */
  function Put(b: Block, o: nat, x: seq<byte>): Block
    requires o + |x| <= BSIZE
  { b[..o] + x + b[o + |x|..] }

  lemma {:induction false} PutTwice(b: Block, o: nat, x: seq<byte>, y: seq<byte>)
    requires o + |x| + |y| <= BSIZE
    ensures Put(Put(b, o, x), o + |x|, y) == Put(b, o, x + y)
  {
  }

  /** The six stores of iupdate make the record. */
  lemma {:induction false} PutFields(b: Block, o: nat, d: Dinode)
    requires o + DINODE <= BSIZE
    ensures var b3 := Put(Put(Put(b, o, Bytes(d.typ, 2)), o + 2, Bytes(d.major, 2)), o + 4, Bytes(d.minor, 2));
      Put(Put(Put(b3, o + 6, Bytes(d.nlink, 2)), o + 8, Bytes(d.size, 4)), o + 12, Words(d.addrs)) ==
        Put(b, o, Packed(d))
  {
    hide Bytes, Words, Put;
    var x := Bytes(d.typ, 2);
    PutTwice(b, o, x, Bytes(d.major, 2));
    x := x + Bytes(d.major, 2);
    PutTwice(b, o, x, Bytes(d.minor, 2));
    x := x + Bytes(d.minor, 2);
    PutTwice(b, o, x, Bytes(d.nlink, 2));
    x := x + Bytes(d.nlink, 2);
    PutTwice(b, o, x, Bytes(d.size, 4));
    x := x + Bytes(d.size, 4);
    PutTwice(b, o, x, Words(d.addrs));
  }

  function InodeIn(b: Block, k: nat): Dinode
    requires k < IPB
  { Unpacked(b[DINODE * k..DINODE * k + DINODE]) }

  function InodeAt(bs: seq<Block>, n: nat): Dinode
    requires n < |bs| * IPB
  { InodeIn(bs[n / IPB], n % IPB) }

  /** Storing a record in its place changes that inode only. */
  lemma {:induction false} PutInode(b: Block, k: nat, d: Dinode, j: nat)
    requires k < IPB && j < IPB && Storable(d)
    ensures InodeIn(Put(b, DINODE * k, Packed(d)), j) == if j == k then d else InodeIn(b, j)
  {
    hide Unpacked, Packed;
    var b' := Put(b, DINODE * k, Packed(d));
    if j == k {
      assert b'[DINODE * k..DINODE * k + DINODE] == Packed(d);
      UnpackPacked(d);
    } else {
      assert b'[DINODE * j..DINODE * j + DINODE] == b[DINODE * j..DINODE * j + DINODE];
    }
  }

  function InodesIn(bs: seq<Block>, n: nat): seq<Dinode>
    requires n <= |bs| * IPB
  { seq(n, i requires 0 <= i < n => InodeAt(bs, i)) }

  lemma {:induction false} PutInBlocks(bs: seq<Block>, n: nat, inum: nat, d: Dinode)
    requires inum < n <= |bs| * IPB && Storable(d)
    ensures var k := inum / IPB;
      InodesIn(bs[k := Put(bs[k], DINODE * (inum % IPB), Packed(d))], n) == InodesIn(bs, n)[inum := d]
  {
    hide InodeIn, Put, Packed;
    var k := inum / IPB;
    forall i | 0 <= i < n && i / IPB == k
      ensures InodeIn(Put(bs[k], DINODE * (inum % IPB), Packed(d)), i % IPB) == if i == inum then d else InodeAt(bs, i)
    {
      PutInode(bs[k], inum % IPB, d, i % IPB);
    }
  }

  /** A new inode: zero but for its type. */
  function Cleared(typ: nat): Dinode { Dinode(typ, 0, 0, 0, 0, seq(13, _ => 0)) }

  lemma {:induction false} ZeroBytes(n: nat)
    ensures Bytes(0, n) == seq(n, _ => 0)
  {
    if n > 0 { ZeroBytes(n - 1); }
  }

  lemma {:induction false} ZeroWords(n: nat)
    ensures Words(seq(n, _ => 0)) == seq(4 * n, _ => 0)
  {
    if n > 0 {
      var ws: seq<nat> := seq(n, _ => 0);
      assert ws[..n - 1] == seq(n - 1, _ => 0);
      ZeroWords(n - 1);
      ZeroBytes(4);
    }
  }

  /** Clearing the record and storing the type is storing the new inode. */
  lemma {:induction false} ClearedIs(b: Block, o: nat, typ: nat)
    requires o + DINODE <= BSIZE
    ensures Put(Put(b, o, seq(DINODE, _ => 0)), o, Bytes(typ, 2)) == Put(b, o, Packed(Cleared(typ)))
  {
    hide Bytes, Words;
    ZeroBytes(2);
    ZeroBytes(4);
    ZeroWords(13);
    assert Packed(Cleared(typ)) == Bytes(typ, 2) + seq(62, _ => 0);
  }

  class InodeBlocks {
    const ninodes: nat
    var blocks: seq<Block>

    constructor (n: nat, bs: seq<Block>)
      requires n <= |bs| * IPB
      ensures ninodes == n && blocks == bs
    {
      ninodes, blocks := n, bs;
    }

    ghost predicate Valid()
      reads this
    { ninodes <= |blocks| * IPB }

    ghost function Inodes(): seq<Dinode>
      reads this
      requires Valid()
    { InodesIn(blocks, ninodes) }

    /** iupdate: the fields one after the other, then the addresses. */
    method Iupdate(inum: nat, d: Dinode)
      requires Valid() && inum < ninodes && Storable(d)
      modifies this`blocks
      ensures Valid() && |blocks| == |old(blocks)| && Inodes() == old(Inodes())[inum := d]
      ensures forall i :: 0 <= i < |blocks| && i != inum / IPB ==> blocks[i] == old(blocks)[i]
    {
      hide Bytes, Words, InodesIn, Put, Packed;
      var k, o := inum / IPB, DINODE * (inum % IPB);
      var b := blocks[k];
      b := Put(b, o, Bytes(d.typ, 2));
      b := Put(b, o + 2, Bytes(d.major, 2));
      b := Put(b, o + 4, Bytes(d.minor, 2));
      b := Put(b, o + 6, Bytes(d.nlink, 2));
      b := Put(b, o + 8, Bytes(d.size, 4));
      b := Put(b, o + 12, Words(d.addrs));
      PutFields(blocks[k], o, d);
      PutInBlocks(blocks, ninodes, inum, d);
      blocks := blocks[k := b];
    }

    /** ialloc: the first inode from 1 on whose type is 0, cleared and typed; None for the panic. */
    method Ialloc(typ: nat) returns (r: Option<nat>)
      requires Valid() && 0 < typ < 0x1_0000
      modifies this`blocks
      ensures Valid()
      ensures r.None? ==> blocks == old(blocks) && forall i :: 1 <= i < ninodes ==> Inodes()[i].typ != 0
      ensures r.Some? ==> 1 <= r.value < ninodes && old(Inodes())[r.value].typ == 0
      ensures r.Some? ==> forall i :: 1 <= i < r.value ==> old(Inodes())[i].typ != 0
      ensures r.Some? ==> Inodes() == old(Inodes())[r.value := Cleared(typ)]
    {
      hide Bytes, Words, Put, Packed, InodeIn;
      var inum := 1;
      while inum < ninodes
        invariant 1 <= inum && blocks == old(blocks)
        invariant forall i :: 1 <= i < inum && i < ninodes ==> InodeAt(blocks, i).typ != 0
      {
        var k, o := inum / IPB, DINODE * (inum % IPB);
        var b := blocks[k];
        TypeAt(b, inum % IPB);
        if Little(b[o..o + 2]) == 0 {
          b := Put(b, o, seq(DINODE, _ => 0));
          b := Put(b, o, Bytes(typ, 2));
          ClearedIs(blocks[k], o, typ);
          PutInBlocks(blocks, ninodes, inum, Cleared(typ));
          blocks := blocks[k := b];
          return Some(inum);
        }
        inum := inum + 1;
      }
      return None;
    }
  }

  lemma {:induction false} TypeAt(b: Block, k: nat)
    requires k < IPB
    ensures InodeIn(b, k).typ == Little(b[DINODE * k..DINODE * k + 2])
  {
    assert b[DINODE * k..DINODE * k + DINODE][0..2] == b[DINODE * k..DINODE * k + 2];
  }

  // ----- the file system and its bytes -----

  /** The bitmap and inode blocks hold the file system's bits and inodes. */
  ghost predicate InStep(fs: Fs, bm: Bitmap, ib: InodeBlocks)
    reads fs, bm, ib
  { bm.Valid() && ib.Valid() && bm.Marks() == fs.bitmap && ib.Inodes() == fs.dinodes }

  /** balloc on booleans and on bytes: the same block, and still in step. */
  method BallocInStep(fs: Fs, bm: Bitmap, ib: InodeBlocks) returns (r: nat, r': nat, ok: bool, ok': bool)
    requires InStep(fs, bm, ib) && |fs.bitmap| == |fs.data| == fs.sb.size
    modifies fs, bm
    ensures ok == ok' && (ok ==> r == r') && InStep(fs, bm, ib)
    ensures if ok then r < fs.sb.size && !old(fs.bitmap)[r] && fs.bitmap == old(fs.bitmap)[r := true]
            else fs.bitmap == old(fs.bitmap) && forall x :: 0 <= x < fs.sb.size ==> fs.bitmap[x]
    ensures ok ==> forall x :: 0 <= x < r ==> old(fs.bitmap)[x]
  {
    hide OnlyBit, InodesIn;
    ghost var was := fs.bitmap;
    r, ok := fs.Balloc();
    r', ok' := bm.Balloc();
    assert ok ==> !was[r] && forall x :: 0 <= x < r ==> was[x];
    assert ok' ==> !was[r'] && forall x :: 0 <= x < r' ==> was[x];
    assert !ok ==> forall x :: 0 <= x < |was| ==> was[x];
    assert !ok' ==> bm.Marks() == was && forall x :: 0 <= x < |was| ==> was[x];
    assert ok == ok' && (ok ==> r == r');
  }

  /** bfree likewise: both panic or neither. */
  method BfreeInStep(fs: Fs, bm: Bitmap, ib: InodeBlocks, b: nat) returns (ok: bool, ok': bool)
    requires InStep(fs, bm, ib) && b < |fs.bitmap|
    modifies fs, bm
    ensures ok == ok' == old(fs.bitmap)[b] && InStep(fs, bm, ib) && fs.bitmap == old(fs.bitmap)[b := false]
  {
    hide OnlyBit, InodesIn;
    ok := fs.Bfree(b);
    ok' := bm.Bfree(b);
  }

  method IupdateInStep(fs: Fs, bm: Bitmap, ib: InodeBlocks, ip: Inode)
    requires InStep(fs, bm, ib) && ip.inum < |fs.dinodes| && Storable(ip.din)
    modifies fs, ib
    ensures InStep(fs, bm, ib) && fs.dinodes == old(fs.dinodes)[ip.inum := ip.din]
  {
    hide Bits;
    fs.Iupdate(ip);
    ib.Iupdate(ip.inum, ip.din);
  }

  method IallocInStep(fs: Fs, bm: Bitmap, ib: InodeBlocks, typ: nat) returns (r: Option<nat>, r': Option<nat>)
    requires InStep(fs, bm, ib) && fs.Consistent() && 0 < typ < 0x1_0000
    modifies fs, ib
    ensures r == r' && InStep(fs, bm, ib)
    ensures if r.Some? then 1 <= r.value < |old(fs.dinodes)| && old(fs.dinodes)[r.value].typ == 0
              && fs.dinodes == old(fs.dinodes)[r.value := Cleared(typ)]
            else fs.dinodes == old(fs.dinodes) && forall i :: 1 <= i < |fs.dinodes| ==> fs.dinodes[i].typ != 0
    ensures r.Some? ==> forall i :: 1 <= i < r.value ==> old(fs.dinodes)[i].typ != 0
  {
    hide Bits, FsInv, OthersKept;
    ghost var was := fs.dinodes;
    r := fs.Ialloc(typ);
    r' := ib.Ialloc(typ);
    assert r.Some? ==> was[r.value].typ == 0 && forall i :: 1 <= i < r.value ==> was[i].typ != 0;
    assert r'.Some? ==> was[r'.value].typ == 0 && forall i :: 1 <= i < r'.value ==> was[i].typ != 0;
    assert r.None? ==> forall i :: 1 <= i < |was| ==> was[i].typ != 0;
    assert r'.None? ==> ib.Inodes() == was && forall i :: 1 <= i < |was| ==> was[i].typ != 0;
    assert r == r';
  }
}
