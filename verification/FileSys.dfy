/** Files (fs.c, file.c, sys_lseek in sysfile.c): block allocation, the block map, truncation
    and byte-range reads and writes. */
module FileSys {
  import opened Common
  import opened Blocks
  import opened FsSpec

  function BBlock(sb: Super, b: nat): nat { b / BPB + sb.bmapstart }
  function IBlock(sb: Super, n: nat): nat { n / IPB + sb.inodestart }

  /** An in-memory inode. */
  class Inode {
    const inum: nat
    var din: Dinode

    constructor (n: nat, d: Dinode)
      ensures inum == n && din == d
    {
      inum, din := n, d;
    }
  }

  /** The file system as an operation sees it through the log: bitmap bits, on-disk inodes
      and block contents. */
  class Fs {
    const sb: Super
    var bitmap: seq<bool>
    var dinodes: Table
    var data: Data
    /** Distinct blocks passed to log_write since begin_op. */
    var logged: set<nat>

    constructor (s: Super, bm: seq<bool>, t: Table, d: Data)
      ensures sb == s && bitmap == bm && dinodes == t && data == d && logged == {}
    {
      sb, bitmap, dinodes, data, logged := s, bm, t, d, {};
    }

    /** The inode table with the in-memory copy of ip in its place. */
    ghost function Tab(ip: Inode): Table
      reads this`dinodes, ip`din
      requires ip.inum < |dinodes|
    { dinodes[ip.inum := ip.din] }

    /** balloc: the first free block, zeroed; ok is false for the panic. */
    method Balloc() returns (r: nat, ok: bool)
      requires |bitmap| == |data| == sb.size
      modifies this`bitmap, this`data, this`logged
      ensures !ok ==> bitmap == old(bitmap) && data == old(data) && logged == old(logged)
      ensures !ok ==> forall x :: 0 <= x < sb.size ==> bitmap[x]
      ensures ok ==> r < sb.size && !old(bitmap)[r] && forall x :: 0 <= x < r ==> old(bitmap)[x]
      ensures ok ==> bitmap == old(bitmap)[r := true] && data == old(data)[r := Zero()]
      ensures ok ==> logged == old(logged) + {BBlock(sb, r), r}
      ensures Took(old(bitmap), bitmap, 1, ok)
    {
      var b := 0;
      while b < sb.size
        invariant b % BPB == 0 && bitmap == old(bitmap) && data == old(data) && logged == old(logged)
        invariant forall x :: 0 <= x < b && x < sb.size ==> bitmap[x]
      {
        var bi := 0;
        while bi < BPB && b + bi < sb.size
          invariant 0 <= bi <= BPB && bitmap == old(bitmap) && data == old(data) && logged == old(logged)
          invariant forall x :: 0 <= x < b + bi && x < sb.size ==> bitmap[x]
        {
          if !bitmap[b + bi] {
            assert (b + bi) / BPB == b / BPB;
            OneTaken(bitmap, b + bi);
            bitmap := bitmap[b + bi := true];
            logged := logged + {BBlock(sb, b)};
            data := data[b + bi := Zero()];
            logged := logged + {b + bi};
            return b + bi, true;
          }
          bi := bi + 1;
        }
        b := b + BPB;
      }
      NoneClear(bitmap);
      return 0, false;
    }

    /** bfree: ok is false for the panic "freeing free block". */
    method Bfree(b: nat) returns (ok: bool)
      requires b < |bitmap|
      modifies this`bitmap, this`logged
      ensures ok == old(bitmap)[b]
      ensures ok ==> bitmap == old(bitmap)[b := false] && logged == old(logged) + {BBlock(sb, b)}
      ensures !ok ==> bitmap == old(bitmap) && logged == old(logged)
      ensures ok ==> ClearBits(bitmap) == ClearBits(old(bitmap)) + 1
    {
      if !bitmap[b] { return false; }
      OneTaken(bitmap[b := false], b);
      assert bitmap[b := false][b := true] == bitmap;
      bitmap, logged := bitmap[b := false], logged + {BBlock(sb, b)};
      return true;
    }

    /** iupdate. */
    method Iupdate(ip: Inode)
      requires ip.inum < |dinodes|
      modifies this`dinodes, this`logged
      ensures dinodes == old(dinodes)[ip.inum := ip.din] && logged == old(logged) + {IBlock(sb, ip.inum)}
    {
      dinodes, logged := dinodes[ip.inum := ip.din], logged + {IBlock(sb, ip.inum)};
    }

    /** What holds while an operation works on ip, m of whose blocks are mapped so far. */
    ghost predicate Working(ip: Inode, m: nat)
      reads this`dinodes, this`bitmap, this`data, ip`din
    {
      && ip.inum < |dinodes| && ip.din.size <= MAXBYTES && BlocksFor(ip.din.size) <= m
      && Owned(sb, bitmap, Tab(ip), data) && Mapped(Tab(ip), data, ip.inum, m)
      && forall n :: 0 <= n < |dinodes| && n != ip.inum ==> NoHoles(Tab(ip), data, n)
    }

    lemma {:induction false} WorkingSays(ip: Inode, m: nat)
      requires Working(ip, m)
      ensures ip.inum < |dinodes| && ip.din.size <= MAXBYTES && BlocksFor(ip.din.size) <= m
        && Mapped(Tab(ip), data, ip.inum, m)
      ensures Owned(sb, bitmap, Tab(ip), data) && forall n :: 0 <= n < |dinodes| && n != ip.inum ==>
        NoHoles(Tab(ip), data, n)
    {
    }

    lemma {:induction false} MakeSettled(ip: Inode)
      requires ip.inum < |dinodes| && ip.din.size <= MAXBYTES && Mapped(Tab(ip), data, ip.inum, BlocksFor(ip.din.size))
      requires Owned(sb, bitmap, Tab(ip), data) && forall n :: 0 <= n < |dinodes| && n != ip.inum ==>
        NoHoles(Tab(ip), data, n)
      ensures Settled(ip)
    {
    }

    /** What an allocating step leaves alone: every mapped block, every other inode. */
    ghost predicate Grew(t: Table, d: Data, ip: Inode)
      reads this`dinodes, this`bitmap, this`data, ip`din
    {
      ip.inum < |dinodes| && Kept(t, d, Tab(ip), data) && OthersSame(t, d, Tab(ip), data, ip.inum)
    }

    /** balloc for a direct slot. */
    method AllocDirect(ip: Inode, bn: nat, ghost m: nat) returns (addr: nat, ok: bool)
      requires Working(ip, m) && bn == m < NDIRECT
      modifies this`bitmap, this`data, this`logged, ip`din
      ensures ok ==> Working(ip, m + 1) && addr == BlockOf(Tab(ip), data, ip.inum, bn) && 0 < addr < |data|
      ensures ok ==> Grew(old(Tab(ip)), old(data), ip) && data[addr] == Zero()
      ensures ok ==>
        ip.din == old(ip.din).(addrs := old(ip.din).addrs[bn := addr])
        && logged == old(logged) + {BBlock(sb, addr), addr}
      ensures ok ==> AllLogged(sb, old(bitmap), old(data), old(logged), bitmap, data, logged)
      ensures Took(old(bitmap), bitmap, 1, ok)
    {
      ghost var t, d, bm := Tab(ip), data, bitmap;
      addr, ok := Balloc();
      if !ok { return; }
      hide Owned, Kept, OthersSame, OneChange, FirstMapped, AllLogged, Took;
      BallocLogs(sb, bm, d, old(logged), addr);
      ip.din := ip.din.(addrs := ip.din.addrs[bn := addr]);
      assert Tab(ip) == WithAddr(t, ip.inum, bn, addr);
      AppendDirect(sb, bm, t, d, ip.inum, m, addr);
    }

    /** balloc for the indirect block: on the way to mapping block NDIRECT. */
    method AllocIndirect(ip: Inode, ghost m: nat) returns (ok: bool)
      requires Working(ip, m) && m == NDIRECT
      modifies this`bitmap, this`data, this`logged, ip`din
      ensures ok ==> HalfWay(ip) && Grew(old(Tab(ip)), old(data), ip)
      ensures ok ==> ip.din == old(ip.din).(addrs := old(ip.din).addrs[NDIRECT := ip.din.addrs[NDIRECT]])
      ensures ok ==> logged == old(logged) + {BBlock(sb, ip.din.addrs[NDIRECT]), ip.din.addrs[NDIRECT]}
      ensures ok ==> AllLogged(sb, old(bitmap), old(data), old(logged), bitmap, data, logged)
      ensures Took(old(bitmap), bitmap, 1, ok)
    {
      ghost var t, d, bm := Tab(ip), data, bitmap;
      var addr;
      addr, ok := Balloc();
      if !ok { return; }
      hide Owned, Kept, OthersSame, OneChange, FirstMapped, AllLogged, Took;
      BallocLogs(sb, bm, d, old(logged), addr);
      ip.din := ip.din.(addrs := ip.din.addrs[NDIRECT := addr]);
      assert Tab(ip) == WithAddr(t, ip.inum, NDIRECT, addr);
      AppendIndirect(sb, bm, t, d, ip.inum, addr);
    }

    /** Twelve blocks mapped and the indirect block present but empty. */
    ghost predicate HalfWay(ip: Inode)
      reads this`dinodes, this`bitmap, this`data, ip`din
    {
      && ip.inum < |dinodes| && ip.din.size <= MAXBYTES && BlocksFor(ip.din.size) <= NDIRECT
      && Owned(sb, bitmap, Tab(ip), data) && FirstMapped(Tab(ip), data, ip.inum, NDIRECT) && ip.din.addrs[NDIRECT] != 0
      && forall n :: 0 <= n < |dinodes| && n != ip.inum ==> NoHoles(Tab(ip), data, n)
    }

    /** balloc for an entry of the indirect block. */
    method AllocEntry(ip: Inode, bn: nat, ghost m: nat) returns (addr: nat, ok: bool)
      requires bn == m < MAXFILE && m >= NDIRECT
      requires if m == NDIRECT then HalfWay(ip) else Working(ip, m)
      modifies this`bitmap, this`data, this`logged
      ensures ok ==> Working(ip, m + 1) && addr == BlockOf(Tab(ip), data, ip.inum, bn) && 0 < addr < |data|
      ensures ok ==> Grew(old(Tab(ip)), old(data), ip) && data[addr] == Zero()
      ensures ok ==> logged == old(logged) + {BBlock(sb, addr), addr} + {ip.din.addrs[NDIRECT]}
      ensures ok ==> AllLogged(sb, old(bitmap), old(data), old(logged), bitmap, data, logged)
      ensures Took(old(bitmap), bitmap, 1, ok)
    {
      ghost var t, d, bm := Tab(ip), data, bitmap;
      IndirectInRange(ip, m);
      addr, ok := Balloc();
      if !ok { return; }
      hide Owned, Kept, OthersSame, OneChange, FirstMapped, AllLogged, Took;
      AppendEntry(sb, bm, t, d, ip.inum, m, addr);
      var a := ip.din.addrs[NDIRECT];
      BallocLogs(sb, bm, d, old(logged), addr);
      StoreLogs(sb, bm, d, old(logged), bitmap, data, logged, a, SetWord(data[a], bn - NDIRECT, addr));
      data := data[a := SetWord(data[a], bn - NDIRECT, addr)];
      logged := logged + {a};
    }

    lemma {:induction false} IndirectInRange(ip: Inode, m: nat)
      requires m >= NDIRECT && if m == NDIRECT then HalfWay(ip) else Working(ip, m)
      ensures 0 < ip.din.addrs[NDIRECT] < |data| && |bitmap| == |data| == sb.size < U32
    {
      assert RefOk(sb, bitmap, Tab(ip), data, Indirect(ip.inum));
    }

    /** bmap: the address of block bn of ip, allocating it if bn is the next block to map.
        ok is false for the panic in balloc. */
    method Bmap(ip: Inode, bn: nat, ghost m: nat) returns (addr: nat, ok: bool)
      requires Working(ip, m) && bn <= m && bn < MAXFILE
      modifies this`bitmap, this`data, this`logged, ip`din
      ensures ok ==> Working(ip, if bn < m then m else m + 1) && Grew(old(Tab(ip)), old(data), ip)
      ensures ok ==> addr == BlockOf(Tab(ip), data, ip.inum, bn) && 0 < addr < |data|
      ensures ok ==> ip.din == old(ip.din).(addrs := ip.din.addrs)
      ensures ok && old(ip.din).addrs[NDIRECT] != 0 ==> ip.din.addrs[NDIRECT] == old(ip.din).addrs[NDIRECT]
      ensures bn < m ==>
        ok && bitmap == old(bitmap) && data == old(data) && logged == old(logged) && ip.din == old(ip.din)
      ensures ok && bn == m ==> data[addr] == Zero()
      ensures ok && bn == m ==> logged <= old(logged) + {addr, BBlock(sb, addr)} + IndirectOf(ip) + NewIndirect(ip, bn)
      ensures ok ==> AllLogged(sb, old(bitmap), old(data), old(logged), bitmap, data, logged)
      ensures Took(old(bitmap), bitmap, NewBlocks(m, if bn < m then m else m + 1), ok)
    {
      hide Owned, Kept, OthersSame, OneChange, FirstMapped, BlocksFor, AllLogged, Took;
      NothingToLog(sb, bitmap, data, logged);
      NoneTaken(bitmap);
      addr := 0;
      if bn < NDIRECT {
        addr := ip.din.addrs[bn];
        MappedSlot(ip, bn, m);
        if addr == 0 {
          addr, ok := AllocDirect(ip, bn, m);
          return;
        }
        SameGrew(ip);
        return addr, true;
      }
      ghost var t, d := Tab(ip), data;
      SameGrew(ip);
      if ip.din.addrs[NDIRECT] == 0 {
        ok := AllocIndirect(ip, m);
        if !ok {
          StillShort(old(bitmap), bitmap, 1, 2);
          return;
        }
      }
      ghost var t1, d1, bm1, l1 := Tab(ip), data, bitmap, logged;
      if bn < m {
        MappedSlot(ip, bn, m);
      } else {
        EmptySlot(ip, m);
      }
      addr := Word(data[ip.din.addrs[NDIRECT]], bn - NDIRECT);
      if addr == 0 {
        addr, ok := AllocEntry(ip, bn, m);
        TookThen(old(bitmap), bm1, bitmap, if m == NDIRECT then 1 else 0, 1, ok);
        if !ok { return; }
        KeptTrans(t, d, t1, d1, Tab(ip), data, ip.inum);
        LoggedTrans(sb, old(bitmap), d, old(logged), bm1, d1, l1, bitmap, data, logged);
      }
      ok := true;
    }

    /** The indirect block of ip, if it has one. */
    ghost function IndirectOf(ip: Inode): set<nat>
      reads ip
    { if ip.din.addrs[NDIRECT] == 0 then {} else {ip.din.addrs[NDIRECT]} }

    /** Blocks logged for a new indirect block. */
    ghost function NewIndirect(ip: Inode, bn: nat): set<nat>
      reads ip
    { if bn == NDIRECT then {BBlock(sb, ip.din.addrs[NDIRECT])} else {} }

    lemma {:induction false} MappedSlot(ip: Inode, bn: nat, m: nat)
      requires Working(ip, m) && bn < MAXFILE
      ensures BlockOf(Tab(ip), data, ip.inum, bn) < |data| && (BlockOf(Tab(ip), data, ip.inum, bn) != 0 <==> bn < m)
      ensures bn < NDIRECT ==> BlockOf(Tab(ip), data, ip.inum, bn) == ip.din.addrs[bn]
      ensures bn >= NDIRECT && bn < m ==> 0 < ip.din.addrs[NDIRECT] < |data|
      ensures bn >= NDIRECT && bn < m ==>
        BlockOf(Tab(ip), data, ip.inum, bn) == Word(data[ip.din.addrs[NDIRECT]], bn - NDIRECT)
    {
      InRange(sb, bitmap, Tab(ip), data, ip.inum, bn);
      assert RefOk(sb, bitmap, Tab(ip), data, Indirect(ip.inum));
    }

    lemma {:induction false} EmptySlot(ip: Inode, m: nat)
      requires NDIRECT <= m < MAXFILE && if m == NDIRECT then HalfWay(ip) else Working(ip, m)
      ensures 0 < ip.din.addrs[NDIRECT] < |data| && Word(data[ip.din.addrs[NDIRECT]], m - NDIRECT) == 0
    {
      assert BlockOf(Tab(ip), data, ip.inum, m) == 0;
      assert RefOk(sb, bitmap, Tab(ip), data, Indirect(ip.inum));
    }

    lemma {:induction false} SameGrew(ip: Inode)
      requires ip.inum < |dinodes|
      ensures Grew(Tab(ip), data, ip)
    {
    }

    /** Between operations: the inode in memory has no holes. */
    ghost predicate Settled(ip: Inode)
      reads this`dinodes, this`bitmap, this`data, ip`din
    { Working(ip, BlocksFor(ip.din.size)) }

    ghost function ContentOf(ip: Inode): (c: seq<byte>)
      reads this`dinodes, this`bitmap, this`data, ip`din
      requires Settled(ip)
      ensures |c| == ip.din.size
    { Content(sb, bitmap, Tab(ip), data, ip.inum) }

    /** readi on a file or directory.  It returns the bytes asked for that exist, or None for
        -1, and changes nothing: no block is ever allocated by a read. */
    method Readi(ip: Inode, off: word, n: word) returns (r: Option<seq<byte>>)
      requires Settled(ip)
      modifies this`bitmap, this`data, this`logged, ip`din
      ensures bitmap == old(bitmap) && data == old(data) && logged == old(logged) && ip.din == old(ip.din)
      ensures r == FlatRead(old(ContentOf(ip)), off, n)
    {
      hide Owned, Kept, OthersSame, Mapped, NoHoles, Grew, BlocksFor, Content, Working, FlatRead;
      WorkingSays(ip, BlocksFor(ip.din.size));
      ReadRange(ContentOf(ip), off, n);
      var size := ip.din.size;
      ghost var c, m := ContentOf(ip), BlocksFor(size);
      if off > size || (off + n) % U32 < off { return None; }
      var want := if (off + n) % U32 > size then size - off else n;
      var dst := [];
      var tot := 0;
      while tot < want
        invariant 0 <= tot <= want && dst == c[off..off + tot]
        invariant bitmap == old(bitmap) && data == old(data) && logged == old(logged) && ip.din == old(ip.din)
      {
        var o := off + tot;
        BlockWithin(o, size);
        var addr, ok := Bmap(ip, o / BSIZE, m);
        var k := if want - tot < BSIZE - o % BSIZE then want - tot else BSIZE - o % BSIZE;
        SliceOfBlock(ip, o, k);
        dst := dst + data[addr][o % BSIZE..o % BSIZE + k];
        assert c[off..o] + c[o..o + k] == c[off..o + k];
        tot := tot + k;
      }
      return Some(dst);
    }

    /** Inside one block, file bytes are block bytes. */
    lemma {:induction false} SliceOfBlock(ip: Inode, o: nat, k: nat)
      requires Settled(ip) && o + k <= ip.din.size && o < ip.din.size && o % BSIZE + k <= BSIZE && o / BSIZE < MAXFILE
      ensures BlockOf(Tab(ip), data, ip.inum, o / BSIZE) < |data|
      ensures data[BlockOf(Tab(ip), data, ip.inum, o / BSIZE)][o % BSIZE..o % BSIZE + k] == ContentOf(ip)[o..o + k]
    {
      InRange(sb, bitmap, Tab(ip), data, ip.inum, o / BSIZE);
      var x, y := data[BlockOf(Tab(ip), data, ip.inum, o / BSIZE)][o % BSIZE..o % BSIZE + k], ContentOf(ip)[o..o + k];
      forall i | 0 <= i < k ensures x[i] == y[i] {
        assert (o + i) / BSIZE == o / BSIZE && (o + i) % BSIZE == o % BSIZE + i;
      }
    }

    /** The block that offset o is in, mapped if it is the next one; bits are the bitmap blocks
        logged, and a is about to be. */
    method MapForWrite(ip: Inode, o: nat, ghost m: nat) returns (a: nat, ok: bool, ghost bits: set<nat>)
      requires Working(ip, m) && o / BSIZE <= m && o / BSIZE < MAXFILE
      modifies this`bitmap, this`data, this`logged, ip`din
      ensures ok ==> Working(ip, NextMapped(m, o)) && Grew(old(Tab(ip)), old(data), ip)
      ensures ok ==> a == BlockOf(Tab(ip), data, ip.inum, o / BSIZE) && 0 < a < |data|
      ensures ok ==> ip.din == old(ip.din).(addrs := ip.din.addrs)
      ensures ok && o / BSIZE < m ==> ip.din == old(ip.din)
      ensures ok ==> Tally(sb, old(logged), logged + {a}, {a}, IndirectOf(ip), bits, 1, BitmapWrites(m, o))
      ensures ok ==> old(IndirectOf(ip)) <= IndirectOf(ip)
      ensures ok ==> AllLogged(sb, old(bitmap), old(data), old(logged), bitmap, data, logged)
      ensures Took(old(bitmap), bitmap, BitmapWrites(m, o), ok)
    {
      hide Owned, Kept, OthersSame, Mapped, NoHoles, BlocksFor, BlockOf, Grew, Working, BBlock, Tally, AllLogged, Took;
      bits := {};
      a, ok := Bmap(ip, o / BSIZE, m);
      if !ok { return; }
      if o / BSIZE < m {
        TallyOne(sb, old(logged), logged, a, IndirectOf(ip), bits, 0);
      } else {
        bits := {BBlock(sb, a)} + NewIndirect(ip, m);
        NewBits(ip, m, o, a, old(logged), logged);
      }
    }

    lemma {:induction false} NewBits(ip: Inode, m: nat, o: nat, a: nat, base: set<nat>, l: set<nat>)
      requires Working(ip, NextMapped(m, o)) && a < |data| && o / BSIZE >= m
      requires l <= base + {a, BBlock(sb, a)} + IndirectOf(ip) + NewIndirect(ip, m)
      ensures Tally(sb, base, l + {a}, {a}, IndirectOf(ip), {BBlock(sb, a)} + NewIndirect(ip, m), 1, BitmapWrites(m, o))
    {
      hide Working, Tally, BBlock;
      var bits := {BBlock(sb, a)} + NewIndirect(ip, m);
      BitmapBlocks(ip, NextMapped(m, o), a);
      TallyOne(sb, base, l, a, IndirectOf(ip), bits, BitmapWrites(m, o));
    }

    /** The body of writei's loop: w goes to offset o, inside one block.  addr is the block
        written and bits the bitmap blocks logged. */
    method WriteBlock(ip: Inode, o: nat, w: seq<byte>, ghost m: nat, ghost c: seq<byte>)
        returns (ok: bool, ghost addr: nat, ghost bits: set<nat>)
      requires Working(ip, m) && StartsWith(Tab(ip), data, ip.inum, c) && o <= |c| && o / BSIZE <= m
      requires 1 <= |w| && o % BSIZE + |w| <= BSIZE && o + |w| <= MAXBYTES
      modifies this`bitmap, this`data, this`logged, ip`din
      ensures ok ==> Working(ip, NextMapped(m, o)) && StartsWith(Tab(ip), data, ip.inum, FlatWrite(c, o, w))
      ensures ok ==> OthersKept(old(Tab(ip)), old(data), Tab(ip), data, ip.inum)
      ensures ok ==> ip.din == old(ip.din).(addrs := ip.din.addrs)
      ensures ok && o / BSIZE < m ==> ip.din == old(ip.din)
      ensures ok ==> Tally(sb, old(logged), logged, {addr}, IndirectOf(ip), bits, 1, BitmapWrites(m, o))
      ensures ok ==> old(IndirectOf(ip)) <= IndirectOf(ip)
      ensures ok ==> AllLogged(sb, old(bitmap), old(data), old(logged), bitmap, data, logged)
      ensures Took(old(bitmap), bitmap, BitmapWrites(m, o), ok)
    {
      hide Owned, Kept, OthersSame, Mapped, NoHoles, BlocksFor, StartsWith, OthersKept, FlatWrite, BlockOf, Tally,
        AllLogged, Took;
      ghost var t0, d0 := Tab(ip), data;
      assert o / BSIZE < MAXFILE;
      var a;
      a, ok, bits := MapForWrite(ip, o, m);
      addr := a;
      if !ok { return; }
      StoreStep(sb, bitmap, t0, d0, Tab(ip), data, ip.inum, c, o, w, NextMapped(m, o));
      StoreLogs(sb, old(bitmap), d0, old(logged), bitmap, data, logged, a, Blit(data[a], o % BSIZE, w));
      data := data[a := Blit(data[a], o % BSIZE, w)];
      logged := logged + {a};
    }

    /** A small disk has only two bitmap blocks. */
    lemma {:induction false} BitmapBlocks(ip: Inode, m: nat, a: nat)
      requires Working(ip, m) && a < |data|
      ensures sb.size <= 2 * BPB ==> BBlock(sb, a) in {sb.bmapstart, sb.bmapstart + 1}
      ensures sb.size <= 2 * BPB ==> BBlock(sb, ip.din.addrs[NDIRECT]) in {sb.bmapstart, sb.bmapstart + 1}
    {
      assert RefOk(sb, bitmap, Tab(ip), data, Indirect(ip.inum));
    }

    /** The loop of writei.  blocks are the data blocks written, bits the bitmap blocks. */
    method WriteLoop(ip: Inode, off: nat, src: seq<byte>)
        returns (ok: bool, ghost blocks: set<nat>, ghost bits: set<nat>)
      requires Settled(ip) && off <= ip.din.size && off + |src| <= MAXBYTES
      modifies this`bitmap, this`data, this`logged, ip`din
      ensures ok ==> Working(ip, MappedAfter(ip.din.size, off, |src|)) && ip.din == old(ip.din).(addrs := ip.din.addrs)
      ensures ok ==> StartsWith(Tab(ip), data, ip.inum, FlatWrite(old(ContentOf(ip)), off, src))
      ensures ok ==> OthersKept(old(Tab(ip)), old(data), Tab(ip), data, ip.inum)
      ensures ok && MappedAfter(ip.din.size, off, |src|) == BlocksFor(ip.din.size) ==> ip.din == old(ip.din)
      ensures ok ==>
        Tally(sb, old(logged), logged, blocks, IndirectOf(ip), bits, BlocksTouched(off, |src|),
              BitsTouched(ip.din.size, off, |src|))
      ensures ok ==> AllLogged(sb, old(bitmap), old(data), old(logged), bitmap, data, logged)
      ensures Took(old(bitmap), bitmap, BitsTouched(old(ip.din).size, off, |src|), ok)
    {
      hide Owned, Kept, OthersSame, Mapped, NoHoles, BlocksFor, StartsWith, OthersKept, Content, FlatWrite, MappedAfter,
           BlocksTouched, BitsTouched, NextMapped, BitmapWrites, Working, Tally, IndirectOf, AllLogged, Took, Ledger;
      WorkingSays(ip, BlocksFor(ip.din.size));
      var n := |src|;
      ghost var size, t0, d0, c := ip.din.size, Tab(ip), data, ContentOf(ip);
      ok, blocks, bits := true, {}, {};
      WriteStarts(ip, off, src);
      LedgerStart(sb, bitmap, data, logged, IndirectOf(ip));
      var tot := 0;
      while tot < n
        invariant 0 <= tot <= n && (tot == 0 || tot == n || (off + tot) % BSIZE == 0)
        invariant Working(ip, MappedAfter(size, off, tot))
          && StartsWith(Tab(ip), data, ip.inum, FlatWrite(c, off, src[..tot]))
        invariant OthersKept(t0, d0, Tab(ip), data, ip.inum) && ip.din == old(ip.din).(addrs := ip.din.addrs)
        invariant MappedAfter(size, off, tot) == BlocksFor(size) ==> ip.din == old(ip.din)
        invariant Ledger(sb, old(bitmap), d0, old(logged), bitmap, data, logged, blocks, IndirectOf(ip), bits,
          BlocksTouched(off, tot), BitsTouched(size, off, tot))
      {
        var o := off + tot;
        var k := if n - tot < BSIZE - o % BSIZE then n - tot else BSIZE - o % BSIZE;
        ghost var t1, d1, l1, i1, bm1 := Tab(ip), data, logged, IndirectOf(ip), bitmap;
        StepArith(size, off, tot, k);
        FlatWriteTwice(c, off, src, tot, tot + k);
        ghost var addr, more;
        ok, addr, more := WriteBlock(ip, o, src[tot..tot + k], MappedAfter(size, off, tot),
          FlatWrite(c, off, src[..tot]));
        if !ok {
          MoreBits(size, off, tot + k, n);
          LedgerShort(sb, old(bitmap), d0, old(logged), bm1, d1, l1, bitmap, blocks, i1, bits, BlocksTouched(off, tot),
                      BitsTouched(size, off, tot), BitmapWrites(MappedAfter(size, off, tot), o),
                      BitsTouched(size, off, n));
          return;
        }
        OthersKeptTrans(t0, d0, t1, d1, Tab(ip), data, ip.inum);
        LedgerStep(sb, old(bitmap), d0, old(logged), bm1, d1, l1, bitmap, data, logged, blocks, {addr}, i1,
                   IndirectOf(ip), bits, more, BlocksTouched(off, tot), BitsTouched(size, off, tot),
                   BitmapWrites(MappedAfter(size, off, tot), o));
        blocks, bits := blocks + {addr}, bits + more;
        tot := tot + k;
      }
      assert src[..n] == src;
      LedgerSays(sb, old(bitmap), d0, old(logged), bitmap, data, logged, blocks, IndirectOf(ip), bits,
                 BlocksTouched(off, n), BitsTouched(size, off, n));
    }

    /** writei on a file or directory; r is the return value, ok is false for the panic in
        balloc.  The result is a flat write; every other file is untouched; the inode on disk
        equals the one in memory although iupdate runs only when the size grows; and a chunk
        of three blocks' worth logs at most MAXOPBLOCKS blocks. */
    method Writei(ip: Inode, off: word, src: seq<byte>) returns (r: int, ok: bool)
      requires Settled(ip) && dinodes[ip.inum] == ip.din && |src| < U32
      modifies this`bitmap, this`data, this`logged, this`dinodes, ip`din
      ensures r == -1 <==> Refused(old(ip.din).size, off, |src|)
      ensures r == -1 ==>
        ok && bitmap == old(bitmap) && data == old(data) && logged == old(logged) && dinodes == old(dinodes)
        && ip.din == old(ip.din)
      ensures ok && r != -1 ==> r == |src| && Settled(ip) && ContentOf(ip) == FlatWrite(old(ContentOf(ip)), off, src)
      ensures ok && r != -1 ==> ip.din == old(ip.din).(size := ip.din.size, addrs := ip.din.addrs)
      ensures ok && r != -1 ==> OthersKept(old(Tab(ip)), old(data), Tab(ip), data, ip.inum)
      ensures ok ==> ip.inum < |dinodes| && dinodes == old(dinodes)[ip.inum := ip.din]
      ensures ok && |src| <= 3 * BSIZE && old(logged) == {} ==> |logged| <= LogBound(sb)
      ensures ok ==> AllLogged(sb, old(bitmap), old(data), old(logged), bitmap, data, logged)
      ensures ok && dinodes != old(dinodes) ==> IBlock(sb, ip.inum) in logged
      ensures r != -1 ==>
        Took(old(bitmap), bitmap, FileBlocks(old(ip.din).size, |FlatWrite(old(ContentOf(ip)), off, src)|), ok)
      ensures ok <==>
        r == -1 || ClearBits(old(bitmap)) >= FileBlocks(old(ip.din).size, |FlatWrite(old(ContentOf(ip)), off, src)|)
      ensures !ok ==> |bitmap| == sb.size && forall x :: 0 <= x < sb.size ==> bitmap[x]
    {
      hide Owned, Kept, OthersSame, Mapped, NoHoles, BlocksFor, StartsWith, OthersKept, Content, FlatWrite, MappedAfter,
           BlocksTouched, BitsTouched, Working, Tally, AllLogged, Took;
      NothingToLog(sb, bitmap, data, logged);
      WorkingSays(ip, BlocksFor(ip.din.size));
      BitmapShape(ip);
      var size, n := ip.din.size, |src|;
      r, ok := -1, true;
      if off > size || (off + n) % U32 < off || off + n > MAXBYTES { return; }
      r := n;
      ghost var t0, d0, c := Tab(ip), data, ContentOf(ip);
      ghost var blocks, bits;
      ok, blocks, bits := WriteLoop(ip, off, src);
      EndArith(size, off, n);
      WrittenLength(c, off, src);
      TookSays(old(bitmap), bitmap, BitsTouched(size, off, n), ok);
      if !ok { return; }
      ghost var l1 := logged;
      WorkingSays(ip, MappedAfter(size, off, n));
      TallyBound(sb, l1, blocks, IndirectOf(ip), bits, BlocksTouched(off, n), BitsTouched(size, off, n),
                 n <= 3 * BSIZE && old(logged) == {});
      ghost var end := if n > 0 && off + n > size then off + n else size;
      Resized(sb, bitmap, t0, d0, Tab(ip), data, ip.inum, MappedAfter(size, off, n), end, FlatWrite(c, off, src));
      assert dinodes[ip.inum := ip.din.(size := end)] == Tab(ip)[ip.inum := ip.din.(size := end)];
      if n > 0 && off + n > size {
        ip.din := ip.din.(size := off + n);
        Iupdate(ip);
        MoreLogged(sb, old(bitmap), d0, old(logged), bitmap, data, l1, {IBlock(sb, ip.inum)});
      }
      assert ip.din.size == end && dinodes[ip.inum := ip.din] == dinodes;
      MakeSettled(ip);
      if n <= 3 * BSIZE && old(logged) == {} {
        AtMostTen(sb, l1, logged, blocks, IndirectOf(ip), bits, {IBlock(sb, ip.inum)});
      }
    }

    /** The loop of itrunc over the direct blocks. */
    method FreeDirect(ip: Inode, ghost t: Table, ghost bm: seq<bool>) returns (ok: bool)
      requires ip.inum < |t| && t[ip.inum] == ip.din && Owned(sb, bm, t, data)
      requires bitmap == bm && 0 < |bm| && bm[0] && ClearedUpTo(bm, bitmap, t, data, ip.inum, 0)
      modifies this`bitmap, this`logged, ip`din
      ensures ok && ClearedUpTo(bm, bitmap, t, data, ip.inum, NDIRECT) && |bitmap| == |bm| && bitmap[0]
      ensures logged == old(logged) + FreedBits(sb, t, data, ip.inum, NDIRECT)
      ensures ip.din == old(ip.din).(addrs := ip.din.addrs)
      ensures forall k :: 0 <= k <= NDIRECT ==> ip.din.addrs[k] == if k < NDIRECT then 0 else old(ip.din).addrs[k]
      ensures ClearBits(bitmap) == ClearBits(bm) + SlotsUsed(t, data, ip.inum, NDIRECT)
    {
      hide Owned, ClearedUpTo, Mapped, NoHoles, OthersKept, OthersSame, FreedBelow;
      ok := true;
      var i := 0;
      while i < NDIRECT
        invariant 0 <= i <= NDIRECT && ok && |bitmap| == |bm| && bitmap[0]
        invariant ip.din == old(ip.din).(addrs := ip.din.addrs)
        invariant forall k :: 0 <= k <= NDIRECT ==> ip.din.addrs[k] == if k < i then 0 else old(ip.din).addrs[k]
        invariant ClearedUpTo(bm, bitmap, t, data, ip.inum, i)
        invariant logged == old(logged) + FreedBits(sb, t, data, ip.inum, i)
        invariant ClearBits(bitmap) == ClearBits(bm) + SlotsUsed(t, data, ip.inum, i)
      {
        ClearStep(sb, bm, bitmap, t, data, ip.inum, i);
        if ip.din.addrs[i] != 0 {
          ok := Bfree(ip.din.addrs[i]);
          if !ok { return; }
          ip.din := ip.din.(addrs := ip.din.addrs[i := 0]);
        }
        i := i + 1;
      }
    }

    /** The loop of itrunc over the indirect block a. */
    method FreeEntries(a: Block, ghost t: Table, ghost bm: seq<bool>, ghost n: nat, ghost l: set<nat>)
        returns (ok: bool)
      requires Owned(sb, bm, t, data) && n < |t| && 0 < t[n].addrs[NDIRECT] < |data| && a == data[t[n].addrs[NDIRECT]]
      requires ClearedUpTo(bm, bitmap, t, data, n, NDIRECT) && |bitmap| == |bm| && 0 < |bm| && bitmap[0]
      requires logged == l + FreedBits(sb, t, data, n, NDIRECT)
      requires ClearBits(bitmap) == ClearBits(bm) + SlotsUsed(t, data, n, NDIRECT)
      modifies this`bitmap, this`logged
      ensures ok && ClearedUpTo(bm, bitmap, t, data, n, MAXFILE) && |bitmap| == |bm| && bitmap[0]
      ensures logged == l + FreedBits(sb, t, data, n, MAXFILE)
      ensures ClearBits(bitmap) == ClearBits(bm) + SlotsUsed(t, data, n, MAXFILE)
    {
      hide Owned, ClearedUpTo, Mapped, NoHoles, OthersKept, OthersSame, FreedBelow;
      ok := true;
      var j := 0;
      while j < NINDIRECT
        invariant 0 <= j <= NINDIRECT && ok && |bitmap| == |bm| && bitmap[0]
        invariant ClearedUpTo(bm, bitmap, t, data, n, NDIRECT + j)
        invariant logged == l + FreedBits(sb, t, data, n, NDIRECT + j)
        invariant ClearBits(bitmap) == ClearBits(bm) + SlotsUsed(t, data, n, NDIRECT + j)
      {
        ClearStep(sb, bm, bitmap, t, data, n, NDIRECT + j);
        if Word(a, j) != 0 {
          ok := Bfree(Word(a, j));
          if !ok { return; }
        }
        j := j + 1;
      }
    }

    /** The part of itrunc for the indirect block, if there is one. */
    method FreeIndirect(ip: Inode, ghost t: Table, ghost bm: seq<bool>, ghost l: set<nat>) returns (ok: bool)
      requires Owned(sb, bm, t, data) && ip.inum < |t| && ip.din.addrs[NDIRECT] == t[ip.inum].addrs[NDIRECT]
      requires ClearedUpTo(bm, bitmap, t, data, ip.inum, NDIRECT) && |bitmap| == |bm| && 0 < |bm| && bitmap[0]
      requires logged == l + FreedBits(sb, t, data, ip.inum, NDIRECT)
      requires ClearBits(bitmap) == ClearBits(bm) + SlotsUsed(t, data, ip.inum, NDIRECT)
      modifies this`bitmap, this`logged, ip`din
      ensures ok && ClearedUpTo(bm, bitmap, t, data, ip.inum, SLOTS) && |bitmap| == |bm| && bitmap[0]
      ensures logged == l + FreedBits(sb, t, data, ip.inum, SLOTS)
      ensures ClearBits(bitmap) == ClearBits(bm) + SlotsUsed(t, data, ip.inum, SLOTS)
      ensures ip.din == old(ip.din).(addrs := old(ip.din).addrs[NDIRECT := 0])
    {
      hide Owned, ClearedUpTo, Mapped, NoHoles, OthersKept, OthersSame, FreedBelow, ClearBits;
      ghost var n := ip.inum;
      ok := true;
      if ip.din.addrs[NDIRECT] != 0 {
        IndirectShape(ip, t, bm);
        ok := FreeEntries(data[ip.din.addrs[NDIRECT]], t, bm, n, l);
        ClearStep(sb, bm, bitmap, t, data, n, MAXFILE);
        ok := Bfree(ip.din.addrs[NDIRECT]);
        if !ok { return; }
        ip.din := ip.din.(addrs := ip.din.addrs[NDIRECT := 0]);
      } else {
        NoEntries(sb, bm, bitmap, t, data, n);
        NoEntryBits(sb, t, data, n, SLOTS);
        assert ip.din.addrs[NDIRECT := 0] == ip.din.addrs;
      }
    }

    /** itrunc.  It frees exactly the blocks of the file (and its indirect block), never a
        block already free, leaves every other file untouched, and logs the bitmap blocks of what
        it frees and the inode's block. */
    method Itrunc(ip: Inode) returns (ok: bool)
      requires Settled(ip)
      modifies this`bitmap, this`logged, this`dinodes, ip`din
      ensures ok && Settled(ip) && ip.din == old(ip.din).(size := 0, addrs := seq(13, _ => 0))
      ensures dinodes == old(dinodes)[ip.inum := ip.din]
      ensures OthersKept(old(Tab(ip)), data, Tab(ip), data, ip.inum)
      ensures ClearedUpTo(old(bitmap), bitmap, old(Tab(ip)), data, ip.inum, SLOTS)
      ensures logged == old(logged) + FreedBits(sb, old(Tab(ip)), data, ip.inum, SLOTS) + {IBlock(sb, ip.inum)}
      ensures ClearBits(bitmap) == ClearBits(old(bitmap)) + FileBlocks(0, old(ip.din).size)
    {
      hide Owned, ClearedUpTo, Mapped, NoHoles, OthersKept, OthersSame, FreedBelow, FreedBits, SlotsUsed, FileBlocks,
           ClearBits;
      ghost var t, bm, n := Tab(ip), bitmap, ip.inum;
      BitmapShape(ip);
      ClearStart(bm, t, data, n);
      ok := FreeDirect(ip, t, bm);
      ok := FreeIndirect(ip, t, bm, old(logged));
      AllSlots(sb, bm, t, data, n);
      assert ip.din.addrs == seq(13, _ => 0);
      ip.din := ip.din.(size := 0);
      OwnedRemove(sb, bm, bitmap, t, data, n, ip.din);
      OthersNoHoles(t, data, t[n := ip.din], data, n);
      Iupdate(ip);
      assert Tab(ip) == t[n := ip.din];
    }

    /** Free inodes own nothing. */
    ghost predicate FreeEmpty()
      reads this`dinodes
    { forall n :: 0 <= n < |dinodes| && dinodes[n].typ == 0 ==> dinodes[n].size == 0 }

    /** The file system between operations. */
    ghost predicate Consistent()
      reads this
    { FsInv(sb, bitmap, dinodes, data) && FreeEmpty() }

    /** ialloc: the first free inode from 1 on, cleared; None for the panic. */
    method Ialloc(typ: nat) returns (r: Option<nat>)
      requires Consistent() && typ != 0
      modifies this`dinodes, this`logged
      ensures Consistent() && |dinodes| == |old(dinodes)|
      ensures r.None? ==> dinodes == old(dinodes) && forall i :: 1 <= i < |dinodes| ==> dinodes[i].typ != 0
      ensures r.Some? ==> 1 <= r.value < |dinodes| && old(dinodes)[r.value].typ == 0
      ensures r.Some? ==> forall i :: 1 <= i < r.value ==> old(dinodes)[i].typ != 0
      ensures r.Some? ==> dinodes == old(dinodes)[r.value := Dinode(typ, 0, 0, 0, 0, seq(13, _ => 0))]
      ensures r.Some? ==>
        OthersKept(old(dinodes), data, dinodes, data, r.value) && logged == old(logged) + {IBlock(sb, r.value)}
    {
      var inum := 1;
      while inum < |dinodes|
        invariant 1 <= inum && dinodes == old(dinodes) && logged == old(logged)
        invariant forall i :: 1 <= i < inum && i < |dinodes| ==> dinodes[i].typ != 0
      {
        if dinodes[inum].typ == 0 {
          ClearInode(sb, bitmap, dinodes, data, inum, Dinode(typ, 0, 0, 0, 0, seq(13, _ => 0)));
          dinodes := dinodes[inum := Dinode(typ, 0, 0, 0, 0, seq(13, _ => 0))];
          logged := logged + {IBlock(sb, inum)};
          return Some(inum);
        }
        inum := inum + 1;
      }
      return None;
    }

    /** The branch of iput that frees an inode with no links and no other references. */
    method FreeInode(ip: Inode) returns (ok: bool)
      requires ip.inum < |dinodes| && dinodes[ip.inum] == ip.din && Consistent()
      modifies this`bitmap, this`logged, this`dinodes, ip`din
      ensures ok && Consistent() && ip.din == old(ip.din).(typ := 0, size := 0, addrs := seq(13, _ => 0))
      ensures dinodes == old(dinodes)[ip.inum := ip.din]
      ensures OthersKept(old(dinodes), data, dinodes, data, ip.inum)
      ensures ClearedUpTo(old(bitmap), bitmap, old(dinodes), data, ip.inum, SLOTS)
      ensures logged == old(logged) + FreedBits(sb, old(dinodes), data, ip.inum, SLOTS) + {IBlock(sb, ip.inum)}
      ensures ClearBits(bitmap) == ClearBits(old(bitmap)) + FileBlocks(0, old(ip.din).size)
    {
      ghost var t := dinodes;
      assert Tab(ip) == dinodes;
      assert NoHoles(dinodes, data, ip.inum);
      ok := Itrunc(ip);
      assert Tab(ip) == dinodes;
      ClearInode(sb, bitmap, dinodes, data, ip.inum, ip.din.(typ := 0));
      OthersKeptTrans(t, data, dinodes, data, dinodes[ip.inum := ip.din.(typ := 0)], data, ip.inum);
      ip.din := ip.din.(typ := 0);
      Iupdate(ip);
    }

    lemma {:induction false} BitmapShape(ip: Inode)
      requires Settled(ip)
      ensures |bitmap| == |data| == sb.size && |bitmap| > 0 && bitmap[0]
    {
      assert Accounted(sb, bitmap, Tab(ip), data, 0);
    }

    lemma {:induction false} IndirectShape(ip: Inode, t: Table, bm: seq<bool>)
      requires ip.inum < |t| && Owned(sb, bm, t, data) && ip.din.addrs[NDIRECT] == t[ip.inum].addrs[NDIRECT] != 0
      ensures ip.din.addrs[NDIRECT] < |data|
    {
      assert RefOk(sb, bm, t, data, Indirect(ip.inum));
    }

    /** The start of writei's loop: nothing written yet. */
    lemma {:induction false} WriteStarts(ip: Inode, off: nat, src: seq<byte>)
      requires Settled(ip) && off <= ip.din.size
      ensures StartsWith(Tab(ip), data, ip.inum, FlatWrite(ContentOf(ip), off, src[..0]))
      ensures OthersKept(Tab(ip), data, Tab(ip), data, ip.inum)
      ensures MappedAfter(ip.din.size, off, 0) == BlocksFor(ip.din.size) && BlocksTouched(off, 0) == 0
        && BitsTouched(ip.din.size, off, 0) == 0
    {
      ContentStarts(sb, bitmap, Tab(ip), data, ip.inum);
      assert FlatWrite(ContentOf(ip), off, src[..0]) == ContentOf(ip);
    }
  }

  /** Without an indirect block there is nothing more to free. */
  lemma {:induction false} NoEntries(sb: Super, bm0: seq<bool>, bm: seq<bool>, t: Table, d: Data, n: nat)
    requires Owned(sb, bm0, t, d) && n < |t| && t[n].addrs[NDIRECT] == 0 && ClearedUpTo(bm0, bm, t, d, n, NDIRECT)
    ensures ClearedUpTo(bm0, bm, t, d, n, SLOTS)
  {
    var q := NDIRECT;
    while q < SLOTS
      invariant NDIRECT <= q <= SLOTS && ClearedUpTo(bm0, bm, t, d, n, q)
    {
      ClearStep(sb, bm0, bm, t, d, n, q);
      q := q + 1;
    }
  }

  /** The bitmap blocks of what the first q slots of inode n refer to. */
  ghost function FreedBits(sb: Super, t: Table, d: Data, n: nat, q: nat): set<nat>
    requires n < |t| && q <= SLOTS
  {
    if q == 0 then {}
    else
      var r := Ref(t, d, SlotAt(n, q - 1));
      FreedBits(sb, t, d, n, q - 1) + if r == 0 then {} else {BBlock(sb, r)}
  }

  /** How many of the first q slots of inode n refer to a block. */
  ghost function SlotsUsed(t: Table, d: Data, n: nat, q: nat): nat
    requires n < |t| && q <= SLOTS
  { if q == 0 then 0 else SlotsUsed(t, d, n, q - 1) + if Ref(t, d, SlotAt(n, q - 1)) == 0 then 0 else 1 }

  /** The slots of the first q blocks, when m are mapped. */
  lemma {:induction false} MappedSlots(t: Table, d: Data, n: nat, m: nat, q: nat)
    requires Mapped(t, d, n, m) && q <= MAXFILE
    ensures SlotsUsed(t, d, n, q) == if q < m then q else m
  {
    if q > 0 {
      MappedSlots(t, d, n, m, q - 1);
      assert BlockOf(t, d, n, q - 1) == Ref(t, d, SlotAt(n, q - 1));
    }
  }

  lemma {:induction false} AllSlots(sb: Super, bm: seq<bool>, t: Table, d: Data, n: nat)
    requires Owned(sb, bm, t, d) && NoHoles(t, d, n)
    ensures SlotsUsed(t, d, n, SLOTS) == FileBlocks(0, t[n].size)
  {
    MappedSlots(t, d, n, BlocksFor(t[n].size), MAXFILE);
  }

  lemma {:induction false} NoEntryBits(sb: Super, t: Table, d: Data, n: nat, q: nat)
    requires n < |t| && t[n].addrs[NDIRECT] == 0 && NDIRECT <= q <= SLOTS
    ensures FreedBits(sb, t, d, n, q) == FreedBits(sb, t, d, n, NDIRECT)
    ensures SlotsUsed(t, d, n, q) == SlotsUsed(t, d, n, NDIRECT)
  {
    if q > NDIRECT { NoEntryBits(sb, t, d, n, q - 1); }
  }

  /** An inode of size 0 can be rewritten as another of size 0. */
  lemma {:induction false} ClearInode(sb: Super, bm: seq<bool>, t: Table, d: Data, n: nat, x: Dinode)
    requires FsInv(sb, bm, t, d) && n < |t| && t[n].size == 0 && x.size == 0 && x.addrs == seq(13, _ => 0)
    ensures FsInv(sb, bm, t[n := x], d) && OthersKept(t, d, t[n := x], d, n)
  {
    assert NoHoles(t, d, n);
    forall k | 0 <= k < MAXFILE ensures BlockOf(t, d, n, k) == 0 {}
    assert t[n].addrs == x.addrs by {
      forall i | 0 <= i < 13
        ensures t[n].addrs[i] == 0
      {
        if i < NDIRECT { assert BlockOf(t, d, n, i) == t[n].addrs[i]; }
      }
    }
    Relabel(sb, bm, t, d, n, x);
  }

  /** The fields of an inode other than its size and addresses do not matter. */
  lemma {:induction false} Relabel(sb: Super, bm: seq<bool>, t: Table, d: Data, n: nat, x: Dinode)
    requires FsInv(sb, bm, t, d) && n < |t| && x.size == t[n].size && x.addrs == t[n].addrs
    ensures FsInv(sb, bm, t[n := x], d) && OthersKept(t, d, t[n := x], d, n)
  {
    var t' := t[n := x];
    assert NoHoles(t, d, n);
    forall s | IsSlot(t, s) ensures Ref(t', d, s) == Ref(t, d, s) {}
    forall s ensures RefOk(sb, bm, t', d, s) { assert RefOk(sb, bm, t, d, s); }
    forall s, u ensures Unshared(t', d, s, u) { assert Unshared(t, d, s, u); }
    forall y ensures Accounted(sb, bm, t', d, y) {
      assert Accounted(sb, bm, t, d, y);
      if s :| RefersTo(t, d, s, y) { assert RefersTo(t', d, s, y); }
      if s :| RefersTo(t', d, s, y) { assert RefersTo(t, d, s, y); }
    }
    forall i: nat, k: nat | i < |t| && k < MAXFILE
      ensures BlockOf(t', d, i, k) == BlockOf(t, d, i, k)
    {
      assert IsSlot(t, FileSlot(i, k));
    }
    OthersNoHoles(t, d, t', d, n);
    assert NoHoles(t', d, n);
    forall i: nat, k: nat ensures KeptBlock(t, d, t', d, i, k) {}
  }

  lemma {:induction false} WrittenLength(c: seq<byte>, off: nat, w: seq<byte>)
    requires off <= |c|
    ensures |FlatWrite(c, off, w)| == if |w| > 0 && off + |w| > |c| then off + |w| else |c|
  {
  }

  /** The most blocks a chunk of a filewrite logs: MAXOPBLOCKS, or 8 when all bitmap bits fit
      in two blocks, as on the image mkfs makes. */
  function LogBound(sb: Super): nat { if sb.size <= 2 * BPB then 8 else 10 }

  /** Of the blocks in l, those beyond base are at most nb data blocks, the indirect block and
      at most nt bitmap blocks. */
  ghost predicate Tally(sb: Super, base: set<nat>, l: set<nat>, blocks: set<nat>, ind: set<nat>, bits: set<nat>,
      nb: nat, nt: nat) {
    && l <= base + blocks + ind + bits && |blocks| <= nb && |bits| <= nt
    && (sb.size <= 2 * BPB ==> bits <= {sb.bmapstart, sb.bmapstart + 1})
  }

  /** Everything that changed on disk is among the blocks logged, and so is what was before. */
  ghost predicate AllLogged(sb: Super, bm: seq<bool>, d: Data, l: set<nat>, bm': seq<bool>, d': Data, l': set<nat>) {
    && l <= l' && |bm'| == |bm| && |d'| == |d|
    && (forall b :: 0 <= b < |d| && d'[b] != d[b] ==> b in l')
    && (forall b :: 0 <= b < |bm| && bm'[b] != bm[b] ==> BBlock(sb, b) in l')
  }

  lemma {:induction false} NothingToLog(sb: Super, bm: seq<bool>, d: Data, l: set<nat>)
    ensures AllLogged(sb, bm, d, l, bm, d, l)
  {
  }

  lemma {:induction false} BallocLogs(sb: Super, bm: seq<bool>, d: Data, l: set<nat>, r: nat)
    requires r < |bm| && r < |d|
    ensures AllLogged(sb, bm, d, l, bm[r := true], d[r := Zero()], l + {BBlock(sb, r), r})
  {
  }

  lemma {:induction false} StoreLogs(sb: Super, bm: seq<bool>, d: Data, l: set<nat>, bm': seq<bool>, d': Data,
      l': set<nat>,
      a: nat, x: Block)
    requires AllLogged(sb, bm, d, l, bm', d', l') && a < |d'|
    ensures AllLogged(sb, bm, d, l, bm', d'[a := x], l' + {a})
  {
  }

  lemma {:induction false} MoreLogged(sb: Super, bm: seq<bool>, d: Data, l: set<nat>, bm': seq<bool>, d': Data,
      l': set<nat>,
      m: set<nat>)
    requires AllLogged(sb, bm, d, l, bm', d', l')
    ensures AllLogged(sb, bm, d, l, bm', d', l' + m)
  {
  }

  lemma {:induction false} LoggedTrans(sb: Super, bm: seq<bool>, d: Data, l: set<nat>, bm1: seq<bool>, d1: Data,
      l1: set<nat>, bm2: seq<bool>, d2: Data, l2: set<nat>)
    requires AllLogged(sb, bm, d, l, bm1, d1, l1) && AllLogged(sb, bm1, d1, l1, bm2, d2, l2)
    ensures AllLogged(sb, bm, d, l, bm2, d2, l2)
  {
  }

  lemma {:induction false} TallyStart(sb: Super, base: set<nat>, ind: set<nat>)
    ensures Tally(sb, base, base, {}, ind, {}, 0, 0)
  {
  }

  lemma {:induction false} TallyOne(sb: Super, base: set<nat>, l: set<nat>, a: nat, ind: set<nat>, bits: set<nat>,
      nt: nat)
    requires l <= base + {a} + ind + bits && |bits| <= nt
    requires sb.size <= 2 * BPB ==> bits <= {sb.bmapstart, sb.bmapstart + 1}
    ensures Tally(sb, base, l + {a}, {a}, ind, bits, 1, nt)
  {
  }

  lemma {:induction false} TallyStep(sb: Super, base: set<nat>, l1: set<nat>, l2: set<nat>, blocks: set<nat>,
      more: set<nat>, i1: set<nat>, i2: set<nat>, bits: set<nat>, moreBits: set<nat>, nb: nat, nt: nat, dt: nat)
    requires Tally(sb, base, l1, blocks, i1, bits, nb, nt) && Tally(sb, l1, l2, more, i2, moreBits, 1, dt) && i1 <= i2
    ensures Tally(sb, base, l2, blocks + more, i2, bits + moreBits, nb + 1, nt + dt)
  {
    UnionSize(blocks, more);
    UnionSize(bits, moreBits);
  }

  /** The accounts of writei's loop: what was logged, and that nt blocks were taken. */
  ghost predicate Ledger(sb: Super, bm: seq<bool>, d: Data, base: set<nat>, bm': seq<bool>, d': Data, l: set<nat>,
      blocks: set<nat>, ind: set<nat>, bits: set<nat>, nb: nat, nt: nat) {
    && Tally(sb, base, l, blocks, ind, bits, nb, nt) && AllLogged(sb, bm, d, base, bm', d', l)
    && Took(bm, bm', nt, true)
  }

  lemma {:induction false} LedgerStart(sb: Super, bm: seq<bool>, d: Data, l: set<nat>, ind: set<nat>)
    ensures Ledger(sb, bm, d, l, bm, d, l, {}, ind, {}, 0, 0)
  {
  }

  lemma {:induction false} LedgerSays(sb: Super, bm: seq<bool>, d: Data, base: set<nat>, bm': seq<bool>, d': Data,
      l: set<nat>, blocks: set<nat>, ind: set<nat>, bits: set<nat>, nb: nat, nt: nat)
    requires Ledger(sb, bm, d, base, bm', d', l, blocks, ind, bits, nb, nt)
    ensures Tally(sb, base, l, blocks, ind, bits, nb, nt) && AllLogged(sb, bm, d, base, bm', d', l)
      && Took(bm, bm', nt, true)
  {
  }

  lemma {:induction false} LedgerStep(sb: Super, bm: seq<bool>, d: Data, base: set<nat>, bm1: seq<bool>, d1: Data,
      l1: set<nat>, bm2: seq<bool>, d2: Data, l2: set<nat>, blocks: set<nat>, more: set<nat>, i1: set<nat>,
      i2: set<nat>, bits: set<nat>, moreBits: set<nat>, nb: nat, nt: nat, dt: nat)
    requires Ledger(sb, bm, d, base, bm1, d1, l1, blocks, i1, bits, nb, nt) && i1 <= i2
    requires Tally(sb, l1, l2, more, i2, moreBits, 1, dt) && AllLogged(sb, bm1, d1, l1, bm2, d2, l2)
      && Took(bm1, bm2, dt, true)
    ensures Ledger(sb, bm, d, base, bm2, d2, l2, blocks + more, i2, bits + moreBits, nb + 1, nt + dt)
  {
    hide Tally, AllLogged, Took;
    TallyStep(sb, base, l1, l2, blocks, more, i1, i2, bits, moreBits, nb, nt, dt);
    LoggedTrans(sb, bm, d, base, bm1, d1, l1, bm2, d2, l2);
    TookThen(bm, bm1, bm2, nt, dt, true);
  }

  lemma {:induction false} LedgerShort(sb: Super, bm: seq<bool>, d: Data, base: set<nat>, bm1: seq<bool>, d1: Data,
      l1: set<nat>, bm2: seq<bool>, blocks: set<nat>, ind: set<nat>, bits: set<nat>, nb: nat, nt: nat, dt: nat,
      all: nat)
    requires Ledger(sb, bm, d, base, bm1, d1, l1, blocks, ind, bits, nb, nt)
    requires Took(bm1, bm2, dt, false) && nt + dt <= all
    ensures Took(bm, bm2, all, false)
  {
  }

  /** At most ten blocks in all; eight with two bitmap blocks. */
  lemma {:induction false} AtMostTen(sb: Super, l: set<nat>, all: set<nat>, blocks: set<nat>, ind: set<nat>,
      bits: set<nat>, inode: set<nat>)
    requires Tally(sb, {}, l, blocks, ind, bits, 4, 4) && all <= l + inode && |ind| <= 1 && |inode| <= 1
    ensures |all| <= LogBound(sb)
  {
    if sb.size <= 2 * BPB { SubsetSize(bits, {sb.bmapstart, sb.bmapstart + 1}); }
    UnionSize(blocks, ind);
    UnionSize(blocks + ind, bits);
    UnionSize(blocks + ind + bits, inode);
    SubsetSize(all, blocks + ind + bits + inode);
  }

  lemma {:induction false} TallyBound(sb: Super, l: set<nat>, blocks: set<nat>, ind: set<nat>, bits: set<nat>, nb: nat,
      nt: nat, small: bool)
    requires small ==> nb <= 4 && nt <= 4 && Tally(sb, {}, l, blocks, ind, bits, nb, nt)
    ensures small ==> Tally(sb, {}, l, blocks, ind, bits, 4, 4)
  {
  }

  lemma {:induction false} SubsetSize(a: set<nat>, b: set<nat>)
    requires a <= b
    ensures |a| <= |b|
  {
    assert b == a + (b - a);
  }

  /** The end of writei: the size catches up with the blocks mapped. */
  lemma {:induction false} Resized(sb: Super, bm: seq<bool>, t0: Table, d0: Data, t: Table, d: Data, n: nat, m: nat,
      end: nat, c: seq<byte>)
    requires Owned(sb, bm, t, d) && Mapped(t, d, n, m) && StartsWith(t, d, n, c) && OthersKept(t0, d0, t, d, n)
    requires forall i :: 0 <= i < |t| && i != n ==> NoHoles(t, d, i)
    requires end == |c| && m == BlocksFor(end)
    ensures var t' := t[n := t[n].(size := end)];
      && Owned(sb, bm, t', d) && Mapped(t', d, n, BlocksFor(end)) && OthersKept(t0, d0, t', d, n) && end <= MAXBYTES
      && (forall i :: 0 <= i < |t'| && i != n ==> NoHoles(t', d, i))
      && Content(sb, bm, t', d, n) == c
  {
    var t' := t[n := t[n].(size := end)];
    SizeIrrelevant(sb, bm, t, d, n, end);
    forall i: nat, k: nat | i < |t| && k < MAXFILE ensures BlockOf(t', d, i, k) == BlockOf(t, d, i, k) {
      assert IsSlot(t, FileSlot(i, k));
    }
    forall k | 0 <= k < MAXFILE
      ensures BlockOf(t', d, n, k) != 0 <==> k < m
    {
      assert BlockOf(t, d, n, k) != 0 <==> k < m;
    }
    forall i: nat, k: nat | i != n ensures KeptBlock(t0, d0, t', d, i, k) { assert KeptBlock(t0, d0, t, d, i, k); }
    OthersNoHoles(t, d, t', d, n);
    forall p | 0 <= p < |c| ensures HasByte(t', d, n, p, c[p]) { assert HasByte(t, d, n, p, c[p]); }
    StartsIsContent(sb, bm, t', d, n, c);
  }

  lemma {:induction false} SizeIrrelevant(sb: Super, bm: seq<bool>, t: Table, d: Data, n: nat, end: nat)
    requires Owned(sb, bm, t, d) && n < |t|
    ensures var t' := t[n := t[n].(size := end)];
      Owned(sb, bm, t', d) && forall s :: IsSlot(t, s) ==> Ref(t', d, s) == Ref(t, d, s)
  {
    var t' := t[n := t[n].(size := end)];
    forall s ensures RefOk(sb, bm, t', d, s) { assert RefOk(sb, bm, t, d, s); }
    forall s, u ensures Unshared(t', d, s, u) { assert Unshared(t, d, s, u); }
    forall y ensures Accounted(sb, bm, t', d, y) {
      assert Accounted(sb, bm, t, d, y);
      if s :| RefersTo(t, d, s, y) { assert RefersTo(t', d, s, y); }
      if s :| RefersTo(t', d, s, y) { assert RefersTo(t, d, s, y); }
    }
  }

  /** Blocks mapped once tot bytes are written at off into a file of the given size. */
  function MappedAfter(size: nat, off: nat, tot: nat): nat {
    if tot == 0 || (off + tot - 1) / BSIZE < BlocksFor(size) then BlocksFor(size) else (off + tot - 1) / BSIZE + 1
  }

  function BlocksTouched(off: nat, tot: nat): nat {
    if tot == 0 then 0 else (off + tot - 1) / BSIZE - off / BSIZE + 1
  }

  function BitsTouched(size: nat, off: nat, tot: nat): nat {
    NewBlocks(BlocksFor(size), MappedAfter(size, off, tot))
  }

  /** How many blocks mapping blocks m to m' takes: one each, and one for a new indirect block. */
  function NewBlocks(m: nat, m': nat): nat {
    (if m' >= m then m' - m else 0) + (if m <= NDIRECT < m' then 1 else 0)
  }

  /** How many blocks growing a file from one size to another takes. */
  function FileBlocks(size: nat, size': nat): nat { NewBlocks(BlocksFor(size), BlocksFor(size')) }

  lemma {:induction false} MoreBits(size: nat, off: nat, tot: nat, n: nat)
    requires tot <= n
    ensures BitsTouched(size, off, tot) <= BitsTouched(size, off, n)
  {
    if 0 < tot { assert (off + tot - 1) / BSIZE <= (off + n - 1) / BSIZE; }
  }

  // ----- free blocks -----

  /** How many blocks are free. */
  ghost function ClearBits(bm: seq<bool>): nat {
    if bm == [] then 0 else ClearBits(bm[..|bm| - 1]) + if bm[|bm| - 1] then 0 else 1
  }

  /** Taking k blocks: exactly k, or there were fewer and they are all gone. */
  ghost predicate Took(bm: seq<bool>, bm': seq<bool>, k: nat, ok: bool) {
    && |bm'| == |bm|
    && if ok then ClearBits(bm) == ClearBits(bm') + k else ClearBits(bm) < k && forall x :: 0 <= x < |bm'| ==> bm'[x]
  }

  lemma {:induction false} OneTaken(bm: seq<bool>, b: nat)
    requires b < |bm| && !bm[b]
    ensures Took(bm, bm[b := true], 1, true)
    decreases |bm|
  {
    var l := |bm| - 1;
    if b < l {
      OneTaken(bm[..l], b);
      assert bm[b := true][..l] == bm[..l][b := true];
    } else {
      assert bm[b := true][..l] == bm[..l];
    }
  }

  lemma {:induction false} NoneClear(bm: seq<bool>)
    requires forall x :: 0 <= x < |bm| ==> bm[x]
    ensures ClearBits(bm) == 0
    decreases |bm|
  {
    if bm != [] { NoneClear(bm[..|bm| - 1]); }
  }

  lemma {:induction false} NoneTaken(bm: seq<bool>)
    ensures Took(bm, bm, 0, true)
  {
  }

  lemma {:induction false} TookThen(bm: seq<bool>, bm1: seq<bool>, bm2: seq<bool>, k1: nat, k2: nat, ok: bool)
    requires Took(bm, bm1, k1, true) && Took(bm1, bm2, k2, ok)
    ensures Took(bm, bm2, k1 + k2, ok)
  {
  }

  lemma {:induction false} TookSays(bm: seq<bool>, bm': seq<bool>, k: nat, ok: bool)
    requires Took(bm, bm', k, ok)
    ensures |bm'| == |bm| && (ok <==> ClearBits(bm) >= k) && (!ok ==> forall x :: 0 <= x < |bm'| ==> bm'[x])
  {
  }

  lemma {:induction false} NoGrowth(bm: seq<bool>, size: nat)
    ensures FileBlocks(size, size) == 0 && Took(bm, bm, 0, true)
  {
  }

  /** A file grown from size0 to size1 grows to size2, on the way to end. */
  lemma {:induction false} Grows(bm: seq<bool>, bm1: seq<bool>, bm2: seq<bool>, size0: nat, size1: nat, size2: nat,
      end: nat, ok: bool)
    requires size0 <= size1 <= size2 <= end
    requires Took(bm, bm1, FileBlocks(size0, size1), true) && Took(bm1, bm2, FileBlocks(size1, size2), ok)
    ensures Took(bm, bm2, FileBlocks(size0, if ok then size2 else end), ok)
  {
    assert BlocksFor(size0) <= BlocksFor(size1) <= BlocksFor(size2) <= BlocksFor(end);
  }

  lemma {:induction false} StillShort(bm: seq<bool>, bm': seq<bool>, k: nat, k': nat)
    requires Took(bm, bm', k, false) && k <= k'
    ensures Took(bm, bm', k', false)
  {
  }

  lemma {:induction false} StepArith(size: nat, off: nat, tot: nat, k: nat)
    requires off <= size <= MAXBYTES && off + tot + k <= MAXBYTES && k >= 1 && (off + tot) % BSIZE + k <= BSIZE
    requires tot == 0 || (off + tot) % BSIZE == 0
    ensures var m, o := MappedAfter(size, off, tot), off + tot;
      && o / BSIZE <= m && NextMapped(m, o) == MappedAfter(size, off, tot + k)
      && BlocksTouched(off, tot) + 1 == BlocksTouched(off, tot + k)
      && BitsTouched(size, off, tot) + BitmapWrites(m, o) == BitsTouched(size, off, tot + k)
      && m >= BlocksFor(size)
      && (MappedAfter(size, off, tot + k) == BlocksFor(size) ==> m == BlocksFor(size) && o / BSIZE < m)
  {
    var o := off + tot;
    assert (o + k - 1) / BSIZE == o / BSIZE;
    if tot > 0 { assert (o - 1) / BSIZE + 1 == o / BSIZE; }
  }

  lemma {:induction false} EndArith(size: nat, off: nat, n: nat)
    requires off <= size <= MAXBYTES && off + n <= MAXBYTES
    ensures n == 0 || off + n <= size ==> MappedAfter(size, off, n) == BlocksFor(size)
    ensures n > 0 && off + n > size ==> MappedAfter(size, off, n) == BlocksFor(off + n)
    ensures BitsTouched(size, off, n) == FileBlocks(size, if n > 0 && off + n > size then off + n else size)
    ensures n <= 3 * BSIZE ==> BlocksTouched(off, n) <= 4 && BitsTouched(size, off, n) <= 4
  {
  }

  lemma {:induction false} UnionSize(a: set<nat>, b: set<nat>)
    ensures |a + b| <= |a| + |b|
  {
    assert a + b == a + (b - a);
    assert |a + (b - a)| == |a| + |b - a|;
    assert b == (b - a) + (b * a);
    assert |b| == |b - a| + |b * a|;
  }

  /** Blocks mapped after a write at offset o. */
  function NextMapped(m: nat, o: nat): nat { if o / BSIZE < m then m else m + 1 }

  /** How many bitmap blocks that write may log: one for the data block, one for a new
      indirect block. */
  function BitmapWrites(m: nat, o: nat): nat {
    if o / BSIZE < m then 0 else if m == NDIRECT then 2 else 1
  }

  /** The tests at the top of writei. */
  predicate Refused(size: nat, off: word, n: nat) {
    off > size || (off + n) % U32 < off || off + n > MAXBYTES
  }

  /** Reading a plain byte sequence, with the 32-bit overflow test of readi. */
  function FlatRead(c: seq<byte>, off: word, n: word): (r: Option<seq<byte>>)
  {
    if off > |c| || (off + n) % U32 < off then None
    else if off + n > |c| then Some(c[off..])
    else Some(c[off..off + n])
  }

  /** readi's tests and its cut of n. */
  lemma {:induction false} ReadRange(c: seq<byte>, off: word, n: word)
    requires |c| <= MAXBYTES
    ensures off > |c| || (off + n) % U32 < off ==> FlatRead(c, off, n) == None
    ensures off <= |c| && (off + n) % U32 >= off ==>
      var want := if (off + n) % U32 > |c| then |c| - off else n;
      off + want <= |c| && FlatRead(c, off, n) == Some(c[off..off + want])
  {
    if off <= |c| && (off + n) % U32 >= off {
      assert off + n < U32 && c[off..off + (|c| - off)] == c[off..];
    }
  }

  lemma {:induction false} BlockWithin(o: nat, size: nat)
    requires o < size <= MAXBYTES
    ensures o / BSIZE < BlocksFor(size) <= MAXFILE
  {
  }

  /** Every file but n has no holes, still. */
  lemma {:induction false} OthersNoHoles(t: Table, d: Data, t': Table, d': Data, n: nat)
    requires OthersSame(t, d, t', d', n) && forall i :: 0 <= i < |t| && i != n ==> NoHoles(t, d, i)
    ensures forall i :: 0 <= i < |t'| && i != n ==> NoHoles(t', d', i)
  {
    forall i | 0 <= i < |t'| && i != n ensures NoHoles(t', d', i) {
      assert NoHoles(t, d, i);
      MappedKept(t, d, t', d', n, i, BlocksFor(t[i].size));
    }
  }

  /** bmap has taken (t0, d0) to (t, d); now w is stored at offset o. */
  lemma {:induction false} StoreStep(sb: Super, bm: seq<bool>, t0: Table, d0: Data, t: Table, d: Data, n: nat,
      c: seq<byte>, o: nat, w: seq<byte>, m: nat)
    requires Kept(t0, d0, t, d) && OthersSame(t0, d0, t, d, n) && StartsWith(t0, d0, n, c)
    requires n < |t| && Owned(sb, bm, t, d) && Mapped(t, d, n, m) && o / BSIZE < m && o <= |c|
    requires 1 <= |w| && o % BSIZE + |w| <= BSIZE && o + |w| <= MAXBYTES
    requires forall i :: 0 <= i < |t| && i != n ==> NoHoles(t, d, i)
    ensures var a := BlockOf(t, d, n, o / BSIZE); 0 < a < |d| && var d' := d[a := Blit(d[a], o % BSIZE, w)];
      && Owned(sb, bm, t, d') && Mapped(t, d', n, m) && StartsWith(t, d', n, FlatWrite(c, o, w))
      && OthersKept(t0, d0, t, d', n) && forall i :: 0 <= i < |t| && i != n ==> NoHoles(t, d', i)
  {
    hide Owned, Kept, OthersSame, FirstMapped, StartsWith, OthersKept, FlatWrite;
    assert o / BSIZE < MAXFILE;
    InRange(sb, bm, t, d, n, o / BSIZE);
    var a := BlockOf(t, d, n, o / BSIZE);
    var x := Blit(d[a], o % BSIZE, w);
    StoreKeeps(sb, bm, t, d, n, o / BSIZE, m, x);
    GrewOthersKept(t0, d0, t, d, n);
    OthersKeptTrans(t0, d0, t, d, t, d[a := x], n);
    StartsKept(t0, d0, t, d, n, c);
    StartsWrite(sb, bm, t, d, n, c, o, w);
    OthersNoHoles(t, d, t, d[a := x], n);
  }

  lemma {:induction false} AppendDirect(sb: Super, bm: seq<bool>, t: Table, d: Data, n: nat, m: nat, b: nat)
    requires Owned(sb, bm, t, d) && Mapped(t, d, n, m) && m < NDIRECT && b < |bm| && !bm[b]
    requires forall i :: 0 <= i < |t| && i != n ==> NoHoles(t, d, i)
    ensures var t', d' := WithAddr(t, n, m, b), d[b := Zero()];
      && Owned(sb, bm[b := true], t', d') && Mapped(t', d', n, m + 1) && BlockOf(t', d', n, m) == b && 0 < b
      && Kept(t, d, t', d') && OthersSame(t, d, t', d', n)
      && forall i :: 0 <= i < |t'| && i != n ==> NoHoles(t', d', i)
  {
    var t', d' := WithAddr(t, n, m, b), d[b := Zero()];
    assert BlockOf(t, d, n, m) == t[n].addrs[m];
    assert Accounted(sb, bm, t, d, 0);
    DirectKeeps(sb, bm, t, d, n, m, b);
    FirstMappedGrows(t, d, t', d', n, m, b);
    OthersNoHoles(t, d, t', d', n);
  }

  lemma {:induction false} AppendIndirect(sb: Super, bm: seq<bool>, t: Table, d: Data, n: nat, b: nat)
    requires Owned(sb, bm, t, d) && Mapped(t, d, n, NDIRECT) && b < |bm| && !bm[b]
    requires forall i :: 0 <= i < |t| && i != n ==> NoHoles(t, d, i)
    ensures var t', d' := WithAddr(t, n, NDIRECT, b), d[b := Zero()];
      && Owned(sb, bm[b := true], t', d') && FirstMapped(t', d', n, NDIRECT) && 0 < b
      && Kept(t, d, t', d') && OthersSame(t, d, t', d', n)
      && forall i :: 0 <= i < |t'| && i != n ==> NoHoles(t', d', i)
  {
    var t', d' := WithAddr(t, n, NDIRECT, b), d[b := Zero()];
    assert Accounted(sb, bm, t, d, 0);
    IndirectKeeps(sb, bm, t, d, n, b);
    FirstMappedSame(t, d, t', d', n, NDIRECT, Indirect(n), b);
    OthersNoHoles(t, d, t', d', n);
  }

  lemma {:induction false} AppendEntry(sb: Super, bm: seq<bool>, t: Table, d: Data, n: nat, m: nat, b: nat)
    requires Owned(sb, bm, t, d) && FirstMapped(t, d, n, m) && NDIRECT <= m < MAXFILE && b < |bm| && !bm[b]
    requires 0 < t[n].addrs[NDIRECT] < |d|
    requires forall i :: 0 <= i < |t| && i != n ==> NoHoles(t, d, i)
    ensures b < U32 && t[n].addrs[NDIRECT] != b
    ensures var a := t[n].addrs[NDIRECT]; var d' := d[b := Zero()][a := SetWord(d[a], m - NDIRECT, b)];
      && Owned(sb, bm[b := true], t, d') && Mapped(t, d', n, m + 1) && BlockOf(t, d', n, m) == b && 0 < b
      && Kept(t, d, t, d') && OthersSame(t, d, t, d', n)
      && forall i :: 0 <= i < |t| && i != n ==> NoHoles(t, d', i)
  {
    assert BlockOf(t, d, n, m) == 0;
    assert Accounted(sb, bm, t, d, 0);
    EntryKeeps(sb, bm, t, d, n, m - NDIRECT, b);
    var a := t[n].addrs[NDIRECT];
    var d' := d[b := Zero()][a := SetWord(d[a], m - NDIRECT, b)];
    FirstMappedGrows(t, d, t, d', n, m, b);
    OthersNoHoles(t, d, t, d', n);
  }

  // ----- open files (file.c, sys_lseek) -----

  /** A file as a plain byte sequence with an offset. */
  datatype Flat = Flat(content: seq<byte>, off: word)

  /** filewrite's chunk: three blocks' worth, ((MAXOPBLOCKS-1-1-2) / 2) * 512. */
  const CHUNK: nat := 1536

  function ChunkLength(n: nat): nat { if n > CHUNK then CHUNK else n }

  /** One chunk of a filewrite. */
  function ChunkStep(f: Flat, w: seq<byte>): (Flat, bool) {
    if Refused(|f.content|, f.off, |w|) then (f, false) else (Flat(FlatWrite(f.content, f.off, w), f.off + |w|), true)
  }

  function FlatFileRead(f: Flat, n: word): (Flat, Option<seq<byte>>) {
    var r := FlatRead(f.content, f.off, n);
    if r.Some? && f.off + |r.value| < U32 then (f.(off := f.off + |r.value|), r) else (f, r)
  }

  /** filewrite on a plain byte sequence: chunk after chunk until one is refused. */
  function FlatFileWrite(f: Flat, src: seq<byte>): (Flat, bool)
    decreases |src|
  {
    if src == [] then (f, true)
    else
      var k := ChunkLength(|src|);
      var (g, r) := ChunkStep(f, src[..k]);
      if r then FlatFileWrite(g, src[k..]) else (g, false)
  }

  lemma {:induction false} WriteUnfolds(f: Flat, src: seq<byte>, i: nat)
    requires i < |src|
    ensures var k := ChunkLength(|src| - i); var (g, r) := ChunkStep(f, src[i..i + k]);
      FlatFileWrite(f, src[i..]) == if r then FlatFileWrite(g, src[i + k..]) else (g, false)
  {
    var k := ChunkLength(|src| - i);
    assert src[i..][..k] == src[i..i + k] && src[i..][k..] == src[i + k..];
  }

  /** A write never shortens a file. */
  lemma {:induction false} NeverShorter(f: Flat, src: seq<byte>)
    ensures |FlatFileWrite(f, src).0.content| >= |f.content|
    decreases |src|
  {
    if src != [] {
      var k := ChunkLength(|src|);
      var (g, r) := ChunkStep(f, src[..k]);
      if r { NeverShorter(g, src[k..]); }
    }
  }

  lemma {:induction false} Lengthens(f: Flat, src: seq<byte>, i: nat)
    requires i < |src|
    ensures var g := ChunkStep(f, src[i..i + ChunkLength(|src| - i)]).0;
      |f.content| <= |g.content| <= |FlatFileWrite(f, src[i..]).0.content|
  {
    WriteUnfolds(f, src, i);
    var k := ChunkLength(|src| - i);
    NeverShorter(ChunkStep(f, src[i..i + k]).0, src[i + k..]);
  }

  lemma {:induction false} WriteNothing(f: Flat, src: seq<byte>)
    requires src == []
    ensures FlatFileWrite(f, src) == (f, true)
  {
  }

  /** whence 0, 1, 2: from the start, the current offset, the end; None for -1. */
  function FlatSeek(f: Flat, offset: int, whence: int): (Flat, Option<word>) {
    if whence < 0 || whence > 2 then (f, None)
    else
      var base := if whence == 0 then 0 else if whence == 1 then f.off else |f.content|;
      var o: word := (base + offset) % U32;
      (f.(off := o), Some(o))
  }

  /** struct file, for an inode. */
  class OpenFile {
    const fs: Fs
    const ip: Inode
    const readable: bool
    const writable: bool
    var off: word

    constructor (f: Fs, i: Inode, r: bool, w: bool)
      ensures fs == f && ip == i && readable == r && writable == w && off == 0
    {
      fs, ip, readable, writable, off := f, i, r, w, 0;
    }

    ghost predicate Valid()
      reads this, fs, ip
    { ip.inum < |fs.dinodes| && fs.Settled(ip) && fs.dinodes[ip.inum] == ip.din }

    ghost function Abs(): Flat
      reads this, fs, ip
      requires Valid()
    { Flat(fs.ContentOf(ip), off) }

    /** fileread. */
    method Read(n: word) returns (r: Option<seq<byte>>)
      requires Valid()
      modifies this`off, fs`bitmap, fs`data, fs`logged, ip`din
      ensures Valid() && (readable ==> (Abs(), r) == FlatFileRead(old(Abs()), n))
      ensures !readable ==> r.None? && Abs() == old(Abs())
      ensures fs.bitmap == old(fs.bitmap) && fs.data == old(fs.data) && ip.din == old(ip.din)
    {
      if !readable { return None; }
      r := fs.Readi(ip, off, n);
      if r.Some? && |r.value| > 0 { off := off + |r.value|; }
    }

    /** filewrite: true for n, false for -1; ok is false for a panic.  worst is the most
        blocks any one chunk's transaction logged. */
    method Write(src: seq<byte>) returns (r: bool, ok: bool, ghost worst: nat)
      requires Valid() && |src| < U32 / 2
      modifies this`off, fs`bitmap, fs`data, fs`logged, fs`dinodes, ip`din
      ensures ok ==> Valid() && worst <= LogBound(fs.sb)
      ensures ok && writable ==> (Abs(), r) == FlatFileWrite(old(Abs()), src)
      ensures !writable ==> ok && !r && Abs() == old(Abs())
      ensures ok ==> OthersKept(old(fs.Tab(ip)), old(fs.data), fs.Tab(ip), fs.data, ip.inum)
      ensures ok ==> ip.din == old(ip.din).(size := ip.din.size, addrs := ip.din.addrs)
      ensures writable ==>
        Took(old(fs.bitmap), fs.bitmap, FileBlocks(old(ip.din).size, |FlatFileWrite(old(Abs()), src).0.content|), ok)
      ensures !writable ==> fs.bitmap == old(fs.bitmap)
      ensures !ok ==> |fs.bitmap| == fs.sb.size && forall x :: 0 <= x < fs.sb.size ==> fs.bitmap[x]
    {
      hide OthersKept, FlatWrite, Fs.Settled, FlatFileWrite, Took, FileBlocks;
      worst, ok := 0, true;
      SelfKept();
      if !writable { return false, true, 0; }
      ghost var size0, end := ip.din.size, |FlatFileWrite(Abs(), src).0.content|;
      NoGrowth(fs.bitmap, size0);
      var i := 0;
      assert src[0..] == src;
      while i < |src|
        invariant 0 <= i <= |src| && Valid() && worst <= LogBound(fs.sb) && ok
        invariant FlatFileWrite(Abs(), src[i..]) == FlatFileWrite(old(Abs()), src)
        invariant OthersKept(old(fs.Tab(ip)), old(fs.data), fs.Tab(ip), fs.data, ip.inum)
        invariant ip.din == old(ip.din).(size := ip.din.size, addrs := ip.din.addrs)
        invariant size0 <= ip.din.size && Took(old(fs.bitmap), fs.bitmap, FileBlocks(size0, ip.din.size), true)
      {
        ghost var t1, d1, bm1, f1 := fs.Tab(ip), fs.data, fs.bitmap, Abs();
        ghost var f2 := ChunkStep(f1, src[i..i + ChunkLength(|src| - i)]).0;
        WriteUnfolds(Abs(), src, i);
        Lengthens(f1, src, i);
        r, ok := WriteChunk(src, i);
        Grows(old(fs.bitmap), bm1, fs.bitmap, size0, |f1.content|, |f2.content|, end, ok);
        if !ok { return false, false, worst; }
        OthersKeptTrans(old(fs.Tab(ip)), old(fs.data), t1, d1, fs.Tab(ip), fs.data, ip.inum);
        worst := if |fs.logged| > worst then |fs.logged| else worst;
        if !r { return false, true, worst; }
        i := i + ChunkLength(|src| - i);
      }
      WriteNothing(Abs(), src[i..]);
      return true, true, worst;
    }

    /** The body of filewrite's loop: one transaction. */
    method WriteChunk(src: seq<byte>, i: nat) returns (r: bool, ok: bool)
      requires Valid() && i < |src| < U32 / 2
      modifies this`off, fs`bitmap, fs`data, fs`logged, fs`dinodes, ip`din
      ensures ok ==> Valid() && |fs.logged| <= LogBound(fs.sb)
      ensures ok ==> (Abs(), r) == ChunkStep(old(Abs()), src[i..i + ChunkLength(|src| - i)])
      ensures ok ==> ip.din == old(ip.din).(size := ip.din.size, addrs := ip.din.addrs)
      ensures ok ==> OthersKept(old(fs.Tab(ip)), old(fs.data), fs.Tab(ip), fs.data, ip.inum)
      ensures var f := ChunkStep(old(Abs()), src[i..i + ChunkLength(|src| - i)]).0;
        Took(old(fs.bitmap), fs.bitmap, FileBlocks(old(ip.din).size, |f.content|), ok)
      ensures !ok ==> |fs.bitmap| == fs.sb.size && forall x :: 0 <= x < fs.sb.size ==> fs.bitmap[x]
    {
      hide OthersKept, FlatWrite, Fs.Working, Took, FileBlocks;
      NoGrowth(fs.bitmap, ip.din.size);
      SelfKept();
      var k := ChunkLength(|src| - i);
      fs.logged := {};
      var n;
      n, ok := fs.Writei(ip, off, src[i..i + k]);
      r := n >= 0;
      if ok && r { off := off + k; }
    }

    lemma {:induction false} SelfKept()
      requires ip.inum < |fs.dinodes|
      ensures OthersKept(fs.Tab(ip), fs.data, fs.Tab(ip), fs.data, ip.inum)
    {
    }

    /** sys_lseek. */
    method Lseek(offset: int, whence: int) returns (r: Option<word>)
      requires Valid()
      modifies this`off
      ensures Valid() && (Abs(), r) == FlatSeek(old(Abs()), offset, whence)
    {
      if whence == 0 { off := offset % U32; }
      else if whence == 1 { off := (off + offset) % U32; }
      else if whence == 2 { off := (ip.din.size + offset) % U32; }
      else { return None; }
      return Some(off);
    }
  }

  /** What filewrite amounts to: past the end nothing is written, so no hole ever appears;
      a write that fits is one flat write; otherwise the whole chunks that fit are written
      and the call fails. */
  lemma {:induction false} FileWriteMeaning(f: Flat, src: seq<byte>)
    requires |f.content| <= MAXBYTES && |src| < U32 / 2
    ensures var (g, r) := FlatFileWrite(f, src);
      if src == [] then g == f && r
      else if f.off > |f.content| then g == f && !r
      else if f.off + |src| <= MAXBYTES then r && g == Flat(FlatWrite(f.content, f.off, src), f.off + |src|)
      else var k := (MAXBYTES - f.off) / CHUNK * CHUNK;
        k <= |src| && !r && g == Flat(FlatWrite(f.content, f.off, src[..k]), f.off + k)
    decreases |src|
  {
    hide FlatWrite, FlatFileWrite, ChunkLength;
    if src == [] {
      WriteNothing(f, src);
    } else {
      var k := FirstChunk(f, src);
      if f.off <= |f.content| {
        if f.off + k <= MAXBYTES {
          FileWriteMeaning(Flat(FlatWrite(f.content, f.off, src[..k]), f.off + k), src[k..]);
          RestOfWrite(f, src, k);
        } else {
          WriteZero(f.content, f.off, src);
        }
      }
    }
  }

  /** The first chunk is written, or the write ends. */
  lemma {:induction false} FirstChunk(f: Flat, src: seq<byte>) returns (k: nat)
    requires |f.content| <= MAXBYTES && 0 < |src| < U32 / 2
    ensures 0 < k == ChunkLength(|src|) <= |src| && k <= CHUNK && (k < CHUNK ==> k == |src|)
    ensures
      if f.off <= |f.content| && f.off + k <= MAXBYTES then
        var f' := Flat(FlatWrite(f.content, f.off, src[..k]), f.off + k);
        FlatFileWrite(f, src) == FlatFileWrite(f', src[k..]) && f'.off <= |f'.content| <= MAXBYTES
      else FlatFileWrite(f, src) == (f, false)
  {
    k := ChunkLength(|src|);
    if f.off <= |f.content| { WrittenLength(f.content, f.off, src[..k]); }
  }

  lemma {:induction false} WriteZero(c: seq<byte>, off: nat, src: seq<byte>)
    requires off <= |c|
    ensures FlatWrite(c, off, src[..0]) == c
  {
  }

  lemma {:induction false} RestOfWrite(f: Flat, src: seq<byte>, k: nat)
    requires f.off <= |f.content| <= MAXBYTES && 0 < k == ChunkLength(|src|) && f.off + k <= MAXBYTES
    ensures var w := FlatWrite(f.content, f.off, src[..k]);
      && f.off + k <= |w|
      && FlatWrite(w, f.off + k, src[k..]) == FlatWrite(f.content, f.off, src)
      && (k == |src| ==> w == FlatWrite(f.content, f.off, src))
      && var l := (MAXBYTES - f.off) / CHUNK * CHUNK;
      && (f.off + |src| > MAXBYTES ==> k <= l <= |src| && (MAXBYTES - (f.off + k)) / CHUNK * CHUNK == l - k)
      && (f.off + |src| > MAXBYTES ==>
        FlatWrite(w, f.off + k, src[k..][..l - k]) == FlatWrite(f.content, f.off, src[..l]))
  {
    hide FlatWrite;
    WrittenLength(f.content, f.off, src[..k]);
    FlatWriteTwice(f.content, f.off, src, k, |src|);
    assert src[..|src|] == src && src[k..|src|] == src[k..];
    if f.off + |src| > MAXBYTES {
      var l := WholeChunks(f.off, |src|, k);
      assert src[k..][..l - k] == src[k..l];
      FlatWriteTwice(f.content, f.off, src, k, l);
    }
  }

  lemma {:induction false} WholeChunks(off: nat, n: nat, k: nat) returns (l: nat)
    requires 0 < k == ChunkLength(n) && off + k <= MAXBYTES < off + n
    ensures l == (MAXBYTES - off) / CHUNK * CHUNK && k <= l <= n && (MAXBYTES - (off + k)) / CHUNK * CHUNK == l - k
  {
    l := (MAXBYTES - off) / CHUNK * CHUNK;
    var q := (MAXBYTES - off) / CHUNK;
    assert (MAXBYTES - (off + k)) / CHUNK == q - 1;
  }

  /** Reading n bytes and then n' more is reading n + n' at once. */
  lemma {:induction false} ReadsAddUp(f: Flat, n: word, n': word)
    requires f.off <= |f.content| <= MAXBYTES && f.off + n + n' < U32
    ensures var (g, a) := FlatFileRead(f, n); var (g', b) := FlatFileRead(g, n');
      a.Some? && b.Some? && FlatFileRead(f, n + n') == (g', Some(a.value + b.value))
  {
    var end := if f.off + n > |f.content| then |f.content| else f.off + n;
    var end' := if end + n' > |f.content| then |f.content| else end + n';
    ReadTo(f, n, end);
    ReadTo(f.(off := end), n', end');
    ReadTo(f, n + n', end');
    assert f.content[f.off..end] + f.content[end..end'] == f.content[f.off..end'];
  }

  lemma {:induction false} ReadTo(f: Flat, n: word, end: nat)
    requires f.off <= |f.content| <= MAXBYTES && f.off + n < U32
    requires end == if f.off + n > |f.content| then |f.content| else f.off + n
    ensures FlatFileRead(f, n) == (f.(off := end), Some(f.content[f.off..end]))
  {
    assert f.content[f.off..|f.content|] == f.content[f.off..];
  }

  /** What was written is read back after seeking to where it was written, from the start, from the
      current offset or from the end, and the reader ends where the writer did. */
  lemma {:induction false} ReadBack(f: Flat, src: seq<byte>, offset: int, whence: int)
    requires |f.content| <= MAXBYTES && 0 < |src| < U32 / 2 && FlatFileWrite(f, src).1 && 0 <= whence <= 2
    requires var g := FlatFileWrite(f, src).0;
      offset == f.off - (if whence == 0 then 0 else if whence == 1 then g.off else |g.content|)
    ensures var g := FlatFileWrite(f, src).0;
      FlatSeek(g, offset, whence) == (g.(off := f.off), Some(f.off))
      && FlatFileRead(FlatSeek(g, offset, whence).0, |src|) == (g, Some(src))
  {
    hide FlatFileWrite, FlatWrite, FlatFileRead;
    var g := FlatFileWrite(f, src).0;
    Refusals(f, src);
    WrittenBytes(f.content, f.off, src);
    ReadTo(g.(off := f.off), |src|, f.off + |src|);
  }

  /** A write that goes through was inside the limits. */
  lemma {:induction false} Refusals(f: Flat, src: seq<byte>)
    requires |f.content| <= MAXBYTES && 0 < |src| < U32 / 2 && FlatFileWrite(f, src).1
    ensures f.off <= |f.content| && f.off + |src| <= MAXBYTES
    ensures FlatFileWrite(f, src).0 == Flat(FlatWrite(f.content, f.off, src), f.off + |src|)
  {
    FileWriteMeaning(f, src);
  }

  lemma {:induction false} WrittenBytes(c: seq<byte>, off: nat, w: seq<byte>)
    requires off <= |c|
    ensures off + |w| <= |FlatWrite(c, off, w)| && FlatWrite(c, off, w)[off..off + |w|] == w
    ensures |FlatWrite(c, off, w)| <= if |c| > off + |w| then |c| else off + |w|
  {
  }

  /** After seeking past the end, a write of anything is refused and the file is as before. */
  lemma {:induction false} SeekPastEndWritesNothing(f: Flat, offset: int, whence: int, src: seq<byte>)
    requires |f.content| <= MAXBYTES && 0 < |src| < U32 / 2 && FlatSeek(f, offset, whence).0.off > |f.content|
    ensures FlatFileWrite(FlatSeek(f, offset, whence).0, src).0.content == f.content
    ensures !FlatFileWrite(FlatSeek(f, offset, whence).0, src).1
  {
    FileWriteMeaning(FlatSeek(f, offset, whence).0, src);
  }
}
