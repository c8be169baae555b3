/** How many blocks itrunc and iput log (fs.c:331-352, 407-435), against what an operation may log
    (param.h): it depends on how far apart the blocks of a file can lie. */
module LogBounds {
  import opened Common
  import opened Blocks
  import opened FsSpec
  import opened FileSys

  /** How many bitmap blocks have bits of data blocks. */
  function DataBitmaps(sb: Super): nat {
    if sb.nmeta < sb.size then (sb.size - 1) / BPB - sb.nmeta / BPB + 1 else 0
  }

  ghost function FirstFew(start: nat, k: nat): (s: set<nat>)
    ensures |s| == k && forall x :: x in s <==> start <= x < start + k
  { if k == 0 then {} else FirstFew(start, k - 1) + {start + k - 1} }

  lemma {:induction false} Subset(a: set<nat>, b: set<nat>)
    requires a <= b
    ensures |a| <= |b|
  {
    if a != {} {
      var x :| x in a;
      Subset(a - {x}, b - {x});
    }
  }

  lemma {:induction false} BitsWithin(sb: Super, bm: seq<bool>, t: Table, d: Data, n: nat, q: nat)
    requires Owned(sb, bm, t, d) && n < |t| && q <= SLOTS
    ensures FreedBits(sb, t, d, n, q) <= FirstFew(sb.bmapstart + sb.nmeta / BPB, DataBitmaps(sb))
  {
    hide Owned, Ref, DataBitmaps, BBlock, FirstFew;
    if q > 0 {
      BitsWithin(sb, bm, t, d, n, q - 1);
      var r := Ref(t, d, SlotAt(n, q - 1));
      if r != 0 { BitWithin(sb, bm, t, d, SlotAt(n, q - 1)); }
    }
  }

  lemma {:induction false} BitWithin(sb: Super, bm: seq<bool>, t: Table, d: Data, s: Slot)
    requires Owned(sb, bm, t, d) && IsSlot(t, s) && Ref(t, d, s) != 0
    ensures BBlock(sb, Ref(t, d, s)) in FirstFew(sb.bmapstart + sb.nmeta / BPB, DataBitmaps(sb))
  {
    assert RefOk(sb, bm, t, d, s);
    Ordered(sb.nmeta, Ref(t, d, s), sb.size - 1);
  }

  lemma {:induction false} Ordered(a: nat, b: nat, c: nat)
    requires a <= b <= c
    ensures a / BPB <= b / BPB <= c / BPB
  {
  }

  /** Freeing the blocks of an inode and updating it stays within what one operation may log. */
  ghost predicate TruncFits(sb: Super, t: Table, d: Data, n: nat)
    requires n < |t|
  { |FreedBits(sb, t, d, n, SLOTS)| + 1 <= MAXOPBLOCKS }

  ghost predicate AlwaysFits(sb: Super) {
    forall bm, t, d, n: nat :: FsInv(sb, bm, t, d) && n < |t| ==> TruncFits(sb, t, d, n)
  }

  // ----- a file spread over ten bitmap blocks -----

  /** Block i of the file: the first data block with its bit in the i-th bitmap block. */
  function Spread(sb: Super, i: nat): nat { if i == 0 then sb.nmeta else (sb.nmeta / BPB + i) * BPB }

  function SpreadInode(sb: Super): Dinode {
    Dinode(2, 0, 0, 1, 10 * BSIZE, seq(13, i requires 0 <= i < 13 => if i < 10 then Spread(sb, i) else 0))
  }

  ghost predicate IsSpread(sb: Super, b: nat) { exists i: nat :: i < 10 && b == Spread(sb, i) }

  ghost function SpreadMap(sb: Super): seq<bool> { seq(sb.size, b => b < sb.nmeta || IsSpread(sb, b)) }

  lemma {:induction false} SpreadIn(sb: Super, i: nat)
    requires sb.nmeta >= 1 && DataBitmaps(sb) >= 10 && i < 10
    ensures sb.nmeta <= Spread(sb, i) < sb.size && Spread(sb, i) / BPB == sb.nmeta / BPB + i
  {
    var q := sb.nmeta / BPB;
    assert (sb.size - 1) / BPB >= q + 9;
    if i > 0 {
      assert (q + i) * BPB <= ((sb.size - 1) / BPB) * BPB <= sb.size - 1;
      assert sb.nmeta < (q + 1) * BPB <= (q + i) * BPB;
    }
  }

  lemma {:induction false} SpreadConsistent(sb: Super)
    requires 1 <= sb.nmeta && sb.size < U32 && DataBitmaps(sb) >= 10
    ensures FsInv(sb, SpreadMap(sb), [SpreadInode(sb)], seq(sb.size, _ => Zero()))
  {
    var bm, t, d := SpreadMap(sb), [SpreadInode(sb)], seq(sb.size, _ => Zero());
    forall i: nat | i < 10 ensures sb.nmeta <= Spread(sb, i) < sb.size && Spread(sb, i) / BPB == sb.nmeta / BPB + i {
      SpreadIn(sb, i);
    }
    hide Spread, DataBitmaps;
    forall s ensures RefOk(sb, bm, t, d, s) {}
    forall s, u ensures Unshared(t, d, s, u) {}
    forall b ensures Accounted(sb, bm, t, d, b) {
      if i: nat :| i < 10 && b == Spread(sb, i) { assert RefersTo(t, d, Direct(0, i), b); }
    }
    assert forall k {:trigger BlockOf(t, d, 0, k)} :: 0 <= k < MAXFILE ==> (BlockOf(t, d, 0, k) != 0 <==> k < 10);
  }

  lemma {:induction false} SpreadBits(sb: Super, q: nat)
    requires 1 <= sb.nmeta && DataBitmaps(sb) >= 10 && q <= 10
    ensures FreedBits(sb, [SpreadInode(sb)], seq(sb.size, _ => Zero()), 0, q) ==
      FirstFew(sb.bmapstart + sb.nmeta / BPB, q)
  {
    if q > 0 {
      SpreadBits(sb, q - 1);
      SpreadIn(sb, q - 1);
    }
  }

  lemma {:induction false} BitsGrow(sb: Super, t: Table, d: Data, n: nat, p: nat, q: nat)
    requires n < |t| && p <= q <= SLOTS
    ensures FreedBits(sb, t, d, n, p) <= FreedBits(sb, t, d, n, q)
  {
    if p < q { BitsGrow(sb, t, d, n, p, q - 1); }
  }

  /** Truncating or freeing any file of any consistent file system stays within MAXOPBLOCKS if and
      only if the data blocks have their bits in at most nine bitmap blocks.  On the disk mkfs
      makes they are all in one. */
  lemma {:induction false} TruncExact(sb: Super)
    requires 1 <= sb.nmeta <= sb.size < U32
    ensures AlwaysFits(sb) <==> DataBitmaps(sb) < MAXOPBLOCKS
  {
    if DataBitmaps(sb) < MAXOPBLOCKS {
      forall bm, t, d, n: nat | FsInv(sb, bm, t, d) && n < |t| ensures TruncFits(sb, t, d, n) {
        BitsWithin(sb, bm, t, d, n, SLOTS);
        Subset(FreedBits(sb, t, d, n, SLOTS), FirstFew(sb.bmapstart + sb.nmeta / BPB, DataBitmaps(sb)));
      }
    } else {
      var t, d: Data := [SpreadInode(sb)], seq(sb.size, _ => Zero());
      SpreadConsistent(sb);
      SpreadBits(sb, 10);
      BitsGrow(sb, t, d, 0, 10, SLOTS);
      Subset(FirstFew(sb.bmapstart + sb.nmeta / BPB, 10), FreedBits(sb, t, d, 0, SLOTS));
      assert !TruncFits(sb, t, d, 0);
    }
  }
}
