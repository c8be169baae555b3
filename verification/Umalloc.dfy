/** The user-level allocator (umalloc.c): a circular, address-ordered free list with
    splitting and coalescing.  Addresses count header-sized units; 0 is the null pointer. */
module Umalloc {
  import opened Common

  /** union header: next free block and size in units, the header included. */
  datatype Header = Header(ptr: nat, size: nat)

  type Heap = map<nat, Header>

  /** Block a ends no later than b starts. */
  ghost predicate Before(h: Heap, a: nat, b: nat) { a in h && a < b && a + h[a].size <= b }

  /** The i-th block of the ring points to the next one; base alone has size 0. */
  ghost predicate Linked(h: Heap, ring: seq<nat>, i: nat) {
    && i < |ring| && ring[i] in h && h[ring[i]].ptr == Next(ring, i)
    && (if i == 0 then h[ring[i]].size == 0 else h[ring[i]].size >= 1)
  }

  /** ring lists the free blocks once each in address order, from base round to base. */
  ghost predicate Ordered(h: Heap, base: nat, ring: seq<nat>) {
    && |ring| >= 1 && ring[0] == base
    && (forall i {:trigger Linked(h, ring, i)} :: 0 <= i < |ring| ==> Linked(h, ring, i))
    && (forall i, j {:trigger Before(h, ring[i], ring[j])} :: 0 <= i < j < |ring| ==> Before(h, ring[i], ring[j]))
  }

  /** Free blocks i and i + 1 touch. */
  ghost predicate Adjacent(h: Heap, ring: seq<nat>, i: nat) {
    i + 1 < |ring| && ring[i] in h && ring[i] + h[ring[i]].size == ring[i + 1]
  }

  /** Ordered, and no two free blocks are adjacent. */
  ghost predicate Ring(h: Heap, base: nat, ring: seq<nat>) {
    Ordered(h, base, ring) && forall i :: 0 <= i < |ring| ==> !Adjacent(h, ring, i)
  }

  function Next(ring: seq<nat>, i: nat): nat
    requires i < |ring|
  { if i + 1 < |ring| then ring[i + 1] else ring[0] }

  ghost predicate Inside(a: nat, n: nat, u: nat) { a <= u < a + n }

  /** Unit u lies in the i-th free block. */
  ghost predicate FreeAt(h: Heap, ring: seq<nat>, i: nat, u: nat) {
    1 <= i < |ring| && ring[i] in h && Inside(ring[i], h[ring[i]].size, u)
  }

  ghost predicate InFree(h: Heap, ring: seq<nat>, u: nat) { exists i :: FreeAt(h, ring, i, u) }

  ghost predicate InLive(live: map<nat, nat>, u: nat) { exists a :: a in live && Inside(a, live[a], u) }

  /** The blocks handed out overlap neither each other nor a free block. */
  ghost predicate LiveOk(h: Heap, base: nat, ring: seq<nat>, live: map<nat, nat>) {
    && (forall a :: a in live ==> a in h && a > base && h[a].size == live[a] >= 1)
    && (forall a, u :: a in live && Inside(a, live[a], u) ==> !InFree(h, ring, u))
    && (forall a, b, u :: a in live && b in live && Inside(a, live[a], u) && Inside(b, live[b], u) ==> a == b)
  }

  /** Free and live blocks together are exactly the memory obtained from sbrk. */
  ghost predicate Covers(h: Heap, ring: seq<nat>, live: map<nat, nat>, mem: set<nat>) {
    forall u :: u in mem <==> InFree(h, ring, u) || InLive(live, u)
  }

  // ----- free -----

  /** bp linked in behind p. */
  function Inserted(h: Heap, p: nat, bp: nat): Heap
    requires p in h && bp in h
  {
    h[bp := Header(h[p].ptr, h[bp].size)][p := Header(bp, h[p].size)]
  }

  /** Block a swallows the block that follows it on the list. */
  function Merged(h: Heap, a: nat): Heap
    requires a in h && h[a].ptr in h
  {
    h[a := Header(h[h[a].ptr].ptr, h[a].size + h[h[a].ptr].size)]
  }

  /** Where bp belongs: after ring[k]. */
  ghost predicate Slot(ring: seq<nat>, k: nat, bp: nat) {
    k < |ring| && ring[k] < bp && (k + 1 < |ring| ==> bp < ring[k + 1])
  }

  lemma {:induction false} InsertKeepsOrder(h: Heap, base: nat, ring: seq<nat>, k: nat, bp: nat)
    requires Ordered(h, base, ring) && Slot(ring, k, bp) && bp in h && h[bp].size >= 1
    requires ring[k] in h && Before(h, ring[k], bp) && (k + 1 < |ring| ==> Before(h, bp, ring[k + 1]))
    ensures Ordered(Inserted(h, ring[k], bp), base, ring[..k + 1] + [bp] + ring[k + 1..])
  {
    var h', r' := Inserted(h, ring[k], bp), ring[..k + 1] + [bp] + ring[k + 1..];
    assert Linked(h, ring, k);
    forall i | 0 <= i < |r'|
      ensures Linked(h', r', i)
    {
      if i <= k {
        assert r'[i] == ring[i] && Linked(h, ring, i);
        if i < k { assert Before(h, ring[i], ring[k]); }
      } else if i > k + 1 {
        assert r'[i] == ring[i - 1] && Linked(h, ring, i - 1);
        assert Before(h, ring[k], ring[i - 1]);
        if i - 1 > k + 1 { assert Before(h, ring[k + 1], ring[i - 1]); }
      }
    }
    forall i, j | 0 <= i < j < |r'|
      ensures Before(h', r'[i], r'[j])
    {
      if j <= k {
        assert Before(h, ring[i], ring[j]);
        assert r'[i] == ring[i] && r'[j] == ring[j];
      } else if j == k + 1 {
        assert r'[i] == ring[i];
        if i < k { assert Before(h, ring[i], ring[k]); }
      } else if i <= k {
        assert Before(h, ring[i], ring[j - 1]);
        assert r'[i] == ring[i] && r'[j] == ring[j - 1];
      } else if i == k + 1 {
        assert r'[j] == ring[j - 1];
        if j - 1 > k + 1 { assert Before(h, ring[k + 1], ring[j - 1]); }
      } else {
        assert Before(h, ring[i - 1], ring[j - 1]);
        assert r'[i] == ring[i - 1] && r'[j] == ring[j - 1];
      }
    }
  }

  lemma {:induction false} MergeKeepsOrder(h: Heap, base: nat, ring: seq<nat>, i: nat)
    requires Ordered(h, base, ring) && 1 <= i && Adjacent(h, ring, i) && Linked(h, ring, i) && Linked(h, ring, i + 1)
    ensures Ordered(Merged(h, ring[i]), base, ring[..i + 1] + ring[i + 2..])
  {
    var h', r' := Merged(h, ring[i]), ring[..i + 1] + ring[i + 2..];
    assert r'[0] == ring[0];
    forall j | 0 <= j < |r'|
      ensures Linked(h', r', j)
    {
      if j < i {
        assert r'[j] == ring[j] && Linked(h, ring, j);
        assert Before(h, ring[j], ring[i]) && r'[j + 1] == ring[j + 1];
      } else if j == i {
        assert h'[ring[i]].ptr == Next(ring, i + 1);
        if i + 1 < |r'| { assert r'[i + 1] == ring[i + 2]; }
        assert Next(r', i) == Next(ring, i + 1);
      } else {
        assert r'[j] == ring[j + 1] && Linked(h, ring, j + 1);
        if j + 1 < |r'| { assert r'[j + 1] == ring[j + 2]; }
        assert Before(h, ring[i], ring[j + 1]);
      }
    }
    forall a, b | 0 <= a < b < |r'|
      ensures Before(h', r'[a], r'[b])
    {
      if b <= i {
        assert Before(h, ring[a], ring[b]) && Before(h, ring[a], ring[i]);
        assert r'[a] == ring[a] && r'[b] == ring[b];
      } else if a <= i {
        assert r'[a] == ring[a] && r'[b] == ring[b + 1];
        assert Before(h, ring[a], ring[b + 1]) && Before(h, ring[i + 1], ring[b + 1]);
        if a < i { assert Before(h, ring[a], ring[i]); }
      } else {
        assert Before(h, ring[a + 1], ring[b + 1]) && Before(h, ring[i], ring[a + 1]);
        assert r'[a] == ring[a + 1] && r'[b] == ring[b + 1];
      }
    }
  }

  lemma {:induction false} InsertFrees(h: Heap, base: nat, ring: seq<nat>, k: nat, bp: nat, u: nat)
    requires Ordered(h, base, ring) && Slot(ring, k, bp) && bp in h && ring[k] in h
    ensures InFree(Inserted(h, ring[k], bp), ring[..k + 1] + [bp] + ring[k + 1..], u) <==>
      InFree(h, ring, u) || Inside(bp, h[bp].size, u)
  {
    var h', r' := Inserted(h, ring[k], bp), ring[..k + 1] + [bp] + ring[k + 1..];
    if i: nat :| FreeAt(h, ring, i, u) {
      if i <= k { assert FreeAt(h', r', i, u); } else { assert FreeAt(h', r', i + 1, u); }
    }
    if Inside(bp, h[bp].size, u) { assert FreeAt(h', r', k + 1, u); }
    if i: nat :| FreeAt(h', r', i, u) {
      if i <= k {
        assert Linked(h, ring, i) && FreeAt(h, ring, i, u);
      } else if i > k + 1 {
        assert Linked(h, ring, i - 1) && FreeAt(h, ring, i - 1, u);
      }
    }
  }

  lemma {:induction false} MergeFrees(h: Heap, base: nat, ring: seq<nat>, i: nat, u: nat)
    requires Ordered(h, base, ring) && 1 <= i && Adjacent(h, ring, i) && Linked(h, ring, i) && Linked(h, ring, i + 1)
    ensures InFree(Merged(h, ring[i]), ring[..i + 1] + ring[i + 2..], u) <==> InFree(h, ring, u)
  {
    var h', r' := Merged(h, ring[i]), ring[..i + 1] + ring[i + 2..];
    if j: nat :| FreeAt(h, ring, j, u) {
      if j <= i { assert FreeAt(h', r', j, u); }
      else if j == i + 1 { assert FreeAt(h', r', i, u); }
      else { assert Before(h, ring[i], ring[j]) && FreeAt(h', r', j - 1, u); }
    }
    if j: nat :| FreeAt(h', r', j, u) {
      if j < i {
        assert Before(h, ring[j], ring[i]) && FreeAt(h, ring, j, u);
      } else if j == i {
        assert FreeAt(h, ring, i, u) || FreeAt(h, ring, i + 1, u);
      } else {
        assert r'[j] == ring[j + 1] && Linked(h, ring, j + 1) && Before(h, ring[i], ring[j + 1]);
        assert FreeAt(h, ring, j + 1, u);
      }
    }
  }

  /** A block clear of the free list fits between its neighbours on it. */
  lemma {:induction false} FitsSlot(h: Heap, base: nat, ring: seq<nat>, k: nat, bp: nat)
    requires Ordered(h, base, ring) && Slot(ring, k, bp) && bp in h && h[bp].size >= 1
    requires forall u :: Inside(bp, h[bp].size, u) ==> !InFree(h, ring, u)
    ensures ring[k] in h && Before(h, ring[k], bp) && (k + 1 < |ring| ==> Before(h, bp, ring[k + 1]))
  {
    assert Linked(h, ring, k);
    assert Inside(bp, h[bp].size, bp);
    assert !FreeAt(h, ring, k, bp);
    if k + 1 < |ring| {
      assert Linked(h, ring, k + 1);
      assert FreeAt(h, ring, k + 1, ring[k + 1]);
      assert !Inside(bp, h[bp].size, ring[k + 1]);
    }
  }

  /** The assignments of free() once the place p is found. */
  function Joined(h: Heap, p: nat, bp: nat): Heap
    requires p in h && bp in h && h[p].ptr in h && p != bp
  {
    var q := h[p].ptr;
    var h1 := if bp + h[bp].size == q then h[bp := Header(h[q].ptr, h[bp].size + h[q].size)]
              else h[bp := Header(q, h[bp].size)];
    if p + h1[p].size == bp then h1[p := Header(h1[bp].ptr, h1[p].size + h1[bp].size)]
    else h1[p := Header(bp, h1[p].size)]
  }

  ghost function JoinedRing(h: Heap, ring: seq<nat>, k: nat, bp: nat): seq<nat>
    requires k < |ring| && ring[k] in h && bp in h
  {
    ring[..k + 1]
    + (if ring[k] + h[ring[k]].size == bp then [] else [bp])
    + (if k + 1 < |ring| && bp + h[bp].size == ring[k + 1] then ring[k + 2..] else ring[k + 1..])
  }

  /** free() merges every pair of neighbours it creates. */
  lemma {:induction false} JoinNotAdjacent(h: Heap, base: nat, ring: seq<nat>, k: nat, bp: nat)
    requires Ring(h, base, ring) && Slot(ring, k, bp) && bp in h && Linked(h, ring, k) && h[ring[k]].ptr in h
    requires Before(h, ring[k], bp) && (k + 1 < |ring| ==> Before(h, bp, ring[k + 1]))
    ensures var hf, rf := Joined(h, ring[k], bp), JoinedRing(h, ring, k, bp);
      forall i :: 0 <= i < |rf| ==> !Adjacent(hf, rf, i)
  {
    var hf, rf := Joined(h, ring[k], bp), JoinedRing(h, ring, k, bp);
    var up := k + 1 < |ring| && bp + h[bp].size == ring[k + 1];
    var down := ring[k] + h[ring[k]].size == bp;
    var shift := (if up then 1 else 0) + (if down then 0 else -1);
    assert k + 1 < |ring| ==> !Adjacent(h, ring, k + 1) && Linked(h, ring, k + 1);
    forall i | 0 <= i < |rf| ensures !Adjacent(hf, rf, i) {
      if i < k {
        assert rf[i] == ring[i] && rf[i + 1] == ring[i + 1] && Before(h, ring[i], ring[k]);
        assert !Adjacent(h, ring, i);
      } else if i > k && (down || i > k + 1) {
        var j := i + shift;
        assert j > k && rf[i] == ring[j] && (j + 1 < |ring| ==> rf[i + 1] == ring[j + 1]);
        assert Before(h, ring[k], ring[j]) && !Adjacent(h, ring, j);
        if j > k + 1 { assert Before(h, ring[k + 1], ring[j]); }
      }
    }
  }

  /** The heap and the ring with block i and the next one merged if they touch. */
  ghost function Closed(h: Heap, ring: seq<nat>, i: nat): (Heap, seq<nat>) {
    if Adjacent(h, ring, i) && h[ring[i]].ptr in h then (Merged(h, ring[i]), ring[..i + 1] + ring[i + 2..])
    else (h, ring)
  }

  lemma {:induction false} CloseStep(h: Heap, base: nat, ring: seq<nat>, i: nat)
    requires Ordered(h, base, ring) && i < |ring|
    ensures var (h', r') := Closed(h, ring, i); Ordered(h', base, r') && forall u :: InFree(h', r', u) <==>
      InFree(h, ring, u)
  {
    hide InFree;
    assert Linked(h, ring, i) && (i + 1 < |ring| ==> Linked(h, ring, i + 1));
    if Adjacent(h, ring, i) {
      assert Before(h, ring[i], ring[i + 1]);
      MergeStep(h, base, ring, i);
    }
  }

  lemma {:induction false} InsertStep(h: Heap, base: nat, ring: seq<nat>, k: nat, bp: nat)
    requires Ordered(h, base, ring) && Slot(ring, k, bp) && bp in h && h[bp].size >= 1
    requires forall u :: Inside(bp, h[bp].size, u) ==> !InFree(h, ring, u)
    ensures ring[k] in h && Before(h, ring[k], bp) && (k + 1 < |ring| ==> Before(h, bp, ring[k + 1]))
    ensures var h1, r1 := Inserted(h, ring[k], bp), ring[..k + 1] + [bp] + ring[k + 1..];
      Ordered(h1, base, r1) && forall u :: InFree(h1, r1, u) <==> InFree(h, ring, u) || Inside(bp, h[bp].size, u)
  {
    FitsSlot(h, base, ring, k, bp);
    hide InFree, Ordered;
    InsertKeepsOrder(h, base, ring, k, bp);
    var h1, r1 := Inserted(h, ring[k], bp), ring[..k + 1] + [bp] + ring[k + 1..];
    forall u ensures InFree(h1, r1, u) <==> InFree(h, ring, u) || Inside(bp, h[bp].size, u) {
      InsertFrees(h, base, ring, k, bp, u);
    }
  }

  /** free() inserts, closes the gap above and then the one below. */
  lemma {:induction false} JoinedIs(h: Heap, base: nat, ring: seq<nat>, k: nat, bp: nat)
    requires Ordered(h, base, ring) && Slot(ring, k, bp) && bp in h && ring[k] in h
    requires Before(h, ring[k], bp) && (k + 1 < |ring| ==> Before(h, bp, ring[k + 1]))
    ensures h[ring[k]].ptr in h
    ensures var h1, r1 := Inserted(h, ring[k], bp), ring[..k + 1] + [bp] + ring[k + 1..];
      var (h2, r2) := Closed(h1, r1, k + 1);
      Closed(h2, r2, k) == (Joined(h, ring[k], bp), JoinedRing(h, ring, k, bp))
  {
    assert Linked(h, ring, k) && Linked(h, ring, 0) && (k + 1 < |ring| ==> Linked(h, ring, k + 1));
    if k >= 1 { assert Before(h, ring[0], ring[k]); }
    var p, h1, r1 := ring[k], Inserted(h, ring[k], bp), ring[..k + 1] + [bp] + ring[k + 1..];
    var up, down := k + 1 < |ring| && bp + h[bp].size == ring[k + 1], p + h[p].size == bp;
    assert r1[k] == p && r1[k + 1] == bp && h1[bp] == Header(h[p].ptr, h[bp].size) && h1[p] == Header(bp, h[p].size);
    assert k + 1 < |ring| ==> r1[k + 2] == ring[k + 1] == h[p].ptr;
    assert Adjacent(h1, r1, k + 1) <==> up;
    var (h2, r2) := Closed(h1, r1, k + 1);
    assert h2 == if up then Merged(h1, bp) else h1;
    assert r2 == if up then r1[..k + 2] + r1[k + 3..] else r1;
    assert r2[k] == p && r2[k + 1] == bp && h2[p] == h1[p];
    assert Adjacent(h2, r2, k) <==> down;
    JoinedRingIs(h, ring, k, bp, r1, r2);
    JoinedHeapIs(h, p, bp);
    var (h3, r3) := Closed(h2, r2, k);
    assert h3 == if down then Merged(h2, p) else h2;
    assert r3 == if down then r2[..k + 1] + r2[k + 2..] else r2;
  }

  lemma {:induction false} JoinedHeapIs(h: Heap, p: nat, bp: nat)
    requires p in h && bp in h && h[p].ptr in h && p != bp && (bp + h[bp].size == h[p].ptr ==> h[p].ptr !in {p, bp})
    ensures var h1 := Inserted(h, p, bp);
      var h2 := if bp + h[bp].size == h[p].ptr then Merged(h1, bp) else h1;
      p in h2 && h2[p].ptr in h2 && Joined(h, p, bp) == if p + h[p].size == bp then Merged(h2, p) else h2
  {
  }

  lemma {:induction false} JoinedRingIs(h: Heap, ring: seq<nat>, k: nat, bp: nat, r1: seq<nat>, r2: seq<nat>)
    requires k < |ring| && ring[k] in h && bp in h && r1 == ring[..k + 1] + [bp] + ring[k + 1..]
    requires var up := k + 1 < |ring| && bp + h[bp].size == ring[k + 1];
      r2 == if up then r1[..k + 2] + r1[k + 3..] else r1
    ensures |r2| >= k + 2
    ensures JoinedRing(h, ring, k, bp) == if ring[k] + h[ring[k]].size == bp then r2[..k + 1] + r2[k + 2..] else r2
  {
  }

  /** Freeing a block keeps the ring and makes exactly its units free. */
  lemma {:induction false} JoinKeepsRing(h: Heap, base: nat, ring: seq<nat>, k: nat, bp: nat)
    requires Ring(h, base, ring) && Slot(ring, k, bp) && bp in h && h[bp].size >= 1
    requires forall u :: Inside(bp, h[bp].size, u) ==> !InFree(h, ring, u)
    ensures ring[k] in h && h[ring[k]].ptr in h
    ensures Ring(Joined(h, ring[k], bp), base, JoinedRing(h, ring, k, bp))
    ensures forall u :: InFree(Joined(h, ring[k], bp), JoinedRing(h, ring, k, bp), u) <==>
      InFree(h, ring, u) || Inside(bp, h[bp].size, u)
  {
    hide InFree, Ordered, Adjacent, Joined, JoinedRing, Closed;
    InsertStep(h, base, ring, k, bp);
    var h1, r1 := Inserted(h, ring[k], bp), ring[..k + 1] + [bp] + ring[k + 1..];
    CloseStep(h1, base, r1, k + 1);
    var (h2, r2) := Closed(h1, r1, k + 1);
    StillThere(h1, r1, k);
    CloseStep(h2, base, r2, k);
    JoinedIs(h, base, ring, k, bp);
    LinkedAt(h, base, ring, k);
    JoinNotAdjacent(h, base, ring, k, bp);
  }

  lemma {:induction false} LinkedAt(h: Heap, base: nat, ring: seq<nat>, k: nat)
    requires Ordered(h, base, ring) && k < |ring|
    ensures Linked(h, ring, k)
  {
  }

  lemma {:induction false} StillThere(h: Heap, ring: seq<nat>, k: nat)
    requires k + 1 < |ring|
    ensures k < |Closed(h, ring, k + 1).1|
  {
  }

  lemma {:induction false} MergeStep(h: Heap, base: nat, ring: seq<nat>, i: nat)
    requires Ordered(h, base, ring) && 1 <= i && Adjacent(h, ring, i) && Linked(h, ring, i) && Linked(h, ring, i + 1)
    ensures Ordered(Merged(h, ring[i]), base, ring[..i + 1] + ring[i + 2..])
    ensures forall u :: InFree(Merged(h, ring[i]), ring[..i + 1] + ring[i + 2..], u) <==> InFree(h, ring, u)
  {
    MergeKeepsOrder(h, base, ring, i);
    forall u ensures InFree(Merged(h, ring[i]), ring[..i + 1] + ring[i + 2..], u) <==> InFree(h, ring, u) {
      MergeFrees(h, base, ring, i, u);
    }
  }

  // ----- malloc -----

  /** prevp->s.ptr = p->s.ptr: the whole block p leaves the list. */
  function Unlinked(h: Heap, prevp: nat, p: nat): Heap
    requires prevp in h && p in h
  {
    h[prevp := Header(h[p].ptr, h[prevp].size)]
  }

  /** The tail of block p, n units long, becomes a block of its own. */
  function Split(h: Heap, p: nat, n: nat): Heap
    requires p in h && h[p].size > n
  {
    var q := p + h[p].size - n;
    h[p := Header(h[p].ptr, h[p].size - n)][q := Header(if q in h then h[q].ptr else 0, n)]
  }

  lemma {:induction false} TakeWhole(h: Heap, base: nat, ring: seq<nat>, i: nat)
    requires Ring(h, base, ring) && 1 <= i < |ring| && Linked(h, ring, i) && Linked(h, ring, i - 1)
    ensures Ring(Unlinked(h, ring[i - 1], ring[i]), base, ring[..i] + ring[i + 1..])
  {
    var h', r' := Unlinked(h, ring[i - 1], ring[i]), ring[..i] + ring[i + 1..];
    assert r'[0] == ring[0] && Before(h, ring[i - 1], ring[i]);
    forall j | 0 <= j < |r'|
      ensures Linked(h', r', j) && !Adjacent(h', r', j)
    {
      if j < i - 1 {
        assert r'[j] == ring[j] && r'[j + 1] == ring[j + 1] && Linked(h, ring, j) && !Adjacent(h, ring, j)
          && Before(h, ring[j], ring[i - 1]);
      } else if j == i - 1 {
        if i < |r'| {
          assert r'[i] == ring[i + 1] && Before(h, ring[i], ring[i + 1]);
        }
      } else {
        assert r'[j] == ring[j + 1] && Linked(h, ring, j + 1) && !Adjacent(h, ring, j + 1)
          && Before(h, ring[i - 1], ring[j + 1]);
        if j + 1 < |r'| { assert r'[j + 1] == ring[j + 2]; }
      }
    }
    forall a, b | 0 <= a < b < |r'|
      ensures Before(h', r'[a], r'[b])
    {
      var a', b' := if a < i then a else a + 1, if b < i then b else b + 1;
      assert r'[a] == ring[a'] && r'[b] == ring[b'] && Before(h, ring[a'], ring[b']);
    }
  }

  lemma {:induction false} TakeWholeFrees(h: Heap, base: nat, ring: seq<nat>, i: nat, u: nat)
    requires Ring(h, base, ring) && 1 <= i < |ring| && Linked(h, ring, i) && Linked(h, ring, i - 1)
    ensures InFree(Unlinked(h, ring[i - 1], ring[i]), ring[..i] + ring[i + 1..], u) <==>
      InFree(h, ring, u) && !Inside(ring[i], h[ring[i]].size, u)
  {
    var h', r' := Unlinked(h, ring[i - 1], ring[i]), ring[..i] + ring[i + 1..];
    if j: nat :| FreeAt(h', r', j, u) {
      var j' := if j < i then j else j + 1;
      assert r'[j] == ring[j'] && Linked(h, ring, j') && FreeAt(h, ring, j', u);
      if j < i { assert Before(h, ring[j'], ring[i]); } else { assert Before(h, ring[i], ring[j']); }
    }
    if j: nat :| FreeAt(h, ring, j, u) {
      if j != i {
        var j' := if j < i then j else j - 1;
        assert r'[j'] == ring[j] && FreeAt(h', r', j', u);
      }
    }
  }

  lemma {:induction false} TakeTail(h: Heap, base: nat, ring: seq<nat>, i: nat, n: nat)
    requires Ring(h, base, ring) && 1 <= i < |ring| && Linked(h, ring, i) && 1 <= n < h[ring[i]].size
    ensures Ring(Split(h, ring[i], n), base, ring)
  {
    var p := ring[i];
    var h', q := Split(h, p, n), p + h[p].size - n;
    forall j | 0 <= j < |ring|
      ensures Linked(h', ring, j) && !Adjacent(h', ring, j) && ring[j] != q
    {
      assert Linked(h, ring, j) && !Adjacent(h, ring, j);
      if j < i { assert Before(h, ring[j], p); } else if i < j { assert Before(h, p, ring[j]); }
      if j == i && i + 1 < |ring| { assert Before(h, p, ring[i + 1]); }
    }
    forall a, b | 0 <= a < b < |ring| ensures Before(h', ring[a], ring[b]) {
      assert Before(h, ring[a], ring[b]) && Linked(h', ring, a) && ring[a] != q;
    }
  }

  lemma {:induction false} TakeTailFrees(h: Heap, base: nat, ring: seq<nat>, i: nat, n: nat, u: nat)
    requires Ring(h, base, ring) && 1 <= i < |ring| && Linked(h, ring, i) && 1 <= n < h[ring[i]].size
    ensures InFree(Split(h, ring[i], n), ring, u) <==>
      InFree(h, ring, u) && !Inside(ring[i] + h[ring[i]].size - n, n, u)
  {
    var p := ring[i];
    var h', q := Split(h, p, n), p + h[p].size - n;
    forall j: nat | 1 <= j < |ring| && j != i
      ensures FreeAt(h', ring, j, u) <==> FreeAt(h, ring, j, u)
      ensures FreeAt(h, ring, j, u) ==> !Inside(p, h[p].size, u)
    {
      assert Linked(h, ring, j);
      if j < i { assert Before(h, ring[j], p); } else { assert Before(h, p, ring[j]); }
    }
    assert FreeAt(h', ring, i, u) <==> FreeAt(h, ring, i, u) && !Inside(q, n, u);
    if j: nat :| FreeAt(h', ring, j, u) { assert FreeAt(h, ring, j, u); }
    if j: nat :| FreeAt(h, ring, j, u) && !Inside(q, n, u) { assert FreeAt(h', ring, j, u); }
    if Inside(q, n, u) {
      forall j: nat ensures !FreeAt(h', ring, j, u) {
        if 1 <= j < |ring| && j != i && FreeAt(h, ring, j, u) { assert !Inside(p, h[p].size, u); }
      }
    }
  }

  const HEADER: nat := 8

  /** Units malloc asks for: the bytes rounded up, and one for the header. */
  function Units(nbytes: nat): nat { (nbytes + HEADER - 1) / HEADER + 1 }

  lemma {:induction false} UnitsPositive(nbytes: nat)
    ensures Units(nbytes) >= 1 && (Units(nbytes) - 1) * HEADER >= nbytes
  {
  }

  class Allocator {
    /** &base, below every address sbrk returns. */
    const base: nat
    var h: Heap
    var freep: nat
    var brk: nat
    ghost var ring: seq<nat>
    /** Blocks malloc has returned and free has not taken back, by header address. */
    ghost var live: map<nat, nat>
    /** Units obtained from sbrk. */
    ghost var mem: set<nat>

    ghost predicate Valid()
      reads this
    {
      && 0 < base < brk && (forall u :: u in mem ==> base < u < brk)
      && if freep == 0 then ring == [] && live == map[] && mem == {}
         else Ring(h, base, ring) && freep in ring && LiveOk(h, base, ring, live) && Covers(h, ring, live, mem)
    }

    constructor (b: nat, heapStart: nat)
      requires 0 < b < heapStart
      ensures Valid() && live == map[] && mem == {} && freep == 0
    {
      base, h, freep, brk, ring, live, mem := b, map[], 0, heapStart, [], map[], {};
    }

    /** The search loop of free(): one trip round the ring at most. */
    method FindSlot(bp: nat) returns (p: nat, ghost k: nat, ghost trips: nat)
      requires Ring(h, base, ring) && freep in ring && bp > base && bp !in ring
      ensures Slot(ring, k, bp) && p == ring[k] && trips < |ring|
    {
      ghost var n := |ring|;
      ghost var goal := SlotIndex(ring, bp);
      p := freep;
      ghost var i: nat :| i < n && ring[i] == freep;
      trips := 0;
      assert Linked(h, ring, i);
      while !(bp > p && bp < h[p].ptr)
        invariant 0 <= i < n && p == ring[i] && Linked(h, ring, i)
        invariant trips + (if i <= goal then goal - i else n + goal - i) < n
        decreases if i <= goal then goal - i else n + goal - i
      {
        if p >= h[p].ptr && (bp > p || bp < h[p].ptr) { break; }
        OnlyAtGoal(h, base, ring, bp, i, goal);
        p := h[p].ptr;
        i := if i + 1 < n then i + 1 else 0;
        trips := trips + 1;
        assert Linked(h, ring, i);
      }
      StopsAtGoal(h, base, ring, bp, i);
      k := i;
    }

    /** free(), for any block clear of the free list (a live one, or fresh from sbrk). */
    method Insert(bp: nat)
      requires Ring(h, base, ring) && freep in ring && bp > base && bp in h && h[bp].size >= 1
      requires forall u :: Inside(bp, h[bp].size, u) ==> !InFree(h, ring, u)
      modifies this`h, this`freep, this`ring
      ensures Ring(h, base, ring) && freep in ring && freep >= base && HasBlock(h, ring, old(h)[bp].size)
      ensures forall u :: InFree(h, ring, u) <==> InFree(old(h), old(ring), u) || Inside(bp, old(h)[bp].size, u)
      ensures forall a :: a in old(h) && a != bp && a !in old(ring) ==> a in h && h[a] == old(h)[a]
    {
      hide InFree;
      NotOnRing(h, base, ring, bp);
      ghost var k, trips;
      var p;
      p, k, trips := FindSlot(bp);
      JoinKeepsRing(h, base, ring, k, bp);
      assert Linked(h, ring, 0);
      ring := JoinedRing(h, ring, k, bp);
      h := Joined(h, p, bp);
      assert ring[k] == p;
      if k > 0 { assert Before(old(h), old(ring)[0], old(ring)[k]); }
      ghost var j := if p + old(h)[p].size == bp then k else k + 1;
      assert 1 <= j < |ring| && ring[j] in h && h[ring[j]].size >= old(h)[bp].size;
      freep := p;
    }

    /** morecore: false stands for sbrk failing; sbrk, when it succeeds, returns the break or
        some later address. */
    method Morecore(nunits: nat, sbrk: Option<nat>) returns (r: nat)
      requires Valid() && freep != 0 && nunits >= 1
      modifies this`h, this`freep, this`ring, this`brk, this`mem
      ensures Valid() && freep != 0
      ensures sbrk.None? ==> r == 0 && h == old(h) && ring == old(ring) && mem == old(mem) && freep == old(freep)
      ensures sbrk.Some? ==> r == freep && HasBlock(h, ring, nunits) && old(mem) <= mem
    {
      var nu := if nunits < 4096 then 4096 else nunits;
      if sbrk.None? { return 0; }
      var hp := brk + sbrk.value;
      Fresh(hp, nu);
      hide InFree, Ring, InLive;
      h := h[hp := Header(0, nu)];
      brk := hp + nu;
      Insert(hp);
      mem := mem + Cells(hp, nu);
      assert forall a :: a in live ==> a in h && h[a] == old(h)[a];
      forall a, u | a in live && Inside(a, live[a], u) ensures !InFree(h, ring, u) {
        assert !InFree(old(h), old(ring), u);
      }
      assert forall u :: u in Cells(hp, nu) <==> Inside(hp, nu, u);
      assert Covers(h, ring, live, mem);
      HasSmaller(h, ring, nu, nunits);
      return freep;
    }

    /** Memory just obtained is clear of every block. */
    lemma {:induction false} Fresh(hp: nat, nu: nat)
      requires Valid() && freep != 0 && hp >= brk
      ensures hp !in ring && hp !in live && hp > base
      ensures Ring(h[hp := Header(0, nu)], base, ring)
      ensures forall u :: InFree(h[hp := Header(0, nu)], ring, u) <==> InFree(h, ring, u)
      ensures forall u :: Inside(hp, nu, u) ==> !InFree(h, ring, u) && !InLive(live, u) && u !in mem
      ensures forall a :: a in live ==> a !in ring
      ensures forall a, u :: a in live && Inside(a, live[a], u) ==> !Inside(hp, nu, u)
    {
      LiveNotOnRing(h, base, ring, live);
      forall a | a in live ensures a != hp {
        assert Inside(a, live[a], a) && InLive(live, a);
      }
      forall i | 0 <= i < |ring| ensures ring[i] != hp {
        assert Linked(h, ring, i) && (i > 0 ==> FreeAt(h, ring, i, ring[i]) && InFree(h, ring, ring[i]));
      }
      forall a, u | a in live && Inside(a, live[a], u) ensures u in mem { assert InLive(live, u); }
      OtherHeader(h, base, ring, hp, Header(0, nu));
    }

    /** The branch of malloc that found a block: take all of p, or its tail. */
    method Take(prevp: nat, p: nat, nunits: nat, ghost i: nat) returns (ap: nat)
      requires Valid() && freep != 0 && 1 <= i < |ring| && ring[i] == p && prevp == ring[i - 1]
      requires p in h && 1 <= nunits <= h[p].size
      modifies this`h, this`freep, this`ring, this`live
      ensures Valid() && freep == prevp && ap > 0 && ap - 1 !in old(live)
      ensures live == old(live)[ap - 1 := nunits] && mem == old(mem)
      ensures ap == p + old(h)[p].size - nunits + 1
    {
      hide InFree, Ring, InLive, LiveOk, Unlinked, Split;
      var q := p + h[p].size - nunits;
      TakeFacts(h, base, ring, live, i, nunits);
      LiveGrows(live, q, nunits);
      if h[p].size == nunits {
        h := Unlinked(h, prevp, p);
        ring := ring[..i] + ring[i + 1..];
      } else {
        h := Split(h, p, nunits);
      }
      freep := prevp;
      live := live[q := nunits];
      assert Covers(h, ring, live, mem);
      return q + 1;
    }

    /** The first call of malloc makes base a ring of its own. */
    method StartRing()
      requires Valid() && freep == 0
      modifies this`h, this`freep, this`ring
      ensures Valid() && freep == base && ring == [base]
      ensures forall n :: n >= 1 ==> !HasBlock(h, ring, n) && !HasBlock(old(h), old(ring), n)
    {
      EmptyRing(h, base);
      h := h[base := Header(base, 0)];
      freep := base;
      ring := [base];
    }

    /** morecore, and where it leaves the search: nothing is passed yet. */
    method Refill(nunits: nat, sbrk: Option<nat>) returns (p: nat, ghost f: nat)
      requires Valid() && freep != 0 && nunits >= 1
      modifies this`h, this`freep, this`ring, this`brk, this`mem
      ensures Valid() && freep != 0 && f < |ring| && ring[f] == freep && Ring(h, base, ring) && old(mem) <= mem
      ensures sbrk.None? ==> p == 0 && mem == old(mem)
      ensures sbrk.Some? ==> p == freep && p != 0 && HasBlock(h, ring, nunits)
      ensures AllSmall(h, ring, f, if f + 1 < |ring| then f + 1 else 0, nunits)
    {
      hide InFree, Ring, InLive, LiveOk, Covers, HasBlock, AllSmall, Valid;
      p := Morecore(nunits, sbrk);
      OnRing();
      f :| f < |ring| && ring[f] == freep;
      NonePassed(h, ring, f, nunits);
    }

    lemma {:induction false} OnRing()
      requires Valid() && freep != 0
      ensures Ring(h, base, ring) && freep in ring
    {
    }

    /** malloc.  sbrk(c) is the outcome of the c-th call of sbrk during this request; calls
        counts them.  First fit: sbrk is called only when no free block is big enough, at
        most once, and only its failure makes malloc fail. */
    method Malloc(nbytes: nat, sbrk: nat -> Option<nat>) returns (ap: Option<nat>, calls: nat)
      requires Valid()
      modifies this`h, this`freep, this`ring, this`brk, this`live, this`mem
      ensures Valid() && old(mem) <= mem
      ensures calls <= 1 && (calls == 1 <==> !HasBlock(old(h), old(ring), Units(nbytes)))
      ensures ap.None? <==> calls == 1 && sbrk(0).None?
      ensures ap.None? ==> live == old(live) && mem == old(mem)
      ensures ap.Some? ==>
        ap.value > 0 && ap.value - 1 !in old(live) && live == old(live)[ap.value - 1 := Units(nbytes)]
      ensures ap.Some? && calls == 0 ==> FirstFit(old(h), old(ring), old(freep), Units(nbytes), ap.value)
    {
      hide InFree, Ring, InLive, LiveOk, Covers, HasBlock, Units, AllSmall, Valid, FirstFit;
      UnitsPositive(nbytes);
      if freep == 0 { StartRing(); }
      ap, calls := Search(Units(nbytes), sbrk);
    }

    /** The loop of malloc. */
    method Search(nunits: nat, sbrk: nat -> Option<nat>) returns (ap: Option<nat>, calls: nat)
      requires Valid() && freep != 0 && nunits >= 1
      modifies this`h, this`freep, this`ring, this`brk, this`live, this`mem
      ensures Valid() && old(mem) <= mem
      ensures calls <= 1 && (calls == 1 <==> !HasBlock(old(h), old(ring), nunits))
      ensures ap.None? <==> calls == 1 && sbrk(0).None?
      ensures ap.None? ==> live == old(live) && mem == old(mem)
      ensures ap.Some? ==> ap.value > 0 && ap.value - 1 !in old(live) && live == old(live)[ap.value - 1 := nunits]
      ensures ap.Some? && calls == 0 ==> FirstFit(old(h), old(ring), old(freep), nunits, ap.value)
    {
      hide InFree, Ring, InLive, LiveOk, Covers, HasBlock, AllSmall, Valid, FirstFit;
      OnRing();
      var prevp := freep;
      ghost var f: nat :| f < |ring| && ring[f] == freep;
      ghost var i: nat := NextIndex(h, base, ring, f);
      NonePassed(h, ring, f, nunits);
      var p := h[prevp].ptr;
      calls := 0;
      ghost var first := HasBlock(h, ring, nunits);
      while true
        invariant Valid() && freep != 0 && live == old(live) && old(mem) <= mem && (calls == 0 ==> mem == old(mem))
        invariant f < |ring| && i < |ring| && ring[f] == freep && ring[i] == p && p in h
        invariant i > 0 ==> prevp == ring[i - 1]
        invariant AllSmall(h, ring, f, i, nunits)
        invariant calls == 0 ==> h == old(h) && ring == old(ring) && freep == old(freep)
        invariant calls <= 1 && (calls == 1 ==> sbrk(0).Some?)
        invariant (if calls == 1 then HasBlock(h, ring, nunits) && !first else HasBlock(h, ring, nunits) == first)
        decreases 1 - calls, if i > f then |ring| - i + f + 1 else f - i
      {
        OnRing();
        if h[p].size >= nunits {
          BigEnough(h, base, ring, i, nunits);
          Fits(h, ring, f, i, nunits);
          var a := Take(prevp, p, nunits, i);
          return Some(a), calls;
        }
        if p == freep {
          FullCircle(h, base, ring, f, i, nunits);
          p, f := Refill(nunits, sbrk(calls));
          calls := calls + 1;
          if p == 0 { return None, calls; }
          i := f;
        } else {
          OnePassed(h, ring, f, i, nunits);
        }
        i := NextIndex(h, base, ring, i);
        prevp := p;
        p := h[p].ptr;
      }
    }

    /** free. */
    method Free(ap: nat)
      requires Valid() && ap > 0 && ap - 1 in live
      modifies this`h, this`freep, this`ring, this`live
      ensures Valid() && live == old(live) - {ap - 1} && mem == old(mem)
    {
      var bp := ap - 1;
      hide InFree, Ring, InLive;
      ghost var n := live[bp];
      LiveNotOnRing(h, base, ring, live);
      Insert(bp);
      live := live - {bp};
      LiveShrinks(old(live), bp);
      assert LiveOk(h, base, ring, live);
      assert Covers(h, ring, live, mem);
    }
  }

  /** a is the address of the last n units of the first block after freep that has so many. */
  ghost predicate FirstFit(h: Heap, ring: seq<nat>, freep: nat, n: nat, a: nat) {
    exists f: nat, i: nat {:trigger AllSmall(h, ring, f, i, n)} ::
      && f < |ring| && ring[f] == freep && AllSmall(h, ring, f, i, n)
      && i < |ring| && ring[i] in h && h[ring[i]].size >= n && a == ring[i] + h[ring[i]].size - n + 1
  }

  lemma {:induction false} Fits(h: Heap, ring: seq<nat>, f: nat, i: nat, n: nat)
    requires f < |ring| && AllSmall(h, ring, f, i, n) && i < |ring| && ring[i] in h && h[ring[i]].size >= n
    ensures FirstFit(h, ring, ring[f], n, ring[i] + h[ring[i]].size - n + 1)
  {
  }

  lemma {:induction false} EmptyRing(h: Heap, base: nat)
    ensures var h' := h[base := Header(base, 0)];
      && Ring(h', base, [base]) && LiveOk(h', base, [base], map[]) && Covers(h', [base], map[], {})
      && forall n :: n >= 1 ==> !HasBlock(h', [base], n)
  {
  }

  /** The index of the block that block i points to. */
  lemma {:induction false} NextIndex(h: Heap, base: nat, ring: seq<nat>, i: nat) returns (j: nat)
    requires Ring(h, base, ring) && i < |ring|
    ensures j == (if i + 1 < |ring| then i + 1 else 0) && ring[i] in h && h[ring[i]].ptr == ring[j] && ring[j] in h
  {
    assert Linked(h, ring, i);
    j := if i + 1 < |ring| then i + 1 else 0;
    assert Linked(h, ring, j);
  }

  /** On the walk that starts after f and has reached i, block j has been passed. */
  ghost predicate Passed(f: nat, i: nat, j: nat) { if i > f then f < j < i else j > f || j < i }

  /** The blocks passed are all too small. */
  ghost predicate AllSmall(h: Heap, ring: seq<nat>, f: nat, i: nat, n: nat) {
    forall j: nat :: Passed(f, i, j) && j < |ring| ==> ring[j] in h && h[ring[j]].size < n
  }

  lemma {:induction false} NonePassed(h: Heap, ring: seq<nat>, f: nat, n: nat)
    requires f < |ring|
    ensures AllSmall(h, ring, f, if f + 1 < |ring| then f + 1 else 0, n)
  {
  }

  lemma {:induction false} OnePassed(h: Heap, ring: seq<nat>, f: nat, i: nat, n: nat)
    requires f < |ring| && i < |ring| && i != f && AllSmall(h, ring, f, i, n) && ring[i] in h && h[ring[i]].size < n
    ensures AllSmall(h, ring, f, if i + 1 < |ring| then i + 1 else 0, n)
  {
    forall j: nat | Passed(f, if i + 1 < |ring| then i + 1 else 0, j) && j < |ring|
      ensures ring[j] in h && h[ring[j]].size < n
    {
      assert j != i ==> Passed(f, i, j);
    }
  }

  /** A block that is big enough is not base. */
  lemma {:induction false} BigEnough(h: Heap, base: nat, ring: seq<nat>, i: nat, n: nat)
    requires Ring(h, base, ring) && i < |ring| && ring[i] in h && h[ring[i]].size >= n >= 1
    ensures i >= 1 && HasBlock(h, ring, n)
  {
    assert Linked(h, ring, 0);
  }

  /** Back at freep with nothing big enough: no free block is. */
  lemma {:induction false} FullCircle(h: Heap, base: nat, ring: seq<nat>, f: nat, i: nat, n: nat)
    requires Ring(h, base, ring) && f < |ring| && i < |ring| && ring[f] == ring[i] && ring[i] in h
      && h[ring[i]].size < n
    requires AllSmall(h, ring, f, i, n)
    ensures !HasBlock(h, ring, n)
  {
    assert i < f ==> Before(h, ring[i], ring[f]);
    assert f < i ==> Before(h, ring[f], ring[i]);
    forall j | 0 <= j < |ring| ensures ring[j] in h && h[ring[j]].size < n {
      if j != f { assert Passed(f, i, j); }
    }
  }

  /** Some free block has at least n units. */
  ghost predicate HasBlock(h: Heap, ring: seq<nat>, n: nat) {
    exists i :: 1 <= i < |ring| && ring[i] in h && h[ring[i]].size >= n
  }

  lemma {:induction false} HasSmaller(h: Heap, ring: seq<nat>, n: nat, m: nat)
    requires HasBlock(h, ring, n) && m <= n
    ensures HasBlock(h, ring, m)
  {
  }

  ghost function Cells(a: nat, n: nat): set<nat> { set u | a <= u < a + n && Inside(a, n, u) }

  /** A header that is not on the ring does not matter to it. */
  lemma {:induction false} OtherHeader(h: Heap, base: nat, ring: seq<nat>, a: nat, x: Header)
    requires Ring(h, base, ring) && a !in ring
    ensures Ring(h[a := x], base, ring)
    ensures forall u :: InFree(h[a := x], ring, u) <==> InFree(h, ring, u)
  {
    var h' := h[a := x];
    forall i | 0 <= i < |ring| ensures Linked(h', ring, i) && !Adjacent(h', ring, i) {
      assert Linked(h, ring, i) && !Adjacent(h, ring, i);
    }
    forall i, j | 0 <= i < j < |ring| ensures Before(h', ring[i], ring[j]) {
      assert Before(h, ring[i], ring[j]) && ring[i] in ring;
    }
    forall u ensures InFree(h', ring, u) <==> InFree(h, ring, u) {
      if i: nat :| FreeAt(h, ring, i, u) { assert FreeAt(h', ring, i, u); }
      if i: nat :| FreeAt(h', ring, i, u) { assert Linked(h, ring, i) && FreeAt(h, ring, i, u); }
    }
  }

  lemma {:induction false} LiveGrows(live: map<nat, nat>, a: nat, n: nat)
    requires a !in live
    ensures forall u :: InLive(live[a := n], u) <==> InLive(live, u) || Inside(a, n, u)
  {
    var live' := live[a := n];
    forall u ensures InLive(live', u) <==> InLive(live, u) || Inside(a, n, u) {
      if b :| b in live && Inside(b, live[b], u) { assert b in live' && live'[b] == live[b]; }
      if Inside(a, n, u) { assert a in live'; }
    }
  }

  /** What taking n units from free block i does to the list and the live blocks. */
  lemma {:induction false} TakeFacts(h: Heap, base: nat, ring: seq<nat>, live: map<nat, nat>, i: nat, n: nat)
    requires Ring(h, base, ring) && LiveOk(h, base, ring, live)
    requires 1 <= i < |ring| && ring[i] in h && 1 <= n <= h[ring[i]].size && base > 0
    ensures ring[i - 1] in h && ring[i - 1] >= base
    ensures var p, q := ring[i], ring[i] + h[ring[i]].size - n;
      var h' := if h[p].size == n then Unlinked(h, ring[i - 1], p) else Split(h, p, n);
      var r' := if h[p].size == n then ring[..i] + ring[i + 1..] else ring;
      && Ring(h', base, r') && ring[i - 1] in r'
      && q !in live && LiveOk(h', base, r', live[q := n])
      && (forall u :: Inside(q, n, u) ==> InFree(h, ring, u))
      && (forall u :: InFree(h', r', u) <==> InFree(h, ring, u) && !Inside(q, n, u))
  {
    assert Linked(h, ring, i) && Linked(h, ring, i - 1) && Linked(h, ring, 0);
    var p, q := ring[i], ring[i] + h[ring[i]].size - n;
    if i > 1 { assert Before(h, ring[0], ring[i - 1]); }
    assert Before(h, ring[0], p);
    BlockParts(h, base, ring, i, n);
    TakenFromFree(h, base, ring, live, q, n);
    var h', r' := Unlinked(h, ring[i - 1], p), ring[..i] + ring[i + 1..];
    if h[p].size == n {
      TakeWhole(h, base, ring, i);
      forall u
        ensures InFree(h', r', u) <==> InFree(h, ring, u) && !Inside(q, n, u)
      {
        TakeWholeFrees(h, base, ring, i, u);
      }
      assert r'[i - 1] == ring[i - 1];
    } else {
      h', r' := Split(h, p, n), ring;
      TakeTail(h, base, ring, i, n);
      forall u
        ensures InFree(h', r', u) <==> InFree(h, ring, u) && !Inside(q, n, u)
      {
        TakeTailFrees(h, base, ring, i, n, u);
      }
    }
    LiveWith(h, h', base, ring, r', live, q, n);
  }

  lemma {:induction false} LiveWith(h: Heap, h': Heap, base: nat, ring: seq<nat>, r': seq<nat>, live: map<nat, nat>,
      q: nat, n: nat)
    requires LiveOk(h, base, ring, live) && q !in live && q > base && q in h' && h'[q].size == n >= 1
    requires forall a :: a in live ==> a in h' && h'[a].size == h[a].size
    requires forall u :: InFree(h', r', u) <==> InFree(h, ring, u) && !Inside(q, n, u)
    requires forall a, u :: a in live && Inside(a, live[a], u) ==> !Inside(q, n, u)
    ensures LiveOk(h', base, r', live[q := n])
  {
    hide InFree;
  }

  /** The last n units of free block i are free. */
  lemma {:induction false} BlockParts(h: Heap, base: nat, ring: seq<nat>, i: nat, n: nat)
    requires Ring(h, base, ring) && 1 <= i < |ring| && Linked(h, ring, i) && 1 <= n <= h[ring[i]].size
    ensures forall u :: Inside(ring[i] + h[ring[i]].size - n, n, u) ==> InFree(h, ring, u)
  {
    forall u | Inside(ring[i] + h[ring[i]].size - n, n, u) ensures InFree(h, ring, u) {
      assert FreeAt(h, ring, i, u);
    }
  }

  /** A block made of free units meets no live block, and is not a live header. */
  lemma {:induction false} TakenFromFree(h: Heap, base: nat, ring: seq<nat>, live: map<nat, nat>, q: nat, n: nat)
    requires Ring(h, base, ring) && LiveOk(h, base, ring, live) && n >= 1
    requires forall u :: Inside(q, n, u) ==> InFree(h, ring, u)
    ensures q !in live && forall a, u :: a in live && Inside(a, live[a], u) ==> !Inside(q, n, u)
    ensures forall a :: a in live ==> a !in ring
  {
    LiveNotOnRing(h, base, ring, live);
    assert Inside(q, n, q);
    if q in live { assert Inside(q, live[q], q); }
  }

  lemma {:induction false} LiveShrinks(live: map<nat, nat>, a: nat)
    requires a in live
    ensures forall u :: InLive(live, u) <==> InLive(live - {a}, u) || Inside(a, live[a], u)
  {
    forall u ensures InLive(live, u) <==> InLive(live - {a}, u) || Inside(a, live[a], u) {
      if b :| b in live && Inside(b, live[b], u) {
        if b != a { assert b in live - {a}; }
      }
    }
  }

  lemma {:induction false} NotOnRing(h: Heap, base: nat, ring: seq<nat>, bp: nat)
    requires Ring(h, base, ring) && bp > base && bp in h && h[bp].size >= 1
    requires forall u :: Inside(bp, h[bp].size, u) ==> !InFree(h, ring, u)
    ensures bp !in ring
  {
    if bp in ring {
      var i :| 0 <= i < |ring| && ring[i] == bp;
      assert Linked(h, ring, i) && FreeAt(h, ring, i, bp) && Inside(bp, h[bp].size, bp);
    }
  }

  lemma {:induction false} LiveNotOnRing(h: Heap, base: nat, ring: seq<nat>, live: map<nat, nat>)
    requires Ring(h, base, ring) && LiveOk(h, base, ring, live)
    ensures forall a :: a in live ==> a !in ring
  {
    forall a | a in live ensures a !in ring { NotOnRing(h, base, ring, a); }
  }

  /** Some block of the ring is the last one below bp. */
  ghost function SlotIndex(ring: seq<nat>, bp: nat): (k: nat)
    requires |ring| >= 1 && ring[0] < bp && bp !in ring
    ensures Slot(ring, k, bp)
  {
    if |ring| == 1 then 0
    else if ring[|ring| - 1] < bp then |ring| - 1
    else
      var init := ring[..|ring| - 1];
      assert forall i :: 0 <= i < |init| ==> init[i] == ring[i];
      SlotIndex(init, bp)
  }

  lemma {:induction false} OnlyAtGoal(h: Heap, base: nat, ring: seq<nat>, bp: nat, i: nat, goal: nat)
    requires Ring(h, base, ring) && Slot(ring, goal, bp) && i < |ring| && Linked(h, ring, i)
    requires !(bp > ring[i] && bp < h[ring[i]].ptr)
    requires !(ring[i] >= h[ring[i]].ptr && (bp > ring[i] || bp < h[ring[i]].ptr))
    ensures i != goal
  {
    if i + 1 == |ring| && i > 0 { assert Before(h, ring[0], ring[i]); }
  }

  lemma {:induction false} StopsAtGoal(h: Heap, base: nat, ring: seq<nat>, bp: nat, i: nat)
    requires Ring(h, base, ring) && i < |ring| && Linked(h, ring, i) && bp > base
    requires (bp > ring[i] && bp < h[ring[i]].ptr)
      || (ring[i] >= h[ring[i]].ptr && (bp > ring[i] || bp < h[ring[i]].ptr))
    ensures Slot(ring, i, bp)
  {
    if i + 1 < |ring| { assert Before(h, ring[i], ring[i + 1]); }
    else if i > 0 { assert Before(h, ring[0], ring[i]); }
  }
}
