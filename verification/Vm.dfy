/** Page tables and the frame allocator (vm.c, kalloc.c).  A page of physical memory is named by
    its frame number. */
module Vm {
  import opened Common
  import opened VmSpec

  /** (sz + PGSIZE - 1) & ~(PGSIZE - 1), in 32 bits. */
  function PgRoundUp(sz: word): word { (sz + 4095) % U32 / PGSIZE * PGSIZE }

  /** pa | perm | PTE_P. */
  function Entry(pa: nat, perm: nat): word
    requires pa % PGSIZE == 0 && pa < U32 && perm < PGSIZE
  { pa + if perm % 2 == 1 then perm else perm + 1 }

  /** V2P(pgtab) | PTE_P | PTE_W | PTE_U. */
  function TableWord(t: nat): word
    requires t < FRAMES
  { t * PGSIZE + 7 }

  lemma {:induction false} TableEntry(t: nat)
    requires t < FRAMES
    ensures Present(TableWord(t)) && Frame(TableWord(t)) == t
  {
  }

  const PTE_W: nat := 2
  const PTE_U: nat := 4

  /** Pages needed for sz bytes. */
  function PagesFor(sz: nat): nat { (sz + PGSIZE - 1) / PGSIZE }

  function Least(a: nat, b: nat): nat { if a < b then a else b }

  predicate Between(a: nat, f: nat, b: nat) { a <= f < b }

  /** Every frame from a to b in hand. */
  function AllHeld(a: nat, b: nat): (own: Owners) { map f: nat | a <= f < b && Between(a, f, b) :: Held }

  /** The frames from a to b go to the free list. */
  function RangeFreed(own: Owners, a: nat, b: nat): (own': Owners) {
    map f | f in own :: if a <= f < b then Free else own[f]
  }

  class Vm {
    /** The first frame above the kernel image. */
    const lo: nat
    var mem: Mem
    /** kmem.freelist: an address, 0 at the end. */
    var freelist: word
    ghost var free: seq<nat>
    ghost var own: Owners

    ghost predicate Inv()
      reads this
    { Tables(lo, mem, own) && FreeList(mem, own, free, freelist) }

    /** At boot every frame above the kernel is in hand. */
    constructor (low: nat, m: Mem)
      requires 1 <= low <= |m| <= FRAMES
      ensures Inv() && lo == low && mem == m && own == AllHeld(low, |m|)
    {
      lo, mem, freelist, free := low, m, 0, [];
      own := AllHeld(low, |m|);
      new;
      forall f ensures Back(mem, own, f) {}
    }

    /** kfree; ok is false for its panic. */
    method Kfree(f: nat) returns (ok: bool)
      requires FreeList(mem, own, free, freelist) && (forall x :: x in own <==> lo <= x < |mem|) && |mem| <= FRAMES
      requires lo <= f < |mem| ==> own[f] != Free
      modifies this`mem, this`freelist, this`free, this`own
      ensures ok == (lo <= f < |old(mem)|)
      ensures ok ==> own == old(own)[f := Free] && FreeList(mem, own, free, freelist)
      ensures ok ==> |mem| == |old(mem)| && mem == old(mem)[f := mem[f]] && free == [f] + old(free)
      ensures ok ==> forall k :: 0 <= k < 1024 ==> mem[f][k] == if k == 0 then old(freelist) else 0x0101_0101
    {
      if f < lo || f >= |mem| { return false; }
      var junk: Page := seq(1024, _ => 0x0101_0101);
      Pushed(mem, own, free, freelist, f, junk[0 := freelist]);
      ghost var mem1 := mem[f := junk[0 := freelist]];
      mem := mem[f := junk];
      mem := mem[f := mem[f][0 := freelist]];
      assert mem == mem1;
      freelist := KERNBASE + f * PGSIZE;
      free, own := [f] + free, own[f := Free];
      ok := true;
    }

    /** kfree of a page in hand: it cannot panic. */
    method Release(f: nat) returns (ok: bool)
      requires Inv() && f in own && own[f] == Held
      modifies this`mem, this`freelist, this`free, this`own
      ensures ok && Inv() && own == old(own)[f := Free] && |mem| == |old(mem)| && mem == old(mem)[f := mem[f]]
    {
      ghost var mem1, own1 := mem, own;
      ok := Kfree(f);
      PageChanges(lo, mem1, own1, f, mem[f], Free);
    }

    /** kalloc. */
    method Kalloc() returns (r: Option<nat>)
      requires Inv()
      modifies this`freelist, this`free, this`own
      ensures Inv() && (r.None? <==> old(free) == [])
      ensures r.None? ==> own == old(own) && free == old(free) && freelist == old(freelist)
      ensures r.Some? ==>
        r.value in old(own) && old(own)[r.value] == Free && own == old(own)[r.value := Held] && free == old(free)[1..]
        && old(free)[0] == r.value
    {
      if freelist == 0 { return None; }
      Popped(mem, own, free, freelist);
      var f := (freelist - KERNBASE) / PGSIZE;
      PageChanges(lo, mem, own, f, mem[f], Held);
      assert mem[f := mem[f]] == mem;
      freelist := mem[f][0];
      free, own := free[1..], own[f := Held];
      return Some(f);
    }

    lemma {:induction false} Managed()
      requires Inv()
      ensures lo <= |mem| <= FRAMES && forall f :: f in own <==> lo <= f < |mem|
    {
    }

    /** freerange, from kinit1 and kinit2: frees the whole pages between two addresses. */
    method Freerange(vstart: word, vend: word) returns (ok: bool)
      requires Inv() && KERNBASE <= vstart <= vend <= KERNBASE + |mem| * PGSIZE && lo <= PagesFor(vstart - KERNBASE)
      requires forall f :: f in own && PagesFor(vstart - KERNBASE) <= f < (vend - KERNBASE) / PGSIZE ==> own[f] == Held
      modifies this`mem, this`freelist, this`free, this`own
      ensures ok && Inv() && |mem| == |old(mem)|
      ensures own == RangeFreed(old(own), PagesFor(vstart - KERNBASE), (vend - KERNBASE) / PGSIZE)
    {
      hide FreeList, Tables;
      Managed();
      var p := PgRoundUp(vstart);
      ghost var first, own0 := PagesFor(vstart - KERNBASE), own;
      ghost var k := first;
      ok := true;
      while p + PGSIZE <= vend
        invariant p == KERNBASE + k * PGSIZE && k >= first && (k > first ==> p <= vend) && Inv() && |mem| == |old(mem)|
          && ok
        invariant own == RangeFreed(own0, first, k)
      {
        var f := (p - KERNBASE) / PGSIZE;
        assert f == k && lo <= f < |mem|;
        Managed();
        ok := Release(f);
        p, k := p + PGSIZE, k + 1;
      }
      assert first < (vend - KERNBASE) / PGSIZE ==> k == (vend - KERNBASE) / PGSIZE;
    }

    /** memset or memmove into a page in hand. */
    method Fill(f: nat, x: Page)
      requires Inv() && f in own && own[f] == Held
      modifies this`mem
      ensures Inv() && mem == old(mem)[f := x]
    {
      PageChanges(lo, mem, own, f, x, Held);
      assert own[f := Held] == own;
      FreeListKept(mem, own, mem[f := x], own, free, freelist);
      mem := mem[f := x];
    }

    /** walkpgdir: the table for page v of p, made if alloc is set and there is none. */
    method Walkpgdir(p: nat, v: nat, alloc: bool) returns (t: nat, found: bool)
      requires Inv() && IsDir(own, p) && v < PAGES
      modifies this`mem, this`freelist, this`free, this`own
      ensures Inv() && Effect(old(mem), old(own), mem, own, p, 0, 0)
      ensures found <==> Present(old(mem)[p][v / 1024]) || (alloc && old(free) != [])
      ensures found ==> HasTable(mem, own, p, v, t)
      ensures !found || !alloc ==> mem == old(mem) && own == old(own) && free == old(free) && freelist == old(freelist)
      ensures !found ==> Pte(mem, p, v) == 0
      ensures found && alloc ==> Tabling(old(mem), old(free), mem, free, p, v / 1024)
    {
      hide Effect, FreeList, Tables, Pte;
      NoEffect(mem, own, p, 0, 0);
      TableOf(p, v);
      if Present(mem[p][v / 1024]) { return Frame(mem[p][v / 1024]), true; }
      t, found := 0, false;
      if alloc {
        t, found := MakeTable(p, v / 1024);
        if found { TableOf(p, v); }
      }
    }

    /** The branch of walkpgdir that makes a table. */
    method MakeTable(p: nat, i: nat) returns (t: nat, ok: bool)
      requires Inv() && IsDir(own, p) && p < |mem| && i < 1024 && !Present(mem[p][i])
      modifies this`mem, this`freelist, this`free, this`own
      ensures Inv() && (ok <==> old(free) != [])
      ensures !ok ==> mem == old(mem) && own == old(own) && free == old(free) && freelist == old(freelist)
      ensures ok ==>
        Effect(old(mem), old(own), mem, own, p, 0, 0) && IsDir(own, p) && p < |mem| && Present(mem[p][i])
        && Frame(mem[p][i]) == t && free == old(free)[1..] && mem[p] == old(mem)[p][i := mem[p][i]]
    {
      hide Effect, FreeList, Tables;
      Managed();
      ghost var mem0, own0 := mem, own;
      t, ok := 0, false;
      var r := Kalloc();
      if r.None? { return; }
      t, ok := r.value, true;
      Fill(t, ZeroPage());
      TableEntry(t);
      var x: Page := mem[p][i := TableWord(t)];
      TableMade(lo, mem0, own0, p, i, t, TableWord(t), x);
      ghost var mem1, own1 := mem, own;
      mem, own := mem[p := x], own[t := Tab(p, i)];
      FreeListKept(mem1, own1, mem, own, free, freelist);
      assert own == own0[t := Tab(p, i)];
    }

    lemma {:induction false} TableOf(p: nat, v: nat)
      requires Tables(lo, mem, own) && IsDir(own, p) && v < PAGES
      ensures p < |mem| && if Present(mem[p][v / 1024]) then HasTable(mem, own, p, v, Frame(mem[p][v / 1024]))
        else Pte(mem, p, v) == 0
    {
      assert TabFwd(mem, own, p, v / 1024);
    }

    /** The body of mappages' loop: entry w for page v.  It fails only if there is no frame for a
        table, changing nothing. */
    method MapPage(p: nat, v: nat, w: word) returns (ok: bool)
      requires Inv() && IsDir(own, p) && v < PAGES && !Present(Pte(mem, p, v)) && Present(w)
      requires v < UPAGES ==> Frame(w) in own && own[Frame(w)] == Held
      modifies this`mem, this`freelist, this`free, this`own
      ensures Inv()
      ensures !ok ==> mem == old(mem) && own == old(own) && free == old(free)
      ensures ok ==>
        Effect(old(mem), Given(old(own), v, w), mem, own, p, v, v + 1) && IsDir(own, p) && p < |mem|
        && Pte(mem, p, v) == w && Tabling(old(mem), old(free), mem, free, p, v / 1024)
      ensures !ok ==> free == [] && p < |mem| && v / 1024 !in Tabled(mem, p)
      ensures ok && v < UPAGES ==> own[Frame(w)] == User(p, v) && mem[Frame(w)] == old(mem)[Frame(w)]
    {
      hide Effect, FreeList, Tables;
      Managed();
      ghost var mem0, own0 := mem, own;
      var t;
      t, ok := Walkpgdir(p, v, true);
      if !ok { return; }
      Managed();
      EffectSays(mem0, own0, mem, own, p, 0, 0, p, v);
      if v < UPAGES { EffectSays(mem0, own0, mem, own, p, 0, 0, Frame(w), v); }
      InstallPage(lo, mem, own, p, v, t, w);
      ghost var mem1, own1 := mem, own;
      mem := mem[t := mem[t][v % 1024 := w]];
      if v < UPAGES { own := own[Frame(w) := User(p, v)]; }
      FreeListKept(mem1, own1, mem, own, free, freelist);
      EntryWritten(lo, mem1, own1, p, v, t, w);
      MapEffect(mem0, own0, mem1, own1, mem, own, p, v, t, w);
    }

    /** mappages; r is false for its failure.  A call either maps one user page, whose frame is in
        hand, or any range of kernel pages. */
    method Mappages(p: nat, va: word, size: nat, pa: word, perm: nat) returns (r: bool)
      requires Inv() && IsDir(own, p) && size >= 1 && va + size - 1 < U32 && pa % PGSIZE == 0 && perm < PGSIZE
      requires var first, last := va / PGSIZE, (va + size - 1) / PGSIZE;
        && pa + (last - first) * PGSIZE < U32
        && (first >= UPAGES || (first == last && pa / PGSIZE in own && own[pa / PGSIZE] == Held))
        && forall v :: first <= v <= last ==> !Present(Pte(mem, p, v))
      modifies this`mem, this`freelist, this`free, this`own
      ensures Inv() && IsDir(own, p)
      ensures var first, last := va / PGSIZE, (va + size - 1) / PGSIZE;
        && (r ==> Effect(old(mem), Given(old(own), first, Entry(pa, perm)), mem, own, p, first, last + 1))
        && (r ==> forall v {:trigger Pte(mem, p, v)} :: first <= v <= last ==>
          Pte(mem, p, v) == Entry(pa + (v - first) * PGSIZE, perm))
        && (r && first < UPAGES ==> own[pa / PGSIZE] == User(p, first) && mem[pa / PGSIZE] == old(mem)[pa / PGSIZE])
        && (!r && first < UPAGES ==> mem == old(mem) && own == old(own) && free == old(free))
        && (!r && first >= UPAGES ==> Effect(old(mem), old(own), mem, own, p, first, last + 1))
      ensures var need := TablesFor(va / PGSIZE, (va + size - 1) / PGSIZE + 1);
        Paid(old(mem), old(free), mem, free, p, need, r) && (r <==> |old(free)| >= |need - Tabled(old(mem), p)|)
    {
      hide Effect, FreeList, Tables, Pte, Tabled, TablesFor, Tabling, Paid;
      var a, last, q := va / PGSIZE, (va + size - 1) % U32 / PGSIZE, pa;
      ghost var first, mem0, own0 := a, mem, own;
      Managed();
      NoEffect(mem, own, p, first, last + 1);
      PaidStart(mem, free, p, first);
      while true
        invariant first <= a <= last && q == pa + (a - first) * PGSIZE && Inv() && IsDir(own, p) && p < |mem|
        invariant first < UPAGES ==> a == first && mem == mem0 && own == own0 && free == old(free)
        invariant Effect(mem0, own0, mem, own, p, first, last + 1)
        invariant forall v {:trigger Pte(mem, p, v)} :: first <= v < a ==>
          Pte(mem, p, v) == Entry(pa + (v - first) * PGSIZE, perm)
        invariant forall v :: a <= v <= last ==> !Present(Pte(mem, p, v))
        invariant Paid(mem0, old(free), mem, free, p, TablesFor(first, a), true)
        decreases last - a
      {
        ghost var mem1, own1, free1 := mem, own, free;
        FrameOfEntry(q, perm);
        r := MapPage(p, a, Entry(q, perm));
        if !r {
          PaidShort(mem0, old(free), mem, free, p, first, a, last + 1);
          return;
        }
        PaidOne(mem0, old(free), mem1, free1, mem, free, p, first, a);
        EffectSpan(mem1, Given(own1, a, Entry(q, perm)), mem, own, p, a, a + 1, first, last + 1);
        if first >= UPAGES { EffectThen(mem0, own0, mem1, own1, mem, own, p, first, last + 1); }
        if a == last { break; }
        a, q := a + 1, q + PGSIZE;
      }
      PaidAll(mem0, old(free), mem, free, p, TablesFor(first, last + 1));
    }

    /** The branch of deallocuvm for a present page; ok is false for its panics. */
    method FreePage(p: nat, v: nat, t: nat) returns (ok: bool)
      requires Inv() && HasTable(mem, own, p, v, t) && v < UPAGES && Present(Pte(mem, p, v))
      modifies this`mem, this`freelist, this`free, this`own
      ensures ok && Inv() && |mem| == |old(mem)|
      ensures var f := old(Frame(Pte(mem, p, v)));
        && own == old(own)[f := Free] && f in old(own) && old(own)[f] == User(p, v)
        && forall g :: 0 <= g < |mem| && g != f && g != t ==> mem[g] == old(mem)[g]
      ensures forall q: nat, u: nat {:trigger Pte(mem, q, u)} :: IsDir(old(own), q) && q < |mem| && u < PAGES ==>
        Pte(mem, q, u) == if q == p && u == v then 0 else Pte(old(mem), q, u)
    {
      hide Tables, FreeList, Pte;
      Managed();
      EntryOf(p, v, t);
      var f := Frame(mem[t][v % 1024]);
      ghost var mem0, own0 := mem, own;
      PageFreed(lo, mem, own, p, v, t, mem[t]);
      if f == 0 { return false; }
      ok := Kfree(f);
      ghost var mem1 := mem;
      PageFreed(lo, mem0, own0, p, v, t, mem[f]);
      mem := mem[t := mem[t][v % 1024 := 0]];
      assert mem == mem0[f := mem1[f]][t := mem0[t][v % 1024 := 0]];
      FreeListKept(mem1, own, mem, own, free, freelist);
    }

    lemma {:induction false} EntryOf(p: nat, v: nat, t: nat)
      requires Tables(lo, mem, own) && HasTable(mem, own, p, v, t)
      ensures t < |mem| && p < |mem| && Pte(mem, p, v) == mem[t][v % 1024]
    {
    }

    /** deallocuvm.  For sizes up to KERNBASE, jumping over absent tables comes to the same as
        visiting every page of [newsz, oldsz): exactly the present ones are freed. */
    method Deallocuvm(p: nat, oldsz: word, newsz: word) returns (r: word, ok: bool)
      requires Inv() && IsDir(own, p) && oldsz <= KERNBASE
      modifies this`mem, this`freelist, this`free, this`own
      ensures ok && Inv() && IsDir(own, p)
      ensures newsz >= oldsz ==> r == oldsz && mem == old(mem) && own == old(own) && free == old(free)
      ensures newsz < oldsz ==>
        r == newsz && Unmapped(old(mem), old(own), mem, own, p, PagesFor(newsz), PagesFor(oldsz))
    {
      hide Tables, FreeList, Pte, Unmapped, PagesFor, PgRoundUp;
      r, ok := oldsz, true;
      if newsz >= oldsz { return; }
      var a := PgRoundUp(newsz);
      ghost var first, end, mem0, own0 := PagesFor(newsz), PagesFor(oldsz), mem, own;
      ghost var v := first;
      RoundedUp(newsz, oldsz);
      UnmapStart(mem, own, p, first);
      while a < oldsz
        invariant a == v * PGSIZE && first <= v <= UPAGES && Inv() && IsDir(own, p) && ok
        invariant Unmapped(mem0, own0, mem, own, p, first, Least(v, end))
        decreases UPAGES - v
      {
        InPages(a, v, oldsz);
        ghost var mem1, own1 := mem, own;
        var t, found := Walkpgdir(p, a / PGSIZE, false);
        if !found {
          NoTable(p, v);
          UnmapSkip(lo, mem0, own0, mem, own, p, first, v, Least((v / 1024 + 1) * 1024, end));
          SkipTable(a, v);
          a := ((a / 0x40_0000 + 1) * 0x40_0000 % U32 - PGSIZE) % U32;
          v := (v / 1024 + 1) * 1024 - 1;
        } else {
          EntryOf(p, v, t);
          if Present(mem[t][a / PGSIZE % 1024]) {
            ok := FreePage(p, a / PGSIZE, t);
            UnmapOne(lo, mem0, own0, mem1, own1, mem, own, p, first, v, t, Frame(Pte(mem1, p, v)));
          } else {
            UnmapSkip(lo, mem0, own0, mem, own, p, first, v, v + 1);
          }
        }
        NextPage(a, v);
        a, v := (a + PGSIZE) % U32, v + 1;
      }
      Reached(v, oldsz);
      r := newsz;
    }

    /** PGADDR(PDX(a) + 1, 0, 0) - PGSIZE: the last page under the table. */
    lemma {:induction false} SkipTable(a: word, v: nat)
      requires a == v * PGSIZE && v < UPAGES
      ensures ((a / 0x40_0000 + 1) * 0x40_0000 % U32 - PGSIZE) % U32 == ((v / 1024 + 1) * 1024 - 1) * PGSIZE
      ensures (v / 1024 + 1) * 1024 <= UPAGES
    {
      var q, r := v / 1024, v % 1024;
      assert a == 0x40_0000 * q + r * PGSIZE && r * PGSIZE < 0x40_0000;
      assert a / 0x40_0000 == q;
    }

    lemma {:induction false} NextPage(a: word, v: nat)
      requires a == v * PGSIZE && v < UPAGES
      ensures (a + PGSIZE) % U32 == (v + 1) * PGSIZE
    {
    }

    lemma {:induction false} RoundedUp(newsz: word, oldsz: word)
      requires newsz < oldsz <= KERNBASE
      ensures PgRoundUp(newsz) == PagesFor(newsz) * PGSIZE >= newsz && PagesFor(newsz) <= PagesFor(oldsz) <= UPAGES
    {
    }

    lemma {:induction false} Reached(v: nat, sz: nat)
      requires v * PGSIZE >= sz
      ensures v >= PagesFor(sz)
    {
    }

    /** An address below oldsz, as a page. */
    lemma {:induction false} InPages(a: word, v: nat, oldsz: word)
      requires a == v * PGSIZE && a < oldsz <= KERNBASE
      ensures a / PGSIZE == v < PagesFor(oldsz) && v < UPAGES && (v / 1024 + 1) * 1024 <= UPAGES
        && v < (v / 1024 + 1) * 1024
    {
    }

    /** Without a table, a whole stretch of pages is absent. */
    lemma {:induction false} NoTable(p: nat, v: nat)
      requires Tables(lo, mem, own) && IsDir(own, p) && v < PAGES && !Present(mem[p][v / 1024])
      ensures forall u {:trigger Pte(mem, p, u)} :: v <= u < (v / 1024 + 1) * 1024 && u < PAGES ==>
        !Present(Pte(mem, p, u))
    {
    }

    /** The common part of allocuvm and copyuvm: take a page, fill it, map it as page v of p.
        got tells whether kalloc succeeded, ok whether mappages did. */
    method TakeAndMap(p: nat, v: nat, x: Page, perm: nat) returns (f: nat, got: bool, ok: bool)
      requires Inv() && IsDir(own, p) && v < UPAGES && !Present(Pte(mem, p, v)) && perm < PGSIZE
      modifies this`mem, this`freelist, this`free, this`own
      ensures Inv() && IsDir(own, p) && (ok ==> got) && |mem| == |old(mem)|
      ensures !got ==> mem == old(mem) && own == old(own)
      ensures got ==> f in old(own) && old(own)[f] == Free && f < |mem|
      ensures got && !ok ==> own == old(own)[f := Held] && mem == old(mem)[f := x]
      ensures ok ==>
        Effect(old(mem), old(own), mem, own, p, v, v + 1) && p < |mem| && Pte(mem, p, v) == Entry(f * PGSIZE, perm)
      ensures ok ==> f in own && own[f] == User(p, v) && mem[f] == x
      ensures p < |old(mem)| && Bought(old(mem), old(free), mem, free, p, v / 1024, ok)
    {
      hide Tables, FreeList, Pte, Effect, Paid, Bought;
      Managed();
      f, got, ok := 0, false, false;
      ghost var mem0, own0 := mem, own;
      ghost var free0 := free;
      var r := Kalloc();
      if r.None? { NoneToBuy(mem, free, p, v / 1024); return; }
      f, got := r.value, true;
      PageChanges(lo, mem0, own0, f, x, Held);
      Fill(f, x);
      ghost var own1 := own;
      FrameOfEntry(f * PGSIZE, perm);
      assert (v * PGSIZE + PGSIZE - 1) / PGSIZE == v && f * PGSIZE / PGSIZE == f;
      ghost var mem1, free1 := mem, free;
      ok := Mappages(p, v * PGSIZE, PGSIZE, f * PGSIZE, perm);
      PageBought(mem0, free0, mem1, free1, mem, free, p, v, ok);
      if ok {
        assert Given(own1, v, Entry(f * PGSIZE, perm)) == own0;
        EffectAfterFill(lo, mem0, own0, f, x, mem, own, p, v, v + 1);
        Managed();
      }
    }

    /** The way out of allocuvm: unmap what was mapped, then free the page in hand if any. */
    method Undo(p: nat, newsz: word, oldsz: word, f: nat, x: Page, got: bool, ghost mem0: Mem, ghost own0: Owners)
      requires Inv() && IsDir(own, p) && oldsz < newsz <= KERNBASE
      requires Tables(lo, mem0, own0) && IsDir(own0, p)
      requires if got then f in own0 && own0[f] == Free && own == own0[f := Held] && mem == mem0[f := x]
        else own == own0 && mem == mem0
      modifies this`mem, this`freelist, this`free, this`own
      ensures Inv() && IsDir(own, p) && Unmapped(mem0, own0, mem, own, p, PagesFor(oldsz), PagesFor(newsz))
    {
      hide Tables, FreeList, Pte, Unmapped;
      var r, ok := Deallocuvm(p, newsz, oldsz);
      if got {
        ghost var mem1, own1 := mem, own;
        Managed();
        UnmapWithHeld(lo, mem0, own0, f, x, mem1, own1, x, p, PagesFor(oldsz), PagesFor(newsz));
        ok := Release(f);
        UnmapWithHeld(lo, mem0, own0, f, x, mem1, own1, mem[f], p, PagesFor(oldsz), PagesFor(newsz));
      }
    }

    /** allocuvm, growing a process whose pages from oldsz on are absent.  On success each new page
        is present, writable by the user and zero, in a frame of its own.  On failure every
        translation is as before and no frame is lost: at most some became page tables. */
    method Allocuvm(p: nat, oldsz: word, newsz: word) returns (r: word)
      requires Inv() && IsDir(own, p)
      requires newsz < KERNBASE ==> forall v :: PagesFor(oldsz) <= v < PagesFor(newsz) ==> !Present(Pte(mem, p, v))
      modifies this`mem, this`freelist, this`free, this`own
      ensures Inv() && IsDir(own, p)
      ensures newsz >= KERNBASE ==> r == 0 && mem == old(mem) && own == old(own)
      ensures newsz < oldsz && newsz < KERNBASE ==> r == oldsz && mem == old(mem) && own == old(own)
      ensures oldsz <= newsz < KERNBASE ==>
        r in {0, newsz} && Effect(old(mem), old(own), mem, own, p, PagesFor(oldsz), PagesFor(newsz))
      ensures oldsz <= newsz < KERNBASE && r == newsz ==>
        forall v {:trigger Holds(mem, own, p, v, 7, ZeroPage())} :: PagesFor(oldsz) <= v < PagesFor(newsz) ==>
        Holds(mem, own, p, v, 7, ZeroPage())
      ensures oldsz <= newsz < KERNBASE ==> p < |old(mem)| && (r == newsz <==>
        |old(free)| >= FramesFor(Tabled(old(mem), p), PagesFor(oldsz), PagesFor(newsz)))
      ensures oldsz <= newsz < KERNBASE && r != newsz ==>
        OnlyTables(old(own), own, p) && forall v :: PagesFor(oldsz) <= v < PagesFor(newsz) ==> !Present(Pte(mem, p, v))
    {
      hide Tables, FreeList, Pte, Unmapped, PagesFor, PgRoundUp, Effect, Holds, OnlyTables, Bought, Grown, FramesFor;
      Managed();
      if newsz >= KERNBASE { return 0; }
      if newsz < oldsz { return oldsz; }
      var a := PgRoundUp(oldsz);
      ghost var first, end, mem0, own0 := PagesFor(oldsz), PagesFor(newsz), mem, own;
      ghost var v, had := first, Tabled(mem, p);
      GrownStart(mem, free, p, first);
      if oldsz < newsz { RoundedUp(oldsz, newsz); }
      RoundedUp(oldsz, newsz + 1);
      RoundedUp(newsz, newsz + 1);
      NoEffect(mem, own, p, first, end);
      while a < newsz
        invariant a == v * PGSIZE && first <= v && Inv() && IsDir(own, p) && p < |mem| && (v > first ==> v <= end)
          && oldsz <= a
        invariant Effect(mem0, own0, mem, own, p, first, end)
        invariant forall u {:trigger Holds(mem, own, p, u, 7, ZeroPage())} :: first <= u < v ==>
          Holds(mem, own, p, u, 7, ZeroPage())
        invariant forall u :: v <= u < end ==> !Present(Pte(mem, p, u))
        invariant Grown(had, |old(free)|, mem, free, p, first, v)
      {
        InPages(a, v, newsz);
        ghost var mem1, own1, free1 := mem, own, free;
        var f, got, ok := TakeAndMap(p, a / PGSIZE, ZeroPage(), PTE_W + PTE_U);
        PageGrown(had, |old(free)|, mem1, free1, mem, free, p, first, v, end, ok);
        if !ok {
          Undo(p, newsz, oldsz, f, ZeroPage(), got, mem1, own1);
          UndoneEffect(lo, mem0, own0, mem1, own1, mem, own, p, first, end);
          return 0;
        }
        EffectSpan(mem1, own1, mem, own, p, v, v + 1, first, end);
        EffectThen(mem0, own0, mem1, own1, mem, own, p, first, end);
        forall u | first <= u < v
          ensures Holds(mem, own, p, u, 7, ZeroPage())
        {
          HoldsKept(mem1, own1, mem, own, p, v, v + 1, p, u, 7, ZeroPage());
        }
        NowHolds(mem, own, p, v, f);
        a, v := a + PGSIZE, v + 1;
      }
      Reached(v, newsz);
      GrownAll(had, |old(free)|, mem, free, p, first, end);
      return newsz;
    }

    /** freevm.  Every user page, table and the directory itself go back to the free list, each
        once; no other frame, page or translation is touched. */
    method Freevm(p: nat) returns (ok: bool)
      requires Inv() && IsDir(own, p)
      modifies this`mem, this`freelist, this`free, this`own
      ensures ok && Inv() && own == Erased(old(own), p) && Beside(old(mem), old(own), mem, p)
    {
      hide Tables, FreeList, Unmapped, Beside;
      ghost var mem0, own0 := mem, own;
      var r;
      r, ok := Deallocuvm(p, KERNBASE, 0);
      ghost var mem1, own1 := mem, own;
      Managed();
      var i := 0;
      while i < 1024
        invariant 0 <= i <= 1024 && ok && own == TablesFreed(own1, p, i) && FreeList(mem, own, free, freelist)
        invariant |mem| == |mem1| && forall f :: f in own && own[f] != Free ==> mem[f] == mem1[f]
      {
        TableFreed(lo, mem1, own1, p, i);
        if Present(mem[p][i]) { ok := Kfree(Frame(mem[p][i])); }
        i := i + 1;
      }
      ok := Kfree(p);
      ErasedAll(lo, mem0, own0, mem1, own1, mem, p);
    }

    /** The start of setupkvm: a zeroed page as a directory. */
    method NewDirectory() returns (d: Option<nat>)
      requires Inv()
      modifies this`mem, this`freelist, this`free, this`own
      ensures Inv() && (d.Some? <==> old(free) != [])
      ensures d.None? ==> mem == old(mem) && own == old(own)
      ensures d.Some? ==>
        && Made(old(mem), old(own), mem, own, d.value) && IsDir(own, d.value) && d.value < |mem|
        && mem[d.value] == ZeroPage() && free == old(free)[1..]
        && forall v {:trigger Pte(mem, d.value, v)} :: 0 <= v < PAGES ==> Pte(mem, d.value, v) == 0
    {
      hide Tables, FreeList, Made, Beside, Effect, SameSpaces;
      ghost var mem0, own0 := mem, own;
      Managed();
      d := Kalloc();
      if d.None? { return; }
      var g := d.value;
      Fill(g, ZeroPage());
      NewDir(lo, mem, own, g);
      FreeListKept(mem, own, mem, own[g := Dir], free, freelist);
      own := own[g := Dir];
      MadeStart(lo, mem0, own0, g, ZeroPage());
      assert own == own0[g := Dir];
    }

    /** setupkvm, for a kernel whose data starts at physical address data; None for failure.  The
        new directory has the kernel's mappings and nothing else; failure gives back every frame. */
    method Setupkvm(data: word) returns (d: Option<nat>)
      requires Inv() && EXTMEM < data < PHYSTOP && data % PGSIZE == 0
      modifies this`mem, this`freelist, this`free, this`own
      ensures Inv()
      ensures d.None? ==> own == old(own) && SameSpaces(old(mem), old(own), mem)
      ensures d.Some? ==> Made(old(mem), old(own), mem, own, d.value) && d.value < |mem|
      ensures d.Some? ==> forall v {:trigger Pte(mem, d.value, v)} :: 0 <= v < PAGES ==>
        Pte(mem, d.value, v) == KernelPte(v, data)
      ensures d.Some? <==> |old(free)| >= KERNEL_FRAMES
      ensures d.Some? ==> Tabled(mem, d.value) == KernelTables() && |free| == |old(free)| - KERNEL_FRAMES
    {
      hide Tables, FreeList, Made, Beside, Pte, Effect, SameSpaces, Paid, Tabled, TablesFor, RowTables, KernelTables;
      ghost var mem0, own0 := mem, own;
      d := NewDirectory();
      if d.None? { NothingBeside(mem, own); return; }
      var g := d.value;
      NoneTabled(mem, g, data);
      KmapStart(data);
      var k := 0;
      while k < 4
        invariant 0 <= k <= 4 && Inv() && Made(mem0, own0, mem, own, g) && IsDir(own, g) && g < |mem|
        invariant forall v {:trigger Pte(mem, g, v)} :: 0 <= v < PAGES ==>
          Pte(mem, g, v) == if v < StartPage(k, data) then KernelPte(v, data) else 0
        invariant Tabled(mem, g) == RowTables(k, data) && |old(free)| == 1 + |free| + |RowTables(k, data)|
      {
        var e := Kmap(data)[k];
        ghost var mem1, own1, free1 := mem, own, free;
        KmapShape(k, data);
        var ok := Mappages(g, e.virt, (e.end - e.start) % U32, e.start, e.perm);
        RowPaid(mem1, free1, mem, free, g, k, data, ok);
        MadeThen(mem0, own0, mem1, own1, mem, own, g, StartPage(k, data), EndPage(k, data));
        Managed();
        if !ok {
          ghost var mem2, own2 := mem, own;
          ok := Freevm(g);
          MadeGone(mem0, own0, mem2, own2, mem, g);
          AllBeside(lo, mem0, own0, mem, g);
          return None;
        }
        EffectSpan(mem1, own1, mem, own, g, StartPage(k, data), EndPage(k, data), StartPage(k, data), EndPage(k, data));
        k := k + 1;
      }
      AllRows(data);
      return Some(g);
    }

    /** The way out of copyuvm: free the page in hand if any, then the new directory. */
    method Abandon(g: nat, f: nat, got: bool, ghost mem0: Mem, ghost own0: Owners, ghost mem1: Mem, ghost own1: Owners)
      requires Inv() && Tables(lo, mem0, own0) && Tables(lo, mem1, own1) && Made(mem0, own0, mem1, own1, g)
        && !IsDir(own0, g)
      requires
        if got then
          && f in own1 && own1[f] == Free && own == own1[f := Held]
          && |mem| == |mem1| && mem == mem1[f := mem[f]]
        else own == own1 && mem == mem1
      modifies this`mem, this`freelist, this`free, this`own
      ensures Inv() && own == own0 && SameSpaces(mem0, own0, mem)
    {
      hide Tables, FreeList, Pte, Beside, Effect, SameSpaces;
      var ok;
      NoEffect(mem1, own1, g, 0, 0);
      if got {
        Managed();
        ok := Release(f);
        assert own == own1 && mem == mem1[f := mem[f]];
        NoEffect(mem, own, g, 0, 0);
        EffectAfterFill(lo, mem1, own1, f, mem[f], mem, own, g, 0, 0);
      }
      MadeThen(mem0, own0, mem1, own1, mem, own, g, 0, 0);
      ghost var mem2, own2 := mem, own;
      ok := Freevm(g);
      MadeGone(mem0, own0, mem2, own2, mem, g);
      AllBeside(lo, mem0, own0, mem, g);
    }

    /** copyuvm; None for failure, ok is false for its panics.  The child gets equal contents in
        frames of its own (each frame has one owner), the kernel's mappings and nothing else; the
        parent and everyone else are untouched.  Failure gives back every frame. */
    method Copyuvm(p: nat, sz: word, data: word) returns (d: Option<nat>, ok: bool)
      requires Inv() && IsDir(own, p) && sz <= KERNBASE && EXTMEM < data < PHYSTOP && data % PGSIZE == 0
      requires forall v :: 0 <= v < PagesFor(sz) ==> Present(Pte(mem, p, v))
      modifies this`mem, this`freelist, this`free, this`own
      ensures ok && Inv()
      ensures d.None? ==> own == old(own) && SameSpaces(old(mem), old(own), mem)
      ensures d.Some? ==> Made(old(mem), old(own), mem, own, d.value) && d.value < |mem|
      ensures d.Some? ==> forall v {:trigger CopyOf(old(mem), p, mem, own, d.value, v)} :: 0 <= v < PagesFor(sz) ==>
        CopyOf(old(mem), p, mem, own, d.value, v)
      ensures d.Some? ==> forall v {:trigger Pte(mem, d.value, v)} :: PagesFor(sz) <= v < PAGES ==>
        Pte(mem, d.value, v) == KernelPte(v, data)
      ensures d.Some? <==> |old(free)| >= KERNEL_FRAMES + PagesFor(sz) + (PagesFor(sz) + 1023) / 1024
    {
      hide Tables, FreeList, Made, Pte, Effect, SameSpaces, CopyOf, PagesFor, KernelPte, Grown, Bought, FramesFor,
        KernelTables, Tabled, TablesFor;
      ghost var mem0, own0, n := mem, own, PagesFor(sz);
      Managed();
      d := Setupkvm(data);
      ok := true;
      UserFrames(sz);
      if d.None? { return; }
      var g := d.value;
      ghost var n1 := |free|;
      GrownStart(mem, free, g, 0);
      var i := 0;
      ghost var v := 0;
      MadeSays(mem0, own0, g);
      UserPages(sz, data);
      while i < sz
        invariant i == v * PGSIZE && v <= n && Inv() && Made(mem0, own0, mem, own, g) && IsDir(own, g) && g < |mem|
        invariant forall u {:trigger CopyOf(mem0, p, mem, own, g, u)} :: 0 <= u < v ==> CopyOf(mem0, p, mem, own, g, u)
        invariant forall u {:trigger Pte(mem, g, u)} :: v <= u < PAGES ==> Pte(mem, g, u) == KernelPte(u, data)
        invariant Grown(KernelTables(), n1, mem, free, g, 0, v)
      {
        InPages(i, v, sz);
        ParentPage(lo, mem0, own0, mem, own, p, g, v);
        var t, found := Walkpgdir(p, i / PGSIZE, false);
        if !found { return d, false; }
        EntryOf(p, v, t);
        var pte := mem[t][i / PGSIZE % 1024];
        if !Present(pte) { return d, false; }
        ghost var mem1, own1, free1 := mem, own, free;
        var f, got, mapped := TakeAndMap(g, i / PGSIZE, mem[Frame(pte)], Flags(pte));
        PageGrown(KernelTables(), n1, mem1, free1, mem, free, g, 0, v, n, mapped);
        if !mapped {
          Abandon(g, f, got, mem0, own0, mem1, own1);
          return None, true;
        }
        MadeThen(mem0, own0, mem1, own1, mem, own, g, v, v + 1);
        EffectSpan(mem1, own1, mem, own, g, v, v + 1, v, v + 1);
        forall u | 0 <= u < v
          ensures CopyOf(mem0, p, mem, own, g, u)
        {
          CopyKept(mem0, p, mem1, own1, mem, own, g, v, u);
        }
        NowCopied(lo, mem0, p, mem, own, g, v, f);
        i, v := i + PGSIZE, v + 1;
      }
      Reached(v, sz);
      GrownAll(KernelTables(), n1, mem, free, g, 0, n);
    }

    lemma {:induction false} MadeSays(mem0: Mem, own0: Owners, d: nat)
      requires Made(mem0, own0, mem, own, d)
      ensures IsDir(own, d) && !IsDir(own0, d)
    {
    }

    lemma {:induction false} UserPages(sz: word, data: word)
      requires sz <= KERNBASE
      ensures PagesFor(sz) <= UPAGES && forall v :: 0 <= v < UPAGES ==> KernelPte(v, data) == 0
    {
    }
  }

  // ----- how many frames a mapping takes -----

  /** The tables that directory p has. */
  ghost function Tabled(mem: Mem, p: nat): set<nat>
    requires p < |mem|
  { set i: nat | i < 1024 && Present(mem[p][i]) }

  /** The tables that hold the entries of the pages from a to b. */
  ghost function TablesFor(a: nat, b: nat): set<nat> {
    if a < b then set i: nat | a / 1024 <= i <= (b - 1) / 1024 && Between(0, i, PAGES) else {}
  }

  /** Table i is there now, made from a free frame if it was not; the others are as they were. */
  ghost predicate Tabling(mem: Mem, free: seq<nat>, mem': Mem, free': seq<nat>, p: nat, i: nat) {
    && p < |mem| && p < |mem'| && i < 1024 && Present(mem'[p][i])
    && (forall j :: 0 <= j < 1024 && j != i ==> Present(mem'[p][j]) == Present(mem[p][j]))
    && |free| == |free'| + if Present(mem[p][i]) then 0 else 1
  }

  lemma {:induction false} TableTaken(mem: Mem, free: seq<nat>, mem': Mem, free': seq<nat>, p: nat, i: nat)
    requires Tabling(mem, free, mem', free', p, i)
    ensures Tabled(mem', p) == Tabled(mem, p) + {i} && |free'| + |Tabled(mem', p)| == |free| + |Tabled(mem, p)|
    ensures i in Tabled(mem, p) ==> |free'| == |free|
    ensures i !in Tabled(mem, p) ==> |free'| + 1 == |free|
  {
    var t, t' := Tabled(mem, p), Tabled(mem', p);
    forall j: nat ensures j in t' <==> j in t + {i} {}
    if i in t { assert t' == t; } else { assert t' == t + {i}; }
  }

  /** What mapping pages that need these tables takes: each missing table one free frame, and
      nothing more.  It fails only when the frames have run out with a table still missing. */
  ghost predicate Paid(mem: Mem, free: seq<nat>, mem': Mem, free': seq<nat>, p: nat, need: set<nat>, r: bool) {
    && p < |mem| && p < |mem'|
    && |free'| + |Tabled(mem', p)| == |free| + |Tabled(mem, p)|
    && Tabled(mem, p) <= Tabled(mem', p) <= Tabled(mem, p) + need
    && if r then need <= Tabled(mem', p) else free' == [] && exists i :: i in need && i !in Tabled(mem', p)
  }

  lemma {:induction false} PaidStart(mem: Mem, free: seq<nat>, p: nat, a: nat)
    requires p < |mem|
    ensures Paid(mem, free, mem, free, p, TablesFor(a, a), true)
  {
  }

  lemma {:induction false} MoreTables(a: nat, v: nat, b: nat)
    requires a <= v < b <= PAGES
    ensures TablesFor(a, v + 1) == TablesFor(a, v) + {v / 1024} && v / 1024 < 1024
    ensures TablesFor(a, v) <= TablesFor(a, b) && v / 1024 in TablesFor(a, b)
  {
    var i := v / 1024;
    assert (a / 1024 <= i <= (b - 1) / 1024) && Between(0, i, PAGES);
    assert forall j :: j in TablesFor(a, v + 1) ==> Between(0, j, PAGES) && (j in TablesFor(a, v) || j == i);
  }

  /** Page v is mapped too. */
  lemma {:induction false} PaidOne(mem0: Mem, free0: seq<nat>, mem: Mem, free: seq<nat>, mem': Mem, free': seq<nat>,
      p: nat, a: nat, v: nat)
    requires a <= v < PAGES && Paid(mem0, free0, mem, free, p, TablesFor(a, v), true)
    requires Tabling(mem, free, mem', free', p, v / 1024)
    ensures Paid(mem0, free0, mem', free', p, TablesFor(a, v + 1), true)
  {
    hide TablesFor, Tabled;
    MoreTables(a, v, v + 1);
    TableTaken(mem, free, mem', free', p, v / 1024);
  }

  /** Page v of [a, b) finds neither a table nor a frame. */
  lemma {:induction false} PaidShort(mem0: Mem, free0: seq<nat>, mem: Mem, free: seq<nat>, p: nat, a: nat, v: nat,
      b: nat)
    requires a <= v < b <= PAGES && Paid(mem0, free0, mem, free, p, TablesFor(a, v), true)
    requires free == [] && v / 1024 !in Tabled(mem, p)
    ensures Paid(mem0, free0, mem, free, p, TablesFor(a, b), false)
    ensures |free0| < |TablesFor(a, b) - Tabled(mem0, p)|
  {
    hide TablesFor, Tabled;
    MoreTables(a, v, b);
    var had, t, need := Tabled(mem0, p), Tabled(mem, p), TablesFor(a, b);
    SubsetSize(t - had + {v / 1024}, need - had);
    assert |t - had| == |t| - |had| by { assert t == had + (t - had); }
  }

  lemma {:induction false} PaidAll(mem0: Mem, free0: seq<nat>, mem: Mem, free: seq<nat>, p: nat, need: set<nat>)
    requires Paid(mem0, free0, mem, free, p, need, true)
    ensures p < |mem| && Tabled(mem, p) == Tabled(mem0, p) + need && |free| == |free0| - |need - Tabled(mem0, p)|
  {
    hide Tabled;
    assert Tabled(mem, p) == Tabled(mem0, p) + (need - Tabled(mem0, p));
  }

  /** Taking a frame and mapping it under table i: the frame, and one more if there is no table. */
  ghost predicate Bought(mem: Mem, free: seq<nat>, mem': Mem, free': seq<nat>, p: nat, i: nat, ok: bool)
    requires p < |mem|
  {
    var price := if i in Tabled(mem, p) then 1 else 2;
    if ok then p < |mem'| && Tabled(mem', p) == Tabled(mem, p) + {i} && |free| == |free'| + price else |free| < price
  }

  lemma {:induction false} NoneToBuy(mem: Mem, free: seq<nat>, p: nat, i: nat)
    requires p < |mem| && free == []
    ensures Bought(mem, free, mem, free, p, i, false)
  {
  }

  lemma {:induction false} PageBought(mem0: Mem, free0: seq<nat>, mem1: Mem, free1: seq<nat>, mem: Mem, free: seq<nat>,
      p: nat, v: nat, ok: bool)
    requires p < |mem0| && p < |mem1| && mem1[p] == mem0[p] && |free0| == |free1| + 1 && v < PAGES
    requires Paid(mem1, free1, mem, free, p, TablesFor(v, v + 1), ok)
      && (ok <==> |free1| >= |TablesFor(v, v + 1) - Tabled(mem1, p)|)
    ensures Bought(mem0, free0, mem, free, p, v / 1024, ok)
  {
    hide Paid;
    assert TablesFor(v, v + 1) == {v / 1024} by { OneTable(v); }
    assert Tabled(mem0, p) == Tabled(mem1, p);
    if v / 1024 in Tabled(mem1, p) { assert {v / 1024} - Tabled(mem1, p) == {}; }
    else { assert {v / 1024} - Tabled(mem1, p) == {v / 1024}; }
    if ok { PaidAll(mem1, free1, mem, free, p, {v / 1024}); }
  }

  /** The frames that the pages from a to b take: one each, and one for each table the directory
      does not have. */
  ghost function FramesFor(had: set<nat>, a: nat, b: nat): nat
    requires a <= b
  { b - a + |TablesFor(a, b) - had| }

  /** The pages from a to v are mapped, starting with n free frames and the tables had. */
  ghost predicate Grown(had: set<nat>, n: nat, mem: Mem, free: seq<nat>, p: nat, a: nat, v: nat) {
    && p < |mem| && a <= v
    && Tabled(mem, p) == had + TablesFor(a, v) && n == |free| + FramesFor(had, a, v)
  }

  lemma {:induction false} GrownStart(mem: Mem, free: seq<nat>, p: nat, a: nat)
    requires p < |mem|
    ensures Grown(Tabled(mem, p), |free|, mem, free, p, a, a)
  {
  }

  lemma {:induction false} PageGrown(had: set<nat>, n: nat, mem: Mem, free: seq<nat>, mem': Mem, free': seq<nat>,
      p: nat, a: nat, v: nat, b: nat, ok: bool)
    requires Grown(had, n, mem, free, p, a, v) && v < b <= PAGES && Bought(mem, free, mem', free', p, v / 1024, ok)
    ensures if ok then Grown(had, n, mem', free', p, a, v + 1) else n < FramesFor(had, a, b)
  {
    hide TablesFor, Tabled;
    MoreTables(a, v, b);
    var i, t, t', need := v / 1024, TablesFor(a, v), TablesFor(a, v + 1), TablesFor(a, b);
    if i in Tabled(mem, p) {
      assert t' - had == t - had;
      if !ok { SubsetSize(t - had, need - had); }
    } else {
      assert t' - had == t - had + {i};
      if !ok { SubsetSize(t - had + {i}, need - had); }
    }
  }

  lemma {:induction false} GrownAll(had: set<nat>, n: nat, mem: Mem, free: seq<nat>, p: nat, a: nat, b: nat)
    requires Grown(had, n, mem, free, p, a, b)
    ensures n >= FramesFor(had, a, b)
  {
  }

  lemma {:induction false} OneTable(v: nat)
    requires v < PAGES
    ensures TablesFor(v, v + 1) == {v / 1024}
  {
    assert Between(0, v / 1024, PAGES);
  }

  lemma {:induction false} SubsetSize(s: set<nat>, t: set<nat>)
    requires s <= t
    ensures |s| <= |t|
  {
    assert t == s + (t - s);
  }

  /** The owners with the frame handed over counted as free. */
  ghost function Given(own: Owners, v: nat, w: word): Owners { if v < UPAGES then own[Frame(w) := Free] else own }

  lemma {:induction false} FrameOfEntry(pa: word, perm: nat)
    requires pa % PGSIZE == 0 && perm < PGSIZE
    ensures Frame(Entry(pa, perm)) == pa / PGSIZE && Present(Entry(pa, perm))
  {
    WordParts(pa / PGSIZE, if perm % 2 == 1 then perm else perm + 1);
  }

  lemma {:induction false} EffectSays(mem: Mem, own: Owners, mem': Mem, own': Owners, p: nat, a: nat, b: nat, f: nat,
      v: nat)
    requires Effect(mem, own, mem', own', p, a, b) && f in own && f < |mem|
    ensures f in own' && f < |mem'| && OwnerStep(mem, own, mem', own', p, a, b, f)
    ensures IsDir(own, f) ==> IsDir(own', f) && SameEntry(mem, own, mem', p, a, b, f, v)
  {
    assert OwnerStep(mem, own, mem', own', p, a, b, f);
  }

  /** A change within [a, b) is one within [a', b'), and entries outside [a, b) are as before. */
  lemma {:induction false} EffectSpan(mem: Mem, own: Owners, mem': Mem, own': Owners, p: nat, a: nat, b: nat, a': nat,
      b': nat)
    requires Effect(mem, own, mem', own', p, a, b) && a' <= a && b <= b' && IsDir(own, p) && p < |mem|
    ensures Effect(mem, own, mem', own', p, a', b') && |mem'| == |mem|
    ensures forall v {:trigger Pte(mem', p, v)} :: 0 <= v < PAGES && !(a <= v < b) ==> Pte(mem', p, v) == Pte(mem, p, v)
  {
    EffectWiden(mem, own, mem', own', p, a, b, a', b');
    forall v: nat | v < PAGES && !(a <= v < b) ensures Pte(mem', p, v) == Pte(mem, p, v) {
      assert SameEntry(mem, own, mem', p, a, b, p, v);
    }
  }

  lemma {:induction false} MapEffect(mem0: Mem, own0: Owners, mem1: Mem, own1: Owners, mem2: Mem, own2: Owners, p: nat,
      v: nat, t: nat, w: word)
    requires Effect(mem0, own0, mem1, own1, p, 0, 0) && t in own1 && own1[t].Tab? && own1[t].p == p && t < |mem1|
    requires forall f :: f in own0 ==> f < |mem0|
    requires |mem2| == |mem1| && (forall f :: 0 <= f < |mem1| && f != t ==> mem2[f] == mem1[f])
    requires v < UPAGES ==> Frame(w) in own0 && own0[Frame(w)] == Held
    requires own2 == if v < UPAGES then own1[Frame(w) := User(p, v)] else own1
    requires forall q: nat, u: nat {:trigger Pte(mem2, q, u)} :: IsDir(own1, q) && q < |mem1| && u < PAGES ==>
      Pte(mem2, q, u) == if q == p && u == v then w else Pte(mem1, q, u)
    ensures Effect(mem0, Given(own0, v, w), mem2, own2, p, v, v + 1)
  {
    var own0', e := Given(own0, v, w), v + 1;
    forall q, u ensures SameEntry(mem0, own0', mem2, p, v, e, q, u) {
      assert SameEntry(mem0, own0, mem1, p, 0, 0, q, u) && OwnerStep(mem0, own0, mem1, own1, p, 0, 0, q);
    }
    forall f ensures OwnerStep(mem0, own0', mem2, own2, p, v, e, f) {
      assert OwnerStep(mem0, own0, mem1, own1, p, 0, 0, f);
    }
  }

  lemma {:induction false} NowHolds(mem: Mem, own: Owners, p: nat, v: nat, f: nat)
    requires p < |mem| && v < UPAGES && f < |mem| <= FRAMES && Pte(mem, p, v) == Entry(f * PGSIZE, PTE_W + PTE_U)
      && f in own && own[f] == User(p, v)
    ensures Holds(mem, own, p, v, 7, mem[f])
  {
    hide Pte;
    WordParts(f, 7);
  }

  lemma {:induction false} UndoneEffect(lo: nat, mem0: Mem, own0: Owners, mem1: Mem, own1: Owners, mem2: Mem,
      own2: Owners, p: nat, a: nat, b: nat)
    requires Tables(lo, mem0, own0) && Tables(lo, mem1, own1) && Tables(lo, mem2, own2) && IsDir(own0, p)
      && IsDir(own1, p) && IsDir(own2, p)
    requires Effect(mem0, own0, mem1, own1, p, a, b) && Unmapped(mem1, own1, mem2, own2, p, a, b) && b <= UPAGES
    requires forall v :: a <= v < b ==> !Present(Pte(mem0, p, v))
    ensures Effect(mem0, own0, mem2, own2, p, a, b) && OnlyTables(own0, own2, p)
    ensures forall v :: a <= v < b ==> !Present(Pte(mem2, p, v))
  {
    hide Effect, OnlyTables;
    UnmapEffect(mem1, own1, mem2, own2, p, a, b);
    EffectThen(mem0, own0, mem1, own1, mem2, own2, p, a, b);
    forall v: nat | a <= v < b
      ensures !Present(Pte(mem2, p, v))
    {
      assert UnmappedEntry(mem1, own1, mem2, p, a, b, p, v);
    }
    NothingLost(lo, mem0, own0, mem2, own2, p, a, b);
  }

  const EXTMEM: nat := 0x10_0000
  const PHYSTOP: nat := 0xE00_0000
  const DEVSPACE: nat := 0xFE00_0000

  /** A row of the kernel's table of mappings. */
  datatype Kmapping = Kmapping(virt: word, start: word, end: word, perm: nat)

  function Kmap(data: word): seq<Kmapping>
    requires EXTMEM < data < PHYSTOP
  {
    [ Kmapping(KERNBASE, 0, EXTMEM, PTE_W),
      Kmapping(KERNBASE + EXTMEM, EXTMEM, data, 0),
      Kmapping(KERNBASE + data, data, PHYSTOP, PTE_W),
      Kmapping(DEVSPACE, DEVSPACE, 0, PTE_W) ]
  }

  /** The tables of the kernel's half of a directory: for memory below PHYSTOP and for devices. */
  ghost function KernelTables(): set<nat> {
    (set i: nat | 512 <= i < 568 && Between(0, i, PAGES)) + (set i: nat | 1016 <= i < 1024 && Between(0, i, PAGES))
  }

  /** A directory and those tables. */
  const KERNEL_FRAMES: nat := 65

  /** The tables of the first k rows. */
  ghost function RowTables(k: nat, data: word): set<nat>
    requires EXTMEM < data < PHYSTOP && k <= 4
  {
    if k == 0 then {} else RowTables(k - 1, data) + TablesFor(StartPage(k - 1, data), EndPage(k - 1, data))
  }

  lemma {:induction false} RangeSize(a: nat, b: nat)
    requires a <= b <= PAGES
    ensures |set i: nat | a <= i < b && Between(0, i, PAGES)| == b - a
    decreases b
  {
    var s := set i: nat | a <= i < b && Between(0, i, PAGES);
    if a == b {
      assert s == {};
    } else {
      RangeSize(a, b - 1);
      assert Between(0, b - 1, PAGES);
      assert s == (set i: nat | a <= i < b - 1 && Between(0, i, PAGES)) + {b - 1};
    }
  }

  lemma {:induction false} NoneTabled(mem: Mem, p: nat, data: word)
    requires p < |mem| && mem[p] == ZeroPage() && EXTMEM < data < PHYSTOP
    ensures Tabled(mem, p) == {} == RowTables(0, data)
  {
  }

  lemma {:induction false} KmapStart(data: word)
    requires EXTMEM < data < PHYSTOP
    ensures forall v :: 0 <= v < StartPage(0, data) ==> KernelPte(v, data) == 0
  {
  }

  /** The rows together need exactly the kernel's tables. */
  lemma {:induction false} AllRows(data: word)
    requires EXTMEM < data < PHYSTOP && data % PGSIZE == 0
    ensures RowTables(4, data) == KernelTables() && |KernelTables()| == KERNEL_FRAMES - 1
  {
    RangeSize(512, 568);
    RangeSize(1016, 1024);
    RowPages(data);
    var d := UPAGES + data / PGSIZE;
    RowsMeet(d);
    assert RowTables(4, data) == RowTables(2, data) + TablesFor(d, 581632) + TablesFor(1040384, PAGES);
    assert RowTables(2, data) == RowTables(0, data) + TablesFor(UPAGES, 524544) + TablesFor(524544, d);
  }

  /** The rows' pages, which meet where the kernel's data starts. */
  lemma {:induction false} RowPages(data: word)
    requires EXTMEM < data < PHYSTOP && data % PGSIZE == 0
    ensures var d := UPAGES + data / PGSIZE;
      && StartPage(0, data) == UPAGES && EndPage(0, data) == StartPage(1, data) == 524544
      && EndPage(1, data) == StartPage(2, data) == d && EndPage(2, data) == 581632
      && StartPage(3, data) == 1040384 && EndPage(3, data) == PAGES && 524544 < d < 581632
  {
  }

  lemma {:induction false} RowsMeet(d: nat)
    requires 524544 < d < 581632
    ensures TablesFor(UPAGES, 524544) + TablesFor(524544, d) + TablesFor(d, 581632) + TablesFor(1040384, PAGES)
      == KernelTables()
  {
    assert (d - 1) / 1024 <= d / 1024 <= (d - 1) / 1024 + 1;
  }

  /** A copy of sz bytes takes its pages and a table for every 1024 of them. */
  lemma {:induction false} UserFrames(sz: nat)
    requires sz <= KERNBASE
    ensures FramesFor(KernelTables(), 0, PagesFor(sz)) == PagesFor(sz) + (PagesFor(sz) + 1023) / 1024
  {
    var n := PagesFor(sz);
    var tables := (n + 1023) / 1024;
    RangeSize(0, tables);
    assert n > 0 ==> (n - 1) / 1024 == tables - 1 < 512;
    assert TablesFor(0, n) - KernelTables() == set i: nat | 0 <= i < tables && Between(0, i, PAGES);
  }

  lemma {:induction false} MoreRows(k: nat, j: nat, data: word)
    requires EXTMEM < data < PHYSTOP && k <= j <= 4
    ensures RowTables(k, data) <= RowTables(j, data)
    decreases j
  {
    if k < j { MoreRows(k, j - 1, data); }
  }

  lemma {:induction false} RowPaid(mem: Mem, free: seq<nat>, mem': Mem, free': seq<nat>, g: nat, k: nat, data: word,
      ok: bool)
    requires k < 4 && EXTMEM < data < PHYSTOP && data % PGSIZE == 0
    requires Paid(mem, free, mem', free', g, TablesFor(StartPage(k, data), EndPage(k, data)), ok)
    requires Tabled(mem, g) == RowTables(k, data)
    ensures
      if ok then
        && Tabled(mem', g) == RowTables(k + 1, data)
        && |free'| + |RowTables(k + 1, data)| == |free| + |RowTables(k, data)|
      else |free| + |RowTables(k, data)| < KERNEL_FRAMES - 1
  {
    hide TablesFor, Tabled, StartPage, EndPage, KernelTables;
    if !ok {
      MoreRows(k + 1, 4, data);
      AllRows(data);
      var i :| i in TablesFor(StartPage(k, data), EndPage(k, data)) && i !in Tabled(mem', g);
      SubsetSize(Tabled(mem', g) + {i}, RowTables(4, data));
    }
  }

  /** Where the kernel's pages are: low memory at KERNBASE, its text read-only, devices mapped
      directly, and nothing else. */
  function KernelPte(v: nat, data: word): word
    requires v < PAGES
  {
    var pa := v * PGSIZE - KERNBASE;
    if v < UPAGES then 0
    else if pa < EXTMEM then Entry(pa, PTE_W)
    else if pa < data then Entry(pa, 0)
    else if pa < PHYSTOP then Entry(pa, PTE_W)
    else if v * PGSIZE < DEVSPACE then 0
    else Entry(v * PGSIZE, PTE_W)
  }

  /** The pages of row k. */
  function StartPage(k: nat, data: word): nat
    requires EXTMEM < data < PHYSTOP
  { if k < 4 then Kmap(data)[k].virt / PGSIZE else PAGES }

  function EndPage(k: nat, data: word): nat
    requires EXTMEM < data < PHYSTOP && k < 4
  { (Kmap(data)[k].virt + (Kmap(data)[k].end - Kmap(data)[k].start) % U32 - 1) / PGSIZE + 1 }

  lemma {:induction false} KmapShape(k: nat, data: word)
    requires k < 4 && EXTMEM < data < PHYSTOP && data % PGSIZE == 0
    ensures var e := Kmap(data)[k]; var size := (e.end - e.start) % U32;
      && size >= 1 && e.virt + size - 1 < U32 && e.start % PGSIZE == 0 && e.perm < PGSIZE
      && UPAGES <= StartPage(k, data) < EndPage(k, data) <= StartPage(k + 1, data) <= PAGES
      && e.start + (EndPage(k, data) - 1 - StartPage(k, data)) * PGSIZE < U32
      && (forall v :: StartPage(k, data) <= v < EndPage(k, data) ==>
        KernelPte(v, data) == Entry(e.start + (v - StartPage(k, data)) * PGSIZE, e.perm))
      && (forall v :: EndPage(k, data) <= v < StartPage(k + 1, data) ==> KernelPte(v, data) == 0)
  {
    KmapBounds(k, data);
    var e := Kmap(data)[k];
    forall v | StartPage(k, data) <= v < EndPage(k, data)
      ensures KernelPte(v, data) == Entry(e.start + (v - StartPage(k, data)) * PGSIZE, e.perm)
    {
      KmapRow(k, data, v);
    }
    forall v | EndPage(k, data) <= v < StartPage(k + 1, data) ensures KernelPte(v, data) == 0 { KmapGap(k, data, v); }
  }

  lemma {:induction false} KmapBounds(k: nat, data: word)
    requires k < 4 && EXTMEM < data < PHYSTOP && data % PGSIZE == 0
    ensures var e := Kmap(data)[k]; var size := (e.end - e.start) % U32;
      && size >= 1 && e.virt + size - 1 < U32 && e.start % PGSIZE == 0 && e.perm < PGSIZE
      && UPAGES <= StartPage(k, data) < EndPage(k, data) <= StartPage(k + 1, data) <= PAGES
      && e.start + (EndPage(k, data) - 1 - StartPage(k, data)) * PGSIZE < U32
  {
  }

  lemma {:induction false} KmapRow(k: nat, data: word, v: nat)
    requires k < 4 && EXTMEM < data < PHYSTOP && data % PGSIZE == 0 && StartPage(k, data) <= v < EndPage(k, data)
    ensures var e := Kmap(data)[k]; var pa := e.start + (v - StartPage(k, data)) * PGSIZE;
      v < PAGES && pa % PGSIZE == 0 && pa < U32 && e.perm < PGSIZE && KernelPte(v, data) == Entry(pa, e.perm)
  {
    KmapBounds(k, data);
  }

  lemma {:induction false} KmapGap(k: nat, data: word, v: nat)
    requires k < 4 && EXTMEM < data < PHYSTOP && data % PGSIZE == 0 && EndPage(k, data) <= v < StartPage(k + 1, data)
    ensures v < PAGES && KernelPte(v, data) == 0
  {
    KmapBounds(k, data);
  }

  lemma {:induction false} NothingBeside(mem: Mem, own: Owners)
    ensures SameSpaces(mem, own, mem)
  {
  }

  lemma {:induction false} CopyKept(mem0: Mem, p: nat, mem: Mem, own: Owners, mem': Mem, own': Owners, d: nat, v: nat,
      u: nat)
    requires CopyOf(mem0, p, mem, own, d, u) && IsDir(own, d) && Effect(mem, own, mem', own', d, v, v + 1) && u != v
    ensures CopyOf(mem0, p, mem', own', d, u)
  {
    HoldsKept(mem, own, mem', own', d, v, v + 1, d, u, Flags(Pte(mem0, p, u)), mem0[Frame(Pte(mem0, p, u))]);
  }

  lemma {:induction false} NowCopied(lo: nat, mem0: Mem, p: nat, mem: Mem, own: Owners, d: nat, v: nat, f: nat)
    requires p < |mem0| && v < UPAGES && Present(Pte(mem0, p, v)) && Frame(Pte(mem0, p, v)) < |mem0| && d < |mem|
      && f < |mem| <= FRAMES
    requires Pte(mem, d, v) == Entry(f * PGSIZE, Flags(Pte(mem0, p, v))) && f in own && own[f] == User(d, v)
      && mem[f] == mem0[Frame(Pte(mem0, p, v))]
    ensures CopyOf(mem0, p, mem, own, d, v)
  {
    hide Pte, Entry, Frame, Flags, Present;
    EntryParts(f, Flags(Pte(mem0, p, v)), Pte(mem0, p, v));
  }

  lemma {:induction false} EntryParts(f: nat, flags: nat, e: word)
    requires f < FRAMES && Present(e) && flags == Flags(e)
    ensures flags < PGSIZE && f * PGSIZE % PGSIZE == 0 && f * PGSIZE < U32
    ensures var x := Entry(f * PGSIZE, flags); Frame(x) == f && Flags(x) == flags && Present(x)
  {
    WordParts(Frame(e), flags);
    WordParts(f, flags);
    assert f * PGSIZE % PGSIZE == 0 by { WordParts(f, 0); }
  }

  lemma {:induction false} WordParts(f: nat, x: nat)
    requires x < PGSIZE
    ensures (f * PGSIZE + x) / PGSIZE == f && (f * PGSIZE + x) % PGSIZE == x && (f * PGSIZE + x) % 2 == x % 2
  {
    assert f * PGSIZE + x == 2 * (f * 2048) + x;
  }
}
