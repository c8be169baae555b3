/** Two-level page tables in physical memory (32-bit paging, section 4.3 of volume 3A of the
    Intel 64 and IA-32 manual) and who owns each frame. */
module VmSpec {
  import opened Common

  const PGSIZE: nat := 4096
  const KERNBASE: nat := 0x8000_0000
  /** Frames below PHYSTOP. */
  const FRAMES: nat := 57344
  /** Pages of an address space, and those below KERNBASE. */
  const PAGES: nat := 1048576
  const UPAGES: nat := 524288

  type Page = s: seq<word> | |s| == 1024 witness seq(1024, _ => 0)
  type Mem = seq<Page>

  function ZeroPage(): Page { seq(1024, _ => 0) }

  predicate Present(e: word) { e % 2 == 1 }
  function Frame(e: word): nat { e / PGSIZE }
  function Flags(e: word): nat { e % PGSIZE }

  /** What a frame is used for.  Held frames are in the hands of a caller of kalloc. */
  datatype Owner = Free | Held | Dir | Tab(p: nat, i: nat) | User(p: nat, v: nat)

  type Owners = map<nat, Owner>

  predicate IsDir(own: Owners, p: nat) { p in own && own[p] == Dir }

  /** The entry for page v under directory p; 0 if there is no table for it. */
  function Pte(mem: Mem, p: nat, v: nat): word
    requires p < |mem| && v < PAGES
  {
    var e := mem[p][v / 1024];
    if Present(e) && Frame(e) < |mem| then mem[Frame(e)][v % 1024] else 0
  }

  ghost predicate TabFwd(mem: Mem, own: Owners, p: nat, i: nat) {
    IsDir(own, p) && p < |mem| && i < 1024 && Present(mem[p][i]) ==>
      Frame(mem[p][i]) in own && own[Frame(mem[p][i])] == Tab(p, i)
  }

  ghost predicate UserFwd(mem: Mem, own: Owners, p: nat, v: nat) {
    IsDir(own, p) && p < |mem| && v < UPAGES && Present(Pte(mem, p, v)) ==>
      Frame(Pte(mem, p, v)) in own && own[Frame(Pte(mem, p, v))] == User(p, v)
  }

  ghost predicate Back(mem: Mem, own: Owners, f: nat) {
    f in own ==>
      match own[f]
      case Tab(p, i) => i < 1024 && IsDir(own, p) && p < |mem| && Present(mem[p][i]) && Frame(mem[p][i]) == f
      case User(p, v) => v < UPAGES && IsDir(own, p) && p < |mem| && Present(Pte(mem, p, v))
        && Frame(Pte(mem, p, v)) == f
      case _ => true
  }

  /** Every managed frame has one owner, and owners and page tables agree both ways: each
      present directory entry and each present user page refers to a frame owned by that very
      entry, and each frame so owned is referred to.  No frame is referred to twice. */
  ghost predicate Tables(lo: nat, mem: Mem, own: Owners) {
    && 1 <= lo <= |mem| <= FRAMES
    && (forall f :: f in own <==> lo <= f < |mem|)
    && (forall p, i {:trigger TabFwd(mem, own, p, i)} :: TabFwd(mem, own, p, i))
    && (forall p, v {:trigger UserFwd(mem, own, p, v)} :: UserFwd(mem, own, p, v))
    && (forall f {:trigger Back(mem, own, f)} :: Back(mem, own, f))
  }

  /** The address stored for the k-th free page: 0 past the last. */
  function Link(free: seq<nat>, k: nat): nat { if k < |free| then KERNBASE + free[k] * PGSIZE else 0 }

  ghost predicate Linked(mem: Mem, own: Owners, free: seq<nat>, k: nat) {
    k < |free| ==> free[k] in own && own[free[k]] == Free && free[k] < |mem| && mem[free[k]][0] == Link(free, k + 1)
  }

  /** head starts a list, linked through the first word of each page, of exactly the free frames. */
  ghost predicate FreeList(mem: Mem, own: Owners, free: seq<nat>, head: nat) {
    && head == Link(free, 0)
    && (forall k {:trigger Linked(mem, own, free, k)} :: Linked(mem, own, free, k))
    && (forall k, l :: 0 <= k < l < |free| ==> free[k] != free[l])
    && forall f :: f in own && own[f] == Free ==> f in free
  }

  /** No frame is shared: two user pages in one frame are the same page of the same directory,
      and that frame is neither a directory nor a table nor free. */
  lemma {:induction false} NeverShared(lo: nat, mem: Mem, own: Owners, p: nat, v: nat, q: nat, u: nat)
    requires Tables(lo, mem, own) && IsDir(own, p) && IsDir(own, q) && v < UPAGES && u < UPAGES
    requires Present(Pte(mem, p, v)) && Present(Pte(mem, q, u)) && Frame(Pte(mem, p, v)) == Frame(Pte(mem, q, u))
    ensures p == q && v == u
    ensures !IsDir(own, Frame(Pte(mem, p, v)))
      && forall d: nat, i: nat :: IsDir(own, d) && d < |mem| && i < 1024 && Present(mem[d][i]) ==>
      Frame(mem[d][i]) != Frame(Pte(mem, p, v))
  {
    assert UserFwd(mem, own, p, v) && UserFwd(mem, own, q, u);
    forall d: nat, i: nat | IsDir(own, d) && i < 1024 && Present(mem[d][i])
      ensures Frame(mem[d][i]) != Frame(Pte(mem, p, v))
    {
      assert TabFwd(mem, own, d, i);
    }
  }

  // ----- what an operation on the pages [a, b) of directory p may change -----

  ghost predicate SameEntry(mem: Mem, own: Owners, mem': Mem, p: nat, a: nat, b: nat, q: nat, v: nat) {
    IsDir(own, q) && q < |mem| && q < |mem'| && v < PAGES && !(q == p && a <= v < b) ==>
      Pte(mem', q, v) == Pte(mem, q, v)
  }

  /** A frame that is free, or holds one of the pages [a, b) of p. */
  predicate Loose(o: Owner, p: nat, a: nat, b: nat) { o == Free || (o.User? && o.p == p && a <= o.v < b) }

  ghost predicate OwnerStep(mem: Mem, own: Owners, mem': Mem, own': Owners, p: nat, a: nat, b: nat, f: nat) {
    f in own && f in own' ==>
      if Loose(own[f], p, a, b) then Loose(own'[f], p, a, b) || (own'[f].Tab? && own'[f].p == p)
      else own'[f] == own[f] && ((own[f].User? || own[f].Held?) && f < |mem| && f < |mem'| ==> mem'[f] == mem[f])
  }

  /** Only the translation of pages [a, b) of directory p may differ; frames change hands only
      between the free list, these pages and new page tables of p; every other page keeps its
      owner and its contents. */
  ghost predicate Effect(mem: Mem, own: Owners, mem': Mem, own': Owners, p: nat, a: nat, b: nat) {
    && |mem'| == |mem| && own'.Keys == own.Keys
    && (forall q, v {:trigger SameEntry(mem, own, mem', p, a, b, q, v)} :: SameEntry(mem, own, mem', p, a, b, q, v))
    && (forall f {:trigger OwnerStep(mem, own, mem', own', p, a, b, f)} :: OwnerStep(mem, own, mem', own', p, a, b, f))
  }

  lemma {:induction false} NoEffect(mem: Mem, own: Owners, p: nat, a: nat, b: nat)
    ensures Effect(mem, own, mem, own, p, a, b)
  {
  }

  lemma {:induction false} EffectThen(mem: Mem, own: Owners, mem1: Mem, own1: Owners, mem2: Mem, own2: Owners, p: nat,
      a: nat, b: nat)
    requires Effect(mem, own, mem1, own1, p, a, b) && Effect(mem1, own1, mem2, own2, p, a, b)
    ensures Effect(mem, own, mem2, own2, p, a, b)
  {
    forall q, v ensures SameEntry(mem, own, mem2, p, a, b, q, v) {
      assert SameEntry(mem, own, mem1, p, a, b, q, v) && SameEntry(mem1, own1, mem2, p, a, b, q, v);
      assert OwnerStep(mem, own, mem1, own1, p, a, b, q);
    }
    forall f ensures OwnerStep(mem, own, mem2, own2, p, a, b, f) {
      assert OwnerStep(mem, own, mem1, own1, p, a, b, f) && OwnerStep(mem1, own1, mem2, own2, p, a, b, f);
      assert f in own <==> f in own1;
    }
  }

  lemma {:induction false} EffectWiden(mem: Mem, own: Owners, mem': Mem, own': Owners, p: nat, a: nat, b: nat, a': nat,
      b': nat)
    requires Effect(mem, own, mem', own', p, a, b) && (a < b ==> a' <= a && b <= b')
    ensures Effect(mem, own, mem', own', p, a', b')
  {
    forall q, v ensures SameEntry(mem, own, mem', p, a', b', q, v) { assert SameEntry(mem, own, mem', p, a, b, q, v); }
    forall f
      ensures OwnerStep(mem, own, mem', own', p, a', b', f)
    {
      assert OwnerStep(mem, own, mem', own', p, a, b, f);
    }
  }

  // ----- steps -----

  /** Memory that agrees on directories and tables has the same entries. */
  lemma {:induction false} SamePte(lo: nat, mem: Mem, own: Owners, mem': Mem, p: nat, v: nat)
    requires Tables(lo, mem, own) && |mem'| == |mem| && IsDir(own, p) && v < PAGES
    requires mem'[p] == mem[p]
      && (Present(mem[p][v / 1024]) && Frame(mem[p][v / 1024]) < |mem| ==>
      mem'[Frame(mem[p][v / 1024])] == mem[Frame(mem[p][v / 1024])])
    ensures Pte(mem', p, v) == Pte(mem, p, v)
  {
  }

  /** A frame moves between the free list and a caller's hands, its contents arbitrary. */
  lemma {:induction false} PageChanges(lo: nat, mem: Mem, own: Owners, f: nat, x: Page, o: Owner)
    requires Tables(lo, mem, own) && f in own && own[f] in {Free, Held} && o in {Free, Held}
    ensures Tables(lo, mem[f := x], own[f := o])
    ensures forall q, v {:trigger Pte(mem[f := x], q, v)} :: IsDir(own, q) && 0 <= v < PAGES ==>
      Pte(mem[f := x], q, v) == Pte(mem, q, v)
  {
    var mem', own' := mem[f := x], own[f := o];
    forall q: nat, v: nat | IsDir(own, q) && v < PAGES ensures Pte(mem', q, v) == Pte(mem, q, v) {
      assert TabFwd(mem, own, q, v / 1024);
      SamePte(lo, mem, own, mem', q, v);
    }
    forall p, i ensures TabFwd(mem', own', p, i) { assert TabFwd(mem, own, p, i); }
    forall p, v ensures UserFwd(mem', own', p, v) { assert UserFwd(mem, own, p, v); }
    forall g ensures Back(mem', own', g) { assert Back(mem, own, g); }
  }

  /** A zeroed table goes into an empty directory entry: no translation changes. */
  lemma {:induction false} InstallTable(lo: nat, mem: Mem, own: Owners, p: nat, i: nat, t: nat, e: word)
    requires Tables(lo, mem, own) && IsDir(own, p) && i < 1024 && !Present(mem[p][i])
    requires t in own && own[t] == Held && mem[t] == ZeroPage() && Present(e) && Frame(e) == t
    ensures var mem', own' := mem[p := mem[p][i := e]], own[t := Tab(p, i)];
      && Tables(lo, mem', own')
      && forall q, v {:trigger Pte(mem', q, v)} :: IsDir(own, q) && 0 <= v < PAGES ==> Pte(mem', q, v) == Pte(mem, q, v)
  {
    var mem', own' := mem[p := mem[p][i := e]], own[t := Tab(p, i)];
    forall q: nat, v: nat | IsDir(own, q) && v < PAGES ensures Pte(mem', q, v) == Pte(mem, q, v) {
      assert TabFwd(mem, own, q, v / 1024);
    }
    forall q, k ensures TabFwd(mem', own', q, k) { assert TabFwd(mem, own, q, k); }
    forall q, v ensures UserFwd(mem', own', q, v) { assert UserFwd(mem, own, q, v); }
    forall g ensures Back(mem', own', g) { assert Back(mem, own, g); }
  }

  /** A frame taken from the free list becomes a table: no translation changes. */
  lemma {:induction false} TableMade(lo: nat, mem: Mem, own: Owners, p: nat, i: nat, t: nat, e: word, x: Page)
    requires Tables(lo, mem, own) && IsDir(own, p) && p < |mem| && i < 1024 && !Present(mem[p][i])
    requires t in own && own[t] == Free && t < |mem| && Present(e) && Frame(e) == t && x == mem[p][i := e]
    ensures var mem', own' := mem[t := ZeroPage()][p := x], own[t := Tab(p, i)];
      Tables(lo, mem', own') && Effect(mem, own, mem', own', p, 0, 0)
  {
    var mem1, own1 := mem[t := ZeroPage()], own[t := Held];
    PageChanges(lo, mem, own, t, ZeroPage(), Held);
    InstallTable(lo, mem1, own1, p, i, t, e);
    var mem', own' := mem[t := ZeroPage()][p := x], own[t := Tab(p, i)];
    assert own' == own1[t := Tab(p, i)] && mem' == mem1[p := mem1[p][i := e]];
    forall q: nat, v: nat ensures SameEntry(mem, own, mem', p, 0, 0, q, v) {
      if IsDir(own, q) && v < PAGES { assert IsDir(own1, q) && Pte(mem', q, v) == Pte(mem1, q, v) == Pte(mem, q, v); }
    }
    forall f ensures OwnerStep(mem, own, mem', own', p, 0, 0, f) {}
  }

  /** The table for page v of directory p. */
  ghost predicate HasTable(mem: Mem, own: Owners, p: nat, v: nat, t: nat) {
    IsDir(own, p) && p < |mem| && v < PAGES && Present(mem[p][v / 1024]) && Frame(mem[p][v / 1024]) == t && t in own
      && own[t] == Tab(p, v / 1024)
  }

  /** Writing one table entry changes that entry only. */
  lemma {:induction false} EntryWritten(lo: nat, mem: Mem, own: Owners, p: nat, v: nat, t: nat, w: word)
    requires Tables(lo, mem, own) && HasTable(mem, own, p, v, t)
    ensures forall q, u {:trigger Pte(mem[t := mem[t][v % 1024 := w]], q, u)} :: IsDir(own, q) && 0 <= u < PAGES ==>
      Pte(mem[t := mem[t][v % 1024 := w]], q, u) == if q == p && u == v then w else Pte(mem, q, u)
  {
    var mem' := mem[t := mem[t][v % 1024 := w]];
    forall q: nat, u: nat | IsDir(own, q) && u < PAGES
      ensures Pte(mem', q, u) == if q == p && u == v then w else Pte(mem, q, u)
    {
      assert TabFwd(mem, own, q, u / 1024);
      if q == p && u / 1024 == v / 1024 && u % 1024 == v % 1024 { assert u == v; }
    }
  }

  /** A page goes into an absent entry.  Below KERNBASE its frame must be in hand. */
  lemma {:induction false} InstallPage(lo: nat, mem: Mem, own: Owners, p: nat, v: nat, t: nat, w: word)
    requires Tables(lo, mem, own) && HasTable(mem, own, p, v, t) && !Present(Pte(mem, p, v)) && Present(w)
    requires v < UPAGES ==> Frame(w) in own && own[Frame(w)] == Held
    ensures var mem', own' := mem[t := mem[t][v % 1024 := w]], if v < UPAGES then own[Frame(w) := User(p, v)] else own;
      Tables(lo, mem', own')
  {
    var mem', own' := mem[t := mem[t][v % 1024 := w]], if v < UPAGES then own[Frame(w) := User(p, v)] else own;
    EntryWritten(lo, mem, own, p, v, t, w);
    forall q, k ensures TabFwd(mem', own', q, k) { assert TabFwd(mem, own, q, k); }
    forall q, u ensures UserFwd(mem', own', q, u) { assert UserFwd(mem, own, q, u); }
    forall g ensures Back(mem', own', g) { assert Back(mem, own, g); }
  }

  /** A present user page leaves its entry. */
  lemma {:induction false} RemovePage(lo: nat, mem: Mem, own: Owners, p: nat, v: nat, t: nat)
    requires Tables(lo, mem, own) && HasTable(mem, own, p, v, t) && v < UPAGES && Present(Pte(mem, p, v))
    ensures var f, mem' := Frame(Pte(mem, p, v)), mem[t := mem[t][v % 1024 := 0]];
      f in own && own[f] == User(p, v) && f != t && Tables(lo, mem', own[f := Held])
  {
    assert UserFwd(mem, own, p, v);
    var f, mem' := Frame(Pte(mem, p, v)), mem[t := mem[t][v % 1024 := 0]];
    var own' := own[f := Held];
    EntryWritten(lo, mem, own, p, v, t, 0);
    forall q, k ensures TabFwd(mem', own', q, k) { assert TabFwd(mem, own, q, k); }
    forall q, u ensures UserFwd(mem', own', q, u) { assert UserFwd(mem, own, q, u); }
    forall g ensures Back(mem', own', g) { assert Back(mem, own, g) && Back(mem, own, f); }
  }

  /** A zeroed frame in hand becomes a directory with nothing in it. */
  lemma {:induction false} NewDir(lo: nat, mem: Mem, own: Owners, d: nat)
    requires Tables(lo, mem, own) && d in own && own[d] == Held && mem[d] == ZeroPage()
    ensures Tables(lo, mem, own[d := Dir]) && forall v {:trigger Pte(mem, d, v)} :: 0 <= v < PAGES ==>
      Pte(mem, d, v) == 0
  {
    var own' := own[d := Dir];
    forall q, k ensures TabFwd(mem, own', q, k) { assert TabFwd(mem, own, q, k); }
    forall q, u ensures UserFwd(mem, own', q, u) { assert UserFwd(mem, own, q, u); }
    forall g ensures Back(mem, own', g) { assert Back(mem, own, g); }
  }

  /** The owners once the tables below entry i of p are freed. */
  function TablesFreed(own: Owners, p: nat, i: nat): (own': Owners) {
    map f | f in own :: if own[f].Tab? && own[f].p == p && own[f].i < i then Free else own[f]
  }

  /** A directory with no user pages goes, with all its tables. */
  lemma {:induction false} DirGone(lo: nat, mem: Mem, own: Owners, mem': Mem, p: nat)
    requires Tables(lo, mem, own) && IsDir(own, p) && |mem'| == |mem|
    requires forall v :: 0 <= v < UPAGES ==> !Present(Pte(mem, p, v))
    requires var own' := TablesFreed(own, p, 1024)[p := Free]; forall f :: f in own' && own'[f] != Free ==>
      mem'[f] == mem[f]
    ensures Tables(lo, mem', TablesFreed(own, p, 1024)[p := Free])
    ensures forall q, v {:trigger Pte(mem', q, v)} :: IsDir(own, q) && q != p && 0 <= v < PAGES ==>
      Pte(mem', q, v) == Pte(mem, q, v)
  {
    var own' := TablesFreed(own, p, 1024)[p := Free];
    forall q: nat, v: nat | IsDir(own, q) && q != p && v < PAGES ensures Pte(mem', q, v) == Pte(mem, q, v) {
      assert TabFwd(mem, own, q, v / 1024);
    }
    forall q, k ensures TabFwd(mem', own', q, k) { assert TabFwd(mem, own, q, k); }
    forall q, u ensures UserFwd(mem', own', q, u) { assert UserFwd(mem, own, q, u); }
    forall g ensures Back(mem', own', g) { assert Back(mem, own, g); }
  }

  // ----- unmapping -----

  /** The owners once the pages [a, b) of p are freed. */
  function PagesFreed(own: Owners, p: nat, a: nat, b: nat): (own': Owners) {
    map f | f in own :: if own[f].User? && own[f].p == p && a <= own[f].v < b then Free else own[f]
  }

  ghost predicate UnmappedEntry(mem: Mem, own: Owners, mem': Mem, p: nat, a: nat, b: nat, q: nat, v: nat) {
    IsDir(own, q) && q < |mem| && q < |mem'| && v < PAGES ==>
      Pte(mem', q, v) == if q == p && a <= v < b && Present(Pte(mem, q, v)) then 0 else Pte(mem, q, v)
  }

  ghost predicate KeptPage(mem: Mem, mem': Mem, own': Owners, f: nat) {
    f in own' && (own'[f].User? || own'[f].Held?) && f < |mem| && f < |mem'| ==> mem'[f] == mem[f]
  }

  /** What visiting the pages [a, b) of p one by one, freeing each that is present, comes to:
      exactly their frames are freed, exactly their entries are cleared. */
  ghost predicate Unmapped(mem: Mem, own: Owners, mem': Mem, own': Owners, p: nat, a: nat, b: nat) {
    && |mem'| == |mem| && own' == PagesFreed(own, p, a, b)
    && (forall q, v {:trigger UnmappedEntry(mem, own, mem', p, a, b, q, v)} ::
      UnmappedEntry(mem, own, mem', p, a, b, q, v))
    && (forall f {:trigger KeptPage(mem, mem', own', f)} :: KeptPage(mem, mem', own', f))
  }

  lemma {:induction false} UnmapStart(mem: Mem, own: Owners, p: nat, a: nat)
    ensures Unmapped(mem, own, mem, own, p, a, a)
  {
  }

  /** Absent pages can be skipped. */
  lemma {:induction false} UnmapSkip(lo: nat, mem: Mem, own: Owners, mem': Mem, own': Owners, p: nat, a: nat, b: nat,
      c: nat)
    requires Tables(lo, mem, own) && Unmapped(mem, own, mem', own', p, a, b) && IsDir(own, p) && a <= b <= c <= UPAGES
    requires forall v :: b <= v < c ==> !Present(Pte(mem', p, v))
    ensures Unmapped(mem, own, mem', own', p, a, c)
  {
    forall v: nat | b <= v < c ensures !Present(Pte(mem, p, v)) { assert UnmappedEntry(mem, own, mem', p, a, b, p, v); }
    forall q, v
      ensures UnmappedEntry(mem, own, mem', p, a, c, q, v)
    {
      assert UnmappedEntry(mem, own, mem', p, a, b, q, v);
    }
    forall f | f in own ensures PagesFreed(own, p, a, c)[f] == PagesFreed(own, p, a, b)[f] { assert Back(mem, own, f); }
  }

  lemma {:induction false} UnmapOne(lo: nat, mem: Mem, own: Owners, mem1: Mem, own1: Owners, mem2: Mem, own2: Owners,
      p: nat, a: nat, v: nat, t: nat, f: nat)
    requires Unmapped(mem, own, mem1, own1, p, a, v) && Tables(lo, mem1, own1) && HasTable(mem1, own1, p, v, t)
      && a <= v < UPAGES
    requires Present(Pte(mem1, p, v)) && f == Frame(Pte(mem1, p, v)) && own2 == own1[f := Free]
    requires |mem2| == |mem1| && forall g :: 0 <= g < |mem1| && g != f && g != t ==> mem2[g] == mem1[g]
    requires forall q: nat, u: nat {:trigger Pte(mem2, q, u)} :: IsDir(own1, q) && u < PAGES && q < |mem1| ==>
      Pte(mem2, q, u) == if q == p && u == v then 0 else Pte(mem1, q, u)
    ensures Unmapped(mem, own, mem2, own2, p, a, v + 1)
  {
    var b := v + 1;
    assert UserFwd(mem1, own1, p, v);
    forall q, u
      ensures UnmappedEntry(mem, own, mem2, p, a, b, q, u)
    {
      assert UnmappedEntry(mem, own, mem1, p, a, v, q, u);
    }
    forall g ensures KeptPage(mem, mem2, own2, g) { assert KeptPage(mem, mem1, own1, g); }
    forall g | g in own ensures PagesFreed(own, p, a, b)[g] == own2[g] { assert Back(mem1, own1, g); }
    assert own2.Keys == own.Keys by { assert f in own1; }
  }

  lemma {:induction false} UnmapEffect(mem: Mem, own: Owners, mem': Mem, own': Owners, p: nat, a: nat, b: nat)
    requires Unmapped(mem, own, mem', own', p, a, b)
    ensures Effect(mem, own, mem', own', p, a, b)
  {
    forall q, v
      ensures SameEntry(mem, own, mem', p, a, b, q, v)
    {
      assert UnmappedEntry(mem, own, mem', p, a, b, q, v);
    }
    forall f ensures OwnerStep(mem, own, mem', own', p, a, b, f) { assert KeptPage(mem, mem', own', f); }
  }

  /** The frame of a present page is freed and its entry cleared, in that order. */
  lemma {:induction false} PageFreed(lo: nat, mem: Mem, own: Owners, p: nat, v: nat, t: nat, x: Page)
    requires Tables(lo, mem, own) && HasTable(mem, own, p, v, t) && v < UPAGES && Present(Pte(mem, p, v))
    ensures var f := Frame(Pte(mem, p, v)); f in own && own[f] == User(p, v) && f != t && lo <= f < |mem| && t < |mem|
    ensures var f := Frame(Pte(mem, p, v)); var mem', own' := mem[f := x][t := mem[t][v % 1024 := 0]], own[f := Free];
      && Tables(lo, mem', own')
      && forall q: nat, u: nat {:trigger Pte(mem', q, u)} :: IsDir(own, q) && u < PAGES ==>
        Pte(mem', q, u) == if q == p && u == v then 0 else Pte(mem, q, u)
  {
    RemovePage(lo, mem, own, p, v, t);
    EntryWritten(lo, mem, own, p, v, t, 0);
    var f, mem1 := Frame(Pte(mem, p, v)), mem[t := mem[t][v % 1024 := 0]];
    PageChanges(lo, mem1, own[f := Held], f, x, Free);
    assert mem[f := x][t := mem[t][v % 1024 := 0]] == mem1[f := x];
    assert own[f := Held][f := Free] == own[f := Free];
    forall q: nat, u: nat | IsDir(own, q) && u < PAGES
      ensures Pte(mem1[f := x], q, u) == if q == p && u == v then 0
        else Pte(mem, q, u)
    {
      assert IsDir(own[f := Held], q);
    }
  }

  /** Page k of p is present, with these flags and contents, in a frame of its own. */
  ghost predicate Holds(mem: Mem, own: Owners, p: nat, k: nat, flags: nat, x: Page) {
    && p < |mem| && k < UPAGES && Present(Pte(mem, p, k)) && Flags(Pte(mem, p, k)) == flags
    && Frame(Pte(mem, p, k)) < |mem| && mem[Frame(Pte(mem, p, k))] == x
    && Frame(Pte(mem, p, k)) in own && own[Frame(Pte(mem, p, k))] == User(p, k)
  }

  lemma {:induction false} HoldsKept(mem: Mem, own: Owners, mem': Mem, own': Owners, p: nat, a: nat, b: nat, q: nat,
      k: nat, flags: nat, x: Page)
    requires Effect(mem, own, mem', own', p, a, b) && Holds(mem, own, q, k, flags, x) && IsDir(own, q)
      && !(q == p && a <= k < b)
    ensures Holds(mem', own', q, k, flags, x)
  {
    assert SameEntry(mem, own, mem', p, a, b, q, k) && OwnerStep(mem, own, mem', own', p, a, b, Frame(Pte(mem, q, k)));
  }

  /** Frames have changed hands only from the free list to new page tables of p. */
  ghost predicate OnlyTables(own: Owners, own': Owners, p: nat) {
    own'.Keys == own.Keys && forall f :: f in own ==>
      own'[f] == own[f] || (own[f] == Free && own'[f].Tab? && own'[f].p == p)
  }

  /** If the pages an operation works on are absent before and after, no page was gained or lost. */
  lemma {:induction false} NothingLost(lo: nat, mem: Mem, own: Owners, mem': Mem, own': Owners, p: nat, a: nat, b: nat)
    requires Tables(lo, mem, own) && Tables(lo, mem', own') && Effect(mem, own, mem', own', p, a, b) && IsDir(own, p)
      && IsDir(own', p) && b <= UPAGES
    requires forall v :: a <= v < b ==> !Present(Pte(mem, p, v)) && !Present(Pte(mem', p, v))
    ensures OnlyTables(own, own', p)
  {
    forall f | f in own ensures own'[f] == own[f] || (own[f] == Free && own'[f].Tab? && own'[f].p == p) {
      assert OwnerStep(mem, own, mem', own', p, a, b, f) && Back(mem, own, f) && Back(mem', own', f);
    }
  }

  /** What the owners would be with directory p and all it refers to freed. */
  function Erased(own: Owners, p: nat): (own': Owners) {
    map f | f in own :: if f == p || ((own[f].Tab? || own[f].User?) && own[f].p == p) then Free else own[f]
  }

  /** Work on directory p moves frames only between p and the free list. */
  lemma {:induction false} EffectErased(mem: Mem, own: Owners, mem': Mem, own': Owners, p: nat, a: nat, b: nat)
    requires Effect(mem, own, mem', own', p, a, b)
    ensures Erased(own', p) == Erased(own, p)
  {
    forall f | f in own
      ensures Erased(own', p)[f] == Erased(own, p)[f]
    {
      assert OwnerStep(mem, own, mem', own', p, a, b, f);
    }
  }

  ghost predicate OtherEntry(mem: Mem, own: Owners, mem': Mem, d: nat, q: nat, v: nat) {
    IsDir(own, q) && q != d && q < |mem| && q < |mem'| && v < PAGES ==> Pte(mem', q, v) == Pte(mem, q, v)
  }

  ghost predicate OtherPage(mem: Mem, own: Owners, mem': Mem, d: nat, f: nat) {
    f in own && (own[f].Held? || (own[f].User? && own[f].p != d)) && f < |mem| && f < |mem'| ==> mem'[f] == mem[f]
  }

  /** Apart from directory d, every translation and every page is as it was. */
  ghost predicate Beside(mem: Mem, own: Owners, mem': Mem, d: nat) {
    && |mem'| == |mem|
    && (forall q, v {:trigger OtherEntry(mem, own, mem', d, q, v)} :: OtherEntry(mem, own, mem', d, q, v))
    && (forall f {:trigger OtherPage(mem, own, mem', d, f)} :: OtherPage(mem, own, mem', d, f))
  }

  /** Every translation and every page is as it was. */
  ghost predicate SameSpaces(mem: Mem, own: Owners, mem': Mem) { Beside(mem, own, mem', FRAMES) }

  lemma {:induction false} AllBeside(lo: nat, mem: Mem, own: Owners, mem': Mem, d: nat)
    requires Tables(lo, mem, own) && Beside(mem, own, mem', d) && !IsDir(own, d)
    ensures SameSpaces(mem, own, mem')
  {
    forall q, v ensures OtherEntry(mem, own, mem', FRAMES, q, v) { assert OtherEntry(mem, own, mem', d, q, v); }
    forall f
      ensures OtherPage(mem, own, mem', FRAMES, f)
    {
      assert OtherPage(mem, own, mem', d, f) && Back(mem, own, f);
    }
  }

  /** d is a directory made since the state (mem, own): but for d and what it refers to, nothing
      has changed. */
  ghost predicate Made(mem: Mem, own: Owners, mem': Mem, own': Owners, d: nat) {
    d in own && own[d] == Free && IsDir(own', d) && Erased(own', d) == own && Beside(mem, own, mem', d)
  }

  lemma {:induction false} MadeStart(lo: nat, mem: Mem, own: Owners, d: nat, x: Page)
    requires Tables(lo, mem, own) && d in own && own[d] == Free
    ensures Made(mem, own, mem[d := x], own[d := Dir], d)
  {
    PageChanges(lo, mem, own, d, x, Free);
    forall f | f in own ensures Erased(own[d := Dir], d)[f] == own[f] { assert Back(mem, own, f); }
  }

  lemma {:induction false} MadeThen(mem: Mem, own: Owners, mem1: Mem, own1: Owners, mem2: Mem, own2: Owners, d: nat,
      a: nat, b: nat)
    requires Made(mem, own, mem1, own1, d) && Effect(mem1, own1, mem2, own2, d, a, b)
    ensures Made(mem, own, mem2, own2, d)
  {
    EffectErased(mem1, own1, mem2, own2, d, a, b);
    assert OwnerStep(mem1, own1, mem2, own2, d, a, b, d);
    forall q, v ensures OtherEntry(mem, own, mem2, d, q, v) {
      assert OtherEntry(mem, own, mem1, d, q, v) && SameEntry(mem1, own1, mem2, d, a, b, q, v);
      assert IsDir(own, q) ==> Erased(own1, d)[q] == Dir;
    }
    forall f ensures OtherPage(mem, own, mem2, d, f) {
      assert OtherPage(mem, own, mem1, d, f) && OwnerStep(mem1, own1, mem2, own2, d, a, b, f);
      assert f in own ==> Erased(own1, d)[f] == own[f];
    }
  }

  /** A directory made and then freed leaves every frame with its old owner. */
  lemma {:induction false} MadeGone(mem: Mem, own: Owners, mem1: Mem, own1: Owners, mem2: Mem, d: nat)
    requires Made(mem, own, mem1, own1, d) && Beside(mem1, own1, mem2, d)
    ensures Erased(own1, d) == own && Beside(mem, own, mem2, d)
  {
    forall q, v ensures OtherEntry(mem, own, mem2, d, q, v) {
      assert OtherEntry(mem, own, mem1, d, q, v) && OtherEntry(mem1, own1, mem2, d, q, v);
      assert IsDir(own, q) ==> Erased(own1, d)[q] == Dir;
    }
    forall f ensures OtherPage(mem, own, mem2, d, f) {
      assert OtherPage(mem, own, mem1, d, f) && OtherPage(mem1, own1, mem2, d, f);
      assert f in own ==> Erased(own1, d)[f] == own[f];
    }
  }

  /** Unmapping every user page of p and then dropping p and its tables erases p. */
  lemma {:induction false} ErasedAll(lo: nat, mem: Mem, own: Owners, mem1: Mem, own1: Owners, mem2: Mem, p: nat)
    requires Tables(lo, mem, own) && Tables(lo, mem1, own1) && IsDir(own, p)
      && Unmapped(mem, own, mem1, own1, p, 0, UPAGES) && |mem2| == |mem1|
    requires var own2 := TablesFreed(own1, p, 1024)[p := Free]; forall f :: f in own2 && own2[f] != Free ==>
      mem2[f] == mem1[f]
    ensures var own2 := TablesFreed(own1, p, 1024)[p := Free];
      own2 == Erased(own, p) && Tables(lo, mem2, own2) && Beside(mem, own, mem2, p)
  {
    var own2 := TablesFreed(own1, p, 1024)[p := Free];
    forall v: nat | v < UPAGES
      ensures !Present(Pte(mem1, p, v))
    {
      assert UnmappedEntry(mem, own, mem1, p, 0, UPAGES, p, v);
    }
    DirGone(lo, mem1, own1, mem2, p);
    forall f | f in own ensures own2[f] == Erased(own, p)[f] { assert Back(mem, own, f); }
    forall q: nat, v: nat
      ensures OtherEntry(mem, own, mem2, p, q, v)
    {
      assert UnmappedEntry(mem, own, mem1, p, 0, UPAGES, q, v);
    }
    forall f ensures OtherPage(mem, own, mem2, p, f) { assert KeptPage(mem, mem1, own1, f); }
  }

  /** Freeing the table in entry i, if there is one. */
  lemma {:induction false} TableFreed(lo: nat, mem: Mem, own: Owners, p: nat, i: nat)
    requires Tables(lo, mem, own) && IsDir(own, p) && i < 1024
    ensures Present(mem[p][i]) ==> Frame(mem[p][i]) in own && own[Frame(mem[p][i])] == Tab(p, i)
    ensures Present(mem[p][i]) ==> TablesFreed(own, p, i + 1) == TablesFreed(own, p, i)[Frame(mem[p][i]) := Free]
    ensures !Present(mem[p][i]) ==> TablesFreed(own, p, i + 1) == TablesFreed(own, p, i)
  {
    assert TabFwd(mem, own, p, i);
    forall f | f in own
      ensures own[f] == Tab(p, i) ==> Present(mem[p][i]) && f == Frame(mem[p][i])
    {
      assert Back(mem, own, f);
    }
  }

  /** Page v of d has the flags and the contents that page v of p has in mem0. */
  ghost predicate CopyOf(mem0: Mem, p: nat, mem: Mem, own: Owners, d: nat, v: nat) {
    && p < |mem0| && v < UPAGES && Frame(Pte(mem0, p, v)) < |mem0|
    && Holds(mem, own, d, v, Flags(Pte(mem0, p, v)), mem0[Frame(Pte(mem0, p, v))])
  }

  /** While d is being made, a page of p can still be read. */
  lemma {:induction false} ParentPage(lo: nat, mem0: Mem, own0: Owners, mem: Mem, own: Owners, p: nat, d: nat, v: nat)
    requires Tables(lo, mem0, own0) && Made(mem0, own0, mem, own, d) && IsDir(own0, p) && v < UPAGES
      && Present(Pte(mem0, p, v))
    ensures IsDir(own, p) && p < |mem| == |mem0| && Pte(mem, p, v) == Pte(mem0, p, v) && Present(mem[p][v / 1024])
    ensures Frame(Pte(mem0, p, v)) < |mem0| && mem[Frame(Pte(mem0, p, v))] == mem0[Frame(Pte(mem0, p, v))]
  {
    assert Erased(own, d)[p] == Dir;
    assert OtherEntry(mem0, own0, mem, d, p, v) && UserFwd(mem0, own0, p, v);
    assert OtherPage(mem0, own0, mem, d, Frame(Pte(mem0, p, v)));
  }

  /** A frame taken from the free list and filled with x counts as no change. */
  lemma {:induction false} EffectAfterFill(lo: nat, mem: Mem, own: Owners, f: nat, x: Page, mem': Mem, own': Owners,
      p: nat, a: nat, b: nat)
    requires Tables(lo, mem, own) && f in own && own[f] == Free && Effect(mem[f := x], own, mem', own', p, a, b)
    ensures Effect(mem, own, mem', own', p, a, b)
  {
    PageChanges(lo, mem, own, f, x, Free);
    forall q: nat, v: nat
      ensures SameEntry(mem, own, mem', p, a, b, q, v)
    {
      assert SameEntry(mem[f := x], own, mem', p, a, b, q, v);
    }
    forall g
      ensures OwnerStep(mem, own, mem', own', p, a, b, g)
    {
      assert OwnerStep(mem[f := x], own, mem', own', p, a, b, g);
    }
  }

  /** Unmapping while a frame f is in hand, then freeing f, comes to unmapping. */
  lemma {:induction false} UnmapWithHeld(lo: nat, mem: Mem, own: Owners, f: nat, x: Page, mem1: Mem, own1: Owners,
      y: Page, p: nat, a: nat, b: nat)
    requires Tables(lo, mem, own) && f in own && own[f] == Free
      && Unmapped(mem[f := x], own[f := Held], mem1, own1, p, a, b)
    requires Tables(lo, mem1, own1)
    ensures f in own1 && own1[f] == Held && Unmapped(mem, own, mem1[f := y], own1[f := Free], p, a, b)
  {
    PageChanges(lo, mem, own, f, x, Held);
    PageChanges(lo, mem1, own1, f, y, Free);
    var mem2, own2 := mem1[f := y], own1[f := Free];
    forall q: nat, v: nat ensures UnmappedEntry(mem, own, mem2, p, a, b, q, v) {
      assert UnmappedEntry(mem[f := x], own[f := Held], mem1, p, a, b, q, v);
    }
    forall g ensures KeptPage(mem, mem2, own2, g) { assert KeptPage(mem[f := x], mem1, own1, g); }
    assert own1[f := Free] == PagesFreed(own, p, a, b);
  }

  // ----- the free list -----

  lemma {:induction false} FreeListKept(mem: Mem, own: Owners, mem': Mem, own': Owners, free: seq<nat>, head: nat)
    requires FreeList(mem, own, free, head) && |mem'| == |mem| && own'.Keys == own.Keys
    requires forall f :: f in own && (own[f] == Free || own'[f] == Free) ==>
      own'[f] == own[f] && (f < |mem| ==> mem'[f] == mem[f])
    ensures FreeList(mem', own', free, head)
  {
    forall k ensures Linked(mem', own', free, k) { assert Linked(mem, own, free, k); }
    forall f | f in own' && own'[f] == Free ensures f in free { assert f in own; }
  }

  lemma {:induction false} Pushed(mem: Mem, own: Owners, free: seq<nat>, head: word, f: nat, x: Page)
    requires FreeList(mem, own, free, head) && f in own && own[f] != Free && f < |mem| && x[0] == head
    ensures FreeList(mem[f := x], own[f := Free], [f] + free, KERNBASE + f * PGSIZE)
  {
    var mem', own', free' := mem[f := x], own[f := Free], [f] + free;
    forall k: nat ensures Linked(mem', own', free', k) {
      if k > 0 { assert Linked(mem, own, free, k - 1); }
    }
    forall k, l | 0 <= k < l < |free'| ensures free'[k] != free'[l] { assert Linked(mem, own, free, l - 1); }
    forall g | g in own' && own'[g] == Free ensures g in free' { if g != f { assert g in free; } }
  }

  lemma {:induction false} Popped(mem: Mem, own: Owners, free: seq<nat>, head: nat)
    requires FreeList(mem, own, free, head) && head != 0
    ensures |free| > 0 && head == KERNBASE + free[0] * PGSIZE && free[0] in own && own[free[0]] == Free
      && free[0] < |mem|
    ensures FreeList(mem, own[free[0] := Held], free[1..], mem[free[0]][0])
  {
    assert Linked(mem, own, free, 0);
    var own', free' := own[free[0] := Held], free[1..];
    forall k: nat ensures Linked(mem, own', free', k) { assert Linked(mem, own, free, k + 1); }
    forall g | g in own' && own'[g] == Free ensures g in free' { assert g in free; }
  }
}
