/** Address spaces as values (vm.c): what a change maps and unmaps, what it leaves of other address
    spaces, and how many pages it needs. */
module AddressSpaces {
  import opened Common
  import opened PageTable

  const PGSIZE := 4096
  const KERNBASE := USER * PGSIZE

  /** PGROUNDUP(sz) / PGSIZE */
  function PageUp(sz: nat): nat {
    (sz + PGSIZE - 1) / PGSIZE
  }

  /** A spare page stays spare while others are freed. */
  lemma {:induction false} SpareKept(free: seq<nat>, mem: Memory, free': seq<nat>, mem': Memory, d: nat, x: nat)
    requires Tree(mem, d) && Spare(free, mem, d, x) && Conserved(free, mem, free', mem', d) && mem'.Keys == mem.Keys
    ensures Spare(free', mem', d, x) && !Owns(mem, d, x)
  {
  }

  /** Between a and b every page is mapped with these flags; elsewhere the mapping is as it was. */
  ghost predicate Mapped(mem: Memory, m: Memory, d: nat, a: nat, b: nat, flags: nat) {
    forall w: nat ::
      if a <= w < b then Lookup(m, d, w).present && Lookup(m, d, w).flags == flags
      else Lookup(m, d, w) == Lookup(mem, d, w)
  }

  ghost predicate SameMap(mem: Memory, m: Memory, d: nat) {
    forall w: nat :: SameEntry(Lookup(m, d, w), Lookup(mem, d, w))
  }

  /** The same pages hold page tables, in the same directory entries. */
  ghost predicate SameTables(mem: Memory, m: Memory, d: nat) {
    m.Keys == mem.Keys && forall i: nat :: Pde(m, d, i) == Pde(mem, d, i)
  }

  ghost predicate NoneMapped(mem: Memory, d: nat, a: nat, b: nat) {
    forall w :: a <= w < b && w < USER ==> !Lookup(mem, d, w).present
  }

  /** Mapping a range that was unmapped and unmapping it again restores the mapping. */
  lemma {:induction false} RolledBack(m0: Memory, m1: Memory, m2: Memory, d: nat, a: nat, v: nat, b: nat, flags: nat)
    requires NoneMapped(m0, d, a, b) && Mapped(m0, m1, d, a, v, flags) && Unmapped(m1, m2, d, a, b) && v <= b <= USER
    ensures SameMap(m0, m2, d)
  {
  }

  /** Pages [v, v + n) map to consecutive physical pages; elsewhere the mapping is as it was. */
  ghost predicate MappedRange(mem: Memory, m: Memory, d: nat, v: nat, n: nat, page: nat, flags: nat) {
    forall w: nat :: Lookup(m, d, w) == if v <= w < v + n then Entry(true, page + w - v, flags) else Lookup(mem, d, w)
  }

  /** Between a and b nothing is mapped any more; elsewhere the mapping is as it was. */
  ghost predicate Unmapped(mem: Memory, m: Memory, d: nat, a: nat, b: nat) {
    forall w: nat :: if a <= w < b then !Lookup(m, d, w).present else Lookup(m, d, w) == Lookup(mem, d, w)
  }

  // ---------- the kernel's part of an address space ----------

  /** A row of kmap: n pages at virtual page virt, mapped to physical pages from phys on. */
  datatype Region = Region(virt: nat, n: nat, phys: nat, perm: nat)

  /** The kernel's regions are in its half of the address space, in order and apart. */
  predicate Regions(ks: seq<Region>) {
    && (forall i :: 0 <= i < |ks| ==> USER <= ks[i].virt && 0 < ks[i].n && ks[i].virt + ks[i].n <= ENTRIES * ENTRIES)
    && (forall i, j :: 0 <= i < j < |ks| ==> ks[i].virt + ks[i].n <= ks[j].virt)
  }

  /** What the regions say about page w. */
  function KernelEntry(ks: seq<Region>, w: nat): Entry {
    if ks == [] then Absent()
    else
      var k := ks[|ks| - 1];
      if k.virt <= w < k.virt + k.n then Entry(true, k.phys + w - k.virt, k.perm) else KernelEntry(ks[..|ks| - 1], w)
  }

  /** kmap, given where the linker puts the kernel's data. */
  function Kmap(data: nat): seq<Region>
    requires USER + 0x100 < data < USER + 0xE000
  {
    [Region(USER, 0x100, 0, 2), Region(USER + 0x100, data - USER - 0x100, 0x100, 0),
     Region(data, USER + 0xE000 - data, data - USER, 2), Region(0xFE000, 0x2000, 0xFE000, 2)]
  }

  lemma {:induction false} KmapRegions(data: nat)
    requires USER + 0x100 < data < USER + 0xE000
    ensures Regions(Kmap(data))
  {
  }

  /** kmap maps all memory below PHYSTOP at KERNBASE, page for page, read-only where the kernel's text
      is and else writable; device pages to themselves; and nothing else. */
  lemma {:induction false} KmapMaps(data: nat, w: nat)
    requires USER + 0x100 < data < USER + 0xE000
    ensures KernelEntry(Kmap(data), w) ==
      if USER <= w < USER + 0xE000 then Entry(true, w - USER, if USER + 0x100 <= w < data then 0 else 2)
      else if 0xFE000 <= w < 0x10_0000 then Entry(true, w, 2)
      else Absent()
  {
    var ks := Kmap(data);
    assert ks[..3][..2] == ks[..2] && ks[..2][..1] == ks[..1] && ks[..1][..0] == [];
    assert |ks| == 4 && ks[..4 - 1] == ks[..3];
    KernelStep(ks, w);
    KernelStep(ks[..3], w);
    KernelStep(ks[..2], w);
    KernelStep(ks[..1], w);
  }

  lemma {:induction false} KernelStep(ks: seq<Region>, w: nat)
    requires ks != []
    ensures var k := ks[|ks| - 1];
      KernelEntry(ks, w) == if k.virt <= w < k.virt + k.n then Entry(true, k.phys + w - k.virt, k.perm)
                            else KernelEntry(ks[..|ks| - 1], w)
  {
  }

  lemma {:induction false} NotYetMapped(ks: seq<Region>, k: nat)
    requires Regions(ks) && k < |ks|
    ensures forall w: nat :: ks[k].virt <= w ==> KernelEntry(ks[..k], w) == Absent()
  {
    forall w: nat | ks[k].virt <= w ensures KernelEntry(ks[..k], w) == Absent() {
      PastRegions(ks, k, w);
    }
  }

  lemma {:induction false} RegionMapped(ks: seq<Region>, k: nat, m: Memory, m': Memory, d: nat)
    requires k < |ks| && (forall w: nat :: Lookup(m, d, w) == KernelEntry(ks[..k], w))
    requires MappedRange(m, m', d, ks[k].virt, ks[k].n, ks[k].phys, ks[k].perm)
    ensures forall w: nat :: Lookup(m', d, w) == KernelEntry(ks[..k + 1], w)
  {
    assert ks[..k + 1][..k] == ks[..k];
  }

  lemma {:induction false} PastRegions(ks: seq<Region>, k: nat, w: nat)
    requires k <= |ks| && forall i :: 0 <= i < k ==> ks[i].virt + ks[i].n <= w
    ensures KernelEntry(ks[..k], w) == Absent()
  {
    if k > 0 {
      assert ks[..k][..k - 1] == ks[..k - 1];
      PastRegions(ks, k - 1, w);
    }
  }

  /** A zeroed directory made of the first free page is an address space that owns that page. */
  lemma {:induction false} FirstSpace(free: seq<nat>, mem: Memory, d: nat)
    requires Distinct(free) && (forall p: nat :: p in free ==> p !in mem) && free != [] && d == free[0]
    ensures var m := mem[d := Zeroed()];
      && Space(free[1..], m, d) && (forall w: nat :: Lookup(m, d, w) == Absent())
      && (forall p: nat :: p in free <==> p in free[1..] || Owns(m, d, p))
      && (forall p: nat :: !IsTab(m, d, p)) && Tables(m, d) == KernelDirs([])
  {
    var m := mem[d := Zeroed()];
    assert forall i: nat :: Pde(m, d, i) == Absent();
  }

  /** Pages that are not of the new address space are untouched while it is built. */
  lemma {:induction false} KeptApart(m0: Memory, m1: Memory, m2: Memory, d: nat)
    requires d !in m0 && m1 == m0[d := Zeroed()] && OthersKept(m1, m2, d) && (forall p: nat :: !IsTab(m1, d, p))
    ensures Beside(m0, m2, d)
  {
  }

  /** m is m0 and, apart from it, the directory and page tables of c. */
  ghost predicate Beside(m0: Memory, m: Memory, c: nat) {
    && (forall q :: q in m0 ==> q in m && m[q] == m0[q] && q != c && !IsTab(m, c, q))
    && (forall q :: q in m ==> q in m0 || q == c || IsTab(m, c, q))
  }

  lemma {:induction false} BesideMore(m0: Memory, m1: Memory, m2: Memory, c: nat)
    requires Beside(m0, m1, c) && OthersKept(m1, m2, c)
    ensures Beside(m0, m2, c)
  {
  }

  lemma {:induction false} BesideSame(m0: Memory, m: Memory, c: nat, d: nat)
    requires Tree(m0, d) && Beside(m0, m, c)
    ensures Tree(m, d) && (forall i: nat :: Pde(m, d, i) == Pde(m0, d, i)) &&
      (forall w: nat :: Lookup(m, d, w) == Lookup(m0, d, w))
  {
    assert forall i: nat :: Pde(m, d, i) == Pde(m0, d, i);
  }

  /** A space is intact while another is built from free pages. */
  lemma {:induction false} ParentStays(f0: seq<nat>, m0: Memory, f: seq<nat>, m: Memory, c: nat, d: nat)
    requires Space(f0, m0, d) && Beside(m0, m, c) && Space(f, m, c)
    requires forall p: nat :: p in f || Owns(m, c, p) ==> p in f0
    ensures Intact(m0, f, m, d) && NoneShared(m, c, d)
  {
    assert forall p: nat :: p in f0 ==> p !in m0 && !IsFrame(m0, d, p);
    assert forall q :: q in m0 && q == d ==> q in m;
    StaysSpace(f0, m0, f, m, d);
    assert forall p: nat :: IsTab(m0, d, p) || p == d ==> p in m0;
  }

  lemma {:induction false} BackAgain(m0: Memory, m1: Memory, m2: Memory, c: nat)
    requires Beside(m0, m1, c) && (forall q: nat :: q in m2 <==> q in m1 && q != c && !IsTab(m1, c, q))
    requires forall q: nat :: q in m2 ==> m2[q] == m1[q]
    ensures m2 == m0
  {
    assert m2.Keys == m0.Keys;
  }

  lemma {:induction false} FewerFree(f0: seq<nat>, f: seq<nat>, mem: Memory, d: nat)
    requires Space(f0, mem, d) && Distinct(f) && forall p: nat :: p in f ==> p in f0
    ensures Space(f, mem, d)
  {
    assert forall p: nat :: p in f0 ==> p !in mem && !IsFrame(mem, d, p);
    assert forall i :: 0 <= i < |f| ==> f[i] in f0;
  }

  /** Below n the user pages of c are mapped with the flags they have in d; above, only the kernel's. */
  ghost predicate Copied(m0: Memory, d: nat, m: Memory, c: nat, n: nat, ks: seq<Region>) {
    forall w: nat ::
      if w < n then Lookup(m, c, w).present && Lookup(m, c, w).flags == Lookup(m0, d, w).flags
      else Lookup(m, c, w) == KernelEntry(ks, w)
  }

  lemma {:induction false} KernelOnly(ks: seq<Region>, w: nat)
    requires Regions(ks) && w < USER
    ensures KernelEntry(ks, w) == Absent()
  {
    if ks != [] {
      KernelOnly(ks[..|ks| - 1], w);
    }
  }

  /** p is a page table named below directory entry n. */
  predicate TabBelow(mem: Memory, d: nat, n: nat, p: nat) {
    exists i :: 0 <= i < n && Pde(mem, d, i).present && Pde(mem, d, i).page == p
  }

  lemma {:induction false} TabBelowNext(mem: Memory, d: nat, n: nat)
    requires Tree(mem, d) && n < ENTRIES
    ensures forall p: nat :: TabBelow(mem, d, n + 1, p) <==>
      TabBelow(mem, d, n, p) || (Pde(mem, d, n).present && Pde(mem, d, n).page == p)
    ensures Pde(mem, d, n).present ==> !TabBelow(mem, d, n, Pde(mem, d, n).page)
    ensures !TabBelow(mem, d, n, d)
  {
    forall p: nat
      ensures TabBelow(mem, d, n + 1, p) <==>
        TabBelow(mem, d, n, p) || (Pde(mem, d, n).present && Pde(mem, d, n).page == p)
    {
      if TabBelow(mem, d, n, p) {
        var i :| 0 <= i < n && Pde(mem, d, i).present && Pde(mem, d, i).page == p;
        assert 0 <= i < n + 1 && Pde(mem, d, i).page == p;
      }
    }
  }

  lemma {:induction false} SameTabs(mem: Memory, m: Memory, d: nat)
    requires SameTables(mem, m, d)
    ensures forall p: nat :: IsTab(m, d, p) <==> IsTab(mem, d, p)
  {
  }

  lemma {:induction false} NoFrames(mem: Memory, d: nat)
    requires NoneMapped(mem, d, 0, USER)
    ensures forall p: nat :: !IsFrame(mem, d, p)
  {
  }

  /** A missing page table means a whole range of unmapped pages. */
  lemma {:induction false} SkipTable(mem: Memory, d: nat, a: nat, b: nat)
    requires !Pde(mem, d, a / ENTRIES).present && b == (a / ENTRIES + 1) * ENTRIES
    ensures a < b && forall w :: a <= w < b ==> !Lookup(mem, d, w).present
  {
  }

  // ---------- other address spaces ----------

  /** No page belongs to both address spaces. */
  ghost predicate NoneShared(mem: Memory, d: nat, e: nat) {
    forall p: nat :: !(Owns(mem, d, p) && Owns(mem, e, p))
  }

  /** Address space e is as it was: the same mapping and the same pages, and none of them is free. */
  ghost predicate Intact(m0: Memory, f1: seq<nat>, m1: Memory, e: nat) {
    && Space(f1, m1, e)
    && (forall w: nat :: Lookup(m1, e, w) == Lookup(m0, e, w))
    && (forall p: nat :: Owns(m1, e, p) <==> Owns(m0, e, p))
  }

  /** Every address space that shared no page with d is intact and still shares none. */
  ghost predicate OthersIntact(f0: seq<nat>, m0: Memory, f1: seq<nat>, m1: Memory, d: nat) {
    forall e: nat :: Space(f0, m0, e) && NoneShared(m0, d, e) ==> Intact(m0, f1, m1, e) && NoneShared(m1, d, e)
  }

  /** The directory and the page tables of e are the same in m1. */
  ghost predicate TreeKept(m0: Memory, m1: Memory, e: nat) {
    forall q :: q in m0 && (q == e || IsTab(m0, e, q)) ==> q in m1 && m1[q] == m0[q]
  }

  lemma {:induction false} TreeSame(m0: Memory, m1: Memory, e: nat)
    requires Tree(m0, e) && TreeKept(m0, m1, e)
    ensures Tree(m1, e) && (forall w: nat :: Lookup(m1, e, w) == Lookup(m0, e, w))
    ensures forall p: nat :: Owns(m1, e, p) <==> Owns(m0, e, p)
  {
    assert forall i: nat :: Pde(m1, e, i) == Pde(m0, e, i);
    assert forall i: nat :: i < ENTRIES && Pde(m0, e, i).present ==> IsTab(m0, e, Pde(m0, e, i).page);
    assert forall w: nat :: Lookup(m1, e, w) == Lookup(m0, e, w);
    SameLookupSameFrames(m0, m1, e);
    forall p: nat ensures IsTab(m1, e, p) <==> IsTab(m0, e, p) {
      if IsTab(m0, e, p) {
        var i :| 0 <= i < ENTRIES && Pde(m0, e, i).present && Pde(m0, e, i).page == p;
        assert Pde(m1, e, i).page == p;
      }
    }
  }

  /** A space whose tree is kept is intact if no free page and no page table is one of its frames. */
  lemma {:induction false} StaysSpace(f0: seq<nat>, m0: Memory, f1: seq<nat>, m1: Memory, e: nat)
    requires Space(f0, m0, e) && TreeKept(m0, m1, e) && Distinct(f1) && (forall p: nat :: p in f1 ==> p !in m1)
    requires forall p: nat :: p in f1 || (p in m1 && p !in m0) ==> !IsFrame(m0, e, p)
    ensures Intact(m0, f1, m1, e)
  {
    TreeSame(m0, m1, e);
    SameLookupSameFrames(m0, m1, e);
    assert forall v :: 0 <= v < USER && Lookup(m0, e, v).present ==> IsFrame(m0, e, Lookup(m0, e, v).page);
    assert forall i :: 0 <= i < |f1| ==> f1[i] in f1;
  }

  lemma {:induction false} OneIntact(f0: seq<nat>, m0: Memory, f1: seq<nat>, m1: Memory, d: nat, e: nat)
    requires Space(f0, m0, d) && Space(f0, m0, e) && NoneShared(m0, d, e) && Space(f1, m1, d)
    requires Conserved(f0, m0, f1, m1, d) && OthersKept(m0, m1, d)
    ensures Intact(m0, f1, m1, e) && NoneShared(m1, d, e)
  {
    assert Owns(m0, e, e) && !Owns(m0, d, e);
    forall q | q in m0 && (q == e || IsTab(m0, e, q)) ensures q in m1 && m1[q] == m0[q] {
      assert Owns(m0, e, q) && !Owns(m0, d, q);
    }
    forall p: nat | p in f1 || (p in m1 && p !in m0) ensures !IsFrame(m0, e, p) {
      assert p in f0 || Owns(m0, d, p);
    }
    StaysSpace(f0, m0, f1, m1, e);
    forall p: nat ensures !(Owns(m1, d, p) && Owns(m1, e, p)) {
      assert Owns(m1, d, p) ==> p in f0 || Owns(m0, d, p);
    }
  }

  /** What the kernel does to one address space leaves every other one intact. */
  lemma {:induction false} AllIntact(f0: seq<nat>, m0: Memory, f1: seq<nat>, m1: Memory, d: nat)
    requires Space(f0, m0, d) && Space(f1, m1, d) && Conserved(f0, m0, f1, m1, d) && OthersKept(m0, m1, d)
    ensures OthersIntact(f0, m0, f1, m1, d)
  {
    forall e: nat | Space(f0, m0, e) && NoneShared(m0, d, e) ensures Intact(m0, f1, m1, e) && NoneShared(m1, d, e) {
      OneIntact(f0, m0, f1, m1, d, e);
    }
  }

  lemma {:induction false} NoChange(f: seq<nat>, m: Memory, d: nat)
    requires Space(f, m, d)
    ensures OthersKept(m, m, d) && OthersIntact(f, m, f, m, d)
  {
    AllIntact(f, m, f, m, d);
  }

  /** m1 and f1 are what freevm leaves of m0 and f0. */
  ghost predicate FreedSpace(f0: seq<nat>, m0: Memory, f1: seq<nat>, m1: Memory, d: nat) {
    && Distinct(f1) && (forall p: nat :: p in f1 <==> p in f0 || Owns(m0, d, p))
    && (forall q :: q in m1 <==> q in m0 && q != d && !IsTab(m0, d, q))
    && (forall q :: q in m1 ==> m1[q] == m0[q])
  }

  /** Every address space that shared no page with the freed one is intact. */
  ghost predicate OthersStay(f0: seq<nat>, m0: Memory, f1: seq<nat>, m1: Memory, d: nat) {
    forall e: nat :: Space(f0, m0, e) && NoneShared(m0, d, e) ==> Intact(m0, f1, m1, e)
  }

  lemma {:induction false} AllStay(f0: seq<nat>, m0: Memory, f1: seq<nat>, m1: Memory, d: nat)
    requires Space(f0, m0, d) && FreedSpace(f0, m0, f1, m1, d)
    ensures OthersStay(f0, m0, f1, m1, d)
  {
    hide Space, NoneShared, Intact, FreedSpace;
    forall e: nat | Space(f0, m0, e) && NoneShared(m0, d, e) ensures Intact(m0, f1, m1, e) {
      FreedIntact(f0, m0, f1, m1, d, e);
    }
  }

  /** Every address space is intact and shares no page with the new one. */
  ghost predicate AllApart(f0: seq<nat>, m0: Memory, f: seq<nat>, m: Memory, c: nat) {
    forall e: nat :: Space(f0, m0, e) ==> Intact(m0, f, m, e) && NoneShared(m, c, e)
  }

  /** Free pages and the pages of the new space are what was free. */
  ghost predicate MadeOf(f0: seq<nat>, f: seq<nat>, m: Memory, c: nat) {
    forall p: nat :: p in f0 <==> p in f || Owns(m, c, p)
  }

  lemma {:induction false} BuiltApart(f0: seq<nat>, m0: Memory, f: seq<nat>, m: Memory, c: nat)
    requires Beside(m0, m, c) && Space(f, m, c) && MadeOf(f0, f, m, c)
    ensures AllApart(f0, m0, f, m, c)
  {
    hide Space, NoneShared, Intact, Beside;
    forall e: nat | Space(f0, m0, e) ensures Intact(m0, f, m, e) && NoneShared(m, c, e) {
      ParentStays(f0, m0, f, m, c, e);
    }
  }

  /** Freeing an address space leaves every other one intact. */
  lemma {:induction false} FreedIntact(f0: seq<nat>, m0: Memory, f1: seq<nat>, m1: Memory, d: nat, e: nat)
    requires Space(f0, m0, d) && Space(f0, m0, e) && NoneShared(m0, d, e) && FreedSpace(f0, m0, f1, m1, d)
    ensures Intact(m0, f1, m1, e)
  {
    assert Owns(m0, e, e) && !Owns(m0, d, e);
    forall q | q in m0 && (q == e || IsTab(m0, e, q)) ensures q in m1 && m1[q] == m0[q] {
      assert Owns(m0, e, q) && !Owns(m0, d, q);
    }
    assert forall p: nat :: IsFrame(m0, e, p) ==> Owns(m0, e, p);
    assert forall p: nat :: p in f0 ==> p !in m0 && !IsFrame(m0, e, p);
    assert forall p: nat :: IsFrame(m0, d, p) ==> p !in m0;
    StaysSpace(f0, m0, f1, m1, e);
  }

  // ---------- how many page tables a range needs ----------

  function Count(bs: seq<bool>): nat {
    if bs == [] then 0 else Count(bs[..|bs| - 1]) + (if bs[|bs| - 1] then 1 else 0)
  }

  lemma {:induction false} CountSet(bs: seq<bool>, i: nat)
    requires i < |bs|
    ensures Count(bs[i := true]) == Count(bs) + (if bs[i] then 0 else 1)
  {
    var n := |bs| - 1;
    if i < n {
      CountSet(bs[..n], i);
      assert bs[i := true][..n] == bs[..n][i := true];
    } else {
      assert bs[i := true][..n] == bs[..n];
    }
  }

  /** Directory entry i is one of those of pages [v, v + n). */
  predicate InDirs(v: nat, n: nat, i: nat) { n > 0 && v / ENTRIES <= i <= (v + n - 1) / ENTRIES }

  /** The entries bs and those of pages [v, v + n). */
  function With(bs: seq<bool>, v: nat, n: nat): (r: seq<bool>)
    ensures |r| == |bs|
  {
    seq(|bs|, i requires 0 <= i < |bs| => bs[i] || InDirs(v, n, i))
  }

  lemma {:induction false} WithMore(bs: seq<bool>, v: nat, n: nat)
    requires (v + n) / ENTRIES < |bs|
    ensures With(bs, v, n + 1) == With(bs, v, n)[(v + n) / ENTRIES := true]
  {
  }

  /** Adding entries one page at a time adds the ones that are missing. */
  lemma {:induction false} CountWith(bs: seq<bool>, v: nat, k: nat, n: nat)
    requires k <= n && (n == 0 || (v + n - 1) / ENTRIES < |bs|)
    ensures Count(With(bs, v, k)) <= Count(With(bs, v, n))
    ensures k < n && !With(bs, v, k)[(v + k) / ENTRIES] ==> Count(With(bs, v, k)) < Count(With(bs, v, n))
    decreases n - k
  {
    if k < n {
      WithMore(bs, v, k);
      CountSet(With(bs, v, k), (v + k) / ENTRIES);
      CountWith(bs, v, k + 1, n);
    }
  }

  lemma {:induction false} WithSet(bs: seq<bool>, v: nat)
    requires v / ENTRIES < |bs|
    ensures With(bs, v, 1) == bs[v / ENTRIES := true]
  {
  }

  lemma {:induction false} WithNone(bs: seq<bool>, v: nat)
    ensures With(bs, v, 0) == bs
  {
  }

  /** Free pages and page tables together are as many as before, but for n pages. */
  predicate Balanced(f0: seq<nat>, m0: Memory, f1: seq<nat>, m1: Memory, d: nat, n: nat) {
    |f1| + Count(Tables(m1, d)) + n == |f0| + Count(Tables(m0, d))
  }

  /** The pages it takes to map user pages [a, b): a frame for each, and the missing page tables. */
  function Needs(mem: Memory, d: nat, a: nat, b: nat): int {
    if a < b then b - a + Count(With(Tables(mem, d), a, b - a)) - Count(Tables(mem, d)) else 0
  }

  /** Mapping [a, b) has taken that many pages. */
  lemma {:induction false} Enough(f0: seq<nat>, m0: Memory, f1: seq<nat>, m1: Memory, d: nat, a: nat, b: nat)
    requires a <= b && Growth(f0, m0, f1, m1, d, a, b - a)
    ensures |f0| == |f1| + Needs(m0, d, a, b)
  {
    hide Space, OthersKept, Conserved;
    WithNone(Tables(m0, d), a);
  }

  /** It fails at v when no page is left, or one page and no page table for it. */
  lemma {:induction false} TooFew(f0: seq<nat>, m0: Memory, f1: seq<nat>, m1: Memory, d: nat, a: nat, v: nat, b: nat)
    requires a <= v < b <= USER && Growth(f0, m0, f1, m1, d, a, v - a)
    requires f1 == [] || (|f1| == 1 && !Pde(m1, d, v / ENTRIES).present)
    ensures |f0| < Needs(m0, d, a, b)
  {
    hide Space, OthersKept, Conserved;
    CountWith(Tables(m0, d), a, v - a, b - a);
  }

  /** The directory entries of the kernel's regions. */
  function KernelDirs(ks: seq<Region>): (r: seq<bool>)
    ensures |r| == ENTRIES
  {
    if ks == [] then seq(ENTRIES, i => false) else With(KernelDirs(ks[..|ks| - 1]), ks[|ks| - 1].virt, ks[|ks| - 1].n)
  }

  lemma {:induction false} KernelDirsMore(ks: seq<Region>, k: nat)
    requires k < |ks|
    ensures KernelDirs(ks[..k + 1]) == With(KernelDirs(ks[..k]), ks[k].virt, ks[k].n)
  {
    assert ks[..k + 1][..k] == ks[..k];
  }

  lemma {:induction false} KernelDirsLess(ks: seq<Region>, k: nat)
    requires Regions(ks) && k <= |ks|
    ensures Count(KernelDirs(ks[..k])) <= Count(KernelDirs(ks))
    decreases |ks| - k
  {
    if k < |ks| {
      KernelDirsMore(ks, k);
      WithNone(KernelDirs(ks[..k]), ks[k].virt);
      CountWith(KernelDirs(ks[..k]), ks[k].virt, 0, ks[k].n);
      KernelDirsLess(ks, k + 1);
    } else {
      assert ks[..k] == ks;
    }
  }

  lemma {:induction false} KernelDirsHigh(ks: seq<Region>)
    requires Regions(ks)
    ensures NoneLow(KernelDirs(ks))
  {
    if ks != [] {
      assert USER <= ks[|ks| - 1].virt;
      KernelDirsHigh(ks[..|ks| - 1]);
    }
  }

  /** Entries [a, b) and [c, e). */
  function TwoRuns(n: nat, a: nat, b: nat, c: nat, e: nat): seq<bool> {
    seq(n, i => a <= i < b || c <= i < e)
  }

  lemma {:induction false} CountRuns(n: nat, a: nat, b: nat, c: nat, e: nat)
    requires a <= b <= c <= e
    ensures Count(TwoRuns(n, a, b, c, e)) ==
      (if n <= a then 0 else if n <= b then n - a else if n <= c then b - a
       else if n <= e then b - a + n - c else b - a + e - c)
  {
    if n > 0 {
      assert TwoRuns(n, a, b, c, e)[..n - 1] == TwoRuns(n - 1, a, b, c, e);
      CountRuns(n - 1, a, b, c, e);
    }
  }

  /** The kernel's mappings take 64 page tables. */
  lemma {:induction false} KmapTables(data: nat)
    requires USER + 0x100 < data < USER + 0xE000
    ensures Count(KernelDirs(Kmap(data))) == 64
  {
    var ks := Kmap(data);
    assert ks == ks[..4];
    KernelDirsMore(ks, 3);
    KernelDirsMore(ks, 2);
    KernelDirsMore(ks, 1);
    KernelDirsMore(ks, 0);
    assert KernelDirs(ks[..0]) == seq(ENTRIES, i => false);
    assert KernelDirs(ks) == TwoRuns(ENTRIES, 512, 568, 1016, 1024);
    CountRuns(ENTRIES, 512, 568, 1016, 1024);
  }

  // ---------- how many pages copyuvm needs, and when it loses one ----------

  /** Pages taken to copy the first n pages of an address space: frames and page tables. */
  function CopyCost(n: nat): nat { n + (n + ENTRIES - 1) / ENTRIES }

  /** With f pages for it, copying n pages stops with one page in hand and none for its page table. */
  predicate LosesPage(f: nat, n: nat) {
    f % (ENTRIES + 1) == 1 && f / (ENTRIES + 1) * ENTRIES < n
  }

  /** The page tables of the first n pages of a space that had none for user pages. */
  lemma {:induction false} LowTables(bs: seq<bool>, n: nat)
    requires NoneLow(bs) && n <= USER
    ensures Count(With(bs, 0, n)) == Count(bs) + (n + ENTRIES - 1) / ENTRIES
    ensures n < USER ==> (With(bs, 0, n)[n / ENTRIES] <==> n % ENTRIES != 0)
  {
    if n == 0 {
      WithNone(bs, 0);
    } else {
      LowTables(bs, n - 1);
      WithMore(bs, 0, n - 1);
      CountSet(With(bs, 0, n - 1), (n - 1) / ENTRIES);
    }
  }

  /** Copying has the pages for n frames and their tables. */
  lemma {:induction false} CopyDone(f: nat, n: nat)
    requires f >= CopyCost(n)
    ensures !LosesPage(f, n)
  {
  }

  /** The first pages of q page tables, and r pages more. */
  lemma {:induction false} CostAt(i: nat, q: nat, r: nat)
    requires i == q * ENTRIES + r && r < ENTRIES
    ensures CopyCost(i) == q * (ENTRIES + 1) + (if r == 0 then 0 else r + 1)
  {
    assert (i + ENTRIES - 1) / ENTRIES == if r == 0 then q else q + 1;
  }

  lemma {:induction false} LosesAt(f: nat, q: nat, r: nat, n: nat)
    requires f == q * (ENTRIES + 1) + r && r < ENTRIES + 1
    ensures LosesPage(f, n) <==> r == 1 && q * ENTRIES < n
  {
    assert f / (ENTRIES + 1) == q;
  }

  lemma {:induction false} CostGrows(i: nat, n: nat)
    requires i < n
    ensures CopyCost(i) < CopyCost(n) && (i % ENTRIES == 0 ==> CopyCost(i) + 1 < CopyCost(n))
  {
  }

  /** Copying stops at page i: with nothing left, or with one page left and a page table missing. */
  lemma {:induction false} CopyStops(f: nat, i: nat, n: nat, left: nat)
    requires i < n && f == CopyCost(i) + left && (left == 0 || (left == 1 && i % ENTRIES == 0))
    ensures f < CopyCost(n) && (LosesPage(f, n) <==> left == 1)
  {
    hide LosesPage, CopyCost;
    var q, r := i / ENTRIES, i % ENTRIES;
    CostAt(i, q, r);
    CostGrows(i, n);
    LosesAt(f, q, if r == 0 then left else r + 1, n);
  }

  // ---------- mapping a range ----------

  /** How many of pages [v, v + n) are user pages. */
  function UserPages(v: nat, n: nat): nat {
    if v >= USER then 0 else if v + n <= USER then n else USER - v
  }

  const PTE_W := 2
  const PTE_U := 4

  predicate Bit(flags: nat, bit: nat)
    requires bit > 0
  {
    flags / bit % 2 == 1
  }

  /** Directory entries are kept, and new ones leave the permissions to the page tables: they are
      present, writable and the user's. */
  ghost predicate DirKept(m0: Memory, m1: Memory, d: nat) {
    forall i: nat :: if Pde(m0, d, i).present then Pde(m1, d, i) == Pde(m0, d, i)
                     else Pde(m1, d, i).present ==> Pde(m1, d, i).flags == 7
  }

  lemma {:induction false} DirTrans(m0: Memory, m1: Memory, m2: Memory, d: nat)
    requires DirKept(m0, m1, d) && DirKept(m1, m2, d)
    ensures DirKept(m0, m2, d)
  {
  }

  /** Every directory entry leaves the permissions to the page tables. */
  ghost predicate Open(mem: Memory, d: nat) {
    forall i: nat :: Pde(mem, d, i).present ==> Bit(Pde(mem, d, i).flags, PTE_W) && Bit(Pde(mem, d, i).flags, PTE_U)
  }

  /** The processor lets the user read page w: both levels are present and the user's. */
  ghost predicate UserReads(mem: Memory, d: nat, w: nat) {
    && Pde(mem, d, w / ENTRIES).present && Bit(Pde(mem, d, w / ENTRIES).flags, PTE_U)
    && Lookup(mem, d, w).present && Bit(Lookup(mem, d, w).flags, PTE_U)
  }

  /** ... and write it. */
  ghost predicate UserWrites(mem: Memory, d: nat, w: nat) {
    UserReads(mem, d, w) && Bit(Pde(mem, d, w / ENTRIES).flags, PTE_W) && Bit(Lookup(mem, d, w).flags, PTE_W)
  }

  lemma {:induction false} StaysOpen(m0: Memory, m1: Memory, d: nat)
    requires Open(m0, d) && DirKept(m0, m1, d)
    ensures Open(m1, d)
  {
    assert Bit(7, PTE_W) && Bit(7, PTE_U);
  }

  /** In an open directory what the user may do is what the page table says. */
  lemma {:induction false} PteDecides(mem: Memory, d: nat, w: nat)
    requires Open(mem, d)
    ensures UserReads(mem, d, w) <==> Lookup(mem, d, w).present && Bit(Lookup(mem, d, w).flags, PTE_U)
    ensures UserWrites(mem, d, w) <==> UserReads(mem, d, w) && Bit(Lookup(mem, d, w).flags, PTE_W)
  {
  }

  /** The pages that allocuvm maps are the user's to read and write. */
  ghost predicate UserRange(mem: Memory, d: nat, a: nat, b: nat) {
    forall w: nat :: a <= w < b ==> UserWrites(mem, d, w)
  }

  lemma {:induction false} MappedForUser(m0: Memory, m1: Memory, d: nat, a: nat, b: nat)
    requires Open(m1, d) && Mapped(m0, m1, d, a, b, 6)
    ensures UserRange(m1, d, a, b)
  {
    assert Bit(6, PTE_W) && Bit(6, PTE_U);
    forall w: nat | a <= w < b ensures UserWrites(m1, d, w) {
      PteDecides(m1, d, w);
    }
  }

  /** No region of kmap is the user's. */
  predicate Private(ks: seq<Region>) {
    forall i :: 0 <= i < |ks| ==> !Bit(ks[i].perm, PTE_U)
  }

  lemma {:induction false} PrivateEntry(ks: seq<Region>, w: nat)
    requires Private(ks)
    ensures !Bit(KernelEntry(ks, w).flags, PTE_U)
  {
    if ks != [] {
      PrivateEntry(ks[..|ks| - 1], w);
    }
  }

  lemma {:induction false} KmapPrivate(data: nat)
    requires USER + 0x100 < data < USER + 0xE000
    ensures Private(Kmap(data))
  {
  }

  /** So the user cannot touch a kernel page. */
  lemma {:induction false} KernelHidden(m: Memory, d: nat, ks: seq<Region>)
    requires Private(ks)
    ensures forall w: nat :: Lookup(m, d, w) == KernelEntry(ks, w) ==> !UserReads(m, d, w)
  {
    forall w: nat | Lookup(m, d, w) == KernelEntry(ks, w) ensures !UserReads(m, d, w) {
      PrivateEntry(ks, w);
    }
  }

  /** Every page below n is to the user in c what it is in d. */
  ghost predicate SameForUser(m0: Memory, d: nat, m: Memory, c: nat, n: nat) {
    forall w: nat :: w < n ==>
      (UserReads(m, c, w) <==> UserReads(m0, d, w)) && (UserWrites(m, c, w) <==> UserWrites(m0, d, w))
  }

  lemma {:induction false} CopiedForUser(m0: Memory, d: nat, m: Memory, c: nat, n: nat, ks: seq<Region>)
    requires Open(m0, d) && Open(m, c) && AllPresent(m0, d, n) && Copied(m0, d, m, c, n, ks)
    ensures SameForUser(m0, d, m, c, n)
  {
    forall w: nat | w < n
      ensures (UserReads(m, c, w) <==> UserReads(m0, d, w)) && (UserWrites(m, c, w) <==> UserWrites(m0, d, w)) {
      PteDecides(m0, d, w);
      PteDecides(m, c, w);
    }
  }

  /** Free pages and pages of d are those of before and the pages [a, a + n). */
  ghost predicate Gained(f0: seq<nat>, m0: Memory, f1: seq<nat>, m1: Memory, d: nat, a: nat, n: nat) {
    forall p: nat :: p in f1 || Owns(m1, d, p) <==> p in f0 || Owns(m0, d, p) || a <= p < a + n
  }

  /** Pages [v, v + n) of d are mapped to pages from page on, which were nobody's if they are frames of
      user pages; page tables were added where they were missing; nothing else has changed. */
  ghost predicate Mapping(f0: seq<nat>, m0: Memory, f1: seq<nat>, m1: Memory, d: nat,
                          v: nat, n: nat, page: nat, flags: nat) {
    && Space(f1, m1, d) && OthersKept(m0, m1, d) && DirKept(m0, m1, d)
    && MappedRange(m0, m1, d, v, n, page, flags)
    && Gained(f0, m0, f1, m1, d, page, UserPages(v, n))
    && Tables(m1, d) == With(Tables(m0, d), v, n) && Balanced(f0, m0, f1, m1, d, 0)
  }

  lemma {:induction false} MappingNone(f: seq<nat>, m: Memory, d: nat, v: nat, page: nat, flags: nat)
    requires Space(f, m, d)
    ensures Mapping(f, m, f, m, d, v, 0, page, flags)
  {
    WithNone(Tables(m, d), v);
  }

  ghost predicate AllSpare(free: seq<nat>, mem: Memory, d: nat, a: nat, b: nat) {
    forall x: nat :: a <= x < b ==> Spare(free, mem, d, x)
  }

  /** Spare pages other than x are still spare. */
  ghost predicate StillSpare(f0: seq<nat>, m0: Memory, f1: seq<nat>, m1: Memory, d: nat, x: nat) {
    forall y: nat :: Spare(f0, m0, d, y) && y != x ==> Spare(f1, m1, d, y)
  }

  /** The frame for page v + k, when those for pages [v + k, v + n) are spare. */
  lemma {:induction false} SpareFirst(free: seq<nat>, mem: Memory, d: nat, v: nat, k: nat, n: nat, page: nat)
    requires k < n && AllSpare(free, mem, d, page + UserPages(v, k), page + UserPages(v, n))
    ensures AllSpare(free, mem, d, page + k, page + k + UserPages(v + k, 1))
  {
  }

  lemma {:induction false} SpareRest(f0: seq<nat>, m0: Memory, f1: seq<nat>, m1: Memory, d: nat,
                                     v: nat, k: nat, n: nat, page: nat)
    requires k < n && AllSpare(f0, m0, d, page + UserPages(v, k), page + UserPages(v, n))
    requires StillSpare(f0, m0, f1, m1, d, page + k)
    ensures AllSpare(f1, m1, d, page + UserPages(v, k + 1), page + UserPages(v, n))
  {
  }

  lemma {:induction false} OthersTrans(m0: Memory, m1: Memory, m2: Memory, d: nat)
    requires OthersKept(m0, m1, d) && OthersKept(m1, m2, d)
    ensures OthersKept(m0, m2, d)
  {
  }

  /** Mapping k pages and then one more. */
  ghost predicate TwoMappings(f0: seq<nat>, m0: Memory, f1: seq<nat>, m1: Memory, f2: seq<nat>, m2: Memory,
                              d: nat, v: nat, k: nat, page: nat, flags: nat) {
    Mapping(f0, m0, f1, m1, d, v, k, page, flags) && Mapping(f1, m1, f2, m2, d, v + k, 1, page + k, flags)
  }

  lemma {:induction false} MappingMore(f0: seq<nat>, m0: Memory, f1: seq<nat>, m1: Memory, f2: seq<nat>, m2: Memory,
                                       d: nat, v: nat, k: nat, page: nat, flags: nat)
    requires TwoMappings(f0, m0, f1, m1, f2, m2, d, v, k, page, flags)
    ensures Mapping(f0, m0, f2, m2, d, v, k + 1, page, flags)
  {
    hide Space, DirKept, OthersKept, MappedRange, Gained;
    OthersTrans(m0, m1, m2, d);
    DirTrans(m0, m1, m2, d);
    RangeMore(m0, m1, m2, d, v, k, page, flags);
    FramesMore(f0, m0, f1, m1, f2, m2, d, v, k, page, flags);
    TablesMore(Tables(m0, d), Tables(m1, d), Tables(m2, d), v, k);
  }

  lemma {:induction false} FramesMore(f0: seq<nat>, m0: Memory, f1: seq<nat>, m1: Memory, f2: seq<nat>, m2: Memory,
                                      d: nat, v: nat, k: nat, page: nat, flags: nat)
    requires TwoMappings(f0, m0, f1, m1, f2, m2, d, v, k, page, flags)
    ensures Gained(f0, m0, f2, m2, d, page, UserPages(v, k + 1))
  {
    assert UserPages(v, k + 1) == UserPages(v, k) + UserPages(v + k, 1);
    GainedMore(f0, m0, f1, m1, f2, m2, d, page, UserPages(v, k), page + k, UserPages(v + k, 1));
  }

  lemma {:induction false} RangeMore(m0: Memory, m1: Memory, m2: Memory, d: nat, v: nat, k: nat, page: nat, flags: nat)
    requires MappedRange(m0, m1, d, v, k, page, flags) && MappedRange(m1, m2, d, v + k, 1, page + k, flags)
    ensures MappedRange(m0, m2, d, v, k + 1, page, flags)
  {
  }

  lemma {:induction false} GainedMore(f0: seq<nat>, m0: Memory, f1: seq<nat>, m1: Memory, f2: seq<nat>, m2: Memory,
                                      d: nat, a: nat, n: nat, b: nat, k: nat)
    requires Gained(f0, m0, f1, m1, d, a, n) && Gained(f1, m1, f2, m2, d, b, k) && (k == 0 || b == a + n)
    ensures Gained(f0, m0, f2, m2, d, a, n + k)
  {
  }

  lemma {:induction false} TablesMore(t0: seq<bool>, t1: seq<bool>, t2: seq<bool>, v: nat, k: nat)
    requires t1 == With(t0, v, k) && t2 == With(t1, v + k, 1)
    ensures t2 == With(t0, v, k + 1)
  {
  }

  /** walkpgdir has found or made the page table for v. */
  ghost predicate Walked(f0: seq<nat>, m0: Memory, f1: seq<nat>, m1: Memory, d: nat, v: nat) {
    && Space(f1, m1, d) && OthersKept(m0, m1, d) && DirKept(m0, m1, d) && Conserved(f0, m0, f1, m1, d)
    && (forall w: nat :: Lookup(m1, d, w) == Lookup(m0, d, w))
    && Tables(m1, d) == With(Tables(m0, d), v, 1) && Balanced(f0, m0, f1, m1, d, 0)
  }

  lemma {:induction false} TableFound(f: seq<nat>, m: Memory, d: nat, v: nat)
    requires Space(f, m, d) && v / ENTRIES < ENTRIES && Pde(m, d, v / ENTRIES).present
    ensures Walked(f, m, f, m, d, v)
  {
    WithSet(Tables(m, d), v);
    assert Tables(m, d)[v / ENTRIES := true] == Tables(m, d);
  }

  /** walkpgdir's allocation, of the first free page. */
  lemma {:induction false} TableAdded(f: seq<nat>, m: Memory, d: nat, v: nat)
    requires Space(f, m, d) && f != [] && v / ENTRIES < ENTRIES && !Pde(m, d, v / ENTRIES).present
    ensures IsTable(m, d) && f[0] != d
    ensures var m1 := AddTable(m, d, v / ENTRIES, f[0], 7);
      && Walked(f, m, f[1..], m1, d, v) && Pde(m1, d, v / ENTRIES) == Entry(true, f[0], 7)
      && forall x: nat :: Spare(f, m, d, x) ==> Spare(f[1..], m1, d, x)
  {
    var i, t := v / ENTRIES, f[0];
    PopSpace(f, m, d);
    AddTableSpace(f[1..], m, d, i, t, 7);
    AddTableTree(m, d, i, t, 7);
    WithSet(Tables(m, d), v);
    CountSet(Tables(m, d), i);
    AddTableDir(m, d, i, t, 7);
  }

  lemma {:induction false} AddTableDir(m: Memory, d: nat, i: nat, t: nat, flags: nat)
    requires Tree(m, d) && i < ENTRIES && t !in m
    ensures var m1 := AddTable(m, d, i, t, flags);
      forall j: nat :: Pde(m1, d, j) == if j == i then Entry(true, t, flags) else Pde(m, d, j)
  {
  }

  /** Mapping one page, once its page table is there. */
  lemma {:induction false} MapOne(f0: seq<nat>, m0: Memory, f: seq<nat>, m1: Memory, d: nat, v: nat, e: Entry)
    requires Walked(f0, m0, f, m1, d, v) && v / ENTRIES < ENTRIES && Pde(m1, d, v / ENTRIES).present
    requires e.present && !Lookup(m1, d, v).present && AllSpare(f, m1, d, e.page, e.page + UserPages(v, 1))
    ensures IsTable(m1, Pde(m1, d, v / ENTRIES).page)
    ensures Mapping(f0, m0, f, SetPte(m1, d, v, e), d, v, 1, e.page, e.flags)
    ensures StillSpare(f, m1, f, SetPte(m1, d, v, e), d, e.page)
  {
    var m2 := SetPte(m1, d, v, e);
    SetPteTree(m1, d, v, e);
    SetPteOthers(m1, d, v, e);
    OthersTrans(m0, m1, m2, d);
    if v < USER {
      assert Spare(f, m1, d, e.page);
      MapSpace(f, m1, d, v, e);
    } else {
      KernelSpace(f, m1, d, v, e);
    }
  }

  // ---------- growing an address space page by page ----------

  /** n pages from a on have got frames that were free, and page tables where they were missing. */
  ghost predicate Growth(f0: seq<nat>, m0: Memory, f1: seq<nat>, m1: Memory, d: nat, a: nat, n: nat) {
    && Space(f1, m1, d) && OthersKept(m0, m1, d) && DirKept(m0, m1, d) && Conserved(f0, m0, f1, m1, d)
    && Tables(m1, d) == With(Tables(m0, d), a, n) && Balanced(f0, m0, f1, m1, d, n)
  }

  lemma {:induction false} GrowthNone(f: seq<nat>, m: Memory, d: nat, a: nat)
    requires Space(f, m, d)
    ensures Growth(f, m, f, m, d, a, 0)
  {
    WithNone(Tables(m, d), a);
  }

  lemma {:induction false} GrowthMore(f0: seq<nat>, m0: Memory, f1: seq<nat>, m1: Memory, f2: seq<nat>, m2: Memory,
                                      d: nat, a: nat, k: nat)
    requires Growth(f0, m0, f1, m1, d, a, k) && Growth(f1, m1, f2, m2, d, a + k, 1)
    ensures Growth(f0, m0, f2, m2, d, a, k + 1)
  {
    hide Space, Owns, DirKept, OthersKept;
    OthersTrans(m0, m1, m2, d);
    DirTrans(m0, m1, m2, d);
    TablesMore(Tables(m0, d), Tables(m1, d), Tables(m2, d), a, k);
  }

  /** Mapping the page that was popped from the free list. */
  lemma {:induction false} GrowthOne(f0: seq<nat>, m0: Memory, f1: seq<nat>, m1: Memory, d: nat, v: nat, flags: nat)
    requires f0 != [] && v < USER && Mapping(f0[1..], m0, f1, m1, d, v, 1, f0[0], flags)
    ensures Growth(f0, m0, f1, m1, d, v, 1)
    ensures forall w: nat :: Lookup(m1, d, w) == if w == v then Entry(true, f0[0], flags) else Lookup(m0, d, w)
  {
    hide Space, Owns;
    assert forall p: nat :: p in f0 <==> p == f0[0] || p in f0[1..];
  }

  lemma {:induction false} Grown(f0: seq<nat>, m0: Memory, f1: seq<nat>, m1: Memory, d: nat, a: nat, n: nat)
    requires Space(f0, m0, d) && Growth(f0, m0, f1, m1, d, a, n)
    ensures Space(f1, m1, d) && Conserved(f0, m0, f1, m1, d) && OthersKept(m0, m1, d) && OthersIntact(f0, m0, f1, m1, d)
    ensures DirKept(m0, m1, d)
  {
    hide Space, OthersKept, Conserved, OthersIntact, DirKept;
    AllIntact(f0, m0, f1, m1, d);
  }

  /** After allocuvm's error path the pages are the same, and other address spaces intact. */
  lemma {:induction false} AfterRollback(f0: seq<nat>, m0: Memory, f1: seq<nat>, m1: Memory, f2: seq<nat>, m2: Memory,
                                         d: nat, a: nat, n: nat)
    requires Space(f0, m0, d) && Growth(f0, m0, f1, m1, d, a, n) && Space(f2, m2, d)
    requires Conserved(f1, m1, f2, m2, d) && OthersKept(m1, m2, d) && SameTables(m1, m2, d)
    ensures Conserved(f0, m0, f2, m2, d) && OthersKept(m0, m2, d) && OthersIntact(f0, m0, f2, m2, d)
    ensures DirKept(m0, m2, d)
  {
    hide Space, OthersIntact, Owns;
    OthersTrans(m0, m1, m2, d);
    AllIntact(f0, m0, f2, m2, d);
  }

  // ---------- setupkvm ----------

  lemma {:induction false} NoDirs(n: nat)
    ensures Count(seq(n, i => false)) == 0
  {
    if n > 0 {
      assert seq(n, i => false)[..n - 1] == seq(n - 1, i => false);
      NoDirs(n - 1);
    }
  }

  /** The first k regions are mapped. */
  ghost predicate KernelSoFar(f0: seq<nat>, m0: Memory, f: seq<nat>, m: Memory, d: nat, ks: seq<Region>, k: nat)
    requires k <= |ks|
  {
    && Space(f, m, d) && OthersKept(m0, m, d) && DirKept(m0, m, d) && Conserved(f0, m0, f, m, d)
    && (forall w: nat :: Lookup(m, d, w) == KernelEntry(ks[..k], w))
    && Tables(m, d) == KernelDirs(ks[..k]) && |f0| == |f| + Count(KernelDirs(ks[..k]))
  }

  lemma {:induction false} KernelStart(f: seq<nat>, m: Memory, d: nat, ks: seq<Region>)
    requires Space(f, m, d) && (forall w: nat :: Lookup(m, d, w) == Absent()) && Tables(m, d) == KernelDirs([])
    ensures KernelSoFar(f, m, f, m, d, ks, 0)
  {
    hide Space;
    assert ks[..0] == [];
    NoDirs(ENTRIES);
  }

  lemma {:induction false} KernelNext(f0: seq<nat>, m0: Memory, f1: seq<nat>, m1: Memory, f2: seq<nat>, m2: Memory,
                                      d: nat, ks: seq<Region>, k: nat)
    requires Regions(ks) && k < |ks| && KernelSoFar(f0, m0, f1, m1, d, ks, k)
    requires Mapping(f1, m1, f2, m2, d, ks[k].virt, ks[k].n, ks[k].phys, ks[k].perm)
    ensures KernelSoFar(f0, m0, f2, m2, d, ks, k + 1)
  {
    hide Space, Owns, DirKept, OthersKept;
    OthersTrans(m0, m1, m2, d);
    DirTrans(m0, m1, m2, d);
    RegionMapped(ks, k, m1, m2, d);
    KernelDirsMore(ks, k);
  }

  /** What is missing in region k is missing in all. */
  lemma {:induction false} DirsMissing(ks: seq<Region>, k: nat, n: nat)
    requires Regions(ks) && k < |ks| && n < ks[k].n
    requires !With(KernelDirs(ks[..k]), ks[k].virt, n)[(ks[k].virt + n) / ENTRIES]
    ensures Count(With(KernelDirs(ks[..k]), ks[k].virt, n)) < Count(KernelDirs(ks))
  {
    CountWith(KernelDirs(ks[..k]), ks[k].virt, n, ks[k].n);
    KernelDirsMore(ks, k);
    KernelDirsLess(ks, k + 1);
  }

  /** setupkvm stops in region k for want of a page table. */
  lemma {:induction false} KernelStops(f0: seq<nat>, m0: Memory, f1: seq<nat>, m1: Memory, f2: seq<nat>, m2: Memory,
                                       d: nat, ks: seq<Region>, k: nat, n: nat)
    requires Regions(ks) && k < |ks| && KernelSoFar(f0, m0, f1, m1, d, ks, k) && n < ks[k].n
    requires Mapping(f1, m1, f2, m2, d, ks[k].virt, n, ks[k].phys, ks[k].perm)
    requires f2 == [] && !Pde(m2, d, (ks[k].virt + n) / ENTRIES).present
    ensures |f0| < Count(KernelDirs(ks))
    ensures Space(f2, m2, d) && OthersKept(m0, m2, d) && Conserved(f0, m0, f2, m2, d)
  {
    hide Space, Owns, KernelDirs, KernelEntry, Count, MappedRange;
    OthersTrans(m0, m1, m2, d);
    assert Tables(m2, d)[(ks[k].virt + n) / ENTRIES] == Pde(m2, d, (ks[k].virt + n) / ENTRIES).present;
    DirsMissing(ks, k, n);
  }

  // ---------- copyuvm ----------

  /** No page table for user pages yet. */
  predicate NoneLow(bs: seq<bool>) {
    |bs| == ENTRIES && forall i :: 0 <= i < USER / ENTRIES ==> !bs[i]
  }

  /** The pages that i rounds of copyuvm have taken. */
  lemma {:induction false} CopyTaken(f0: seq<nat>, m0: Memory, f: seq<nat>, m: Memory, c: nat, i: nat)
    requires Growth(f0, m0, f, m, c, 0, i) && NoneLow(Tables(m0, c)) && i <= USER
    ensures |f0| == CopyCost(i) + |f|
    ensures i < USER ==> (Pde(m, c, i / ENTRIES).present <==> i % ENTRIES != 0)
  {
    hide Space, OthersKept, Conserved;
    LowTables(Tables(m0, c), i);
    if i < USER {
      assert Tables(m, c)[i / ENTRIES] == Pde(m, c, i / ENTRIES).present;
    }
  }

  lemma {:induction false} FreeApart(f: seq<nat>, m: Memory, d: nat)
    requires Space(f, m, d)
    ensures Distinct(f) && Tree(m, d) && forall p: nat :: p in f ==> p !in m
  {
  }

  /** A page of no address space. */
  ghost predicate Unowned(f0: seq<nat>, m0: Memory, p: nat) {
    p !in m0 && forall e: nat :: Space(f0, m0, e) ==> !Owns(m0, e, p)
  }

  lemma {:induction false} FreeUnowned(f0: seq<nat>, m0: Memory, d: nat, p: nat)
    requires Space(f0, m0, d) && p in f0
    ensures Unowned(f0, m0, p)
  {
    forall e: nat | Space(f0, m0, e) ensures !Owns(m0, e, p) {
      assert p !in m0 && !IsFrame(m0, e, p);
      assert forall q: nat :: q == e || IsTab(m0, e, q) ==> q in m0;
    }
  }

  ghost predicate AllPresent(mem: Memory, d: nat, n: nat) {
    forall w :: 0 <= w < n ==> Lookup(mem, d, w).present
  }

  lemma {:induction false} IsDirectory(mem: Memory, d: nat)
    requires Tree(mem, d)
    ensures IsTable(mem, d)
  {
  }

  lemma {:induction false} IsPageTable(mem: Memory, d: nat, v: nat)
    requires Tree(mem, d) && v / ENTRIES < ENTRIES && Pde(mem, d, v / ENTRIES).present
    ensures IsTable(mem, Pde(mem, d, v / ENTRIES).page)
  {
  }

  lemma {:induction false} GrowthConserves(f0: seq<nat>, m0: Memory, f1: seq<nat>, m1: Memory, d: nat, a: nat, n: nat)
    requires Growth(f0, m0, f1, m1, d, a, n)
    ensures Conserved(f0, m0, f1, m1, d) && DirKept(m0, m1, d)
  {
  }

  lemma {:induction false} GrowthKeeps(f0: seq<nat>, m0: Memory, f1: seq<nat>, m1: Memory, d: nat, a: nat, n: nat)
    requires Growth(f0, m0, f1, m1, d, a, n)
    ensures OthersKept(m0, m1, d)
  {
  }
}
