/** vm.c and kalloc.c: page directories and tables written in place, over the page free list. */
module VirtualMemory {
  import opened Common
  import opened PageTable
  import opened AddressSpaces

  datatype Status = Done | NoMemory | Panic

  class Machine {
    const lo: nat            // the pages kfree accepts: [end, PHYSTOP)
    const hi: nat
    var freelist: seq<nat>   // kmem.freelist
    var mem: Memory

    /** Every page of the address space and of the free list is one that kfree accepts. */
    ghost predicate Ranged(d: nat)
      reads this
    {
      forall p: nat :: p in freelist || Owns(mem, d, p) ==> lo <= p < hi
    }

    ghost predicate Valid(d: nat)
      reads this
    {
      0 < lo && Space(freelist, mem, d) && Ranged(d)
    }

    /** The free list before there is any address space. */
    ghost predicate Ready()
      reads this
    {
      0 < lo && Distinct(freelist) && forall p: nat :: p in freelist ==> p !in mem && lo <= p < hi
    }

    /** kinit1() and kinit2(): freerange over the memory behind the kernel. */
    constructor (lo: nat, hi: nat)
      requires 0 < lo <= hi
      ensures Ready() && this.lo == lo && this.hi == hi && mem == map[]
      ensures |freelist| == hi - lo && forall p: nat :: p in freelist <==> lo <= p < hi
    {
      this.lo, this.hi, freelist, mem := lo, hi, [], map[];
      new;
      var p := lo;
      while p < hi
        invariant lo <= p <= hi && mem == map[] && Distinct(freelist) && |freelist| == p - lo
        invariant forall q: nat :: q in freelist <==> lo <= q < p
      {
        assert mem - {p} == mem;
        PushDistinct(p, freelist);
        var ok := Kfree(p);
        p := p + 1;
      }
    }

    /** kalloc() */
    method Kalloc() returns (p: Option<nat>)
      modifies this`freelist
      ensures p.None? <==> old(freelist) == []
      ensures p.None? ==> freelist == old(freelist)
      ensures p.Some? ==> p.value == old(freelist)[0] && freelist == old(freelist)[1..]
    {
      if freelist == [] {
        return None;
      }
      p := Some(freelist[0]);
      freelist := freelist[1..];
    }

    /** kfree(): ok is false for its panic. */
    method Kfree(p: nat) returns (ok: bool)
      modifies this`freelist, this`mem
      ensures ok <==> lo <= p < hi
      ensures ok ==> freelist == [p] + old(freelist) && mem == old(mem) - {p}
    {
      if p < lo || hi <= p {
        return false;
      }
      mem := mem - {p};
      freelist := [p] + freelist;
      return true;
    }

    /** walkpgdir(): the page table that holds v's entry, made if alloc says so. */
    method Walk(d: nat, v: nat, alloc: bool) returns (r: Option<nat>)
      requires Space(freelist, mem, d) && v / ENTRIES < ENTRIES
      modifies this`freelist, this`mem
      ensures r.Some? ==> Walked(old(freelist), old(mem), freelist, mem, d, v)
      ensures forall x: nat :: Spare(old(freelist), old(mem), d, x) ==> Spare(freelist, mem, d, x)
      ensures r.Some? <==> Pde(old(mem), d, v / ENTRIES).present || (alloc && old(freelist) != [])
      ensures r.Some? ==> Pde(mem, d, v / ENTRIES).present && r.value == Pde(mem, d, v / ENTRIES).page
      ensures !alloc || r.None? ==> mem == old(mem) && freelist == old(freelist)
    {
      hide Space, Tree, Walked, Spare;
      FreeApart(freelist, mem, d);
      IsDirectory(mem, d);
      var e := mem[d][v / ENTRIES];
      if e.present {
        TableFound(freelist, mem, d, v);
        return Some(e.page);
      }
      if !alloc {
        return None;
      }
      var p := Kalloc();
      if p.None? {
        return None;
      }
      TableAdded(old(freelist), mem, d, v);
      mem := AddTable(mem, d, v / ENTRIES, p.value, 7);
      return p;
    }

    /** One round of mappages' loop. */
    method MapPage(d: nat, v: nat, page: nat, flags: nat) returns (s: Status)
      requires Space(freelist, mem, d) && v / ENTRIES < ENTRIES &&
        AllSpare(freelist, mem, d, page, page + UserPages(v, 1))
      modifies this`freelist, this`mem
      ensures s == Panic <==> Lookup(old(mem), d, v).present
      ensures s == NoMemory <==> !Pde(old(mem), d, v / ENTRIES).present && old(freelist) == []
      ensures s == NoMemory ==> mem == old(mem) && freelist == old(freelist)
      ensures s == Done ==> Mapping(old(freelist), old(mem), freelist, mem, d, v, 1, page, flags)
      ensures s == Done ==> StillSpare(old(freelist), old(mem), freelist, mem, d, page)
    {
      var t := Walk(d, v, true);
      if t.None? {
        return NoMemory;
      }
      if mem[t.value][v % ENTRIES].present {
        return Panic;
      }
      MapOne(old(freelist), old(mem), freelist, mem, d, v, Entry(true, page, flags));
      mem := SetPte(mem, d, v, Entry(true, page, flags));
      return Done;
    }

    /** The next of n pages that mappages maps, after k of them. */
    method MapNext(d: nat, v: nat, k: nat, n: nat, page: nat, flags: nat, ghost f0: seq<nat>, ghost m0: Memory)
      returns (s: Status)
      requires k < n && v + n <= ENTRIES * ENTRIES && Mapping(f0, m0, freelist, mem, d, v, k, page, flags)
      requires AllSpare(freelist, mem, d, page + UserPages(v, k), page + UserPages(v, n))
      modifies this`freelist, this`mem
      ensures s == Panic ==> Lookup(m0, d, v + k).present
      ensures s == NoMemory ==>
        mem == old(mem) && freelist == old(freelist) == [] && !Pde(mem, d, (v + k) / ENTRIES).present
      ensures s == Done ==> Mapping(f0, m0, freelist, mem, d, v, k + 1, page, flags)
      ensures s == Done ==> AllSpare(freelist, mem, d, page + UserPages(v, k + 1), page + UserPages(v, n))
    {
      hide Spare, OthersKept, Gained, Balanced;
      SpareFirst(freelist, mem, d, v, k, n, page);
      s := MapPage(d, v + k, page + k, flags);
      if s == Done {
        SpareRest(old(freelist), old(mem), freelist, mem, d, v, k, n, page);
        MappingMore(f0, m0, old(freelist), old(mem), freelist, mem, d, v, k, page, flags);
      }
    }

    /** mappages(): n pages from v on, to consecutive physical pages; done says how many it mapped.  The
        frames of user pages are pages that nobody has. */
    method Mappages(d: nat, v: nat, n: nat, page: nat, flags: nat) returns (s: Status, ghost done: nat)
      requires Space(freelist, mem, d) && 0 < n && v + n <= ENTRIES * ENTRIES
      requires AllSpare(freelist, mem, d, page, page + UserPages(v, n))
      modifies this`freelist, this`mem
      ensures done <= n && (s == Done <==> done == n)
      ensures s == Panic ==> Lookup(old(mem), d, v + done).present
      ensures s != Panic ==> Mapping(old(freelist), old(mem), freelist, mem, d, v, done, page, flags)
      ensures s == NoMemory ==> freelist == [] && !Pde(mem, d, (v + done) / ENTRIES).present
      ensures s == NoMemory && done == 0 ==> mem == old(mem) && freelist == old(freelist)
    {
      hide Space, Mapping, AllSpare, Spare;
      var k := 0;
      done := 0;
      MappingNone(freelist, mem, d, v, page, flags);
      while true
        invariant 0 <= k == done < n && Mapping(old(freelist), old(mem), freelist, mem, d, v, done, page, flags)
        invariant done == 0 ==> mem == old(mem) && freelist == old(freelist)
        invariant AllSpare(freelist, mem, d, page + UserPages(v, done), page + UserPages(v, n))
        decreases n - k
      {
        s := MapNext(d, v, k, n, page, flags, old(freelist), old(mem));
        if s != Done {
          return;
        }
        k, done := k + 1, done + 1;
        if k == n {
          return;
        }
      }
    }

    /** deallocuvm's work on one mapped page. */
    method Unmap(d: nat, v: nat)
      requires Valid(d) && v < USER && Lookup(mem, d, v).present
      modifies this`freelist, this`mem
      ensures Valid(d) && Conserved(old(freelist), old(mem), freelist, mem, d) && OthersKept(old(mem), mem, d)
      ensures forall w: nat :: Lookup(mem, d, w) == if w == v then Absent() else Lookup(old(mem), d, w)
      ensures SameTables(old(mem), mem, d)
    {
      var x := mem[Pde(mem, d, v / ENTRIES).page][v % ENTRIES].page;
      UnmapSpace(freelist, mem, d, v);
      SetPteTree(mem, d, v, Absent());
      SetPteOthers(mem, d, v, Absent());
      assert IsFrame(mem, d, x) && Owns(mem, d, x) && x !in mem;
      assert mem - {x} == mem;
      var ok := Kfree(x);
      mem := SetPte(mem, d, v, Absent());
    }

    /** One round of deallocuvm's loop at page a: unmap a, or skip the range that has no page table. */
    method UnmapAt(d: nat, a: nat) returns (next: nat)
      requires Valid(d) && a < USER
      modifies this`freelist, this`mem
      ensures Valid(d) && Conserved(old(freelist), old(mem), freelist, mem, d) && OthersKept(old(mem), mem, d)
      ensures a < next && NoneMapped(mem, d, a, next)
      ensures forall w: nat :: w != a ==> Lookup(mem, d, w) == Lookup(old(mem), d, w)
      ensures SameTables(old(mem), mem, d)
    {
      var t := Walk(d, a, false);
      if t.None? {
        SkipTable(mem, d, a, (a / ENTRIES + 1) * ENTRIES);
        return (a / ENTRIES + 1) * ENTRIES;
      }
      if mem[t.value][a % ENTRIES].present {
        Unmap(d, a);
      }
      return a + 1;
    }

    /** deallocuvm(): unmap and free the user pages in [PageUp(newsz), PageUp(oldsz)), skipping the
        ranges that have no page table.  ok is false for a panic. */
    method Deallocuvm(d: nat, oldsz: nat, newsz: nat) returns (r: nat, ok: bool)
      requires Valid(d) && oldsz <= KERNBASE
      modifies this`freelist, this`mem
      ensures ok && Valid(d) && OthersKept(old(mem), mem, d) && OthersIntact(old(freelist), old(mem), freelist, mem, d)
      ensures r == if newsz >= oldsz then oldsz else newsz
      ensures Conserved(old(freelist), old(mem), freelist, mem, d)
      ensures Unmapped(old(mem), mem, d, PageUp(newsz), PageUp(oldsz))
      ensures SameTables(old(mem), mem, d)
    {
      hide Space, OthersKept, OthersIntact;
      if newsz >= oldsz {
        NoChange(freelist, mem, d);
        return oldsz, true;
      }
      var a := PageUp(newsz);
      NoChange(freelist, mem, d);
      while a * PGSIZE < oldsz
        invariant PageUp(newsz) <= a && Valid(d) && OthersKept(old(mem), mem, d)
        invariant Conserved(old(freelist), old(mem), freelist, mem, d)
        invariant Unmapped(old(mem), mem, d, PageUp(newsz), if a < PageUp(oldsz) then a else PageUp(oldsz))
        invariant SameTables(old(mem), mem, d)
        decreases oldsz - a * PGSIZE
      {
        ghost var m1 := mem;
        a := UnmapAt(d, a);
        OthersTrans(old(mem), m1, mem, d);
      }
      AllIntact(old(freelist), old(mem), freelist, mem, d);
      return newsz, true;
    }

    /** One round of the loops of allocuvm and copyuvm, up to their error handling: the page taken
        from kalloc, and how far it got. */
    method GrowPage(d: nat, v: nat, flags: nat) returns (page: Option<nat>, s: Status)
      requires Valid(d) && v < USER && !Lookup(mem, d, v).present
      modifies this`freelist, this`mem
      ensures s != Panic
      ensures s == Done ==> Valid(d) && Growth(old(freelist), old(mem), freelist, mem, d, v, 1)
      ensures s == Done ==> page.Some? && Lookup(mem, d, v) == Entry(true, page.value, flags)
      ensures s == Done ==> forall w: nat :: w != v ==> Lookup(mem, d, w) == Lookup(old(mem), d, w)
      ensures s == NoMemory ==> mem == old(mem) && freelist == [] && Space(freelist, mem, d)
      ensures s == NoMemory ==> forall p: nat :: p in old(freelist) <==> page == Some(p)
      ensures s == NoMemory && page.Some? ==> Spare(freelist, mem, d, page.value)
      ensures s == NoMemory ==> |old(freelist)| == (if page.Some? then 1 else 0)
      ensures s == NoMemory && page.Some? ==> !Pde(mem, d, v / ENTRIES).present
    {
      hide Space, Owns, Spare;
      page := Kalloc();
      if page.None? {
        return page, NoMemory;
      }
      PopSpace(old(freelist), mem, d);
      ghost var done;
      s, done := Mappages(d, v, 1, page.value, flags);
      if s == Done {
        GrowthOne(old(freelist), old(mem), freelist, mem, d, v, flags);
      }
    }

    /** allocuvm's error path: unmap what was mapped, then free the page in hand. */
    method Rollback(d: nat, newsz: nat, oldsz: nat, page: Option<nat>)
      requires 0 < lo && newsz <= KERNBASE && Space(freelist, mem, d) &&
        (page.Some? ==> Spare(freelist, mem, d, page.value))
      requires forall p: nat :: p in freelist || Owns(mem, d, p) || page == Some(p) ==> lo <= p < hi
      modifies this`freelist, this`mem
      ensures Valid(d) && OthersKept(old(mem), mem, d) && Unmapped(old(mem), mem, d, PageUp(oldsz), PageUp(newsz))
      ensures SameTables(old(mem), mem, d)
      ensures forall p: nat :: p in freelist || Owns(mem, d, p) <==>
        p in old(freelist) || Owns(old(mem), d, p) || page == Some(p)
    {
      hide OthersIntact, OthersKept, Unmapped;
      var r, ok := Deallocuvm(d, newsz, oldsz);
      if page.Some? {
        SpareKept(old(freelist), old(mem), freelist, mem, d, page.value);
        PushSpace(freelist, mem, d, page.value);
        assert mem - {page.value} == mem;
        ok := Kfree(page.value);
      }
    }

    /** allocuvm(): grow the mapping from oldsz to newsz.  It fails exactly when there are not enough
        free pages, and then the mapping is as before. */
    method Allocuvm(d: nat, oldsz: nat, newsz: nat) returns (r: nat, ok: bool)
      requires Valid(d) && NoneMapped(mem, d, PageUp(oldsz), PageUp(newsz))
      modifies this`freelist, this`mem
      ensures ok && Valid(d) && OthersKept(old(mem), mem, d) && OthersIntact(old(freelist), old(mem), freelist, mem, d)
      ensures Conserved(old(freelist), old(mem), freelist, mem, d) && DirKept(old(mem), mem, d)
      ensures r == if newsz >= KERNBASE then 0 else if newsz < oldsz then oldsz
                   else if |old(freelist)| >= Needs(old(mem), d, PageUp(oldsz), PageUp(newsz)) then newsz else 0
      ensures oldsz <= newsz < KERNBASE && |old(freelist)| >= Needs(old(mem), d, PageUp(oldsz), PageUp(newsz)) ==>
        && Mapped(old(mem), mem, d, PageUp(oldsz), PageUp(newsz), 6)
        && |old(freelist)| == |freelist| + Needs(old(mem), d, PageUp(oldsz), PageUp(newsz))
        && (Open(old(mem), d) ==> Open(mem, d) && UserRange(mem, d, PageUp(oldsz), PageUp(newsz)))
      ensures (newsz >= KERNBASE || newsz < oldsz ||
               |old(freelist)| < Needs(old(mem), d, PageUp(oldsz), PageUp(newsz))) ==>
        SameMap(old(mem), mem, d)
    {
      hide Space, OthersKept, OthersIntact, Growth, Needs, Open, UserRange;
      ok := true;
      if newsz >= KERNBASE {
        NoChange(freelist, mem, d);
        return 0, true;
      }
      if newsz < oldsz {
        NoChange(freelist, mem, d);
        return oldsz, true;
      }
      ghost var f0, m0 := freelist, mem;
      ghost var first := PageUp(oldsz);
      var a := PageUp(oldsz);
      GrowthNone(freelist, mem, d, a);
      while a * PGSIZE < newsz
        invariant first <= a <= PageUp(newsz) && Valid(d) && Growth(f0, m0, freelist, mem, d, first, a - first)
        invariant Mapped(m0, mem, d, first, a, 6)
      {
        ghost var f1, m1 := freelist, mem;
        var page, s := GrowPage(d, a, 6);
        if s == NoMemory {
          TooFew(f0, m0, f1, m1, d, first, a, PageUp(newsz));
          Rollback(d, newsz, oldsz, page);
          RolledBack(m0, m1, mem, d, first, a, PageUp(newsz), 6);
          AfterRollback(f0, m0, f1, m1, freelist, mem, d, first, a - first);
          return 0, true;
        }
        GrowthMore(f0, m0, f1, m1, freelist, mem, d, first, a - first);
        a := a + 1;
      }
      Enough(f0, m0, freelist, mem, d, first, a);
      Grown(f0, m0, freelist, mem, d, first, a - first);
      if Open(m0, d) {
        StaysOpen(m0, mem, d);
        MappedForUser(m0, mem, d, first, a);
      }
      return newsz, true;
    }

    /** The loop of freevm over the directory's entries. */
    method FreeTables(d: nat)
      requires Valid(d)
      modifies this`freelist, this`mem
      ensures Distinct(freelist) && (forall p: nat :: p in freelist <==> p in old(freelist) || IsTab(old(mem), d, p))
      ensures forall q: nat :: q in mem <==> q in old(mem) && !IsTab(old(mem), d, q)
      ensures forall q: nat :: q in mem ==> mem[q] == old(mem)[q]
    {
      var i := 0;
      while i < ENTRIES
        invariant 0 <= i <= ENTRIES && Distinct(freelist)
        invariant forall p: nat :: p in freelist <==> p in old(freelist) || TabBelow(old(mem), d, i, p)
        invariant forall q: nat :: q in mem <==> q in old(mem) && !TabBelow(old(mem), d, i, q)
        invariant forall q: nat :: q in mem ==> mem[q] == old(mem)[q]
      {
        TabBelowNext(old(mem), d, i);
        if mem[d][i].present {
          assert IsTab(old(mem), d, mem[d][i].page) && Owns(old(mem), d, mem[d][i].page);
          var ok := Kfree(mem[d][i].page);
        }
        i := i + 1;
      }
    }

    /** freevm(): each page of the address space is on the free list once, and other address spaces
        are intact.  ok is false for a panic. */
    method Freevm(d: nat) returns (ok: bool)
      requires Valid(d)
      modifies this`freelist, this`mem
      ensures ok && FreedSpace(old(freelist), old(mem), freelist, mem, d)
      ensures OthersStay(old(freelist), old(mem), freelist, mem, d)
    {
      hide OthersStay, OthersIntact;
      var r;
      r, ok := Deallocuvm(d, KERNBASE, 0);
      SameTabs(old(mem), mem, d);
      NoFrames(mem, d);
      assert d !in freelist && Owns(mem, d, d);
      FreeTables(d);
      ok := Kfree(d);
      AllStay(old(freelist), old(mem), freelist, mem, d);
    }

    /** The loop of setupkvm. */
    method MapKernel(d: nat, kmap: seq<Region>) returns (s: Status)
      requires Valid(d) && Regions(kmap) && (forall w: nat :: Lookup(mem, d, w) == Absent()) &&
        Tables(mem, d) == KernelDirs([])
      modifies this`freelist, this`mem
      ensures s != Panic && Valid(d) && Conserved(old(freelist), old(mem), freelist, mem, d) &&
        OthersKept(old(mem), mem, d)
      ensures s == Done <==> |old(freelist)| >= Count(KernelDirs(kmap))
      ensures s == Done ==> KernelSoFar(old(freelist), old(mem), freelist, mem, d, kmap, |kmap|)
    {
      hide Space, OthersKept, KernelDirs, Mapping;
      ghost var f0, m0 := freelist, mem;
      var k := 0;
      KernelStart(freelist, mem, d, kmap);
      while k < |kmap|
        invariant 0 <= k <= |kmap| && Valid(d) && KernelSoFar(f0, m0, freelist, mem, d, kmap, k)
      {
        NotYetMapped(kmap, k);
        ghost var f1, m1 := freelist, mem;
        ghost var done;
        s, done := Mappages(d, kmap[k].virt, kmap[k].n, kmap[k].phys, kmap[k].perm);
        if s != Done {
          KernelStops(f0, m0, f1, m1, freelist, mem, d, kmap, k, done);
          return;
        }
        KernelNext(f0, m0, f1, m1, freelist, mem, d, kmap, k);
        k := k + 1;
      }
      assert kmap[..k] == kmap;
      s := Done;
    }

    /** setupkvm(): a directory with exactly the kernel's mappings.  It fails exactly when there are
        not enough free pages for the directory and its tables, and then every page is free again. */
    method Setupkvm(kmap: seq<Region>) returns (r: Option<nat>, s: Status)
      requires Ready() && Regions(kmap)
      modifies this`freelist, this`mem
      ensures s != Panic && (s == Done <==> r.Some?)
      ensures s == Done <==> |old(freelist)| >= 1 + Count(KernelDirs(kmap))
      ensures s == Done ==> Valid(r.value) && (forall w: nat :: Lookup(mem, r.value, w) == KernelEntry(kmap, w))
      ensures s == Done ==> MadeOf(old(freelist), freelist, mem, r.value) && Tables(mem, r.value) == KernelDirs(kmap)
      ensures s == Done ==> |freelist| == |old(freelist)| - 1 - Count(KernelDirs(kmap))
      ensures s == Done ==> Open(mem, r.value) && (Private(kmap) ==> forall w: nat :: !UserReads(mem, r.value, w))
      ensures s == Done ==> Beside(old(mem), mem, r.value) && AllApart(old(freelist), old(mem), freelist, mem, r.value)
      ensures s == NoMemory ==>
        Distinct(freelist) && mem == old(mem) && forall p: nat :: p in old(freelist) <==> p in freelist
    {
      hide Space, OthersStay, AllApart, KernelDirs, KernelEntry;
      var d := Kalloc();
      if d.None? {
        return None, NoMemory;
      }
      FirstSpace(old(freelist), mem, d.value);
      mem := mem[d.value := Zeroed()];
      s := MapKernel(d.value, kmap);
      KeptApart(old(mem), old(mem)[d.value := Zeroed()], mem, d.value);
      ghost var m1 := mem;
      if s == NoMemory {
        var ok := Freevm(d.value);
        BackAgain(old(mem), m1, mem, d.value);
        return None, NoMemory;
      }
      assert kmap[..|kmap|] == kmap;
      StaysOpen(old(mem)[d.value := Zeroed()], mem, d.value);
      if Private(kmap) {
        KernelHidden(mem, d.value, kmap);
      }
      BuiltApart(old(freelist), old(mem), freelist, mem, d.value);
      return d, Done;
    }

    /** The loop of copyuvm: the pages of d below sz, for the new space c.  A page that was allocated
        but could not be mapped is lost. */
    method CopyPages(d: nat, c: nat, sz: nat, ghost m0: Memory, ghost kmap: seq<Region>)
      returns (s: Status, ghost lost: Option<nat>)
      requires Valid(c) && Tree(m0, d) && Beside(m0, mem, c) && sz <= KERNBASE && Copied(m0, d, mem, c, 0, kmap)
      requires NoneLow(Tables(mem, c)) && Regions(kmap)
      modifies this`freelist, this`mem
      ensures AllPresent(m0, d, PageUp(sz)) ==> s != Panic
      ensures s != Panic ==> Valid(c) && Beside(m0, mem, c)
      ensures s != Panic ==> (s == Done <==> |old(freelist)| >= CopyCost(PageUp(sz)))
      ensures s != Panic ==> (lost.Some? <==> LosesPage(|old(freelist)|, PageUp(sz)))
      ensures s == Done ==> Copied(m0, d, mem, c, PageUp(sz), kmap) && AllPresent(m0, d, PageUp(sz))
      ensures s == Done ==> Conserved(old(freelist), old(mem), freelist, mem, c) && DirKept(old(mem), mem, c)
      ensures s == NoMemory ==> forall p: nat ::
        p in old(freelist) || Owns(old(mem), c, p) <==> p in freelist || Owns(mem, c, p) || lost == Some(p)
      ensures s == NoMemory && lost.Some? ==> Spare(freelist, mem, c, lost.value)
    {
      hide Space, Tree, Growth, LosesPage, CopyCost, Beside, Owns, Spare;
      lost := None;
      ghost var f1, m1 := freelist, mem;
      var i := 0;
      GrowthNone(freelist, mem, c, 0);
      while i * PGSIZE < sz
        invariant 0 <= i <= PageUp(sz) && Valid(c) && Beside(m0, mem, c) && Copied(m0, d, mem, c, i, kmap)
        invariant Growth(f1, m1, freelist, mem, c, 0, i) && AllPresent(m0, d, i)
      {
        BesideSame(m0, mem, c, d);
        CopyTaken(f1, m1, freelist, mem, c, i);
        IsDirectory(mem, d);
        KernelOnly(kmap, i);
        var table := mem[d][i / ENTRIES];
        if !table.present {
          assert !Lookup(m0, d, i).present;
          return Panic, None;
        }
        IsPageTable(mem, d, i);
        if !mem[table.page][i % ENTRIES].present {
          assert !Lookup(m0, d, i).present;
          return Panic, None;
        }
        ghost var f2, m2 := freelist, mem;
        var page;
        page, s := GrowPage(c, i, mem[table.page][i % ENTRIES].flags);
        if s != Done {
          CopyStops(|f1|, i, PageUp(sz), |f2|);
          GrowthConserves(f1, m1, f2, m2, c, 0, i);
          lost := page;
          return;
        }
        GrowthMore(f1, m1, f2, m2, freelist, mem, c, 0, i);
        GrowthKeeps(f2, m2, freelist, mem, c, i, 1);
        BesideMore(m0, m2, mem, c);
        i := i + 1;
      }
      CopyTaken(f1, m1, freelist, mem, c, i);
      CopyDone(|f1|, i);
      GrowthConserves(f1, m1, freelist, mem, c, 0, i);
      s := Done;
    }

    /** copyuvm's error path. */
    method FreeCopy(c: nat, ghost f0: seq<nat>, ghost m0: Memory, ghost d: nat, ghost lost: Option<nat>)
      requires Valid(c) && Beside(m0, mem, c) && Space(f0, m0, d) &&
        (lost.Some? ==> Spare(freelist, mem, c, lost.value))
      requires forall p: nat :: p in f0 <==> p in freelist || Owns(mem, c, p) || lost == Some(p)
      modifies this`freelist, this`mem
      ensures mem == m0 && Space(freelist, mem, d)
      ensures forall p: nat :: p in f0 <==> p in freelist || lost == Some(p)
      ensures lost.Some? ==> lost.value !in freelist
    {
      ghost var m1 := mem;
      var ok := Freevm(c);
      BackAgain(m0, m1, mem, c);
      FewerFree(f0, freelist, mem, d);
    }

    /** copyuvm(): a new space with the user pages of d, in frames that were free.  How many pages were
        free says whether it is made, and whether a page is lost on the way: one that was allocated but
        could not be mapped. */
    method Copyuvm(d: nat, sz: nat, kmap: seq<Region>) returns (r: Option<nat>, s: Status, ghost lost: Option<nat>)
      requires Valid(d) && Regions(kmap) && sz <= KERNBASE
      modifies this`freelist, this`mem
      ensures AllPresent(old(mem), d, PageUp(sz)) ==> s != Panic
      ensures s != Panic ==>
        && (s == Done <==> |old(freelist)| >= 1 + Count(KernelDirs(kmap)) + CopyCost(PageUp(sz)))
        && (lost.Some? <==> |old(freelist)| >= 1 + Count(KernelDirs(kmap)) &&
                            LosesPage(|old(freelist)| - 1 - Count(KernelDirs(kmap)), PageUp(sz)))
      ensures s != Panic ==> Valid(d) && Intact(old(mem), freelist, mem, d) && (s == Done <==> r.Some?)
      ensures s == Done ==> Valid(r.value) && Copied(old(mem), d, mem, r.value, PageUp(sz), kmap) && Open(mem, r.value)
      ensures s == Done && Open(old(mem), d) ==> SameForUser(old(mem), d, mem, r.value, PageUp(sz))
      ensures s == Done ==> MadeOf(old(freelist), freelist, mem, r.value)
      ensures s == Done ==> AllApart(old(freelist), old(mem), freelist, mem, r.value)
      ensures s == NoMemory ==>
        mem == old(mem) && (forall p: nat :: p in old(freelist) <==> p in freelist || lost == Some(p))
      ensures s == NoMemory && lost.Some? ==> lost.value !in freelist && Unowned(old(freelist), mem, lost.value)
    {
      hide Space, Tree, AllApart, Beside, Spare, KernelDirs, Count, LosesPage, CopyCost, Unowned, Open, SameForUser,
        DirKept, UserReads;
      lost := None;
      ghost var f0, m0 := freelist, mem;
      FreeApart(f0, m0, d);
      r, s := Setupkvm(kmap);
      if s == NoMemory {
        FewerFree(f0, freelist, mem, d);
        return;
      }
      var c := r.value;
      ghost var m1 := mem;
      KernelDirsHigh(kmap);
      s, lost := CopyPages(d, c, sz, m0, kmap);
      if s == Done {
        StaysOpen(m1, mem, c);
        if Open(m0, d) {
          CopiedForUser(m0, d, mem, c, PageUp(sz), kmap);
        }
        BuiltApart(f0, m0, freelist, mem, c);
        ParentStays(f0, m0, freelist, mem, c, d);
      } else if s == NoMemory {
        r := None;
        FreeCopy(c, f0, m0, d, lost);
        if lost.Some? {
          FreeUnowned(f0, m0, d, lost.value);
        }
      }
    }
  }

  /** A machine on which copyuvm loses a page: 133 pages, of which the first address space takes 67
      for one user page, and its copy has one left when it needs two. */
  method LosingCopy(data: nat) returns (m: Machine, d: nat, r: Option<nat>, ghost lost: Option<nat>)
    requires USER + 0x100 < data < USER + 0xE000
    ensures fresh(m) && m.lo == 1 && m.hi == 134 && m.Valid(d) && r == None
    ensures lost.Some? && m.lo <= lost.value < m.hi && lost.value !in m.freelist && lost.value !in m.mem &&
      !Owns(m.mem, d, lost.value)
  {
    hide Space, AllApart, OthersIntact, OthersKept, KernelDirs, KernelEntry, LosesPage, Count, Kmap, Regions, Beside,
      Conserved, SameMap;
    m := new Machine(1, 134);
    KmapRegions(data);
    KmapTables(data);
    KernelDirsHigh(Kmap(data));
    var root, s := m.Setupkvm(Kmap(data));
    d := root.value;
    LowTables(Tables(m.mem, d), 1);
    forall w | 0 <= w < USER ensures !Lookup(m.mem, d, w).present {
      KernelOnly(Kmap(data), w);
    }
    var sz, ok := m.Allocuvm(d, 0, PGSIZE);
    LosesAt(1, 0, 1, 1);
    r, s, lost := m.Copyuvm(d, PGSIZE, Kmap(data));
  }
}
