/** Two-level page tables as values (vm.c): which page an address maps to, which pages an address
    space owns, and what each single change does to both.  Pages and virtual pages are numbers. */
module PageTable {
  import opened Common

  const ENTRIES := 1024           // NPDENTRIES, NPTENTRIES
  const USER := 512 * ENTRIES     // KERNBASE / PGSIZE: user pages are below it

  datatype Entry = Entry(present: bool, page: nat, flags: nat)

  /** The pages that hold page directories and page tables. */
  type Memory = map<nat, seq<Entry>>

  function Absent(): Entry { Entry(false, 0, 0) }

  function Zeroed(): seq<Entry> { seq(ENTRIES, i => Absent()) }

  predicate IsTable(mem: Memory, p: nat) {
    p in mem && |mem[p]| == ENTRIES
  }

  function Pde(mem: Memory, d: nat, i: nat): Entry {
    if IsTable(mem, d) && i < ENTRIES then mem[d][i] else Absent()
  }

  /** What virtual page v maps to, through directory d. */
  function Lookup(mem: Memory, d: nat, v: nat): Entry {
    var e := Pde(mem, d, v / ENTRIES);
    if e.present && IsTable(mem, e.page) then mem[e.page][v % ENTRIES] else Absent()
  }

  /** d is a directory whose present entries are distinct page tables. */
  predicate Tree(mem: Memory, d: nat) {
    && IsTable(mem, d)
    && (forall i :: 0 <= i < ENTRIES && Pde(mem, d, i).present ==>
      IsTable(mem, Pde(mem, d, i).page) && Pde(mem, d, i).page != d)
    && (forall i, j :: 0 <= i < j < ENTRIES && Pde(mem, d, i).present && Pde(mem, d, j).present ==>
      Pde(mem, d, i).page != Pde(mem, d, j).page)
  }

  /** User frames are not page tables, and no frame is mapped twice. */
  predicate Frames(mem: Memory, d: nat) {
    && (forall v :: 0 <= v < USER && Lookup(mem, d, v).present ==> Lookup(mem, d, v).page !in mem)
    && (forall v, w :: 0 <= v < w < USER && Lookup(mem, d, v).present && Lookup(mem, d, w).present ==>
          Lookup(mem, d, v).page != Lookup(mem, d, w).page)
  }

  predicate IsFrame(mem: Memory, d: nat, p: nat) {
    exists v :: 0 <= v < USER && Lookup(mem, d, v).present && Lookup(mem, d, v).page == p
  }

  predicate IsTab(mem: Memory, d: nat, p: nat) {
    exists i :: 0 <= i < ENTRIES && Pde(mem, d, i).present && Pde(mem, d, i).page == p
  }

  /** Which directory entries have a page table. */
  function Tables(mem: Memory, d: nat): seq<bool> {
    seq(ENTRIES, i requires 0 <= i => Pde(mem, d, i).present)
  }

  /** The pages of an address space: its directory, its page tables, its user frames. */
  predicate Owns(mem: Memory, d: nat, p: nat) {
    p == d || IsTab(mem, d, p) || IsFrame(mem, d, p)
  }

  /** The free list holds each of its pages once, and none that is in use. */
  predicate FreeOk(free: seq<nat>, mem: Memory, d: nat) {
    && Distinct(free)
    && (forall i :: 0 <= i < |free| ==> free[i] !in mem && !IsFrame(mem, d, free[i]))
  }

  predicate Space(free: seq<nat>, mem: Memory, d: nat) {
    Tree(mem, d) && Frames(mem, d) && FreeOk(free, mem, d)
  }

  function SetEntry(mem: Memory, p: nat, i: nat, e: Entry): Memory
    requires IsTable(mem, p) && i < ENTRIES
  {
    mem[p := mem[p][i := e]]
  }

  // ---------- adding a page table ----------

  /** A zeroed page table for directory entry i. */
  function AddTable(mem: Memory, d: nat, i: nat, t: nat, flags: nat): Memory
    requires IsTable(mem, d) && i < ENTRIES && t != d
  {
    SetEntry(mem[t := Zeroed()], d, i, Entry(true, t, flags))
  }

  lemma {:induction false} AddTableLookup(mem: Memory, d: nat, i: nat, t: nat, flags: nat, v: nat)
    requires Tree(mem, d) && i < ENTRIES && !Pde(mem, d, i).present && t !in mem
    ensures Lookup(AddTable(mem, d, i, t, flags), d, v) == Lookup(mem, d, v)
  {
  }

  lemma {:induction false} AddTableTree(mem: Memory, d: nat, i: nat, t: nat, flags: nat)
    requires Tree(mem, d) && i < ENTRIES && !Pde(mem, d, i).present && t !in mem
    ensures Tree(AddTable(mem, d, i, t, flags), d)
    ensures forall p: nat :: IsTab(AddTable(mem, d, i, t, flags), d, p) <==> IsTab(mem, d, p) || p == t
    ensures Tables(AddTable(mem, d, i, t, flags), d) == Tables(mem, d)[i := true]
  {
    var m := AddTable(mem, d, i, t, flags);
    assert forall j: nat :: Pde(m, d, j) == if j == i then Entry(true, t, flags) else Pde(mem, d, j);
    forall p: nat ensures IsTab(m, d, p) <==> IsTab(mem, d, p) || p == t {
      if IsTab(mem, d, p) {
        var j :| 0 <= j < ENTRIES && Pde(mem, d, j).present && Pde(mem, d, j).page == p;
        assert Pde(m, d, j) == Pde(mem, d, j);
      }
      if p == t { assert Pde(m, d, i).page == t; }
    }
  }

  /** A page that is in use nowhere: popped from the free list and not yet placed. */
  predicate Spare(free: seq<nat>, mem: Memory, d: nat, x: nat) {
    x !in free && x !in mem && !IsFrame(mem, d, x)
  }

  lemma {:induction false} SameLookupSameFrames(mem: Memory, m: Memory, d: nat)
    requires forall v :: 0 <= v < USER ==> Lookup(m, d, v) == Lookup(mem, d, v)
    ensures forall p: nat :: IsFrame(m, d, p) <==> IsFrame(mem, d, p)
  {
  }

  /** walkpgdir's allocation: a page table made of a spare page. */
  lemma {:induction false} AddTableSpace(free: seq<nat>, mem: Memory, d: nat, i: nat, t: nat, flags: nat)
    requires Space(free, mem, d) && Spare(free, mem, d, t) && i < ENTRIES && !Pde(mem, d, i).present
    ensures var m := AddTable(mem, d, i, t, flags);
      && Space(free, m, d) && (forall v: nat :: Lookup(m, d, v) == Lookup(mem, d, v))
      && (forall p: nat :: Owns(m, d, p) <==> Owns(mem, d, p) || p == t)
      && (forall p: nat :: IsTab(m, d, p) <==> IsTab(mem, d, p) || p == t)
      && (forall x: nat :: Spare(free, mem, d, x) && x != t ==> Spare(free, m, d, x))
  {
    var m := AddTable(mem, d, i, t, flags);
    AddTableTree(mem, d, i, t, flags);
    forall v: nat ensures Lookup(m, d, v) == Lookup(mem, d, v) {
      AddTableLookup(mem, d, i, t, flags, v);
    }
    SameLookupSameFrames(mem, m, d);
    assert forall v :: 0 <= v < USER && Lookup(mem, d, v).present ==> IsFrame(mem, d, Lookup(mem, d, v).page);
  }

  // ---------- changing one page-table entry ----------

  function SetPte(mem: Memory, d: nat, v: nat, e: Entry): Memory
    requires Pde(mem, d, v / ENTRIES).present && IsTable(mem, Pde(mem, d, v / ENTRIES).page)
  {
    SetEntry(mem, Pde(mem, d, v / ENTRIES).page, v % ENTRIES, e)
  }

  /** Entry v changes and no other: page tables are not shared. */
  lemma {:induction false} SetPteLookup(mem: Memory, d: nat, v: nat, e: Entry, w: nat)
    requires Tree(mem, d) && v / ENTRIES < ENTRIES && Pde(mem, d, v / ENTRIES).present
    ensures Lookup(SetPte(mem, d, v, e), d, w) == if w == v then e else Lookup(mem, d, w)
  {
  }

  lemma {:induction false} SetPteTree(mem: Memory, d: nat, v: nat, e: Entry)
    requires Tree(mem, d) && v / ENTRIES < ENTRIES && Pde(mem, d, v / ENTRIES).present
    ensures var m := SetPte(mem, d, v, e);
      && Tree(m, d) && m.Keys == mem.Keys
      && (forall i: nat :: Pde(m, d, i) == Pde(mem, d, i))
      && (forall p: nat :: IsTab(m, d, p) <==> IsTab(mem, d, p))
      && Tables(m, d) == Tables(mem, d)
  {
    var m := SetPte(mem, d, v, e);
    assert forall i: nat :: Pde(m, d, i) == Pde(mem, d, i);
    assert forall q :: q in mem ==> (IsTable(m, q) <==> IsTable(mem, q));
    assert forall p: nat :: IsTab(m, d, p) ==> IsTab(mem, d, p);
    forall p: nat | IsTab(mem, d, p) ensures IsTab(m, d, p) {
      var i :| 0 <= i < ENTRIES && Pde(mem, d, i).present && Pde(mem, d, i).page == p;
      assert Pde(m, d, i).page == p;
    }
  }

  /** mappages on a user page: a spare page becomes a frame. */
  lemma {:induction false} MapSpace(free: seq<nat>, mem: Memory, d: nat, v: nat, e: Entry)
    requires Space(free, mem, d) && v < USER && Pde(mem, d, v / ENTRIES).present && !Lookup(mem, d, v).present
    requires e.present && Spare(free, mem, d, e.page)
    ensures var m := SetPte(mem, d, v, e);
      && Space(free, m, d) && (forall w: nat :: Lookup(m, d, w) == if w == v then e else Lookup(mem, d, w))
      && (forall p: nat :: Owns(m, d, p) <==> Owns(mem, d, p) || p == e.page)
      && (forall x: nat :: Spare(free, mem, d, x) && x != e.page ==> Spare(free, m, d, x))
  {
    var m := SetPte(mem, d, v, e);
    SetPteTree(mem, d, v, e);
    forall w: nat ensures Lookup(m, d, w) == if w == v then e else Lookup(mem, d, w) {
      SetPteLookup(mem, d, v, e, w);
    }
    FrameAdded(mem, m, d, v, e);
    assert forall w :: 0 <= w < USER && Lookup(mem, d, w).present ==> IsFrame(mem, d, Lookup(mem, d, w).page);
  }

  lemma {:induction false} FrameAdded(mem: Memory, m: Memory, d: nat, v: nat, e: Entry)
    requires v < USER && e.present && !Lookup(mem, d, v).present
    requires forall w: nat :: Lookup(m, d, w) == if w == v then e else Lookup(mem, d, w)
    ensures forall p: nat :: IsFrame(m, d, p) <==> IsFrame(mem, d, p) || p == e.page
  {
  }

  /** deallocuvm on a mapped page: its frame is no longer in use. */
  lemma {:induction false} UnmapSpace(free: seq<nat>, mem: Memory, d: nat, v: nat)
    requires Space(free, mem, d) && v < USER && Lookup(mem, d, v).present
    ensures var m, x := SetPte(mem, d, v, Absent()), Lookup(mem, d, v).page;
      && Space([x] + free, m, d) && (forall w: nat :: Lookup(m, d, w) == if w == v then Absent() else Lookup(mem, d, w))
      && (forall p: nat :: Owns(m, d, p) || p == x <==> Owns(mem, d, p))
  {
    var m, x := SetPte(mem, d, v, Absent()), Lookup(mem, d, v).page;
    SetPteTree(mem, d, v, Absent());
    forall w: nat ensures Lookup(m, d, w) == if w == v then Absent() else Lookup(mem, d, w) {
      SetPteLookup(mem, d, v, Absent(), w);
    }
    FrameRemoved(mem, m, d, v);
    assert IsFrame(mem, d, x);
    var free' := [x] + free;
    assert forall i :: 1 <= i < |free'| ==> free'[i] == free[i - 1];
    assert forall i :: 0 <= i < |free| ==> free[i] != x;
  }

  lemma {:induction false} FrameRemoved(mem: Memory, m: Memory, d: nat, v: nat)
    requires Frames(mem, d) && v < USER && Lookup(mem, d, v).present
    requires forall w: nat :: Lookup(m, d, w) == if w == v then Absent() else Lookup(mem, d, w)
    ensures forall p: nat :: IsFrame(m, d, p) <==> IsFrame(mem, d, p) && p != Lookup(mem, d, v).page
  {
  }

  /** mappages on a kernel page: no user page and no ownership changes. */
  lemma {:induction false} KernelSpace(free: seq<nat>, mem: Memory, d: nat, v: nat, e: Entry)
    requires Space(free, mem, d) && USER <= v && v / ENTRIES < ENTRIES && Pde(mem, d, v / ENTRIES).present
    ensures var m := SetPte(mem, d, v, e);
      && Space(free, m, d) && (forall w: nat :: Lookup(m, d, w) == if w == v then e else Lookup(mem, d, w))
      && (forall p: nat :: Owns(m, d, p) <==> Owns(mem, d, p))
      && (forall x: nat :: Spare(free, mem, d, x) ==> Spare(free, m, d, x))
  {
    var m := SetPte(mem, d, v, e);
    SetPteTree(mem, d, v, e);
    forall w: nat ensures Lookup(m, d, w) == if w == v then e else Lookup(mem, d, w) {
      SetPteLookup(mem, d, v, e, w);
    }
    SameLookupSameFrames(mem, m, d);
  }

  // ---------- the free list ----------

  lemma {:induction false} PopSpace(free: seq<nat>, mem: Memory, d: nat)
    requires Space(free, mem, d) && free != []
    ensures Space(free[1..], mem, d) && Spare(free[1..], mem, d, free[0])
    ensures forall x: nat :: Spare(free, mem, d, x) ==> Spare(free[1..], mem, d, x) && x != free[0]
    ensures forall p: nat :: p in free <==> p == free[0] || p in free[1..]
  {
  }

  lemma {:induction false} PushSpace(free: seq<nat>, mem: Memory, d: nat, x: nat)
    requires Space(free, mem, d) && Spare(free, mem, d, x)
    ensures Space([x] + free, mem, d)
  {
  }

  /** Free pages and the pages of address space d together are the same as before. */
  ghost predicate Conserved(free: seq<nat>, mem: Memory, free': seq<nat>, mem': Memory, d: nat) {
    forall p: nat :: p in free || Owns(mem, d, p) <==> p in free' || Owns(mem', d, p)
  }

  /** The page tables of other address spaces are untouched, and stay theirs; a new page table is
      one of d's. */
  ghost predicate OthersKept(mem: Memory, mem': Memory, d: nat) {
    && (forall q :: q in mem && q != d && !IsTab(mem, d, q) ==> q in mem' && mem'[q] == mem[q] && !IsTab(mem', d, q))
    && (forall q: nat :: IsTab(mem, d, q) ==> IsTab(mem', d, q))
    && (forall q :: q in mem' && q !in mem ==> IsTab(mem', d, q))
  }

  lemma {:induction false} SetPteOthers(mem: Memory, d: nat, v: nat, e: Entry)
    requires Tree(mem, d) && v / ENTRIES < ENTRIES && Pde(mem, d, v / ENTRIES).present
    ensures OthersKept(mem, SetPte(mem, d, v, e), d)
  {
    SetPteTree(mem, d, v, e);
    assert IsTab(mem, d, Pde(mem, d, v / ENTRIES).page);
  }

  /** The user mapping is the same, up to entries that are not present. */
  predicate SameEntry(e: Entry, f: Entry) {
    e == f || (!e.present && !f.present)
  }
}
