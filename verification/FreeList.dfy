/** The K&R free list as a value: blocks in address order, never touching.  Addresses and sizes are
    in header units. */
module FreeList {

  datatype Blk = Blk(addr: nat, size: nat)

  function End(b: Blk): nat {
    b.addr + b.size
  }

  predicate Inside(b: Blk, x: nat) {
    b.addr <= x < End(b)
  }

  /** In address order, with a gap between any two: everything that could be coalesced has been. */
  predicate Separated(fl: seq<Blk>) {
    forall i, j :: 0 <= i < j < |fl| ==> End(fl[i]) < fl[j].addr
  }

  ghost predicate Free(fl: seq<Blk>, x: nat) {
    exists k :: 0 <= k < |fl| && Inside(fl[k], x)
  }

  /** b lies in the gap after fl[t]. */
  predicate Fits(fl: seq<Blk>, t: nat, b: Blk) {
    t < |fl| && b.size > 0 && End(fl[t]) <= b.addr && (t + 1 < |fl| ==> End(b) <= fl[t + 1].addr)
  }

  predicate JoinsUp(fl: seq<Blk>, t: nat, b: Blk)
    requires t < |fl|
  {
    t + 1 < |fl| && End(b) == fl[t + 1].addr
  }

  predicate JoinsDown(fl: seq<Blk>, t: nat, b: Blk)
    requires t < |fl|
  {
    End(fl[t]) == b.addr
  }

  /** The block that b becomes, with the neighbours it touches. */
  function Merged(fl: seq<Blk>, t: nat, b: Blk): Blk
    requires t < |fl|
  {
    var up := if JoinsUp(fl, t, b) then Blk(b.addr, b.size + fl[t + 1].size) else b;
    if JoinsDown(fl, t, b) then Blk(fl[t].addr, fl[t].size + up.size) else up
  }

  /** The list after freeing b into the gap after fl[t]. */
  function Insert(fl: seq<Blk>, t: nat, b: Blk): (r: seq<Blk>)
    requires t < |fl|
  {
    fl[..if JoinsDown(fl, t, b) then t else t + 1] + [Merged(fl, t, b)]
      + fl[if JoinsUp(fl, t, b) then t + 2 else t + 1..]
  }

  lemma {:induction false} FreeConcat(a: seq<Blk>, b: seq<Blk>, x: nat)
    ensures Free(a + b, x) <==> Free(a, x) || Free(b, x)
  {
    if Free(a, x) {
      var k :| 0 <= k < |a| && Inside(a[k], x);
      assert Inside((a + b)[k], x);
    }
    if Free(b, x) {
      var k :| 0 <= k < |b| && Inside(b[k], x);
      assert Inside((a + b)[|a| + k], x);
    }
  }

  lemma {:induction false} FreeOne(b: Blk, x: nat)
    ensures Free([b], x) <==> Inside(b, x)
  {
    assert [b][0] == b;
  }

  lemma {:induction false} SpliceCover(fl: seq<Blk>, p: nat, q: nat, m: Blk, x: nat)
    requires p <= q <= |fl|
    ensures Free(fl[..p] + [m] + fl[q..], x) <==> Free(fl[..p], x) || Inside(m, x) || Free(fl[q..], x)
    ensures Free(fl, x) <==> Free(fl[..p], x) || Free(fl[p..q], x) || Free(fl[q..], x)
  {
    FreeConcat(fl[..p] + [m], fl[q..], x);
    FreeConcat(fl[..p], [m], x);
    FreeOne(m, x);
    assert fl == fl[..p] + fl[p..q] + fl[q..];
    FreeConcat(fl[..p] + fl[p..q], fl[q..], x);
    FreeConcat(fl[..p], fl[p..q], x);
  }

  lemma {:induction false} InsertSeparated(fl: seq<Blk>, t: nat, b: Blk)
    requires Separated(fl) && Fits(fl, t, b)
    ensures Separated(Insert(fl, t, b))
  {
  }

  /** Freeing b adds its units to the free ones and no others. */
  lemma {:induction false} InsertCover(fl: seq<Blk>, t: nat, b: Blk, x: nat)
    requires Fits(fl, t, b)
    ensures Free(Insert(fl, t, b), x) <==> Free(fl, x) || Inside(b, x)
  {
    var p, q := if JoinsDown(fl, t, b) then t else t + 1, if JoinsUp(fl, t, b) then t + 2 else t + 1;
    SpliceCover(fl, p, q, Merged(fl, t, b), x);
    assert fl[p..q] == (if p == t then [fl[t]] else []) + (if q == t + 2 then [fl[t + 1]] else []);
    FreeConcat(if p == t then [fl[t]] else [], if q == t + 2 then [fl[t + 1]] else [], x);
    FreeOne(fl[t], x);
    if q == t + 2 { FreeOne(fl[t + 1], x); }
  }

  /** The index of the block that a block at address a goes after. */
  function Slot(fl: seq<Blk>, a: nat): (t: nat)
    requires fl != [] && fl[0].addr < a && Separated(fl)
    ensures t < |fl| && fl[t].addr < a && (t + 1 < |fl| ==> a <= fl[t + 1].addr)
    ensures forall j :: t < j < |fl| ==> a <= fl[j].addr
  {
    if fl[|fl| - 1].addr < a then |fl| - 1 else Slot(fl[..|fl| - 1], a)
  }

  // ---------- taking from the list ----------

  function Remove(fl: seq<Blk>, k: nat): seq<Blk>
    requires k < |fl|
  {
    fl[..k] + fl[k + 1..]
  }

  function Shrink(fl: seq<Blk>, k: nat, n: nat): seq<Blk>
    requires k < |fl| && n <= fl[k].size
  {
    fl[k := Blk(fl[k].addr, fl[k].size - n)]
  }

  /** malloc's cut: the whole of block k, or its tail. */
  function Taken(fl: seq<Blk>, k: nat, n: nat): Blk
    requires k < |fl| && n <= fl[k].size
  {
    Blk(End(fl[k]) - n, n)
  }

  function Cut(fl: seq<Blk>, k: nat, n: nat): seq<Blk>
    requires k < |fl| && n <= fl[k].size
  {
    if fl[k].size == n then Remove(fl, k) else Shrink(fl, k, n)
  }

  lemma {:induction false} CutSeparated(fl: seq<Blk>, k: nat, n: nat)
    requires Separated(fl) && k < |fl| && n <= fl[k].size
    ensures Separated(Cut(fl, k, n))
  {
  }

  lemma {:induction false} CutCover(fl: seq<Blk>, k: nat, n: nat, x: nat)
    requires Separated(fl) && k < |fl| && 0 < n <= fl[k].size
    ensures Free(Cut(fl, k, n), x) <==> Free(fl, x) && !Inside(Taken(fl, k, n), x)
  {
    var lower, upper, rest := fl[..k], fl[k + 1..], Blk(fl[k].addr, fl[k].size - n);
    SpliceCover(fl, k, k + 1, rest, x);
    assert Shrink(fl, k, n) == lower + [rest] + upper;
    FreeConcat(lower, upper, x);
    assert fl[k..k + 1] == [fl[k]];
    FreeOne(fl[k], x);
    if Free(lower, x) {
      var j :| 0 <= j < |lower| && Inside(lower[j], x);
      assert End(fl[j]) < fl[k].addr;
    }
    if Free(upper, x) {
      var j :| 0 <= j < |upper| && Inside(upper[j], x);
      assert End(fl[k]) < fl[k + 1 + j].addr;
    }
  }
}
