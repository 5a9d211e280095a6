/** umalloc.c: the Kernighan and Ritchie allocator (The C Programming Language, 2nd ed., section
    8.7), with its headers linked in place.  Addresses are in header units. */
module Umalloc {
  import opened Common
  import opened FreeList

  const HEADER := 8          // sizeof(Header)
  const UINT := 0x1_0000_0000

  // ---------- the links ----------

  /** The address the block after fl[k] has; the last points back to the first. */
  function After(fl: seq<Blk>, k: nat): nat
    requires k < |fl|
  {
    if k + 1 < |fl| then fl[k + 1].addr else fl[0].addr
  }

  predicate Node(ptr: map<nat, nat>, size: map<nat, nat>, fl: seq<Blk>, k: nat)
    requires k < |fl|
  {
    var a := fl[k].addr;
    a in ptr && a in size && size[a] == fl[k].size && ptr[a] == After(fl, k)
  }

  /** The headers reached from base form one ring through the list. */
  predicate Linked(ptr: map<nat, nat>, size: map<nat, nat>, fl: seq<Blk>) {
    fl != [] && forall k :: 0 <= k < |fl| ==> Node(ptr, size, fl, k)
  }

  predicate SameHeader(ptr: map<nat, nat>, size: map<nat, nat>, q: map<nat, nat>, z: map<nat, nat>, a: nat) {
    a in ptr && a in size && a in q && a in z && q[a] == ptr[a] && z[a] == size[a]
  }

  /** The headers of the list's blocks, other than block t, are as they were. */
  predicate Agree(ptr: map<nat, nat>, size: map<nat, nat>, q: map<nat, nat>, z: map<nat, nat>, fl: seq<Blk>, t: nat) {
    forall k :: 0 <= k < |fl| && k != t ==> SameHeader(ptr, size, q, z, fl[k].addr)
  }

  lemma {:induction false} AgreeOutside(ptr: map<nat, nat>, size: map<nat, nat>, q: map<nat, nat>, z: map<nat, nat>,
                                        fl: seq<Blk>, t: nat, bp: nat)
    requires Linked(ptr, size, fl) && Separated(fl) && t < |fl| && forall k :: 0 <= k < |fl| ==> fl[k].addr != bp
    requires forall a :: a in ptr && a != bp && a != fl[t].addr ==> a in q && q[a] == ptr[a]
    requires forall a :: a in size && a != bp && a != fl[t].addr ==> a in z && z[a] == size[a]
    ensures Agree(ptr, size, q, z, fl, t)
  {
    forall k | 0 <= k < |fl| && k != t ensures SameHeader(ptr, size, q, z, fl[k].addr) {
      assert Node(ptr, size, fl, k);
      if k < t { assert End(fl[k]) < fl[t].addr; } else { assert End(fl[t]) < fl[k].addr; }
    }
  }

  predicate Header(q: map<nat, nat>, z: map<nat, nat>, a: nat, p: nat, n: nat) {
    a in q && a in z && q[a] == p && z[a] == n
  }

  lemma {:induction false} LinkAlone(ptr: map<nat, nat>, size: map<nat, nat>, fl: seq<Blk>, t: nat, b: Blk,
                                     q: map<nat, nat>, z: map<nat, nat>)
    requires Linked(ptr, size, fl) && Fits(fl, t, b) && !JoinsUp(fl, t, b) && !JoinsDown(fl, t, b)
    requires Agree(ptr, size, q, z, fl, t) && Header(q, z, fl[t].addr, b.addr, fl[t].size) &&
      Header(q, z, b.addr, After(fl, t), b.size)
    ensures Linked(q, z, Insert(fl, t, b))
  {
    var r := Insert(fl, t, b);
    forall k | 0 <= k < |r| ensures Node(q, z, r, k) {
      if k != t + 1 { assert Node(ptr, size, fl, if k <= t then k else k - 1); }
    }
  }

  lemma {:induction false} LinkUp(ptr: map<nat, nat>, size: map<nat, nat>, fl: seq<Blk>, t: nat, b: Blk,
                                  q: map<nat, nat>, z: map<nat, nat>)
    requires Linked(ptr, size, fl) && Fits(fl, t, b) && JoinsUp(fl, t, b) && !JoinsDown(fl, t, b)
    requires Agree(ptr, size, q, z, fl, t) && Header(q, z, fl[t].addr, b.addr, fl[t].size)
    requires Header(q, z, b.addr, After(fl, t + 1), b.size + fl[t + 1].size)
    ensures Linked(q, z, Insert(fl, t, b))
  {
    var r := Insert(fl, t, b);
    forall k | 0 <= k < |r| ensures Node(q, z, r, k) {
      if k != t + 1 { assert Node(ptr, size, fl, k); }
    }
  }

  lemma {:induction false} LinkDown(ptr: map<nat, nat>, size: map<nat, nat>, fl: seq<Blk>, t: nat, b: Blk,
                                    q: map<nat, nat>, z: map<nat, nat>)
    requires Linked(ptr, size, fl) && Fits(fl, t, b) && !JoinsUp(fl, t, b) && JoinsDown(fl, t, b)
    requires Agree(ptr, size, q, z, fl, t) && Header(q, z, fl[t].addr, After(fl, t), fl[t].size + b.size)
    ensures Linked(q, z, Insert(fl, t, b))
  {
    var r := Insert(fl, t, b);
    forall k | 0 <= k < |r| ensures Node(q, z, r, k) {
      assert Node(ptr, size, fl, k);
    }
  }

  lemma {:induction false} LinkBoth(ptr: map<nat, nat>, size: map<nat, nat>, fl: seq<Blk>, t: nat, b: Blk,
                                    q: map<nat, nat>, z: map<nat, nat>)
    requires Linked(ptr, size, fl) && Fits(fl, t, b) && JoinsUp(fl, t, b) && JoinsDown(fl, t, b)
    requires Agree(ptr, size, q, z, fl, t) &&
      Header(q, z, fl[t].addr, After(fl, t + 1), fl[t].size + (b.size + fl[t + 1].size))
    ensures Linked(q, z, Insert(fl, t, b))
  {
    var r := Insert(fl, t, b);
    forall k | 0 <= k < |r| ensures Node(q, z, r, k) {
      assert Node(ptr, size, fl, if k <= t then k else k + 1);
    }
  }

  /** Headers outside the list do not matter to it. */
  lemma {:induction false} LinkFrame(ptr: map<nat, nat>, size: map<nat, nat>, fl: seq<Blk>, a: nat, q: map<nat, nat>,
                                     z: map<nat, nat>)
    requires Linked(ptr, size, fl) && forall k :: 0 <= k < |fl| ==> fl[k].addr != a
    requires (q == ptr || (a in q && q == ptr[a := q[a]])) && (z == size || (a in z && z == size[a := z[a]]))
    ensures Linked(q, z, fl)
  {
    forall k | 0 <= k < |fl| ensures Node(q, z, fl, k) {
      assert Node(ptr, size, fl, k);
    }
  }

  lemma {:induction false} LinkRemove(ptr: map<nat, nat>, size: map<nat, nat>, fl: seq<Blk>, k: nat)
    requires Linked(ptr, size, fl) && Separated(fl) && 1 <= k < |fl|
    ensures Linked(ptr[fl[k - 1].addr := After(fl, k)], size, Remove(fl, k))
  {
    var r, q := Remove(fl, k), ptr[fl[k - 1].addr := After(fl, k)];
    forall j | 0 <= j < |r| ensures Node(q, size, r, j) {
      assert Node(ptr, size, fl, if j < k then j else j + 1);
    }
  }

  lemma {:induction false} LinkShrink(ptr: map<nat, nat>, size: map<nat, nat>, fl: seq<Blk>, k: nat, n: nat)
    requires Linked(ptr, size, fl) && Separated(fl) && k < |fl| && n < fl[k].size
    ensures Linked(ptr, size[fl[k].addr := fl[k].size - n], Shrink(fl, k, n))
  {
    var r, z := Shrink(fl, k, n), size[fl[k].addr := fl[k].size - n];
    forall j | 0 <= j < |r| ensures Node(ptr, z, r, j) {
      assert Node(ptr, size, fl, j);
    }
  }

  // ---------- what is whose ----------

  /** Blocks handed out by malloc: header address to size. */
  ghost predicate InUse(used: map<nat, nat>, x: nat) {
    exists a :: a in used && Inside(Blk(a, used[a]), x)
  }

  predicate Disjoint(b: Blk, c: Blk) {
    End(b) <= c.addr || End(c) <= b.addr
  }

  /** Allocated blocks keep their headers, and overlap neither each other nor a free block. */
  predicate UsedOk(used: map<nat, nat>, size: map<nat, nat>, fl: seq<Blk>) {
    && (forall a :: a in used ==> used[a] > 0 && a in size && size[a] == used[a])
    && (forall a, c :: a in used && c in used && a != c ==> Disjoint(Blk(a, used[a]), Blk(c, used[c])))
    && (forall a, k :: a in used && 0 <= k < |fl| ==> Disjoint(Blk(a, used[a]), fl[k]))
  }

  /** base is the first block, of no size, below everything else; the others are not empty. */
  predicate ListOk(fl: seq<Blk>, base: nat) {
    fl != [] && fl[0] == Blk(base, 0) && Separated(fl) && forall k :: 1 <= k < |fl| ==> fl[k].size > 0
  }

  /** Free and allocated blocks exactly cover what sbrk has given. */
  ghost predicate Covered(heap: seq<Blk>, fl: seq<Blk>, used: map<nat, nat>) {
    forall x: nat :: Free(heap, x) <==> Free(fl, x) || InUse(used, x)
  }

  /** free's loop test, at block k of the list, holds just at the slot. */
  lemma {:induction false} StopsAtSlot(fl: seq<Blk>, base: nat, bp: nat, k: nat)
    requires ListOk(fl, base) && base < bp && k < |fl| && forall j :: 0 <= j < |fl| ==> fl[j].addr != bp
    ensures var p, n := fl[k].addr, After(fl, k);
      (bp > p && bp < n) || (p >= n && (bp > p || bp < n)) <==> k == Slot(fl, bp)
  {
  }

  lemma {:induction false} NotListed(used: map<nat, nat>, size: map<nat, nat>, fl: seq<Blk>, base: nat, a: nat)
    requires UsedOk(used, size, fl) && ListOk(fl, base) && a in used && base < a
    ensures forall k :: 0 <= k < |fl| ==> fl[k].addr != a
  {
  }

  lemma {:induction false} NoUsedAt(used: map<nat, nat>, size: map<nat, nat>, fl: seq<Blk>, base: nat, t: nat)
    requires UsedOk(used, size, fl) && ListOk(fl, base) && t < |fl| && forall a :: a in used ==> base < a
    ensures fl[t].addr !in used
  {
  }

  /** An allocated block lies in the gap after the free block below it. */
  lemma {:induction false} UsedFits(used: map<nat, nat>, size: map<nat, nat>, fl: seq<Blk>, base: nat, a: nat)
    requires UsedOk(used, size, fl) && ListOk(fl, base) && a in used && base < a
    ensures Fits(fl, Slot(fl, a), Blk(a, used[a]))
  {
  }

  /** Freeing a block: its units move from in use to free, and nothing else changes hands. */
  lemma {:induction false} GiveBack(used: map<nat, nat>, size: map<nat, nat>, fl: seq<Blk>, base: nat, heap: seq<Blk>,
                                    a: nat, z: map<nat, nat>)
    requires UsedOk(used, size, fl) && ListOk(fl, base) && Covered(heap, fl, used) && a in used && base < a
    requires forall c :: c in used && c != a ==> c in z && z[c] == size[c]
    ensures var r := Insert(fl, Slot(fl, a), Blk(a, used[a]));
      UsedOk(used - {a}, z, r) && ListOk(r, base) && Covered(heap, r, used - {a})
  {
    var t, b := Slot(fl, a), Blk(a, used[a]);
    var r, left := Insert(fl, t, b), used - {a};
    UsedFits(used, size, fl, base, a);
    InsertSeparated(fl, t, b);
    forall x: nat ensures Free(heap, x) <==> Free(r, x) || InUse(left, x) {
      InsertCover(fl, t, b, x);
      LeftInUse(used, a, x);
    }
    forall c, k | c in left && 0 <= k < |r| ensures Disjoint(Blk(c, left[c]), r[k]) {
      InsertDisjoint(fl, t, b, Blk(c, left[c]), k);
    }
  }

  lemma {:induction false} LeftInUse(used: map<nat, nat>, a: nat, x: nat)
    requires a in used
    ensures InUse(used, x) <==> InUse(used - {a}, x) || Inside(Blk(a, used[a]), x)
  {
    if InUse(used, x) {
      var c :| c in used && Inside(Blk(c, used[c]), x);
      if c != a { assert c in used - {a} && Inside(Blk(c, (used - {a})[c]), x); }
    }
    if InUse(used - {a}, x) {
      var c :| c in used - {a} && Inside(Blk(c, (used - {a})[c]), x);
      assert c in used && Inside(Blk(c, used[c]), x);
    }
  }

  /** A block apart from b and from the free blocks is apart from what they merge into. */
  lemma {:induction false} InsertDisjoint(fl: seq<Blk>, t: nat, b: Blk, c: Blk, k: nat)
    requires Fits(fl, t, b) && c.size > 0 && Disjoint(c, b) && k < |Insert(fl, t, b)|
    requires forall j :: 0 <= j < |fl| ==> Disjoint(c, fl[j])
    ensures Disjoint(c, Insert(fl, t, b)[k])
  {
  }

  /** Allocating from block k: the cut's units move from free to in use. */
  lemma {:induction false} TakeOut(used: map<nat, nat>, size: map<nat, nat>, fl: seq<Blk>, base: nat, heap: seq<Blk>,
                                   k: nat, n: nat,
                                   z: map<nat, nat>)
    requires UsedOk(used, size, fl) && ListOk(fl, base) && Covered(heap, fl, used) && k < |fl| && 0 < n <= fl[k].size
    requires var a := Taken(fl, k, n).addr; a in z && z[a] == n
    requires forall c :: c in used ==> c in z && z[c] == size[c]
    ensures var a, r := Taken(fl, k, n).addr, Cut(fl, k, n);
      a !in used && UsedOk(used[a := n], z, r) && ListOk(r, base) && Covered(heap, r, used[a := n])
  {
    var b, r := Taken(fl, k, n), Cut(fl, k, n);
    var more := used[b.addr := n];
    CutSeparated(fl, k, n);
    forall c | c in used ensures c != b.addr && Disjoint(Blk(c, used[c]), b) {
      assert Disjoint(Blk(c, used[c]), fl[k]);
    }
    forall x: nat ensures Free(heap, x) <==> Free(r, x) || InUse(more, x) {
      CutCover(fl, k, n, x);
      assert more - {b.addr} == used;
      LeftInUse(more, b.addr, x);
      if Inside(b, x) { assert Inside(fl[k], x); }
    }
    forall c, j | c in more && 0 <= j < |r| ensures Disjoint(Blk(c, more[c]), r[j]) {
      CutDisjoint(fl, k, n, j);
      if c != b.addr {
        assert Disjoint(Blk(c, used[c]), fl[if fl[k].size == n && j >= k then j + 1 else j]);
      }
    }
  }

  /** The blocks that stay are parts of old ones, apart from the cut. */
  lemma {:induction false} CutDisjoint(fl: seq<Blk>, k: nat, n: nat, j: nat)
    requires Separated(fl) && k < |fl| && 0 < n <= fl[k].size && j < |Cut(fl, k, n)|
    ensures var i := if fl[k].size == n && j >= k then j + 1 else j; var c := Cut(fl, k, n)[j];
      i < |fl| && c.addr == fl[i].addr && c.size <= fl[i].size && Disjoint(Taken(fl, k, n), c)
  {
    var i := if fl[k].size == n && j >= k then j + 1 else j;
    if i < k { assert End(fl[i]) < fl[k].addr; }
    if i > k { assert End(fl[k]) < fl[i].addr; }
  }

  /** The index c steps after f, going round. */
  function Round(f: nat, c: nat, n: nat): (k: nat)
    requires f < n && c < n
    ensures k < n
  {
    if f + 1 + c < n then f + 1 + c else f + 1 + c - n
  }

  predicate HasRoom(fl: seq<Blk>, n: nat) {
    exists k :: 0 <= k < |fl| && fl[k].size >= n
  }

  predicate TooSmall(fl: seq<Blk>, f: nat, c: nat, n: nat) {
    f < |fl| && c <= |fl| && forall d :: 0 <= d < c ==> fl[Round(f, d, |fl|)].size < n
  }

  /** After a full round, every block has been looked at. */
  lemma {:induction false} AllTooSmall(fl: seq<Blk>, f: nat, n: nat)
    requires TooSmall(fl, f, |fl|, n)
    ensures !HasRoom(fl, n)
  {
    forall k | 0 <= k < |fl| ensures fl[k].size < n {
      var d := if k > f then k - f - 1 else k + |fl| - f - 1;
      assert Round(f, d, |fl|) == k;
    }
  }

  // ---------- sizes in 32 bits ----------

  /** nunits of malloc: the sum wraps at 2^32. */
  function Units(nbytes: nat): (n: nat)
    requires nbytes < UINT
    ensures n > 0
  {
    (nbytes + HEADER - 1) % UINT / HEADER + 1
  }

  /** The argument sbrk gets for nu units: the product wraps at 2^32 and is then a signed int. */
  function SbrkArg(nu: nat): int {
    var w := nu * HEADER % UINT;
    if w < 0x8000_0000 then w else w - UINT
  }

  function AtLeast4096(nu: nat): nat {
    if nu < 4096 then 4096 else nu
  }

  /** A request's block holds the bytes asked for just when the rounding does not wrap. */
  lemma {:induction false} UnitsHold(nbytes: nat)
    requires nbytes < UINT
    ensures (Units(nbytes) - 1) * HEADER >= nbytes <==> nbytes <= UINT - HEADER
  {
  }

  /** sbrk is asked for the memory morecore needs just when the request is below 2^31 - 15 bytes (or
      so large that its rounding wrapped to one unit). */
  lemma {:induction false} SbrkAsked(nbytes: nat)
    requires nbytes < UINT
    ensures SbrkArg(AtLeast4096(Units(nbytes))) == AtLeast4096(Units(nbytes)) * HEADER
            <==> nbytes <= 0x8000_0000 - 2 * HEADER || nbytes > UINT - HEADER
  {
  }

  /** For 2^31 bytes it is asked to shrink the process instead. */
  lemma {:induction false} SbrkShrinks()
    ensures SbrkArg(AtLeast4096(Units(0x8000_0000))) == -0x7FFF_FFF8
  {
  }

  // ---------- growing the heap ----------

  ghost predicate Below(heap: seq<Blk>, base: nat, top: nat) {
    base < top && forall x: nat :: Free(heap, x) ==> base < x < top
  }

  lemma {:induction false} BlocksBelow(used: map<nat, nat>, size: map<nat, nat>, fl: seq<Blk>, base: nat,
                                       heap: seq<Blk>, top: nat)
    requires UsedOk(used, size, fl) && ListOk(fl, base) && Covered(heap, fl, used) && Below(heap, base, top)
    ensures forall a :: a in used ==> base < a && End(Blk(a, used[a])) <= top
    ensures forall k :: 0 <= k < |fl| ==> End(fl[k]) <= top
  {
    forall a | a in used ensures base < a && End(Blk(a, used[a])) <= top {
      assert Inside(Blk(a, used[a]), a) && Inside(Blk(a, used[a]), a + used[a] - 1);
      assert InUse(used, a) && InUse(used, a + used[a] - 1);
    }
    forall k | 0 <= k < |fl| ensures End(fl[k]) <= top {
      if k > 0 {
        assert Inside(fl[k], End(fl[k]) - 1);
        assert Free(fl, End(fl[k]) - 1);
      }
    }
  }

  /** Memory fresh from sbrk, seen as one allocated block until it is freed into the list. */
  lemma {:induction false} Grow(used: map<nat, nat>, size: map<nat, nat>, fl: seq<Blk>, base: nat, heap: seq<Blk>,
                                top: nat, hp: nat, nu: nat)
    requires UsedOk(used, size, fl) && ListOk(fl, base) && Covered(heap, fl, used) && Below(heap, base, top)
    requires top <= hp && nu > 0
    ensures hp !in used && UsedOk(used[hp := nu], size[hp := nu], fl)
    ensures Covered(heap + [Blk(hp, nu)], fl, used[hp := nu]) && Below(heap + [Blk(hp, nu)], base, hp + nu)
  {
    BlocksBelow(used, size, fl, base, heap, top);
    var more := used[hp := nu];
    forall c, k | c in more && 0 <= k < |fl| ensures Disjoint(Blk(c, more[c]), fl[k]) {
      if c != hp { assert Disjoint(Blk(c, used[c]), fl[k]); }
    }
    assert more - {hp} == used;
    forall x: nat ensures Free(heap + [Blk(hp, nu)], x) <==> Free(fl, x) || InUse(more, x) {
      LeftInUse(more, hp, x);
      FreeConcat(heap, [Blk(hp, nu)], x);
      FreeOne(Blk(hp, nu), x);
    }
  }

  lemma {:induction false} NothingYet(base: nat)
    ensures ListOk([Blk(base, 0)], base) && Covered([], [Blk(base, 0)], map[])
  {
  }

  // ---------- the allocator ----------

  /** malloc's answer; Overrun is a request whose sbrk argument wrapped (see SbrkAsked), where what
      happens next is no longer the allocator's doing. */
  datatype Outcome = Block(header: nat) | Null | Overrun

  class Allocator {
    const base: nat            // &base
    var ptr: map<nat, nat>     // s.ptr of the header at each address
    var size: map<nat, nat>    // s.size
    var freep: nat             // 0 until the first malloc
    ghost var fl: seq<Blk>
    ghost var f: nat           // freep's place in fl
    ghost var used: map<nat, nat>
    ghost var heap: seq<Blk>   // the regions sbrk has given
    ghost var top: nat         // one past the highest of them

    constructor (base: nat)
      requires base > 0
      ensures Valid() && this.base == base && heap == [] && used == map[]
    {
      this.base, freep, ptr, size := base, 0, map[], map[];
      fl, f, used, heap, top := [Blk(base, 0)], 0, map[], [], base + 1;
      new;
      NothingYet(base);
    }

    ghost predicate Blocks()
      reads this
    {
      && ListOk(fl, base) && UsedOk(used, size, fl) && Covered(heap, fl, used) && Below(heap, base, top)
    }

    /** The free list is one address-ordered ring through base, and freep is on it. */
    ghost predicate Ready()
      reads this
    {
      Blocks() && Linked(ptr, size, fl) && f < |fl| && freep == fl[f].addr
    }

    ghost predicate Valid()
      reads this
    {
      base > 0 && if freep == 0 then Blocks() && fl == [Blk(base, 0)] && used == map[] && heap == [] else Ready()
    }

    /** free(): the block joins the list, coalesced with the neighbours it touches. */
    method Free(bp: nat)
      requires Ready() && bp in used && base > 0
      modifies this`ptr, this`size, this`freep, this`fl, this`f, this`used
      ensures Ready() && freep != 0
      ensures base < bp && ListOk(old(fl), base) && fl == Insert(old(fl), Slot(old(fl), bp), Blk(bp, old(used)[bp]))
      ensures used == old(used) - {bp}
    {
      BlocksBelow(used, size, fl, base, heap, top);
      ghost var t, b := Slot(fl, bp), Blk(bp, used[bp]);
      UsedFits(used, size, fl, base, bp);
      NotListed(used, size, fl, base, bp);
      var p := FindSlot(bp, t);
      LinkIn(bp, p, t, b);
      assert forall c :: c in used && c != bp ==> c != p by { NoUsedAt(used, old(size), old(fl), base, t); }
      GiveBack(used, old(size), old(fl), base, heap, bp, size);
      used := used - {bp};
    }

    /** free's relinking, with both coalescing tests. */
    method LinkIn(bp: nat, p: nat, ghost t: nat, ghost b: Blk)
      requires ListOk(fl, base) && Linked(ptr, size, fl) && Fits(fl, t, b) && base < bp == b.addr && p == fl[t].addr
      requires bp in size && size[bp] == b.size && forall k :: 0 <= k < |fl| ==> fl[k].addr != bp
      modifies this`ptr, this`size, this`freep, this`fl, this`f
      ensures Linked(ptr, size, fl) && fl == Insert(old(fl), t, b) && f < |fl| && freep == fl[f].addr == p
      ensures forall c :: c in old(size) && c != bp && c != p ==> c in size && size[c] == old(size)[c]
    {
      assert Node(ptr, size, fl, t);
      ghost var up, down := JoinsUp(fl, t, b), JoinsDown(fl, t, b);
      if up { assert Node(ptr, size, fl, t + 1); }
      assert up <==> bp + size[bp] == ptr[p];
      var n := ptr[p];
      if bp + size[bp] == n {
        size := size[bp := size[bp] + size[n]];
        ptr := ptr[bp := ptr[n]];
      } else {
        ptr := ptr[bp := n];
      }
      if p + size[p] == bp {
        size := size[p := size[p] + size[bp]];
        ptr := ptr[p := ptr[bp]];
      } else {
        ptr := ptr[p := bp];
      }
      freep := p;
      AgreeOutside(old(ptr), old(size), ptr, size, fl, t, bp);
      if !up && !down { LinkAlone(old(ptr), old(size), fl, t, b, ptr, size); }
      if up && !down { LinkUp(old(ptr), old(size), fl, t, b, ptr, size); }
      if !up && down { LinkDown(old(ptr), old(size), fl, t, b, ptr, size); }
      if up && down { LinkBoth(old(ptr), old(size), fl, t, b, ptr, size); }
      fl, f := Insert(fl, t, b), t;
    }

    /** free's search loop: it stops at the free block just below bp, wherever it starts. */
    method FindSlot(bp: nat, ghost t: nat) returns (p: nat)
      requires Ready() && base < bp && t == Slot(fl, bp) && forall k :: 0 <= k < |fl| ==> fl[k].addr != bp
      ensures p == fl[t].addr
    {
      p := freep;
      ghost var k: nat := f;
      assert Node(ptr, size, fl, k);
      while !(bp > p && bp < ptr[p])
        invariant k < |fl| && p == fl[k].addr && p in ptr && ptr[p] == After(fl, k)
        decreases if k <= t then t - k else |fl| - k + t
      {
        StopsAtSlot(fl, base, bp, k);
        if p >= ptr[p] && (bp > p || bp < ptr[p]) {
          break;
        }
        p := ptr[p];
        k := if k + 1 < |fl| then k + 1 else 0;
        assert Node(ptr, size, fl, k);
      }
      StopsAtSlot(fl, base, bp, k);
    }

    /** morecore(): ask sbrk for at least 4096 units and free them into the list.  grant is sbrk's
        answer: an address above everything it has given before, or None for -1. */
    method Morecore(nu: nat, grant: Option<nat>) returns (p: nat)
      requires Ready() && base > 0 && SbrkArg(AtLeast4096(nu)) == AtLeast4096(nu) * HEADER
      requires grant.Some? ==> top <= grant.value
      modifies this`ptr, this`size, this`freep, this`fl, this`f, this`used, this`heap, this`top
      ensures Ready() && used == old(used)
      ensures grant.None? ==> p == 0 && fl == old(fl) && f == old(f) && freep == old(freep) && heap == old(heap)
      ensures grant.Some? ==> p == freep != 0 && heap == old(heap) + [Blk(grant.value, AtLeast4096(nu))]
      ensures grant.Some? ==> HasRoom(fl, nu)
    {
      var n := AtLeast4096(nu);
      if grant.None? {
        return 0;
      }
      var hp := grant.value;
      Adopt(hp, n);
      MergedIn(fl, Slot(fl, hp), Blk(hp, n));
      Free(hp);
      return freep;
    }

    /** New memory, made to look like an allocated block of n units. */
    method Adopt(hp: nat, n: nat)
      requires Ready() && top <= hp && n > 0
      modifies this`size, this`used, this`heap, this`top
      ensures Ready() && base < hp && hp !in old(used) && used == old(used)[hp := n] && used - {hp} == old(used)
      ensures heap == old(heap) + [Blk(hp, n)]
    {
      hide UsedOk, Covered;
      Grow(used, size, fl, base, heap, top, hp, n);
      BlocksBelow(used, size, fl, base, heap, top);
      LinkFrame(ptr, size, fl, hp, ptr, size[hp := n]);
      size := size[hp := n];
      used, heap, top := used[hp := n], heap + [Blk(hp, n)], hp + n;
    }

    /** malloc's unlinking of the block at p, or of its tail. */
    method LinkOut(prevp: nat, p: nat, n: nat, ghost k: nat) returns (a: nat)
      requires Linked(ptr, size, fl) && Separated(fl)
      requires 1 <= k < |fl| && p == fl[k].addr && prevp == fl[k - 1].addr && 0 < n <= fl[k].size
      modifies this`ptr, this`size
      ensures Linked(ptr, size, Cut(fl, k, n)) && a == Taken(fl, k, n).addr && a in size && size[a] == n
      ensures forall c :: c in old(size) && c != p && c != a ==> c in size && size[c] == old(size)[c]
    {
      assert Node(ptr, size, fl, k) && Node(ptr, size, fl, k - 1);
      a := p;
      if size[p] == n {
        LinkRemove(ptr, size, fl, k);
        ptr := ptr[prevp := ptr[p]];
      } else {
        LinkShrink(ptr, size, fl, k, n);
        size := size[p := size[p] - n];
        a := p + size[p];
        NotInCut(fl, k, n);
        LinkFrame(ptr, size, Cut(fl, k, n), a, ptr, size[a := n]);
        size := size[a := n];
      }
    }

    /** malloc's allocation from the block at p, which follows prevp. */
    method CutBlock(prevp: nat, p: nat, n: nat, ghost k: nat) returns (a: nat)
      requires Ready() && 1 <= k < |fl| && p == fl[k].addr && prevp == fl[k - 1].addr && 0 < n <= fl[k].size
      modifies this`ptr, this`size, this`freep, this`fl, this`f, this`used
      ensures Ready() && freep == prevp && fl == Cut(old(fl), k, n) && a == Taken(old(fl), k, n).addr
      ensures a !in old(used) && used == old(used)[a := n]
    {
      hide Covered, Below, Linked;
      a := LinkOut(prevp, p, n, k);
      FreshHeader(used, old(size), fl, k, n);
      TakeOut(used, old(size), fl, base, heap, k, n, size);
      freep := prevp;
      fl, f, used := Cut(fl, k, n), k - 1, used[a := n];
    }

    /** malloc has found a block that is large enough. */
    method TakeFound(prevp: nat, p: nat, n: nat, ghost c: nat) returns (a: nat)
      requires Ready() && Looking(fl, f, c, n, prevp, p) && 0 < n <= fl[Round(f, c, |fl|)].size
      modifies this`ptr, this`size, this`freep, this`fl, this`f, this`used
      ensures Ready() && freep == prevp && a !in old(used) && used == old(used)[a := n]
    {
      LookPrev(fl, f, c, n, prevp, p, base);
      a := CutBlock(prevp, p, n, Round(f, c, |fl|));
    }

    /** malloc's first call: base becomes a ring of one empty block. */
    method Start()
      requires Valid() && freep == 0
      modifies this`ptr, this`size, this`freep, this`f
      ensures Valid() && freep == base != 0
    {
      ptr := ptr[base := base];
      freep := base;
      size := size[base := 0];
      f := 0;
      assert Node(ptr, size, fl, 0);
    }

    /** malloc(): first fit after freep, growing the heap at most once; null only when sbrk fails. */
    method Malloc(nbytes: nat, grant: Option<nat>) returns (r: Outcome)
      requires Valid() && nbytes < UINT && (grant.Some? ==> top <= grant.value)
      modifies this`ptr, this`size, this`freep, this`fl, this`f, this`used, this`heap, this`top
      ensures Valid()
      ensures r.Block? ==> r.header !in old(used) && used == old(used)[r.header := Units(nbytes)]
      ensures !r.Block? ==> used == old(used) && heap == old(heap)
      ensures r.Null? ==> grant.None? && !HasRoom(old(fl), Units(nbytes))
      ensures HasRoom(old(fl), Units(nbytes)) ==> r.Block? && heap == old(heap)
      ensures r.Overrun? ==> SbrkArg(AtLeast4096(Units(nbytes))) != AtLeast4096(Units(nbytes)) * HEADER
      ensures heap == old(heap) || (grant.Some? && heap == old(heap) + [Blk(grant.value, AtLeast4096(Units(nbytes)))])
    {
      hide UsedOk, Covered, Below, HasRoom, TooSmall;
      var n := Units(nbytes);
      if freep == 0 {
        Start();
      }
      var prevp := freep;
      assert Node(ptr, size, fl, f);
      var p := ptr[prevp];
      ghost var c, grown := 0, false;
      ghost var more := heap + if grant.Some? then [Blk(grant.value, AtLeast4096(n))] else [];
      LookStart(fl, f, n);
      while true
        invariant Ready() && freep != 0 && used == old(used) && Looking(fl, f, c, n, prevp, p)
        invariant !grown ==> heap == old(heap) && top == old(top) && fl == old(fl)
        invariant grown ==> !HasRoom(old(fl), n) && grant.Some? && heap == more && HasRoom(fl, n)
        decreases if grown then 0 else 1, |fl| - c
      {
        ghost var k := Round(f, c, |fl|);
        assert Node(ptr, size, fl, k);
        if size[p] >= n {
          var a := TakeFound(prevp, p, n, c);
          return Block(a);
        }
        LookNext(fl, f, c, n, prevp, p);
        if p == freep {
          if SbrkArg(AtLeast4096(n)) != AtLeast4096(n) * HEADER {
            return Overrun;
          }
          p := Morecore(n, grant);
          if p == 0 {
            return Null;
          }
          assert Node(ptr, size, fl, f);
          LookStart(fl, f, n);
          grown, c := true, 0;
        } else {
          c := c + 1;
        }
        prevp, p := p, ptr[p];
      }
    }
  }

  /** malloc is c blocks into its round: the ones behind are too small, p is next, prevp before it. */
  predicate Looking(fl: seq<Blk>, f: nat, c: nat, n: nat, prevp: nat, p: nat) {
    && c < |fl| && TooSmall(fl, f, c, n) && p == fl[Round(f, c, |fl|)].addr
    && prevp == (if c == 0 then fl[f].addr else fl[Round(f, c - 1, |fl|)].addr)
  }

  lemma {:induction false} LookStart(fl: seq<Blk>, f: nat, n: nat)
    requires f < |fl|
    ensures Looking(fl, f, 0, n, fl[f].addr, After(fl, f))
  {
  }

  /** When block p is too small: either the round goes on, or it is complete and no block has room. */
  lemma {:induction false} LookNext(fl: seq<Blk>, f: nat, c: nat, n: nat, prevp: nat, p: nat)
    requires Separated(fl) && Looking(fl, f, c, n, prevp, p) && fl[Round(f, c, |fl|)].size < n
    ensures p != fl[f].addr ==> Looking(fl, f, c + 1, n, p, After(fl, Round(f, c, |fl|)))
    ensures p == fl[f].addr ==> !HasRoom(fl, n)
  {
    LastInRound(fl, f, c);
    if c == |fl| - 1 {
      AllTooSmall(fl, f, n);
    }
  }

  lemma {:induction false} LookPrev(fl: seq<Blk>, f: nat, c: nat, n: nat, prevp: nat, p: nat, base: nat)
    requires ListOk(fl, base) && Looking(fl, f, c, n, prevp, p) && 0 < n <= fl[Round(f, c, |fl|)].size
    ensures var k := Round(f, c, |fl|); 1 <= k && prevp == fl[k - 1].addr
  {
  }

  /** What is freed ends up inside one block of the list. */
  lemma {:induction false} MergedIn(fl: seq<Blk>, t: nat, b: Blk)
    requires t < |fl|
    ensures HasRoom(Insert(fl, t, b), b.size)
  {
    var p := if JoinsDown(fl, t, b) then t else t + 1;
    assert Insert(fl, t, b)[p] == Merged(fl, t, b);
  }

  lemma {:induction false} NotInCut(fl: seq<Blk>, k: nat, n: nat)
    requires Separated(fl) && k < |fl| && 0 < n < fl[k].size
    ensures forall j :: 0 <= j < |Cut(fl, k, n)| ==> Cut(fl, k, n)[j].addr != Taken(fl, k, n).addr
  {
  }

  /** The cut's header is nobody's yet. */
  lemma {:induction false} FreshHeader(used: map<nat, nat>, size: map<nat, nat>, fl: seq<Blk>, k: nat, n: nat)
    requires UsedOk(used, size, fl) && k < |fl| && 0 < n <= fl[k].size
    ensures Taken(fl, k, n).addr !in used && fl[k].addr !in used
  {
  }

  /** free undoes malloc: putting back what was cut gives the same list, block for block. */
  lemma {:induction false} FreeUndoesMalloc(fl: seq<Blk>, base: nat, k: nat, n: nat)
    requires ListOk(fl, base) && 1 <= k < |fl| && 0 < n <= fl[k].size
    ensures ListOk(Cut(fl, k, n), base) && base < Taken(fl, k, n).addr
    ensures var u := if fl[k].size == n then k - 1 else k;
      Slot(Cut(fl, k, n), Taken(fl, k, n).addr) == u && Insert(Cut(fl, k, n), u, Taken(fl, k, n)) == fl
  {
    CutListOk(fl, base, k, n);
    assert End(fl[0]) < fl[k].addr;
    CutSlot(fl, k, n);
    UndoCut(fl, k, n);
  }

  lemma {:induction false} UndoCut(fl: seq<Blk>, k: nat, n: nat)
    requires Separated(fl) && 1 <= k < |fl| && 0 < n <= fl[k].size
    ensures Insert(Cut(fl, k, n), if fl[k].size == n then k - 1 else k, Taken(fl, k, n)) == fl
  {
  }

  lemma {:induction false} CutSlot(fl: seq<Blk>, k: nat, n: nat)
    requires Separated(fl) && 1 <= k < |fl| && 0 < n <= fl[k].size && Separated(Cut(fl, k, n)) &&
      fl[0].addr < fl[k].addr
    ensures Cut(fl, k, n)[0].addr < Taken(fl, k, n).addr
    ensures Slot(Cut(fl, k, n), Taken(fl, k, n).addr) == if fl[k].size == n then k - 1 else k
  {
  }

  lemma {:induction false} CutListOk(fl: seq<Blk>, base: nat, k: nat, n: nat)
    requires ListOk(fl, base) && 1 <= k < |fl| && n <= fl[k].size
    ensures ListOk(Cut(fl, k, n), base)
  {
  }

  lemma {:induction false} LastInRound(fl: seq<Blk>, f: nat, c: nat)
    requires Separated(fl) && f < |fl| && c < |fl|
    ensures fl[Round(f, c, |fl|)].addr == fl[f].addr <==> c == |fl| - 1
  {
  }
}
