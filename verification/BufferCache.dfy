/** The buffer cache (bio.c over memide.c) as a machine whose steps are the critical sections:
    any number of clients, any interleaving.  A client is a handle: one call of bget that has
    not yet been dropped by brelse. */
module BufferCache {
  import opened Common
  import opened Blocks
  import Store = LogDriver

  const NBUF := MAXOPBLOCKS * 3

  datatype Buf = Buf(dev: nat, blockno: nat, valid: bool, dirty: bool, refcnt: nat, data: Block)

  /** Where a client is: waiting for the sleep-lock after bget's unlock, holding it inside bread,
      using the buffer (touched: changed since the last bwrite/log_write), or between brelse's
      releasesleep and its refcnt--. */
  datatype Phase = Waiting | Locked | Using(touched: bool) | Unlocked

  datatype Ref = Ref(buf: nat, dev: nat, blockno: nat, phase: Phase)

  /** order is the list from head.next on.  latest, stamp and clock only record history: the data
      last handed to bwrite or log_write for each block, and when each buffer was last released. */
  datatype Cache = Cache(order: seq<nat>, bufs: seq<Buf>, refs: map<nat, Ref>,
                         disk: seq<Block>, latest: seq<Block>, stamp: seq<int>, clock: int)

  datatype Event =
    | Get(h: nat, dev: nat, blockno: nat)
    | Acquire(h: nat)
    | Fill(h: nat)
    | Modify(h: nat, data: Block)
    | Bwrite(h: nat)
    | LogWrite(h: nat)
    | Unlock(h: nat)
    | Drop(h: nat)

  // ---------- the steps ----------

  predicate Holds(b: Buf, dev: nat, blockno: nat) {
    b.dev == dev && b.blockno == blockno
  }

  /** Position, from the front, of the first buffer for the block; |order| if there is none. */
  function FindCached(order: seq<nat>, bufs: seq<Buf>, dev: nat, blockno: nat): (k: nat)
    requires forall i :: 0 <= i < |order| ==> order[i] < |bufs|
    ensures k <= |order|
    ensures k < |order| ==> Holds(bufs[order[k]], dev, blockno)
    ensures forall i :: 0 <= i < k ==> !Holds(bufs[order[i]], dev, blockno)
  {
    if order == [] then 0
    else if Holds(bufs[order[0]], dev, blockno) then 0
    else
      var k := FindCached(order[1..], bufs, dev, blockno);
      assert forall i :: 1 <= i < 1 + k ==> order[i] == order[1..][i - 1];
      1 + k
  }

  predicate Recyclable(b: Buf) {
    b.refcnt == 0 && !b.dirty
  }

  /** Position, from the back, of the first recyclable buffer; -1 if there is none. */
  function FindVictim(order: seq<nat>, bufs: seq<Buf>): (k: int)
    requires forall i :: 0 <= i < |order| ==> order[i] < |bufs|
    ensures -1 <= k < |order|
    ensures k >= 0 ==> Recyclable(bufs[order[k]])
    ensures forall i :: k < i < |order| ==> !Recyclable(bufs[order[i]])
  {
    if order == [] then -1
    else if Recyclable(bufs[order[|order| - 1]]) then |order| - 1
    else FindVictim(order[..|order| - 1], bufs)
  }

  function PosOf(order: seq<nat>, b: nat): (k: nat)
    requires b in order
    ensures k < |order| && order[k] == b
  {
    if order[0] == b then 0 else 1 + PosOf(order[1..], b)
  }

  /** The list after a release: the buffer at position k moved to the front. */
  function MoveToFront(order: seq<nat>, k: nat): (r: seq<nat>)
    requires k < |order|
    ensures |r| == |order|
    ensures r[0] == order[k]
    ensures forall i :: 0 < i <= k ==> r[i] == order[i - 1]
    ensures forall i :: k < i < |order| ==> r[i] == order[i]
  {
    [order[k]] + order[..k] + order[k + 1..]
  }

  /** bget's critical section: which buffer it hands out and the buffers after it; None is the
      panic "bget: no buffers". */
  function GetBuf(order: seq<nat>, bufs: seq<Buf>, dev: nat, blockno: nat): (r: Option<(nat, seq<Buf>)>)
    requires forall i :: 0 <= i < |order| ==> order[i] < |bufs|
  {
    var k := FindCached(order, bufs, dev, blockno);
    if k < |order| then
      var b := order[k];
      Some((b, bufs[b := bufs[b].(refcnt := bufs[b].refcnt + 1)]))
    else
      var v := FindVictim(order, bufs);
      if v < 0 then None
      else
        var b := order[v];
        Some((b, bufs[b := Buf(dev, blockno, false, false, 1, bufs[b].data)]))
  }

  /** What bget may do with the buffers: add a reference to one that holds the block, or give a
      recyclable one to the block when none does. */
  predicate Hands(bufs: seq<Buf>, dev: nat, blockno: nat, b: nat, cufs: seq<Buf>) {
    && b < |bufs| == |cufs| && cufs == bufs[b := cufs[b]]
    && if Holds(bufs[b], dev, blockno) then cufs[b] == bufs[b].(refcnt := bufs[b].refcnt + 1)
       else && Recyclable(bufs[b]) && (forall i :: 0 <= i < |bufs| ==> !Holds(bufs[i], dev, blockno))
            && Holds(cufs[b], dev, blockno) && cufs[b].refcnt == 1 && !cufs[b].valid && !cufs[b].dirty
  }

  /** Neither can be done: the block is not cached, and every buffer is in use or dirty. */
  predicate NoBuffers(bufs: seq<Buf>, dev: nat, blockno: nat) {
    forall i :: 0 <= i < |bufs| ==> !Holds(bufs[i], dev, blockno) && !Recyclable(bufs[i])
  }

  predicate Covers(order: seq<nat>, n: nat) {
    (forall i :: 0 <= i < |order| ==> order[i] < n) && forall b :: 0 <= b < n ==> b in order
  }

  lemma {:induction false} MoveCovers(order: seq<nat>, k: nat, n: nat)
    requires Covers(order, n) && k < |order|
    ensures Covers(MoveToFront(order, k), n)
  {
    var r := MoveToFront(order, k);
    forall b | 0 <= b < n ensures b in r {
      assert b in order;
      var i :| 0 <= i < |order| && order[i] == b;
      assert r[if i == k then 0 else if i < k then i + 1 else i] == b;
    }
  }

  /** bget panics exactly when there is no such buffer, and otherwise hands one out. */
  lemma {:induction false} GetExactly(order: seq<nat>, bufs: seq<Buf>, dev: nat, blockno: nat)
    requires Covers(order, |bufs|)
    ensures var r := GetBuf(order, bufs, dev, blockno);
      (r.None? <==> NoBuffers(bufs, dev, blockno)) && (r.Some? ==> Hands(bufs, dev, blockno, r.value.0, r.value.1))
  {
    var k, v := FindCached(order, bufs, dev, blockno), FindVictim(order, bufs);
    forall b | 0 <= b < |bufs|
      ensures (k == |order| ==> !Holds(bufs[b], dev, blockno)) && (v < 0 ==> !Recyclable(bufs[b])) {
      assert b in order;
    }
  }

  /** Among the recyclable buffers b was released longest ago. */
  ghost predicate ReleasedFirst(order: seq<nat>, bufs: seq<Buf>, b: nat) {
    forall stamp, clock, i :: Ring(order, stamp, clock) && 0 <= i < NBUF == |bufs| && Recyclable(bufs[i]) ==>
      b < NBUF && stamp[b] <= stamp[i]
  }

  /** A block that is not cached gets that one. */
  lemma {:induction false} OldestRecycled(order: seq<nat>, bufs: seq<Buf>, dev: nat, blockno: nat)
    requires forall i :: 0 <= i < |order| ==> order[i] < |bufs|
    requires forall i :: 0 <= i < |bufs| ==> !Holds(bufs[i], dev, blockno)
    ensures var r := GetBuf(order, bufs, dev, blockno); r.Some? ==> ReleasedFirst(order, bufs, r.value.0)
  {
    var v := FindVictim(order, bufs);
    if v >= 0 {
      forall stamp, clock, b | Ring(order, stamp, clock) && 0 <= b < NBUF == |bufs| && Recyclable(bufs[b])
        ensures stamp[order[v]] <= stamp[b] {
        assert b in order;
      }
    }
  }

  predicate HoldsLock(p: Phase) {
    p.Locked? || p.Using?
  }

  predicate Shape(s: Cache) {
    && |s.order| == |s.bufs| == |s.stamp| == NBUF && |s.latest| == |s.disk|
    && (forall i :: 0 <= i < NBUF ==> s.order[i] < NBUF)
    && (forall h :: h in s.refs ==> s.refs[h].buf < NBUF)
  }

  /** The disk driver's panics (iderw: not disk 1, block out of range). */
  predicate OnDisk(s: Cache, b: Buf) {
    b.dev == 1 && b.blockno < |s.disk|
  }

  predicate Enabled(s: Cache, e: Event)
    requires Shape(s)
  {
    match e
    case Get(h, dev, bn) => h !in s.refs && GetBuf(s.order, s.bufs, dev, bn).Some?
    case Acquire(h) =>
      h in s.refs && s.refs[h].phase.Waiting? &&
      forall g :: g in s.refs && s.refs[g].buf == s.refs[h].buf ==> !HoldsLock(s.refs[g].phase)
    case Fill(h) =>
      h in s.refs && s.refs[h].phase.Locked? &&
      (s.bufs[s.refs[h].buf].valid || OnDisk(s, s.bufs[s.refs[h].buf]))
    case Modify(h, _) => h in s.refs && s.refs[h].phase.Using?
    case Bwrite(h) => h in s.refs && s.refs[h].phase.Using? && OnDisk(s, s.bufs[s.refs[h].buf])
    case LogWrite(h) => h in s.refs && s.refs[h].phase.Using? && OnDisk(s, s.bufs[s.refs[h].buf])
    case Unlock(h) => h in s.refs && s.refs[h].phase == Using(false)
    case Drop(h) =>
      h in s.refs && s.refs[h].phase.Unlocked? && s.refs[h].buf in s.order && s.bufs[s.refs[h].buf].refcnt > 0
  }

  function SetPhase(s: Cache, h: nat, p: Phase): Cache
    requires h in s.refs
  {
    s.(refs := s.refs[h := s.refs[h].(phase := p)])
  }

  function SetBuf(s: Cache, i: nat, b: Buf): Cache
    requires i < |s.bufs|
  {
    s.(bufs := s.bufs[i := b])
  }

  function Next(s: Cache, e: Event): Cache
    requires Shape(s) && Enabled(s, e)
  {
    match e
    case Get(h, dev, bn) =>
      var (i, bufs) := GetBuf(s.order, s.bufs, dev, bn).value;
      s.(bufs := bufs, refs := s.refs[h := Ref(i, dev, bn, Waiting)])
    case Acquire(h) => SetPhase(s, h, Locked)
    case Fill(h) =>
      var i := s.refs[h].buf;
      var b := s.bufs[i];
      SetPhase(if b.valid then s else SetBuf(s, i, b.(data := s.disk[b.blockno], valid := true)), h, Using(false))
    case Modify(h, data) =>
      var i := s.refs[h].buf;
      SetPhase(SetBuf(s, i, s.bufs[i].(data := data)), h, Using(true))
    case Bwrite(h) =>
      var i := s.refs[h].buf;
      var b := s.bufs[i];
      SetPhase(SetBuf(s, i, b.(dirty := false, valid := true)), h, Using(false))
      .(disk := s.disk[b.blockno := b.data], latest := s.latest[b.blockno := b.data])
    case LogWrite(h) =>
      var i := s.refs[h].buf;
      var b := s.bufs[i];
      SetPhase(SetBuf(s, i, b.(dirty := true)), h, Using(false)).(latest := s.latest[b.blockno := b.data])
    case Unlock(h) => SetPhase(s, h, Unlocked)
    case Drop(h) =>
      var i := s.refs[h].buf;
      var b := s.bufs[i].(refcnt := s.bufs[i].refcnt - 1);
      var t := SetBuf(s, i, b).(refs := s.refs - {h});
      if b.refcnt > 0 then t
      else t.(order := MoveToFront(s.order, PosOf(s.order, i)), stamp := s.stamp[i := s.clock], clock := s.clock + 1)
  }

  /** binit(): every buffer is device 0, block 0, and each insertion goes to the front. */
  predicate Init(s: Cache) {
    && s.order == seq(NBUF, i => NBUF - 1 - i)
    && |s.bufs| == NBUF && s.refs == map[] && s.latest == s.disk
    && (forall i :: 0 <= i < NBUF ==> var b := s.bufs[i];
          b.dev == 0 && b.blockno == 0 && !b.valid && !b.dirty && b.refcnt == 0)
    && s.stamp == seq(NBUF, i => i) && s.clock == NBUF
  }

  // ---------- the invariant ----------

  /** The list holds every buffer once, most recently released first. */
  predicate Ring(order: seq<nat>, stamp: seq<int>, clock: int) {
    && |order| == |stamp| == NBUF
    && (forall i :: 0 <= i < NBUF ==> order[i] < NBUF)
    && (forall i :: 0 <= i < NBUF ==> i in order)
    && (forall i, j :: 0 <= i < j < NBUF ==> order[i] != order[j])
    && (forall i, j :: 0 <= i < j < NBUF ==> stamp[order[i]] > stamp[order[j]])
    && (forall i :: 0 <= i < NBUF ==> stamp[i] < clock)
  }

  function On(refs: map<nat, Ref>, i: nat): set<nat> {
    set h | h in refs && refs[h].buf == i
  }

  predicate Counts(bufs: seq<Buf>, refs: map<nat, Ref>) {
    forall i :: 0 <= i < |bufs| ==> bufs[i].refcnt == |On(refs, i)|
  }

  /** Every client's buffer holds the block it asked for, whatever phase the client is in. */
  predicate Identities(bufs: seq<Buf>, refs: map<nat, Ref>) {
    forall h :: h in refs ==> refs[h].buf < |bufs| && Holds(bufs[refs[h].buf], refs[h].dev, refs[h].blockno)
  }

  predicate Unique(bufs: seq<Buf>) {
    forall i, j :: 0 <= i < j < |bufs| && bufs[i].dev != 0 ==> !Holds(bufs[j], bufs[i].dev, bufs[i].blockno)
  }

  predicate Exclusive(refs: map<nat, Ref>) {
    forall g, h :: g in refs && h in refs && g != h && refs[g].buf == refs[h].buf ==>
      !(HoldsLock(refs[g].phase) && HoldsLock(refs[h].phase))
  }

  predicate Touched(refs: map<nat, Ref>, i: nat) {
    exists h :: h in refs && refs[h].buf == i && refs[h].phase == Using(true)
  }

  predicate BufOk(bufs: seq<Buf>, refs: map<nat, Ref>, latest: seq<Block>, i: nat)
    requires i < |bufs|
  {
    var b := bufs[i];
    && (b.dirty ==> b.valid)
    && (b.valid ==> b.dev == 1 && b.blockno < |latest| && (Touched(refs, i) || b.data == latest[b.blockno]))
  }

  /** Cached data is the last data written. */
  predicate Cached(bufs: seq<Buf>, refs: map<nat, Ref>, latest: seq<Block>) {
    && (forall i :: 0 <= i < |bufs| ==> BufOk(bufs, refs, latest, i))
    && (forall h :: h in refs && refs[h].phase.Using? ==> refs[h].buf < |bufs| && bufs[refs[h].buf].valid)
  }

  predicate Dirty(bufs: seq<Buf>, bn: nat) {
    exists i :: 0 <= i < |bufs| && bufs[i].dirty && Holds(bufs[i], 1, bn)
  }

  /** The disk differs from the last data written only where a dirty buffer is pinned. */
  predicate OnlyDirtyDiffers(bufs: seq<Buf>, disk: seq<Block>, latest: seq<Block>) {
    |disk| == |latest| && forall bn :: 0 <= bn < |disk| ==> disk[bn] == latest[bn] || Dirty(bufs, bn)
  }

  predicate Inv(s: Cache) {
    && Shape(s) && Ring(s.order, s.stamp, s.clock) && Counts(s.bufs, s.refs) && Identities(s.bufs, s.refs)
    && Unique(s.bufs) && Exclusive(s.refs) && Cached(s.bufs, s.refs, s.latest)
    && OnlyDirtyDiffers(s.bufs, s.disk, s.latest)
  }

  // ---------- every step keeps the invariant ----------

  lemma {:induction false} InitInv(s: Cache)
    requires Init(s)
    ensures Inv(s)
  {
    forall i | 0 <= i < NBUF ensures i in s.order {
      assert s.order[NBUF - 1 - i] == i;
    }
    forall i | 0 <= i < NBUF ensures |On(s.refs, i)| == 0 {
      assert On(s.refs, i) == {};
    }
  }

  lemma {:induction false} OnAdd(refs: map<nat, Ref>, h: nat, r: Ref, i: nat)
    requires h !in refs
    ensures |On(refs[h := r], i)| == |On(refs, i)| + if i == r.buf then 1 else 0
  {
    assert On(refs[h := r], i) == if i == r.buf then On(refs, i) + {h} else On(refs, i);
  }

  lemma {:induction false} OnRemove(refs: map<nat, Ref>, h: nat, i: nat)
    requires h in refs
    ensures |On(refs - {h}, i)| == |On(refs, i)| - if i == refs[h].buf then 1 else 0
  {
    assert On(refs - {h}, i) == On(refs, i) - {h};
  }

  /** Counting ignores phases. */
  lemma {:induction false} CountsPhase(bufs: seq<Buf>, refs: map<nat, Ref>, h: nat, p: Phase)
    requires Counts(bufs, refs) && h in refs
    ensures Counts(bufs, refs[h := refs[h].(phase := p)])
  {
    forall i: nat | i < |bufs| ensures On(refs[h := refs[h].(phase := p)], i) == On(refs, i) {
    }
  }

  lemma {:induction false} TouchedKept(refs: map<nat, Ref>, h: nat, r: Ref, i: nat)
    requires h in refs ==> refs[h].phase != Using(true) || r == refs[h] || refs[h].buf != i
    requires r.phase != Using(true) || (h in refs && r == refs[h]) || r.buf != i
    ensures Touched(refs[h := r], i) == Touched(refs, i)
  {
    if Touched(refs, i) {
      var g :| g in refs && refs[g].buf == i && refs[g].phase == Using(true);
      assert refs[h := r][g] == refs[g];
    }
  }

  /** Steps that only move one client to another phase. */
  lemma {:induction false} PhaseInv(s: Cache, h: nat, p: Phase)
    requires Inv(s) && h in s.refs && s.refs[h].phase != Using(true) && p != Using(true)
    requires HoldsLock(p) ==> forall g :: g in s.refs && g != h && s.refs[g].buf == s.refs[h].buf ==>
      !HoldsLock(s.refs[g].phase)
    requires p.Using? ==> s.bufs[s.refs[h].buf].valid
    ensures Inv(SetPhase(s, h, p))
  {
    var r := s.refs[h].(phase := p);
    var refs := s.refs[h := r];
    CountsPhase(s.bufs, s.refs, h, p);
    forall i: nat | i < NBUF ensures BufOk(s.bufs, refs, s.latest, i) {
      assert BufOk(s.bufs, s.refs, s.latest, i);
      TouchedKept(s.refs, h, r, i);
    }
  }

  lemma {:induction false} GetHitInv(s: Cache, h: nat, dev: nat, bn: nat)
    requires Inv(s) && h !in s.refs && FindCached(s.order, s.bufs, dev, bn) < |s.order|
    ensures Inv(Next(s, Get(h, dev, bn)))
  {
    hide Ring, OnlyDirtyDiffers;
    var t := Next(s, Get(h, dev, bn));
    CountsAdd(s, h, t);
    RefcntOnly(s.bufs, t.bufs, s.disk, s.latest);
    CachedAdd(s, h, t, t.refs[h].buf);
  }

  lemma {:induction false} CountsAdd(s: Cache, h: nat, t: Cache)
    requires Shape(s) && Counts(s.bufs, s.refs) && h !in s.refs && |t.bufs| == NBUF
    requires h in t.refs && t.refs == s.refs[h := t.refs[h]]
    requires forall i: nat :: i < NBUF ==> t.bufs[i].refcnt == s.bufs[i].refcnt + if i == t.refs[h].buf then 1 else 0
    ensures Counts(t.bufs, t.refs)
  {
    forall i: nat | i < NBUF ensures t.bufs[i].refcnt == |On(t.refs, i)| {
      OnAdd(s.refs, h, t.refs[h], i);
    }
  }

  /** Reference counts do not matter to the data. */
  lemma {:induction false} RefcntOnly(bufs: seq<Buf>, cufs: seq<Buf>, disk: seq<Block>, latest: seq<Block>)
    requires |bufs| == |cufs| && OnlyDirtyDiffers(bufs, disk, latest)
    requires forall j :: 0 <= j < |bufs| && bufs[j].dirty ==>
      cufs[j].dirty && Holds(cufs[j], bufs[j].dev, bufs[j].blockno)
    ensures OnlyDirtyDiffers(cufs, disk, latest)
  {
  }

  /** A new client waits; the data of valid buffers is untouched. */
  lemma {:induction false} CachedAdd(s: Cache, h: nat, t: Cache, i: nat)
    requires Shape(s) && Cached(s.bufs, s.refs, s.latest) && h !in s.refs && |t.bufs| == NBUF && t.latest == s.latest &&
      i < NBUF
    requires h in t.refs && t.refs == s.refs[h := t.refs[h]] && t.refs[h].phase.Waiting?
    requires forall j :: 0 <= j < NBUF && j != i ==> t.bufs[j] == s.bufs[j]
    requires t.bufs[i].(refcnt := 0) == s.bufs[i].(refcnt := 0) ||
      (!t.bufs[i].dirty && !t.bufs[i].valid && On(s.refs, i) == {})
    ensures Cached(t.bufs, t.refs, t.latest)
  {
    forall j: nat | j < NBUF ensures BufOk(t.bufs, t.refs, t.latest, j) {
      assert BufOk(s.bufs, s.refs, s.latest, j);
      TouchedKept(s.refs, h, t.refs[h], j);
    }
    forall g | g in t.refs && t.refs[g].phase.Using? ensures t.refs[g].buf < NBUF && t.bufs[t.refs[g].buf].valid {
      assert g in s.refs && s.refs[g] == t.refs[g];
      assert s.refs[g].buf == i ==> g in On(s.refs, i);
    }
  }

  lemma {:induction false} GetMissInv(s: Cache, h: nat, dev: nat, bn: nat)
    requires Inv(s) && Enabled(s, Get(h, dev, bn)) && FindCached(s.order, s.bufs, dev, bn) == |s.order|
    ensures Inv(Next(s, Get(h, dev, bn)))
  {
    var t := Next(s, Get(h, dev, bn));
    var i := t.refs[h].buf;
    NoRefs(s, i);
    CountsAdd(s, h, t);
    NotCached(s, dev, bn);
    RefcntOnly(s.bufs, t.bufs, s.disk, s.latest);
    CachedAdd(s, h, t, i);
  }

  lemma {:induction false} NotCached(s: Cache, dev: nat, bn: nat)
    requires Shape(s) && Ring(s.order, s.stamp, s.clock) && FindCached(s.order, s.bufs, dev, bn) == |s.order|
    ensures forall j :: 0 <= j < NBUF ==> !Holds(s.bufs[j], dev, bn)
  {
    forall j | 0 <= j < NBUF ensures !Holds(s.bufs[j], dev, bn) {
      assert s.order[PosOf(s.order, j)] == j;
    }
  }

  lemma {:induction false} NoRefs(s: Cache, i: nat)
    requires Shape(s) && Counts(s.bufs, s.refs) && i < NBUF && s.bufs[i].refcnt == 0
    ensures On(s.refs, i) == {} && forall h :: h in s.refs ==> s.refs[h].buf != i
  {
    assert forall h :: h in s.refs && s.refs[h].buf == i ==> h in On(s.refs, i);
  }

  lemma {:induction false} FillInv(s: Cache, h: nat)
    requires Inv(s) && Enabled(s, Fill(h))
    ensures Inv(Next(s, Fill(h)))
  {
    var i := s.refs[h].buf;
    var b := s.bufs[i];
    assert BufOk(s.bufs, s.refs, s.latest, i);
    if b.valid {
      PhaseInv(s, h, Using(false));
    } else {
      var t := SetBuf(s, i, b.(data := s.disk[b.blockno], valid := true));
      NotDirty(s, i);
      forall j: nat | j < NBUF ensures BufOk(t.bufs, t.refs, t.latest, j) {
        assert BufOk(s.bufs, s.refs, s.latest, j);
      }
      RefcntOnly(s.bufs, t.bufs, s.disk, s.latest);
      PhaseInv(t, h, Using(false));
    }
  }

  /** A block whose only buffer is clean is the same on disk as when it was last written. */
  lemma {:induction false} NotDirty(s: Cache, i: nat)
    requires Inv(s) && i < NBUF && OnDisk(s, s.bufs[i]) && !s.bufs[i].dirty
    ensures s.disk[s.bufs[i].blockno] == s.latest[s.bufs[i].blockno]
  {
  }

  /** What a client using its buffer cannot disturb, whatever it does to data and flags. */
  lemma {:induction false} HolderInv(s: Cache, h: nat, t: Cache)
    requires Inv(s) && h in s.refs && s.refs[h].phase.Using?
    requires h in t.refs && t.refs[h].phase.Using? && t.refs == s.refs[h := s.refs[h].(phase := t.refs[h].phase)]
    requires |t.bufs| == NBUF && t.bufs == s.bufs[s.refs[h].buf := t.bufs[s.refs[h].buf]]
    requires var b, c := s.bufs[s.refs[h].buf], t.bufs[s.refs[h].buf];
      Holds(c, b.dev, b.blockno) && c.refcnt == b.refcnt
    ensures Counts(t.bufs, t.refs) && Identities(t.bufs, t.refs) && Unique(t.bufs) && Exclusive(t.refs)
  {
    CountsPhase(s.bufs, s.refs, h, t.refs[h].phase);
  }

  lemma {:induction false} ModifyInv(s: Cache, h: nat, data: Block)
    requires Inv(s) && Enabled(s, Modify(h, data))
    ensures Inv(Next(s, Modify(h, data)))
  {
    var t := Next(s, Modify(h, data));
    HolderInv(s, h, t);
    assert t.refs[h].phase == Using(true) && Touched(t.refs, s.refs[h].buf);
    forall j: nat | j < NBUF ensures BufOk(t.bufs, t.refs, t.latest, j) {
      assert BufOk(s.bufs, s.refs, s.latest, j);
      if j != s.refs[h].buf { TouchedKept(s.refs, h, t.refs[h], j); }
    }
    RefcntOnly(s.bufs, t.bufs, s.disk, s.latest);
  }

  /** bwrite and log_write: the buffer's data becomes the latest of its block. */
  lemma {:induction false} WriteInv(s: Cache, e: Event, h: nat, t: Cache)
    requires Inv(s) && (e == Bwrite(h) || e == LogWrite(h)) && Enabled(s, e) && t == Next(s, e)
    ensures Inv(t)
  {
    var i := s.refs[h].buf;
    HolderInv(s, h, t);
    forall j: nat | j < NBUF ensures BufOk(t.bufs, t.refs, t.latest, j) {
      WriteBufOk(s, h, j, t);
    }
    forall bn: nat | bn < |s.disk| ensures t.disk[bn] == t.latest[bn] || Dirty(t.bufs, bn) {
      if bn == s.bufs[i].blockno {
        assert Holds(t.bufs[i], 1, bn);
      } else if Dirty(s.bufs, bn) {
        var j :| 0 <= j < |s.bufs| && s.bufs[j].dirty && Holds(s.bufs[j], 1, bn);
        assert t.bufs[j].dirty && Holds(t.bufs[j], 1, bn);
      }
    }
  }

  lemma {:induction false} WriteBufOk(s: Cache, h: nat, j: nat, t: Cache)
    requires Inv(s) && h in s.refs && s.refs[h].phase.Using? && OnDisk(s, s.bufs[s.refs[h].buf]) && j < NBUF
    requires t.refs == s.refs[h := s.refs[h].(phase := Using(false))]
    requires var i := s.refs[h].buf;
      && t.latest == s.latest[s.bufs[i].blockno := s.bufs[i].data]
      && |t.bufs| == NBUF && t.bufs == s.bufs[i := t.bufs[i]]
      && t.bufs[i].data == s.bufs[i].data && Holds(t.bufs[i], 1, s.bufs[i].blockno) && t.bufs[i].valid
    ensures BufOk(t.bufs, t.refs, t.latest, j)
  {
    assert BufOk(s.bufs, s.refs, s.latest, j);
    if j != s.refs[h].buf {
      TouchedKept(s.refs, h, t.refs[h], j);
      assert s.bufs[j].valid ==> s.bufs[j].blockno != s.bufs[s.refs[h].buf].blockno;
    }
  }

  lemma {:induction false} DropInv(s: Cache, h: nat)
    requires Inv(s) && Enabled(s, Drop(h))
    ensures Inv(Next(s, Drop(h)))
  {
    var i, t := s.refs[h].buf, Next(s, Drop(h));
    CountsDrop(s, h, t.bufs);
    RefcntOnly(s.bufs, t.bufs, s.disk, s.latest);
    CachedDrop(s, h, t.bufs);
    SameBlocks(s, h, t.bufs);
    if s.bufs[i].refcnt == 1 {
      RingMove(s.order, s.stamp, s.clock, PosOf(s.order, i));
    }
  }

  lemma {:induction false} CountsDrop(s: Cache, h: nat, bufs: seq<Buf>)
    requires Shape(s) && Counts(s.bufs, s.refs) && h in s.refs && |bufs| == NBUF
    requires forall i: nat :: i < NBUF ==> bufs[i].refcnt == s.bufs[i].refcnt - if i == s.refs[h].buf then 1 else 0
    ensures Counts(bufs, s.refs - {h})
  {
    forall i: nat | i < NBUF ensures bufs[i].refcnt == |On(s.refs - {h}, i)| {
      OnRemove(s.refs, h, i);
    }
  }

  lemma {:induction false} SameBlocks(s: Cache, h: nat, bufs: seq<Buf>)
    requires Shape(s) && Identities(s.bufs, s.refs) && Unique(s.bufs) && Exclusive(s.refs) && |bufs| == NBUF
    requires forall i :: 0 <= i < NBUF ==> Holds(bufs[i], s.bufs[i].dev, s.bufs[i].blockno)
    ensures Identities(bufs, s.refs - {h}) && Unique(bufs) && Exclusive(s.refs - {h})
  {
  }

  lemma {:induction false} CachedDrop(s: Cache, h: nat, bufs: seq<Buf>)
    requires Shape(s) && Cached(s.bufs, s.refs, s.latest) && h in s.refs && s.refs[h].phase.Unlocked? && |bufs| == NBUF
    requires forall i :: 0 <= i < NBUF ==> bufs[i].(refcnt := 0) == s.bufs[i].(refcnt := 0)
    ensures Cached(bufs, s.refs - {h}, s.latest)
  {
    var refs := s.refs - {h};
    forall j: nat | j < NBUF ensures BufOk(bufs, refs, s.latest, j) {
      assert BufOk(s.bufs, s.refs, s.latest, j);
      if Touched(s.refs, j) {
        var g :| g in s.refs && s.refs[g].buf == j && s.refs[g].phase == Using(true);
        assert refs[g] == s.refs[g];
      }
    }
  }

  lemma {:induction false} RingMove(order: seq<nat>, stamp: seq<int>, clock: int, k: nat)
    requires Ring(order, stamp, clock) && k < NBUF
    ensures Ring(MoveToFront(order, k), stamp[order[k] := clock], clock + 1)
  {
    var moved := MoveToFront(order, k);
    forall j | 0 <= j < NBUF ensures j in moved {
      var p := PosOf(order, j);
      assert moved[if p < k then p + 1 else if p == k then 0 else p] == j;
    }
  }

  lemma {:induction false} StepInv(s: Cache, e: Event)
    requires Inv(s) && Enabled(s, e)
    ensures Inv(Next(s, e))
  {
    match e
    case Get(h, dev, bn) =>
      if FindCached(s.order, s.bufs, dev, bn) < |s.order| { GetHitInv(s, h, dev, bn); }
        else { GetMissInv(s, h, dev, bn); }
    case Acquire(h) => PhaseInv(s, h, Locked);
    case Fill(h) => FillInv(s, h);
    case Modify(h, data) => ModifyInv(s, h, data);
    case Bwrite(h) => WriteInv(s, e, h, Next(s, e));
    case LogWrite(h) => WriteInv(s, e, h, Next(s, e));
    case Unlock(h) => PhaseInv(s, h, Unlocked);
    case Drop(h) => DropInv(s, h);
  }

  // ---------- whole runs ----------

  /** es takes s to t, every step enabled where it happens. */
  ghost predicate Run(s: Cache, es: seq<Event>, t: Cache)
    decreases |es|
  {
    Shape(s) &&
    if es == [] then t == s else Enabled(s, es[0]) && Run(Next(s, es[0]), es[1..], t)
  }

  lemma {:induction false} RunInv(s: Cache, es: seq<Event>, t: Cache)
    requires Inv(s) && Run(s, es, t)
    ensures Inv(t)
    decreases |es|
  {
    if es != [] {
      StepInv(s, es[0]);
      RunInv(Next(s, es[0]), es[1..], t);
    }
  }

  /** bread returns the data last written to its block, in every interleaving since boot: a client
      that has bread a block and not changed it sees what the last bwrite or log_write of it left. */
  lemma {:induction false} BreadReturnsLatest(s: Cache, es: seq<Event>, t: Cache, h: nat)
    requires Init(s) && Run(s, es, t)
    requires h in t.refs && t.refs[h].phase == Using(false)
    ensures Inv(t)
    ensures var r := t.refs[h]; r.dev == 1 && r.blockno < |t.latest| && t.bufs[r.buf].data == t.latest[r.blockno]
  {
    InitInv(s);
    RunInv(s, es, t);
    assert BufOk(t.bufs, t.refs, t.latest, t.refs[h].buf);
  }

  lemma {:induction false} RefKept(s: Cache, e: Event, h: nat)
    requires Shape(s) && Enabled(s, e) && h in s.refs && e != Drop(h)
    ensures h in Next(s, e).refs && Next(s, e).refs[h].(phase := Waiting) == s.refs[h].(phase := Waiting)
  {
  }

  /** A client's buffer keeps its block from bget's critical section to brelse's, so also between
      bget's unlock and its sleep-lock. */
  lemma {:induction false} IdentityStable(s: Cache, es: seq<Event>, t: Cache, h: nat)
    requires Inv(s) && Run(s, es, t) && h in s.refs && Drop(h) !in es
    ensures Inv(t) && h in t.refs && t.refs[h].(phase := Waiting) == s.refs[h].(phase := Waiting)
    ensures Holds(t.bufs[s.refs[h].buf], s.refs[h].dev, s.refs[h].blockno) && t.bufs[s.refs[h].buf].refcnt > 0
    decreases |es|
  {
    if es == [] {
      assert h in On(s.refs, s.refs[h].buf);
    } else {
      StepInv(s, es[0]);
      RefKept(s, es[0], h);
      assert forall e :: e in es[1..] ==> e in es;
      IdentityStable(Next(s, es[0]), es[1..], t, h);
    }
  }

  /** No bwrite of device 1's block bn happens in the run. */
  ghost predicate NeverInstalled(s: Cache, es: seq<Event>, bn: nat)
    requires Shape(s)
    decreases |es|
  {
    es == [] || (
      && (es[0].Bwrite? && es[0].h in s.refs ==> s.refs[es[0].h].blockno != bn)
      && (Enabled(s, es[0]) && Shape(Next(s, es[0])) ==> NeverInstalled(Next(s, es[0]), es[1..], bn)))
  }

  lemma {:induction false} DirtyStep(s: Cache, e: Event, bn: nat)
    requires Inv(s) && Enabled(s, e) && Dirty(s.bufs, bn)
    requires e.Bwrite? ==> s.refs[e.h].blockno != bn
    ensures Dirty(Next(s, e).bufs, bn)
  {
    hide Ring, OnlyDirtyDiffers, Exclusive, Unique, MoveToFront, PosOf;
    var i :| 0 <= i < |s.bufs| && s.bufs[i].dirty && Holds(s.bufs[i], 1, bn);
    var t := Next(s, e);
    assert t.bufs[i].dirty && Holds(t.bufs[i], 1, bn);
  }

  /** A block marked by log_write keeps its buffer until commit installs it with bwrite, whatever
      else happens; so write_log finds the newest contents in the cache. */
  lemma {:induction false} PinnedUntilInstalled(s: Cache, es: seq<Event>, t: Cache, bn: nat)
    requires Inv(s) && Run(s, es, t) && Dirty(s.bufs, bn) && NeverInstalled(s, es, bn)
    ensures Inv(t) && Dirty(t.bufs, bn)
    ensures forall i :: 0 <= i < NBUF && t.bufs[i].dirty && Holds(t.bufs[i], 1, bn) && !Touched(t.refs, i) ==>
      bn < |t.latest| && t.bufs[i].data == t.latest[bn]
    decreases |es|
  {
    if es == [] {
      forall i | 0 <= i < NBUF && t.bufs[i].dirty && Holds(t.bufs[i], 1, bn) && !Touched(t.refs, i)
        ensures bn < |t.latest| && t.bufs[i].data == t.latest[bn] {
        assert BufOk(t.bufs, t.refs, t.latest, i);
      }
    } else {
      DirtyStep(s, es[0], bn);
      StepInv(s, es[0]);
      PinnedUntilInstalled(Next(s, es[0]), es[1..], t, bn);
    }
  }

  // ---------- the cache is a block store ----------

  /** The dirty blocks with the contents last logged for them. */
  function Pinned(s: Cache): map<nat, Block>
    requires |s.latest| == |s.disk|
  {
    map bn: nat | bn < |s.disk| && Dirty(s.bufs, bn) :: s.latest[bn]
  }

  /** Readers of the store see the latest data of every block. */
  lemma {:induction false} StoreReads(s: Cache, bn: nat)
    requires Inv(s) && bn < |s.disk|
    ensures Store.Read(s.disk, Pinned(s), bn) == s.latest[bn]
  {
  }

  /** Every step of the cache is a step of the simple store that log.c is written against: bwrite
      puts the block on disk and unpins it, ... */
  lemma {:induction false} BwriteRefinesStore(s: Cache, h: nat)
    requires Inv(s) && Enabled(s, Bwrite(h))
    ensures var t, bn := Next(s, Bwrite(h)), s.refs[h].blockno;
      && bn < |s.disk| && t.disk == s.disk[bn := s.bufs[s.refs[h].buf].data]
      && |t.latest| == |t.disk| && Pinned(t) == Pinned(s) - {bn}
  {
    hide Ring, Counts, Unique, Exclusive, Cached, OnlyDirtyDiffers, Dirty;
    WriteDirty(s, Bwrite(h), h);
  }

  /** ... log_write pins it, ... */
  lemma {:induction false} LogWriteRefinesStore(s: Cache, h: nat)
    requires Inv(s) && Enabled(s, LogWrite(h))
    ensures var t, bn := Next(s, LogWrite(h)), s.refs[h].blockno;
      && t.disk == s.disk
      && |t.latest| == |t.disk| && Pinned(t) == Pinned(s)[bn := s.bufs[s.refs[h].buf].data]
  {
    WriteDirty(s, LogWrite(h), h);
  }

  /** ... and no other step is visible. */
  lemma {:induction false} OthersRefineStore(s: Cache, e: Event)
    requires Inv(s) && Enabled(s, e) && !e.Bwrite? && !e.LogWrite?
    ensures var t := Next(s, e);
      t.disk == s.disk && t.latest == s.latest && |t.latest| == |t.disk| && Pinned(t) == Pinned(s)
  {
    var t := Next(s, e);
    forall bn: nat | bn < |s.disk| ensures Dirty(t.bufs, bn) == Dirty(s.bufs, bn) {
      if Dirty(s.bufs, bn) { DirtyStep(s, e, bn); }
      NoNewDirty(s, e, bn);
    }
  }

  lemma {:induction false} NoNewDirty(s: Cache, e: Event, bn: nat)
    requires Inv(s) && Enabled(s, e) && !e.LogWrite?
    ensures Dirty(Next(s, e).bufs, bn) ==> Dirty(s.bufs, bn)
  {
    var t := Next(s, e);
    if Dirty(t.bufs, bn) {
      var i :| 0 <= i < |t.bufs| && t.bufs[i].dirty && Holds(t.bufs[i], 1, bn);
      assert s.bufs[i].dirty && Holds(s.bufs[i], 1, bn);
    }
  }

  lemma {:induction false} WriteDirty(s: Cache, e: Event, h: nat)
    requires Inv(s) && (e == Bwrite(h) || e == LogWrite(h)) && Enabled(s, e)
    ensures forall bn: nat :: bn != s.refs[h].blockno ==> Dirty(Next(s, e).bufs, bn) == Dirty(s.bufs, bn)
    ensures Dirty(Next(s, e).bufs, s.refs[h].blockno) == e.LogWrite?
  {
    var t, i := Next(s, e), s.refs[h].buf;
    forall bn: nat | bn != s.refs[h].blockno ensures Dirty(t.bufs, bn) == Dirty(s.bufs, bn) {
      assert forall j :: 0 <= j < NBUF && j != i ==> t.bufs[j] == s.bufs[j];
    }
    if Dirty(t.bufs, s.refs[h].blockno) {
      var j :| 0 <= j < |t.bufs| && t.bufs[j].dirty && Holds(t.bufs[j], 1, s.refs[h].blockno);
      assert j == i by { StepInv(s, e); }
    }
    assert Holds(t.bufs[i], 1, s.refs[h].blockno);
  }

  /** What a client puts into its buffer and writes, with bwrite or log_write, is the block's latest
      data; bwrite also puts it on the disk. */
  lemma {:induction false} WriteRecorded(s: Cache, h: nat, data: Block)
    requires Shape(s) && Enabled(s, Modify(h, data)) && OnDisk(s, s.bufs[s.refs[h].buf])
    ensures var bn, m := s.bufs[s.refs[h].buf].blockno, Next(s, Modify(h, data));
      && Shape(m) && Enabled(m, Bwrite(h)) && Enabled(m, LogWrite(h))
      && Next(m, Bwrite(h)).latest == s.latest[bn := data] && Next(m, Bwrite(h)).disk == s.disk[bn := data]
      && Next(m, LogWrite(h)).latest == s.latest[bn := data] && Next(m, LogWrite(h)).disk == s.disk
  {
  }

  /** The last brelse of a buffer makes it the most recently released one; the others stay in their
      order, and an earlier brelse moves nothing. */
  lemma {:induction false} ReleasedIsNewest(s: Cache, h: nat)
    requires Inv(s) && Enabled(s, Drop(h))
    ensures var i, t := s.refs[h].buf, Next(s, Drop(h));
      if s.bufs[i].refcnt > 1 then t.order == s.order && t.stamp == s.stamp
      else
        && t.order != [] && t.order[0] == i && |t.stamp| == NBUF
        && (forall j :: 0 <= j < NBUF && j != i ==> t.stamp[j] == s.stamp[j] < t.stamp[i])
  {
  }
}
