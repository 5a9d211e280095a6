/** bio.c's doubly linked ring of buffers, linked and unlinked in place, proved to carry out the
    list operations of module BufferCache. */
module BufferRing {
  import opened Common
  import opened Blocks
  import opened BufferCache

  /** Links are indices into the buffer array; HEAD stands for bcache.head. */
  const HEAD: nat := NBUF

  predicate Members(order: seq<nat>) {
    && (forall i :: 0 <= i < |order| ==> order[i] < NBUF)
    && (forall i, j :: 0 <= i < j < |order| ==> order[i] != order[j])
  }

  function After(order: seq<nat>, i: int): nat
    requires -1 <= i < |order|
  {
    if i + 1 < |order| then order[i + 1] else HEAD
  }

  function Before(order: seq<nat>, i: int): nat
    requires 0 <= i <= |order|
  {
    if i == 0 then HEAD else order[i - 1]
  }

  /** The next links run from HEAD through order and back to HEAD, ... */
  predicate NextOk(next: seq<nat>, order: seq<nat>) {
    && |next| == NBUF + 1 && Members(order)
    && next[HEAD] == After(order, -1)
    && forall i {:trigger next[order[i]]} :: 0 <= i < |order| ==> next[order[i]] == After(order, i)
  }

  /** ... and the prev links run back the same way. */
  predicate PrevOk(prev: seq<nat>, order: seq<nat>) {
    && |prev| == NBUF + 1 && Members(order)
    && prev[HEAD] == Before(order, |order|)
    && forall i {:trigger prev[order[i]]} :: 0 <= i < |order| ==> prev[order[i]] == Before(order, i)
  }

  function Remove(order: seq<nat>, k: nat): (r: seq<nat>)
    requires k < |order|
    ensures |r| == |order| - 1
    ensures forall i :: 0 <= i < |r| ==> r[i] == order[if i < k then i else i + 1]
  {
    order[..k] + order[k + 1..]
  }

  lemma {:induction false} NextRemove(next: seq<nat>, order: seq<nat>, k: nat)
    requires NextOk(next, order) && k < |order|
    ensures NextOk(next[Before(order, k) := After(order, k)], Remove(order, k))
  {
  }

  lemma {:induction false} PrevRemove(prev: seq<nat>, order: seq<nat>, k: nat)
    requires PrevOk(prev, order) && k < |order|
    ensures PrevOk(prev[After(order, k) := Before(order, k)], Remove(order, k))
  {
  }

  lemma {:induction false} NextPush(next: seq<nat>, order: seq<nat>, b: nat)
    requires NextOk(next, order) && b < NBUF && b !in order
    ensures NextOk(next[b := next[HEAD]][HEAD := b], [b] + order)
  {
  }

  lemma {:induction false} PrevPush(prev: seq<nat>, order: seq<nat>, b: nat)
    requires PrevOk(prev, order) && b < NBUF && b !in order
    ensures PrevOk(prev[b := HEAD][After(order, -1) := b], [b] + order)
  {
  }

  class Ring {
    const bufs: array<Buf>
    const next: array<nat>
    const prev: array<nat>
    ghost var order: seq<nat>

    ghost predicate Linked()
      reads this, next, prev
    {
      next != prev && NextOk(next[..], order) && PrevOk(prev[..], order)
    }

    ghost predicate Valid()
      reads this, next, prev
    {
      Linked() && bufs.Length == NBUF && |order| == NBUF && Covers(order, NBUF)
    }

    /** binit(). */
    constructor ()
      ensures Valid() && fresh(bufs) && fresh(next) && fresh(prev)
      ensures order == seq(NBUF, i => NBUF - 1 - i)
      ensures forall i :: 0 <= i < NBUF ==> var b := bufs[i];
        b.dev == 0 && b.blockno == 0 && !b.valid && !b.dirty && b.refcnt == 0
    {
      bufs := new Buf[NBUF](i => Buf(0, 0, false, false, 0, ZeroBlock()));
      next := new nat[NBUF + 1](i => HEAD);
      prev := new nat[NBUF + 1](i => HEAD);
      order := [];
      new;
      var b := 0;
      while b < NBUF
        invariant 0 <= b <= NBUF && order == seq(b, i => b - 1 - i) && Linked()
        modifies this`order, next, prev
      {
        PushFront(b);
        b := b + 1;
      }
      forall i | 0 <= i < NBUF ensures i in order {
        assert order[NBUF - 1 - i] == i;
      }
    }

    /** The four assignments that insert b behind the head. */
    method PushFront(b: nat)
      requires Linked() && b < NBUF && b !in order
      modifies this`order, next, prev
      ensures Linked() && order == [b] + old(order)
    {
      NextPush(next[..], order, b);
      PrevPush(prev[..], order, b);
      ghost var nx: seq<nat>, pv: seq<nat> := next[..], prev[..];
      next[b] := next[HEAD];
      prev[b] := HEAD;
      prev[next[HEAD]] := b;
      next[HEAD] := b;
      assert next[..] == nx[b := nx[HEAD]][HEAD := b];
      assert prev[..] == pv[b := HEAD][After(order, -1) := b];
      order := [b] + order;
    }

    /** The two assignments that take b out of the list. */
    method Unlink(b: nat)
      requires Linked() && b < NBUF && b in order
      modifies this`order, next, prev
      ensures Linked() && order == Remove(old(order), PosOf(old(order), b))
    {
      ghost var nx: seq<nat>, pv: seq<nat>, k := next[..], prev[..], PosOf(order, b);
      NextRemove(nx, order, k);
      PrevRemove(pv, order, k);
      assert nx[order[k]] == After(order, k) && pv[order[k]] == Before(order, k);
      prev[next[b]] := prev[b];
      next[prev[b]] := next[b];
      assert next[..] == nx[Before(order, k) := After(order, k)];
      assert prev[..] == pv[After(order, k) := Before(order, k)];
      order := Remove(order, k);
    }

    /** bget's critical section; -1 is its panic.  A block that is not cached gets the recyclable
        buffer that was released longest ago. */
    method Bget(dev: nat, blockno: nat) returns (r: int)
      requires Valid()
      modifies bufs
      ensures r == -1 <==> NoBuffers(old(bufs[..]), dev, blockno)
      ensures r == -1 ==> bufs[..] == old(bufs[..])
      ensures r != -1 ==> 0 <= r && Hands(old(bufs[..]), dev, blockno, r, bufs[..])
      ensures r >= 0 && !Holds(old(bufs[r]), dev, blockno) ==> ReleasedFirst(order, old(bufs[..]), r)
      ensures match GetBuf(order, old(bufs[..]), dev, blockno)
        case None => r == -1 && bufs[..] == old(bufs[..])
        case Some(found) => r == found.0 && bufs[..] == found.1
    {
      GetExactly(order, bufs[..], dev, blockno);
      if forall i :: 0 <= i < NBUF ==> !Holds(bufs[..][i], dev, blockno) {
        OldestRecycled(order, bufs[..], dev, blockno);
      }
      var b := Cached(dev, blockno);
      if b != HEAD {
        bufs[b] := bufs[b].(refcnt := bufs[b].refcnt + 1);
        return b;
      }
      b := Victim();
      if b == HEAD {
        return -1;
      }
      bufs[b] := Buf(dev, blockno, false, false, 1, bufs[b].data);
      return b;
    }

    /** The forward scan for a buffer that already holds the block. */
    method Cached(dev: nat, blockno: nat) returns (b: nat)
      requires Valid()
      ensures var k := FindCached(order, bufs[..], dev, blockno);
        b == if k < NBUF then order[k] else HEAD
    {
      ghost var k := 0;
      b := next[HEAD];
      while b != HEAD && !(bufs[b].dev == dev && bufs[b].blockno == blockno)
        invariant 0 <= k <= NBUF && b == After(order, k - 1)
        invariant forall i :: 0 <= i < k ==> !Holds(bufs[order[i]], dev, blockno)
        decreases NBUF - k
      {
        assert next[..][order[k]] == After(order, k);
        b := next[b];
        k := k + 1;
      }
    }

    /** The backward scan for the least recently used free buffer. */
    method Victim() returns (b: nat)
      requires Valid()
      ensures var k := FindVictim(order, bufs[..]);
        b == if k >= 0 then order[k] else HEAD
    {
      ghost var k: int := NBUF;
      b := prev[HEAD];
      while b != HEAD && !(bufs[b].refcnt == 0 && !bufs[b].dirty)
        invariant 0 <= k <= NBUF && b == Before(order, k)
        invariant forall i :: k <= i < NBUF ==> !Recyclable(bufs[order[i]])
        decreases k
      {
        assert prev[..][order[k - 1]] == Before(order, k - 1);
        b := prev[b];
        k := k - 1;
      }
    }

    /** brelse's critical section. */
    method Brelse(b: nat)
      requires Valid() && b < NBUF && bufs[b].refcnt > 0 && b in order
      modifies this`order, bufs, next, prev
      ensures Valid()
      ensures bufs[..] == old(bufs[..])[b := old(bufs[b]).(refcnt := old(bufs[b]).refcnt - 1)]
      ensures order == if old(bufs[b].refcnt) == 1 then MoveToFront(old(order), PosOf(old(order), b)) else old(order)
    {
      hide Covers;
      bufs[b] := bufs[b].(refcnt := bufs[b].refcnt - 1);
      if bufs[b].refcnt == 0 {
        ghost var k := PosOf(order, b);
        MoveCovers(order, k, NBUF);
        Unlink(b);
        PushFront(b);
        assert order == MoveToFront(old(order), k);
      }
    }
  }
}
