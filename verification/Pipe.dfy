/** pipe.c: the ring buffer with its 32-bit counters, and the sleeping and waking around it. */
module Pipe {
  import opened Blocks

  const PIPESIZE := 512
  const UINT := 0x1_0000_0000

  // ---------- what one stretch between two sleeps does ----------

  datatype Outcome = Done | Failed | Sleeps

  /** How many of the bytes fit into a pipe that holds q. */
  function Fit(q: seq<byte>, bytes: seq<byte>): nat
    requires |q| <= PIPESIZE
  {
    if |bytes| <= PIPESIZE - |q| then |bytes| else PIPESIZE - |q|
  }

  /** How pipewrite's stretch ends. */
  function WriteEnds(q: seq<byte>, bytes: seq<byte>, readopen: bool, killed: bool): Outcome
    requires |q| <= PIPESIZE
  {
    if Fit(q, bytes) == |bytes| then Done else if !readopen || killed then Failed else Sleeps
  }

  /** How piperead's stretch ends. */
  function ReadEnds(q: seq<byte>, writeopen: bool, killed: bool): Outcome {
    if q == [] && writeopen then (if killed then Failed else Sleeps) else Done
  }

  function Least(n: nat, m: nat): nat { if n <= m then n else m }

  // ---------- the ring ----------

  /** The n bytes from counter r on. */
  function Ring(d: seq<byte>, r: nat, n: nat): (q: seq<byte>)
    requires |d| == PIPESIZE
    ensures |q| == n
  {
    seq(n, k requires 0 <= k => d[(r + k) % PIPESIZE])
  }

  lemma {:induction false} RingPush(d: seq<byte>, r: nat, n: nat, b: byte)
    requires |d| == PIPESIZE && n < PIPESIZE
    ensures Ring(d[(r + n) % PIPESIZE := b], r, n + 1) == Ring(d, r, n) + [b]
  {
  }

  lemma {:induction false} RingPop(d: seq<byte>, r: nat, n: nat)
    requires |d| == PIPESIZE && 0 < n
    ensures Ring(d, r, n) == [d[r % PIPESIZE]] + Ring(d, r + 1, n - 1)
  {
  }

  function Inc(n: nat): nat { (n + 1) % UINT }

  lemma {:induction false} RingInc(d: seq<byte>, r: nat, n: nat)
    requires |d| == PIPESIZE && r < UINT
    ensures Ring(d, Inc(r), n) == Ring(d, r + 1, n)
  {
  }

  /** Bytes in the pipe: nwrite - nread in 32-bit arithmetic. */
  function Len(nread: nat, nwrite: nat): nat { (nwrite - nread) % UINT }

  class Buffer {
    const data: array<byte>
    var nread: nat
    var nwrite: nat
    var readopen: bool
    var writeopen: bool
    ghost var stored: seq<byte>      // all bytes ever written into the pipe
    ghost var delivered: seq<byte>   // all bytes ever read out of it

    ghost function Queue(): seq<byte>
      requires data.Length == PIPESIZE
      reads this, data
    {
      Ring(data[..], nread, Len(nread, nwrite))
    }

    /** Delivered bytes are a prefix of the stored ones, and the rest is the ring's contents. */
    ghost predicate Valid()
      reads this, data
    {
      && data.Length == PIPESIZE && nread < UINT && nwrite < UINT && Len(nread, nwrite) <= PIPESIZE
      && stored == delivered + Queue()
    }

    /** pipealloc() */
    constructor ()
      ensures Valid() && fresh(data) && readopen && writeopen && Queue() == [] && stored == []
    {
      data := new byte[PIPESIZE](i => 0);
      nread, nwrite, readopen, writeopen := 0, 0, true, true;
      stored, delivered := [], [];
    }

    /** The store in pipewrite's loop. */
    method Put(b: byte)
      requires Valid() && Len(nread, nwrite) < PIPESIZE
      modifies this`nwrite, this`stored, data
      ensures Valid() && Queue() == old(Queue()) + [b] && stored == old(stored) + [b]
    {
      RingPush(data[..], nread, Len(nread, nwrite), b);
      LenInc(nread, nwrite);
      SlotOf(nread, nwrite);
      ghost var was := data[..];
      data[nwrite % PIPESIZE] := b;
      assert data[..] == was[nwrite % PIPESIZE := b];
      nwrite := Inc(nwrite);
      stored := stored + [b];
    }

    /** The fetch in piperead's loop. */
    method Take() returns (b: byte)
      requires Valid() && nread != nwrite
      modifies this`nread, this`delivered
      ensures Valid() && old(Queue()) == [b] + Queue() && delivered == old(delivered) + [b]
    {
      RingPop(data[..], nread, Len(nread, nwrite));
      RingInc(data[..], nread, Len(nread, nwrite) - 1);
      LenDec(nread, nwrite);
      b := data[nread % PIPESIZE];
      nread := Inc(nread);
      delivered := delivered + [b];
    }

    /** pipewrite(), from where it holds the lock with i bytes done until it returns or sleeps. */
    method Write(bytes: seq<byte>, i: nat, killed: bool) returns (j: nat, r: Outcome)
      requires Valid() && i <= |bytes|
      modifies this`nwrite, this`stored, data
      ensures Valid() && j == i + Fit(old(Queue()), bytes[i..])
      ensures r == WriteEnds(old(Queue()), bytes[i..], readopen, killed)
      ensures Queue() == old(Queue()) + bytes[i..j] && stored == old(stored) + bytes[i..j]
    {
      j := i;
      while j < |bytes|
        invariant i <= j <= |bytes| && Valid()
        invariant Queue() == old(Queue()) + bytes[i..j] && stored == old(stored) + bytes[i..j]
      {
        if nwrite == (nread + PIPESIZE) % UINT {
          FullExactly(nread, nwrite);
          if !readopen || killed {
            return j, Failed;
          }
          return j, Sleeps;
        }
        FullExactly(nread, nwrite);
        Put(bytes[j]);
        j := j + 1;
      }
      r := Done;
    }

    /** piperead(), from where it holds the lock until it returns or sleeps. */
    method Read(n: nat, killed: bool) returns (bytes: seq<byte>, r: Outcome)
      requires Valid()
      modifies this`nread, this`delivered
      ensures Valid() && r == ReadEnds(old(Queue()), writeopen, killed)
      ensures |bytes| == if r == Done then Least(n, |old(Queue())|) else 0
      ensures old(Queue()) == bytes + Queue() && delivered == old(delivered) + bytes
    {
      bytes := [];
      EmptyExactly(nread, nwrite);
      if nread == nwrite && writeopen {
        if killed {
          return bytes, Failed;
        }
        return bytes, Sleeps;
      }
      r := Done;
      while |bytes| < n
        invariant |bytes| <= n && Valid()
        invariant old(Queue()) == bytes + Queue() && delivered == old(delivered) + bytes
        decreases n - |bytes|
      {
        EmptyExactly(nread, nwrite);
        if nread == nwrite {
          break;
        }
        ghost var was := Queue();
        var b := Take();
        assert bytes + was == bytes + [b] + Queue();
        bytes := bytes + [b];
      }
    }

    /** pipeclose(); gone says that both ends are closed and the pipe is freed. */
    method Close(writable: bool) returns (gone: bool)
      requires Valid()
      modifies this`readopen, this`writeopen
      ensures Valid() && Queue() == old(Queue())
      ensures readopen == (old(readopen) && writable) && writeopen == (old(writeopen) && !writable)
      ensures gone <==> !readopen && !writeopen
    {
      if writable {
        writeopen := false;
      } else {
        readopen := false;
      }
      gone := !readopen && !writeopen;
    }
  }

  lemma {:induction false} LenInc(r: nat, w: nat)
    requires r < UINT && w < UINT && Len(r, w) < PIPESIZE
    ensures Len(r, Inc(w)) == Len(r, w) + 1
  {
  }

  lemma {:induction false} LenDec(r: nat, w: nat)
    requires r < UINT && w < UINT && r != w
    ensures Len(r, w) > 0 && Len(Inc(r), w) == Len(r, w) - 1
  {
  }

  lemma {:induction false} SlotOf(r: nat, w: nat)
    requires r < UINT && w < UINT
    ensures (r + Len(r, w)) % PIPESIZE == w % PIPESIZE
  {
  }

  /** The test for a full pipe is exact in 32-bit arithmetic. */
  lemma {:induction false} FullExactly(r: nat, w: nat)
    requires r < UINT && w < UINT && Len(r, w) <= PIPESIZE
    ensures w == (r + PIPESIZE) % UINT <==> Len(r, w) == PIPESIZE
  {
  }

  lemma {:induction false} EmptyExactly(r: nat, w: nat)
    requires r < UINT && w < UINT
    ensures r == w <==> Len(r, w) == 0
  {
  }
}
