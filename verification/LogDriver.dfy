/** log.c itself, over the block store that the buffer cache provides: every bwrite is one
    disk write, and the methods issue exactly the write sequences of module CrashLog. */
module LogDriver {
  import opened Common
  import opened Blocks
  import opened CrashLog

  predicate AllHome(l: Layout, size: nat, bs: seq<uint32>) {
    forall i :: 0 <= i < |bs| ==> bs[i] < size && !InLog(l, bs[i])
  }

  predicate Only(pinned: map<nat, Block>, bs: seq<uint32>) {
    forall b :: b in pinned ==> b in bs
  }

  predicate PinnedExactly(bs: seq<uint32>, pinned: map<nat, Block>) {
    (forall i :: 0 <= i < |bs| ==> bs[i] in pinned) && Only(pinned, bs)
  }

  /** The blocks of the in-memory header with the contents of their pinned buffers. */
  function WritesOf(bs: seq<uint32>, pinned: map<nat, Block>): (u: seq<Write>)
    requires forall i :: 0 <= i < |bs| ==> bs[i] in pinned
    ensures |u| == |bs| && forall i :: 0 <= i < |u| ==> u[i].blockno == bs[i]
    ensures Numbers(u) == bs
  {
    seq(|bs|, i requires 0 <= i < |bs| => Write(bs[i], pinned[bs[i]]))
  }

  /** The writes install_trans() makes for header bs on disk d. */
  function Installs(l: Layout, d: Disk, bs: seq<uint32>): (ws: seq<Write>)
    requires l.start + 1 + |bs| <= |d|
    ensures |ws| == |bs|
  {
    seq(|bs|, i requires 0 <= i < |bs| => Write(bs[i], d[l.start + 1 + i]))
  }

  /** What bread() returns for block b: the cached copy if there is one, the disk otherwise. */
  function Read(d: Disk, pinned: map<nat, Block>, b: nat): Block
    requires b < |d|
  {
    if b in pinned then pinned[b] else d[b]
  }

  /** No client of the home blocks can tell the two stores apart. */
  predicate SameReads(l: Layout, d: Disk, p: map<nat, Block>, e: Disk, q: map<nat, Block>) {
    |d| == |e| && forall b: nat :: b < |d| && !InLog(l, b) ==> Read(d, p, b) == Read(e, q, b)
  }

  class Log {
    const layout: Layout
    var disk: Disk               // the blocks of the disk image
    var lh: seq<uint32>          // log.lh: the first lh.n entries of lh.block
    var pinned: map<nat, Block>  // B_DIRTY buffers: modified, not yet on disk
    ghost var trace: seq<Write>  // every disk write so far

    constructor (layout: Layout, disk: Disk)
      requires WellFormed(layout, disk) && |disk| <= 0x1_0000_0000
      ensures this.layout == layout && this.disk == disk
      ensures Valid() && lh == [] && pinned == map[] && trace == []
    {
      this.layout, this.disk := layout, disk;
      lh, pinned, trace := [], map[], [];
    }

    ghost predicate Valid()
      reads this
    {
      && 1 <= layout.size && layout.start + layout.size <= |disk| <= 0x1_0000_0000
      && |lh| <= LOGSIZE && |lh| <= layout.size - 1 && AllHome(layout, |disk|, lh)
      && Only(pinned, lh)
    }

    /** Between operations: nothing committed is waiting on disk, and the pinned buffers are
        exactly the blocks recorded in the in-memory header, each recorded once. */
    ghost predicate Open()
      reads this
    {
      && Valid() && HeaderN(disk[layout.start]) == 0 && Distinct(lh)
      && PinnedExactly(lh, pinned)
    }

    function Bread(b: nat): Block
      reads this
      requires b < |disk|
    {
      Read(disk, pinned, b)
    }

    /** bwrite(): the buffer goes to disk and is no longer dirty. */
    method Bwrite(b: nat, data: Block)
      requires b < |disk|
      modifies this`pinned, this`trace, this`disk
      ensures disk == old(disk)[b := data]
      ensures pinned == if b in old(pinned) then old(pinned) - {b} else old(pinned)
      ensures trace == old(trace) + [Write(b, data)]
    {
      disk := disk[b := data];
      pinned := pinned - {b};
      trace := trace + [Write(b, data)];
    }

    /** log_write(): record the block once and pin its buffer. False is one of the panics. */
    method LogWrite(b: uint32, data: Block, outstanding: int) returns (ok: bool)
      requires Open() && b < |disk| && !InLog(layout, b)
      modifies this`lh, this`pinned
      ensures Open()
      ensures ok <==> |old(lh)| < LOGSIZE && |old(lh)| < layout.size - 1 && outstanding >= 1
      ensures pinned == if ok then old(pinned)[b := data] else old(pinned)
      ensures lh == if ok && b !in old(lh) then old(lh) + [b] else old(lh)
      ensures forall c: nat :: c < |disk| ==> Bread(c) == if ok && c == b then data else old(Bread(c))
    {
      if |lh| >= LOGSIZE || |lh| >= layout.size - 1 || outstanding < 1 {
        return false;
      }
      var i := 0;
      while i < |lh| && lh[i] != b
        invariant 0 <= i <= |lh| && b !in lh[..i]
      {
        i := i + 1;
      }
      if i == |lh| {
        lh := lh + [b];
      }
      pinned := pinned[b := data];
      return true;
    }

    /** write_log(): copy the pinned blocks into the log. */
    method WriteLog()
      requires Open()
      modifies this`pinned, this`trace, this`disk
      ensures pinned == old(pinned)
      ensures var lw := LogWrites(layout, WritesOf(lh, pinned));
        Fits(old(disk), lw) && disk == Replay(old(disk), lw) && trace == old(trace) + lw
    {
      ghost var d, lw := disk, LogWrites(layout, WritesOf(lh, pinned));
      var tail := 0;
      while tail < |lh|
        invariant 0 <= tail <= |lh| && pinned == old(pinned) && |disk| == |d|
        invariant Fits(d, lw[..tail]) && disk == Replay(d, lw[..tail])
        invariant trace == old(trace) + lw[..tail]
      {
        var from := Bread(lh[tail]);
        assert lw[tail] == Write(layout.start + tail + 1, from) && InLog(layout, lw[tail].blockno);
        Bwrite(layout.start + tail + 1, from);
        ReplaySnoc(d, lw, tail);
        tail := tail + 1;
      }
      assert lw[..|lh|] == lw;
    }

    /** write_head(): the in-memory header to disk. */
    method WriteHead()
      requires Valid()
      modifies this`pinned, this`trace, this`disk
      ensures pinned == old(pinned)
      ensures var w := Write(layout.start, PutHeader(old(disk[layout.start]), lh));
        disk == old(disk)[w.blockno := w.data] && trace == old(trace) + [w]
    {
      assert InLog(layout, layout.start) && layout.start !in pinned;
      var hb := PutWord(Bread(layout.start), 0, |lh|);
      ghost var h := hb;
      var i := 0;
      while i < |lh|
        invariant 0 <= i <= |lh| && hb == PutEntries(h, lh[..i])
      {
        hb := PutWord(hb, i + 1, lh[i]);
        assert lh[..i + 1][..i] == lh[..i];
        i := i + 1;
      }
      assert lh[..i] == lh;
      Bwrite(layout.start, hb);
    }

    /** install_trans(): copy the log blocks to their home locations. */
    method InstallTrans()
      requires Valid()
      modifies this`pinned, this`trace, this`disk
      ensures pinned == map[]
      ensures var ws := Installs(layout, old(disk), lh);
        Fits(old(disk), ws) && disk == Replay(old(disk), ws) && trace == old(trace) + ws
    {
      ghost var d, ws := disk, Installs(layout, disk, lh);
      var tail := 0;
      while tail < |lh|
        invariant 0 <= tail <= |lh| && |disk| == |d|
        invariant Fits(d, ws[..tail]) && disk == Replay(d, ws[..tail])
        invariant trace == old(trace) + ws[..tail]
        invariant Only(pinned, lh[tail..])
      {
        LogUntouched(layout, d, ws[..tail], layout.start + tail + 1);
        var lbuf := Bread(layout.start + tail + 1);
        Bwrite(lh[tail], lbuf);
        ReplaySnoc(d, ws, tail);
        OnlyRest(lh, tail);
        tail := tail + 1;
      }
      assert ws[..|lh|] == ws;
    }

    /** The first half of commit(), up to and including the write that commits. */
    method LogAndHead()
      requires Open()
      modifies this`pinned, this`trace, this`disk
      ensures Valid() && pinned == old(pinned)
      ensures var u, h := WritesOf(lh, pinned), old(disk[layout.start]);
        var lw, w := LogWrites(layout, u), Write(layout.start, PutHeader(h, lh));
        && Fits(old(disk), lw)
        && disk == Replay(old(disk), lw)[w.blockno := w.data]
        && trace == old(trace) + lw + [w]
        && Installs(layout, disk, lh) == u
    {
      hide PutHeader, HeaderBlocks, GetWord, Replay, Installs;
      ghost var d, u := disk, WritesOf(lh, pinned);
      EmptyLogView(layout, d);
      WriteLog();
      LogHoldsPending(layout, d, u, PutHeader(d[layout.start], lh));
      WriteHead();
    }

    /** The common end of commit() and recover_from_log(): install, then erase the transaction. */
    method InstallAndClear()
      requires Valid()
      modifies this`lh, this`pinned, this`trace, this`disk
      ensures lh == [] && pinned == map[]
      ensures var ws := Installs(layout, old(disk), old(lh));
        && Fits(old(disk), ws)
        && var h := Replay(old(disk), ws)[layout.start];
           && disk == Replay(old(disk), ws)[layout.start := PutWord(h, 0, 0)]
           && trace == old(trace) + ws + [Write(layout.start, PutWord(h, 0, 0))]
    {
      InstallTrans();
      lh := [];
      WriteHead();
    }

    /** commit(): exactly the writes that CrashLog proves crash-atomic; no reader sees a change. */
    method Commit()
      requires Open()
      modifies this`lh, this`pinned, this`trace, this`disk
      ensures Open() && lh == [] && pinned == map[]
      ensures WellFormed(layout, old(disk)) && Legal(layout, old(disk), WritesOf(old(lh), old(pinned)))
      ensures var cw := CommitWrites(layout, old(disk), WritesOf(old(lh), old(pinned)));
        trace == old(trace) + cw && disk == Replay(old(disk), cw)
      ensures SameReads(layout, old(disk), old(pinned), disk, pinned)
    {
      ghost var u := WritesOf(lh, pinned);
      EmptyLogView(layout, disk);
      if |lh| > 0 {
        LogAndHead();
        InstallAndClear();
        CommitDone(layout, old(disk), old(lh), old(pinned), u, disk, old(trace), trace);
      }
    }

    /** read_head(): the on-disk header into memory. */
    method ReadHead()
      requires Valid() && pinned == map[] && WellFormed(layout, disk)
      modifies this`lh
      ensures Valid() && lh == HeaderBlocks(disk[layout.start])
    {
      var buf := Bread(layout.start);
      ghost var bs := HeaderBlocks(buf);
      lh := [];
      var i, n := 0, GetWord(buf, 0);
      while i < n
        invariant 0 <= i <= n && lh == bs[..i]
      {
        lh := lh + [GetWord(buf, i + 1)];
        i := i + 1;
      }
    }

    /** recover_from_log() at boot, on any disk a crash may have left. */
    method Recover()
      requires Valid() && pinned == map[] && WellFormed(layout, disk)
      modifies this`lh, this`pinned, this`trace, this`disk
      ensures Open() && lh == []
      ensures trace == old(trace) + RecoverWrites(layout, old(disk))
      ensures disk == Replay(old(disk), RecoverWrites(layout, old(disk)))
    {
      ghost var d := disk;
      ReadHead();
      assert Installs(layout, d, lh) == Logged(layout, d);
      InstallAndClear();
      assert InLog(layout, layout.start) && !Touches(Logged(layout, d), layout.start);
      ReplayFrame(d, Logged(layout, d), layout.start);
      ghost var rw := RecoverWrites(layout, d);
      assert rw[..|rw| - 1] == Logged(layout, d);
    }
  }

  /** The two halves of commit() put together. */
  lemma {:induction false} CommitResult(l: Layout, d: Disk, u: seq<Write>, e: Disk, t0: seq<Write>, t1: seq<Write>)
    requires WellFormed(l, d) && HeaderN(d[l.start]) == 0 && Legal(l, d, u) && u != []
    requires Fits(d, LogWrites(l, u))
    requires var h := PutHeader(d[l.start], Numbers(u));
      var d2 := Replay(Replay(d, LogWrites(l, u))[l.start := h], u);
      && e == d2[l.start := PutWord(d2[l.start], 0, 0)]
      && t1 == t0 + LogWrites(l, u) + [Write(l.start, h)] + u + [Write(l.start, PutWord(d2[l.start], 0, 0))]
    ensures e == Replay(d, CommitWrites(l, d, u)) && HeaderN(e[l.start]) == 0
    ensures t1 == t0 + CommitWrites(l, d, u)
  {
    CommitInPieces(l, d, u);
    var h := PutHeader(d[l.start], Numbers(u));
    ConcatAssoc(t0, LogWrites(l, u), [Write(l.start, h)], u, [Write(l.start, PutWord(h, 0, 0))]);
  }

  lemma {:induction false} ConcatAssoc<T>(t: seq<T>, a: seq<T>, b: seq<T>, c: seq<T>, d: seq<T>)
    ensures t + a + b + c + d == t + (a + b + c + d)
  {
  }

  lemma {:induction false} LogUntouched(l: Layout, d: Disk, ws: seq<Write>, b: nat)
    requires Fits(d, ws) && b < |d| && InLog(l, b)
    requires forall i :: 0 <= i < |ws| ==> !InLog(l, ws[i].blockno)
    ensures Replay(d, ws)[b] == d[b]
  {
    assert !Touches(ws, b);
    ReplayFrame(d, ws, b);
  }

  lemma {:induction false} OnlyRest(bs: seq<uint32>, k: nat)
    requires k < |bs|
    ensures forall b :: b in bs[k..] ==> b == bs[k] || b in bs[k + 1..]
  {
  }

  lemma {:induction false} LogBlockAt(l: Layout, d: Disk, u: seq<Write>, i: nat)
    requires l.start + 1 + |u| <= |d| && i < |u|
    ensures Fits(d, LogWrites(l, u)) && Replay(d, LogWrites(l, u))[l.start + 1 + i] == u[i].data
  {
    ReplayDistinct(d, LogWrites(l, u), i);
  }

  /** After write_log the log blocks hold the pending contents, whatever the header says. */
  lemma {:induction false} LogHoldsPending(l: Layout, d: Disk, u: seq<Write>, h: Block)
    requires l.start + 1 + |u| <= |d| && forall i :: 0 <= i < |u| ==> u[i].blockno < 0x1_0000_0000
    ensures Fits(d, LogWrites(l, u))
    ensures var e := Replay(d, LogWrites(l, u));
      e[l.start] == d[l.start] && Installs(l, e[l.start := h], Numbers(u)) == u
  {
    var lw := LogWrites(l, u);
    assert !Touches(lw, l.start);
    ReplayFrame(d, lw, l.start);
    var ws := Installs(l, Replay(d, lw)[l.start := h], Numbers(u));
    forall i | 0 <= i < |u| ensures ws[i] == u[i] {
      LogBlockAt(l, d, u, i);
    }
  }

  /** A home block after commit: its pending contents if it was pending, else what it was. */
  lemma {:induction false} CommittedBlock(l: Layout, d: Disk, u: seq<Write>, b: nat)
    requires WellFormed(l, d) && HeaderN(d[l.start]) == 0 && Legal(l, d, u) && u != []
    requires forall j, k :: 0 <= j < k < |u| ==> u[j].blockno != u[k].blockno
    requires b < |d| && !InLog(l, b)
    ensures forall i :: 0 <= i < |u| && u[i].blockno == b ==> Replay(d, CommitWrites(l, d, u))[b] == u[i].data
    ensures !Touches(u, b) ==> Replay(d, CommitWrites(l, d, u))[b] == d[b]
  {
    CommitInPieces(l, d, u);
    assert InLog(l, l.start);
    if Touches(u, b) {
      var i :| 0 <= i < |u| && u[i].blockno == b;
      ReplayDistinct(d, u, i);
    } else {
      ReplayFrame(d, u, b);
    }
  }

  lemma {:induction false} CommittedBlocks(l: Layout, d: Disk, bs: seq<uint32>, pinned: map<nat, Block>, u: seq<Write>,
                                           e: Disk)
    requires WellFormed(l, d) && HeaderN(d[l.start]) == 0 && Legal(l, d, u) && u != []
    requires Distinct(bs) && PinnedExactly(bs, pinned) && u == WritesOf(bs, pinned)
    requires e == Replay(d, CommitWrites(l, d, u))
    ensures SameReads(l, d, pinned, e, map[])
  {
    forall b: nat | b < |d| && !InLog(l, b) ensures Read(d, pinned, b) == Read(e, map[], b) {
      CommittedBlock(l, d, u, b);
      if b in pinned {
        var i :| 0 <= i < |bs| && bs[i] == b;
        assert u[i] == Write(b, pinned[b]);
      }
    }
  }

  lemma {:induction false} CommitDone(l: Layout, d: Disk, bs: seq<uint32>, pinned: map<nat, Block>, u: seq<Write>,
                                      e: Disk,
                   t0: seq<Write>, t1: seq<Write>)
    requires WellFormed(l, d) && HeaderN(d[l.start]) == 0 && Legal(l, d, u) && u != []
    requires Distinct(bs) && PinnedExactly(bs, pinned) && u == WritesOf(bs, pinned)
    requires Fits(d, LogWrites(l, u))
    requires var h := PutHeader(d[l.start], bs);
      var d2 := Replay(Replay(d, LogWrites(l, u))[l.start := h], u);
      && e == d2[l.start := PutWord(d2[l.start], 0, 0)]
      && t1 == t0 + LogWrites(l, u) + [Write(l.start, h)] + u + [Write(l.start, PutWord(d2[l.start], 0, 0))]
    ensures e == Replay(d, CommitWrites(l, d, u)) && HeaderN(e[l.start]) == 0
    ensures t1 == t0 + CommitWrites(l, d, u)
    ensures SameReads(l, d, pinned, e, map[])
  {
    CommitResult(l, d, u, e, t0, t1);
    CommittedBlocks(l, d, bs, pinned, u, e);
  }
}
