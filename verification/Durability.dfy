/** The file system (fs.c, file.c) on the redo log (log.c): a crash anywhere in the commit of one of
    filewrite's transactions, and any number of crashes in the recoveries after it, leave every file
    as it was, or all of them as the write made them. */
module Durability {
  import opened Common
  import opened Blocks
  import opened Bitmap
  import opened CrashLog
  import opened Files
  import opened Transactions
  import FS = FileSystem

  // ---------- what a disk block holds ----------

  /** The first word of a slot of an inode block: a dinode has 64 bytes. */
  function FirstWord(slot: nat): nat { 16 * slot }

  /** The dinode in a slot of an inode block: two words of type, device and link count, the size, and
      the addresses. */
  function InodeIn(data: Block, slot: nat): (ip: Inode)
    requires slot < IPB
    ensures |ip.addrs| == NDIRECT + 1
  {
    Inode(GetWord(data, FirstWord(slot) + 2),
          seq<uint32>(NDIRECT + 1, k requires 0 <= k < NDIRECT + 1 => GetWord(data, FirstWord(slot) + 3 + k)))
  }

  /** Addresses into consecutive words. */
  function PutAddrs(data: Block, w: nat, addrs: seq<uint32>): (r: Block)
    requires w + |addrs| <= WORDS
    ensures forall k: nat :: k < |addrs| ==> GetWord(r, w + k) == addrs[k]
    ensures forall j: nat :: j < WORDS && !(w <= j < w + |addrs|) ==> GetWord(r, j) == GetWord(data, j)
    decreases |addrs|
  {
    if addrs == [] then data
    else
      var n := |addrs| - 1;
      PutWord(PutAddrs(data, w, addrs[..n]), w + n, addrs[n])
  }

  /** What iupdate makes of an inode block. */
  function PutInode(data: Block, slot: nat, ip: Inode): Block
    requires slot < IPB && |ip.addrs| == NDIRECT + 1
  {
    PutAddrs(PutWord(data, FirstWord(slot) + 2, ip.size), FirstWord(slot) + 3, ip.addrs)
  }

  lemma {:induction false} OwnSlot(data: Block, slot: nat, ip: Inode)
    requires slot < IPB && |ip.addrs| == NDIRECT + 1
    ensures InodeIn(PutInode(data, slot, ip), slot) == ip
  {
    hide GetWord, PutWord;
    var r := PutInode(data, slot, ip);
    forall k | 0 <= k < NDIRECT + 1 ensures InodeIn(r, slot).addrs[k] == ip.addrs[k] {
      assert GetWord(r, FirstWord(slot) + 3 + k) == ip.addrs[k];
    }
  }

  lemma {:induction false} OtherSlot(data: Block, slot: nat, ip: Inode, other: nat)
    requires slot < IPB && |ip.addrs| == NDIRECT + 1 && other < IPB && other != slot
    ensures InodeIn(PutInode(data, slot, ip), other) == InodeIn(data, other)
  {
    hide GetWord, PutWord;
    var r := PutInode(data, slot, ip);
    forall k | 0 <= k < NDIRECT + 1 ensures InodeIn(r, other).addrs[k] == InodeIn(data, other).addrs[k] {
      assert GetWord(r, FirstWord(other) + 3 + k) == GetWord(data, FirstWord(other) + 3 + k);
    }
  }

  /** The inode comes back, and the others of the block are as they were. */
  lemma {:induction false} InodeBack(data: Block, slot: nat, ip: Inode, other: nat)
    requires slot < IPB && |ip.addrs| == NDIRECT + 1 && other < IPB
    ensures InodeIn(PutInode(data, slot, ip), other) == if other == slot then ip else InodeIn(data, other)
  {
    hide InodeIn, PutInode;
    if other == slot {
      OwnSlot(data, slot, ip);
    } else {
      OtherSlot(data, slot, ip, other);
    }
  }

  /** Block b, with these contents, agrees with the file system s. */
  ghost predicate BlockHolds(g: Geometry, b: nat, data: Block, s: Image) {
    && (g.dataStart <= b < |s.blocks| ==> data == s.blocks[b])
    && (forall i: nat :: i < |s.dinodes| && InodeBlock(g, i) == b ==> InodeIn(data, i % IPB) == s.dinodes[i])
    && (forall k: nat :: k < |s.bitmap| && BitmapBlock(g, k) == b < g.dataStart ==>
          data[k % BSIZE] == s.bitmap[k] as int)
  }

  /** The disk holds the file system s. */
  ghost predicate Holds(g: Geometry, d: Disk, s: Image) {
    |d| == g.size && forall b: nat :: g.inodeStart <= b < g.size ==> BlockHolds(g, b, d[b], s)
  }

  /** The writes of a transaction that takes the file system to t: every logged block once. */
  ghost predicate Pending(g: Geometry, u: seq<Write>, logged: set<nat>, t: Image) {
    && (forall i, j :: 0 <= i < j < |u| ==> u[i].blockno != u[j].blockno)
    && (forall i :: 0 <= i < |u| ==> u[i].blockno in logged && BlockHolds(g, u[i].blockno, u[i].data, t))
    && (forall b: nat :: b in logged ==> Touches(u, b))
  }

  /** A block with the first n of the inodes from first on. */
  lemma {:induction false} InodesIn(data: Block, ips: seq<Inode>, first: nat, n: nat) returns (r: Block)
    requires n <= IPB && forall i :: 0 <= i < |ips| ==> |ips[i].addrs| == NDIRECT + 1
    ensures forall slot: nat :: slot < n && first + slot < |ips| ==> InodeIn(r, slot) == ips[first + slot]
  {
    hide InodeIn, PutInode;
    r := data;
    if n > 0 {
      var r1 := InodesIn(data, ips, first, n - 1);
      r := r1;
      if first + n - 1 < |ips| {
        r := PutInode(r1, n - 1, ips[first + n - 1]);
        forall slot: nat | slot < n && first + slot < |ips| ensures InodeIn(r, slot) == ips[first + slot] {
          InodeBack(r1, n - 1, ips[first + n - 1], slot);
        }
      }
    }
  }

  /** Every block can hold what the file system wants there: mkfs's areas do not overlap. */
  lemma {:induction false} BlockFor(g: Geometry, b: nat, t: Image) returns (data: Block)
    requires Placed(g, |t.dinodes|) && forall i :: 0 <= i < |t.dinodes| ==> |t.dinodes[i].addrs| == NDIRECT + 1
    ensures BlockHolds(g, b, data, t)
  {
    hide InodeIn, GetWord;
    assert forall i: nat :: i < |t.dinodes| ==> i / IPB <= |t.dinodes| / IPB;
    data := ZeroBlock();
    if g.dataStart <= b {
      if b < |t.blocks| { data := t.blocks[b]; }
    } else if g.bmapStart <= b {
      var first := (b - g.bmapStart) * BSIZE;
      data := seq(BSIZE, k requires 0 <= k =>
        if first + k < |t.bitmap| then t.bitmap[first + k] as byte else 0);
      forall k: nat | k < |t.bitmap| && BitmapBlock(g, k) == b ensures data[k % BSIZE] == t.bitmap[k] as int {
        assert first + k % BSIZE == k;
      }
    } else if g.inodeStart <= b {
      var first := (b - g.inodeStart) * IPB;
      data := InodesIn(data, t.dinodes, first, IPB);
      forall i: nat | i < |t.dinodes| && InodeBlock(g, i) == b ensures InodeIn(data, i % IPB) == t.dinodes[i] {
        assert first + i % IPB == i;
      }
    }
  }

  /** So a transaction always has its writes. */
  lemma {:induction false} WritesExist(g: Geometry, logged: set<nat>, t: Image) returns (u: seq<Write>)
    requires Placed(g, |t.dinodes|) && forall i :: 0 <= i < |t.dinodes| ==> |t.dinodes[i].addrs| == NDIRECT + 1
    ensures Pending(g, u, logged, t)
    decreases |logged|
  {
    hide BlockHolds, Placed;
    u := [];
    if logged != {} {
      var b :| b in logged;
      var v := WritesExist(g, logged - {b}, t);
      var data := BlockFor(g, b, t);
      u := v + [Write(b, data)];
      forall c: nat | c in logged ensures Touches(u, c) {
        if c != b {
          assert Touches(v, c);
          var i :| 0 <= i < |v| && v[i].blockno == c;
          assert u[i].blockno == c;
        } else {
          assert u[|v|].blockno == c;
        }
      }
    }
  }

  // ---------- a transaction ----------

  /** Writing the logged blocks is enough: what a transaction changes it has logged. */
  lemma {:induction false} TransactionHolds(g: Geometry, d: Disk, u: seq<Write>, logged: set<nat>, s: Image, t: Image)
    requires Holds(g, d, s) && OnlyLogged(g, s, t, logged) && Pending(g, u, logged, t) && Fits(d, u)
    ensures Holds(g, Replay(d, u), t)
  {
    forall b: nat | g.inodeStart <= b < g.size ensures BlockHolds(g, b, Replay(d, u)[b], t) {
      if Touches(u, b) {
        var i :| 0 <= i < |u| && u[i].blockno == b;
        ReplayDistinct(d, u, i);
      } else {
        ReplayFrame(d, u, b);
        NotLogged(g, b, d[b], logged, s, t);
      }
    }
  }

  lemma {:induction false} NotLogged(g: Geometry, b: nat, data: Block, logged: set<nat>, s: Image, t: Image)
    requires BlockHolds(g, b, data, s) && OnlyLogged(g, s, t, logged) && b !in logged
    ensures BlockHolds(g, b, data, t)
  {
  }

  /** A transaction of few blocks, behind the log, is one that the log takes. */
  lemma {:induction false} PendingLegal(l: Layout, g: Geometry, d: Disk, u: seq<Write>, logged: set<nat>, t: Image)
    requires Pending(g, u, logged, t) && |logged| <= MAXOPBLOCKS && |d| == g.size <= 0x1_0000_0000
    requires l.size == LOGSIZE && l.start + l.size <= g.inodeStart
    requires forall b: nat :: b in logged ==> g.inodeStart <= b < g.size
    ensures Legal(l, d, u)
  {
    NoMoreThan(u, logged);
  }

  lemma {:induction false} NoMoreThan(u: seq<Write>, logged: set<nat>)
    requires forall i, j :: 0 <= i < j < |u| ==> u[i].blockno != u[j].blockno
    requires forall i :: 0 <= i < |u| ==> u[i].blockno in logged
    ensures |u| <= |logged|
  {
    if u != [] {
      NoMoreThan(u[1..], logged - {u[0].blockno});
    }
  }

  // ---------- a crash in its commit ----------

  /** u is committed; or there is a crash while it is, any number of crashes in recovery, and a
      recovery. */
  predicate Settles(es: seq<Event>, u: seq<Write>) {
    || es == [Commit(u)]
    || (&& |es| >= 2 && es[0].CrashInCommit? && es[0].txn == u && es[|es| - 1] == Recover
        && forall i :: 0 < i < |es| - 1 ==> es[i].CrashInRecovery?)
  }

  /** Recovery commits nothing. */
  lemma {:induction false} Quiet(home: Disk, es: seq<Event>)
    requires forall i :: 0 <= i < |es| ==> es[i].Recover? || es[i].CrashInRecovery?
    ensures EventsWithin(|home|, es) && IdealRun(home, es) == home
    decreases |es|
  {
    if es != [] {
      Quiet(home, es[1..]);
    }
  }

  lemma {:induction false} UpAtLast(l: Layout, s: System, es: seq<Event>, t: System)
    requires Run(l, s, es, t) && es != [] && (es[|es| - 1].Recover? || es[|es| - 1].Commit?)
    ensures t.up
    decreases |es|
  {
    if |es| > 1 {
      UpAtLast(l, Next(l, s, es[0]), es[1..], t);
    }
  }

  /** Afterwards the blocks behind the log are those before the transaction, or those after it. */
  lemma {:induction false} AllOrNothing(l: Layout, d: Disk, u: seq<Write>, es: seq<Event>, e: System)
    requires Run(l, System(d, true), es, e) && Settles(es, u)
    ensures Fits(d, u) && SameHome(l, e.disk, if Committed(es[0]) then Replay(d, u) else d)
  {
    hide Replay, SameHome, HeaderBlocks, GetWord, InLog;
    var s := System(d, true);
    CrashAtomicity(l, s, es, e);
    UpAtLast(l, s, es, e);
    EmptyLogView(l, d);
    Quiet(Ideal(d, es[0]), es[1..]);
  }

  lemma {:induction false} HomeHolds(l: Layout, g: Geometry, d: Disk, e: Disk, s: Image)
    requires SameHome(l, e, d) && Holds(g, d, s) && l.start + l.size <= g.inodeStart
    ensures Holds(g, e, s)
  {
  }

  /** So the disk holds the file system before the transaction, or the one after it. */
  lemma {:induction false} CrashedTransaction(l: Layout, g: Geometry, d: Disk, u: seq<Write>, logged: set<nat>,
                                              s: Image, t: Image, es: seq<Event>, e: System)
    requires Holds(g, d, s) && OnlyLogged(g, s, t, logged) && Pending(g, u, logged, t)
    requires Run(l, System(d, true), es, e) && Settles(es, u) && l.start + l.size <= g.inodeStart
    ensures Holds(g, e.disk, if Committed(es[0]) then t else s)
  {
    AllOrNothing(l, d, u, es, e);
    if Committed(es[0]) {
      TransactionHolds(g, d, u, logged, s, t);
      HomeHolds(l, g, Replay(d, u), e.disk, t);
    } else {
      HomeHolds(l, g, d, e.disk, s);
    }
  }

  // ---------- the files on a disk ----------

  /** The block map of an inode, read from the disk. */
  function MapOn(d: Disk, ip: Inode): (m: seq<nat>)
    requires |ip.addrs| == NDIRECT + 1
    ensures |m| == MAXFILE
  {
    seq(MAXFILE, bn requires 0 <= bn < MAXFILE =>
      if bn < NDIRECT then ip.addrs[bn]
      else if Indirect(ip) == 0 || Indirect(ip) >= |d| then 0 else Entry(d[Indirect(ip)], bn))
  }

  /** File i, read from the disk. */
  function FileOn(g: Geometry, d: Disk, i: nat): seq<byte>
    requires InodeBlock(g, i) < |d|
  {
    var ip := InodeIn(d[InodeBlock(g, i)], i % IPB);
    Contents(d, MapOn(d, ip), ip.size)
  }

  lemma {:induction false} MapHeld(g: Geometry, d: Disk, s: Image, m: seq<nat>, i: nat)
    requires Holds(g, d, s) && i < |s.dinodes| && InodeOk(s.blocks, s.dinodes[i], m, g.dataStart)
    requires |s.blocks| == g.size && g.inodeStart <= g.dataStart
    ensures MapOn(d, s.dinodes[i]) == m
  {
    var ip := s.dinodes[i];
    if Indirect(ip) != 0 {
      assert Owns(ip, m, Indirect(ip));
      assert BlockHolds(g, Indirect(ip), d[Indirect(ip)], s);
    }
  }

  /** A disk that holds the file system holds its files. */
  lemma {:induction false} FileHeld(g: Geometry, d: Disk, s: Image, m: seq<nat>, i: nat)
    requires Holds(g, d, s) && i < |s.dinodes| && InodeOk(s.blocks, s.dinodes[i], m, g.dataStart)
    requires |s.blocks| == g.size && Placed(g, |s.dinodes|) && FS.Filled(m, Ceil(s.dinodes[i].size))
    ensures InodeBlock(g, i) < |d| && FileOn(g, d, i) == Contents(s.blocks, m, s.dinodes[i].size)
  {
    hide InodeIn, Contents, MapOn, Entry;
    assert i / IPB <= |s.dinodes| / IPB;
    var ip := s.dinodes[i];
    assert BlockHolds(g, InodeBlock(g, i), d[InodeBlock(g, i)], s);
    MapHeld(g, d, s, m, i);
    forall bn | 0 <= bn < |m| && bn < Ceil(ip.size) ensures m[bn] < |d| ==> d[m[bn]] == s.blocks[m[bn]] {
      assert Owns(ip, m, m[bn]);
      assert BlockHolds(g, m[bn], d[m[bn]], s);
    }
    ContentsFrame(s.blocks, d, m, m, ip.size);
  }

  // ---------- filewrite's transactions ----------

  ghost predicate FilesHeld(g: Geometry, d: Disk, files: seq<seq<byte>>) {
    forall i: nat :: i < |files| ==> InodeBlock(g, i) < |d| && FileOn(g, d, i) == files[i]
  }

  /** Whatever crashes come while u is committed, the files come back as before, or as after. */
  ghost predicate Atomic(l: Layout, g: Geometry, d: Disk, u: seq<Write>,
                         before: seq<seq<byte>>, after: seq<seq<byte>>) {
    forall es: seq<Event>, e :: Run(l, System(d, true), es, e) && Settles(es, u) ==>
      FilesHeld(g, e.disk, if Committed(es[0]) then after else before)
  }

  /** The file system between two operations: s with the maps of its inodes. */
  ghost predicate AtRest(g: Geometry, s: Image, maps: seq<seq<nat>>) {
    && Table(s.blocks, s.dinodes, maps, g.dataStart) && |s.blocks| == g.size && Placed(g, |s.dinodes|)
    && forall i :: 0 <= i < |maps| ==> FS.Filled(maps[i], Ceil(s.dinodes[i].size))
  }

  lemma {:induction false} AllHeld(g: Geometry, d: Disk, s: Image, maps: seq<seq<nat>>)
    requires AtRest(g, s, maps) && Holds(g, d, s)
    ensures FilesHeld(g, d, FS.FilesOf(s.blocks, s.dinodes, maps))
  {
    hide Placed, Holds;
    forall i: nat | i < |maps|
      ensures InodeBlock(g, i) < |d| && FileOn(g, d, i) == FS.FilesOf(s.blocks, s.dinodes, maps)[i] {
      assert InodeOk(s.blocks, s.dinodes[i], maps[i], g.dataStart);
      FileHeld(g, d, s, maps[i], i);
    }
  }

  lemma {:induction false} CrashSafe(l: Layout, g: Geometry, d: Disk, u: seq<Write>, logged: set<nat>,
                                     s: Image, ms: seq<seq<nat>>, t: Image, mt: seq<seq<nat>>)
    requires AtRest(g, s, ms) && AtRest(g, t, mt) && l.start + l.size <= g.inodeStart
    requires Holds(g, d, s) && OnlyLogged(g, s, t, logged) && Pending(g, u, logged, t)
    ensures Atomic(l, g, d, u, FS.FilesOf(s.blocks, s.dinodes, ms), FS.FilesOf(t.blocks, t.dinodes, mt))
  {
    hide InodeOk, Apart, Placed, Holds, OnlyLogged, Pending, Run;
    var before, after := FS.FilesOf(s.blocks, s.dinodes, ms), FS.FilesOf(t.blocks, t.dinodes, mt);
    forall es: seq<Event>, e | Run(l, System(d, true), es, e) && Settles(es, u)
      ensures FilesHeld(g, e.disk, if Committed(es[0]) then after else before) {
      CrashedTransaction(l, g, d, u, logged, s, t, es, e);
      if Committed(es[0]) {
        AllHeld(g, e.disk, t, mt);
      } else {
        AllHeld(g, e.disk, s, ms);
      }
    }
  }

  lemma {:induction false} Resting(fs: FS.FileSystem)
    requires fs.Closed()
    ensures fs.dinodes == fs.inodes && AtRest(fs.Where(), fs.OnDisk(), fs.maps)
  {
    assert forall i :: 0 <= i < |fs.inodes| ==> FS.Settled(fs.inodes[i], fs.dinodes[i], fs.maps[i]);
    assert fs.dinodes == fs.inodes;
  }

  /** One chunk of filewrite on a disk: for every way to write out the blocks it has logged, the log
      takes the transaction, and a crash leaves the old files, or all files with the chunk in place. */
  method WriteDurably(fs: FS.FileSystem, i: nat, off: uint32, src: seq<byte>, ghost l: Layout, ghost d: Disk)
    returns (r: int, ok: bool)
    requires fs.Closed() && i < |fs.inodes| && |src| <= FS.CHUNK && Holds(fs.Where(), d, fs.OnDisk())
    requires l.size == LOGSIZE && l.start + l.size <= fs.inodeStart && HeaderN(d[l.start]) == 0
    modifies fs
    ensures !ok ==> AllUsed(fs.bitmap, fs.size)
    ensures ok ==> fs.Closed() && r == if FS.CanWrite(|old(fs.File(i))|, off, |src|) then |src| else -1
    ensures ok ==>
      FS.FilesOf(fs.blocks, fs.inodes, fs.maps) ==
      if r < 0 then old(FS.FilesOf(fs.blocks, fs.inodes, fs.maps))
      else old(FS.FilesOf(fs.blocks, fs.inodes, fs.maps))[i := Overlay(old(fs.File(i)), off, src)]
    ensures ok ==> forall u :: Pending(fs.Where(), u, fs.logged, fs.OnDisk()) ==>
      && Legal(l, d, u)
      && Atomic(l, fs.Where(), d, u, old(FS.FilesOf(fs.blocks, fs.inodes, fs.maps)),
                FS.FilesOf(fs.blocks, fs.inodes, fs.maps))
  {
    hide AtRest, BlockHolds, OnlyLogged, Pending, Atomic, Overlay, Legal, Table;
    ghost var g, s, ms := fs.Where(), fs.OnDisk(), fs.maps;
    Resting(fs);
    r, ok := fs.WriteChunkOp(i, off, src);
    if !ok { return; }
    Resting(fs);
    FS.OneFileChanged(s.blocks, s.dinodes, ms, fs.blocks, fs.inodes, fs.maps, i);
    forall u | Pending(g, u, fs.logged, fs.OnDisk())
      ensures Legal(l, d, u)
      ensures Atomic(l, g, d, u, FS.FilesOf(s.blocks, s.dinodes, ms), FS.FilesOf(fs.blocks, fs.dinodes, fs.maps)) {
      PendingLegal(l, g, d, u, fs.logged, fs.OnDisk());
      CrashSafe(l, g, d, u, fs.logged, s, ms, fs.OnDisk(), fs.maps);
    }
  }
}