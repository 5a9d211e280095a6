/** Inodes and their block maps (fs.c): which blocks an inode owns, and the byte sequence they
    hold.  Pure facts; module FileSystem changes the state. */
module Files {
  import opened Common
  import opened Blocks

  const NDIRECT := 12
  const NINDIRECT := BSIZE / 4
  const MAXFILE := NDIRECT + NINDIRECT

  /** The on-disk part of an inode: its size and NDIRECT + 1 block addresses, 0 for none. */
  datatype Inode = Inode(size: uint32, addrs: seq<uint32>)

  function Indirect(ip: Inode): uint32
    requires |ip.addrs| == NDIRECT + 1
  {
    ip.addrs[NDIRECT]
  }

  /** The address of file block bn in an indirect block. */
  function Entry(ind: Block, bn: nat): uint32
    requires NDIRECT <= bn < MAXFILE
  {
    GetWord(ind, bn - NDIRECT)
  }

  /** m is the inode's block map: entry bn is where block bn of the file lives, or 0. */
  ghost predicate Maps(blocks: seq<Block>, ip: Inode, m: seq<nat>) {
    && |ip.addrs| == NDIRECT + 1 && |m| == MAXFILE && Indirect(ip) < |blocks|
    && (forall bn :: 0 <= bn < NDIRECT ==> m[bn] == ip.addrs[bn])
    && (forall bn :: NDIRECT <= bn < MAXFILE ==>
          m[bn] == if Indirect(ip) == 0 then 0 else Entry(blocks[Indirect(ip)], bn))
  }

  /** Does one of the inode's slots, or its indirect slot, hold block x? */
  ghost predicate Owns(ip: Inode, m: seq<nat>, x: nat) {
    x != 0 && |ip.addrs| == NDIRECT + 1 && (x in m || x == Indirect(ip))
  }

  /** No block is in two slots of the inode. */
  ghost predicate OwnsOnce(ip: Inode, m: seq<nat>) {
    && |ip.addrs| == NDIRECT + 1
    && (forall i, j :: 0 <= i < j < |m| && m[i] != 0 ==> m[i] != m[j])
    && (forall i :: 0 <= i < |m| && m[i] != 0 ==> m[i] != Indirect(ip))
  }

  ghost predicate OwnsWithin(ip: Inode, m: seq<nat>, lo: nat, hi: nat) {
    forall x: nat :: Owns(ip, m, x) ==> lo <= x < hi
  }

  ghost predicate Apart(ip: Inode, m: seq<nat>, iq: Inode, n: seq<nat>) {
    forall x: nat :: !(Owns(ip, m, x) && Owns(iq, n, x))
  }

  ghost predicate InodeOk(blocks: seq<Block>, ip: Inode, m: seq<nat>, lo: nat) {
    Maps(blocks, ip, m) && OwnsOnce(ip, m) && OwnsWithin(ip, m, lo, |blocks|)
  }

  /** Every inode's map is right, and every block is owned by at most one slot of one inode. */
  ghost predicate Table(blocks: seq<Block>, inodes: seq<Inode>, maps: seq<seq<nat>>, lo: nat) {
    && |inodes| == |maps|
    && (forall i :: 0 <= i < |inodes| ==> InodeOk(blocks, inodes[i], maps[i], lo))
    && (forall i, j :: 0 <= i < j < |inodes| ==> Apart(inodes[i], maps[i], inodes[j], maps[j]))
  }

  ghost predicate Unowned(inodes: seq<Inode>, maps: seq<seq<nat>>, x: nat)
    requires |inodes| == |maps|
  {
    forall i :: 0 <= i < |inodes| ==> !Owns(inodes[i], maps[i], x)
  }

  /** Slot k of an inode: its data slots, and one more for the indirect block. */
  function SlotBlock(ip: Inode, m: seq<nat>, k: nat): nat
    requires |ip.addrs| == NDIRECT + 1 && |m| == MAXFILE && k <= MAXFILE
  {
    if k < MAXFILE then m[k] else Indirect(ip)
  }

  /** A block is in at most one slot of at most one inode, and never in the part before lo. */
  lemma {:induction false} OneOwner(blocks: seq<Block>, inodes: seq<Inode>, maps: seq<seq<nat>>, lo: nat, i: nat,
                                    k: nat, j: nat, l: nat)
    requires Table(blocks, inodes, maps, lo) && i < |inodes| && j < |inodes| && k <= MAXFILE && l <= MAXFILE
    ensures Maps(blocks, inodes[i], maps[i]) && Maps(blocks, inodes[j], maps[j])
    ensures var x, y := SlotBlock(inodes[i], maps[i], k), SlotBlock(inodes[j], maps[j], l);
      x != 0 ==> lo <= x < |blocks| && (x == y ==> i == j && k == l)
  {
    assert InodeOk(blocks, inodes[i], maps[i], lo) && InodeOk(blocks, inodes[j], maps[j], lo);
    var x, y := SlotBlock(inodes[i], maps[i], k), SlotBlock(inodes[j], maps[j], l);
    if x != 0 {
      assert Owns(inodes[i], maps[i], x);
      if i < j { assert Apart(inodes[i], maps[i], inodes[j], maps[j]); }
      if j < i { assert Apart(inodes[j], maps[j], inodes[i], maps[i]); }
      assert i != j ==> !Owns(inodes[j], maps[j], x);
    }
  }

  // ---------- the steps of bmap keep the table ----------

  /** Only the indirect block matters to an inode's map. */
  lemma {:induction false} MapsFrame(blocks: seq<Block>, clocks: seq<Block>, ip: Inode, m: seq<nat>)
    requires Maps(blocks, ip, m) && |clocks| == |blocks|
    requires Indirect(ip) != 0 ==> clocks[Indirect(ip)] == blocks[Indirect(ip)]
    ensures Maps(clocks, ip, m)
  {
  }

  /** Changing blocks that are no inode's indirect block. */
  lemma {:induction false} TableFrame(blocks: seq<Block>, clocks: seq<Block>, inodes: seq<Inode>, maps: seq<seq<nat>>,
                                      lo: nat)
    requires Table(blocks, inodes, maps, lo) && |clocks| == |blocks|
    requires forall i ::
      0 <= i < |inodes| && |inodes[i].addrs| == NDIRECT + 1 && 0 != Indirect(inodes[i]) < |blocks| ==>
      clocks[Indirect(inodes[i])] == blocks[Indirect(inodes[i])]
    ensures Table(clocks, inodes, maps, lo)
  {
  }

  /** Replacing one inode by one that is right and owns at most one more block, owned by nobody. */
  lemma {:induction false} TableUpdate(blocks: seq<Block>, inodes: seq<Inode>, maps: seq<seq<nat>>, lo: nat,
                                       i: nat, ip: Inode, m: seq<nat>, b: nat)
    requires Table(blocks, inodes, maps, lo) && i < |inodes| && InodeOk(blocks, ip, m, lo)
    requires Unowned(inodes, maps, b)
    requires forall x: nat :: Owns(ip, m, x) ==> x == b || Owns(inodes[i], maps[i], x)
    ensures Table(blocks, inodes[i := ip], maps[i := m], lo)
  {
  }

  /** An unowned block can be zeroed: nobody's map reads it. */
  lemma {:induction false} TableZero(blocks: seq<Block>, inodes: seq<Inode>, maps: seq<seq<nat>>, lo: nat, b: nat,
                                     data: Block)
    requires Table(blocks, inodes, maps, lo) && 0 < b < |blocks| && Unowned(inodes, maps, b)
    ensures Table(blocks[b := data], inodes, maps, lo)
  {
  }

  function SetMap(maps: seq<seq<nat>>, i: nat, bn: nat, b: nat): seq<seq<nat>>
    requires i < |maps| && bn < |maps[i]|
  {
    var m: seq<nat> := maps[i][bn := b];
    maps[i := m]
  }

  function SetAddr(ip: Inode, k: nat, b: uint32): Inode
    requires k < |ip.addrs|
  {
    ip.(addrs := ip.addrs[k := b])
  }

  lemma {:induction false} UpdateIn(m: seq<nat>, bn: nat, b: nat)
    requires bn < |m| && m[bn] == 0
    ensures forall x: nat :: x in m[bn := b] ==> x == b || x in m
    ensures b in m[bn := b] && forall x: nat :: x != 0 && x in m ==> x in m[bn := b]
  {
    assert m[bn := b][bn] == b;
    forall x: nat | x != 0 && x in m ensures x in m[bn := b] {
      var k :| 0 <= k < |m| && m[k] == x;
      assert m[bn := b][k] == x;
    }
  }

  lemma {:induction false} OwnsMore(ip: Inode, m: seq<nat>, iq: Inode, n: seq<nat>, lo: nat, hi: nat, b: nat)
    requires OwnsWithin(ip, m, lo, hi) && lo <= b < hi && |ip.addrs| == |iq.addrs| == NDIRECT + 1
    requires (forall x: nat :: x in n ==> x == b || x in m) && (Indirect(iq) == Indirect(ip) || Indirect(iq) == b)
    ensures OwnsWithin(iq, n, lo, hi)
    ensures forall x: nat :: Owns(iq, n, x) ==> x == b || Owns(ip, m, x)
  {
    forall x: nat | Owns(iq, n, x) ensures lo <= x < hi && (x == b || Owns(ip, m, x)) {
      assert x == b || Owns(ip, m, x);
    }
  }

  lemma {:induction false} DirectSlot(blocks: seq<Block>, ip: Inode, m: seq<nat>, lo: nat, bn: nat, b: uint32)
    requires InodeOk(blocks, ip, m, lo) && bn < NDIRECT && m[bn] == 0
    requires 0 < lo <= b < |blocks| && !Owns(ip, m, b)
    ensures InodeOk(blocks, SetAddr(ip, bn, b), m[bn := b], lo)
    ensures forall x: nat :: Owns(SetAddr(ip, bn, b), m[bn := b], x) ==> x == b || Owns(ip, m, x)
  {
    UpdateIn(m, bn, b);
    OwnsMore(ip, m, SetAddr(ip, bn, b), m[bn := b], lo, |blocks|, b);
  }

  lemma {:induction false} IndirectSlot(blocks: seq<Block>, ip: Inode, m: seq<nat>, lo: nat, b: uint32)
    requires InodeOk(blocks, ip, m, lo) && Indirect(ip) == 0
    requires 0 < lo <= b < |blocks| && !Owns(ip, m, b) && blocks[b] == ZeroBlock()
    ensures InodeOk(blocks, SetAddr(ip, NDIRECT, b), m, lo)
    ensures forall x: nat :: Owns(SetAddr(ip, NDIRECT, b), m, x) ==> x == b || Owns(ip, m, x)
  {
    var iq := SetAddr(ip, NDIRECT, b);
    forall bn | NDIRECT <= bn < MAXFILE ensures Entry(blocks[b], bn) == 0 {
      ZeroWords(bn - NDIRECT);
    }
    assert Maps(blocks, iq, m);
    OwnsMore(ip, m, iq, m, lo, |blocks|, b);
  }

  /** bmap on a direct slot: a zeroed block enters slot bn. */
  lemma {:induction false} TableDirect(blocks: seq<Block>, inodes: seq<Inode>, maps: seq<seq<nat>>, lo: nat,
                                       i: nat, bn: nat, b: uint32)
    requires Table(blocks, inodes, maps, lo) && i < |inodes| && bn < NDIRECT && |maps[i]| == MAXFILE && maps[i][bn] == 0
    requires 0 < lo <= b < |blocks| && Unowned(inodes, maps, b)
    ensures |inodes[i].addrs| == NDIRECT + 1
    ensures Table(blocks[b := ZeroBlock()], inodes[i := SetAddr(inodes[i], bn, b)], SetMap(maps, i, bn, b), lo)
  {
    TableZero(blocks, inodes, maps, lo, b, ZeroBlock());
    var clocks := blocks[b := ZeroBlock()];
    DirectSlot(clocks, inodes[i], maps[i], lo, bn, b);
    TableUpdate(clocks, inodes, maps, lo, i, SetAddr(inodes[i], bn, b), maps[i][bn := b], b);
  }

  /** bmap's first indirect access: a zeroed block becomes the indirect block. */
  lemma {:induction false} TableIndirect(blocks: seq<Block>, inodes: seq<Inode>, maps: seq<seq<nat>>, lo: nat, i: nat,
                                         b: uint32)
    requires Table(blocks, inodes, maps, lo) && i < |inodes| && |inodes[i].addrs| == NDIRECT + 1 &&
      Indirect(inodes[i]) == 0
    requires 0 < lo <= b < |blocks| && Unowned(inodes, maps, b)
    ensures Table(blocks[b := ZeroBlock()], inodes[i := SetAddr(inodes[i], NDIRECT, b)], maps, lo)
  {
    TableZero(blocks, inodes, maps, lo, b, ZeroBlock());
    var clocks := blocks[b := ZeroBlock()];
    IndirectSlot(clocks, inodes[i], maps[i], lo, b);
    TableUpdate(clocks, inodes, maps, lo, i, SetAddr(inodes[i], NDIRECT, b), maps[i], b);
    assert maps[i := maps[i]] == maps;
  }

  /** The indirect block with entry bn - NDIRECT set. */
  function SetEntry(blocks: seq<Block>, ind: nat, bn: nat, b: uint32): (r: seq<Block>)
    requires ind < |blocks| && NDIRECT <= bn < MAXFILE
    ensures |r| == |blocks|
  {
    blocks[ind := PutWord(blocks[ind], bn - NDIRECT, b)]
  }

  lemma {:induction false} EntrySlot(blocks: seq<Block>, ip: Inode, m: seq<nat>, lo: nat, bn: nat, b: uint32)
    requires InodeOk(blocks, ip, m, lo) && NDIRECT <= bn < MAXFILE && m[bn] == 0 && Indirect(ip) != 0
    requires 0 < lo <= b < |blocks| && !Owns(ip, m, b)
    ensures InodeOk(SetEntry(blocks, Indirect(ip), bn, b), ip, m[bn := b], lo)
    ensures forall x: nat :: Owns(ip, m[bn := b], x) ==> x == b || Owns(ip, m, x)
  {
    var clocks := SetEntry(blocks, Indirect(ip), bn, b);
    forall k | NDIRECT <= k < MAXFILE ensures m[bn := b][k] == Entry(clocks[Indirect(ip)], k) {
      assert m[k] == Entry(blocks[Indirect(ip)], k);
    }
    assert Maps(clocks, ip, m[bn := b]);
    UpdateIn(m, bn, b);
    OwnsMore(ip, m, ip, m[bn := b], lo, |blocks|, b);
  }

  /** bmap on an indirect entry: a zeroed block enters entry bn of inode i's indirect block. */
  lemma {:induction false} TableEntry(blocks: seq<Block>, inodes: seq<Inode>, maps: seq<seq<nat>>, lo: nat,
                                      i: nat, bn: nat, b: uint32)
    requires Table(blocks, inodes, maps, lo) && i < |inodes| && NDIRECT <= bn < MAXFILE
    requires |maps[i]| == MAXFILE && maps[i][bn] == 0
    requires |inodes[i].addrs| == NDIRECT + 1 && 0 != Indirect(inodes[i]) < |blocks|
    requires 0 < lo <= b < |blocks| && Unowned(inodes, maps, b)
    ensures Table(SetEntry(blocks[b := ZeroBlock()], Indirect(inodes[i]), bn, b), inodes, SetMap(maps, i, bn, b), lo)
  {
    TableZero(blocks, inodes, maps, lo, b, ZeroBlock());
    var clocks := blocks[b := ZeroBlock()];
    EntrySlot(clocks, inodes[i], maps[i], lo, bn, b);
    var dlocks, ms := SetEntry(clocks, Indirect(inodes[i]), bn, b), SetMap(maps, i, bn, b);
    forall j | 0 <= j < |inodes| ensures InodeOk(dlocks, inodes[j], ms[j], lo) {
      if j != i {
        assert InodeOk(clocks, inodes[j], maps[j], lo);
        assert Owns(inodes[i], maps[i], Indirect(inodes[i]));
        assert Apart(inodes[if i < j then i else j], maps[if i < j then i else j], inodes[if i < j then j else i],
          maps[if i < j then j else i]);
        MapsFrame(clocks, dlocks, inodes[j], maps[j]);
      }
    }
    forall j, k | 0 <= j < k < |inodes| ensures Apart(inodes[j], ms[j], inodes[k], ms[k]) {
      assert Apart(inodes[j], maps[j], inodes[k], maps[k]);
      assert !Owns(inodes[j], maps[j], b) && !Owns(inodes[k], maps[k], b);
    }
  }

  /** Writing a data block: its owner's slot is the only one that holds it. */
  lemma {:induction false} TableData(blocks: seq<Block>, inodes: seq<Inode>, maps: seq<seq<nat>>, lo: nat,
                                     i: nat, bn: nat, data: Block)
    requires Table(blocks, inodes, maps, lo) && i < |inodes| && bn < |maps[i]| && 0 != maps[i][bn] < |blocks|
    ensures Table(blocks[maps[i][bn] := data], inodes, maps, lo)
  {
    var x := maps[i][bn];
    forall j | 0 <= j < |inodes| && |inodes[j].addrs| == NDIRECT + 1 && 0 != Indirect(inodes[j]) < |blocks|
      ensures blocks[x := data][Indirect(inodes[j])] == blocks[Indirect(inodes[j])] {
      assert InodeOk(blocks, inodes[i], maps[i], lo) && Owns(inodes[i], maps[i], x);
      assert Owns(inodes[j], maps[j], Indirect(inodes[j]));
      if j != i {
        assert Apart(inodes[if i < j then i else j], maps[if i < j then i else j], inodes[if i < j then j else i],
          maps[if i < j then j else i]);
      }
    }
    TableFrame(blocks, blocks[x := data], inodes, maps, lo);
  }

  // ---------- the bytes of a file ----------

  function ByteAt(blocks: seq<Block>, m: seq<nat>, k: nat): byte {
    var bn := k / BSIZE;
    if bn < |m| && m[bn] < |blocks| then blocks[m[bn]][k % BSIZE] else 0
  }

  /** The file as a plain byte sequence. */
  function Contents(blocks: seq<Block>, m: seq<nat>, size: nat): (c: seq<byte>)
    ensures |c| == size
  {
    seq(size, k requires 0 <= k => ByteAt(blocks, m, k))
  }

  /** How many blocks hold n bytes. */
  function Ceil(n: nat): nat {
    (n + BSIZE - 1) / BSIZE
  }

  /** src written over c at off, extending it if need be. */
  function Overlay(c: seq<byte>, off: nat, src: seq<byte>): (r: seq<byte>)
    requires off <= |c|
    ensures |r| == if off + |src| <= |c| then |c| else off + |src|
  {
    c[..off] + src + if off + |src| <= |c| then c[off + |src|..] else []
  }

  /** A block with bytes [at, at + |src|) replaced. */
  function Splice(b: Block, at: nat, src: seq<byte>): (r: Block)
    requires at + |src| <= BSIZE
    ensures forall k :: 0 <= k < BSIZE ==> r[k] == if at <= k < at + |src| then src[k - at] else b[k]
  {
    b[..at] + src + b[at + |src|..]
  }

  /** The contents only depend on the blocks the map names. */
  lemma {:induction false} ContentsFrame(blocks: seq<Block>, clocks: seq<Block>, m: seq<nat>, n: seq<nat>, size: nat)
    requires |blocks| == |clocks| && |m| == |n|
    requires forall bn :: 0 <= bn < |m| && bn < Ceil(size) ==>
      n[bn] == m[bn] && (m[bn] < |blocks| ==> clocks[m[bn]] == blocks[m[bn]])
    ensures Contents(clocks, n, size) == Contents(blocks, m, size)
  {
  }

  /** Writing part of one block of the file. */
  lemma {:induction false} WriteChunk(blocks: seq<Block>, m: seq<nat>, size: nat, off: nat, chunk: seq<byte>)
    requires off <= size && |chunk| > 0 && off % BSIZE + |chunk| <= BSIZE && off / BSIZE < |m|
    requires 0 != m[off / BSIZE] < |blocks|
    requires forall i, j :: 0 <= i < j < |m| && m[i] != 0 ==> m[i] != m[j]
    ensures var x, end := m[off / BSIZE], off + |chunk|;
      var clocks := blocks[x := Splice(blocks[x], off % BSIZE, chunk)];
      Contents(clocks, m, if end <= size then size else end) == Overlay(Contents(blocks, m, size), off, chunk)
  {
  }
}
