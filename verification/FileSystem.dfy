/** fs.c's block allocator and inode contents, changed in place: balloc, bfree, bmap, iupdate,
    itrunc, readi, writei, and filewrite's transactions on top. */
module FileSystem {
  import opened Common
  import opened Blocks
  import opened Bitmap
  import opened Files
  import opened Transactions

  const MAXBYTES := MAXFILE * BSIZE

  /** The bitmap marks exactly the reserved blocks and the owned ones, and no block is both.  Everything
      before the data blocks is reserved. */
  ghost predicate Marked(bitmap: seq<bv8>, inodes: seq<Inode>, maps: seq<seq<nat>>, lo: nat, size: nat,
                         reserved: set<nat>)
    requires size <= 8 * |bitmap| && |inodes| == |maps|
  {
    && (forall b: nat :: b < lo && b < size ==> b in reserved)
    && (forall b: nat :: b < size && b in reserved ==> Used(bitmap, b) && Unowned(inodes, maps, b))
    && (forall b: nat :: b < size && b !in reserved ==> (Used(bitmap, b) <==> !Unowned(inodes, maps, b)))
  }

  /** The data blocks that some map names keep their contents. */
  ghost predicate DataKept(blocks: seq<Block>, clocks: seq<Block>, maps: seq<seq<nat>>) {
    && |clocks| == |blocks|
    && forall j, bn :: 0 <= j < |maps| && 0 <= bn < |maps[j]| && maps[j][bn] < |blocks| ==>
         clocks[maps[j][bn]] == blocks[maps[j][bn]]
  }

  lemma {:induction false} DataTrans(b0: seq<Block>, b1: seq<Block>, b2: seq<Block>, maps: seq<seq<nat>>)
    requires (DataKept(b0, b1, maps) || b0 == b1) && (DataKept(b1, b2, maps) || b1 == b2)
    ensures DataKept(b0, b2, maps)
  {
  }

  /** Exactly the first a blocks of the file are allocated. */
  ghost predicate Filled(m: seq<nat>, a: nat) {
    forall bn :: 0 <= bn < |m| ==> (m[bn] != 0 <==> bn < a)
  }

  function Max(a: nat, b: nat): nat {
    if a <= b then b else a
  }

  /** Which blocks bmap may log for block bn of the inode, beyond those already logged. */
  ghost function BmapCost(ip: Inode, m: seq<nat>, bn: nat, logged: set<nat>): nat
    requires bn < |m| && |ip.addrs| == NDIRECT + 1
  {
    if m[bn] != 0 then 0
    else if bn < NDIRECT then 2
    else if Indirect(ip) == 0 then 4
    else if Indirect(ip) in logged then 2 else 3
  }

  lemma {:induction false} AddOne(s: set<nat>, x: nat)
    ensures |s + {x}| <= |s| + 1
    ensures x in s ==> s + {x} == s
  {
  }

  /** Marking a block as it gets its one owner. */
  lemma {:induction false} MarkedMore(bm: seq<bv8>, inodes: seq<Inode>, maps: seq<seq<nat>>, js: seq<Inode>,
                                      ms: seq<seq<nat>>,
                                      i: nat, lo: nat, size: nat, b: nat, reserved: set<nat>)
    requires |inodes| == |maps| == |js| == |ms| && size <= 8 * |bm| && i < |inodes| && 0 < b < size && !Used(bm, b)
    requires Marked(bm, inodes, maps, lo, size, reserved)
    requires forall j :: 0 <= j < |inodes| && j != i ==> js[j] == inodes[j] && ms[j] == maps[j]
    requires |inodes[i].addrs| == |js[i].addrs| == NDIRECT + 1
    requires forall x: nat :: Owns(js[i], ms[i], x) <==> Owns(inodes[i], maps[i], x) || x == b
    ensures Marked(Mark(bm, b), js, ms, lo, size, reserved)
  {
    forall x: nat | x < size ensures Unowned(js, ms, x) <==> Unowned(inodes, maps, x) && x != b {
      if x == b {
        assert Owns(js[i], ms[i], b);
      } else if Unowned(js, ms, x) {
        assert forall j :: 0 <= j < |inodes| ==> !Owns(js[j], ms[j], x);
        assert forall j :: 0 <= j < |inodes| ==> !Owns(inodes[j], maps[j], x);
      }
    }
  }

  /** Blocks that are reserved are not free. */
  lemma {:induction false} FreeIsData(bm: seq<bv8>, inodes: seq<Inode>, maps: seq<seq<nat>>, lo: nat, size: nat,
                                      reserved: set<nat>, b: nat)
    requires size <= 8 * |bm| && |inodes| == |maps| && Marked(bm, inodes, maps, lo, size, reserved)
    requires b < size && !Used(bm, b)
    ensures lo <= b && Unowned(inodes, maps, b)
  {
  }

  lemma {:induction false} AddTwo(s: set<nat>, x: nat, y: nat)
    ensures |s + {x} + {y}| <= |s| + 2
  {
  }

  /** A block nobody owns is nobody's data. */
  lemma {:induction false} KeptUnowned(clocks: seq<Block>, inodes: seq<Inode>, maps: seq<seq<nat>>, b: nat,
                                       blocks: seq<Block>)
    requires |inodes| == |maps| && Unowned(inodes, maps, b) && 0 < b < |blocks| == |clocks|
    requires clocks == blocks[b := clocks[b]]
    requires forall j :: 0 <= j < |inodes| ==> |inodes[j].addrs| == NDIRECT + 1
    ensures DataKept(blocks, clocks, maps)
  {
  }

  /** Nor is an indirect block. */
  lemma {:induction false} KeptIndirect(blocks: seq<Block>, clocks: seq<Block>, dlocks: seq<Block>,
                                        inodes: seq<Inode>, maps: seq<seq<nat>>, lo: nat, i: nat)
    requires Table(blocks, inodes, maps, lo) && i < |inodes| && DataKept(blocks, clocks, maps)
    requires |inodes[i].addrs| == NDIRECT + 1 && 0 != Indirect(inodes[i]) < |blocks| == |dlocks|
    requires dlocks == clocks[Indirect(inodes[i]) := dlocks[Indirect(inodes[i])]]
    ensures DataKept(blocks, dlocks, maps)
  {
    forall j, bn | 0 <= j < |maps| && 0 <= bn < |maps[j]| && maps[j][bn] < |blocks|
      ensures dlocks[maps[j][bn]] == blocks[maps[j][bn]] {
      if maps[j][bn] != 0 { NotIndirect(blocks, inodes, maps, lo, j, bn, i); }
    }
  }

  lemma {:induction false} EntryFacts(blocks: seq<Block>, inodes: seq<Inode>, maps: seq<seq<nat>>, lo: nat, i: nat)
    requires Table(blocks, inodes, maps, lo) && i < |inodes|
    ensures |inodes[i].addrs| == NDIRECT + 1 && |maps[i]| == MAXFILE && Indirect(inodes[i]) < |blocks|
    ensures Indirect(inodes[i]) != 0 ==> lo <= Indirect(inodes[i])
    ensures forall bn :: 0 <= bn < MAXFILE && maps[i][bn] != 0 ==>
      maps[i][bn] != Indirect(inodes[i]) && (bn >= NDIRECT ==> Indirect(inodes[i]) != 0)
  {
    assert InodeOk(blocks, inodes[i], maps[i], lo);
    assert Indirect(inodes[i]) != 0 ==> Owns(inodes[i], maps[i], Indirect(inodes[i]));
  }

  lemma {:induction false} SetEntryAt(blocks: seq<Block>, ind: nat, bn: nat, b: uint32)
    requires ind < |blocks| && NDIRECT <= bn < MAXFILE
    ensures SetEntry(blocks, ind, bn, b) == blocks[ind := SetEntry(blocks, ind, bn, b)[ind]]
  {
  }

  /** A free block becomes entry bn of the indirect block. */
  lemma {:induction false} EntryAdded(blocks: seq<Block>, bm: seq<bv8>, inodes: seq<Inode>, maps: seq<seq<nat>>,
                                      lo: nat, size: nat, reserved: set<nat>, i: nat, bn: nat, addr: uint32)
    requires 0 < lo <= size == |blocks| <= 8 * |bm| && Table(blocks, inodes, maps, lo) && i < |inodes|
    requires Marked(bm, inodes, maps, lo, size, reserved) && addr < size && !Used(bm, addr)
    requires NDIRECT <= bn < MAXFILE == |maps[i]| && maps[i][bn] == 0
    requires |inodes[i].addrs| == NDIRECT + 1 && 0 != Indirect(inodes[i]) < size
    ensures var clocks := SetEntry(blocks[addr := ZeroBlock()], Indirect(inodes[i]), bn, addr);
      && Table(clocks, inodes, SetMap(maps, i, bn, addr), lo) && DataKept(blocks, clocks, maps)
      && Marked(Mark(bm, addr), inodes, SetMap(maps, i, bn, addr), lo, size, reserved)
  {
    var zeroed := blocks[addr := ZeroBlock()];
    FreeIsData(bm, inodes, maps, lo, size, reserved, addr);
    assert forall j :: 0 <= j < |inodes| ==> InodeOk(blocks, inodes[j], maps[j], lo);
    KeptUnowned(zeroed, inodes, maps, addr, blocks);
    KeptIndirect(blocks, zeroed, SetEntry(zeroed, Indirect(inodes[i]), bn, addr), inodes, maps, lo, i);
    TableEntry(blocks, inodes, maps, lo, i, bn, addr);
    UpdateIn(maps[i], bn, addr);
    MarkedMore(bm, inodes, maps, inodes, SetMap(maps, i, bn, addr), i, lo, size, addr, reserved);
  }

  /** Everything about the inodes other than i is as it was. */
  ghost predicate OthersSame(blocks: seq<Block>, inodes: seq<Inode>, maps: seq<seq<nat>>,
                             clocks: seq<Block>, js: seq<Inode>, ms: seq<seq<nat>>, i: nat) {
    && |js| == |inodes| == |maps| == |ms|
    && forall j :: 0 <= j < |inodes| && j != i ==>
         js[j] == inodes[j] && ms[j] == maps[j] &&
         Contents(clocks, ms[j], js[j].size) == Contents(blocks, maps[j], inodes[j].size)
  }

  lemma {:induction false} KeptOthers(blocks: seq<Block>, inodes: seq<Inode>, maps: seq<seq<nat>>,
                                      clocks: seq<Block>, js: seq<Inode>, ms: seq<seq<nat>>, i: nat)
    requires DataKept(blocks, clocks, maps) && |inodes| == |maps| == |js| == |ms|
    requires forall j :: 0 <= j < |inodes| && j != i ==> js[j] == inodes[j] && ms[j] == maps[j]
    ensures OthersSame(blocks, inodes, maps, clocks, js, ms, i)
  {
  }

  /** Writing a data block of inode i is invisible to the others. */
  lemma {:induction false} DataOthers(blocks: seq<Block>, inodes: seq<Inode>, maps: seq<seq<nat>>, lo: nat, i: nat,
                                      bn: nat, data: Block)
    requires Table(blocks, inodes, maps, lo) && i < |inodes| && bn < |maps[i]| && 0 != maps[i][bn] < |blocks|
    ensures OthersSame(blocks, inodes, maps, blocks[maps[i][bn] := data], inodes, maps, i)
  {
    var x := maps[i][bn];
    forall j | 0 <= j < |inodes| && j != i
      ensures Contents(blocks[x := data], maps[j], inodes[j].size) == Contents(blocks, maps[j], inodes[j].size) {
      NotShared(blocks, inodes, maps, lo, i, bn, j);
      ContentsFrame(blocks, blocks[x := data], maps[j], maps[j], inodes[j].size);
    }
  }

  lemma {:induction false} NotShared(blocks: seq<Block>, inodes: seq<Inode>, maps: seq<seq<nat>>, lo: nat, i: nat,
                                     bn: nat, j: nat)
    requires Table(blocks, inodes, maps, lo) && i < |inodes| && j < |inodes| && i != j && bn < |maps[i]| &&
      maps[i][bn] != 0
    ensures maps[i][bn] !in maps[j]
  {
    var lower, upper := if i < j then i else j, if i < j then j else i;
    assert InodeOk(blocks, inodes[i], maps[i], lo) && InodeOk(blocks, inodes[j], maps[j], lo);
    assert Apart(inodes[lower], maps[lower], inodes[upper], maps[upper]);
    assert Owns(inodes[i], maps[i], maps[i][bn]) && !Owns(inodes[j], maps[j], maps[i][bn]);
  }

  lemma {:induction false} OthersTrans(b0: seq<Block>, i0: seq<Inode>, m0: seq<seq<nat>>, b1: seq<Block>,
                                       i1: seq<Inode>,
                                       m1: seq<seq<nat>>, b2: seq<Block>, i2: seq<Inode>, m2: seq<seq<nat>>, i: nat)
    requires OthersSame(b0, i0, m0, b1, i1, m1, i) && OthersSame(b1, i1, m1, b2, i2, m2, i)
    ensures OthersSame(b0, i0, m0, b2, i2, m2, i)
  {
  }

  /** The share of the log taken by the indirect block (and its bitmap block, when w is 2). */
  ghost function IndCost(ip: Inode, logged: set<nat>, w: nat): nat {
    if |ip.addrs| == NDIRECT + 1 && Indirect(ip) != 0 && Indirect(ip) in logged then w else 0
  }

  /** At most k more blocks are logged, not counting the indirect block's share. */
  ghost predicate LogGrew(ip: Inode, logged: set<nat>, iq: Inode, logged': set<nat>, w: nat, k: int) {
    |logged'| - IndCost(iq, logged', w) <= |logged| - IndCost(ip, logged, w) + k
  }

  /** Blocks touched and blocks allocated by writing len bytes at off into a file of n bytes. */
  function Touched(off: nat, len: nat): int {
    if len == 0 then 0 else Ceil(off + len) - off / BSIZE
  }

  function Fresh(n: nat, off: nat, len: nat): int {
    Ceil(Max(n, off + len)) - Ceil(n)
  }

  /** min(n - tot, BSIZE - off%BSIZE): what is left, up to the end of the block. */
  function ChunkLen(off: nat, left: nat): (m: nat)
    requires left > 0
    ensures 0 < m <= left && off % BSIZE + m <= BSIZE && (m == left || (off + m) % BSIZE == 0)
  {
    if left < BSIZE - off % BSIZE then left else BSIZE - off % BSIZE
  }

  /** After every round the position is at the end of a block or of the data. */
  predicate AtBoundary(off: nat, tot: nat, len: nat) {
    tot == 0 || tot == len || (off + tot) % BSIZE == 0
  }

  lemma {:induction false} RoundPosition(n: nat, off: nat, tot: nat, m: nat, len: nat)
    requires CanWrite(n, off, len) && tot < len && AtBoundary(off, tot, len) && m == ChunkLen(off + tot, len - tot)
    ensures (off + tot) / BSIZE < MAXFILE && AtBoundary(off, tot + m, len) && off + tot <= Max(n, off + tot)
  {
  }

  /** Each round accounts for one more block touched, and one allocated if beyond the end. */
  lemma {:induction false} RoundCost(n: nat, off: nat, tot: nat, m: nat, len: nat)
    requires CanWrite(n, off, len) && tot < len && AtBoundary(off, tot, len) && m == ChunkLen(off + tot, len - tot)
    ensures Touched(off, tot + m) == Touched(off, tot) + 1
    ensures Fresh(n, off, tot + m) ==
      Fresh(n, off, tot) + if (off + tot) / BSIZE < Ceil(Max(n, off + tot)) then 0 else 1
    ensures off + (tot + m) <= n ==> (off + tot) / BSIZE < Ceil(Max(n, off + tot))
  {
  }

  /** What writei may be asked to do: no hole, no 32-bit overflow, no file beyond MAXFILE blocks. */
  predicate CanWrite(n: nat, off: nat, len: nat) {
    off <= n && off + len < 0x1_0000_0000 && off + len <= MAXBYTES
  }

  /** Between operations an inode has exactly the blocks its size needs, and is the same on disk. */
  ghost predicate Settled(ip: Inode, dip: Inode, m: seq<nat>) {
    Filled(m, Ceil(ip.size)) && ip.size <= MAXBYTES && dip == ip
  }

  /** The parts of the file system that writei works on. */
  datatype State = State(blocks: seq<Block>, inodes: seq<Inode>, maps: seq<seq<nat>>, logged: set<nat>)

  /** How far writei has come: src is in place at off, and the log has grown accordingly. */
  ghost predicate Wrote(s: State, t: State, i: nat, off: nat, src: seq<byte>, w: nat) {
    && |s.inodes| == |t.inodes| == |s.maps| == |t.maps| && i < |s.inodes|
    && var n, len := s.inodes[i].size, |src|;
       && off <= n && t.inodes[i].size == n && Filled(t.maps[i], Ceil(Max(n, off + len)))
       && Contents(t.blocks, t.maps[i], Max(n, off + len)) == Overlay(Contents(s.blocks, s.maps[i], n), off, src)
       && OthersSame(s.blocks, s.inodes, s.maps, t.blocks, t.inodes, t.maps, i)
       && (off + len <= n ==> t.inodes == s.inodes)
       && |t.inodes[i].addrs| == NDIRECT + 1 && (Indirect(t.inodes[i]) == 0 ==> w == 2)
       && LogGrew(s.inodes[i], s.logged, t.inodes[i], t.logged, w, Touched(off, len) + Fresh(n, off, len))
  }

  lemma {:induction false} WroteNothing(s: State, i: nat, off: nat, w: nat)
    requires i < |s.inodes| == |s.maps| && off <= s.inodes[i].size && Filled(s.maps[i], Ceil(s.inodes[i].size))
    requires |s.inodes[i].addrs| == NDIRECT + 1 && w == (if Indirect(s.inodes[i]) == 0 then 2 else 1)
    ensures Wrote(s, s, i, off, [], w)
  {
    var file := Contents(s.blocks, s.maps[i], s.inodes[i].size);
    assert Overlay(file, off, []) == file;
  }

  /** What WriteOne does at position pos of a file reaching to n1, as a relation. */
  ghost predicate WroteOne(s1: State, s2: State, i: nat, pos: nat, chunk: seq<byte>, n1: nat, w: nat) {
    && |s2.inodes| == |s2.maps| == |s1.inodes| == |s1.maps| && i < |s1.inodes| && pos <= n1
    && Filled(s2.maps[i], Ceil(Max(n1, pos + |chunk|))) && s2.inodes[i].size == s1.inodes[i].size
    && Contents(s2.blocks, s2.maps[i], Max(n1, pos + |chunk|)) ==
       Overlay(Contents(s1.blocks, s1.maps[i], n1), pos, chunk)
    && OthersSame(s1.blocks, s1.inodes, s1.maps, s2.blocks, s2.inodes, s2.maps, i)
    && (pos / BSIZE < Ceil(n1) ==> s2.inodes == s1.inodes)
    && |s2.inodes[i].addrs| == NDIRECT + 1 && (Indirect(s2.inodes[i]) == 0 ==> w == 2)
    && LogGrew(s1.inodes[i], s1.logged, s2.inodes[i], s2.logged, w, if pos / BSIZE < Ceil(n1) then 1 else 2)
  }

  lemma {:induction false} WroteMore(s0: State, s1: State, s2: State, i: nat, off: nat, src: seq<byte>, tot: nat,
                                     m: nat, w: nat)
    requires tot + m <= |src| && Wrote(s0, s1, i, off, src[..tot], w)
    requires CanWrite(s0.inodes[i].size, off, |src|) && tot < |src| && AtBoundary(off, tot, |src|) &&
      m == ChunkLen(off + tot, |src| - tot)
    requires WroteOne(s1, s2, i, off + tot, src[tot..tot + m], Max(s0.inodes[i].size, off + tot), w)
    ensures Wrote(s0, s2, i, off, src[..tot + m], w)
  {
    RoundCost(s0.inodes[i].size, off, tot, m, |src|);
    WroteJoin(s0, s1, s2, i, off, src, tot, m, w);
  }

  lemma {:induction false} WroteJoin(s0: State, s1: State, s2: State, i: nat, off: nat, src: seq<byte>, tot: nat,
                                     m: nat, w: nat)
    requires tot + m <= |src| && Wrote(s0, s1, i, off, src[..tot], w)
    requires WroteOne(s1, s2, i, off + tot, src[tot..tot + m], Max(s0.inodes[i].size, off + tot), w)
    requires var n := s0.inodes[i].size; var below := (off + tot) / BSIZE < Ceil(Max(n, off + tot));
      && Touched(off, tot + m) + Fresh(n, off, tot + m) == Touched(off, tot) + Fresh(n, off, tot)
         + (if below then 1 else 2)
      && (off + (tot + m) <= n ==> below)
    ensures Wrote(s0, s2, i, off, src[..tot + m], w)
  {
    hide Touched, Fresh, Overlay, Contents, OthersSame;
    var n := s0.inodes[i].size;
    assert |src[..tot + m]| == tot + m && |src[..tot]| == tot && |src[tot..tot + m]| == m;
    assert Max(Max(n, off + tot), off + tot + m) == Max(n, off + (tot + m));
    OverlayMore(Contents(s0.blocks, s0.maps[i], n), off, src, tot, tot + m);
    OthersTrans(s0.blocks, s0.inodes, s0.maps, s1.blocks, s1.inodes, s1.maps, s2.blocks, s2.inodes, s2.maps, i);
  }

  lemma {:induction false} FilledStep(m: seq<nat>, n: nat, off: nat, len: nat, b: nat)
    requires Filled(m, Ceil(n)) && off <= n && 0 < len && off % BSIZE + len <= BSIZE && off / BSIZE < |m| && b != 0
    ensures m[off / BSIZE] != 0 ==> Filled(m, Ceil(Max(n, off + len)))
    ensures m[off / BSIZE] == 0 ==> off == n && Filled(m[off / BSIZE := b], Ceil(Max(n, off + len)))
  {
  }

  lemma {:induction false} NotIndirect(blocks: seq<Block>, inodes: seq<Inode>, maps: seq<seq<nat>>, lo: nat, j: nat,
                                       bn: nat, i: nat)
    requires Table(blocks, inodes, maps, lo) && i < |inodes| && j < |inodes| && |inodes[i].addrs| == NDIRECT + 1
    requires bn < |maps[j]| && maps[j][bn] != 0
    ensures maps[j][bn] != Indirect(inodes[i])
  {
    assert InodeOk(blocks, inodes[j], maps[j], lo) && Owns(inodes[j], maps[j], maps[j][bn]);
    if i != j {
      var lower, upper := if i < j then i else j, if i < j then j else i;
      assert Apart(inodes[lower], maps[lower], inodes[upper], maps[upper]);
      assert !Owns(inodes[i], maps[i], maps[j][bn]);
    }
  }

  function EmptyMap(): seq<nat> {
    seq(MAXFILE, j => 0)
  }

  function EmptyInode(): Inode {
    Inode(0, seq(NDIRECT + 1, j => 0))
  }

  lemma {:induction false} EmptyTable(blocks: seq<Block>, n: nat, lo: nat)
    requires 0 < |blocks|
    ensures Table(blocks, seq(n, i => EmptyInode()), seq(n, i => EmptyMap()), lo)
    ensures forall x: nat :: !Owns(EmptyInode(), EmptyMap(), x)
  {
  }

  class FileSystem {
    const size: nat        // sb.size
    const dataStart: nat   // the first block after the boot, super, log, inode and bitmap blocks
    const bmapStart: nat   // sb.bmapstart
    const inodeStart: nat  // sb.inodestart
    var bitmap: seq<bv8>
    var blocks: seq<Block>
    var inodes: seq<Inode>             // struct inode, in memory
    var dinodes: seq<Inode>            // struct dinode, on disk
    ghost const reserved: set<nat>     // blocks in use that no inode will ever own
    ghost var maps: seq<seq<nat>>      // the block map of each inode
    ghost var logged: set<nat>         // blocks passed to log_write since begin_op
    ghost var largest: nat             // the most blocks any finished transaction has logged

    ghost function Where(): Geometry { Geometry(size, dataStart, bmapStart, inodeStart) }

    ghost function OnDisk(): Image
      reads this
    {
      Image(blocks, dinodes, bitmap)
    }

    ghost predicate Valid()
      reads this
    {
      && 0 < dataStart <= size <= 0x1_0000_0000 && |blocks| == size <= 8 * |bitmap|
      && |inodes| == |maps| == |dinodes| && Placed(Where(), |dinodes|)
      && Table(blocks, inodes, maps, dataStart)
      && Marked(bitmap, inodes, maps, dataStart, size, reserved)
    }

    /** A file system whose inodes are all empty, on any bitmap that marks the blocks before the data. */
    constructor (size: nat, dataStart: nat, bmapStart: nat, inodeStart: nat, bitmap: seq<bv8>, blocks: seq<Block>,
      ninodes: nat)
      requires 0 < dataStart <= size <= 0x1_0000_0000 && |blocks| == size <= 8 * |bitmap| && AllUsed(bitmap, dataStart)
      requires Placed(Geometry(size, dataStart, bmapStart, inodeStart), ninodes)
      ensures Closed() && |inodes| == ninodes && FilesOf(this.blocks, inodes, maps) == seq(ninodes, i => [])
      ensures this.bitmap == bitmap && this.blocks == blocks && logged == {} && largest == 0
      ensures reserved == set b: nat | b < size && Used(bitmap, b)
    {
      reserved := set b: nat | b < size && Used(bitmap, b);
      this.size, this.dataStart, this.bmapStart, this.inodeStart := size, dataStart, bmapStart, inodeStart;
      this.bitmap, this.blocks := bitmap, blocks;
      inodes := seq(ninodes, i => EmptyInode());
      dinodes := seq(ninodes, i => EmptyInode());
      maps := seq(ninodes, i => EmptyMap());
      logged, largest := {}, 0;
      new;
      EmptyTable(blocks, ninodes, dataStart);
    }

    /** Blocks of the bitmap and of the inode area, for the log. */
    function BBlock(b: nat): nat { b / BPB + bmapStart }
    function IBlock(i: nat): nat { i / IPB + inodeStart }

    /** balloc(): the lowest free block, zeroed.  ok is false for its panic, when none is free. */
    method Balloc() returns (b: uint32, ok: bool)
      requires Valid()
      modifies this`bitmap, this`blocks, this`logged
      ensures !ok ==> bitmap == old(bitmap) && blocks == old(blocks) && AllUsed(bitmap, size)
      ensures ok ==> dataStart <= b < size && !Used(old(bitmap), b) && AllUsed(old(bitmap), b)
      ensures ok ==> bitmap == Mark(old(bitmap), b) && blocks == old(blocks)[b := ZeroBlock()]
      ensures ok ==> logged == old(logged) + {BBlock(b)} + {b}
      ensures ok ==> Traced(Where(), old(OnDisk()), old(logged), OnDisk(), logged)
    {
      hide Traced, Placed, Table, Marked;
      var base := 0;
      while base < size
        invariant 0 <= base && base % 8 == 0
        invariant bitmap == old(bitmap) && blocks == old(blocks) && logged == old(logged)
        invariant AllUsed(bitmap, if base < size then base else size)
      {
        var bi := 0;
        while bi < BPB && base + bi < size
          invariant 0 <= bi <= BPB && base + bi <= size && AllUsed(bitmap, base + bi)
          invariant bitmap == old(bitmap) && blocks == old(blocks) && logged == old(logged)
        {
          UsedFrom(bitmap, base, bi);
          if bitmap[base / 8 + bi / 8] & Mask(bi % 8) == 0 {
            b := base + bi;
            FreeIsData(bitmap, inodes, maps, dataStart, size, reserved, b);
            TakeBlock(b);
            return b, true;
          }
          OneMoreUsed(bitmap, base + bi);
          bi := bi + 1;
        }
        base := base + BPB;
      }
      return 0, false;
    }

    /** balloc's work on the free block it has found: the bit, and bzero(). */
    method TakeBlock(b: nat)
      requires dataStart <= b < size == |blocks| <= 8 * |bitmap| && Placed(Where(), |dinodes|)
      modifies this`bitmap, this`blocks, this`logged
      ensures bitmap == Mark(old(bitmap), b) && blocks == old(blocks)[b := ZeroBlock()]
      ensures logged == old(logged) + {BBlock(b)} + {b}
      ensures Traced(Where(), old(OnDisk()), old(logged), OnDisk(), logged)
    {
      hide Traced, Placed, Mark;
      TracedTake(Where(), OnDisk(), logged, b, ZeroBlock(), |dinodes|);
      bitmap := Mark(bitmap, b);
      logged := logged + {BBlock(b)};
      blocks := blocks[b := ZeroBlock()];
      logged := logged + {b};
    }

    /** bfree(): ok is false for its panic, "freeing free block". */
    method Bfree(b: nat) returns (ok: bool)
      requires b < size <= 8 * |bitmap|
      modifies this`bitmap, this`logged
      ensures ok == Used(old(bitmap), b)
      ensures ok ==> bitmap == Unmark(old(bitmap), b) && logged == old(logged) + {BBlock(b)}
      ensures !ok ==> bitmap == old(bitmap)
    {
      if bitmap[b / 8] & Mask(b % 8) == 0 {
        return false;
      }
      bitmap := Unmark(bitmap, b);
      logged := logged + {BBlock(b)};
      return true;
    }

    /** iupdate(): write-through of the in-memory inode. */
    method Iupdate(i: nat)
      requires i < |inodes| == |dinodes|
      modifies this`dinodes, this`logged
      ensures dinodes == old(dinodes)[i := inodes[i]] && logged == old(logged) + {IBlock(i)}
    {
      dinodes := dinodes[i := inodes[i]];
      logged := logged + {IBlock(i)};
    }

    /** A fresh block into direct slot bn. */
    method AllocDirect(i: nat, bn: nat) returns (addr: uint32, ok: bool)
      requires Valid() && i < |inodes| && bn < NDIRECT && |maps[i]| == MAXFILE && maps[i][bn] == 0
      requires |inodes[i].addrs| == NDIRECT + 1
      modifies this`bitmap, this`blocks, this`inodes, this`maps, this`logged
      ensures Valid() && (!ok ==> AllUsed(bitmap, size))
      ensures ok ==> dataStart <= addr < size && !Used(old(bitmap), addr)
      ensures ok ==> maps == SetMap(old(maps), i, bn, addr) && blocks == old(blocks)[addr := ZeroBlock()]
      ensures ok ==> inodes == old(inodes)[i := SetAddr(old(inodes[i]), bn, addr)]
      ensures ok ==> old(logged) <= logged && addr in logged && |logged| <= |old(logged)| + 2
      ensures ok ==> Traced(Where(), old(OnDisk()), old(logged), OnDisk(), logged)
      ensures ok ==> DataKept(old(blocks), blocks, old(maps))
    {
      hide Traced, Placed;
      addr, ok := Balloc();
      if !ok { return; }
      assert forall j :: 0 <= j < |inodes| ==> InodeOk(old(blocks), inodes[j], maps[j], dataStart);
      KeptUnowned(blocks, inodes, maps, addr, old(blocks));
      AddTwo(old(logged), BBlock(addr), addr);
      TableDirect(old(blocks), inodes, maps, dataStart, i, bn, addr);
      inodes := inodes[i := SetAddr(inodes[i], bn, addr)];
      maps := SetMap(maps, i, bn, addr);
      UpdateIn(old(maps[i]), bn, addr);
      MarkedMore(old(bitmap), old(inodes), old(maps), inodes, maps, i, dataStart, size, addr, reserved);
    }

    /** A fresh block as the indirect block. */
    method AllocIndirect(i: nat) returns (b: uint32, ok: bool)
      requires Valid() && i < |inodes| && |inodes[i].addrs| == NDIRECT + 1 && Indirect(inodes[i]) == 0
      modifies this`bitmap, this`blocks, this`inodes, this`logged
      ensures Valid() && (!ok ==> AllUsed(bitmap, size))
      ensures ok ==> dataStart <= b < size && !Used(old(bitmap), b) && bitmap == Mark(old(bitmap), b)
      ensures ok ==> blocks == old(blocks)[b := ZeroBlock()]
      ensures ok ==> inodes == old(inodes)[i := SetAddr(old(inodes[i]), NDIRECT, b)]
      ensures ok ==> old(logged) <= logged && b in logged && |logged| <= |old(logged)| + 2
      ensures ok ==> Traced(Where(), old(OnDisk()), old(logged), OnDisk(), logged)
      ensures ok ==> DataKept(old(blocks), blocks, maps)
    {
      hide Traced, Placed;
      b, ok := Balloc();
      if !ok { return; }
      assert forall j :: 0 <= j < |inodes| ==> InodeOk(old(blocks), inodes[j], maps[j], dataStart);
      KeptUnowned(blocks, inodes, maps, b, old(blocks));
      AddTwo(old(logged), BBlock(b), b);
      TableIndirect(old(blocks), inodes, maps, dataStart, i, b);
      inodes := inodes[i := SetAddr(inodes[i], NDIRECT, b)];
      MarkedMore(old(bitmap), old(inodes), maps, inodes, maps, i, dataStart, size, b, reserved);
    }

    /** A fresh block into entry bn of the indirect block. */
    method AllocEntry(i: nat, bn: nat) returns (addr: uint32, ok: bool)
      requires Valid() && i < |inodes| && NDIRECT <= bn < MAXFILE && |maps[i]| == MAXFILE && maps[i][bn] == 0
      requires |inodes[i].addrs| == NDIRECT + 1 && 0 != Indirect(inodes[i]) < size
      modifies this`bitmap, this`blocks, this`maps, this`logged
      ensures Valid() && (!ok ==> AllUsed(bitmap, size))
      ensures ok ==> dataStart <= addr < size && !Used(old(bitmap), addr)
      ensures ok ==> maps == SetMap(old(maps), i, bn, addr)
      ensures ok ==> blocks == SetEntry(old(blocks)[addr := ZeroBlock()], Indirect(inodes[i]), bn, addr)
      ensures ok ==> old(logged) <= logged && addr in logged && Indirect(inodes[i]) in logged
      ensures ok ==> |logged| <= |old(logged)| + if Indirect(inodes[i]) in old(logged) then 2 else 3
      ensures ok ==> Traced(Where(), old(OnDisk()), old(logged), OnDisk(), logged)
      ensures ok ==> DataKept(old(blocks), blocks, old(maps))
    {
      hide Traced, Placed, DataKept, Table, Marked, SetEntry;
      EntryFacts(blocks, inodes, maps, dataStart, i);
      addr, ok := Balloc();
      if !ok { return; }
      ghost var ind := Indirect(inodes[i]);
      EntryAdded(old(blocks), old(bitmap), inodes, maps, dataStart, size, reserved, i, bn, addr);
      AddTwo(old(logged), BBlock(addr), addr);
      AddOne(logged, ind);
      SetEntryAt(blocks, ind, bn, addr);
      TracedData(Where(), OnDisk(), logged, ind, SetEntry(blocks, ind, bn, addr)[ind], |dinodes|);
      ghost var s1, log1 := OnDisk(), logged;
      blocks := SetEntry(blocks, Indirect(inodes[i]), bn, addr);
      logged := logged + {Indirect(inodes[i])};
      TracedTrans(Where(), old(OnDisk()), old(logged), s1, log1, OnDisk(), logged);
      maps := SetMap(maps, i, bn, addr);
    }

    /** bmap(): the address of block bn of inode i, allocating it if it is missing.  ok is false
        for the panics (bn out of range, no free block). */
    method Bmap(i: nat, bn: nat) returns (addr: uint32, ok: bool)
      requires Valid() && i < |inodes|
      modifies this`bitmap, this`blocks, this`inodes, this`maps, this`logged
      ensures Valid() && (bn >= MAXFILE ==> !ok) && (!ok && bn < MAXFILE ==> AllUsed(bitmap, size))
      ensures bn < MAXFILE == |old(maps[i])| && old(maps[i])[bn] != 0 ==> ok
      ensures ok ==> |inodes| == |old(inodes)| && |maps[i]| == MAXFILE && |old(maps[i])| == MAXFILE
      ensures ok ==> addr == maps[i][bn] && dataStart <= addr < size
      ensures ok && old(maps[i])[bn] != 0 ==> maps == old(maps) && blocks == old(blocks) && bitmap == old(bitmap)
      ensures ok && old(maps[i])[bn] != 0 ==> inodes == old(inodes) && logged == old(logged)
      ensures ok && old(maps[i])[bn] == 0 ==> maps == SetMap(old(maps), i, bn, addr) && blocks[addr] == ZeroBlock()
      ensures ok && old(maps[i])[bn] == 0 ==> !Used(old(bitmap), addr) && addr in logged
      ensures ok ==> inodes == old(inodes)[i := inodes[i]] && inodes[i].size == old(inodes[i].size)
      ensures ok ==> DataKept(old(blocks), blocks, old(maps))
      ensures ok ==> old(logged) <= logged && |old(inodes[i]).addrs| == NDIRECT + 1
      ensures ok ==> Traced(Where(), old(OnDisk()), old(logged), OnDisk(), logged)
      ensures ok ==> |logged| <= |old(logged)| + BmapCost(old(inodes[i]), old(maps[i]), bn, old(logged))
      ensures ok && bn >= NDIRECT && old(maps[i])[bn] == 0 ==>
        |inodes[i].addrs| == NDIRECT + 1 && Indirect(inodes[i]) in logged
      ensures ok && (bn < NDIRECT || Indirect(old(inodes[i])) != 0) ==>
        |inodes[i].addrs| == NDIRECT + 1 && Indirect(inodes[i]) == Indirect(old(inodes[i]))
    {
      hide Marked, DataKept, Traced, Placed;
      DataTrans(blocks, blocks, blocks, maps);
      TracedNone(Where(), OnDisk(), logged);
      assert InodeOk(blocks, inodes[i], maps[i], dataStart);
      if bn < NDIRECT {
        addr := inodes[i].addrs[bn];
        if addr == 0 {
          addr, ok := AllocDirect(i, bn);
          return;
        }
        assert Owns(inodes[i], maps[i], addr);
        return addr, true;
      }
      if bn < MAXFILE {
        if Indirect(inodes[i]) == 0 {
          var b: uint32;
          b, ok := AllocIndirect(i);
          if !ok { return 0, false; }
        }
        assert InodeOk(blocks, inodes[i], maps[i], dataStart);
        addr := Entry(blocks[Indirect(inodes[i])], bn);
        if addr == 0 {
          ghost var s1, log1 := OnDisk(), logged;
          addr, ok := AllocEntry(i, bn);
          if ok {
            DataTrans(old(blocks), s1.blocks, blocks, old(maps));
            TracedTrans(Where(), old(OnDisk()), old(logged), s1, log1, OnDisk(), logged);
          }
          return;
        }
        assert maps[i][bn] == addr;
        assert Owns(inodes[i], maps[i], addr);
        return addr, true;
      }
      return 0, false;
    }

    /** One round of writei's loop: the part of the data that falls in one block.  n is how far
        the file reaches so far. */
    method WriteOne(i: nat, off: nat, chunk: seq<byte>, ghost n: nat, ghost w: nat) returns (ok: bool)
      requires Valid() && i < |inodes| && off <= n && off / BSIZE < MAXFILE && 0 < |chunk| &&
        off % BSIZE + |chunk| <= BSIZE
      requires Filled(maps[i], Ceil(n))
      requires |inodes[i].addrs| == NDIRECT + 1 && 1 <= w <= 2 && (Indirect(inodes[i]) == 0 ==> w == 2)
      modifies this`bitmap, this`blocks, this`inodes, this`maps, this`logged
      ensures Valid() && (!ok ==> AllUsed(bitmap, size))
      ensures ok ==>
        WroteOne(old(State(blocks, inodes, maps, logged)), State(blocks, inodes, maps, logged), i, off, chunk, n, w)
      ensures ok ==> Traced(Where(), old(OnDisk()), old(logged), OnDisk(), logged)
    {
      hide Table, Marked, Overlay, DataKept, Traced, Placed;
      ghost var m := maps[i];
      EntryFacts(blocks, inodes, maps, dataStart, i);
      ContentsFrame(blocks, blocks, m, m, n);
      var bn := off / BSIZE;
      var addr: uint32;
      addr, ok := Bmap(i, bn);
      if !ok { return; }
      EntryFacts(blocks, inodes, maps, dataStart, i);
      FilledStep(m, n, off, |chunk|, addr);
      KeptOthers(old(blocks), old(inodes), old(maps), blocks, inodes, maps, i);
      FreshContents(old(blocks), m, blocks, maps[i], bn, n, old(maps), i);
      ghost var s1, log1 := OnDisk(), logged;
      StoreAt(i, addr, off, chunk, n);
      OthersTrans(old(blocks), old(inodes), old(maps), s1.blocks, inodes, maps, blocks, inodes, maps, i);
      TracedTrans(Where(), old(OnDisk()), old(logged), s1, log1, OnDisk(), logged);
    }

    /** Part of a data block is changed and logged. */
    method StoreAt(i: nat, addr: uint32, off: nat, chunk: seq<byte>, ghost n: nat)
      requires Valid() && i < |inodes| && off <= n && off / BSIZE < MAXFILE && 0 < |chunk| &&
        off % BSIZE + |chunk| <= BSIZE
      requires |maps[i]| == MAXFILE && dataStart <= addr < size && addr == maps[i][off / BSIZE]
      modifies this`blocks, this`logged
      ensures Valid() && OthersSame(old(blocks), inodes, maps, blocks, inodes, maps, i)
      ensures Contents(blocks, maps[i], Max(n, off + |chunk|)) == Overlay(Contents(old(blocks), maps[i], n), off, chunk)
      ensures old(logged) <= logged && |logged| <= |old(logged)| + (if addr in old(logged) then 0 else 1)
      ensures logged == old(logged) + {addr}
      ensures Traced(Where(), old(OnDisk()), old(logged), OnDisk(), logged)
    {
      assert InodeOk(blocks, inodes[i], maps[i], dataStart);
      WriteChunk(blocks, maps[i], n, off, chunk);
      TableData(blocks, inodes, maps, dataStart, i, off / BSIZE, Splice(blocks[addr], off % BSIZE, chunk));
      DataOthers(blocks, inodes, maps, dataStart, i, off / BSIZE, Splice(blocks[addr], off % BSIZE, chunk));
      TracedData(Where(), OnDisk(), logged, addr, Splice(blocks[addr], off % BSIZE, chunk), |dinodes|);
      blocks := blocks[addr := Splice(blocks[addr], off % BSIZE, chunk)];
      AddOne(logged, addr);
      logged := logged + {addr};
    }

    /** No operation is in progress. */
    ghost predicate Closed()
      reads this
    {
      Valid() && forall j :: 0 <= j < |inodes| ==> Settled(inodes[j], dinodes[j], maps[j])
    }

    /** The byte sequence that inode i stands for. */
    ghost function File(i: nat): seq<byte>
      reads this
      requires i < |inodes| && |maps| == |inodes|
    {
      Contents(blocks, maps[i], inodes[i].size)
    }

    /** One round of writei's loop, from position tot. */
    method WriteRound(i: nat, off: uint32, src: seq<byte>, tot: nat, ghost s0: State, ghost w: nat)
      returns (m: nat, ok: bool)
      requires tot < |src| && i < |s0.inodes| && CanWrite(s0.inodes[i].size, off, |src|) && 1 <= w <= 2
      requires Valid() && AtBoundary(off, tot, |src|) &&
        Wrote(s0, State(blocks, inodes, maps, logged), i, off, src[..tot], w)
      modifies this`bitmap, this`blocks, this`inodes, this`maps, this`logged
      ensures 0 < m <= |src| - tot && AtBoundary(off, tot + m, |src|)
      ensures Valid() && (!ok ==> AllUsed(bitmap, size))
      ensures ok ==> Wrote(s0, State(blocks, inodes, maps, logged), i, off, src[..tot + m], w)
      ensures ok ==> Traced(Where(), old(OnDisk()), old(logged), OnDisk(), logged)
    {
      hide Marked, Table, Traced, Placed;
      ghost var s1 := State(blocks, inodes, maps, logged);
      m := ChunkLen(off + tot, |src| - tot);
      RoundPosition(s0.inodes[i].size, off, tot, m, |src|);
      ok := WriteOne(i, off + tot, src[tot..tot + m], Max(s0.inodes[i].size, off + tot), w);
      if ok {
        WroteMore(s0, s1, State(blocks, inodes, maps, logged), i, off, src, tot, m, w);
      }
    }

    /** writei's loop. */
    method WriteAll(i: nat, off: uint32, src: seq<byte>, ghost s0: State, ghost w: nat) returns (ok: bool)
      requires Valid() && i < |inodes| && CanWrite(inodes[i].size, off, |src|) && 1 <= w <= 2
      requires s0 == State(blocks, inodes, maps, logged) && Wrote(s0, s0, i, off, [], w)
      modifies this`bitmap, this`blocks, this`inodes, this`maps, this`logged
      ensures Valid() && (!ok ==> AllUsed(bitmap, size))
      ensures ok ==> Wrote(s0, State(blocks, inodes, maps, logged), i, off, src, w)
      ensures ok ==> Traced(Where(), old(OnDisk()), old(logged), OnDisk(), logged)
    {
      hide Marked, Table, Wrote, Traced, Placed;
      var tot := 0;
      assert src[..0] == [];
      TracedNone(Where(), OnDisk(), logged);
      while tot < |src|
        invariant 0 <= tot <= |src| && AtBoundary(off, tot, |src|)
        invariant Valid() && Wrote(s0, State(blocks, inodes, maps, logged), i, off, src[..tot], w)
        invariant Traced(Where(), old(OnDisk()), old(logged), OnDisk(), logged)
      {
        ghost var s1, log1 := OnDisk(), logged;
        var m;
        m, ok := WriteRound(i, off, src, tot, s0, w);
        if !ok { return; }
        TracedTrans(Where(), old(OnDisk()), old(logged), s1, log1, OnDisk(), logged);
        tot := tot + m;
      }
      assert src[..tot] == src;
      ok := true;
    }

    /** The end of writei: record the new size, in memory and on disk. */
    method SetSize(i: nat, n: uint32)
      requires Valid() && i < |inodes|
      modifies this`inodes, this`dinodes, this`logged
      ensures Valid() && inodes == old(inodes)[i := old(inodes[i]).(size := n)] &&
        dinodes == old(dinodes)[i := inodes[i]]
      ensures old(logged) <= logged && |logged| <= |old(logged)| + 1
      ensures Traced(Where(), old(OnDisk()), old(logged), OnDisk(), logged)
    {
      TracedInode(Where(), OnDisk(), logged, i, inodes[i].(size := n));
      GrowSize(blocks, inodes, maps, dataStart, i, n, bitmap, size, reserved);
      inodes := inodes[i := inodes[i].(size := n)];
      AddOne(logged, IBlock(i));
      Iupdate(i);
    }

    /** writei() past its checks: the loop, then the size if the file has grown. */
    method WriteFile(i: nat, off: uint32, src: seq<byte>) returns (ok: bool)
      requires Closed() && i < |inodes| && CanWrite(inodes[i].size, off, |src|)
      modifies this`bitmap, this`blocks, this`inodes, this`dinodes, this`maps, this`logged
      ensures Valid() && (!ok ==> AllUsed(bitmap, size))
      ensures ok ==> Closed() && OthersSame(old(blocks), old(inodes), old(maps), blocks, inodes, maps, i)
      ensures ok ==> i < |inodes| && File(i) == Overlay(old(File(i)), off, src)
      ensures ok ==> |logged| <= |old(logged)| + Touched(off, |src|) + Fresh(old(inodes[i].size), off, |src|) + 3
      ensures ok ==> Traced(Where(), old(OnDisk()), old(logged), OnDisk(), logged)
    {
      hide Marked, Overlay, Touched, Fresh, Traced, Placed;
      assert InodeOk(blocks, inodes[i], maps[i], dataStart) && Settled(inodes[i], dinodes[i], maps[i]);
      ghost var w := if Indirect(inodes[i]) == 0 then 2 else 1;
      ghost var s0 := State(blocks, inodes, maps, logged);
      WroteNothing(s0, i, off, w);
      ok := WriteAll(i, off, src, s0, w);
      if !ok { return; }
      ghost var s1, log1 := OnDisk(), logged;
      if |src| > 0 && off + |src| > inodes[i].size {
        SetSize(i, off + |src|);
        TracedTrans(Where(), old(OnDisk()), old(logged), s1, log1, OnDisk(), logged);
      }
      SettledAfter(old(inodes), old(dinodes), old(maps), inodes, dinodes, maps, i);
    }

    /** writei(): the file becomes the old one with src laid over it at off. */
    method Writei(i: nat, off: uint32, src: seq<byte>) returns (r: int, ok: bool)
      requires Closed() && i < |inodes| && |src| < 0x1_0000_0000
      modifies this`bitmap, this`blocks, this`inodes, this`dinodes, this`maps, this`logged
      ensures Valid() && (!ok ==> AllUsed(bitmap, size))
      ensures ok ==> Closed() && OthersSame(old(blocks), old(inodes), old(maps), blocks, inodes, maps, i)
      ensures ok ==> i < |inodes| && r == if CanWrite(old(inodes[i].size), off, |src|) then |src| else -1
      ensures ok && r >= 0 ==> File(i) == Overlay(old(File(i)), off, src)
      ensures ok && r < 0 ==> blocks == old(blocks) && inodes == old(inodes) && maps == old(maps)
      ensures ok && r < 0 ==> dinodes == old(dinodes) && logged == old(logged)
      ensures ok && r >= 0 ==>
        |logged| <= |old(logged)| + Touched(off, |src|) + Fresh(old(inodes[i].size), off, |src|) + 3
      ensures ok ==> Traced(Where(), old(OnDisk()), old(logged), OnDisk(), logged)
    {
      hide Marked, Table, Traced, Placed;
      TracedNone(Where(), OnDisk(), logged);
      if off > inodes[i].size || off + |src| >= 0x1_0000_0000 || off + |src| > MAXBYTES {
        return -1, true;
      }
      ok := WriteFile(i, off, src);
      r := |src|;
    }

    /** One round of readi's loop: bmap finds the block, since every block below the size is mapped. */
    method ReadOne(i: nat, pos: nat, left: nat) returns (chunk: seq<byte>)
      requires Closed() && i < |inodes| && 0 < left <= inodes[i].size - pos
      modifies this`bitmap, this`blocks, this`inodes, this`maps, this`logged
      ensures bitmap == old(bitmap) && blocks == old(blocks) && inodes == old(inodes) && maps == old(maps) &&
        logged == old(logged)
      ensures 0 < |chunk| <= left && chunk == File(i)[pos..pos + |chunk|]
    {
      var m := ChunkLen(pos, left);
      assert Settled(inodes[i], dinodes[i], maps[i]) && InodeOk(blocks, inodes[i], maps[i], dataStart);
      assert pos / BSIZE < Ceil(inodes[i].size) && pos / BSIZE < MAXFILE;
      var addr, ok := Bmap(i, pos / BSIZE);
      ReadChunk(blocks, maps[i], inodes[i].size, pos, m);
      chunk := blocks[addr][pos % BSIZE..pos % BSIZE + m];
    }

    /** readi(): a slice of the file, clipped to its end.  It never allocates, so nothing changes. */
    method Readi(i: nat, off: uint32, n: uint32) returns (r: int, data: seq<byte>)
      requires Closed() && i < |inodes|
      modifies this`bitmap, this`blocks, this`inodes, this`maps, this`logged
      ensures bitmap == old(bitmap) && blocks == old(blocks) && inodes == old(inodes) && maps == old(maps) &&
        logged == old(logged)
      ensures off > inodes[i].size || off + n >= 0x1_0000_0000 ==> r == -1 && data == []
      ensures off <= inodes[i].size && off + n < 0x1_0000_0000 ==>
        && r == (if off + n > inodes[i].size then inodes[i].size - off else n)
        && data == File(i)[off..off + r]
    {
      hide Table, Marked, Placed, Contents;
      data := [];
      if off > inodes[i].size || off + n >= 0x1_0000_0000 {
        return -1, data;
      }
      var len := if off + n > inodes[i].size then inodes[i].size - off else n;
      var tot := 0;
      while tot < len
        invariant 0 <= tot <= len
        invariant bitmap == old(bitmap) && blocks == old(blocks) && inodes == old(inodes) && maps == old(maps) &&
          logged == old(logged)
        invariant data == File(i)[off..off + tot]
      {
        var chunk := ReadOne(i, off + tot, len - tot);
        data := data + chunk;
        tot := tot + |chunk|;
      }
      r := len;
    }

    /** One round of itrunc's loops: free block b of slot k, if there is one. */
    method FreeSlot(b: nat, ghost bm: seq<bv8>, ghost m: seq<nat>, ghost k: nat)
      requires Placed(Where(), |dinodes|) && |blocks| == size <= 8 * |bitmap|
      requires k < |m| && b == m[k] && b < size && FreedSlots(bm, bitmap, m, k)
      requires b != 0 ==> Used(bm, b) && b !in m[..k]
      modifies this`bitmap, this`logged
      ensures FreedSlots(bm, bitmap, m, k + 1)
      ensures Traced(Where(), old(OnDisk()), old(logged), OnDisk(), logged)
    {
      hide Traced, Placed;
      FreedMore(bm, bitmap, m, k);
      TracedNone(Where(), OnDisk(), logged);
      if b != 0 {
        TracedGive(Where(), OnDisk(), logged, b, |dinodes|);
        var ok := Bfree(b);
        assert ok;
      }
    }

    /** itrunc(): the file becomes empty, and exactly the blocks it owned are freed; the panic of
        bfree cannot happen. */
    method Itrunc(i: nat)
      requires Closed() && i < |inodes|
      modifies this`bitmap, this`inodes, this`dinodes, this`maps, this`logged
      ensures Closed() && i < |inodes| && File(i) == []
      ensures OthersSame(old(blocks), old(inodes), old(maps), blocks, inodes, maps, i)
      ensures Freed(old(bitmap), bitmap, old(inodes[i]), old(maps[i]))
      ensures Traced(Where(), old(OnDisk()), old(logged), OnDisk(), logged)
    {
      hide Table, Marked, Traced, Placed, Freed, Owns;
      FreeBlocks(i);
      maps := maps[i := EmptyMap()];
      inodes := inodes[i := inodes[i].(size := 0)];
      ghost var s1, log1 := OnDisk(), logged;
      TracedInode(Where(), OnDisk(), logged, i, inodes[i]);
      Iupdate(i);
      TracedTrans(Where(), old(OnDisk()), old(logged), s1, log1, OnDisk(), logged);
      TableTrunc(blocks, old(inodes), old(maps), dataStart, i, inodes, maps);
      NothingOwned(inodes[i]);
      MarkedTrunc(old(bitmap), bitmap, blocks, old(inodes), old(maps), dataStart, size, i, inodes, maps, reserved);
    }

    /** itrunc's frees: the direct blocks, the indirect ones, the indirect block. */
    method FreeBlocks(i: nat)
      requires Valid() && i < |inodes|
      modifies this`bitmap, this`inodes, this`logged
      ensures |inodes| == |old(inodes)| && inodes == old(inodes)[i := inodes[i]]
      ensures ClearedTo(old(inodes[i]), inodes[i], NDIRECT + 1) && |inodes[i].addrs| == NDIRECT + 1
      ensures |bitmap| == |old(bitmap)| && Freed(old(bitmap), bitmap, old(inodes[i]), maps[i])
      ensures Traced(Where(), old(OnDisk()), old(logged), OnDisk(), logged)
    {
      hide Marked, Traced, Placed;
      ghost var bm, m, ip := bitmap, maps[i], inodes[i];
      assert InodeOk(blocks, ip, m, dataStart);
      OwnedUsed(bm, inodes, maps, blocks, dataStart, size, i, reserved);
      FreeDirect(i, bm, m, ip);
      if Indirect(inodes[i]) != 0 {
        ghost var s1, log1 := OnDisk(), logged;
        FreeIndirect(i, bm, m, ip);
        TracedTrans(Where(), old(OnDisk()), old(logged), s1, log1, OnDisk(), logged);
        inodes := inodes[i := SetAddr(inodes[i], NDIRECT, 0)];
      } else {
        NoneIndirect(bm, bitmap, blocks, ip, m);
      }
    }

    /** The direct part of itrunc. */
    method FreeDirect(i: nat, ghost bm: seq<bv8>, ghost m: seq<nat>, ghost ip: Inode)
      requires |blocks| == size <= 8 * |bitmap| && bm == bitmap && i < |inodes| && ip == inodes[i] &&
        InodeOk(blocks, ip, m, dataStart) && Placed(Where(), |dinodes|)
      requires dataStart > 0 && forall x: nat :: Owns(ip, m, x) ==> x < size && Used(bm, x)
      modifies this`bitmap, this`inodes, this`logged
      ensures |bitmap| == |bm| && FreedSlots(bm, bitmap, m, NDIRECT)
      ensures |inodes| == |old(inodes)| && inodes == old(inodes)[i := inodes[i]]
      ensures |inodes[i].addrs| == NDIRECT + 1 && ClearedTo(ip, inodes[i], NDIRECT)
      ensures Traced(Where(), old(OnDisk()), old(logged), OnDisk(), logged)
    {
      hide Traced, Placed;
      var k := 0;
      TracedNone(Where(), OnDisk(), logged);
      while k < NDIRECT
        invariant 0 <= k <= NDIRECT && |bitmap| == |bm| && FreedSlots(bm, bitmap, m, k)
        invariant Traced(Where(), old(OnDisk()), old(logged), OnDisk(), logged)
        invariant |inodes| == |old(inodes)| && inodes == old(inodes)[i := inodes[i]]
        invariant |inodes[i].addrs| == NDIRECT + 1 && ClearedTo(ip, inodes[i], k)
      {
        SlotFacts(bm, ip, m, dataStart, size, k);
        ghost var s1, log1 := OnDisk(), logged;
        FreeSlot(inodes[i].addrs[k], bm, m, k);
        TracedTrans(Where(), old(OnDisk()), old(logged), s1, log1, OnDisk(), logged);
        inodes := inodes[i := SetAddr(inodes[i], k, 0)];
        k := k + 1;
      }
    }

    /** The indirect part of itrunc: the entries, then the indirect block itself. */
    method FreeIndirect(i: nat, ghost bm: seq<bv8>, ghost m: seq<nat>, ghost ip: Inode)
      requires |blocks| == size <= 8 * |bitmap| && |bm| == |bitmap| && i < |inodes| && InodeOk(blocks, ip, m, dataStart)
      requires |inodes[i].addrs| == NDIRECT + 1 && 0 != Indirect(inodes[i]) == Indirect(ip)
      requires FreedSlots(bm, bitmap, m, NDIRECT) && dataStart > 0 && Placed(Where(), |dinodes|)
      requires forall x: nat :: Owns(ip, m, x) ==> x < size && Used(bm, x)
      modifies this`bitmap, this`logged
      ensures Freed(bm, bitmap, ip, m)
      ensures Traced(Where(), old(OnDisk()), old(logged), OnDisk(), logged)
    {
      hide Traced, Placed;
      var j := 0;
      TracedNone(Where(), OnDisk(), logged);
      while j < NINDIRECT
        invariant 0 <= j <= NINDIRECT && |bitmap| == |bm| && FreedSlots(bm, bitmap, m, NDIRECT + j)
        invariant Traced(Where(), old(OnDisk()), old(logged), OnDisk(), logged)
      {
        SlotFacts(bm, ip, m, dataStart, size, NDIRECT + j);
        ghost var s1, log1 := OnDisk(), logged;
        FreeSlot(Entry(blocks[Indirect(inodes[i])], NDIRECT + j), bm, m, NDIRECT + j);
        TracedTrans(Where(), old(OnDisk()), old(logged), s1, log1, OnDisk(), logged);
        j := j + 1;
      }
      assert m[..MAXFILE] == m;
      assert Owns(ip, m, Indirect(ip));
      ghost var bm1, s2, log2 := bitmap, OnDisk(), logged;
      TracedGive(Where(), OnDisk(), logged, Indirect(inodes[i]), |dinodes|);
      var ok := Bfree(Indirect(inodes[i]));
      assert ok;
      TracedTrans(Where(), old(OnDisk()), old(logged), s2, log2, OnDisk(), logged);
      FreedAll(bm, bm1, bitmap, ip, m);
    }

    ghost method BeginOp()
      modifies this`logged
      ensures logged == {}
    {
      logged := {};
    }

    ghost method EndOp()
      modifies this`largest
      ensures largest == Max(old(largest), |logged|)
    {
      largest := Max(largest, |logged|);
    }

    /** One chunk of filewrite: one transaction. */
    method WriteChunkOp(i: nat, off: uint32, src: seq<byte>) returns (r: int, ok: bool)
      requires Closed() && i < |inodes| && |src| <= CHUNK
      modifies this
      ensures Valid() && (!ok ==> AllUsed(bitmap, size))
      ensures ok ==> Closed() && OthersSame(old(blocks), old(inodes), old(maps), blocks, inodes, maps, i)
      ensures ok ==> i < |inodes| && r == if CanWrite(old(inodes[i].size), off, |src|) then |src| else -1
      ensures ok ==> File(i) == if r >= 0 then Overlay(old(File(i)), off, src) else old(File(i))
      ensures ok ==> largest <= Max(old(largest), MAXOPBLOCKS) && |logged| <= MAXOPBLOCKS
      ensures ok ==> Traced(Where(), old(OnDisk()), {}, OnDisk(), logged)
    {
      BeginOp();
      r, ok := Writei(i, off, src);
      if !ok { return; }
      if r >= 0 { ChunkBound(old(inodes[i].size), off, |src|); }
      EndOp();
    }
  }

  /** The most bytes filewrite puts in one transaction: ((MAXOPBLOCKS-1-1-2) / 2) * 512. */
  const CHUNK := (MAXOPBLOCKS - 1 - 1 - 2) / 2 * 512

  /** A chunk fits its transaction at any alignment, even if every allocation is in another bitmap
      block: an unaligned chunk touches four blocks, but the first of them exists already. */
  lemma {:induction false} ChunkBound(n: nat, off: nat, len: nat)
    requires off <= n && len <= CHUNK
    ensures Touched(off, len) + Fresh(n, off, len) + 3 <= MAXOPBLOCKS
  {
  }

  /** struct file, for an inode. */
  class OpenFile {
    const ip: nat
    const writable: bool
    var off: uint32

    constructor (ip: nat, writable: bool, off: uint32)
      ensures this.ip == ip && this.writable == writable && this.off == off
    {
      this.ip, this.writable, this.off := ip, writable, off;
    }
  }

  function Next(src: seq<byte>): nat {
    if |src| < CHUNK then |src| else CHUNK
  }

  /** filewrite on a byte sequence, chunk by chunk: the file, the offset, and how much is left over. */
  function Chunked(file: seq<byte>, off: nat, src: seq<byte>): (seq<byte>, nat, nat)
    decreases |src|
  {
    if src == [] || !CanWrite(|file|, off, Next(src)) then (file, off, |src|)
    else Chunked(Overlay(file, off, src[..Next(src)]), off + Next(src), src[Next(src)..])
  }

  lemma {:induction false} ChunkStep(file: seq<byte>, off: nat, src: seq<byte>)
    requires src != [] && CanWrite(|file|, off, Next(src))
    ensures Chunked(file, off, src) == Chunked(Overlay(file, off, src[..Next(src)]), off + Next(src), src[Next(src)..])
  {
    hide Overlay;
  }

  lemma {:induction false} ChunkStop(file: seq<byte>, off: nat, src: seq<byte>)
    requires src == [] || !CanWrite(|file|, off, Next(src))
    ensures Chunked(file, off, src) == (file, off, |src|)
  {
  }

  /** How many of n bytes filewrite gets into a file of size bytes at off. */
  function Writable(size: nat, off: nat, n: nat): (k: nat)
    ensures k <= n
    decreases n
  {
    var len := if n < CHUNK then n else CHUNK;
    if n == 0 || !CanWrite(size, off, len) then 0 else len + Writable(Max(size, off + len), off + len, n - len)
  }

  /** The first k bytes of src laid over c at off; none changes nothing, wherever off is. */
  function Put(c: seq<byte>, off: nat, src: seq<byte>, k: nat): seq<byte>
    requires k <= |src|
  {
    if k == 0 || off > |c| then c else Overlay(c, off, src[..k])
  }

  /** The chunks together are one overlay of a prefix of the data. */
  lemma {:induction false} ChunkedIsPut(file: seq<byte>, off: nat, src: seq<byte>)
    ensures var k := Writable(|file|, off, |src|);
      Chunked(file, off, src) == (Put(file, off, src, k), off + k, |src| - k)
    decreases |src|
  {
    hide Chunked, Put;
    var len := Next(src);
    if src != [] && CanWrite(|file|, off, len) {
      var file', rest := Overlay(file, off, src[..len]), src[len..];
      var k := Writable(|file'|, off + len, |rest|);
      ChunkStep(file, off, src);
      ChunkedIsPut(file', off + len, rest);
      PutAfter(file, off, src, len, k);
    } else {
      ChunkStop(file, off, src);
      PutNone(file, off, src);
    }
  }

  lemma {:induction false} PutNone(file: seq<byte>, off: nat, src: seq<byte>)
    ensures Put(file, off, src, 0) == file
  {
  }

  lemma {:induction false} PutAfter(file: seq<byte>, off: nat, src: seq<byte>, len: nat, k: nat)
    requires off <= |file| && 0 < len && len + k <= |src|
    ensures Put(Overlay(file, off, src[..len]), off + len, src[len..], k) == Put(file, off, src, len + k)
  {
    OverlayMore(file, off, src, len, len + k);
    assert src[len..][..k] == src[len..len + k];
  }

  /** Everything is written just when nothing was asked or the whole range fits. */
  lemma {:induction false} WritableAll(size: nat, off: nat, n: nat)
    ensures Writable(size, off, n) == n <==> n == 0 || (off <= size && off + n <= MAXBYTES)
    decreases n
  {
    var len := if n < CHUNK then n else CHUNK;
    if n > 0 && CanWrite(size, off, len) {
      WritableAll(Max(size, off + len), off + len, n - len);
    }
  }

  /** One round of filewrite's loop. */
  method WriteNext(fs: FileSystem, f: OpenFile, src: seq<byte>) returns (r: int, ok: bool)
    requires fs.Closed() && f.ip < |fs.inodes| && src != []
    modifies fs, f`off
    ensures fs.Valid() && (!ok ==> AllUsed(fs.bitmap, fs.size))
    ensures ok ==> fs.Closed()
    ensures ok ==> OthersSame(old(fs.blocks), old(fs.inodes), old(fs.maps), fs.blocks, fs.inodes, fs.maps, f.ip)
    ensures ok ==> f.ip < |fs.inodes| && fs.largest <= Max(old(fs.largest), MAXOPBLOCKS)
    ensures ok && r < 0 ==> !CanWrite(|old(fs.File(f.ip))|, old(f.off), Next(src))
    ensures ok && r < 0 ==> f.off == old(f.off) && fs.File(f.ip) == old(fs.File(f.ip))
    ensures ok && r >= 0 ==> r == Next(src) && CanWrite(|old(fs.File(f.ip))|, old(f.off), Next(src))
    ensures ok && r >= 0 ==>
      f.off == old(f.off) + r && fs.File(f.ip) == Overlay(old(fs.File(f.ip)), old(f.off), src[..r])
  {
    var n1 := |src|;
    if n1 > CHUNK {
      n1 := CHUNK;
    }
    r, ok := fs.WriteChunkOp(f.ip, f.off, src[..n1]);
    if !ok { return; }
    if r > 0 {
      f.off := f.off + r;
    }
  }

  /** filewrite() on an inode: the bytes go in chunk by chunk, each chunk one transaction of at most
      MAXOPBLOCKS blocks.  ok is false for a panic below. */
  method Filewrite(fs: FileSystem, f: OpenFile, src: seq<byte>, n: int) returns (r: int, ok: bool)
    requires fs.Closed() && f.ip < |fs.inodes| && n <= |src|
    modifies fs, f`off
    ensures fs.Valid() && (!ok ==> AllUsed(fs.bitmap, fs.size))
    ensures ok ==> fs.Closed()
    ensures ok ==> OthersSame(old(fs.blocks), old(fs.inodes), old(fs.maps), fs.blocks, fs.inodes, fs.maps, f.ip)
    ensures ok ==> f.ip < |fs.inodes| && fs.largest <= Max(old(fs.largest), MAXOPBLOCKS)
    ensures ok && f.writable && n >= 0 ==>
      var (file, off, left) := Chunked(old(fs.File(f.ip)), old(f.off), src[..n]);
      fs.File(f.ip) == file && f.off == off && r == if left == 0 then n else -1
    ensures ok && (!f.writable || n < 0) ==> r == -1 && f.off == old(f.off) && fs.File(f.ip) == old(fs.File(f.ip))
  {
    hide Table, Marked, Contents, Chunked, Overlay;
    if !f.writable {
      return -1, true;
    }
    ghost var final := Chunked(fs.File(f.ip), f.off, src[..if n < 0 then 0 else n]);
    var i := 0;
    ok := true;
    while i < n
      invariant 0 <= i && (i == 0 || i <= n) && fs.Closed() && f.ip < |fs.inodes| && ok
      invariant OthersSame(old(fs.blocks), old(fs.inodes), old(fs.maps), fs.blocks, fs.inodes, fs.maps, f.ip)
      invariant fs.largest <= Max(old(fs.largest), MAXOPBLOCKS)
      invariant final == Chunked(fs.File(f.ip), f.off, if n < 0 then [] else src[i..n])
      invariant n < 0 ==> f.off == old(f.off) && fs.File(f.ip) == old(fs.File(f.ip))
    {
      ghost var b1, i1, m1, file, off := fs.blocks, fs.inodes, fs.maps, fs.File(f.ip), f.off;
      r, ok := WriteNext(fs, f, src[i..n]);
      if !ok { return; }
      OthersTrans(old(fs.blocks), old(fs.inodes), old(fs.maps), b1, i1, m1, fs.blocks, fs.inodes, fs.maps, f.ip);
      if r < 0 { break; }
      ChunkStep(file, off, src[i..n]);
      assert src[i..n][r..] == src[i + r..n];
      i := i + r;
    }
    ChunkStop(fs.File(f.ip), f.off, if n < 0 then [] else src[i..n]);
    r := if i == n then n else -1;
  }

  // ---------- whole runs against plain byte sequences ----------

  datatype Op = Write(i: nat, off: uint32, src: seq<byte>) | Read(i: nat, off: uint32, n: uint32) | Trunc(i: nat)

  /** What an operation returns: a count or -1, and the bytes read. */
  datatype Answer = Answer(r: int, data: seq<byte>)

  predicate WellFormed(op: Op, files: nat) {
    op.i < files && (op.Write? ==> |op.src| < 0x1_0000_0000)
  }

  /** The same operations on byte sequences: overlay, slice and clear. */
  function Spec(files: seq<seq<byte>>, op: Op): (r: (seq<seq<byte>>, Answer))
    requires WellFormed(op, |files|)
    ensures |r.0| == |files|
  {
    var f := files[op.i];
    match op
    case Write(i, off, src) =>
      if CanWrite(|f|, off, |src|) then (files[i := Overlay(f, off, src)], Answer(|src|, []))
        else (files, Answer(-1, []))
    case Read(i, off, n) =>
      if off > |f| || off + n >= 0x1_0000_0000 then (files, Answer(-1, []))
      else
        var len := if off + n > |f| then |f| - off else n;
        (files, Answer(len, f[off..off + len]))
    case Trunc(i) => (files[i := []], Answer(0, []))
  }

  function SpecRun(files: seq<seq<byte>>, ops: seq<Op>): (r: (seq<seq<byte>>, seq<Answer>))
    requires forall k :: 0 <= k < |ops| ==> WellFormed(ops[k], |files|)
    ensures |r.0| == |files| && |r.1| == |ops|
  {
    if ops == [] then (files, [])
    else
      var (before, answers) := SpecRun(files, ops[..|ops| - 1]);
      var (after, answer) := Spec(before, ops[|ops| - 1]);
      (after, answers + [answer])
  }

  function FilesOf(blocks: seq<Block>, inodes: seq<Inode>, maps: seq<seq<nat>>): (fs: seq<seq<byte>>)
    requires |inodes| == |maps|
    ensures |fs| == |inodes| && forall j :: 0 <= j < |fs| ==> fs[j] == Contents(blocks, maps[j], inodes[j].size)
  {
    seq(|inodes|, j requires 0 <= j < |inodes| => Contents(blocks, maps[j], inodes[j].size))
  }

  lemma {:induction false} OneFileChanged(blocks: seq<Block>, inodes: seq<Inode>, maps: seq<seq<nat>>,
                                          clocks: seq<Block>, js: seq<Inode>, ms: seq<seq<nat>>, i: nat)
    requires OthersSame(blocks, inodes, maps, clocks, js, ms, i) && i < |inodes|
    ensures FilesOf(clocks, js, ms) == FilesOf(blocks, inodes, maps)[i := Contents(clocks, ms[i], js[i].size)]
  {
  }

  method Apply(fs: FileSystem, op: Op) returns (answer: Answer, ok: bool)
    requires fs.Closed() && WellFormed(op, |fs.inodes|)
    modifies fs
    ensures fs.Valid() && (!ok ==> AllUsed(fs.bitmap, fs.size))
    ensures !op.Write? ==> ok
    ensures ok ==> fs.Closed()
    ensures ok ==>
      (FilesOf(fs.blocks, fs.inodes, fs.maps), answer) == Spec(old(FilesOf(fs.blocks, fs.inodes, fs.maps)), op)
  {
    hide Table, Marked, Placed, Traced, Contents, Overlay, OthersSame, Freed;
    match op
    case Write(i, off, src) =>
      var r;
      r, ok := fs.Writei(i, off, src);
      if !ok { return Answer(0, []), ok; }
      OneFileChanged(old(fs.blocks), old(fs.inodes), old(fs.maps), fs.blocks, fs.inodes, fs.maps, i);
      answer := Answer(r, []);
    case Read(i, off, n) =>
      var r, data := fs.Readi(i, off, n);
      answer, ok := Answer(r, data), true;
    case Trunc(i) =>
      fs.Itrunc(i);
      OneFileChanged(old(fs.blocks), old(fs.inodes), old(fs.maps), fs.blocks, fs.inodes, fs.maps, i);
      answer, ok := Answer(0, []), true;
  }

  /** Files refine byte sequences: any run of writei, readi and itrunc on any number of inodes gives
      the answers, and leaves the files, that the same run on plain byte sequences does. */
  method RunOps(fs: FileSystem, ops: seq<Op>) returns (answers: seq<Answer>, ok: bool)
    requires fs.Closed() && forall k :: 0 <= k < |ops| ==> WellFormed(ops[k], |fs.inodes|)
    modifies fs
    ensures fs.Valid() && (!ok ==> AllUsed(fs.bitmap, fs.size))
    ensures (forall k :: 0 <= k < |ops| ==> !ops[k].Write?) ==> ok
    ensures ok ==> fs.Closed()
    ensures ok ==>
      (FilesOf(fs.blocks, fs.inodes, fs.maps), answers) == SpecRun(old(FilesOf(fs.blocks, fs.inodes, fs.maps)), ops)
  {
    ghost var files := FilesOf(fs.blocks, fs.inodes, fs.maps);
    answers, ok := [], true;
    var k := 0;
    while k < |ops|
      invariant 0 <= k <= |ops| && fs.Closed() && |fs.inodes| == |files| && ok
      invariant (FilesOf(fs.blocks, fs.inodes, fs.maps), answers) == SpecRun(files, ops[..k])
    {
      assert ops[..k + 1][..k] == ops[..k];
      var answer;
      answer, ok := Apply(fs, ops[k]);
      if !ok { return; }
      answers := answers + [answer];
      k := k + 1;
    }
    assert ops[..k] == ops;
  }

  /** x is marked after freeing slots [0, k) just when it was before and is not in one of them. */
  ghost predicate FreedSlots(bm: seq<bv8>, cm: seq<bv8>, m: seq<nat>, k: nat) {
    && |cm| == |bm| && k <= |m|
    && forall x: nat :: x < 8 * |bm| ==> (Used(cm, x) <==> Used(bm, x) && !(x != 0 && x in m[..k]))
  }

  /** Exactly the blocks the inode owned are freed. */
  ghost predicate Freed(bm: seq<bv8>, cm: seq<bv8>, ip: Inode, m: seq<nat>) {
    |cm| == |bm| && forall x: nat :: x < 8 * |bm| ==> (Used(cm, x) <==> Used(bm, x) && !Owns(ip, m, x))
  }

  ghost predicate ClearedTo(ip: Inode, iq: Inode, k: nat) {
    && |ip.addrs| == |iq.addrs| && iq.size == ip.size
    && forall j :: 0 <= j < |ip.addrs| ==> iq.addrs[j] == if j < k then 0 else ip.addrs[j]
  }

  lemma {:induction false} FreedMore(bm: seq<bv8>, cm: seq<bv8>, m: seq<nat>, k: nat)
    requires FreedSlots(bm, cm, m, k) && k < |m| && m[k] < 8 * |bm|
    ensures m[k] == 0 ==> FreedSlots(bm, cm, m, k + 1)
    ensures FreedSlots(bm, Unmark(cm, m[k]), m, k + 1) || m[k] == 0
    ensures m[k] != 0 && Used(bm, m[k]) && m[k] !in m[..k] ==> Used(cm, m[k])
  {
  }

  lemma {:induction false} SlotFacts(bm: seq<bv8>, ip: Inode, m: seq<nat>, lo: nat, size: nat, k: nat)
    requires OwnsOnce(ip, m) && |m| == MAXFILE && k < |m| && size <= 8 * |bm| && 0 < size
    requires forall x: nat :: Owns(ip, m, x) ==> x < size && Used(bm, x)
    ensures m[k] < size && (m[k] != 0 ==> Used(bm, m[k]) && m[k] !in m[..k])
  {
  }

  lemma {:induction false} OwnedUsed(bm: seq<bv8>, inodes: seq<Inode>, maps: seq<seq<nat>>, blocks: seq<Block>, lo: nat,
                                     size: nat, i: nat, reserved: set<nat>)
    requires Table(blocks, inodes, maps, lo) && |blocks| == size <= 8 * |bm| &&
      Marked(bm, inodes, maps, lo, size, reserved) && i < |inodes|
    ensures forall x: nat :: Owns(inodes[i], maps[i], x) ==> x < size && Used(bm, x)
  {
  }

  lemma {:induction false} NoneIndirect(bm: seq<bv8>, cm: seq<bv8>, blocks: seq<Block>, ip: Inode, m: seq<nat>)
    requires FreedSlots(bm, cm, m, NDIRECT) && Maps(blocks, ip, m) && Indirect(ip) == 0
    ensures Freed(bm, cm, ip, m)
  {
  }

  lemma {:induction false} FreedAll(bm: seq<bv8>, bm1: seq<bv8>, cm: seq<bv8>, ip: Inode, m: seq<nat>)
    requires |m| == MAXFILE && m[..MAXFILE] == m && FreedSlots(bm, bm1, m, MAXFILE) && OwnsOnce(ip, m)
    requires 0 != Indirect(ip) < 8 * |bm| && UnmarkedBy(bm1, cm, Indirect(ip))
    ensures Freed(bm, cm, ip, m)
  {
  }

  lemma {:induction false} NothingOwned(ip: Inode)
    requires |ip.addrs| == NDIRECT + 1 && forall j :: 0 <= j < NDIRECT + 1 ==> ip.addrs[j] == 0
    ensures forall x: nat :: !Owns(ip, EmptyMap(), x)
  {
  }

  lemma {:induction false} TableTrunc(blocks: seq<Block>, inodes: seq<Inode>, maps: seq<seq<nat>>, lo: nat, i: nat,
                                      js: seq<Inode>, ms: seq<seq<nat>>)
    requires Table(blocks, inodes, maps, lo) && i < |inodes| && 0 < |blocks|
    requires |js| == |inodes| && js == inodes[i := js[i]] && ClearedTo(inodes[i].(size := 0), js[i], NDIRECT + 1)
    requires ms == maps[i := EmptyMap()]
    ensures Table(blocks, js, ms, lo)
  {
  }

  lemma {:induction false} MarkedTrunc(bm: seq<bv8>, cm: seq<bv8>, blocks: seq<Block>, inodes: seq<Inode>,
                                       maps: seq<seq<nat>>, lo: nat, size: nat, i: nat, js: seq<Inode>,
                                       ms: seq<seq<nat>>, reserved: set<nat>)
    requires Table(blocks, inodes, maps, lo) && i < |inodes| && |js| == |ms| == |inodes| && |blocks| == size <= 8 * |bm|
    requires Marked(bm, inodes, maps, lo, size, reserved) && Freed(bm, cm, inodes[i], maps[i])
    requires forall j :: 0 <= j < |inodes| && j != i ==> js[j] == inodes[j] && ms[j] == maps[j]
    requires forall x: nat :: !Owns(js[i], ms[i], x)
    ensures Marked(cm, js, ms, lo, size, reserved)
  {
  }

  /** Part of one block of the file. */
  lemma {:induction false} ReadChunk(blocks: seq<Block>, m: seq<nat>, size: nat, off: nat, len: nat)
    requires off + len <= size && 0 < len && off % BSIZE + len <= BSIZE && off / BSIZE < |m| &&
      m[off / BSIZE] < |blocks|
    ensures blocks[m[off / BSIZE]][off % BSIZE..off % BSIZE + len] == Contents(blocks, m, size)[off..off + len]
  {
  }

  lemma {:induction false} SettledAfter(inodes: seq<Inode>, dinodes: seq<Inode>, maps: seq<seq<nat>>,
                                        js: seq<Inode>, djs: seq<Inode>, ms: seq<seq<nat>>, i: nat)
    requires |inodes| == |dinodes| == |maps| == |js| == |djs| == |ms| && i < |js|
    requires forall j :: 0 <= j < |inodes| ==> Settled(inodes[j], dinodes[j], maps[j])
    requires forall j :: 0 <= j < |inodes| && j != i ==> js[j] == inodes[j] && djs[j] == dinodes[j] && ms[j] == maps[j]
    requires Settled(js[i], djs[i], ms[i])
    ensures forall j :: 0 <= j < |js| ==> Settled(js[j], djs[j], ms[j])
  {
  }

  lemma {:induction false} OverlayMore(c: seq<byte>, off: nat, src: seq<byte>, p: nat, q: nat)
    requires off <= |c| && p <= q <= |src|
    ensures Overlay(Overlay(c, off, src[..p]), off + p, src[p..q]) == Overlay(c, off, src[..q])
  {
  }

  /** The size field plays no part in ownership. */
  lemma {:induction false} GrowSize(blocks: seq<Block>, inodes: seq<Inode>, maps: seq<seq<nat>>, lo: nat, i: nat,
                                    n: uint32,
                                    bm: seq<bv8>, size: nat, reserved: set<nat>)
    requires Table(blocks, inodes, maps, lo) && i < |inodes| && size <= 8 * |bm| &&
      Marked(bm, inodes, maps, lo, size, reserved)
    ensures Table(blocks, inodes[i := inodes[i].(size := n)], maps, lo)
    ensures Marked(bm, inodes[i := inodes[i].(size := n)], maps, lo, size, reserved)
  {
    var js := inodes[i := inodes[i].(size := n)];
    forall j, x: nat | 0 <= j < |inodes| ensures Owns(js[j], maps[j], x) == Owns(inodes[j], maps[j], x) {
    }
    forall j | 0 <= j < |js| ensures InodeOk(blocks, js[j], maps[j], lo) {
      assert InodeOk(blocks, inodes[j], maps[j], lo);
    }
    forall j, k | 0 <= j < k < |js| ensures Apart(js[j], maps[j], js[k], maps[k]) {
      assert Apart(inodes[j], maps[j], inodes[k], maps[k]);
    }
    forall x: nat ensures Unowned(js, maps, x) <==> Unowned(inodes, maps, x) {
      assert Unowned(js, maps, x) ==> forall j :: 0 <= j < |js| ==> !Owns(js[j], maps[j], x);
    }
  }

  /** Mapping a block beyond the end does not change what is before it. */
  lemma {:induction false} FreshContents(blocks: seq<Block>, m: seq<nat>, clocks: seq<Block>, m': seq<nat>, bn: nat,
                                         n: nat,
                                         maps: seq<seq<nat>>, i: nat)
    requires DataKept(blocks, clocks, maps) && i < |maps| && m == maps[i] && |m| == |m'| && bn < |m|
    requires m' == m || (m[bn] == 0 && Filled(m, Ceil(n)) && m' == m[bn := m'[bn]])
    ensures Contents(clocks, m', n) == Contents(blocks, m, n)
  {
  }
}
