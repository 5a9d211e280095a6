/** What a file-system transaction may change: only blocks that it has passed to log_write (log.c),
    which all lie between the log and the end of the disk (mkfs.c's layout). */
module Transactions {
  import opened Blocks
  import opened Bitmap
  import opened Files

  const BPB := BSIZE * 8
  const IPB := 8

  /** The superblock, and where the data blocks start. */
  datatype Geometry = Geometry(size: nat, dataStart: nat, bmapStart: nat, inodeStart: nat)

  /** mkfs's order: inode blocks, bitmap blocks, data blocks. */
  predicate Placed(g: Geometry, ninodes: nat) {
    && g.inodeStart + ninodes / IPB + 1 <= g.bmapStart
    && g.bmapStart + g.size / BPB + 1 <= g.dataStart <= g.size
  }

  /** The file system as it goes to disk. */
  datatype Image = Image(blocks: seq<Block>, dinodes: seq<Inode>, bitmap: seq<bv8>)

  /** The block that holds inode i. */
  function InodeBlock(g: Geometry, i: nat): nat { i / IPB + g.inodeStart }

  /** The block that holds byte k of the bitmap. */
  function BitmapBlock(g: Geometry, k: nat): nat { k / BSIZE + g.bmapStart }

  /** From s to t only what is in logged blocks has changed. */
  ghost predicate OnlyLogged(g: Geometry, s: Image, t: Image, logged: set<nat>) {
    && |t.blocks| == |s.blocks| && |t.dinodes| == |s.dinodes| && |t.bitmap| == |s.bitmap|
    && (forall b: nat :: b < |s.blocks| && b !in logged ==> t.blocks[b] == s.blocks[b])
    && (forall i: nat :: i < |s.dinodes| && InodeBlock(g, i) !in logged ==> t.dinodes[i] == s.dinodes[i])
    && (forall k: nat :: k < |s.bitmap| && BitmapBlock(g, k) !in logged ==> t.bitmap[k] == s.bitmap[k])
  }

  /** ... and the blocks logged on the way lie behind the log. */
  ghost predicate Traced(g: Geometry, s: Image, log0: set<nat>, t: Image, log1: set<nat>) {
    && log0 <= log1 && OnlyLogged(g, s, t, log1)
    && (forall b: nat :: b in log1 && b !in log0 ==> g.inodeStart <= b < g.size)
  }

  lemma {:induction false} TracedNone(g: Geometry, s: Image, log: set<nat>)
    ensures Traced(g, s, log, s, log)
  {
  }

  lemma {:induction false} TracedTrans(g: Geometry, s0: Image, log0: set<nat>, s1: Image, log1: set<nat>,
                                       s2: Image, log2: set<nat>)
    requires Traced(g, s0, log0, s1, log1) && Traced(g, s1, log1, s2, log2)
    ensures Traced(g, s0, log0, s2, log2)
  {
  }

  /** balloc: a bit of the bitmap, and the block it stands for. */
  lemma {:induction false} TracedTake(g: Geometry, s: Image, log: set<nat>, b: nat, data: Block, ninodes: nat)
    requires Placed(g, ninodes) && g.dataStart <= b < g.size == |s.blocks| <= 8 * |s.bitmap|
    ensures Traced(g, s, log, Image(s.blocks[b := data], s.dinodes, Mark(s.bitmap, b)),
      log + {b / BPB + g.bmapStart} + {b})
  {
    hide Traced, Placed, Mark;
    var t := s.(bitmap := Mark(s.bitmap, b));
    TracedMark(g, s, log, b, ninodes);
    TracedData(g, t, log + {b / BPB + g.bmapStart}, b, data, ninodes);
    TracedTrans(g, s, log, t, log + {b / BPB + g.bmapStart}, t.(blocks := t.blocks[b := data]),
                log + {b / BPB + g.bmapStart} + {b});
  }

  lemma {:induction false} TracedMark(g: Geometry, s: Image, log: set<nat>, b: nat, ninodes: nat)
    requires Placed(g, ninodes) && b < g.size <= 8 * |s.bitmap|
    ensures Traced(g, s, log, s.(bitmap := Mark(s.bitmap, b)), log + {b / BPB + g.bmapStart})
  {
    assert BitmapBlock(g, b / 8) == b / BPB + g.bmapStart;
    assert b / BPB <= g.size / BPB;
  }

  /** bfree: a bit of the bitmap. */
  lemma {:induction false} TracedGive(g: Geometry, s: Image, log: set<nat>, b: nat, ninodes: nat)
    requires Placed(g, ninodes) && b < g.size <= 8 * |s.bitmap|
    ensures Traced(g, s, log, s.(bitmap := Unmark(s.bitmap, b)), log + {b / BPB + g.bmapStart})
  {
    assert BitmapBlock(g, b / 8) == b / BPB + g.bmapStart;
    assert b / BPB <= g.size / BPB;
  }

  /** log_write of a data block. */
  lemma {:induction false} TracedData(g: Geometry, s: Image, log: set<nat>, b: nat, data: Block, ninodes: nat)
    requires Placed(g, ninodes) && g.dataStart <= b < g.size == |s.blocks|
    ensures Traced(g, s, log, s.(blocks := s.blocks[b := data]), log + {b})
  {
  }

  /** iupdate. */
  lemma {:induction false} TracedInode(g: Geometry, s: Image, log: set<nat>, i: nat, ip: Inode)
    requires i < |s.dinodes| && Placed(g, |s.dinodes|)
    ensures Traced(g, s, log, s.(dinodes := s.dinodes[i := ip]), log + {InodeBlock(g, i)})
  {
    assert i / IPB <= |s.dinodes| / IPB;
  }
}
