/** Disk blocks as byte sequences, with the 32-bit little-endian words the kernel
    stores in them (the log header and the indirect blocks are arrays of words). */
module Blocks {
  import opened Common

  const BSIZE := 512
  const MAXOPBLOCKS := 10
  const LOGSIZE := MAXOPBLOCKS * 3
  const WORDS := BSIZE / 4

  type byte = x: int | 0 <= x < 256
  type Block = b: seq<byte> | |b| == BSIZE witness seq(BSIZE, i => 0)

  function ZeroBlock(): Block {
    seq(BSIZE, i => 0)
  }

  /** Word i of the block, read as x86 does: least significant byte first. */
  function GetWord(b: Block, i: nat): (w: uint32)
    requires i < WORDS
  {
    var b0: int, b1: int, b2: int, b3: int := b[4 * i], b[4 * i + 1], b[4 * i + 2], b[4 * i + 3];
    b0 + 0x100 * b1 + 0x1_0000 * b2 + 0x100_0000 * b3
  }

  lemma {:induction false} WordBytes(w: uint32)
    ensures 0 <= w / 0x100_0000 < 0x100
    ensures w == w % 0x100 + 0x100 * (w / 0x100 % 0x100) + 0x1_0000 * (w / 0x1_0000 % 0x100)
                 + 0x100_0000 * (w / 0x100_0000)
  {
  }

  function PutBytes(b: Block, i: nat, b0: byte, b1: byte, b2: byte, b3: byte): (r: Block)
    requires i < WORDS
    ensures forall k :: 0 <= k < BSIZE && !(4 * i <= k < 4 * i + 4) ==> r[k] == b[k]
    ensures r[4 * i] == b0 && r[4 * i + 1] == b1 && r[4 * i + 2] == b2 && r[4 * i + 3] == b3
  {
    b[4 * i := b0][4 * i + 1 := b1][4 * i + 2 := b2][4 * i + 3 := b3]
  }

  function PutWord(b: Block, i: nat, w: uint32): (r: Block)
    requires i < WORDS
    ensures GetWord(r, i) == w
    ensures forall j: nat :: j < WORDS && j != i ==> GetWord(r, j) == GetWord(b, j)
  {
    WordBytes(w);
    PutBytes(b, i, w % 0x100, w / 0x100 % 0x100, w / 0x1_0000 % 0x100, w / 0x100_0000)
  }

  lemma {:induction false} ZeroWords(i: nat)
    requires i < WORDS
    ensures GetWord(ZeroBlock(), i) == 0
  {
  }
}
