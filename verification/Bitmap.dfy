/** The free-block bitmap: one bit a block, eight to a byte, read and set with masks as
    balloc and bfree do. */
module Bitmap {

  /** 1 << k */
  function Mask(k: nat): bv8
    requires k < 8
  {
    match k
    case 0 => 1
    case 1 => 2
    case 2 => 4
    case 3 => 8
    case 4 => 16
    case 5 => 32
    case 6 => 64
    case _ => 128
  }

  lemma {:induction false} SetMask(x: bv8, j: nat, k: nat)
    requires j < 8 && k < 8
    ensures (x | Mask(j)) & Mask(k) != 0 <==> j == k || x & Mask(k) != 0
  {
  }

  lemma {:induction false} ClearMask(x: bv8, j: nat, k: nat)
    requires j < 8 && k < 8
    ensures (x & !Mask(j)) & Mask(k) != 0 <==> j != k && x & Mask(k) != 0
  {
  }

  /** Is block b marked in use? */
  predicate Used(bm: seq<bv8>, b: nat)
    requires b < 8 * |bm|
  {
    bm[b / 8] & Mask(b % 8) != 0
  }

  /** The first n blocks are all in use. */
  predicate AllUsed(bm: seq<bv8>, n: nat) {
    n <= 8 * |bm| && forall c: nat :: c < n ==> Used(bm, c)
  }

  lemma {:induction false} OneMoreUsed(bm: seq<bv8>, n: nat)
    requires AllUsed(bm, n) && n < 8 * |bm| && Used(bm, n)
    ensures AllUsed(bm, n + 1)
  {
  }

  /** Bit bi counted from a byte boundary. */
  lemma {:induction false} UsedFrom(bm: seq<bv8>, base: nat, bi: nat)
    requires base % 8 == 0 && base + bi < 8 * |bm|
    ensures base / 8 + bi / 8 < |bm|
    ensures Used(bm, base + bi) <==> bm[base / 8 + bi / 8] & Mask(bi % 8) != 0
  {
  }

  lemma {:induction false} MarkAt(bm: seq<bv8>, b: nat, c: nat)
    requires b < 8 * |bm| && c < 8 * |bm|
    ensures Used(bm[b / 8 := bm[b / 8] | Mask(b % 8)], c) <==> c == b || Used(bm, c)
  {
    if b / 8 == c / 8 {
      SetMask(bm[b / 8], b % 8, c % 8);
    }
  }

  lemma {:induction false} UnmarkAt(bm: seq<bv8>, b: nat, c: nat)
    requires b < 8 * |bm| && c < 8 * |bm|
    ensures Used(bm[b / 8 := bm[b / 8] & !Mask(b % 8)], c) <==> c != b && Used(bm, c)
  {
    if b / 8 == c / 8 {
      ClearMask(bm[b / 8], b % 8, c % 8);
    }
  }

  predicate MarkedBy(bm: seq<bv8>, r: seq<bv8>, b: nat) {
    |r| == |bm| && forall c: nat :: c < 8 * |bm| ==> (Used(r, c) <==> c == b || Used(bm, c))
  }

  predicate UnmarkedBy(bm: seq<bv8>, r: seq<bv8>, b: nat) {
    |r| == |bm| && forall c: nat :: c < 8 * |bm| ==> (Used(r, c) <==> c != b && Used(bm, c))
  }

  /** Setting a block's bit marks that block and no other. */
  function Mark(bm: seq<bv8>, b: nat): (r: seq<bv8>)
    requires b < 8 * |bm|
    ensures MarkedBy(bm, r, b)
  {
    var r := bm[b / 8 := bm[b / 8] | Mask(b % 8)];
    assert MarkedBy(bm, r, b) by {
      forall c: nat | c < 8 * |bm| ensures Used(r, c) <==> c == b || Used(bm, c) { MarkAt(bm, b, c); }
    }
    r
  }

  function Unmark(bm: seq<bv8>, b: nat): (r: seq<bv8>)
    requires b < 8 * |bm|
    ensures UnmarkedBy(bm, r, b)
  {
    var r := bm[b / 8 := bm[b / 8] & !Mask(b % 8)];
    assert UnmarkedBy(bm, r, b) by {
      forall c: nat | c < 8 * |bm| ensures Used(r, c) <==> c != b && Used(bm, c) { UnmarkAt(bm, b, c); }
    }
    r
  }
}
