/** Bit positions in a bitfield of bytes, most significant bit first. */
module Bits {
  /** Bit k of a byte, counted from the least significant. */
  predicate BitOf(x: bv8, k: nat)
    requires k < 8
  {
    (x >> k) & 1 != 0
  }

  /** _hasPiece. */
  predicate HasBit(field: seq<bv8>, index: nat)
    requires index < 8 * |field|
  {
    BitOf(field[index / 8], 7 - index % 8)
  }

  /** _setPiece. */
  function SetBit(field: seq<bv8>, index: nat): (r: seq<bv8>)
    requires index < 8 * |field|
    ensures |r| == |field|
  {
    field[index / 8 := field[index / 8] | (1 << (7 - index % 8))]
  }

  /** The peer's bits that are missing from ours. */
  function Needed(theirs: bv8, ours: bv8): bv8 {
    theirs & !ours
  }

  // The byte facts, on shift amounts of the byte type where the solver decides them.

  lemma OrShift(x: bv8, a: bv8, b: bv8)
    requires a < 8 && b < 8
    ensures ((x | (1 << a)) >> b) & 1 != 0 <==> a == b || (x >> b) & 1 != 0
  {
  }

  lemma AndNotShift(x: bv8, y: bv8, b: bv8)
    requires b < 8
    ensures ((x & !y) >> b) & 1 != 0 <==> (x >> b) & 1 != 0 && !((y >> b) & 1 != 0)
  {
  }

  lemma OrBit(x: bv8, a: nat, b: nat)
    requires a < 8 && b < 8
    ensures BitOf(x | (1 << a), b) <==> a == b || BitOf(x, b)
  {
    OrShift(x, a as bv8, b as bv8);
  }

  /** A bit of the peer's byte masked by ours: set in theirs and clear in ours. */
  lemma AndNotBit(x: bv8, y: bv8, b: nat)
    requires b < 8
    ensures BitOf(Needed(x, y), b) <==> BitOf(x, b) && !BitOf(y, b)
  {
    AndNotShift(x, y, b as bv8);
  }

  lemma ZeroHasNoBits(b: nat)
    requires b < 8
    ensures !BitOf(0, b)
  {
    ZeroShift(b as bv8);
  }

  lemma ZeroShift(b: bv8)
    requires b < 8
    ensures ((0 as bv8) >> b) & 1 == 0
  {
  }

  /** Setting a bit sets that bit and no other. */
  lemma SetBitSetsOne(field: seq<bv8>, index: nat, j: nat)
    requires index < 8 * |field| && j < 8 * |field|
    ensures HasBit(SetBit(field, index), j) <==> j == index || HasBit(field, j)
  {
    if j / 8 == index / 8 {
      OrBit(field[index / 8], 7 - index % 8, 7 - j % 8);
    }
  }
}
