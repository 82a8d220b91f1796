/**
 * `patchForSlot` (support/patchForSlot.h): the OWL host numbers its
 * parameters along the top row, then the bottom row; the patches want slots
 * laid out as 2x2 blocks of four, left to right.  The function permutes the
 * low four bits of the slot number: bit 0 stays, bit 1 moves to bit 3 and
 * bits 2..3 move down to bits 1..2.  The C `int` argument is modelled as its
 * 32-bit two's-complement bit pattern.
 */
module PatchForSlot {

  type int32 = bv32

  /** `(i & 1) | ((i & 2) << 2) | ((i & 12) >> 1)` */
  function PatchForSlot(i: int32): (r: int32)
    ensures r < 16
    ensures r & 1 == i & 1
    ensures SlotForPatch(r) == i & 15
  {
    (i & 1) | ((i & 2) << 2) | ((i & 12) >> 1)
  }

  /** The inverse permutation: bit 3 back to bit 1, bits 1..2 back to bits 2..3. */
  function SlotForPatch(p: int32): (r: int32)
    ensures r < 16
  {
    (p & 1) | ((p & 8) >> 2) | ((p & 6) << 1)
  }

  /** Only the low four bits of the slot matter. */
  lemma DependsOnLowNibble(i: int32)
    ensures PatchForSlot(i) == PatchForSlot(i & 15)
  {
  }

  /** On 0..15 the mapping is a bijection onto 0..15, with SlotForPatch its inverse. */
  lemma Bijection(i: int32, p: int32)
    requires i < 16 && p < 16
    ensures SlotForPatch(PatchForSlot(i)) == i
    ensures PatchForSlot(SlotForPatch(p)) == p
  {
  }

  /** Slots 0..3 land in the first 2x2 block {0,1,8,9}, slots 4..7 in the next, {2,3,10,11}. */
  lemma BlocksOfFour(i: int32)
    requires i < 8
    ensures i < 4 ==> PatchForSlot(i) in {0, 1, 8, 9}
    ensures 4 <= i ==> PatchForSlot(i) in {2, 3, 10, 11}
  {
  }
}
