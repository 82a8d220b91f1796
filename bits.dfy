/**
 * Unsigned integer and bit-level helpers shared by the model.
 *
 * The firmware is C++ working on `uint8_t`, `uint16_t`, `uint32_t` and `int`
 * values.  The model keeps Dafny's unbounded `int` and writes every
 * truncation and every bitwise operation out explicitly.  Masks with a run of
 * low one-bits (`x & 0x7f`) become `%`, right shifts of non-negative values
 * become `/`, and an `|` of two values whose bits are disjoint becomes `+`.
 * The one `|` whose operands can overlap (the pitch-bend getter) uses
 * `BitOr` below.
 */
module Bits {

  type byte = x: int | 0 <= x < 0x100
  type uint32 = x: int | 0 <= x < 0x1_0000_0000

  const TWO_32: int := 0x1_0000_0000

  /** 2 to the power k. */
  function Pow2(k: nat): (r: nat)
    ensures r >= 1
  {
    if k == 0 then 1 else 2 * Pow2(k - 1)
  }

  /** Bitwise OR of two non-negative integers, bit by bit from the bottom. */
  function BitOr(a: nat, b: nat): nat
    decreases a + b
  {
    if a == 0 then b
    else if b == 0 then a
    else 2 * BitOr(a / 2, b / 2) + (if a % 2 == 1 || b % 2 == 1 then 1 else 0)
  }

  /** Or-ing a value below 2^k with a multiple of 2^k adds them. */
  lemma {:induction false} BitOrDisjoint(a: nat, b: nat, k: nat)
    requires a < Pow2(k)
    ensures BitOr(a, b * Pow2(k)) == a + b * Pow2(k)
  {
    if a == 0 || b == 0 {
    } else {
      assert k > 0;
      var shifted := b * Pow2(k - 1);
      assert b * Pow2(k) == 2 * shifted;
      assert (b * Pow2(k)) / 2 == shifted && (b * Pow2(k)) % 2 == 0;
      BitOrDisjoint(a / 2, b, k - 1);
    }
  }
}
