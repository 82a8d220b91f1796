/**
 * Audio buffers. The firmware hands a patch `float` sample blocks; here a
 * channel is an `array<real>`, so sums and products are exact and the
 * rounding of `float` arithmetic is not modelled.
 */
module Audio {
  /** `CLAMP(x)`: `max(-1, min(1, x))`. */
  function Clamp(x: real): (r: real)
    ensures -1.0 <= r <= 1.0
    ensures -1.0 <= x <= 1.0 ==> r == x
    ensures x > 1.0 ==> r == 1.0
    ensures x < -1.0 ==> r == -1.0
  {
    if x > 1.0 then 1.0 else if x < -1.0 then -1.0 else x
  }

  /** The block size a patch works on: the shorter of the two channels. */
  function BlockSize(left: array<real>, right: array<real>): nat
  {
    if left.Length < right.Length then left.Length else right.Length
  }

  /** The first `size` samples are zero and the rest are as they were. */
  ghost predicate Silenced(now: seq<real>, before: seq<real>, size: nat)
  {
    && |now| == |before| && size <= |now|
    && (forall i :: 0 <= i < size ==> now[i] == 0.0)
    && now[size..] == before[size..]
  }

  /** `memset(data, 0, size * sizeof(float))` */
  method Silence(buf: array<real>, size: nat)
    requires size <= buf.Length
    modifies buf
    ensures Silenced(buf[..], old(buf[..]), size)
  {
    var k := 0;
    while k < size
      invariant 0 <= k <= size
      invariant forall i :: 0 <= i < k ==> buf[i] == 0.0
      invariant buf[k..] == old(buf[k..])
    {
      buf[k] := 0.0;
      k := k + 1;
    }
  }
}
