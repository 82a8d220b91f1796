/**
 * ScreenSaverPatch.hpp: prints the frame number at a random place on the
 * screen, in a random colour, each frame. The randomness is a 32-bit linear
 * congruential generator; the numbers are formatted into a fixed buffer.
 */
module ScreenSaver {
  import opened Bits
  import opened Audio

  const ACCUMULATOR_START: uint32 := 0x9A9A9A9A
  const ACCUMULATOR_MULT: uint32 := 0xA9A9A9A9
  const ACCUMULATOR_ADD: uint32 := 0x87654321
  const ACCUMULATOR_SHIFT: nat := 8
  const BUFFER_SIZE: nat := 33

  /**
   * The generator's step: `*=` and `+=` each wrap modulo 2^32, then `>>= 8`.
   */
  function NextAccumulator(acc: uint32): (r: uint32)
    ensures r < 0x100_0000
    ensures r == ((acc * ACCUMULATOR_MULT + ACCUMULATOR_ADD) % TWO_32) / Pow2(ACCUMULATOR_SHIFT)
  {
    var product := (acc * ACCUMULATOR_MULT) % TWO_32;
    var sum := (product + ACCUMULATOR_ADD) % TWO_32;
    WrapTwice(acc * ACCUMULATOR_MULT, ACCUMULATOR_ADD);
    sum / 256
  }

  /** Wrapping after the multiply and after the add is the same as wrapping once. */
  lemma WrapTwice(p: int, a: int)
    requires 0 <= p && 0 <= a
    ensures ((p % TWO_32) + a) % TWO_32 == (p + a) % TWO_32
  {
    var q := p / TWO_32;
    assert p == TWO_32 * q + p % TWO_32;
    assert p + a == TWO_32 * q + (p % TWO_32 + a);
    ShiftByMultiple(p % TWO_32 + a, q);
  }

  lemma ShiftByMultiple(x: int, q: int)
    requires x >= 0 && q >= 0
    ensures (TWO_32 * q + x) % TWO_32 == x % TWO_32
  {
    var r := x / TWO_32;
    assert x == TWO_32 * r + x % TWO_32;
    assert TWO_32 * q + x == TWO_32 * (q + r) + x % TWO_32;
  }

  /** The character for decimal digit `d`. */
  function DigitChar(d: nat): (c: char)
    requires d < 10
    ensures '0' <= c <= '9'
  {
    ('0' as int + d) as char
  }

  /** The decimal digits of `n`, most significant first, with no leading zeros; "0" for 0. */
  function Decimal(n: nat): (r: seq<char>)
    ensures |r| >= 1
    ensures forall i :: 0 <= i < |r| ==> '0' <= r[i] <= '9'
  {
    if n < 10 then [DigitChar(n)] else Decimal(n / 10) + [DigitChar(n % 10)]
  }

  /** The number a string of decimal digits denotes. */
  function ValueOf(s: seq<char>): nat
    requires forall i :: 0 <= i < |s| ==> '0' <= s[i] <= '9'
  {
    if |s| == 0 then 0 else 10 * ValueOf(s[..|s| - 1]) + (s[|s| - 1] as int - '0' as int)
  }

  /** The digits read back as the number, and only 0 is written with a leading '0'. */
  lemma {:induction false} DecimalRoundTrip(n: nat)
    ensures ValueOf(Decimal(n)) == n
    ensures Decimal(n)[0] == '0' <==> n == 0
  {
    if n >= 10 {
      DecimalRoundTrip(n / 10);
      var s := Decimal(n);
      assert s[..|s| - 1] == Decimal(n / 10);
    }
  }

  function Pow10(k: nat): nat
  {
    if k == 0 then 1 else 10 * Pow10(k - 1)
  }

  lemma {:induction false} DecimalLength(n: nat, k: nat)
    requires 1 <= k && n < Pow10(k)
    ensures |Decimal(n)| <= k
  {
    if n >= 10 {
      assert Pow10(1) == 10;
      assert k >= 2;
      DecimalLength(n / 10, k - 1);
    }
  }

  /** A 32-bit number has at most 10 digits, so `a2c` stays inside its 33-character buffer. */
  lemma DecimalFits(n: uint32)
    ensures |Decimal(n)| <= 10
  {
    assert Pow10(10) == 10_000_000_000;
    DecimalLength(n, 10);
  }

  /** The digits `a2c` has still to write while its counter is `m`. */
  function Remaining(m: nat): seq<char>
  {
    if m == 0 then [] else Decimal(m)
  }

  lemma LastDigit(m: nat, digits: seq<char>)
    ensures Decimal(m) + digits == Remaining(m / 10) + ([DigitChar(m % 10)] + digits)
  {
  }

  /** Where `processScreen` draws, and in which colour. */
  datatype Placement = Placement(invert: bool, x: nat, y: nat)

  /** `processScreen`'s choices from one random number. */
  function Place(entropy: uint32, height: nat, width: nat): (p: Placement)
    requires height > 0 && width > 0
    ensures p.y < height && p.x < width
    ensures p.invert <==> entropy % 2 == 1
  {
    var e := entropy / 2;
    Placement(entropy % 2 == 1, (e / height) % width, e % height)
  }

  class ScreenSaverPatch {
    var frame: uint32
    var accumulator: uint32
    const tempBuffer: array<char>

    constructor()
      ensures frame == 1
      ensures accumulator == NextAccumulator(NextAccumulator(ACCUMULATOR_START))
      ensures tempBuffer.Length == BUFFER_SIZE && fresh(tempBuffer)
    {
      frame := 1;
      accumulator := ACCUMULATOR_START;
      tempBuffer := new char[BUFFER_SIZE];
      new;
      var _ := NextRandom();
      var _ := NextRandom();
    }

    /** `nextRandom`: step the generator and return its new value. */
    method NextRandom() returns (r: uint32)
      modifies this
      ensures accumulator == NextAccumulator(old(accumulator)) && r == accumulator
      ensures r < 0x100_0000
      ensures frame == old(frame)
    {
      accumulator := NextAccumulator(accumulator);
      r := accumulator;
    }

    /**
     * `a2c`: write the digits of `n` and a NUL at the end of `tempBuffer`,
     * and return where they start.
     */
    method A2c(n: uint32) returns (at: nat)
      requires tempBuffer.Length == BUFFER_SIZE
      modifies tempBuffer
      ensures BUFFER_SIZE - 11 <= at < BUFFER_SIZE - 1
      ensures tempBuffer[at..BUFFER_SIZE - 1] == Decimal(n)
      ensures tempBuffer[BUFFER_SIZE - 1] == '\0'
      ensures tempBuffer[..at] == old(tempBuffer[..at])
    {
      DecimalFits(n);
      ghost var buf0 := tempBuffer[..];
      at := BUFFER_SIZE - 1;
      tempBuffer[at] := '\0';
      var m: nat := n;
      ghost var digits: seq<char> := [];
      assert tempBuffer[..at] == buf0[..at];
      // The body of the do-while runs once before the test.
      at, m, digits := PutDigit(buf0, n, at, m, digits);
      while m != 0
        invariant DigitsWritten(buf0, n, at, digits) && Remaining(m) + digits == Decimal(n)
        decreases m
      {
        at, m, digits := PutDigit(buf0, n, at, m, digits);
      }
      assert digits == Decimal(n);
      assert buf0[..at] == old(tempBuffer[..at]);
    }

    /** `a2c` has written `digits` and the NUL at the end of the buffer, and left the rest as it was in `buf0`. */
    ghost predicate DigitsWritten(buf0: seq<char>, n: nat, at: nat, digits: seq<char>)
      reads tempBuffer
    {
      && tempBuffer.Length == BUFFER_SIZE && |buf0| == BUFFER_SIZE && |Decimal(n)| <= 10
      && 0 < at <= BUFFER_SIZE - 1 && at == BUFFER_SIZE - 1 - |digits|
      && tempBuffer[BUFFER_SIZE - 1] == '\0'
      && tempBuffer[at..BUFFER_SIZE - 1] == digits
      && tempBuffer[..at] == buf0[..at]
    }

    /** One pass of the do-while: write the last digit of `m` in front of those written. */
    method PutDigit(ghost buf0: seq<char>, ghost n: nat, at: nat, m: nat, ghost digits: seq<char>)
      returns (at': nat, m': nat, ghost digits': seq<char>)
      requires DigitsWritten(buf0, n, at, digits) && Decimal(m) + digits == Decimal(n)
      modifies tempBuffer
      ensures DigitsWritten(buf0, n, at', digits') && Remaining(m') + digits' == Decimal(n)
      ensures m' == m / 10 && |digits'| >= 1
    {
      assert |digits| < |Decimal(n)|;
      at' := at - 1;
      tempBuffer[at'] := DigitChar(m % 10);
      LastDigit(m, digits);
      digits' := [DigitChar(m % 10)] + digits;
      m' := m / 10;
      assert tempBuffer[at'..BUFFER_SIZE - 1] == [tempBuffer[at']] + tempBuffer[at..BUFFER_SIZE - 1];
      assert tempBuffer[..at'] == buf0[..at'] by {
        assert tempBuffer[..at'] == old(tempBuffer[..at])[..at'];
        assert buf0[..at'] == buf0[..at][..at'];
      }
    }

    /**
     * `processScreen`'s model-relevant part: the colour and position drawn
     * from the next random number, and the text, which is the frame
     * number before `frame++` wraps it.
     */
    method ProcessScreen(height: nat, width: nat) returns (p: Placement, text: seq<char>)
      requires height > 0 && width > 0 && tempBuffer.Length == BUFFER_SIZE
      modifies this, tempBuffer
      ensures accumulator == NextAccumulator(old(accumulator))
      ensures p == Place(accumulator, height, width)
      ensures text == Decimal(old(frame))
      ensures frame == (old(frame) + 1) % TWO_32
    {
      var entropy := NextRandom();
      var invert := entropy % 2 == 1;
      entropy := entropy / 2;
      var y := entropy % height;
      entropy := entropy / height;
      var x := entropy % width;
      p := Placement(invert, x, y);
      var at := A2c(frame);
      text := tempBuffer[at..BUFFER_SIZE - 1];
      frame := (frame + 1) % TWO_32;
    }

    /** `processAudio`: silence on both channels. */
    method ProcessAudio(left: array<real>, right: array<real>)
      requires left != right
      modifies left, right
      ensures Silenced(left[..], old(left[..]), BlockSize(left, right))
      ensures Silenced(right[..], old(right[..]), BlockSize(left, right))
    {
      var size := BlockSize(left, right);
      Silence(left, size);
      Silence(right, size);
    }
  }
}
