/**
 * PureDelayPatch.hpp: a delay line. Every input sample (left plus right,
 * clamped) goes into a ring buffer of BUFSIZE samples, and both outputs
 * play the input from exactly `backLook()` samples earlier, with silence
 * before the first input.
 */
module PureDelay {
  import opened Bits
  import opened MidiMessages
  import opened Audio
  import Display
  import PatchForSlot

  const BUFSIZE: int := 44100 * 4

  /** `backLook()`: the delay in samples. */
  const BACK_LOOK: int := 44100

  /**
   * The private `patchForSlot` of this patch: a permutation of the low four
   * bits that keeps bit 0 and is undone by the shared inverse.
   */
  function SlotParameter(i: PatchForSlot.int32): (r: PatchForSlot.int32)
    ensures r < 16
    ensures r & 1 == i & 1
    ensures PatchForSlot.SlotForPatch(r) == i & 15
  {
    (i & 1) | ((i & 2) << 2) | ((i & 12) >> 1)
  }

  /** The private copy computes the same slot as the shared `patchForSlot`. */
  lemma SlotParameterIsShared(i: PatchForSlot.int32)
    ensures SlotParameter(i) == PatchForSlot.PatchForSlot(i)
  {
  }

  /** The input sample `t` of the whole stream, with silence before the first one. */
  function Delayed(stream: seq<real>, t: int): real
    requires t < |stream|
  {
    if t < 0 then 0.0 else stream[t]
  }

  /**
   * The ring buffer holds the last BUFSIZE samples of the stream: sample t
   * lives at t mod BUFSIZE (Dafny's `%` is never negative, so the silence
   * before the stream occupies the slots not yet written).
   */
  ghost predicate Holds(history: seq<real>, stream: seq<real>)
  {
    && |history| == BUFSIZE
    && forall t :: |stream| - BUFSIZE <= t < |stream| ==> history[t % BUFSIZE] == Delayed(stream, t)
  }

  /** What one block feeds into the delay line: each left plus right, clamped. */
  function Inputs(left: seq<real>, right: seq<real>, size: nat): (r: seq<real>)
    requires size <= |left| && size <= |right|
    ensures |r| == size
    ensures forall i :: 0 <= i < size ==> r[i] == Clamp(left[i] + right[i])
  {
    seq(size, i requires 0 <= i < size => Clamp(left[i] + right[i]))
  }

  /** A zeroed buffer holds the empty stream. */
  lemma ZeroedHoldsEmpty(history: seq<real>)
    requires |history| == BUFSIZE && forall j :: 0 <= j < BUFSIZE ==> history[j] == 0.0
    ensures Holds(history, [])
  {
    forall t | -BUFSIZE <= t < 0
      ensures history[t % BUFSIZE] == Delayed([], t)
    {
      assert 0 <= t % BUFSIZE < BUFSIZE;
    }
  }

  /** Writing the next sample at `|stream| mod BUFSIZE` keeps the buffer in step with the stream. */
  lemma WriteKeepsHolds(history: seq<real>, stream: seq<real>, x: real)
    requires Holds(history, stream)
    ensures Holds(history[|stream| % BUFSIZE := x], stream + [x])
  {
    var h := history[|stream| % BUFSIZE := x];
    var s := stream + [x];
    forall t | |s| - BUFSIZE <= t < |s|
      ensures h[t % BUFSIZE] == Delayed(s, t)
    {
      if t < |stream| {
        assert t % BUFSIZE != |stream| % BUFSIZE by {
          ModDistinct(|stream|, t);
        }
      }
    }
  }

  lemma ModDistinct(a: int, b: int)
    requires 0 < a - b < BUFSIZE
    ensures a % BUFSIZE != b % BUFSIZE
  {
    var d := a / BUFSIZE - b / BUFSIZE;
    assert a - b == BUFSIZE * d + (a % BUFSIZE - b % BUFSIZE);
  }

  /**
   * The read position of `processAudio`: slot `(from + i) % BUFSIZE` holds
   * the input `backLook()` samples before output i, as long as the block
   * and the delay fit in the buffer together.
   */
  lemma ReadIsDelayed(history: seq<real>, stream: seq<real>, size: nat, i: nat)
    requires Holds(history, stream) && size + BACK_LOOK <= BUFSIZE && i < size <= |stream| + BUFSIZE
    ensures var from := |stream| % BUFSIZE - BACK_LOOK - size + BUFSIZE;
      && 0 <= from + i
      && history[(from + i) % BUFSIZE] == Delayed(stream, |stream| - size + i - BACK_LOOK)
  {
    var t := |stream| - size + i - BACK_LOOK;
    var from := |stream| % BUFSIZE - BACK_LOOK - size + BUFSIZE;
    assert from + i == t + BUFSIZE - BUFSIZE * (|stream| / BUFSIZE) + BUFSIZE * 0 by {
      assert |stream| == BUFSIZE * (|stream| / BUFSIZE) + |stream| % BUFSIZE;
    }
    ModShift(t, 1 - |stream| / BUFSIZE);
  }

  lemma NextSlot(n: nat)
    ensures (n % BUFSIZE + 1) % BUFSIZE == (n + 1) % BUFSIZE
  {
    ModShift(n % BUFSIZE + 1, n / BUFSIZE);
  }

  lemma ModShift(t: int, m: int)
    ensures (t + BUFSIZE * m) % BUFSIZE == t % BUFSIZE
  {
    var q := t / BUFSIZE;
    assert t == BUFSIZE * q + t % BUFSIZE;
    assert t + BUFSIZE * m == BUFSIZE * (q + m) + t % BUFSIZE;
  }

  class PureDelayPatch {
    var midinote: byte
    const history: array<real>
    var writePtr: int
    /** Every sample fed to the delay line so far. */
    ghost var stream: seq<real>

    ghost predicate Valid()
      reads this, history
    {
      && history.Length == BUFSIZE
      && 0 <= writePtr < BUFSIZE && writePtr == |stream| % BUFSIZE
      && Holds(history[..], stream)
    }

    constructor()
      ensures Valid() && fresh(history)
      ensures midinote == Display.MIDDLEC_MIDI && writePtr == 0 && stream == []
      ensures forall j :: 0 <= j < BUFSIZE ==> history[j] == 0.0
    {
      midinote := Display.MIDDLEC_MIDI;
      writePtr := 0;
      history := new real[BUFSIZE];
      stream := [];
      new;
      Silence(history, BUFSIZE);
      ZeroedHoldsEmpty(history[..]);
    }

    /** `processMidi`: a Note On status (whatever its velocity) records the note. */
    method ProcessMidi(msg: MidiMessage)
      modifies this
      ensures midinote == if msg.GetStatus() == MidiCodeNoteOn then msg.GetNote() else old(midinote)
      ensures writePtr == old(writePtr) && stream == old(stream)
    {
      if msg.GetStatus() == MidiCodeNoteOn {
        midinote := msg.GetNote();
      }
    }

    /** The write loop of `processAudio`. */
    method WriteBlock(left: array<real>, right: array<real>, size: nat)
      requires Valid() && size <= left.Length && size <= right.Length
      requires left != history && right != history
      modifies this, history
      ensures Valid()
      ensures stream == old(stream) + Inputs(left[..], right[..], size)
      ensures writePtr == (old(writePtr) + size) % BUFSIZE
      ensures midinote == old(midinote)
    {
      ghost var s0 := stream;
      ghost var input := Inputs(left[..], right[..], size);
      var i := 0;
      while i < size
        invariant 0 <= i <= size && Valid()
        invariant stream == s0 + input[..i]
        invariant midinote == old(midinote)
      {
        var sample := Clamp(left[i] + right[i]);
        ghost var h := history[..];
        WriteKeepsHolds(h, stream, sample);
        NextSlot(|stream|);
        history[writePtr] := sample;
        assert history[..] == h[|stream| % BUFSIZE := sample];
        writePtr := writePtr + 1;
        writePtr := writePtr % BUFSIZE;
        stream := stream + [sample];
        assert input[..i + 1] == input[..i] + [sample];
        i := i + 1;
      }
      assert input[..size] == input;
    }

    /** The read loop of `processAudio`: both channels get the buffer from `from` on. */
    method ReadBlock(left: array<real>, right: array<real>, size: nat)
      requires Valid() && left != right && size <= left.Length && size <= right.Length
      requires left != history && right != history
      requires writePtr + BUFSIZE >= BACK_LOOK + size
      modifies left, right
      ensures forall i :: 0 <= i < size ==>
        left[i] == history[(writePtr - BACK_LOOK - size + BUFSIZE + i) % BUFSIZE] && right[i] == left[i]
    {
      var from := writePtr - BACK_LOOK - size + BUFSIZE;
      var i := 0;
      while i < size
        invariant 0 <= i <= size
        invariant forall k :: 0 <= k < i ==> left[k] == history[(from + k) % BUFSIZE] && right[k] == left[k]
      {
        var at := (from + i) % BUFSIZE;
        var sample := history[at];
        left[i] := sample;
        right[i] := sample;
        i := i + 1;
      }
    }

    /**
     * `processAudio`: feed the block into the delay line, then play it back
     * `backLook()` samples late on both channels. The read index must not
     * go negative (C's `%` would leave it negative); a block that fits in
     * the buffer beside the delay hears exactly the delayed input.
     */
    method ProcessAudio(left: array<real>, right: array<real>)
      requires Valid() && left != right && left != history && right != history
      requires (writePtr + BlockSize(left, right)) % BUFSIZE + BUFSIZE >= BACK_LOOK + BlockSize(left, right)
      modifies this, history, left, right
      ensures Valid() && midinote == old(midinote)
      ensures stream == old(stream) + Inputs(old(left[..]), old(right[..]), BlockSize(left, right))
      ensures writePtr == (old(writePtr) + BlockSize(left, right)) % BUFSIZE
      ensures forall i :: 0 <= i < BlockSize(left, right) ==> right[i] == left[i]
      ensures BlockSize(left, right) + BACK_LOOK <= BUFSIZE ==>
        forall i :: 0 <= i < BlockSize(left, right) ==>
          left[i] == Delayed(stream, |old(stream)| + i - BACK_LOOK)
    {
      var size := BlockSize(left, right);
      WriteBlock(left, right, size);
      ReadBlock(left, right, size);
      if size + BACK_LOOK <= BUFSIZE {
        forall i | 0 <= i < size
          ensures left[i] == Delayed(stream, |stream| - size + i - BACK_LOOK)
        {
          ReadIsDelayed(history[..], stream, size, i);
        }
      }
    }
  }
}
