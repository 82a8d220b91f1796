/**
 * MidiSquarePatch.hpp: every held note plays a square wave on the right
 * channel, and the left channel carries the gate. Each note's oscillator
 * is a `PackedPhase` bit field: a one-bit level, a 15-bit period and a
 * 15-bit phase, the last two in sixteenths of a sample.
 */
module MidiSquare {
  import opened Bits
  import opened MidiMessages
  import opened NoteStack
  import opened Host
  import opened Audio
  import Display

  const PHASE_RADIX: nat := 16
  const UINT15: nat := 0x8000
  /** `PARAMETER_A`, the first parameter of the host. */
  const PARAMETER_A: ParameterId := 0

  type uint15 = x: int | 0 <= x < 0x8000

  datatype PackedPhase = PackedPhase(high: bool, max: uint15, phase: uint15)

  /**
   * One sample of an oscillator: the phase moves on by PHASE_RADIX in
   * 15-bit arithmetic, and once it passes the period it drops back by the
   * period and the level flips.
   */
  function Advance(p: PackedPhase): PackedPhase
  {
    var ph := (p.phase + PHASE_RADIX) % UINT15;
    if ph > p.max then PackedPhase(!p.high, p.max, ph - p.max) else p.(phase := ph)
  }

  function AdvanceN(p: PackedPhase, n: nat): PackedPhase
  {
    if n == 0 then p else Advance(AdvanceN(p, n - 1))
  }

  /** The sample an oscillator contributes: +1 while high, -1 while low. */
  function Level(p: PackedPhase): real
  {
    if p.high then 1.0 else -1.0
  }

  /** `startNote`: the oscillator of a new note starts low at phase 0. */
  function Started(max: uint15): PackedPhase
  {
    PackedPhase(false, max, 0)
  }

  /**
   * With a period of at least PHASE_RADIX and far enough from the 15-bit
   * limit, the phase never leaves [0, max], and the period never changes.
   */
  lemma AdvanceStaysInPeriod(p: PackedPhase)
    requires PHASE_RADIX <= p.max < UINT15 - PHASE_RADIX && p.phase <= p.max
    ensures Advance(p).phase <= p.max && Advance(p).max == p.max
    ensures Advance(p).high != p.high <==> p.phase + PHASE_RADIX > p.max
  {
  }

  /**
   * A started oscillator holds its level for `max / PHASE_RADIX` samples:
   * after k samples, with 16k not past the period, the phase is 16k and the
   * level is still low.
   */
  lemma {:induction false} HoldsForHalfPeriod(max: uint15, k: nat)
    requires PHASE_RADIX * k <= max
    ensures AdvanceN(Started(max), k) == PackedPhase(false, max, PHASE_RADIX * k)
  {
    if k > 0 {
      HoldsForHalfPeriod(max, k - 1);
      WithinUint15(PHASE_RADIX * (k - 1) + PHASE_RADIX);
    }
  }

  lemma WithinUint15(x: int)
    requires 0 <= x < UINT15
    ensures x % UINT15 == x
  {
  }

  /** ... and flips on the next sample. */
  lemma FlipsAfterHalfPeriod(max: uint15)
    requires max < UINT15 - PHASE_RADIX
    ensures AdvanceN(Started(max), max / PHASE_RADIX + 1).high
  {
    var k := max / PHASE_RADIX;
    HoldsForHalfPeriod(max, k);
  }

  /** A run of phases each one `Advance` after the last is the run of `AdvanceN` from its first. */
  lemma {:induction false} PhasesAdvance(start: PackedPhase, phases: seq<PackedPhase>, n: nat)
    requires |phases| == n + 1 && phases[0] == start
    requires forall e :: 0 <= e < n ==> phases[e + 1] == Advance(phases[e])
    ensures forall e :: 0 <= e <= n ==> phases[e] == AdvanceN(start, e)
  {
    if n > 0 {
      PhasesAdvance(start, phases[..n], n - 1);
      assert phases[n] == Advance(phases[n - 1]);
    }
  }

  /** The sum of the first `n` notes' levels at sample `d` of the block. */
  function Mix(phases: seq<PackedPhase>, n: nat, d: nat): real
    requires n <= |phases|
  {
    if n == 0 then 0.0 else Mix(phases, n - 1, d) + Level(AdvanceN(phases[n - 1], d))
  }

  /** The gate at sample `i` of a block: low while a retrigger is due, then the gate level. */
  function GateLevel(i: nat, needRetrig: nat, isDown: bool): real
  {
    if i < needRetrig then 0.0 else if isDown then 1.0 else 0.0
  }

  /** The retrigger countdown is spread seamlessly over consecutive blocks. */
  lemma GateAcrossBlocks(needRetrig: nat, isDown: bool, size: nat, i: nat)
    ensures var left := if needRetrig < size then 0 else needRetrig - size;
      GateLevel(i, left, isDown) == GateLevel(size + i, needRetrig, isDown)
  {
  }

  // ---------------------------------------------------------------------------
  // Replaying the note-stack hooks

  function Apply(a: seq<PackedPhase>, h: Hook, max: uint15): seq<PackedPhase>
  {
    match h
    case StartNote(at, _) => if at < |a| then a[at := Started(max)] else a
    case KillNote(at, dc) => if at < dc <= |a| then ShiftDown(a, at, dc) else a
  }

  /** The oscillators after the hook calls in `hooks`, in order. */
  function Replay(a: seq<PackedPhase>, hooks: seq<Hook>, max: uint15): (r: seq<PackedPhase>)
    ensures |r| == |a|
  {
    if |hooks| == 0 then a else Apply(Replay(a, hooks[..|hooks| - 1], max), hooks[|hooks| - 1], max)
  }

  /**
   * After a note-on the new note's oscillator is started on top of the
   * stack; an earlier copy of the note, if held, has been shifted out first.
   */
  lemma NoteOnStartsOscillator(s: StackState, msg: MidiMessage, indeterminate: byte, a: seq<PackedPhase>, max: uint15)
    requires WellFormed(s) && |a| == MIDI_MAXDOWN && msg.GetStatus() == MidiCodeNoteOn
    ensures var top := |Step(s, msg, indeterminate).held| - 1;
      0 <= top < |a| && Replay(a, Hooks(s, msg), max)[top] == Started(max)
  {
    StepNoteOn(s, msg, indeterminate);
    var h := Hooks(s, msg);
    var n := msg.GetNote();
    var top := |Pushed(Without(s.held, n), n)| - 1;
    WithoutRemovesNote(s.held, n);
    assert h[|h| - 1] == StartNote(top, n);
  }

  /**
   * Dropping the oldest note of a full stack calls no `killNote`, so the
   * oscillators are not shifted: slots below the top keep their old state.
   */
  lemma OverflowKeepsOscillators(s: StackState, msg: MidiMessage, indeterminate: byte, a: seq<PackedPhase>, max: uint15)
    requires WellFormed(s) && |a| == MIDI_MAXDOWN && msg.GetStatus() == MidiCodeNoteOn
    requires |s.held| == MIDI_MAXDOWN && msg.GetNote() !in s.held
    ensures Replay(a, Hooks(s, msg), max) == a[MIDI_MAXDOWN - 1 := Started(max)]
  {
    var n := msg.GetNote();
    WithoutRemovesNote(s.held, n);
    StepNoteOn(s, msg, indeterminate);
    var h := Hooks(s, msg);
    assert h == [StartNote(MIDI_MAXDOWN - 1, n)];
    assert h[..0] == [];
  }

  class MidiSquarePatch {
    const base: MidiPatchBase
    const midiPhase: array<PackedPhase>
    var hostLog: seq<HostCall>

    ghost predicate Valid()
      reads this, base, base.midiDown
    {
      base.Valid() && midiPhase.Length == MIDI_MAXDOWN
    }

    constructor()
      ensures Valid() && fresh(base) && fresh(base.midiDown) && fresh(midiPhase)
      ensures base.State() == StackState([], Display.MIDDLEC_MIDI, false, 0)
      ensures hostLog == [RegisterParameter(PARAMETER_A, "Amp"), SetParameterValue(PARAMETER_A, 0.5)]
    {
      base := new MidiPatchBase();
      midiPhase := new PackedPhase[MIDI_MAXDOWN];
      hostLog := [RegisterParameter(PARAMETER_A, "Amp"), SetParameterValue(PARAMETER_A, 0.5)];
    }

    /**
     * `processMidi`: the note stack, then the hooks. `max` is the period a
     * started note gets: `startNote` computes it in floating point from the
     * note and the sample rate, which this model takes as given.
     */
    method ProcessMidi(msg: MidiMessage, indeterminate: byte, max: uint15)
      requires Valid()
      modifies base, base.midiDown, midiPhase
      ensures Valid()
      ensures base.State() == Step(old(base.State()), msg, indeterminate)
      ensures midiPhase[..] == Replay(old(midiPhase[..]), Hooks(old(base.State()), msg), max)
    {
      var hooks := base.ProcessMidi(msg, indeterminate);
      ReplayHooks(hooks, max);
    }

    /** The hook calls of one `processMidi`, in order. */
    method ReplayHooks(hooks: seq<Hook>, max: uint15)
      requires midiPhase.Length == MIDI_MAXDOWN
      modifies midiPhase
      ensures midiPhase[..] == Replay(old(midiPhase[..]), hooks, max)
    {
      ghost var a0 := midiPhase[..];
      var i := 0;
      while i < |hooks|
        invariant 0 <= i <= |hooks|
        invariant midiPhase[..] == Replay(a0, hooks[..i], max)
      {
        assert hooks[..i + 1][..i] == hooks[..i];
        ApplyHook(hooks[i], max);
        i := i + 1;
      }
      assert hooks[..|hooks|] == hooks;
    }

    /** `startNote` or `killNote`, as one hook call names it. */
    method ApplyHook(h: Hook, max: uint15)
      requires midiPhase.Length == MIDI_MAXDOWN
      modifies midiPhase
      ensures midiPhase[..] == Apply(old(midiPhase[..]), h, max)
    {
      match h {
        case StartNote(at, note) =>
          if at < MIDI_MAXDOWN {
            midiPhase[at] := Started(max);
          }
        case KillNote(at, dc) =>
          if at < dc <= MIDI_MAXDOWN {
            ShiftSlots(midiPhase, at, dc);
          }
      }
    }

    /** The oscillator loop: every held note adds its wave to the right channel. */
    method RenderNotes(right: array<real>, size: nat)
      requires Valid() && size <= right.Length
      modifies midiPhase, right
      ensures forall c :: 0 <= c < base.downCount ==> midiPhase[c] == AdvanceN(old(midiPhase[c]), size)
      ensures forall c :: base.downCount <= c < MIDI_MAXDOWN ==> midiPhase[c] == old(midiPhase[c])
      ensures forall d :: 0 <= d < size ==> right[d] == old(right[d]) + Mix(old(midiPhase[..]), base.downCount, d)
      ensures right[size..] == old(right[size..])
    {
      ghost var p0 := midiPhase[..];
      ghost var r0 := right[..];
      var c := 0;
      while c < base.downCount
        invariant 0 <= c <= base.downCount
        invariant forall i :: 0 <= i < c ==> midiPhase[i] == AdvanceN(p0[i], size)
        invariant forall i :: c <= i < MIDI_MAXDOWN ==> midiPhase[i] == p0[i]
        invariant forall e :: 0 <= e < size ==> right[e] == r0[e] + Mix(p0, c, e)
        invariant right[size..] == r0[size..]
      {
        RenderOne(right, size, c);
        c := c + 1;
      }
    }

    /** One pass of the oscillator loop: oscillator `c` adds its wave and advances `size` steps. */
    method RenderOne(right: array<real>, size: nat, c: nat)
      requires midiPhase.Length == MIDI_MAXDOWN && size <= right.Length && c < MIDI_MAXDOWN
      modifies midiPhase, right
      ensures midiPhase[c] == AdvanceN(old(midiPhase[c]), size)
      ensures forall i :: 0 <= i < MIDI_MAXDOWN && i != c ==> midiPhase[i] == old(midiPhase[i])
      ensures forall e :: 0 <= e < size ==> right[e] == old(right[e]) + Level(AdvanceN(old(midiPhase[c]), e))
      ensures right[size..] == old(right[size..])
    {
      ghost var start := midiPhase[c];
      ghost var p0 := midiPhase[..];
      ghost var r0 := right[..];
      ghost var phases := [start];
      var d := 0;
      while d < size
        invariant 0 <= d <= size && |phases| == d + 1 && phases[0] == start
        invariant midiPhase[c] == phases[d]
        invariant forall e :: 0 <= e < d ==> phases[e + 1] == Advance(phases[e])
        invariant forall i :: 0 <= i < MIDI_MAXDOWN && i != c ==> midiPhase[i] == p0[i]
        invariant forall e :: 0 <= e < d ==> right[e] == r0[e] + Level(phases[e])
        invariant forall e :: d <= e < right.Length ==> right[e] == r0[e]
      {
        Sample(right, d, c);
        phases := phases + [midiPhase[c]];
        d := d + 1;
      }
      PhasesAdvance(start, phases, size);
      assert right[size..] == old(right[size..]);
    }

    /** The body of the oscillator loop: sample `d` gets oscillator `c`'s level, which then advances. */
    method Sample(right: array<real>, d: nat, c: nat)
      requires d < right.Length && c < midiPhase.Length
      modifies midiPhase, right
      ensures right[d] == old(right[d]) + Level(old(midiPhase[c]))
      ensures forall e :: 0 <= e < right.Length && e != d ==> right[e] == old(right[e])
      ensures midiPhase[c] == Advance(old(midiPhase[c]))
      ensures forall i :: 0 <= i < midiPhase.Length && i != c ==> midiPhase[i] == old(midiPhase[i])
    {
      right[d] := right[d] + Level(midiPhase[c]);
      midiPhase[c] := Advance(midiPhase[c]);
    }

    /**
     * The gate loops: zeros while a retrigger is due, counting it down, then
     * the gate level for the rest of the block.
     */
    method FillGate(left: array<real>, size: nat)
      requires Valid() && size <= left.Length
      modifies base, left
      ensures Valid()
      ensures base.State() == old(base.State()).(needRetrig := old(base.needRetrig) - Min(old(base.needRetrig), size))
      ensures base.downCount == old(base.downCount) && base.isDown == old(base.isDown)
      ensures forall i :: 0 <= i < size ==> left[i] == GateLevel(i, old(base.needRetrig), base.isDown)
      ensures left[size..] == old(left[size..])
    {
      var temp := if base.isDown then 1.0 else 0.0;
      var retrig := base.needRetrig;
      var c := 0;
      while retrig > 0 && c < size
        modifies left
        invariant 0 <= c <= size && retrig as int + c == old(base.needRetrig) as int
        invariant forall i :: 0 <= i < c ==> left[i] == 0.0
        invariant left[c..] == old(left[c..])
      {
        left[c] := 0.0;
        c := c + 1;
        retrig := retrig - 1;
      }
      ghost var c0 := c;
      assert forall i :: 0 <= i < c0 ==> left[i] == GateLevel(i, old(base.needRetrig), base.isDown);
      while c < size
        modifies left
        invariant c0 <= c <= size
        invariant c > c0 ==> c0 == old(base.needRetrig) as int
        invariant forall i :: 0 <= i < c ==> left[i] == GateLevel(i, old(base.needRetrig), base.isDown)
        invariant left[c..] == old(left[c..])
      {
        left[c] := temp;
        c := c + 1;
      }
      base.needRetrig := retrig;
    }

    /**
     * `processAudio` without PATCH_STEREO: the notes' square waves are added
     * to the right channel, which is then scaled by a quarter of parameter A
     * and clamped; the left channel carries the gate. `paramA` is the value
     * the host returns for parameter A.
     */
    method ProcessAudio(left: array<real>, right: array<real>, paramA: real)
      requires Valid() && left != right
      modifies base, midiPhase, left, right
      ensures Valid()
      ensures var size := BlockSize(left, right);
        && (forall c :: 0 <= c < base.downCount ==> midiPhase[c] == AdvanceN(old(midiPhase[c]), size))
        && (forall c :: base.downCount <= c < MIDI_MAXDOWN ==> midiPhase[c] == old(midiPhase[c]))
        && Mixed(right[..], old(right[..]), old(midiPhase[..]), base.downCount, paramA / 4.0, size)
        && (forall d :: 0 <= d < size ==> left[d] == GateLevel(d, old(base.needRetrig), base.isDown))
        && right[size..] == old(right[size..]) && left[size..] == old(left[size..])
        && base.State() == old(base.State()).(needRetrig := old(base.needRetrig) - Min(old(base.needRetrig), size))
    {
      var amp := paramA / 4.0;
      var size := BlockSize(left, right);
      RenderRight(right, size, amp);
      FillGate(left, size);
    }

    /** The right-channel half of `processAudio`. */
    method RenderRight(right: array<real>, size: nat, amp: real)
      requires Valid() && size <= right.Length
      modifies midiPhase, right
      ensures forall c :: 0 <= c < base.downCount ==> midiPhase[c] == AdvanceN(old(midiPhase[c]), size)
      ensures forall c :: base.downCount <= c < MIDI_MAXDOWN ==> midiPhase[c] == old(midiPhase[c])
      ensures Mixed(right[..], old(right[..]), old(midiPhase[..]), base.downCount, amp, size)
      ensures right[size..] == old(right[size..])
    {
      ghost var r0 := right[..];
      ghost var p0 := midiPhase[..];
      RenderNotes(right, size);
      ghost var mixed := right[..];
      ScaleAndClamp(right, size, amp);
      MixedInTwoSteps(r0, mixed, right[..], p0, base.downCount, amp, size);
    }
  }

  /**
   * The right channel after a block: each sample is what it held plus the
   * levels of the first `n` oscillators, scaled by `amp` and clamped.
   */
  ghost predicate Mixed(now: seq<real>, before: seq<real>, phases: seq<PackedPhase>, n: nat, amp: real, size: nat)
  {
    && size <= |now| && size <= |before| && n <= |phases|
    && forall d :: 0 <= d < size ==> now[d] == Scaled(before[d] + Mix(phases, n, d), amp)
  }

  lemma MixedInTwoSteps(before: seq<real>, mixed: seq<real>, now: seq<real>, phases: seq<PackedPhase>, n: nat, amp: real, size: nat)
    requires size <= |before| && size <= |mixed| && size <= |now| && n <= |phases|
    requires forall d :: 0 <= d < size ==> mixed[d] == before[d] + Mix(phases, n, d)
    requires forall d :: 0 <= d < size ==> now[d] == Scaled(mixed[d], amp)
    ensures Mixed(now, before, phases, n, amp, size)
  {
  }

  /** `CLAMP(x * amp)`: a sample scaled by the amplitude and clamped to [-1, 1]. */
  function Scaled(x: real, amp: real): (r: real)
    ensures -1.0 <= r <= 1.0
  {
    Clamp(x * amp)
  }

  /** `for (d = 0; d < size; d++) data[d] = CLAMP(data[d] * amp)` */
  method ScaleAndClamp(data: array<real>, size: nat, amp: real)
    requires size <= data.Length
    modifies data
    ensures forall d :: 0 <= d < size ==> data[d] == Scaled(old(data[d]), amp)
    ensures data[size..] == old(data[size..])
  {
    var d := 0;
    while d < size
      invariant 0 <= d <= size
      invariant forall e :: 0 <= e < d ==> data[e] == Scaled(old(data[e]), amp)
      invariant data[d..] == old(data[d..])
    {
      data[d] := Scaled(data[d], amp);
      d := d + 1;
    }
  }

  function Min(a: int, b: int): int
  {
    if a < b then a else b
  }
}
