/**
 * MidiSquareDrunkPatch.hpp: like MidiSquarePatch, but only one held note
 * sounds at a time. Each time the selected note's square wave falls from
 * high to low, the selection moves on to the next note of the stack.
 */
module MidiSquareDrunk {
  import opened Bits
  import opened MidiMessages
  import opened NoteStack
  import opened Host
  import opened Audio
  import MidiSquare
  import Display

  /**
   * `nextNote` as written: step the selection, and wrap to 0 once it is
   * past `downCount`. It therefore visits `downCount` itself, one past the
   * top of the stack.
   */
  function NextNote(selected: int, downCount: nat): int
  {
    if selected + 1 > downCount then 0 else selected + 1
  }

  /** As written the selection cycles through downCount + 1 slots, not downCount. */
  lemma NextNoteCycles(selected: int, downCount: nat)
    requires 0 <= selected <= downCount
    ensures NextNote(selected, downCount) == (selected + 1) % (downCount + 1)
  {
  }

  /**
   * The input that shows it: with the stack full, the selection reaches
   * MIDI_MAXDOWN, one past the last slot of `midiPhase`, and the next
   * sample reads outside the array.
   */
  lemma NextNoteLeavesArray()
    ensures NextNote(MIDI_MAXDOWN - 1, MIDI_MAXDOWN) == MIDI_MAXDOWN
  {
  }

  /** `nextNote` as evidently intended: wrap once the selection reaches `downCount`. */
  function NextNoteWithinStack(selected: int, downCount: nat): int
  {
    if selected + 1 >= downCount then 0 else selected + 1
  }

  /** The intended selection cycles through the held notes and never leaves the stack. */
  lemma NextNoteWithinStackCycles(selected: int, downCount: nat)
    requires -1 <= selected
    ensures 0 <= NextNoteWithinStack(selected, downCount)
    ensures downCount > 0 ==> NextNoteWithinStack(selected, downCount) < downCount
    ensures 0 <= selected < downCount ==> NextNoteWithinStack(selected, downCount) == (selected + 1) % downCount
  {
  }

  /** `killNote`'s change of the selection, with `downCount` the height before the release. */
  function KillSelect(selected: int, at: nat, downCount: nat): int
  {
    if at >= selected then NextNote(selected - 1, downCount) else selected
  }

  /**
   * The decrement and the step of `killNote` cancel out: releasing the
   * selected note or one above it leaves the selection where it is, and
   * the selection stays within 0..downCount.
   */
  lemma KillSelectKeepsSlot(selected: int, at: nat, downCount: nat)
    requires 0 <= selected <= downCount && at < downCount
    ensures selected <= at ==> KillSelect(selected, at, downCount) == selected
    ensures at < selected ==> KillSelect(selected, at, downCount) == selected
    ensures 0 <= KillSelect(selected, at, downCount) <= downCount
  {
  }

  /** The oscillators and the selection. */
  datatype Voices = Voices(phases: seq<MidiSquare.PackedPhase>, selected: int)

  function Apply(v: Voices, h: Hook, max: MidiSquare.uint15): Voices
  {
    match h
    case StartNote(at, _) => if at < |v.phases| then v.(phases := v.phases[at := MidiSquare.Started(max)]) else v
    case KillNote(at, dc) =>
      if at < dc <= |v.phases| then Voices(ShiftDown(v.phases, at, dc), KillSelect(v.selected, at, dc)) else v
  }

  /** The voices after the hook calls in `hooks`, in order. */
  function Replay(v: Voices, hooks: seq<Hook>, max: MidiSquare.uint15): (r: Voices)
    ensures |r.phases| == |v.phases|
  {
    if |hooks| == 0 then v else Apply(Replay(v, hooks[..|hooks| - 1], max), hooks[|hooks| - 1], max)
  }

  /** The selection stays within 0..MIDI_MAXDOWN whatever the note stack does. */
  lemma {:induction false} ReplayKeepsSelection(v: Voices, hooks: seq<Hook>, max: MidiSquare.uint15)
    requires 0 <= v.selected <= MIDI_MAXDOWN
    requires forall i :: 0 <= i < |hooks| && hooks[i].KillNote? ==> hooks[i].downCount <= MIDI_MAXDOWN
    ensures 0 <= Replay(v, hooks, max).selected <= MIDI_MAXDOWN
  {
    if |hooks| > 0 {
      var init := hooks[..|hooks| - 1];
      assert forall i :: 0 <= i < |init| ==> init[i] == hooks[i];
      ReplayKeepsSelection(v, init, max);
    }
  }

  lemma HooksWithinStack(s: StackState, msg: MidiMessage)
    requires WellFormed(s)
    ensures forall i :: 0 <= i < |Hooks(s, msg)| && Hooks(s, msg)[i].KillNote? ==> Hooks(s, msg)[i].downCount <= MIDI_MAXDOWN
  {
  }

  // ---------------------------------------------------------------------------
  // processAudio

  /** One sample: only the selected oscillator advances; a high-to-low flip moves the selection on. */
  function Tick(v: Voices, downCount: nat): Voices
    requires 0 <= v.selected < |v.phases|
  {
    var p := v.phases[v.selected];
    var q := MidiSquare.Advance(p);
    var next := if q.high != p.high && !q.high then NextNote(v.selected, downCount) else v.selected;
    Voices(v.phases[v.selected := q], next)
  }

  /** Every one of the next `n` samples selects a slot inside the array. */
  ghost predicate InBounds(v: Voices, downCount: nat, n: nat)
    decreases n
  {
    n == 0 || (0 <= v.selected < |v.phases| && InBounds(Tick(v, downCount), downCount, n - 1))
  }

  /** The voices after `n` samples. */
  function Run(v: Voices, downCount: nat, n: nat): (r: Voices)
    requires InBounds(v, downCount, n)
    ensures |r.phases| == |v.phases|
    decreases n
  {
    if n == 0 then v else Run(Tick(v, downCount), downCount, n - 1)
  }

  lemma {:induction false} InBoundsPrefix(v: Voices, downCount: nat, n: nat, m: nat)
    requires InBounds(v, downCount, n) && m <= n
    ensures InBounds(v, downCount, m)
    decreases n
  {
    if m > 0 {
      InBoundsPrefix(Tick(v, downCount), downCount, n - 1, m - 1);
    }
  }

  lemma {:induction false} RunStep(v: Voices, downCount: nat, n: nat)
    requires InBounds(v, downCount, n + 1)
    ensures InBounds(v, downCount, n)
    ensures 0 <= Run(v, downCount, n).selected < |v.phases|
    ensures Run(v, downCount, n + 1) == Tick(Run(v, downCount, n), downCount)
    decreases n
  {
    InBoundsPrefix(v, downCount, n + 1, n);
    if n > 0 {
      RunStep(Tick(v, downCount), downCount, n - 1);
    }
  }

  /** The sample the selected oscillator contributes at sample `d` of an `n`-sample block. */
  function SampleAt(v: Voices, downCount: nat, n: nat, d: nat): real
    requires InBounds(v, downCount, n) && d < n
  {
    InBoundsPrefix(v, downCount, n, d + 1);
    RunStep(v, downCount, d);
    var u := Run(v, downCount, d);
    MidiSquare.Level(u.phases[u.selected])
  }

  /**
   * Below a full stack the selection can never leave the array, so the
   * bound `processAudio` needs only matters with MIDI_MAXDOWN notes held.
   */
  lemma {:induction false} InBoundsBelowFullStack(v: Voices, downCount: nat, n: nat)
    requires |v.phases| == MIDI_MAXDOWN && 0 <= v.selected < MIDI_MAXDOWN && downCount < MIDI_MAXDOWN
    ensures InBounds(v, downCount, n)
    decreases n
  {
    if n > 0 {
      InBoundsBelowFullStack(Tick(v, downCount), downCount, n - 1);
    }
  }

  /** A sample changes only the selected oscillator, by one step. */
  lemma TickAdvancesSelectedOnly(v: Voices, downCount: nat)
    requires 0 <= v.selected < |v.phases|
    ensures var t := Tick(v, downCount);
      && t.phases[v.selected] == MidiSquare.Advance(v.phases[v.selected])
      && (forall i :: 0 <= i < |v.phases| && i != v.selected ==> t.phases[i] == v.phases[i])
      && (t.selected != v.selected ==> v.phases[v.selected].high && !t.phases[v.selected].high)
  {
  }

  /** The left channel after the per-sample loop of a block. */
  ghost predicate Accumulated(now: seq<real>, before: seq<real>, v: Voices, downCount: nat, size: nat)
  {
    && size <= |now| && size <= |before|
    && (downCount > 0 ==> InBounds(v, downCount, size))
    && forall d :: 0 <= d < size ==>
         now[d] == if downCount > 0 then before[d] + SampleAt(v, downCount, size, d) else 0.0
  }

  /** The left and right outputs of a block, before and after. */
  ghost predicate Rendered(left: seq<real>, right: seq<real>, before: seq<real>, v: Voices, downCount: nat, amp: real, size: nat)
  {
    && size <= |left| && size <= |right| && size <= |before|
    && (downCount > 0 ==> InBounds(v, downCount, size))
    && forall d :: 0 <= d < size ==>
         var raw := if downCount > 0 then before[d] + SampleAt(v, downCount, size, d) else 0.0;
         left[d] == MidiSquare.Scaled(raw, amp) && right[d] == left[d]
  }

  class MidiSquareDrunkPatch {
    const base: MidiPatchBase
    const midiPhase: array<MidiSquare.PackedPhase>
    var phaseSelected: int
    var hostLog: seq<HostCall>

    ghost predicate Valid()
      reads this, base, base.midiDown
    {
      base.Valid() && midiPhase.Length == MIDI_MAXDOWN && 0 <= phaseSelected <= MIDI_MAXDOWN
    }

    function State(): Voices
      reads this, midiPhase
    {
      Voices(midiPhase[..], phaseSelected)
    }

    constructor()
      ensures Valid() && fresh(base) && fresh(base.midiDown) && fresh(midiPhase)
      ensures base.State() == StackState([], Display.MIDDLEC_MIDI, false, 0)
      ensures phaseSelected == 0
      ensures hostLog == [RegisterParameter(MidiSquare.PARAMETER_A, "Amp"), SetParameterValue(MidiSquare.PARAMETER_A, 0.5)]
    {
      base := new MidiPatchBase();
      midiPhase := new MidiSquare.PackedPhase[MIDI_MAXDOWN];
      hostLog := [RegisterParameter(MidiSquare.PARAMETER_A, "Amp"), SetParameterValue(MidiSquare.PARAMETER_A, 0.5)];
      phaseSelected := 0;
    }

    method KillNote(at: nat, downCount: nat)
      requires midiPhase.Length == MIDI_MAXDOWN && at < downCount <= MIDI_MAXDOWN
      modifies this, midiPhase
      ensures State() == Apply(old(State()), Hook.KillNote(at, downCount), 0)
      ensures hostLog == old(hostLog)
    {
      ShiftSlots(midiPhase, at, downCount);
      if at >= phaseSelected {
        phaseSelected := phaseSelected - 1;
        phaseSelected := NextNote(phaseSelected, downCount);
      }
    }

    /** `startNote` or `killNote`, as one hook call names it. */
    method ApplyHook(h: Hook, max: MidiSquare.uint15)
      requires midiPhase.Length == MIDI_MAXDOWN
      modifies this, midiPhase
      ensures State() == Apply(old(State()), h, max)
      ensures hostLog == old(hostLog)
    {
      match h {
        case StartNote(at, note) =>
          if at < MIDI_MAXDOWN {
            midiPhase[at] := MidiSquare.Started(max);
          }
        case KillNote(at, dc) =>
          if at < dc <= MIDI_MAXDOWN {
            KillNote(at, dc);
          }
      }
    }

    /**
     * `processMidi`: the note stack, then the hooks. `max` is the period a
     * started note gets, which `startNote` computes in floating point.
     */
    method ProcessMidi(msg: MidiMessage, indeterminate: byte, max: MidiSquare.uint15)
      requires Valid()
      modifies this, base, base.midiDown, midiPhase
      ensures Valid()
      ensures base.State() == Step(old(base.State()), msg, indeterminate)
      ensures State() == Replay(old(State()), Hooks(old(base.State()), msg), max)
      ensures hostLog == old(hostLog)
    {
      ghost var v0 := State();
      ghost var s0 := base.State();
      var hooks := base.ProcessMidi(msg, indeterminate);
      ReplayHooks(hooks, max);
      HooksWithinStack(s0, msg);
      ReplayKeepsSelection(v0, hooks, max);
    }

    /** The hook calls of one `processMidi`, in order. */
    method ReplayHooks(hooks: seq<Hook>, max: MidiSquare.uint15)
      requires midiPhase.Length == MIDI_MAXDOWN
      modifies this, midiPhase
      ensures State() == Replay(old(State()), hooks, max)
      ensures hostLog == old(hostLog)
    {
      ghost var v0 := State();
      var i := 0;
      while i < |hooks|
        invariant 0 <= i <= |hooks|
        invariant State() == Replay(v0, hooks[..i], max)
        invariant hostLog == old(hostLog)
      {
        assert hooks[..i + 1][..i] == hooks[..i];
        ApplyHook(hooks[i], max);
        i := i + 1;
      }
      assert hooks[..|hooks|] == hooks;
    }

    /** The per-sample loop of `processAudio`, on the left channel. */
    method RenderSelected(left: array<real>, size: nat)
      requires Valid() && size <= left.Length
      requires base.downCount > 0 ==> InBounds(State(), base.downCount, size)
      modifies this, midiPhase, left
      ensures Valid() && hostLog == old(hostLog)
      ensures State() == if base.downCount > 0 then Run(old(State()), base.downCount, size) else old(State())
      ensures Accumulated(left[..], old(left[..]), old(State()), base.downCount, size)
    {
      ghost var v0 := State();
      var d := 0;
      while d < size
        invariant 0 <= d <= size && Valid() && hostLog == old(hostLog)
        invariant base.downCount > 0 ==> InBounds(v0, base.downCount, size) && InBounds(v0, base.downCount, d) && State() == Run(v0, base.downCount, d)
        invariant base.downCount == 0 ==> State() == v0
        invariant forall e :: 0 <= e < d ==>
          left[e] == if base.downCount > 0 then old(left[e]) + SampleAt(v0, base.downCount, size, e) else 0.0
        invariant forall e :: d <= e < left.Length ==> left[e] == old(left[e])
      {
        if base.downCount > 0 {
          InBoundsPrefix(v0, base.downCount, size, d + 1);
          RunStep(v0, base.downCount, d);
          SampleSelected(left, d);
        } else {
          left[d] := 0.0;
        }
        d := d + 1;
      }
    }

    /** The body of the per-sample loop: sample `d` gets the selected oscillator's level, which then advances. */
    method SampleSelected(left: array<real>, d: nat)
      requires midiPhase.Length == MIDI_MAXDOWN && 0 <= phaseSelected < MIDI_MAXDOWN && d < left.Length
      modifies this, midiPhase, left
      ensures State() == Tick(old(State()), base.downCount)
      ensures left[d] == old(left[d]) + MidiSquare.Level(old(midiPhase[phaseSelected]))
      ensures forall e :: 0 <= e < left.Length && e != d ==> left[e] == old(left[e])
      ensures hostLog == old(hostLog)
    {
      var phase := midiPhase[phaseSelected];
      left[d] := left[d] + MidiSquare.Level(phase);
      var next := MidiSquare.Advance(phase);
      midiPhase[phaseSelected] := next;
      if next.high != phase.high && !next.high {
        phaseSelected := NextNote(phaseSelected, base.downCount);
      }
    }

    /**
     * `processAudio`: the selected note's wave is added to the left
     * channel (which is silenced when no note is held), then both channels
     * get the left channel scaled by a quarter of parameter A and clamped.
     * As written, a full stack can move the selection past the array; the
     * precondition excludes the blocks where that happens.
     */
    method ProcessAudio(left: array<real>, right: array<real>, paramA: real)
      requires Valid() && left != right
      requires base.downCount > 0 ==> InBounds(State(), base.downCount, BlockSize(left, right))
      modifies this, midiPhase, left, right
      ensures Valid() && hostLog == old(hostLog)
      ensures State() == if base.downCount > 0 then Run(old(State()), base.downCount, BlockSize(left, right)) else old(State())
      ensures Rendered(left[..], right[..], old(left[..]), old(State()), base.downCount, paramA / 4.0, BlockSize(left, right))
    {
      var amp := paramA / 4.0;
      var size := BlockSize(left, right);
      ghost var l0 := left[..];
      ghost var v0 := State();
      RenderSelected(left, size);
      ghost var raw := left[..];
      ScaleToBoth(left, right, size, amp);
      RenderedInTwoSteps(l0, raw, left[..], right[..], v0, base.downCount, amp, size);
    }
  }

  /** The output stage of `processAudio`: both channels get the left one scaled and clamped. */
  method ScaleToBoth(left: array<real>, right: array<real>, size: nat, amp: real)
    requires left != right && size <= left.Length && size <= right.Length
    modifies left, right
    ensures Scaled(left[..], right[..], old(left[..]), amp, size)
  {
    var d := 0;
    while d < size
      invariant 0 <= d <= size
      invariant forall e :: 0 <= e < d ==> left[e] == MidiSquare.Scaled(old(left[e]), amp) && right[e] == left[e]
      invariant forall e :: d <= e < left.Length ==> left[e] == old(left[e])
    {
      var sample := MidiSquare.Scaled(left[d], amp);
      left[d] := sample;
      right[d] := sample;
      d := d + 1;
    }
  }

  /** Both channels hold the first `size` samples of `raw`, scaled by `amp` and clamped. */
  ghost predicate Scaled(left: seq<real>, right: seq<real>, raw: seq<real>, amp: real, size: nat)
  {
    && size <= |left| && size <= |right| && size <= |raw|
    && forall d :: 0 <= d < size ==> left[d] == MidiSquare.Scaled(raw[d], amp) && right[d] == left[d]
  }

  lemma RenderedInTwoSteps(before: seq<real>, raw: seq<real>, left: seq<real>, right: seq<real>,
                           v: Voices, downCount: nat, amp: real, size: nat)
    requires Accumulated(raw, before, v, downCount, size)
    requires Scaled(left, right, raw, amp, size)
    ensures Rendered(left, right, before, v, downCount, amp, size)
  {
  }
}
