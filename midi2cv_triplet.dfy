/**
 * Midi2CVTripletPatch.hpp: the note stack drives three CV outputs and one
 * trigger. Each held note may own one of the outputs: `midiAssign[i]` is the
 * output of the i-th held note, or -1. A new note takes the lowest free
 * output, or steals the output of the oldest note that has one; a released
 * note hands its output to the nearest unassigned note below it.
 */
module Midi2CVTriplet {
  import opened Bits
  import opened Wrappers
  import opened MidiMessages
  import opened NoteStack
  import opened Host
  import PatchForSlot
  import Display
  import opened Audio

  const MIDI_OUTS: int := 3
  const PARAM_BASE: bv32 := 0

  /**
   * The invariant of the assignment array over the first `n` held notes:
   * every entry is an output or -1, and no output belongs to two notes.
   */
  ghost predicate AssignOk(a: seq<int>, n: nat)
  {
    && n <= |a|
    && (forall i :: 0 <= i < n ==> -1 <= a[i] < MIDI_OUTS)
    && (forall i, j :: 0 <= i < j < n && a[i] >= 0 ==> a[i] != a[j])
  }

  lemma AssignOkPrefix(a: seq<int>, n: nat, m: nat)
    requires AssignOk(a, n) && m <= n
    ensures AssignOk(a, m)
  {
  }

  // ---------------------------------------------------------------------------
  // startNote

  /** The lowest output from `check` on that no note below `at` owns, or -1. */
  function FreeFrom(a: seq<int>, at: nat, check: nat): (r: int)
    requires at <= |a|
    decreases MIDI_OUTS - check
    ensures -1 <= r < MIDI_OUTS
    ensures r >= 0 ==> check <= r && r !in a[..at] && forall k :: check <= k < r ==> k in a[..at]
    ensures r < 0 ==> forall k :: check <= k < MIDI_OUTS ==> k in a[..at]
  {
    if check >= MIDI_OUTS then -1
    else if check in a[..at] then FreeFrom(a, at, check + 1)
    else check
  }

  function LowestFree(a: seq<int>, at: nat): int
    requires at <= |a|
  {
    FreeFrom(a, at, 0)
  }

  /** The first note below `from + |rest|`, counting from `from`, that owns an output. */
  function FirstAssignedFrom(a: seq<int>, at: nat, c: nat): (r: Option<nat>)
    requires c <= at <= |a|
    decreases at - c
    ensures r.Some? ==> c <= r.value < at && a[r.value] >= 0 && forall i :: c <= i < r.value ==> a[i] < 0
    ensures r.None? ==> forall i :: c <= i < at ==> a[i] < 0
  {
    if c == at then None
    else if a[c] >= 0 then Some(c)
    else FirstAssignedFrom(a, at, c + 1)
  }

  /** `startNote(at)`: the assignment array after a note is started at position `at`. */
  function StartAssign(a: seq<int>, at: nat): seq<int>
    requires at < |a|
  {
    var f := LowestFree(a, at);
    if f >= 0 then a[at := f]
    else match FirstAssignedFrom(a, at, 0)
      case None => a[at := -1]
      case Some(c) => a[c := -1][at := a[c]]
  }

  /** With an output free, the new note takes the lowest one and nothing else changes. */
  lemma StartTakesLowestFree(a: seq<int>, at: nat)
    requires at < |a| && LowestFree(a, at) >= 0
    ensures StartAssign(a, at) == a[at := LowestFree(a, at)]
    ensures LowestFree(a, at) !in a[..at]
    ensures forall k :: 0 <= k < LowestFree(a, at) ==> k in a[..at]
  {
  }

  /**
   * With every output taken, the new note takes the output of the oldest
   * note that has one, and that note is left without.
   */
  lemma StartStealsOldest(a: seq<int>, at: nat)
    requires AssignOk(a, at) && at < |a| && LowestFree(a, at) < 0
    ensures FirstAssignedFrom(a, at, 0).Some?
    ensures var c := FirstAssignedFrom(a, at, 0).value;
      && (forall i :: 0 <= i < c ==> a[i] < 0)
      && StartAssign(a, at) == a[c := -1][at := a[c]]
  {
    assert 0 in a[..at];
    var i :| 0 <= i < at && a[..at][i] == 0;
    assert a[i] >= 0;
  }

  /** A started note always gets an output, and the invariant then covers it too. */
  lemma StartAssignOk(a: seq<int>, at: nat)
    requires AssignOk(a, at) && at < |a|
    ensures var r := StartAssign(a, at);
      && AssignOk(r, at + 1) && |r| == |a|
      && 0 <= r[at] < MIDI_OUTS
  {
    var f := LowestFree(a, at);
    var r := StartAssign(a, at);
    if f < 0 {
      StartStealsOldest(a, at);
      var c := FirstAssignedFrom(a, at, 0).value;
      forall i, j | 0 <= i < j < at + 1 && r[i] >= 0
        ensures r[i] != r[j]
      {
        if j == at {
          AssignDistinct(a, at, i, c);
        }
      }
    } else {
      forall i | 0 <= i < at
        ensures r[i] != f
      {
        assert a[..at][i] == a[i];
      }
    }
  }

  lemma AssignDistinct(a: seq<int>, n: nat, i: nat, j: nat)
    requires AssignOk(a, n) && i < n && j < n && i != j && (a[i] >= 0 || a[j] >= 0)
    ensures a[i] != a[j]
  {
  }

  // ---------------------------------------------------------------------------
  // killNote

  /** The highest position at or below `c` whose note owns no output. */
  function LastUnassigned(a: seq<int>, c: int): (r: Option<nat>)
    requires -1 <= c < |a|
    decreases c + 1
    ensures r.Some? ==> r.value <= c && a[r.value] == -1 && forall i :: r.value < i <= c ==> a[i] != -1
    ensures r.None? ==> forall i :: 0 <= i <= c ==> a[i] != -1
  {
    if c < 0 then None
    else if a[c] == -1 then Some(c)
    else LastUnassigned(a, c - 1)
  }

  /** `killNote(at)` with `dc` notes held: the assignment array after the note at `at` is released. */
  function KillAssign(a: seq<int>, at: nat, dc: nat): seq<int>
    requires at < dc <= |a|
  {
    var reassign := a[at];
    var s := ShiftDown(a, at, dc);
    match LastUnassigned(s, at)
    case None => s
    case Some(c) => s[c := reassign]
  }

  /**
   * Releasing a note keeps the invariant over the notes that remain, and
   * the output it owned goes to the nearest unassigned note at or below it.
   */
  lemma KillAssignOk(a: seq<int>, at: nat, dc: nat)
    requires AssignOk(a, dc) && at < dc
    ensures var r := KillAssign(a, at, dc);
      && AssignOk(r, dc - 1) && |r| == |a|
      && (forall i :: 0 <= i < dc - 1 && r[i] >= 0 ==> r[i] == a[at] || r[i] == ShiftDown(a, at, dc)[i])
  {
    var s := ShiftDown(a, at, dc);
    var r := KillAssign(a, at, dc);
    assert forall i :: 0 <= i < at ==> s[i] == a[i];
    assert forall i :: at <= i < dc - 1 ==> s[i] == a[i + 1];
    forall i, j | 0 <= i < j < dc - 1 && r[i] >= 0
      ensures r[i] != r[j]
    {
      var i' := if i < at then i else i + 1;
      var j' := if j < at then j else j + 1;
      match LastUnassigned(s, at)
      case None =>
        AssignDistinct(a, dc, i', j');
      case Some(c) =>
        if i == c {
          AssignDistinct(a, dc, at, j');
        } else if j == c {
          AssignDistinct(a, dc, i', at);
        } else {
          AssignDistinct(a, dc, i', j');
        }
    }
  }

  // ---------------------------------------------------------------------------
  // Replaying the hooks of the note stack

  function Apply(a: seq<int>, h: Hook): seq<int>
  {
    match h
    case StartNote(at, _) => if at < |a| then StartAssign(a, at) else a
    case KillNote(at, dc) => if at < dc <= |a| then KillAssign(a, at, dc) else a
  }

  /** The assignment array after the hook calls in `hooks`, in order. */
  function Replay(a: seq<int>, hooks: seq<Hook>): seq<int>
  {
    if |hooks| == 0 then a else Apply(Replay(a, hooks[..|hooks| - 1]), hooks[|hooks| - 1])
  }

  lemma ApplyLength(a: seq<int>, h: Hook)
    ensures |Apply(a, h)| == |a|
  {
    match h
    case StartNote(at, _) =>
    case KillNote(at, dc) =>
      if at < dc <= |a| {
        var s := ShiftDown(a, at, dc);
        match LastUnassigned(s, at)
        case None =>
        case Some(c) =>
      }
  }

  /** Releasing a note already held takes the invariant from the old stack to the stack without it. */
  lemma ReplayKillsOk(held: seq<byte>, n: byte, a: seq<int>)
    requires Distinct(held) && |held| <= |a| && AssignOk(a, |held|)
    ensures |Replay(a, KillHooks(held, n))| == |a|
    ensures AssignOk(Replay(a, KillHooks(held, n)), |Without(held, n)|)
  {
    WithoutRemovesNote(held, n);
    var kills := KillHooks(held, n);
    match IndexOf(held, n)
    case None =>
    case Some(k) =>
      assert kills == [KillNote(k, |held|)];
      assert kills[..0] == [];
      KillAssignOk(a, k, |held|);
  }

  /**
   * Every MIDI message keeps the assignment invariant over the held notes:
   * the hooks the note stack calls for it take the array from the old
   * stack height to the new one.
   */
  lemma ReplayKeepsAssignOk(s: StackState, msg: MidiMessage, indeterminate: byte, a: seq<int>)
    requires WellFormed(s) && |a| == MIDI_MAXDOWN && AssignOk(a, |s.held|)
    ensures AssignOk(Replay(a, Hooks(s, msg)), |Step(s, msg, indeterminate).held|)
  {
    var n := msg.GetNote();
    var status := msg.GetStatus();
    ReplayKillsOk(s.held, n, a);
    if status == MidiCodeNoteOn {
      StepNoteOn(s, msg, indeterminate);
      ReplayStartOk(s.held, n, a);
    } else if status == MidiCodeNoteOff {
      StepNoteOff(s, msg, indeterminate);
    }
  }

  lemma ReplayStartOk(held: seq<byte>, n: byte, a: seq<int>)
    requires Distinct(held) && |held| <= MIDI_MAXDOWN && |a| == MIDI_MAXDOWN && AssignOk(a, |held|)
    ensures var rest := Without(held, n);
      var h := KillHooks(held, n) + [StartNote(|Pushed(rest, n)| - 1, n)];
      AssignOk(Replay(a, h), |Pushed(rest, n)|)
  {
    var rest := Without(held, n);
    WithoutRemovesNote(held, n);
    ReplayKillsOk(held, n, a);
    var kills := KillHooks(held, n);
    var afterKill := Replay(a, kills);
    var at := |Pushed(rest, n)| - 1;
    var h := kills + [StartNote(at, n)];
    assert h[..|h| - 1] == kills;
    assert at < |afterKill|;
    assert Replay(a, h) == StartAssign(afterKill, at);
    AssignOkPrefix(afterKill, |rest|, at);
    StartAssignOk(afterKill, at);
  }

  // ---------------------------------------------------------------------------
  // processAudio

  /** The first of the first `n` notes that owns output `v`. */
  function FirstWith(a: seq<int>, n: nat, v: int, d: nat): (r: Option<nat>)
    requires d <= n <= |a|
    decreases n - d
    ensures r.Some? ==> d <= r.value < n && a[r.value] == v && forall i :: d <= i < r.value ==> a[i] != v
    ensures r.None? ==> forall i :: d <= i < n ==> a[i] != v
  {
    if d == n then None
    else if a[d] == v then Some(d)
    else FirstWith(a, n, v, d + 1)
  }

  /**
   * The note output `c` plays: the note that owns it, or else the note
   * chosen for output c-1, starting from `lastMidi`.
   */
  function CvNote(held: seq<byte>, a: seq<int>, lastMidi: byte, c: nat): byte
    requires |held| <= |a|
  {
    OwnedOrPrev(held, a, if c == 0 then lastMidi else CvNote(held, a, lastMidi, c - 1), c)
  }

  /** The note of the first held note that owns output `c`, or `prev` when none does. */
  function OwnedOrPrev(held: seq<byte>, a: seq<int>, prev: byte, c: nat): byte
    requires |held| <= |a|
  {
    match FirstWith(a, |held|, c, 0)
    case None => prev
    case Some(d) => held[d]
  }

  /** The inner scan of the CV loop: the first of the `n` held notes assigned to output `c`. */
  method FindOwner(down: array<byte>, n: nat, assign: array<int>, c: nat, prev: byte) returns (note: byte)
    requires n <= down.Length && n <= assign.Length
    ensures note == OwnedOrPrev(down[..n], assign[..], prev, c)
  {
    note := prev;
    var d := 0;
    while d < n
      invariant 0 <= d <= n
      invariant FirstWith(assign[..], n, c, 0) == FirstWith(assign[..], n, c, d)
    {
      if assign[d] == c {
        return down[d];
      }
      d := d + 1;
    }
  }

  /** Every CV output plays a held note or the last note played. */
  lemma {:induction false} CvNoteIsHeldOrLast(held: seq<byte>, a: seq<int>, lastMidi: byte, c: nat)
    requires |held| <= |a|
    ensures CvNote(held, a, lastMidi, c) in held || CvNote(held, a, lastMidi, c) == lastMidi
  {
    if c > 0 {
      CvNoteIsHeldOrLast(held, a, lastMidi, c - 1);
    }
  }

  /** An output that a held note owns plays that note. */
  lemma AssignedOutputPlaysNote(held: seq<byte>, a: seq<int>, lastMidi: byte, d: nat)
    requires |held| <= |a| && AssignOk(a, |held|) && d < |held| && a[d] >= 0
    ensures CvNote(held, a, lastMidi, a[d]) == held[d]
  {
    match FirstWith(a, |held|, a[d], 0)
    case None =>
    case Some(e) =>
      OwnerUnique(a, |held|, d, e);
  }

  lemma OwnerUnique(a: seq<int>, n: nat, d: nat, e: nat)
    requires AssignOk(a, n) && d < n && e < n && a[d] >= 0 && a[e] == a[d]
    ensures d == e
  {
  }

  /** The CV value for a note: notes A1 (33) to G#6 span 0 to 1 in five octaves. */
  function CvValue(note: byte): real
  {
    (note as int - 33) as real / 60.0
  }

  function OutParam(c: nat): ParameterId
    requires c < MIDI_OUTS
  {
    PatchForSlot.PatchForSlot(PARAM_BASE + 1 + c as bv32)
  }

  /** The parameter calls for the first `n` CV outputs. */
  function CvCalls(held: seq<byte>, a: seq<int>, lastMidi: byte, n: nat): seq<HostCall>
    requires |held| <= |a| && n <= MIDI_OUTS
  {
    if n == 0 then []
    else CvCalls(held, a, lastMidi, n - 1) + [SetParameterValue(OutParam(n - 1), CvValue(CvNote(held, a, lastMidi, n - 1)))]
  }

  /** The trigger level: low with no notes or while a retrigger is due, else high. */
  function TriggerLevel(downCount: nat, needRetrig: byte): real
  {
    if downCount > 0 && needRetrig == 0 then 1.0 else 0.0
  }

  /** The retrigger countdown after one block of `size` samples with notes held. */
  function RetrigAfter(downCount: nat, needRetrig: byte, size: nat): byte
  {
    if downCount > 0 && needRetrig > 0 then (if needRetrig < size then 0 else needRetrig - size)
    else needRetrig
  }

  /** The countdown drops by the block size, never below zero, and only while notes are held. */
  lemma RetrigCountsDown(downCount: nat, needRetrig: byte, size: nat)
    ensures RetrigAfter(downCount, needRetrig, size) <= needRetrig
    ensures downCount > 0 && needRetrig > 0 ==> RetrigAfter(downCount, needRetrig, size) == if needRetrig <= size then 0 else needRetrig - size
    ensures downCount == 0 ==> RetrigAfter(downCount, needRetrig, size) == needRetrig
  {
  }

  function Name(c: nat): string
    requires c < MIDI_OUTS
  {
    "CV" + [Display.CharOf('0' as int + c)] + ">"
  }

  /** The calls the constructor makes: the trigger, then the three CV outputs. */
  function ConstructorCalls(n: nat): seq<HostCall>
    requires n <= MIDI_OUTS
  {
    if n == 0 then [RegisterParameter(PatchForSlot.PatchForSlot(PARAM_BASE), "Trig>"), SetParameterValue(PatchForSlot.PatchForSlot(PARAM_BASE), 0.0)]
    else ConstructorCalls(n - 1) + [RegisterParameter(OutParam(n - 1), Name(n - 1)), SetParameterValue(OutParam(n - 1), 0.5)]
  }

  /** The trigger and the CV outputs are four different parameters: 0, 1, 8 and 9. */
  lemma ParametersDistinct()
    ensures PatchForSlot.PatchForSlot(PARAM_BASE) == 0
    ensures OutParam(0) == 1 && OutParam(1) == 8 && OutParam(2) == 9
  {
  }

  class Midi2CVTripletPatch {
    const base: MidiPatchBase
    const midiAssign: array<int>
    var hostLog: seq<HostCall>

    ghost predicate Valid()
      reads this, base, base.midiDown, midiAssign
    {
      base.Valid() && midiAssign.Length == MIDI_MAXDOWN && AssignOk(midiAssign[..], base.downCount)
    }

    constructor()
      ensures Valid() && fresh(base) && fresh(base.midiDown) && fresh(midiAssign)
      ensures base.State() == StackState([], Display.MIDDLEC_MIDI, false, 0)
      ensures hostLog == ConstructorCalls(MIDI_OUTS)
    {
      base := new MidiPatchBase();
      midiAssign := new int[MIDI_MAXDOWN];
      var param := PatchForSlot.PatchForSlot(PARAM_BASE);
      var log := [RegisterParameter(param, "Trig>"), SetParameterValue(param, 0.0)];
      var c := 0;
      while c < MIDI_OUTS
        invariant 0 <= c <= MIDI_OUTS
        invariant log == ConstructorCalls(c)
      {
        param := PatchForSlot.PatchForSlot(PARAM_BASE + 1 + c as bv32);
        var scratch := "CV" + [Display.CharOf('0' as int + c)] + ">";
        log := log + [RegisterParameter(param, scratch), SetParameterValue(param, 0.5)];
        c := c + 1;
      }
      hostLog := log;
    }

    method StartNote(at: nat, midiNote: byte)
      requires midiAssign.Length == MIDI_MAXDOWN && at < MIDI_MAXDOWN
      modifies midiAssign
      ensures midiAssign[..] == StartAssign(old(midiAssign[..]), at)
    {
      ghost var a := midiAssign[..];
      var safe := -1;
      var check := 0;
      while safe < 0 && check < MIDI_OUTS
        invariant 0 <= check <= MIDI_OUTS
        invariant safe < 0 ==> FreeFrom(a, at, check) == LowestFree(a, at)
        invariant safe >= 0 ==> safe == LowestFree(a, at)
        decreases MIDI_OUTS - check, if safe < 0 then 1 else 0
      {
        safe := check;
        var c := 0;
        while c < at
          invariant 0 <= c <= at
          invariant safe == check
          invariant check !in a[..c]
        {
          if midiAssign[c] == check {
            assert a[..at][c] == check;
            safe := -1;
            check := check + 1;
            break;
          }
          c := c + 1;
        }
        if safe >= 0 {
          assert a[..c] == a[..at];
        }
      }
      if safe < 0 {
        var c := 0;
        while c < at
          invariant 0 <= c <= at
          invariant midiAssign[..] == a
          invariant FirstAssignedFrom(a, at, 0) == FirstAssignedFrom(a, at, c)
        {
          if midiAssign[c] >= 0 {
            safe := midiAssign[c];
            midiAssign[c] := -1;
            break;
          }
          c := c + 1;
        }
      }
      midiAssign[at] := safe;
    }

    method KillNote(at: nat, downCount: nat)
      requires midiAssign.Length == MIDI_MAXDOWN && at < downCount <= MIDI_MAXDOWN
      modifies midiAssign
      ensures midiAssign[..] == KillAssign(old(midiAssign[..]), at, downCount)
    {
      ghost var a := midiAssign[..];
      var reassign := midiAssign[at];
      ShiftSlots(midiAssign, at, downCount);
      ghost var s := midiAssign[..];
      var d: int := at;
      while d >= 0
        invariant -1 <= d <= at
        invariant midiAssign[..] == s
        invariant LastUnassigned(s, at) == LastUnassigned(s, d)
      {
        if midiAssign[d] == -1 {
          midiAssign[d] := reassign;
          break;
        }
        d := d - 1;
      }
    }

    method ProcessMidi(msg: MidiMessage, indeterminate: byte)
      requires Valid()
      modifies base, base.midiDown, midiAssign
      ensures Valid()
      ensures base.State() == Step(old(base.State()), msg, indeterminate)
      ensures midiAssign[..] == Replay(old(midiAssign[..]), Hooks(old(base.State()), msg))
    {
      ghost var s0 := base.State();
      ghost var a0 := midiAssign[..];
      var hooks := base.ProcessMidi(msg, indeterminate);
      ReplayHooks(hooks);
      ReplayKeepsAssignOk(s0, msg, indeterminate, a0);
    }

    /** The hook calls `processMidi` made, run in order on `midiAssign`. */
    method ReplayHooks(hooks: seq<Hook>)
      requires midiAssign.Length == MIDI_MAXDOWN
      modifies midiAssign
      ensures midiAssign[..] == Replay(old(midiAssign[..]), hooks)
    {
      ghost var a0 := midiAssign[..];
      var i := 0;
      while i < |hooks|
        invariant 0 <= i <= |hooks|
        invariant midiAssign[..] == Replay(a0, hooks[..i])
      {
        assert hooks[..i + 1][..i] == hooks[..i];
        match hooks[i] {
          case StartNote(at, note) =>
            if at < MIDI_MAXDOWN {
              StartNote(at, note);
            }
          case KillNote(at, dc) =>
            if at < dc <= MIDI_MAXDOWN {
              KillNote(at, dc);
            }
        }
        i := i + 1;
      }
      assert hooks[..|hooks|] == hooks;
    }

    /** The trigger half of `processAudio`. */
    method SetTrigger(size: nat)
      requires Valid()
      modifies this, base
      ensures Valid()
      ensures base.State() == old(base.State()).(needRetrig := RetrigAfter(base.downCount, old(base.needRetrig), size))
      ensures hostLog == old(hostLog) + [SetParameterValue(PatchForSlot.PatchForSlot(PARAM_BASE), TriggerLevel(base.downCount, old(base.needRetrig)))]
    {
      var param := PatchForSlot.PatchForSlot(PARAM_BASE);
      if base.downCount > 0 {
        if base.needRetrig > 0 {
          base.needRetrig := if base.needRetrig < size then 0 else base.needRetrig - size;
          hostLog := hostLog + [SetParameterValue(param, 0.0)];
        } else {
          hostLog := hostLog + [SetParameterValue(param, 1.0)];
        }
      } else {
        hostLog := hostLog + [SetParameterValue(param, 0.0)];
      }
    }

    /** The CV half of `processAudio`: one parameter per output. */
    method SetCvs()
      requires base.downCount <= base.midiDown.Length && base.downCount <= midiAssign.Length
      modifies this
      ensures hostLog == old(hostLog) + CvCalls(base.midiDown[..base.downCount], midiAssign[..], base.lastMidi, MIDI_OUTS)
    {
      var down, n := base.midiDown, base.downCount;
      ghost var held := down[..n];
      ghost var a := midiAssign[..];
      var assign: byte := base.lastMidi;
      var c := 0;
      while c < MIDI_OUTS
        invariant 0 <= c <= MIDI_OUTS
        invariant hostLog == old(hostLog) + CvCalls(held, a, base.lastMidi, c)
        invariant assign == if c == 0 then base.lastMidi else CvNote(held, a, base.lastMidi, c - 1)
      {
        assign := FindOwner(down, n, midiAssign, c, assign);
        hostLog := hostLog + [SetParameterValue(OutParam(c), CvValue(assign))];
        c := c + 1;
      }
    }

    /**
     * `processAudio`: silences both channels, then drives the trigger and
     * the three CV outputs through their parameters.
     */
    method ProcessAudio(left: array<real>, right: array<real>)
      requires Valid() && left != right
      modifies this, base, left, right
      ensures Valid()
      ensures var size := BlockSize(left, right);
        && Silenced(left[..], old(left[..]), size) && Silenced(right[..], old(right[..]), size)
        && base.State() == old(base.State()).(needRetrig := RetrigAfter(base.downCount, old(base.needRetrig), size))
        && hostLog == old(hostLog) + [SetParameterValue(PatchForSlot.PatchForSlot(PARAM_BASE), TriggerLevel(base.downCount, old(base.needRetrig)))]
                      + CvCalls(base.midiDown[..base.downCount], midiAssign[..], base.lastMidi, MIDI_OUTS)
    {
      var size := BlockSize(left, right);
      Silence(left, size);
      Silence(right, size);
      SetTrigger(size);
      SetCvs();
    }
  }
}
