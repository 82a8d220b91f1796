/**
 * The note stack shared by the MIDI-to-CV patches (support/midiPatchBase.hpp):
 * every note held down, oldest first, with the top of the stack driving the
 * pitch output and a gate that is high while any note is held.
 *
 * The base class calls two virtual hooks, `killNote` and `startNote`, while it
 * updates the stack. Here `ProcessMidi` returns the calls it makes, in order,
 * as a log of `Hook` values; each patch that overrides the hooks replays the
 * log against its own fields.
 */
module NoteStack {
  import opened Bits
  import opened Wrappers
  import opened MidiMessages
  import Display

  const MIDI_MAXDOWN: nat := 31
  const MIDI_RETRIG_LENGTH: byte := 16

  /** One call of a virtual hook: `killNote(at)` or `startNote(at, note)`. */
  datatype Hook =
    | KillNote(at: nat, downCount: nat)  // downCount: the stack height when the hook ran
    | StartNote(at: nat, note: byte)

  /** Everything the base class keeps: the stack of held notes and the outputs it drives. */
  datatype StackState = StackState(held: seq<byte>, lastMidi: byte, isDown: bool, needRetrig: byte)

  predicate Distinct(s: seq<byte>)
  {
    forall i, j :: 0 <= i < j < |s| ==> s[i] != s[j]
  }

  /** The first position of `n` in `s`, if any. */
  function IndexOf(s: seq<byte>, n: byte): (r: Option<nat>)
    ensures r.None? <==> n !in s
    ensures r.Some? ==> r.value < |s| && s[r.value] == n && n !in s[..r.value]
  {
    if |s| == 0 then None
    else if s[0] == n then Some(0)
    else match IndexOf(s[1..], n)
      case None => None
      case Some(k) =>
        assert s[..k + 1] == [s[0]] + s[1..][..k];
        Some(k + 1)
  }

  function RemoveAt(s: seq<byte>, k: nat): (r: seq<byte>)
    requires k < |s|
  {
    s[..k] + s[k + 1..]
  }

  /** The stack with the first occurrence of `n` pulled out. */
  function Without(s: seq<byte>, n: byte): seq<byte>
  {
    match IndexOf(s, n)
    case None => s
    case Some(k) => RemoveAt(s, k)
  }

  /** The stack with `n` appended, the oldest note forgotten when it is full. */
  function Pushed(s: seq<byte>, n: byte): seq<byte>
  {
    (if |s| == MIDI_MAXDOWN then s[1..] else s) + [n]
  }

  /**
   * The value `matchValue` holds after the search loop: the note itself when
   * it was found, else the last entry scanned; on an empty stack the
   * variable is never assigned and holds whatever `indeterminate` is.
   */
  function MatchValue(s: seq<byte>, n: byte, indeterminate: byte): byte
  {
    if n in s then n else if |s| > 0 then s[|s| - 1] else indeterminate
  }

  /** The new state after one MIDI message: the specification of `ProcessMidi`. */
  function Step(s: StackState, msg: MidiMessage, indeterminate: byte): StackState
  {
    var status := msg.GetStatus();
    var n := msg.GetNote();
    if status == MidiCodeNoteOn then
      StackState(Pushed(Without(s.held, n), n), n, true,
                 if s.isDown then MIDI_RETRIG_LENGTH else s.needRetrig)
    else if status == MidiCodeNoteOff then
      var rest := Without(s.held, n);
      var retrig := if MatchValue(s.held, n, indeterminate) == s.lastMidi then MIDI_RETRIG_LENGTH else s.needRetrig;
      if |rest| > 0 then StackState(rest, rest[|rest| - 1], s.isDown, retrig)
      else StackState(rest, s.lastMidi, false, retrig)
    else
      s
  }

  /** The hook calls one MIDI message causes, in order. */
  function Hooks(s: StackState, msg: MidiMessage): seq<Hook>
  {
    var status := msg.GetStatus();
    var n := msg.GetNote();
    if status != MidiCodeNoteOn && status != MidiCodeNoteOff then []
    else
      var kill := KillHooks(s.held, n);
      if status == MidiCodeNoteOn then kill + [StartNote(|Pushed(Without(s.held, n), n)| - 1, n)]
      else kill
  }

  /** The `killNote` call for a note already held, if it is. */
  function KillHooks(held: seq<byte>, n: byte): seq<Hook>
  {
    match IndexOf(held, n)
    case None => []
    case Some(k) => [KillNote(k, |held|)]
  }

  lemma StepNoteOn(s: StackState, msg: MidiMessage, indeterminate: byte)
    requires msg.GetStatus() == MidiCodeNoteOn
    ensures var rest := Without(s.held, msg.GetNote());
      && Step(s, msg, indeterminate) == StackState(Pushed(rest, msg.GetNote()), msg.GetNote(), true,
           if s.isDown then MIDI_RETRIG_LENGTH else s.needRetrig)
      && Hooks(s, msg) == KillHooks(s.held, msg.GetNote()) + [StartNote(|Pushed(rest, msg.GetNote())| - 1, msg.GetNote())]
  {
  }

  lemma StepNoteOff(s: StackState, msg: MidiMessage, indeterminate: byte)
    requires msg.GetStatus() == MidiCodeNoteOff
    ensures var rest := Without(s.held, msg.GetNote());
      var retrig := if MatchValue(s.held, msg.GetNote(), indeterminate) == s.lastMidi then MIDI_RETRIG_LENGTH else s.needRetrig;
      && Step(s, msg, indeterminate) == (if |rest| > 0 then StackState(rest, rest[|rest| - 1], s.isDown, retrig)
                                         else StackState(rest, s.lastMidi, false, retrig))
      && Hooks(s, msg) == KillHooks(s.held, msg.GetNote())
  {
  }

  // ---------------------------------------------------------------------------
  // Properties of the specification

  lemma RemoveAtDistinct(s: seq<byte>, k: nat)
    requires Distinct(s) && k < |s|
    ensures Distinct(RemoveAt(s, k))
    ensures s[k] !in RemoveAt(s, k)
    ensures multiset(RemoveAt(s, k)) == multiset(s) - multiset{s[k]}
  {
    var r := RemoveAt(s, k);
    forall i, j | 0 <= i < j < |r| ensures r[i] != r[j]
    {
      var i' := if i < k then i else i + 1;
      var j' := if j < k then j else j + 1;
      assert r[i] == s[i'] && r[j] == s[j'];
    }
    forall i | 0 <= i < |r| ensures r[i] != s[k]
    {
      var i' := if i < k then i else i + 1;
      assert r[i] == s[i'];
    }
    assert s == s[..k] + [s[k]] + s[k + 1..];
  }

  /** Pulling a note out leaves every other note, in order, and no copy of it. */
  lemma WithoutRemovesNote(s: seq<byte>, n: byte)
    requires Distinct(s)
    ensures Distinct(Without(s, n))
    ensures n !in Without(s, n)
    ensures multiset(Without(s, n)) == multiset(s) - multiset{n}
    ensures n in s ==> |Without(s, n)| == |s| - 1
    ensures n !in s ==> Without(s, n) == s
  {
    match IndexOf(s, n)
    case None =>
      assert multiset(s)[n] == 0;
    case Some(k) =>
      RemoveAtDistinct(s, k);
  }

  lemma PushedDistinct(s: seq<byte>, n: byte)
    requires Distinct(s) && n !in s && |s| <= MIDI_MAXDOWN
    ensures Distinct(Pushed(s, n))
    ensures |Pushed(s, n)| <= MIDI_MAXDOWN
    ensures Pushed(s, n)[|Pushed(s, n)| - 1] == n
  {
    var base := if |s| == MIDI_MAXDOWN then s[1..] else s;
    forall i | 0 <= i < |base| ensures base[i] != n
    {
      assert base[i] == s[if |s| == MIDI_MAXDOWN then i + 1 else i];
    }
  }

  /** The invariant the stack keeps: at most MIDI_MAXDOWN notes, none twice. */
  ghost predicate WellFormed(s: StackState)
  {
    |s.held| <= MIDI_MAXDOWN && Distinct(s.held)
  }

  lemma StepWellFormed(s: StackState, msg: MidiMessage, indeterminate: byte)
    requires WellFormed(s)
    ensures WellFormed(Step(s, msg, indeterminate))
  {
    var n := msg.GetNote();
    WithoutRemovesNote(s.held, n);
    if msg.GetStatus() == MidiCodeNoteOn {
      PushedDistinct(Without(s.held, n), n);
    }
  }

  /**
   * After a note-on the note is on top of the stack exactly once, it drives
   * the pitch, the gate is high, and a retrigger is due exactly when the
   * gate was already high.
   */
  lemma NoteOnPlaysNote(s: StackState, msg: MidiMessage, indeterminate: byte)
    requires WellFormed(s) && msg.GetStatus() == MidiCodeNoteOn
    ensures var t := Step(s, msg, indeterminate);
      && |t.held| > 0 && t.held[|t.held| - 1] == msg.GetNote()
      && multiset(t.held)[msg.GetNote()] == 1
      && t.lastMidi == msg.GetNote() && t.isDown
      && (s.isDown ==> t.needRetrig == MIDI_RETRIG_LENGTH)
      && (!s.isDown ==> t.needRetrig == s.needRetrig)
  {
    var n := msg.GetNote();
    WithoutRemovesNote(s.held, n);
    PushedDistinct(Without(s.held, n), n);
    var t := Step(s, msg, indeterminate);
    DistinctCountsOnce(t.held, |t.held| - 1);
  }

  lemma DistinctCountsOnce(s: seq<byte>, k: nat)
    requires Distinct(s) && k < |s|
    ensures multiset(s)[s[k]] == 1
  {
    RemoveAtDistinct(s, k);
    assert multiset(RemoveAt(s, k))[s[k]] == 0;
  }

  /** A note-on for a note not held, on a full stack, forgets exactly the oldest note. */
  lemma NoteOnOverflow(s: StackState, msg: MidiMessage, indeterminate: byte)
    requires WellFormed(s) && msg.GetStatus() == MidiCodeNoteOn
    requires |s.held| == MIDI_MAXDOWN && msg.GetNote() !in s.held
    ensures Step(s, msg, indeterminate).held == s.held[1..] + [msg.GetNote()]
  {
    WithoutRemovesNote(s.held, msg.GetNote());
  }

  /**
   * After a note-off the note is no longer held, every other held note
   * stays in order, and the pitch falls back to the new top of the stack;
   * the gate drops only when nothing is held.
   */
  lemma NoteOffReleasesNote(s: StackState, msg: MidiMessage, indeterminate: byte)
    requires WellFormed(s) && msg.GetStatus() == MidiCodeNoteOff
    ensures var t := Step(s, msg, indeterminate);
      && msg.GetNote() !in t.held
      && multiset(t.held) == multiset(s.held) - multiset{msg.GetNote()}
      && (|t.held| > 0 ==> t.lastMidi == t.held[|t.held| - 1] && t.isDown == s.isDown)
      && (|t.held| == 0 ==> !t.isDown && t.lastMidi == s.lastMidi)
  {
    WithoutRemovesNote(s.held, msg.GetNote());
  }

  /** Releasing the note that is sounding always asks for a retrigger. */
  lemma NoteOffOfSoundingNoteRetriggers(s: StackState, msg: MidiMessage, indeterminate: byte)
    requires msg.GetStatus() == MidiCodeNoteOff && msg.GetNote() == s.lastMidi
    requires s.lastMidi in s.held
    ensures Step(s, msg, indeterminate).needRetrig == MIDI_RETRIG_LENGTH
  {
  }

  /** Messages other than note-on and note-off change nothing and call no hook. */
  lemma OtherMessagesIgnored(s: StackState, msg: MidiMessage, indeterminate: byte)
    requires msg.GetStatus() != MidiCodeNoteOn && msg.GetStatus() != MidiCodeNoteOff
    ensures Step(s, msg, indeterminate) == s && Hooks(s, msg) == []
  {
  }

  /**
   * A note already held is killed at its old position before anything else
   * happens, and a note-on then starts at the top of the new stack.
   */
  lemma HooksOrder(s: StackState, msg: MidiMessage, indeterminate: byte)
    requires WellFormed(s)
    requires msg.GetStatus() == MidiCodeNoteOn || msg.GetStatus() == MidiCodeNoteOff
    ensures var h := Hooks(s, msg);
      && (msg.GetNote() in s.held <==> |h| > 0 && h[0].KillNote?)
      && (msg.GetNote() in s.held ==> s.held[h[0].at] == msg.GetNote() && h[0].downCount == |s.held|)
      && (msg.GetStatus() == MidiCodeNoteOn ==>
            h[|h| - 1] == StartNote(|Step(s, msg, indeterminate).held| - 1, msg.GetNote()))
  {
  }

  // ---------------------------------------------------------------------------
  // The loops over the stack array, shared by the base class and Midi2CVPatch

  /**
   * The search loop of `processMidi`: whether and where `midiNote` is among
   * the first `count` slots, and the value the loop leaves in `matchValue`.
   */
  method FindNote(midiDown: array<byte>, count: nat, midiNote: byte, indeterminate: byte)
    returns (matched: bool, matchAt: nat, matchValue: byte)
    requires count <= midiDown.Length
    ensures matched <==> midiNote in midiDown[..count]
    ensures matched ==> IndexOf(midiDown[..count], midiNote) == Some(matchAt)
    ensures matchValue == MatchValue(midiDown[..count], midiNote, indeterminate)
  {
    matchAt := 0;
    matchValue := indeterminate;
    matched := false;
    var c := 0;
    while c < count
      invariant 0 <= c <= count
      invariant midiNote !in midiDown[..c]
      invariant matchValue == if c == 0 then indeterminate else midiDown[c - 1]
    {
      matchValue := midiDown[c];
      if matchValue == midiNote {
        matched := true;
        matchAt := c;
        break;
      }
      c := c + 1;
    }
    if matched {
      assert midiDown[..matchAt] == midiDown[..c];
      assert IndexOf(midiDown[..count], midiNote) == Some(matchAt);
    } else {
      assert midiDown[..c] == midiDown[..count];
    }
  }

  /**
   * The loop `for (c = at; c < count - 1; c++) a[c] = a[c + 1]`, which every
   * per-note array runs when a note is released: the entries above `at`,
   * up to `count`, move down one slot, and the rest stay.
   */
  function ShiftDown<T>(a: seq<T>, at: nat, count: nat): (r: seq<T>)
    requires at < count <= |a|
    ensures |r| == |a|
  {
    a[..at] + a[at + 1..count] + a[count - 1..]
  }

  /** Below `count - 1` the shifted array holds the old entries with the one at `at` removed. */
  lemma ShiftDownRemoves(a: seq<byte>, at: nat, count: nat)
    requires at < count <= |a|
    ensures ShiftDown(a, at, count)[..count - 1] == RemoveAt(a[..count], at)
  {
    assert a[..count][..at] == a[..at];
    assert a[..count][at + 1..] == a[at + 1..count];
  }

  method ShiftSlots<T>(a: array<T>, at: nat, count: nat)
    requires at < count <= a.Length
    modifies a
    ensures a[..] == ShiftDown(old(a[..]), at, count)
  {
    ghost var a0 := a[..];
    var c := at;
    while c < count - 1
      invariant at <= c <= count - 1
      invariant forall i :: 0 <= i < at ==> a[i] == a0[i]
      invariant forall i :: at <= i < c ==> a[i] == a0[i + 1]
      invariant forall i :: c <= i < a.Length ==> a[i] == a0[i]
    {
      a[c] := a[c + 1];
      c := c + 1;
    }
    assert a[..] == ShiftDown(a0, at, count);
  }

  /** Closes the gap at `at` in the stack of notes. */
  method CloseGap(midiDown: array<byte>, count: nat, at: nat)
    requires at < count <= midiDown.Length
    modifies midiDown
    ensures midiDown[..count - 1] == RemoveAt(old(midiDown[..count]), at)
  {
    ShiftDownRemoves(midiDown[..], at, count);
    ShiftSlots(midiDown, at, count);
    assert midiDown[..count - 1] == midiDown[..][..count - 1];
  }

  /** Appends a note, first forgetting the oldest one when the stack is full. */
  method PushNote(midiDown: array<byte>, count: nat, midiNote: byte) returns (newCount: nat)
    requires midiDown.Length == MIDI_MAXDOWN && count <= MIDI_MAXDOWN
    modifies midiDown
    ensures 0 < newCount <= MIDI_MAXDOWN
    ensures midiDown[..newCount] == Pushed(old(midiDown[..count]), midiNote)
  {
    ghost var h0 := midiDown[..count];
    var kept := count;
    if count == MIDI_MAXDOWN {
      CloseGap(midiDown, MIDI_MAXDOWN, 0);
      kept := MIDI_MAXDOWN - 1;
      assert RemoveAt(h0, 0) == h0[1..];
    }
    assert midiDown[..kept] == if |h0| == MIDI_MAXDOWN then h0[1..] else h0;
    newCount := AppendNote(midiDown, kept, midiNote);
  }

  method AppendNote(midiDown: array<byte>, count: nat, midiNote: byte) returns (newCount: nat)
    requires count < midiDown.Length
    modifies midiDown
    ensures newCount == count + 1
    ensures midiDown[..newCount] == old(midiDown[..count]) + [midiNote]
  {
    midiDown[count] := midiNote;
    newCount := count + 1;
    assert midiDown[..newCount] == midiDown[..count] + [midiDown[count]];
  }

  // ---------------------------------------------------------------------------
  // The patch base class

  class MidiPatchBase {
    const midiDown: array<byte>  // stack of notes down; only the first downCount count
    var downCount: nat
    var lastMidi: byte           // note currently driving the pitch output
    var isDown: bool             // gate high
    var needRetrig: byte         // frames of gate feathering still due

    ghost predicate Valid()
      reads this, midiDown
    {
      midiDown.Length == MIDI_MAXDOWN && downCount <= MIDI_MAXDOWN && WellFormed(State())
    }

    function State(): StackState
      reads this, midiDown
      requires downCount <= midiDown.Length
    {
      StackState(midiDown[..downCount], lastMidi, isDown, needRetrig)
    }

    constructor()
      ensures Valid() && fresh(midiDown)
      ensures State() == StackState([], Display.MIDDLEC_MIDI, false, 0)
    {
      midiDown := new byte[MIDI_MAXDOWN];
      downCount := 0;
      lastMidi := Display.MIDDLEC_MIDI;
      needRetrig := 0;
      isDown := false;
    }

    /** The search loop of `processMidi`: any copy of the note is pulled out of the stack. */
    method PullOut(midiNote: byte, indeterminate: byte) returns (hooks: seq<Hook>, matchValue: byte)
      requires midiDown.Length == MIDI_MAXDOWN && downCount <= MIDI_MAXDOWN
      modifies this, midiDown
      ensures downCount <= old(downCount)
      ensures midiDown[..downCount] == Without(old(midiDown[..downCount]), midiNote)
      ensures hooks == KillHooks(old(midiDown[..downCount]), midiNote)
      ensures matchValue == MatchValue(old(midiDown[..downCount]), midiNote, indeterminate)
      ensures lastMidi == old(lastMidi) && isDown == old(isDown) && needRetrig == old(needRetrig)
    {
      ghost var held := midiDown[..downCount];
      var matched, matchAt;
      matched, matchAt, matchValue := FindNote(midiDown, downCount, midiNote, indeterminate);
      if matched {
        hooks := [KillNote(matchAt, downCount)];
        CloseGap(midiDown, downCount, matchAt);
        downCount := downCount - 1;
      } else {
        hooks := [];
      }
      assert midiDown[..downCount] == Without(held, midiNote);
    }

    /** `processMidi` for a note-on: pull out any earlier copy, then push the note. */
    method NoteOn(midiNote: byte) returns (hooks: seq<Hook>)
      requires Valid()
      modifies this, midiDown
      ensures Valid()
      ensures var rest := Without(old(State()).held, midiNote);
        State() == StackState(Pushed(rest, midiNote), midiNote, true,
                              if old(isDown) then MIDI_RETRIG_LENGTH else old(needRetrig))
      ensures hooks == KillHooks(old(State()).held, midiNote)
                       + [StartNote(|Pushed(Without(old(State()).held, midiNote), midiNote)| - 1, midiNote)]
    {
      ghost var held := State().held;
      WithoutRemovesNote(held, midiNote);
      PushedDistinct(Without(held, midiNote), midiNote);
      var kill, matchValue := PullOut(midiNote, 0);
      NoteOnTail(midiNote);
      hooks := kill + [StartNote(downCount - 1, midiNote)];
    }

    /** `processMidi` for a note-off: pull out the note, then settle pitch, gate and retrigger. */
    method NoteOff(midiNote: byte, indeterminate: byte) returns (hooks: seq<Hook>)
      requires Valid()
      modifies this, midiDown
      ensures Valid()
      ensures var rest := Without(old(State()).held, midiNote);
        var retrig := if MatchValue(old(State()).held, midiNote, indeterminate) == old(lastMidi)
                      then MIDI_RETRIG_LENGTH else old(needRetrig);
        State() == if |rest| > 0 then StackState(rest, rest[|rest| - 1], old(isDown), retrig)
                   else StackState(rest, old(lastMidi), false, retrig)
      ensures hooks == KillHooks(old(State()).held, midiNote)
    {
      ghost var held := State().held;
      WithoutRemovesNote(held, midiNote);
      var matchValue;
      hooks, matchValue := PullOut(midiNote, indeterminate);
      NoteOffTail(matchValue);
    }

    /** The note-on half of `processMidi`, after any earlier copy of the note is pulled out. */
    method NoteOnTail(midiNote: byte)
      requires midiDown.Length == MIDI_MAXDOWN && downCount <= MIDI_MAXDOWN
      modifies this, midiDown
      ensures 0 < downCount <= MIDI_MAXDOWN
      ensures midiDown[..downCount] == Pushed(old(midiDown[..downCount]), midiNote)
      ensures lastMidi == midiNote && isDown
      ensures needRetrig == if old(isDown) then MIDI_RETRIG_LENGTH else old(needRetrig)
    {
      lastMidi := midiNote;
      downCount := PushNote(midiDown, downCount, midiNote);
      if isDown {
        needRetrig := MIDI_RETRIG_LENGTH;
      }
      isDown := true;
    }

    /** The note-off half of `processMidi`, after the note is pulled out. */
    method NoteOffTail(matchValue: byte)
      requires downCount <= midiDown.Length
      modifies this
      ensures downCount == old(downCount)
      ensures needRetrig == if matchValue == old(lastMidi) then MIDI_RETRIG_LENGTH else old(needRetrig)
      ensures downCount > 0 ==> lastMidi == midiDown[downCount - 1] && isDown == old(isDown)
      ensures downCount == 0 ==> lastMidi == old(lastMidi) && !isDown
    {
      if matchValue == lastMidi {
        needRetrig := MIDI_RETRIG_LENGTH;
      }
      if downCount > 0 {
        lastMidi := midiDown[downCount - 1];
      } else {
        isDown := false;
      }
    }

    /**
     * `processMidi`: services the note stack and returns the hook calls it
     * makes. `indeterminate` is the value the uninitialised `matchValue`
     * holds when a note-off arrives on an empty stack.
     */
    method ProcessMidi(msg: MidiMessage, indeterminate: byte) returns (hooks: seq<Hook>)
      requires Valid()
      modifies this, midiDown
      ensures Valid()
      ensures State() == Step(old(State()), msg, indeterminate)
      ensures hooks == Hooks(old(State()), msg)
    {
      ghost var s0 := State();
      var status := msg.GetStatus();
      if status != MidiCodeNoteOn && status != MidiCodeNoteOff {
        return [];
      }
      var midiNote := msg.GetNote();
      if status == MidiCodeNoteOn {
        hooks := NoteOn(midiNote);
        StepNoteOn(s0, msg, indeterminate);
      } else {
        hooks := NoteOff(midiNote, indeterminate);
        StepNoteOff(s0, msg, indeterminate);
      }
    }
  }
}
