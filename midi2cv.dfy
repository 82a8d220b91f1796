/**
 * Midi2CVPatch.hpp: the older, hook-less copy of the note stack. It keeps the
 * same stack of held notes as the base class, but its retrigger flag is a
 * plain boolean and every note-off raises it.
 */
module Midi2CV {
  import opened Bits
  import opened MidiMessages
  import opened NoteStack
  import Display

  datatype CvState = CvState(held: seq<byte>, lastMidi: byte, isDown: bool, needRetrig: bool)

  /** The new state after one MIDI message: the specification of `ProcessMidi`. */
  function CvStep(s: CvState, msg: MidiMessage): CvState
  {
    var status := msg.GetStatus();
    var n := msg.GetNote();
    if status == MidiCodeNoteOn then
      CvState(Pushed(Without(s.held, n), n), n, true, s.isDown || s.needRetrig)
    else if status == MidiCodeNoteOff then
      var rest := Without(s.held, n);
      if |rest| > 0 then CvState(rest, rest[|rest| - 1], s.isDown, true)
      else CvState(rest, s.lastMidi, false, true)
    else
      s
  }

  lemma CvStepWellFormed(s: CvState, msg: MidiMessage)
    requires |s.held| <= MIDI_MAXDOWN && Distinct(s.held)
    ensures var t := CvStep(s, msg); |t.held| <= MIDI_MAXDOWN && Distinct(t.held)
  {
    var n := msg.GetNote();
    WithoutRemovesNote(s.held, n);
    if msg.GetStatus() == MidiCodeNoteOn {
      PushedDistinct(Without(s.held, n), n);
    }
  }

  /**
   * The held notes, the pitch and the gate evolve exactly as in the base
   * class; only the retrigger differs.
   */
  lemma AgreesWithBase(s: StackState, retrig: bool, msg: MidiMessage, indeterminate: byte)
    ensures var t := CvStep(CvState(s.held, s.lastMidi, s.isDown, retrig), msg);
      var u := Step(s, msg, indeterminate);
      t.held == u.held && t.lastMidi == u.lastMidi && t.isDown == u.isDown
  {
  }

  /**
   * Every note-off raises the retrigger, even for a held note that is not
   * the one sounding; the base class raises it only when it should.
   */
  lemma NoteOffAlwaysRetriggers(s: CvState, msg: MidiMessage)
    requires msg.GetStatus() == MidiCodeNoteOff
    ensures CvStep(s, msg).needRetrig
  {
  }

  /** After a note-on the note is on top, the gate is high, and a retrigger is raised only if the gate was high. */
  lemma CvNoteOnPlaysNote(s: CvState, msg: MidiMessage)
    requires |s.held| <= MIDI_MAXDOWN && Distinct(s.held)
    requires msg.GetStatus() == MidiCodeNoteOn && !s.needRetrig
    ensures var t := CvStep(s, msg);
      && |t.held| > 0 && t.held[|t.held| - 1] == msg.GetNote()
      && t.lastMidi == msg.GetNote() && t.isDown
      && (t.needRetrig <==> s.isDown)
  {
    var n := msg.GetNote();
    WithoutRemovesNote(s.held, n);
    PushedDistinct(Without(s.held, n), n);
  }

  /**
   * `digitChar` as written: it tests the note, not the octave, for zero, so
   * notes 1 to 11 print '/' (one below '0') instead of '-'.
   */
  function DigitChar(note: byte): (r: char)
    ensures note == 0 <==> r == '-'
    ensures note != 0 ==> r as int == '0' as int - 1 + note / 12
  {
    var octave := note / 12;
    if note == 0 then '-' else Display.CharOf('0' as int - 1 + octave)
  }

  /** The input that shows the slip: note 5 prints '/', where the octave digit is '-'. */
  lemma DigitCharLowOctave()
    ensures DigitChar(5) == '/'
    ensures Display.OctaveDigit(5) == '-'
  {
  }

  /** Outside the lowest octave the patch's character and the octave digit agree. */
  lemma DigitCharAgreesAboveLowestOctave(note: byte)
    requires note >= 12
    ensures DigitChar(note) == Display.OctaveDigit(note)
  {
  }

  class Midi2CVPatch {
    const midiDown: array<byte>
    var downCount: nat
    var lastMidi: byte
    var isDown: bool
    var needRetrig: bool

    ghost predicate Valid()
      reads this, midiDown
    {
      midiDown.Length == MIDI_MAXDOWN && downCount <= MIDI_MAXDOWN && Distinct(midiDown[..downCount])
    }

    function State(): CvState
      reads this, midiDown
      requires downCount <= midiDown.Length
    {
      CvState(midiDown[..downCount], lastMidi, isDown, needRetrig)
    }

    constructor()
      ensures Valid() && fresh(midiDown)
      ensures State() == CvState([], Display.MIDDLEC_MIDI, false, false)
    {
      midiDown := new byte[MIDI_MAXDOWN];
      downCount := 0;
      lastMidi := Display.MIDDLEC_MIDI;
      isDown := false;
      needRetrig := false;
    }

    /** The search loop of `processMidi`: any copy of the note is pulled out of the stack. */
    method PullOut(midiNote: byte)
      requires midiDown.Length == MIDI_MAXDOWN && downCount <= MIDI_MAXDOWN
      modifies this, midiDown
      ensures downCount <= old(downCount)
      ensures midiDown[..downCount] == Without(old(midiDown[..downCount]), midiNote)
      ensures lastMidi == old(lastMidi) && isDown == old(isDown) && needRetrig == old(needRetrig)
    {
      ghost var held := midiDown[..downCount];
      var matched, matchAt, _ := FindNote(midiDown, downCount, midiNote, 0);
      if matched {
        CloseGap(midiDown, downCount, matchAt);
        downCount := downCount - 1;
      }
      assert midiDown[..downCount] == Without(held, midiNote);
    }

    method ProcessMidi(msg: MidiMessage)
      requires Valid()
      modifies this, midiDown
      ensures Valid()
      ensures State() == CvStep(old(State()), msg)
    {
      ghost var s0 := State();
      var status := msg.GetStatus();
      if status != MidiCodeNoteOn && status != MidiCodeNoteOff {
        return;
      }
      var midiNote := msg.GetNote();
      CvStepWellFormed(s0, msg);

      PullOut(midiNote);

      if status == MidiCodeNoteOn {
        lastMidi := midiNote;
        downCount := PushNote(midiDown, downCount, midiNote);
        if isDown {
          needRetrig := true;
        }
        isDown := true;
      } else {
        needRetrig := true;
        if downCount > 0 {
          lastMidi := midiDown[downCount - 1];
        } else {
          isDown := false;
        }
      }
    }
  }
}
