/**
 * The four-byte MIDI event used by every patch, as the simulator header
 * defines it (a copy of the OWL program's `MidiMessage`).
 *
 * Byte 0 is the USB-MIDI event packet header (cable number in the high
 * nibble, code index number in the low nibble, section 4 of the USB Device
 * Class Definition for MIDI Devices 1.0); bytes 1..3 are the MIDI 1.0
 * message: status|channel, then two 7-bit data bytes.
 */
module MidiMessages {
  import opened Bits

  // MIDI 1.0 status nibbles (MidiStatus in the simulator header).
  const NOTE_OFF: byte := 0x80
  const NOTE_ON: byte := 0x90
  const POLY_KEY_PRESSURE: byte := 0xA0
  const CONTROL_CHANGE: byte := 0xB0
  const PROGRAM_CHANGE: byte := 0xC0
  const CHANNEL_PRESSURE: byte := 0xD0
  const PITCH_BEND_CHANGE: byte := 0xE0

  // USB-MIDI code index numbers (UsbMidi in the simulator header).
  const USB_COMMAND_NOTE_OFF: byte := 0x08
  const USB_COMMAND_NOTE_ON: byte := 0x09
  const USB_COMMAND_CONTROL_CHANGE: byte := 0x0B
  const USB_COMMAND_PROGRAM_CHANGE: byte := 0x0C
  const USB_COMMAND_CHANNEL_PRESSURE: byte := 0x0D
  const USB_COMMAND_PITCH_BEND_CHANGE: byte := 0x0E

  // The two note statuses as support/midi.h names them for the note-stack patches.
  const MidiCodeNoteOff: byte := 0x80
  const MidiCodeNoteOn: byte := 0x90

  /** Centre value of the 14-bit pitch-bend field. */
  const PITCH_BEND_CENTRE: int := 8192

  /** The `data[4]` view of the message; `packed` is the same four bytes. */
  datatype MidiMessage = MidiMessage(d0: byte, d1: byte, d2: byte, d3: byte)
  {
    /** `(data[0] & 0xf0) >> 4` */
    function GetPort(): (r: byte)
      ensures r < 16 && 16 * r <= d0 < 16 * r + 16
    {
      d0 / 16
    }

    /** `data[1] & MIDI_CHANNEL_MASK` */
    function GetChannel(): (r: byte)
      ensures r < 16 && (d1 - r) % 16 == 0
    {
      d1 % 16
    }

    /** `data[1] & MIDI_STATUS_MASK`: the status byte with the channel cleared. */
    function GetStatus(): (r: byte)
      ensures r % 16 == 0 && r <= d1 < r + 16
    {
      d1 - d1 % 16
    }

    function GetNote(): byte { d2 }
    function GetVelocity(): byte { d3 }
    function GetControllerNumber(): byte { d2 }
    function GetControllerValue(): byte { d3 }
    function GetChannelPressure(): byte { d2 }

    /** As written: returns `data[1]`, the status byte, not the program number. */
    function GetProgramChange(): byte { d1 }

    /** The program number as `pc` stores it, in `data[2]`. */
    function GetProgramNumber(): byte { d2 }

    /** `(data[2] | (data[3] << 7)) - 8192`; the operands of `|` can overlap in bit 7. */
    function GetPitchBend(): (r: int)
      ensures -PITCH_BEND_CENTRE <= r
    {
      BitOr(d2, d3 * 128) - PITCH_BEND_CENTRE
    }

    predicate IsNoteOn() { GetStatus() == NOTE_ON && GetVelocity() != 0 }
    predicate IsNoteOff() { GetStatus() == NOTE_OFF || (GetStatus() == NOTE_ON && GetVelocity() == 0) }
    predicate IsControlChange() { GetStatus() == CONTROL_CHANGE }
    predicate IsProgramChange() { GetStatus() == PROGRAM_CHANGE }
    predicate IsChannelPressure() { GetStatus() == CHANNEL_PRESSURE }
    predicate IsPitchBend() { GetStatus() == PITCH_BEND_CHANGE }
  }

  /** `MidiMessage()`: packed = 0. */
  function Empty(): MidiMessage { MidiMessage(0, 0, 0, 0) }

  /** `MidiMessage(uint32_t msg)` on a little-endian target: data[0] is the low byte. */
  function FromPacked(packed: uint32): MidiMessage
  {
    MidiMessage(packed % 0x100, (packed / 0x100) % 0x100, (packed / 0x1_0000) % 0x100, packed / 0x100_0000)
  }

  /** The `packed` member of the union, little-endian. */
  function Packed(m: MidiMessage): uint32
  {
    m.d0 + 0x100 * m.d1 + 0x1_0000 * m.d2 + 0x100_0000 * m.d3
  }

  /** The union's two views agree: bytes to word and back. */
  lemma PackedRoundTrip(m: MidiMessage)
    ensures FromPacked(Packed(m)) == m
  {
    PackedLowBytes(m);
    PackedHighBytes(m);
  }

  lemma PackedLowBytes(m: MidiMessage)
    ensures Packed(m) % 0x100 == m.d0 && (Packed(m) / 0x100) % 0x100 == m.d1
  {
    var hi3 := m.d1 + 0x100 * m.d2 + 0x1_0000 * m.d3;
    var hi2 := m.d2 + 0x100 * m.d3;
    assert Packed(m) == hi3 * 0x100 + m.d0;
    DivModUnique(0x100, hi3, m.d0);
    assert hi3 == hi2 * 0x100 + m.d1;
    DivModUnique(0x100, hi2, m.d1);
  }

  lemma PackedHighBytes(m: MidiMessage)
    ensures (Packed(m) / 0x1_0000) % 0x100 == m.d2 && Packed(m) / 0x100_0000 == m.d3
  {
    var hi2 := m.d2 + 0x100 * m.d3;
    assert Packed(m) == hi2 * 0x1_0000 + (m.d0 + 0x100 * m.d1);
    DivModUnique(0x1_0000, hi2, m.d0 + 0x100 * m.d1);
    assert hi2 == m.d3 * 0x100 + m.d2;
    DivModUnique(0x100, m.d3, m.d2);
    assert Packed(m) == m.d3 * 0x100_0000 + (m.d0 + 0x100 * m.d1 + 0x1_0000 * m.d2);
    DivModUnique(0x100_0000, m.d3, m.d0 + 0x100 * m.d1 + 0x1_0000 * m.d2);
  }

  /** The union's two views agree: word to bytes and back. */
  lemma UnpackedRoundTrip(packed: uint32)
    ensures Packed(FromPacked(packed)) == packed
  {
    var q1 := packed / 0x100;
    var q2 := q1 / 0x100;
    var q3 := q2 / 0x100;
    var r0, r1, r2 := packed % 0x100, q1 % 0x100, q2 % 0x100;
    assert packed == q2 * 0x1_0000 + (r1 * 0x100 + r0);
    DivModUnique(0x1_0000, q2, r1 * 0x100 + r0);
    assert packed == q3 * 0x100_0000 + (r2 * 0x1_0000 + r1 * 0x100 + r0);
    DivModUnique(0x100_0000, q3, r2 * 0x1_0000 + r1 * 0x100 + r0);
  }

  lemma DivModUnique(n: int, q: int, r: int)
    requires n > 0 && 0 <= r < n
    ensures (q * n + r) / n == q && (q * n + r) % n == r
  {
    var x := q * n + r;
    var d := x / n - q;
    assert d * n == r - x % n;
    assert -n < d * n < n;
    assert d >= 1 ==> d * n >= n;
    assert d <= -1 ==> d * n <= -n;
  }

  /** `(x & 0xf) | status`, where `status` has a zero low nibble. */
  function WithChannel(status: byte, ch: byte): (r: byte)
    requires status % 16 == 0
  {
    status + ch % 16
  }

  /** `MidiMessage::cc(ch, cc, value)` */
  function Cc(ch: byte, cc: byte, value: byte): (m: MidiMessage)
    ensures m.d0 == USB_COMMAND_CONTROL_CHANGE
    ensures m.IsControlChange() && m.GetChannel() == ch % 16
    ensures m.GetControllerNumber() == cc % 128 && m.GetControllerValue() == value % 128
  {
    MidiMessage(USB_COMMAND_CONTROL_CHANGE, WithChannel(CONTROL_CHANGE, ch), cc % 128, value % 128)
  }

  /** `MidiMessage::pc(ch, pc)` */
  function Pc(ch: byte, pc: byte): (m: MidiMessage)
    ensures m.d0 == USB_COMMAND_PROGRAM_CHANGE && m.d2 == pc % 128 && m.d3 == 0
    ensures m.IsProgramChange() && m.GetChannel() == ch % 16
  {
    MidiMessage(USB_COMMAND_PROGRAM_CHANGE, WithChannel(PROGRAM_CHANGE, ch), pc % 128, 0)
  }

  /** `MidiMessage::cp(ch, value)` */
  function Cp(ch: byte, value: byte): (m: MidiMessage)
    ensures m.d0 == USB_COMMAND_CHANNEL_PRESSURE && m.d3 == 0
    ensures m.IsChannelPressure() && m.GetChannel() == ch % 16
    ensures m.GetChannelPressure() == value % 128
  {
    MidiMessage(USB_COMMAND_CHANNEL_PRESSURE, WithChannel(CHANNEL_PRESSURE, ch), value % 128, 0)
  }

  /** An `int16_t` holds the two's-complement value of x taken modulo 2^16. */
  function WrapInt16(x: int): (r: int)
    ensures -0x8000 <= r < 0x8000 && (x - r) % 0x1_0000 == 0
  {
    (x + 0x8000) % 0x1_0000 - 0x8000
  }

  predicate IsInt16(x: int) { -0x8000 <= x < 0x8000 }

  /**
   * `MidiMessage::pb(ch, bend)`: `bend += 8192` is stored back into the
   * int16_t, then `bend & 0x7f` and `(bend >> 7) & 0x7f`, where `>>` on a
   * negative value is an arithmetic shift (floor division).
   */
  function Pb(ch: byte, bend: int): (m: MidiMessage)
    requires IsInt16(bend)
    ensures m.d0 == USB_COMMAND_PITCH_BEND_CHANGE && m.IsPitchBend() && m.GetChannel() == ch % 16
    ensures m.d2 < 128 && m.d3 < 128
  {
    var b := WrapInt16(bend + PITCH_BEND_CENTRE);
    MidiMessage(USB_COMMAND_PITCH_BEND_CHANGE, WithChannel(PITCH_BEND_CHANGE, ch), b % 128, (b / 128) % 128)
  }

  /** `MidiMessage::note(ch, note, velocity)`: velocity 0 builds a NOTE_OFF. */
  function Note(ch: byte, note: byte, velocity: byte): (m: MidiMessage)
    ensures m.GetChannel() == ch % 16 && m.GetNote() == note % 128 && m.GetVelocity() == velocity % 128
    ensures velocity == 0 ==> m.d0 == USB_COMMAND_NOTE_OFF && m.GetStatus() == NOTE_OFF
    ensures velocity != 0 ==> m.d0 == USB_COMMAND_NOTE_ON && m.GetStatus() == NOTE_ON
  {
    if velocity == 0 then
      MidiMessage(USB_COMMAND_NOTE_OFF, WithChannel(NOTE_OFF, ch), note % 128, velocity % 128)
    else
      MidiMessage(USB_COMMAND_NOTE_ON, WithChannel(NOTE_ON, ch), note % 128, velocity % 128)
  }

  /** With 7-bit data bytes the pitch bend is LSB first: data[2] + 128 * data[3], re-centred. */
  lemma PitchBendDecode(m: MidiMessage)
    requires m.d2 < 128
    ensures m.GetPitchBend() == m.d2 + 128 * m.d3 - PITCH_BEND_CENTRE
  {
    BitOrDisjoint(m.d2, m.d3, 7);
  }

  /** Pitch bend round trip: every value of the 14-bit range survives encoding. */
  lemma PitchBendRoundTrip(ch: byte, bend: int)
    requires -PITCH_BEND_CENTRE <= bend < PITCH_BEND_CENTRE
    ensures Pb(ch, bend).GetPitchBend() == bend
  {
    PitchBendDecode(Pb(ch, bend));
  }

  /**
   * Out of range, `pb` keeps only the low 14 bits of `bend + 8192`: the
   * decoded value is `bend` folded into [-8192, 8192).
   */
  lemma PitchBendWraps(ch: byte, bend: int)
    requires IsInt16(bend)
    ensures Pb(ch, bend).GetPitchBend() == (bend + PITCH_BEND_CENTRE) % 0x4000 - PITCH_BEND_CENTRE
  {
    PitchBendDecode(Pb(ch, bend));
    var b := WrapInt16(bend + PITCH_BEND_CENTRE);
    FourteenBits(b);
    SameLowBits(bend + PITCH_BEND_CENTRE, b);
  }

  /** Two 7-bit fields, low first, are the low 14 bits. */
  lemma FourteenBits(b: int)
    ensures b % 128 + 128 * ((b / 128) % 128) == b % 0x4000
  {
    var q := b / 128;
    var t := 128 * (q % 128) + b % 128;
    assert b == 0x4000 * (q / 128) + t;
    ModOf(b, q / 128, t);
  }

  /** Values that agree modulo 2^16 agree in their low 14 bits. */
  lemma SameLowBits(x: int, b: int)
    requires (x - b) % 0x1_0000 == 0
    ensures x % 0x4000 == b % 0x4000
  {
    var k := (x - b) / 0x1_0000;
    assert x == 0x4000 * (4 * k + b / 0x4000) + b % 0x4000;
    ModOf(x, 4 * k + b / 0x4000, b % 0x4000);
  }

  lemma ModOf(b: int, k: int, t: int)
    requires b == 0x4000 * k + t && 0 <= t < 0x4000
    ensures b % 0x4000 == t
  {
  }

  /**
   * `getProgramChange` does not read back what `pc` wrote: for program 5 on
   * channel 0 it gives 0xC0, the status byte.
   */
  lemma ProgramChangeReadsStatus()
    ensures Pc(0, 5).GetProgramChange() == PROGRAM_CHANGE
    ensures Pc(0, 5).GetProgramChange() != 5
  {
  }

  /** Reading `data[2]` recovers every 7-bit program number. */
  lemma ProgramNumberRoundTrip(ch: byte, program: byte)
    ensures Pc(ch, program).GetProgramNumber() == program % 128
    ensures program < 128 ==> Pc(ch, program).GetProgramNumber() == program
  {
  }

  /** A note with nonzero velocity reads back as a note-on, velocity zero as a note-off. */
  lemma NoteClassification(ch: byte, note: byte, velocity: byte)
    ensures Note(ch, note, velocity).IsNoteOn() <==> velocity % 128 != 0
    ensures Note(ch, note, velocity).IsNoteOff() <==> velocity % 128 == 0
  {
  }
}
