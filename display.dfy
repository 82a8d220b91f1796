/**
 * Character helpers for the screen (support/display.h) and the note-name
 * table they index (support/noteNames.h).  C `char` arithmetic is modelled
 * on character codes; a code above 255 would be truncated to 8 bits, which
 * `CharOf` writes out.
 */
module Display {
  import opened Bits

  const MIDDLEC_MIDI: byte := 60
  const MIDDLEC_OCTAVE: int := 4
  const OCTAVELEN: int := 12

  /** `noteNames[OCTAVELEN]` */
  const NoteNames: seq<string> := ["C", "C#", "D", "D#", "E", "F", "F#", "G", "G#", "A", "A#", "B"]

  const HexDigits: string := "0123456789ABCDEF"

  /** The `char` whose code is `code` truncated to 8 bits. */
  function CharOf(code: int): char
  {
    (code % 0x100) as char
  }

  /** `'0' + v` */
  function DigitChar(v: byte): (r: char)
    ensures v < 10 ==> '0' <= r <= '9' && r as int - '0' as int == v
  {
    CharOf('0' as int + v)
  }

  /** `v %= 16; v < 10 ? '0' + v : 'A' - 10 + v` */
  function HexChar(v: byte): (r: char)
    ensures r == HexDigits[v % 16]
    ensures r in HexDigits
  {
    var low := v % 16;
    if low < 10 then CharOf('0' as int + low) else CharOf('A' as int - 10 + low)
  }

  /** The value of a hexadecimal digit as `HexChar` writes it. */
  function HexValue(c: char): (r: int)
    requires c in HexDigits
    ensures 0 <= r < 16 && HexDigits[r] == c
  {
    if '0' <= c <= '9' then c as int - '0' as int else c as int - 'A' as int + 10
  }

  /** The octave character of a MIDI note: '-' below note 12, else `digitChar(note / 12)`. */
  function OctaveChar(note: byte): (r: char)
    ensures note < 12 <==> r == '-'
    ensures 12 <= note ==> r as int == '0' as int + note / 12
  {
    var octave := note / 12;
    if octave == 0 then '-' else DigitChar(octave)
  }

  /** `printNote`: the note name, then the octave character. */
  function PrintNote(note: byte): string
  {
    NoteNames[note % OCTAVELEN] + [OctaveChar(note)]
  }

  /** HexChar and HexValue are inverse on the low nibble. */
  lemma HexRoundTrip(v: byte)
    ensures HexValue(HexChar(v)) == v % 16
  {
    var r := HexValue(HexChar(v));
    assert HexDigits[r] == HexDigits[v % 16];
    HexDigitsDistinct(r, v % 16);
  }

  lemma HexDigitsDistinct(i: int, j: int)
    requires 0 <= i < 16 && 0 <= j < 16 && HexDigits[i] == HexDigits[j]
    ensures i == j
  {
  }

  /** `hexChar(v)` depends only on v mod 16. */
  lemma HexCharLowNibble(v: byte, w: byte)
    requires v % 16 == w % 16
    ensures HexChar(v) == HexChar(w)
  {
  }

  /** A printed note is its name (one or two characters) followed by the octave character. */
  lemma PrintNoteShape(note: byte)
    ensures 2 <= |PrintNote(note)| <= 3
    ensures PrintNote(note)[|PrintNote(note)| - 1] == OctaveChar(note)
    ensures PrintNote(note)[0] in "CDEFGAB"
    ensures PrintNote(note)[..|PrintNote(note)| - 1] in NoteNames
  {
    assert PrintNote(note)[..|PrintNote(note)| - 1] == NoteNames[note % OCTAVELEN];
  }

  /**
   * As written, `octaveChar` counts octaves from 0 at note 0 although its
   * '-' branch stands for octave -1: middle C prints as '5', while the
   * header names MIDDLEC_OCTAVE 4.
   */
  lemma OctaveCharMiddleC()
    ensures OctaveChar(MIDDLEC_MIDI) == '5'
    ensures OctaveChar(MIDDLEC_MIDI) as int != '0' as int + MIDDLEC_OCTAVE
  {
  }

  /**
   * The octave character with octave -1 at notes 0..11, so that middle C is
   * octave 4: what `digitChar` of the note-stack base computes, and what
   * `octaveChar` evidently intends.
   */
  function OctaveDigit(note: byte): (r: char)
    ensures note < 12 <==> r == '-'
    ensures 12 <= note ==> r as int == '0' as int + note / 12 - 1
  {
    var octave := note / 12;
    if octave == 0 then '-' else CharOf('0' as int - 1 + octave)
  }

  /** The octave digit agrees with MIDDLEC_OCTAVE in every octave. */
  lemma OctaveDigitMiddleC(k: int)
    requires 0 <= k <= 9
    ensures OctaveDigit(MIDDLEC_MIDI + 12 * (k - MIDDLEC_OCTAVE)) as int == '0' as int + k
  {
  }
}
