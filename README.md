# MagusPatches in Dafny

A model of the patches that Andi McClure wrote for the Rebel Technology
Magus (OWL firmware), together with the parts of the MagusSim desktop
simulator that those patches lean on. The model covers the integer and
table logic that runs in a patch's MIDI and audio callbacks. It does not
cover the floating-point sound synthesis.

- **Note stack** (`support/midiPatchBase.hpp`, and the older hook-less copy
  in `Midi2CVPatch.hpp`). A bounded in-place stack of held MIDI notes, with
  gate and retrigger flags. The base class calls the `startNote` and
  `killNote` hooks. In the model it returns the ordered log of those calls,
  and each subclass replays the log with its own hook methods.
- **Hook subclasses.**
  - `Midi2CVTripletPatch.hpp`: assigns held notes to three CV outputs, with
    stealing and reassignment.
  - `MidiSquarePatch.hpp`: one 15-bit packed square-wave oscillator per held
    note, plus the gate fill.
  - `MidiSquareDrunkPatch.hpp`: only a selected oscillator sounds, and the
    selection moves on at every falling edge.
- **Control surfaces** (`NanoKontrolSeqPatch.hpp`, `NanoKontrolTestPatch.hpp`).
  - The sorted table of nanoKONTROL2 controls.
  - The constructor that numbers the lights.
  - The hand-rolled binary search with its "nudge" rule and iteration guard.
  - The flier and special light animation, with its frame diff.
- **Small buffers.** The seven-line message monitor
  (`MidiMonitorPatch.hpp`) and the circular delay line (`PureDelayPatch.hpp`).
- **Pure helpers.**
  - The 32-bit linear congruential generator and the decimal formatter of
    `ScreenSaverPatch.hpp`.
  - `patchForSlot`.
  - The character helpers of `support/display.h`.
- **The simulator** (`MagusSim/MakeMagusSim.py`).
  - The `MidiMessage` class embedded in its C++ header: USB-MIDI event
    packets as section 4 of the USB Device Class Definition for MIDI
    Devices 1.0 lays them out, and the 14-bit Pitch Bend Change of the
    MIDI 1.0 Detailed Specification.
  - The `at:note:on` note-spec parser.
  - `innerName` and `includeSplit`.
  - The simulator's `Patch` parameter store.

The model has one module per source file, plus `Bits`, `Audio`, `Host` and
`Wrappers`:

- Classes whose fields the source updates in place are Dafny classes over
  arrays.
- The host API calls (`registerParameter`, `setParameterValue`, `sendMidi`)
  are appended to a `hostLog` sequence on the patch object.
- Time, the sample rate and the host's parameter values are method
  parameters.
- Samples are `real`, so a sum or a product is exact.
- Fixed-width C integers are written out explicitly:
  - the 15-bit fields of `PackedPhase`;
  - the `int16_t` of `pb`;
  - the `uint32_t` arithmetic of the random generator;
  - the `uint8_t` truncation of `char` arithmetic.

## Model

| member | source | states |
|---|---|---|
| `Audio.Clamp` | MidiSquarePatch.hpp:47 | `CLAMP(x)` lies in [-1, 1], is the identity inside that range and saturates outside it |
| `Audio.Silence` | MidiMonitorPatch.hpp:119-120 | `memset(data, 0, size * sizeof(float))` zeroes the first `size` samples and leaves the rest of the buffer as it was |
| `Bits.BitOrDisjoint` | MagusSim/MakeMagusSim.py:347 | or-ing a value below 2^k with a multiple of 2^k is their sum, which is why the pitch-bend getter's or of `data[2]` and `data[3] << 7` adds two 7-bit fields |
| `Display.DigitChar` | support/display.h:16-18 | `'0' + v` is the decimal digit of v for v in 0..9 |
| `Display.HexChar` | support/display.h:20-26 | `hexChar(v)` is digit `v % 16` of "0123456789ABCDEF" |
| `Display.HexValue` | support/display.h:20-26 | every hexadecimal digit `hexChar` can write has a value below 16 that indexes it back |
| `Display.HexRoundTrip` | support/display.h:20-26 | reading back `hexChar(v)` gives `v % 16` |
| `Display.HexCharLowNibble` | support/display.h:21 | `hexChar(v)` depends only on v mod 16 |
| `Display.OctaveChar` | support/display.h:28-33 | `octaveChar` is '-' exactly for notes below 12, and otherwise `digitChar(note / 12)` |
| `Display.PrintNoteShape` | support/display.h:35-38 | `printNote` writes a note name from the twelve-entry table, indexed by `note % 12`, then the octave character |
| `Display.OctaveCharMiddleC` | support/display.h:28-33 | as written, middle C (note 60) prints octave '5', not the header's MIDDLEC_OCTAVE 4 |
| `Display.OctaveDigit` | support/midiPatchBase.hpp:33-38 | the note-stack base's `digitChar`, and the octave character `octaveChar` evidently intends: '-' exactly below note 12, otherwise `'0' - 1 + note / 12` |
| `Display.OctaveDigitMiddleC` | support/midiPatchBase.hpp:33-38 | the intended octave character prints octave k for the C of octave k, for every k from 0 to 9, with middle C as octave 4 |
| `PatchForSlot.PatchForSlot` | support/patchForSlot.h:8-10 | `patchForSlot(i)` is below 16, keeps bit 0, and is undone by `SlotForPatch` on the low nibble |
| `PatchForSlot.SlotForPatch` | support/patchForSlot.h:6-9 | the inverse permutation of the low four bits yields a slot below 16 |
| `PatchForSlot.DependsOnLowNibble` | support/patchForSlot.h:9 | the result depends only on i mod 16 |
| `PatchForSlot.Bijection` | support/patchForSlot.h:9 | on 0..15 `patchForSlot` is a bijection onto 0..15, with `SlotForPatch` its inverse in both directions |
| `PatchForSlot.BlocksOfFour` | support/patchForSlot.h:6-9 | slots 0..3 map into {0, 1, 8, 9} and slots 4..7 into {2, 3, 10, 11}, the "2x2 blocks of 4" |
| `MidiMessages.FromPacked` | MagusSim/MakeMagusSim.py:307-312 | `MidiMessage(uint32_t)` stores the word, and the byte view of the union reads it little-endian, `data[0]` lowest; `PackedRoundTrip` and `UnpackedRoundTrip` make it the inverse of `Packed` |
| `MidiMessages.Packed` | MagusSim/MakeMagusSim.py:307-310 | the `packed` view of the four data bytes, `data[0]` least significant |
| `MidiMessages.MidiMessage.GetNote` | MagusSim/MakeMagusSim.py:328-330 | `getNote` reads `data[2]`; `Note` reads back the note it was built with |
| `MidiMessages.MidiMessage.GetVelocity` | MagusSim/MakeMagusSim.py:331-333 | `getVelocity` reads `data[3]`; `Note` reads back the velocity |
| `MidiMessages.MidiMessage.GetControllerNumber` | MagusSim/MakeMagusSim.py:334-336 | `getControllerNumber` reads `data[2]`; `Cc` reads back the controller |
| `MidiMessages.MidiMessage.GetControllerValue` | MagusSim/MakeMagusSim.py:337-339 | `getControllerValue` reads `data[3]`; `Cc` reads back the value |
| `MidiMessages.MidiMessage.GetChannelPressure` | MagusSim/MakeMagusSim.py:340-342 | `getChannelPressure` reads `data[2]`; `Cp` reads back the pressure |
| `MidiMessages.MidiMessage.GetProgramChange` | MagusSim/MakeMagusSim.py:343-345 | `getProgramChange` as written, reading `data[1]`; `ProgramChangeReadsStatus` shows it returns the status byte |
| `MidiMessages.MidiMessage.GetProgramNumber` | MagusSim/MakeMagusSim.py:343-345 | the program number `pc` stores in `data[2]`; `ProgramNumberRoundTrip` reads every 7-bit program back |
| `MidiMessages.MidiMessage.IsNoteOn` | MagusSim/MakeMagusSim.py:350-352 | a NOTE_ON status with nonzero velocity; `NoteClassification` relates it to the velocity `note` was given |
| `MidiMessages.MidiMessage.IsNoteOff` | MagusSim/MakeMagusSim.py:353-355 | a NOTE_OFF status, or NOTE_ON with velocity 0; `NoteClassification` shows a note message is exactly one of on and off |
| `MidiMessages.MidiMessage.IsControlChange` | MagusSim/MakeMagusSim.py:356-358 | the status nibble is CONTROL_CHANGE |
| `MidiMessages.MidiMessage.IsProgramChange` | MagusSim/MakeMagusSim.py:359-361 | the status nibble is PROGRAM_CHANGE |
| `MidiMessages.MidiMessage.IsChannelPressure` | MagusSim/MakeMagusSim.py:362-364 | the status nibble is CHANNEL_PRESSURE |
| `MidiMessages.MidiMessage.IsPitchBend` | MagusSim/MakeMagusSim.py:365-367 | the status nibble is PITCH_BEND_CHANGE |
| `MidiMessages.MidiMessage.GetPort` | MagusSim/MakeMagusSim.py:319-321 | the port is the high nibble of byte 0 |
| `MidiMessages.MidiMessage.GetChannel` | MagusSim/MakeMagusSim.py:322-324 | the channel is below 16 and is byte 1 modulo 16 |
| `MidiMessages.MidiMessage.GetStatus` | MagusSim/MakeMagusSim.py:325-327 | the status is byte 1 with its low nibble cleared |
| `MidiMessages.MidiMessage.GetPitchBend` | MagusSim/MakeMagusSim.py:346-349 | the decoded bend is never below -8192 |
| `MidiMessages.PackedRoundTrip` | MagusSim/MakeMagusSim.py:305-318 | the union's four bytes, packed little-endian into `packed` and read back, are the same four bytes |
| `MidiMessages.PackedLowBytes` | MagusSim/MakeMagusSim.py:307-310 | the low two bytes of the packed word are `data[0]` and `data[1]` |
| `MidiMessages.PackedHighBytes` | MagusSim/MakeMagusSim.py:307-310 | the high two bytes of the packed word are `data[2]` and `data[3]` |
| `MidiMessages.UnpackedRoundTrip` | MagusSim/MakeMagusSim.py:312 | `MidiMessage(uint32_t)` then `packed` is the identity on 32-bit words |
| `MidiMessages.Cc` | MagusSim/MakeMagusSim.py:368-370 | `cc(ch, cc, v)` is a control change on channel `ch & 0xf`, with event code 0x0B, controller `cc & 0x7f` and value `v & 0x7f`, as the getters read them back |
| `MidiMessages.Pc` | MagusSim/MakeMagusSim.py:371-373 | `pc(ch, p)` is a program change on channel `ch & 0xf`, with event code 0x0C and `p & 0x7f` in `data[2]` |
| `MidiMessages.Cp` | MagusSim/MakeMagusSim.py:384-386 | `cp(ch, v)` is a channel pressure on channel `ch & 0xf`, with event code 0x0D and pressure `v & 0x7f` |
| `MidiMessages.WrapInt16` | MagusSim/MakeMagusSim.py:375 | `bend += 8192` stored back into an `int16_t` wraps into [-32768, 32768) and stays congruent modulo 2^16 |
| `MidiMessages.Pb` | MagusSim/MakeMagusSim.py:374-377 | `pb(ch, bend)` is a pitch bend on channel `ch & 0xf`, with event code 0x0E and two 7-bit data bytes |
| `MidiMessages.Note` | MagusSim/MakeMagusSim.py:378-383 | `note(ch, n, 0)` is a NOTE_OFF with event code 0x08 and any other velocity gives a NOTE_ON with code 0x09, with channel, note and velocity read back modulo 16, 128 and 128 |
| `MidiMessages.PitchBendDecode` | MagusSim/MakeMagusSim.py:346-349 | with a 7-bit `data[2]` the bend is `data[2] + 128 * data[3] - 8192` (LSB first) |
| `MidiMessages.PitchBendRoundTrip` | MagusSim/MakeMagusSim.py:346-349 | for every bend in [-8192, 8191], `pb(ch, bend).getPitchBend() == bend` |
| `MidiMessages.PitchBendWraps` | MagusSim/MakeMagusSim.py:374-377 | an out-of-range bend keeps only its low 14 bits, so the decoded value is the bend folded into [-8192, 8192) |
| `MidiMessages.ProgramChangeReadsStatus` | MagusSim/MakeMagusSim.py:343-345 | as written, `getProgramChange` of `pc(0, 5)` returns the status byte 0xC0, not 5 |
| `MidiMessages.ProgramNumberRoundTrip` | MagusSim/MakeMagusSim.py:371-373 | reading `data[2]` recovers every 7-bit program number that `pc` stored |
| `MidiMessages.NoteClassification` | MagusSim/MakeMagusSim.py:350-355 | a `note` message is a note-on exactly when its 7-bit velocity is nonzero, and a note-off exactly when it is zero |
| `NoteStack.Without` | support/midiPatchBase.hpp:56-73 | the stack after the search loop finds the note and the shift closes the gap: the first occurrence removed, the rest in order (`WithoutRemovesNote`, `ShiftDownRemoves`) |
| `NoteStack.Pushed` | support/midiPatchBase.hpp:77-86 | the stack after a push: the oldest note dropped when all MIDI_MAXDOWN slots are full, then the note on top (`PushedDistinct`, `NoteOnOverflow`) |
| `NoteStack.Step` | support/midiPatchBase.hpp:46-107 | the state after one message, the specification `MidiPatchBase.ProcessMidi` meets; `StepWellFormed`, `NoteOnPlaysNote`, `NoteOffReleasesNote`, `NoteOffOfSoundingNoteRetriggers` and `OtherMessagesIgnored` state what it does |
| `NoteStack.Hooks` | support/midiPatchBase.hpp:69-86 | the `killNote`/`startNote` calls of one message in order, with the position and stack height at each call; `HooksOrder` states the order |
| `NoteStack.IndexOf` | support/midiPatchBase.hpp:58-65 | the search finds the first position of the note, and finds nothing exactly when the note is not held |
| `NoteStack.FindNote` | support/midiPatchBase.hpp:56-65 | the search loop matches exactly when the note is held, at its first position, and leaves in `matchValue` the note, or else the last entry scanned, or else (empty stack) the uninitialised value |
| `NoteStack.RemoveAtDistinct` | support/midiPatchBase.hpp:70-72 | removing one slot from a stack without duplicates keeps it without duplicates and removes exactly that note |
| `NoteStack.WithoutRemovesNote` | support/midiPatchBase.hpp:67-73 | pulling a matched note out leaves no copy of it, keeps every other note, and shortens the stack by one exactly when the note was held |
| `NoteStack.PushedDistinct` | support/midiPatchBase.hpp:78-85 | pushing a note that is not held keeps the stack free of duplicates and within MIDI_MAXDOWN, with the note on top |
| `NoteStack.StepWellFormed` | support/midiPatchBase.hpp:46-107 | every message keeps `downCount <= MIDI_MAXDOWN` and no note twice in `midiDown[0..downCount)` |
| `NoteStack.NoteOnPlaysNote` | support/midiPatchBase.hpp:76-89 | after NoteOn n, n is on top exactly once, `lastMidi == n`, the gate is high, and `needRetrig` is set exactly when the gate was already high |
| `NoteStack.NoteOnOverflow` | support/midiPatchBase.hpp:78-85 | a NoteOn for a new note on a full stack drops `midiDown[0]` and keeps the order of the rest |
| `NoteStack.NoteOffReleasesNote` | support/midiPatchBase.hpp:91-100 | after NoteOff n, n is not held and every other note stays; `lastMidi` becomes the new top if any note is held, otherwise the gate drops |
| `NoteStack.NoteOffOfSoundingNoteRetriggers` | support/midiPatchBase.hpp:94-95 | releasing the note that is sounding always sets the retrigger |
| `NoteStack.OtherMessagesIgnored` | support/midiPatchBase.hpp:104 | a status other than note-on or note-off changes nothing and calls no hook |
| `NoteStack.HooksOrder` | support/midiPatchBase.hpp:67-86 | `killNote` is called, first, exactly when the note was held, at its old position; a note-on then calls `startNote` at the top of the new stack |
| `NoteStack.ShiftDownRemoves` | support/midiPatchBase.hpp:70-71 | the shift loop leaves below `count - 1` the old entries with slot `at` removed |
| `NoteStack.ShiftSlots` | support/midiPatchBase.hpp:70-71 | `for (c = at; c < count - 1; c++) a[c] = a[c + 1]` on any array: the entries above `at`, up to `count`, move down one slot and the rest stay |
| `NoteStack.CloseGap` | support/midiPatchBase.hpp:70-72 | the stack loses the note at `at` and keeps every other note in order |
| `NoteStack.PushNote` | support/midiPatchBase.hpp:78-85 | the note is appended, after the oldest note is forgotten when the stack is full |
| `NoteStack.AppendNote` | support/midiPatchBase.hpp:84-85 | `midiDown[downCount++] = note` |
| `NoteStack.MidiPatchBase.constructor` | support/midiPatchBase.hpp:24-28 | the stack starts empty, with `lastMidi` at middle C, the gate low and no retrigger due |
| `NoteStack.MidiPatchBase.PullOut` | support/midiPatchBase.hpp:53-73 | the search and pull-out of `processMidi`: the held copy of the note is removed, with one `killNote` at its position, and the flags are untouched |
| `NoteStack.MidiPatchBase.NoteOn` | support/midiPatchBase.hpp:76-90 | the note-on branch leaves the stack, pitch, gate and retrigger of the specification `Step`, and calls the hooks of `Hooks` |
| `NoteStack.MidiPatchBase.NoteOff` | support/midiPatchBase.hpp:91-101 | the note-off branch leaves the state of the specification `Step`, and calls only the `killNote` of a held note |
| `NoteStack.MidiPatchBase.NoteOnTail` | support/midiPatchBase.hpp:77-89 | after the pull-out, a note-on pushes the note, sets pitch and gate, and sets the retrigger only when the gate was high |
| `NoteStack.MidiPatchBase.NoteOffTail` | support/midiPatchBase.hpp:94-100 | after the pull-out, a note-off retriggers when the matched value is the last pitch, then follows the new top or drops the gate |
| `NoteStack.MidiPatchBase.ProcessMidi` | support/midiPatchBase.hpp:46-107 | `processMidi` keeps the stack well formed, leaves the state of `Step` and returns the hook calls of `Hooks`, in order |
| `Midi2CV.CvStep` | Midi2CVPatch.hpp:44-102 | the state after one message in the hook-less copy, the specification `Midi2CVPatch.ProcessMidi` meets; `CvStepWellFormed`, `AgreesWithBase`, `NoteOffAlwaysRetriggers` and `CvNoteOnPlaysNote` state what it does |
| `Midi2CV.CvStepWellFormed` | Midi2CVPatch.hpp:44-102 | every message keeps `downCount <= MAXDOWN` and no note twice in the stack |
| `Midi2CV.AgreesWithBase` | Midi2CVPatch.hpp:53-95 | the held notes, the pitch and the gate evolve exactly as in the base class's `processMidi` |
| `Midi2CV.NoteOffAlwaysRetriggers` | Midi2CVPatch.hpp:86-90 | every note-off sets `needRetrig`, even for a note that is not playing |
| `Midi2CV.CvNoteOnPlaysNote` | Midi2CVPatch.hpp:72-84 | after NoteOn n, n is on top, `lastMidi == n`, the gate is high and, with no retrigger pending, `needRetrig` is raised exactly when the gate was already high |
| `Midi2CV.DigitChar` | Midi2CVPatch.hpp:37-42 | as written, '-' exactly for note 0, and `'0' - 1 + note / 12` for every other note |
| `Midi2CV.DigitCharLowOctave` | Midi2CVPatch.hpp:37-42 | as written, note 5 prints '/', where the octave character is '-' |
| `Midi2CV.DigitCharAgreesAboveLowestOctave` | Midi2CVPatch.hpp:37-42 | from note 12 up, the patch's character is the base class's octave digit |
| `Midi2CV.Midi2CVPatch.constructor` | Midi2CVPatch.hpp:26-32 | the stack starts empty, with `lastMidi` at middle C and both flags false |
| `Midi2CV.Midi2CVPatch.PullOut` | Midi2CVPatch.hpp:53-69 | the search and pull-out remove the held copy of the note, keep the other notes in order, and leave the flags alone |
| `Midi2CV.Midi2CVPatch.ProcessMidi` | Midi2CVPatch.hpp:44-102 | `processMidi` keeps the stack well formed and leaves the state of `CvStep`: pull out, then push with the oldest dropped on overflow, or release with the pitch following the new top |
| `Midi2CVTriplet.StartAssign` | Midi2CVTripletPatch.hpp:42-62 | the assignment array after `startNote(at)`: the lowest free output, or the output stolen from the oldest owner; `StartTakesLowestFree`, `StartStealsOldest` and `StartAssignOk` state it |
| `Midi2CVTriplet.KillAssign` | Midi2CVTripletPatch.hpp:66-74 | the assignment array after `killNote(at)`: shifted down over the released note, with its output handed to the highest unassigned note below; `KillAssignOk` states it |
| `Midi2CVTriplet.CvNote` | Midi2CVTripletPatch.hpp:89-109 | the note CV output c plays: its owner, else the note chosen for output c-1, starting from `lastMidi`; `CvNoteIsHeldOrLast` and `AssignedOutputPlaysNote` state it |
| `Midi2CVTriplet.FreeFrom` | Midi2CVTripletPatch.hpp:42-52 | the search of `startNote` finds the lowest output from `check` on that no note below `at` owns, or -1 exactly when every such output is taken |
| `Midi2CVTriplet.FirstAssignedFrom` | Midi2CVTripletPatch.hpp:53-60 | the steal loop finds the oldest note below `at` that owns an output, or none exactly when no such note owns one |
| `Midi2CVTriplet.StartTakesLowestFree` | Midi2CVTripletPatch.hpp:41-63 | with an output free, the new note gets the lowest free output and no other entry changes |
| `Midi2CVTriplet.StartStealsOldest` | Midi2CVTripletPatch.hpp:53-62 | with every output taken, the new note takes the output of the oldest note that owns one, and that note is left with -1 |
| `Midi2CVTriplet.StartAssignOk` | Midi2CVTripletPatch.hpp:41-63 | `startNote` always assigns an output to the new note, and no output belongs to two notes afterwards |
| `Midi2CVTriplet.AssignDistinct` | Midi2CVTripletPatch.hpp:20 | under the invariant, two different held notes never own the same output |
| `Midi2CVTriplet.LastUnassigned` | Midi2CVTripletPatch.hpp:69-74 | the reassign loop finds the highest position at or below `at` whose note owns no output, or none when every such note owns one |
| `Midi2CVTriplet.KillAssignOk` | Midi2CVTripletPatch.hpp:65-75 | after `killNote` no output belongs to two of the remaining notes, and every owned output is the released note's or one the shifted note already had |
| `Midi2CVTriplet.ReplayKillsOk` | Midi2CVTripletPatch.hpp:65-75 | the `killNote` that `processMidi` makes for a held note takes the invariant from the old stack to the stack without the note |
| `Midi2CVTriplet.ReplayStartOk` | Midi2CVTripletPatch.hpp:41-63 | a note-on's `killNote` then `startNote` keep the invariant over the new stack |
| `Midi2CVTriplet.ReplayKeepsAssignOk` | Midi2CVTripletPatch.hpp:41-75 | for every MIDI message, the hooks the note stack calls keep every output owned by at most one held note |
| `Midi2CVTriplet.FirstWith` | Midi2CVTripletPatch.hpp:104-109 | the scan of the CV loop finds the first held note that owns output `c`, or none exactly when no held note owns it |
| `Midi2CVTriplet.FindOwner` | Midi2CVTripletPatch.hpp:104-109 | the inner loop returns the note of the first held note that owns output `c`, and otherwise keeps the previous note |
| `Midi2CVTriplet.CvNoteIsHeldOrLast` | Midi2CVTripletPatch.hpp:89-109 | every CV output plays a held note or `lastMidi` |
| `Midi2CVTriplet.AssignedOutputPlaysNote` | Midi2CVTripletPatch.hpp:103-109 | an output that a held note owns plays exactly that note |
| `Midi2CVTriplet.OwnerUnique` | Midi2CVTripletPatch.hpp:20 | an output has at most one owner among the held notes |
| `Midi2CVTriplet.RetrigCountsDown` | Midi2CVTripletPatch.hpp:92-95 | the retrigger countdown never grows, drops by the block size down to 0 while notes are held, and stays put with none held |
| `Midi2CVTriplet.ParametersDistinct` | Midi2CVTripletPatch.hpp:26-31 | the trigger and the three CV outputs are parameters 0, 1, 8 and 9 |
| `Midi2CVTriplet.Midi2CVTripletPatch.constructor` | Midi2CVTripletPatch.hpp:22-36 | the constructor registers "Trig>" at 0 and "CV0>".."CV2>" at 0.5, in that order, with an empty note stack |
| `Midi2CVTriplet.Midi2CVTripletPatch.StartNote` | Midi2CVTripletPatch.hpp:41-63 | the array after `startNote` is the specification `StartAssign` of the old array |
| `Midi2CVTriplet.Midi2CVTripletPatch.KillNote` | Midi2CVTripletPatch.hpp:65-75 | the array after `killNote` is the specification `KillAssign` of the old array |
| `Midi2CVTriplet.Midi2CVTripletPatch.ProcessMidi` | support/midiPatchBase.hpp:46-107 | the note stack moves as in `Step`, the assignment array replays the hooks it calls, and the ownership invariant holds afterwards |
| `Midi2CVTriplet.Midi2CVTripletPatch.ReplayHooks` | Midi2CVTripletPatch.hpp:41-75 | running the logged hook calls in order leaves the array of `Replay` |
| `Midi2CVTriplet.Midi2CVTripletPatch.SetTrigger` | Midi2CVTripletPatch.hpp:91-101 | the trigger parameter is set low with no notes or a retrigger due, high otherwise, and the countdown moves on by the block size |
| `Midi2CVTriplet.Midi2CVTripletPatch.SetCvs` | Midi2CVTripletPatch.hpp:103-113 | one parameter call per output, in order, with the CV of the note `CvNote` chooses |
| `Midi2CVTriplet.Midi2CVTripletPatch.ProcessAudio` | Midi2CVTripletPatch.hpp:77-114 | `processAudio` silences both channels up to the shorter length, then makes the trigger call and the three CV calls |
| `MidiSquare.Advance` | MidiSquarePatch.hpp:65-69 | one sample of a packed oscillator, in 15-bit arithmetic: the phase moves on by PHASE_RADIX and, once past `max`, drops back by `max` and flips `high`; `AdvanceStaysInPeriod`, `HoldsForHalfPeriod` and `FlipsAfterHalfPeriod` state what it does |
| `MidiSquare.AdvanceStaysInPeriod` | MidiSquarePatch.hpp:65-69 | with a period from 16 up to 16 below the 15-bit limit, one step keeps the phase within the period and the period unchanged, and flips the level exactly when the phase passes the period |
| `MidiSquare.HoldsForHalfPeriod` | MidiSquarePatch.hpp:37-39 | a started oscillator after k steps, with 16k not past the period, is still low at phase 16k |
| `MidiSquare.FlipsAfterHalfPeriod` | MidiSquarePatch.hpp:65-69 | a started oscillator is high after `max / 16 + 1` steps: the square wave's half period is `max / PHASE_RADIX` samples |
| `MidiSquare.PhasesAdvance` | MidiSquarePatch.hpp:63-70 | a run of phases each one step after the last is the run of k-step advances from the first |
| `MidiSquare.GateAcrossBlocks` | MidiSquarePatch.hpp:84-87 | the gate's leading zeros continue seamlessly into the next block: the countdown left after a block gives the same level as one long block |
| `MidiSquare.Replay` | MidiSquarePatch.hpp:33-45 | replaying `startNote` and `killNote` calls never changes the number of oscillators |
| `MidiSquare.NoteOnStartsOscillator` | MidiSquarePatch.hpp:33-40 | after a note-on the oscillator on top of the stack is freshly started: low, phase 0, with the new period |
| `MidiSquare.OverflowKeepsOscillators` | support/midiPatchBase.hpp:78-84 | when a full stack drops its oldest note no `killNote` is called, so the oscillators stay where they were and only the top one restarts |
| `MidiSquare.MidiSquarePatch.constructor` | MidiSquarePatch.hpp:25-28 | the constructor registers "Amp" as parameter A at 0.5, with an empty note stack |
| `MidiSquare.MidiSquarePatch.ProcessMidi` | support/midiPatchBase.hpp:46-107 | the note stack moves as in `Step` and the oscillators replay the hook calls it makes |
| `MidiSquare.MidiSquarePatch.ReplayHooks` | MidiSquarePatch.hpp:33-45 | running the logged hook calls in order leaves the oscillators of `Replay` |
| `MidiSquare.MidiSquarePatch.ApplyHook` | MidiSquarePatch.hpp:33-45 | `startNote` restarts the oscillator at `at`, and `killNote` shifts the oscillators above it down one slot |
| `MidiSquare.MidiSquarePatch.RenderNotes` | MidiSquarePatch.hpp:61-71 | every held oscillator advances `size` steps, the others stay, and each right sample gains the levels of all held oscillators at that step |
| `MidiSquare.MidiSquarePatch.RenderOne` | MidiSquarePatch.hpp:62-70 | one oscillator adds its level at each step to the right channel and ends `size` steps on |
| `MidiSquare.MidiSquarePatch.Sample` | MidiSquarePatch.hpp:64-69 | one sample gains the oscillator's level, then the oscillator advances one step; nothing else changes |
| `MidiSquare.MidiSquarePatch.FillGate` | MidiSquarePatch.hpp:81-88 | the left channel gets zeros while a retrigger is due, then the gate level, and the countdown drops by the block size, never below 0 |
| `MidiSquare.MidiSquarePatch.ProcessAudio` | MidiSquarePatch.hpp:49-90 | without PATCH_STEREO, the right channel is its old samples plus the held notes' waves, scaled by a quarter of parameter A and clamped; the left channel carries the gate |
| `MidiSquare.MidiSquarePatch.RenderRight` | MidiSquarePatch.hpp:61-79 | the oscillator loop then the clamp loop leave each right sample as the scaled, clamped mix |
| `MidiSquare.MixedInTwoSteps` | MidiSquarePatch.hpp:61-79 | mixing the waves in one loop and scaling in a later one gives the scaled, clamped mix |
| `MidiSquare.Scaled` | MidiSquarePatch.hpp:47 | `CLAMP(x * amp)` lies in [-1, 1] |
| `MidiSquare.ScaleAndClamp` | MidiSquarePatch.hpp:77-79 | every sample below `size` becomes `CLAMP(sample * amp)` and the rest stay |
| `MidiSquareDrunk.NextNote` | MidiSquareDrunkPatch.hpp:35-39 | `nextNote` as written, wrapping only past `downCount`; `NextNoteCycles` and `NextNoteLeavesArray` state its cycle and the slot it reaches |
| `MidiSquareDrunk.NextNoteWithinStack` | MidiSquareDrunkPatch.hpp:35-39 | `nextNote` wrapping at `downCount`, as evidently intended; `NextNoteWithinStackCycles` states that it stays in the stack |
| `MidiSquareDrunk.KillSelect` | MidiSquareDrunkPatch.hpp:53-56 | the selection after `killNote(at)`: decremented then stepped when at least the selected position is released, else unchanged; `KillSelectKeepsSlot` states the result |
| `MidiSquareDrunk.Tick` | MidiSquareDrunkPatch.hpp:73-84 | one sample: the selected oscillator advances, and a high-to-low flip moves the selection on; `TickAdvancesSelectedOnly` states it |
| `MidiSquareDrunk.NextNoteCycles` | MidiSquareDrunkPatch.hpp:35-39 | as written, the selection steps through the `downCount + 1` slots 0..downCount, wrapping to 0 |
| `MidiSquareDrunk.NextNoteLeavesArray` | MidiSquareDrunkPatch.hpp:35-39 | as written, with the stack full the selection reaches MIDI_MAXDOWN, one past the last oscillator |
| `MidiSquareDrunk.NextNoteWithinStackCycles` | MidiSquareDrunkPatch.hpp:35-39 | the intended `nextNote` always selects a held note and steps through them modulo `downCount` |
| `MidiSquareDrunk.KillSelectKeepsSlot` | MidiSquareDrunkPatch.hpp:53-56 | the decrement and `nextNote` in `killNote` leave the selection where it was, within 0..downCount |
| `MidiSquareDrunk.Replay` | MidiSquareDrunkPatch.hpp:41-57 | replaying `startNote` and `killNote` calls never changes the number of oscillators |
| `MidiSquareDrunk.ReplayKeepsSelection` | MidiSquareDrunkPatch.hpp:50-57 | however the note stack moves, the selection stays within 0..MIDI_MAXDOWN |
| `MidiSquareDrunk.HooksWithinStack` | support/midiPatchBase.hpp:67-73 | every `killNote` the note stack calls names a stack height of at most MIDI_MAXDOWN |
| `MidiSquareDrunk.Run` | MidiSquareDrunkPatch.hpp:73-88 | the voices after `n` samples keep their number of oscillators |
| `MidiSquareDrunk.InBoundsPrefix` | MidiSquareDrunkPatch.hpp:73-75 | a block whose every sample selects a slot inside the array has every shorter prefix the same |
| `MidiSquareDrunk.RunStep` | MidiSquareDrunkPatch.hpp:73-88 | the voices after n + 1 samples are one sample on from the voices after n, whose selection is inside the array |
| `MidiSquareDrunk.InBoundsBelowFullStack` | MidiSquareDrunkPatch.hpp:35-39 | below a full stack the selection never leaves the array, for any number of samples |
| `MidiSquareDrunk.TickAdvancesSelectedOnly` | MidiSquareDrunkPatch.hpp:75-84 | a sample advances only the selected oscillator, by one step, and the selection moves only on a high-to-low flip |
| `MidiSquareDrunk.MidiSquareDrunkPatch.constructor` | MidiSquareDrunkPatch.hpp:26-30 | the constructor registers "Amp" as parameter A at 0.5, selects slot 0, and starts with an empty note stack |
| `MidiSquareDrunk.MidiSquareDrunkPatch.KillNote` | MidiSquareDrunkPatch.hpp:50-57 | `killNote` shifts the oscillators above `at` down one slot and updates the selection by `KillSelect` |
| `MidiSquareDrunk.MidiSquareDrunkPatch.ApplyHook` | MidiSquareDrunkPatch.hpp:41-57 | `startNote` restarts the oscillator at `at`, and `killNote` shifts and reselects |
| `MidiSquareDrunk.MidiSquareDrunkPatch.ProcessMidi` | support/midiPatchBase.hpp:46-107 | the note stack moves as in `Step`, the voices replay its hook calls, and the selection stays within 0..MIDI_MAXDOWN |
| `MidiSquareDrunk.MidiSquareDrunkPatch.ReplayHooks` | MidiSquareDrunkPatch.hpp:41-57 | running the logged hook calls in order leaves the voices of `Replay` |
| `MidiSquareDrunk.MidiSquareDrunkPatch.RenderSelected` | MidiSquareDrunkPatch.hpp:73-88 | with notes held, each left sample gains the selected oscillator's level and the voices move on as in `Run`; with none, the left channel is zeroed |
| `MidiSquareDrunk.MidiSquareDrunkPatch.SampleSelected` | MidiSquareDrunkPatch.hpp:75-84 | one sample gains the selected level, and the voices move one `Tick` on |
| `MidiSquareDrunk.MidiSquareDrunkPatch.ProcessAudio` | MidiSquareDrunkPatch.hpp:61-92 | both channels get the left channel, plus the selected wave, scaled by a quarter of parameter A and clamped, and the voices end `size` samples on |
| `MidiSquareDrunk.ScaleToBoth` | MidiSquareDrunkPatch.hpp:89-91 | both channels get the first `size` left samples scaled and clamped |
| `MidiSquareDrunk.RenderedInTwoSteps` | MidiSquareDrunkPatch.hpp:73-91 | the per-sample loop followed by the output loop gives the rendered block |
| `MidiMonitor.Record` | MidiMonitorPatch.hpp:35-44 | the lines shown after one more message: the newest MESSAGELINES, oldest first; `StoredShowsRecord` ties the array shift to it and `RecordAllKeepsNewest` states it for a whole stream |
| `MidiMonitor.ClampedCount` | MidiMonitorPatch.hpp:35-36 | the clamp leaves at most MESSAGELINES lines and changes no count that is already in range |
| `MidiMonitor.NextRootId` | MidiMonitorPatch.hpp:45 | the unsigned `(rootId + 1) % 10` is a decimal digit |
| `MidiMonitor.Stored` | MidiMonitorPatch.hpp:38-44 | storing a message keeps all MESSAGELINES slots of the buffer |
| `MidiMonitor.StoredShowsRecord` | MidiMonitorPatch.hpp:35-44 | on a full buffer the oldest line goes and the rest move down in order; otherwise the earlier lines stay; either way the message is the newest line |
| `MidiMonitor.RecordAllKeepsNewest` | MidiMonitorPatch.hpp:34-46 | after any stream of messages the buffer shows exactly the newest MESSAGELINES of them, oldest first |
| `MidiMonitor.RootIdCycles` | MidiMonitorPatch.hpp:45 | after k messages `rootId` has moved on by k modulo 10 |
| `MidiMonitor.NextRootIdOfDigit` | MidiMonitorPatch.hpp:45 | stepping a digit is stepping its number modulo 10 |
| `MidiMonitor.MidiMonitorPatch.constructor` | MidiMonitorPatch.hpp:25-28 | no lines are stored and `rootId` is 0 |
| `MidiMonitor.MidiMonitorPatch.ProcessMidi` | MidiMonitorPatch.hpp:34-46 | the count is clamped and then grows up to MESSAGELINES, the buffer is `Stored`, the lines shown are the old ones plus the message, newest MESSAGELINES kept, and `rootId` steps |
| `MidiMonitor.MidiMonitorPatch.ProcessAudio` | MidiMonitorPatch.hpp:109-121 | both channels are zeroed up to the shorter length, and the rest stays |
| `PureDelay.SlotParameter` | PureDelayPatch.hpp:23-25 | the patch's private `patchForSlot` gives a slot below 16 with bit 0 kept, and the shared inverse `SlotForPatch` recovers the low four bits of the argument |
| `PureDelay.SlotParameterIsShared` | PureDelayPatch.hpp:23-25 | the private copy agrees with the shared `patchForSlot` of support/patchForSlot.h on every argument |
| `PureDelay.Inputs` | PureDelayPatch.hpp:64-65 | each sample fed to the delay line is the clamped sum of left and right |
| `PureDelay.ZeroedHoldsEmpty` | PureDelayPatch.hpp:27-31 | the zeroed history holds the empty stream: silence before the first input |
| `PureDelay.WriteKeepsHolds` | PureDelayPatch.hpp:67-68 | writing the next sample at `writePtr` keeps the ring buffer holding the last BUFSIZE samples of the stream |
| `PureDelay.ModDistinct` | PureDelayPatch.hpp:67-68 | two stream positions less than BUFSIZE apart never share a slot |
| `PureDelay.ReadIsDelayed` | PureDelayPatch.hpp:71-75 | when the block and the delay fit in the buffer, slot `(from + i) % BUFSIZE` holds the input `backLook()` samples before output i |
| `PureDelay.NextSlot` | PureDelayPatch.hpp:67-68 | incrementing and wrapping `writePtr` follows the stream length modulo BUFSIZE |
| `PureDelay.PureDelayPatch.constructor` | PureDelayPatch.hpp:27-31 | the note is middle C, `writePtr` 0, and the history all zeros |
| `PureDelay.PureDelayPatch.ProcessMidi` | PureDelayPatch.hpp:37-45 | a Note On status, whatever its velocity, records the note, and nothing else changes |
| `PureDelay.PureDelayPatch.WriteBlock` | PureDelayPatch.hpp:64-69 | the block's inputs are appended to the stream, `writePtr` moves on by the block size modulo BUFSIZE, and the buffer keeps its invariant |
| `PureDelay.PureDelayPatch.ReadBlock` | PureDelayPatch.hpp:71-79 | both channels get the history from `from` on, modulo BUFSIZE |
| `PureDelay.PureDelayPatch.ProcessAudio` | PureDelayPatch.hpp:55-80 | the block is fed into the delay line, both channels play the same samples, and each is the input exactly `backLook()` samples earlier, silence before the first |
| `ScreenSaver.NextAccumulator` | ScreenSaverPatch.hpp:37-42 | the generator's step is one multiply-add modulo 2^32 shifted right by 8, so every value after the first fits in 24 bits |
| `ScreenSaver.WrapTwice` | ScreenSaverPatch.hpp:38-39 | wrapping after the multiply and again after the add is wrapping once |
| `ScreenSaver.DigitChar` | ScreenSaverPatch.hpp:48 | `'0' + d` is a decimal digit character |
| `ScreenSaver.Decimal` | ScreenSaverPatch.hpp:44-52 | the text `a2c` produces is at least one character, all decimal digits |
| `ScreenSaver.DecimalRoundTrip` | ScreenSaverPatch.hpp:44-52 | the digits read back as the number, and only 0 starts with '0' |
| `ScreenSaver.DecimalLength` | ScreenSaverPatch.hpp:44-52 | a number below 10^k has at most k digits |
| `ScreenSaver.DecimalFits` | ScreenSaverPatch.hpp:14 | a `uint32_t` has at most 10 digits, so the 33-character buffer is never overrun |
| `ScreenSaver.LastDigit` | ScreenSaverPatch.hpp:48-49 | writing the last digit in front and dividing by 10 keeps the digits still to write plus those written equal to the whole number |
| `ScreenSaver.Place` | ScreenSaverPatch.hpp:72-78 | the drawing position lies on the screen, and the colour is inverted exactly when the random number is odd |
| `ScreenSaver.ScreenSaverPatch.constructor` | ScreenSaverPatch.hpp:22-26 | the frame is 1 and the generator has stepped twice from ACCUMULATOR_START |
| `ScreenSaver.ScreenSaverPatch.NextRandom` | ScreenSaverPatch.hpp:37-42 | the accumulator steps once and is returned, below 2^24 |
| `ScreenSaver.ScreenSaverPatch.A2c` | ScreenSaverPatch.hpp:44-52 | the returned position starts the decimal digits of n, which end at the NUL in the buffer's last slot; the buffer before them is untouched |
| `ScreenSaver.ScreenSaverPatch.PutDigit` | ScreenSaverPatch.hpp:47-50 | one pass of the do-while writes the last digit of the counter in front of the digits already written and divides the counter by 10 |
| `ScreenSaver.ScreenSaverPatch.ProcessScreen` | ScreenSaverPatch.hpp:69-89 | the generator steps once, the placement comes from the new random number, the text is the old frame number in decimal, and `frame++` wraps at 2^32 |
| `ScreenSaver.ScreenSaverPatch.ProcessAudio` | ScreenSaverPatch.hpp:54-66 | both channels are zeroed up to the shorter length |
| `NanoKontrolTest.NextFlier` | NanoKontrolTestPatch.hpp:97-106 | a flier's count after a step: one more, or 0 once its light reached NORMAL_COUNT; `FlierCycle` and `FlierBounds` state the cycle and the bounds |
| `NanoKontrolTest.Survivors` | NanoKontrolTestPatch.hpp:74-88 | the specials after the advance-and-compact pass: each moved on by one, with the completed front dropped; `SurvivorsOk` states it |
| `NanoKontrolTest.DiffCalls` | NanoKontrolTestPatch.hpp:112-117 | the host calls of the emit loop, light by light: a `lightSet` where the state changed, then the parameter mirror for lights below 16; `DiffSendsChangedLights` and `DiffMirrorsParameters` state it |
| `NanoKontrolTest.LightCcDistinct` | NanoKontrolTestPatch.hpp:12 | `lightCC` has LIGHTS entries and no two lights share a controller number |
| `NanoKontrolTest.LightMessageIsCc` | NanoKontrolTestPatch.hpp:56-59 | `lightSet` sends a Control Change on channel 0 for the light's controller, with value 127 for on and 0 for off |
| `NanoKontrolTest.LightMessageInjective` | NanoKontrolTestPatch.hpp:56-59 | two `lightSet` messages are equal exactly when they are for the same light and the same state |
| `NanoKontrolTest.Speed` | NanoKontrolTestPatch.hpp:93 | flier c's speed divisor `1 << c` is 2^c |
| `NanoKontrolTest.FlierCycle` | NanoKontrolTestPatch.hpp:92-109 | a flier counts up one per step from 0 to `NORMAL_COUNT * 2^c`, and restarts at 0 on the step after its light reaches NORMAL_COUNT |
| `NanoKontrolTest.FlierBounds` | NanoKontrolTestPatch.hpp:93-106 | a flier within its range lights at most light NORMAL_COUNT and stays within its range after the step |
| `NanoKontrolTest.NextFliersActive` | NanoKontrolTestPatch.hpp:105-109 | a step adds at most one active flier |
| `NanoKontrolTest.Advanced` | NanoKontrolTestPatch.hpp:78 | every special moves on by one light |
| `NanoKontrolTest.CountComplete` | NanoKontrolTestPatch.hpp:73-81 | `completeCount` never exceeds the number of active specials |
| `NanoKontrolTest.Launched` | NanoKontrolTestPatch.hpp:99-103 | a launch request leaves the specials alone or appends one at 0 |
| `NanoKontrolTest.CountCompleteAtMostFront` | NanoKontrolTestPatch.hpp:74-81 | at most one special completes in a step, and it is the oldest, exactly when it has reached SPECIAL_COUNT |
| `NanoKontrolTest.SurvivorsOk` | NanoKontrolTestPatch.hpp:72-88 | after the specials part the active specials are still below SPECIAL_COUNT and strictly decreasing, at most one was dropped, and each survivor is an old special moved on by one |
| `NanoKontrolTest.LaunchedOk` | NanoKontrolTestPatch.hpp:99-103 | a launch keeps the specials below SPECIAL_COUNT and strictly decreasing |
| `NanoKontrolTest.LaunchedTwice` | NanoKontrolTestPatch.hpp:99-103 | a second launch request in the same step adds no second special |
| `NanoKontrolTest.DiffSendsChangedLights` | NanoKontrolTestPatch.hpp:112-115 | for any table without repeats, the diff loop sends a light's new state exactly when the light changed, and never its old state |
| `NanoKontrolTest.DiffMirrorsParameters` | NanoKontrolTestPatch.hpp:116-117 | each of the first 16 lights gets its parameter set to 1.0 when on and 0.0 when off, and never the other value |
| `NanoKontrolTest.StepLogIsDiff` | NanoKontrolTestPatch.hpp:112-118 | with this patch's tables, a step's log sends light j exactly when it changed and mirrors lights 0 to 15 |
| `NanoKontrolTest.ParameterIdsDistinct` | NanoKontrolTestPatch.hpp:41 | the 16 mirrored parameter ids are distinct |
| `NanoKontrolTest.TablesInjective` | NanoKontrolTestPatch.hpp:12-41 | both the controller table and the parameter ids are free of repeats |
| `NanoKontrolTest.ParameterNamesDistinct` | NanoKontrolTestPatch.hpp:37-41 | the names L00> to L99> are equal exactly when their indices are |
| `NanoKontrolTest.NanoKontrolTestPatch.constructor` | NanoKontrolTestPatch.hpp:29-45 | one flier, no specials, all lights off; the log registers L00> to L15> and then turns all 30 lights off in order |
| `NanoKontrolTest.NanoKontrolTestPatch.TurnAllOff` | NanoKontrolTestPatch.hpp:43-44 | the constructor's second loop logs one off message per light, in light order |
| `NanoKontrolTest.NanoKontrolTestPatch.LightSet` | NanoKontrolTestPatch.hpp:56-59 | `lightSet` logs exactly one Control Change for the light |
| `NanoKontrolTest.NanoKontrolTestPatch.ClearLights` | NanoKontrolTestPatch.hpp:70 | every light is off afterwards |
| `NanoKontrolTest.NanoKontrolTestPatch.MarkSpecials` | NanoKontrolTestPatch.hpp:72-81 | the specials loop advances every special, returns the number that ran off the end, and turns on exactly their old lights |
| `NanoKontrolTest.NanoKontrolTestPatch.MarkOne` | NanoKontrolTestPatch.hpp:75-80 | one pass of the specials loop lights special c, moves it on, and counts it if it ran off the end |
| `NanoKontrolTest.NanoKontrolTestPatch.DropCompleted` | NanoKontrolTestPatch.hpp:85-86 | the specials after the completed ones move to the front, in order |
| `NanoKontrolTest.NanoKontrolTestPatch.LaunchSpecial` | NanoKontrolTestPatch.hpp:99-103 | a launch appends a special at 0 when there is room and the newest special has moved off 0 |
| `NanoKontrolTest.NanoKontrolTestPatch.FlierStep` | NanoKontrolTestPatch.hpp:92-109 | one pass of the fliers loop lights flier c's light, steps it, launches a special on the launch condition, and adds a flier after the last one restarts |
| `NanoKontrolTest.NanoKontrolTestPatch.RunFliers` | NanoKontrolTestPatch.hpp:90-110 | the fliers loop steps every active flier, adds at most one flier, makes at most one launch, and turns on exactly the fliers' lights |
| `NanoKontrolTest.NanoKontrolTestPatch.EmitDiff` | NanoKontrolTestPatch.hpp:112-118 | the last loop logs the calls of `DiffCalls` for all 30 lights, light by light |
| `NanoKontrolTest.NanoKontrolTestPatch.EmitLight` | NanoKontrolTestPatch.hpp:113-117 | one pass logs `lightSet` if the light changed, then its parameter if it is mirrored |
| `NanoKontrolTest.NanoKontrolTestPatch.RunSpecials` | NanoKontrolTestPatch.hpp:68-88 | the specials part leaves exactly the specials' lights on and the specials advanced with the completed one dropped, still in order |
| `NanoKontrolTest.NanoKontrolTestPatch.Compact` | NanoKontrolTestPatch.hpp:82-88 | the `completeCount` specials at the front are dropped and the count shrinks by that much |
| `NanoKontrolTest.NanoKontrolTestPatch.Step` | NanoKontrolTestPatch.hpp:65-119 | a step lights exactly the specials' and the fliers' lights, advances both, keeps the invariants, and logs only the changed lights and the 16 mirrored parameters |
| `NanoKontrolTest.NanoKontrolTestPatch.ProcessAudio` | NanoKontrolTestPatch.hpp:61-132 | when triggered, the lights are exactly the old specials' and fliers' lights, the specials are the survivors plus any launch, each active flier moves on one count, the active count follows `NextFliersActive`, and the log gains exactly the diff; when not, lights, fliers, specials, both counts and the log stay as they were; both channels are silenced |
| `NanoKontrolTest.RegisterAll` | NanoKontrolTestPatch.hpp:37-42 | the constructor's first loop registers parameters 0 to 15 in order, named L00> to L15> |
| `NanoKontrolSeq.Assign` | NanoKontrolSeqPatch.hpp:143-154 | entry c after the constructor's light loop: lit entries numbered by the lit entries before them, others -1; `AssignNumbersInOrder` states it |
| `NanoKontrolSeq.Search` | NanoKontrolSeqPatch.hpp:172-199 | the search loop from one probe: Found on a match, Unrecognized once `low >= high`, GaveUp after more than ten probes; `SearchSound` and `SearchComplete` state it |
| `NanoKontrolSeq.Lookup` | NanoKontrolSeqPatch.hpp:171-202 | the search from the middle entry over the whole table; `LookupCorrect` states it finds exactly the present CCs |
| `NanoKontrolSeq.PortName` | NanoKontrolSeqPatch.hpp:128-140 | the name registered for port c: "CV" and 1 + c for the first eight, "TG" and 1 + c / 2 after, then '>'; `PortNames` states which names differ |
| `NanoKontrolSeq.AscendingAppend` | NanoKontrolSeqPatch.hpp:53-112 | two sorted runs of the table, the first ending below where the second starts, make one sorted run |
| `NanoKontrolSeq.LitCount` | NanoKontrolSeqPatch.hpp:147-151 | the number of entries that get a light is at most the number of entries |
| `NanoKontrolSeq.LitCountPrefix` | NanoKontrolSeqPatch.hpp:144-156 | the number of lights handed out never decreases along the table |
| `NanoKontrolSeq.LitCountRun` | NanoKontrolSeqPatch.hpp:147-154 | a run of entries all lit adds its length to the light count, and one all unlit adds nothing |
| `NanoKontrolSeq.LitCountAppend` | NanoKontrolSeqPatch.hpp:144-156 | the light count of two runs is the sum of their counts |
| `NanoKontrolSeq.StepsUpAscending` | NanoKontrolSeqPatch.hpp:53-112 | a table whose each CC is below the next is sorted |
| `NanoKontrolSeq.GroupsSorted` | NanoKontrolSeqPatch.hpp:53-112 | each group of `ccDb` (sliders, knobs, solos, transport, mutes, song, menu, records) is sorted by CC |
| `NanoKontrolSeq.GroupsLit` | NanoKontrolSeqPatch.hpp:147-148 | the solo, transport, mute and record entries get lights, and the slider, knob, song and menu entries do not |
| `NanoKontrolSeq.CcDbFacts` | NanoKontrolSeqPatch.hpp:51-112 | `ccDb` has CC_COUNT entries, strictly ascending by CC, and exactly LIGHT_COUNT of them get a light |
| `NanoKontrolSeq.AssignNumbersInOrder` | NanoKontrolSeqPatch.hpp:144-154 | the lit entries are numbered 0, 1, 2, ... in table order, each below the light count |
| `NanoKontrolSeq.LightSetMessageDecodes` | NanoKontrolSeqPatch.hpp:162-165 | `lightSet` sends a Control Change on channel 0 with the USB code for a control change, for that controller, with value 127 or 0 |
| `NanoKontrolSeq.PortNames` | NanoKontrolSeqPatch.hpp:128-141 | the CV ports are CV1 to CV8, all different; the gate ports share names in pairs, TG5 to TG8 |
| `NanoKontrolSeq.Budget` | NanoKontrolSeqPatch.hpp:174-198 | the most probes a search needs over a window `w` wide: at least one, and few enough that `w <= 2^(probes - 1)`, since every miss halves the window |
| `NanoKontrolSeq.BudgetMonotone` | NanoKontrolSeqPatch.hpp:174-198 | a wider window never needs fewer probes |
| `NanoKontrolSeq.BudgetOfTable` | NanoKontrolSeqPatch.hpp:172-176 | the full 51-entry table needs at most eight probes |
| `NanoKontrolSeq.Narrow` | NanoKontrolSeqPatch.hpp:184-197 | after a miss the new window lies in the table, and the search stops as unrecognized exactly when the window has closed on the side the CC lies |
| `NanoKontrolSeq.SearchSound` | NanoKontrolSeqPatch.hpp:177-198 | the search only reports an entry that holds the CC, after at least one probe |
| `NanoKontrolSeq.AscendingOrder` | NanoKontrolSeqPatch.hpp:48-53 | in the sorted table a smaller CC sits at a smaller index |
| `NanoKontrolSeq.NarrowOnTrack` | NanoKontrolSeqPatch.hpp:184-197 | a miss never closes the window on the entry holding the CC, and the probes left are still enough |
| `NanoKontrolSeq.HalveDown` | NanoKontrolSeqPatch.hpp:184-188 | a miss above the CC halves the lower half and leaves probes enough for it |
| `NanoKontrolSeq.HalveUp` | NanoKontrolSeqPatch.hpp:189-193 | a miss below the CC halves the upper half, or nudges to its top end when one step is left |
| `NanoKontrolSeq.SearchComplete` | NanoKontrolSeqPatch.hpp:177-198 | a search on track finds the entry holding the CC within eight probes |
| `NanoKontrolSeq.LookupCorrect` | NanoKontrolSeqPatch.hpp:172-198 | on a sorted table the search finds a CC exactly when the table holds it, at that entry, within eight probes, so the guard never stops a search for a CC that is present |
| `NanoKontrolSeq.LookupSound` | NanoKontrolSeqPatch.hpp:172-198 | a search from the middle of the table only reports entries that hold the CC |
| `NanoKontrolSeq.LookupFinds` | NanoKontrolSeqPatch.hpp:172-198 | in a sorted table, a CC the table holds is found at its entry within eight probes |
| `NanoKontrolSeq.LookupSwingsBetweenNeighbours` | NanoKontrolSeqPatch.hpp:178-197 | CC 10, which lies between entries 7 and 8, makes the probe swing between them until the guard stops the search after the eleventh probe |
| `NanoKontrolSeq.CcDbProbed` | NanoKontrolSeqPatch.hpp:53-81 | the CCs of the entries the search for CC 10 probes |
| `NanoKontrolSeq.SwingInTable` | NanoKontrolSeqPatch.hpp:172-198 | any table with those CCs at the probed entries gives up on CC 10 |
| `NanoKontrolSeq.NanoKontrolSeqPatch.constructor` | NanoKontrolSeqPatch.hpp:124-157 | all lights off; lit entries numbered and inverse to `lightCcIdx`; the log registers the 16 ports and then sends every entry's off message in table order |
| `NanoKontrolSeq.NanoKontrolSeqPatch.LightSet` | NanoKontrolSeqPatch.hpp:162-165 | `lightSet` logs exactly one Control Change |
| `NanoKontrolSeq.NanoKontrolSeqPatch.BuildLightDb` | NanoKontrolSeqPatch.hpp:144-156 | the second loop numbers every entry as `Assign` says, makes `lightCcIdx` its inverse, and logs one off message per entry |
| `NanoKontrolSeq.NanoKontrolSeqPatch.NumberOne` | NanoKontrolSeqPatch.hpp:146-155 | one pass gives a lit entry the next light and an unlit one -1, keeping the loop's numbering invariant |
| `NanoKontrolSeq.NanoKontrolSeqPatch.NumberLit` | NanoKontrolSeqPatch.hpp:149-151 | a lit entry gets the next light index and `lightCcIdx` records its entry |
| `NanoKontrolSeq.NanoKontrolSeqPatch.NumberUnlit` | NanoKontrolSeqPatch.hpp:153 | an unlit entry gets light index -1 |
| `NanoKontrolSeq.NanoKontrolSeqPatch.NumberedAll` | NanoKontrolSeqPatch.hpp:144-156 | after the loop, every entry is numbered and the two tables are inverse |
| `NanoKontrolSeq.NanoKontrolSeqPatch.ProcessMidi` | NanoKontrolSeqPatch.hpp:167-204 | a non-CC message only resets the debug fields; a CC is found exactly when the table holds it, at its entry, within eight probes, and otherwise ends unrecognized or at the guard |
| `NanoKontrolSeq.NanoKontrolSeqPatch.FindCc` | NanoKontrolSeqPatch.hpp:172-202 | the search loop ends as the specification `Lookup` does, leaving its probe count in `debug2` |
| `NanoKontrolSeq.NanoKontrolSeqPatch.DbAscending` | NanoKontrolSeqPatch.hpp:53-112 | numbering the lights keeps the table sorted by CC |
| `NanoKontrolSeq.NanoKontrolSeqPatch.ProcessAudio` | NanoKontrolSeqPatch.hpp:209-225 | both channels are zeroed up to the shorter length |
| `NanoKontrolSeq.NarrowWindow` | NanoKontrolSeqPatch.hpp:184-196 | one window step of the loop computes the same new window and probe as `Narrow` |
| `NanoKontrolSeq.RegisterPorts` | NanoKontrolSeqPatch.hpp:129-141 | the first loop registers parameters 0 to 15 in order with their port names |
| `NanoKontrolSeq.PortScratch` | NanoKontrolSeqPatch.hpp:130-139 | the name written into `scratch` for port c is `PortName(c)` |
| `MagusSim.IndexOf` | MagusSim/MakeMagusSim.py:21-28 | the index of the first occurrence of the character, or the length when it does not occur |
| `MagusSim.IndexOfAfter` | MagusSim/MakeMagusSim.py:21-28 | after a prefix free of the character, the first occurrence is at the prefix's end |
| `MagusSim.IndexOfAbsent` | MagusSim/MakeMagusSim.py:21-28 | a string without the character gives its length |
| `MagusSim.Basename` | MagusSim/MakeMagusSim.py:23 | `os.path.basename` is the longest suffix without a '/', and whatever precedes it is a '/' |
| `MagusSim.BasenameAfterSlash` | MagusSim/MakeMagusSim.py:23 | the directory part does not affect the basename |
| `MagusSim.InnerName` | MagusSim/MakeMagusSim.py:20-25 | `innerName` is the basename up to its first '.', non-empty when the basename starts with another character, and otherwise the whole basename |
| `MagusSim.InnerNameOfPath` | MagusSim/MakeMagusSim.py:20 | "/path/to/file/filename.ext" becomes "filename" |
| `MagusSim.BasenameOfName` | MagusSim/MakeMagusSim.py:23 | a string without '/' is its own basename |
| `MagusSim.InnerNameOfPlainName` | MagusSim/MakeMagusSim.py:20-25 | a plain name without '.' and '/' is kept whole |
| `MagusSim.DefaultName` | MagusSim/MakeMagusSim.py:59-61 | `make` stops with "INFILE appears to be a directory?" exactly when the path is empty or ends in '/' |
| `MagusSim.IncludeSplit` | MagusSim/MakeMagusSim.py:27-37 | an argument without ':' is all path; otherwise the destination is everything before the first ':' and the path at least one character after it, up to a newline |
| `MagusSim.IncludeSplitRoundTrip` | MagusSim/MakeMagusSim.py:27-37 | "dest:path" splits back into its two halves |
| `MagusSim.IncludeSplitEmptyPath` | MagusSim/MakeMagusSim.py:28-36 | "dest:" with nothing after the ':' names no destination and is all path |
| `MagusSim.Split` | MagusSim/MakeMagusSim.py:83 | `s.split(":")` gives at least one piece, none holding ':', and one piece exactly when there is no ':' |
| `MagusSim.SplitStep` | MagusSim/MakeMagusSim.py:83 | splitting cuts at the first ':' and splits the rest |
| `MagusSim.JoinSplit` | MagusSim/MakeMagusSim.py:83 | joining the pieces with ':' gives back the string |
| `MagusSim.SplitJoin` | MagusSim/MakeMagusSim.py:83 | colon-free pieces joined by ':' split back into the same pieces |
| `MagusSim.ParseInt` | MagusSim/MakeMagusSim.py:85-89 | `int()` accepts exactly an optional sign followed by decimal digits, and unsigned digits are never negative |
| `MagusSim.ShowInt` | MagusSim/MakeMagusSim.py:55 | the decimal text of an integer is non-empty and holds no ':' |
| `MagusSim.ParseIntShow` | MagusSim/MakeMagusSim.py:85-89 | `int(str(n)) == n` for every integer |
| `MagusSim.EventBytes` | MagusSim/MakeMagusSim.py:92 | the event is four bytes, the note being `n & 0x7F`, that is n modulo 128 |
| `MagusSim.EventIsNoteMessage` | MagusSim/MakeMagusSim.py:92 | the event is the packet `MidiMessage::note` builds on channel 0: a note-on at velocity 127 when on, a note-off otherwise |
| `MagusSim.TimedEvent` | MagusSim/MakeMagusSim.py:86-89 | the two- and three-part forms never give "Don't understand" |
| `MagusSim.ParseNoteSpec` | MagusSim/MakeMagusSim.py:82-92 | a note string is refused with "Don't understand" exactly when it has four or more parts, and a parsed event is four bytes with a 7-bit note |
| `MagusSim.ParseBareNote` | MagusSim/MakeMagusSim.py:84-85 | "N" is note N on at sample 0 |
| `MagusSim.ParseTimedNote` | MagusSim/MakeMagusSim.py:86-87 | "A:N" is note N on at sample A |
| `MagusSim.ParseFlaggedNote` | MagusSim/MakeMagusSim.py:88-89 | "A:N:F" is note N at sample A, on when F is nonzero and off when it is 0 |
| `MagusSim.ParseTooManyParts` | MagusSim/MakeMagusSim.py:90-91 | four or more parts are refused whatever they hold |
| `MagusSim.CollectNotes` | MagusSim/MakeMagusSim.py:80-92 | the loop yields every event in order exactly when every string parses, and otherwise stops at the first string that does not |
| `MagusSim.Registered` | MagusSim/MakeMagusSim.py:178-181 | `registerParameter(id)` grows the vector with zeros to `id + 1` entries, never shrinks it, and keeps the old values |
| `MagusSim.RegisteredIdempotent` | MagusSim/MakeMagusSim.py:178-181 | registering an id twice is registering it once |
| `MagusSim.RegisteredCommutes` | MagusSim/MakeMagusSim.py:178-181 | the order of registration does not matter; only the largest id decides the size |
| `MagusSim.SimPatch.constructor` | MagusSim/MakeMagusSim.py:176-177 | the parameter vector starts empty |
| `MagusSim.SimPatch.RegisterParameter` | MagusSim/MakeMagusSim.py:178-181 | the vector becomes `Registered` of the old one |
| `MagusSim.SimPatch.GetParameterValue` | MagusSim/MakeMagusSim.py:182 | the value read is the entry at the id |
| `MagusSim.SimPatch.SetParameterValue` | MagusSim/MakeMagusSim.py:183 | one entry is written and the rest stay |

## Left out

- Floating-point arithmetic: samples and parameter values are exact `real`s, so `float` rounding does not occur in the model, and `Saw4Patch.hpp`'s `roundf`/`fmodf`/`exp2` are not modelled.
- The oscillator period in the `startNote` of `MidiSquarePatch.hpp` (lines 35-38) and `MidiSquareDrunkPatch.hpp` (lines 43-46) is computed in floating point from the sample rate; the model takes the resulting 15-bit `max` as an input to the hook and checks only the integer fields.
- The CV voltage conversion of `Midi2CVTripletPatch.hpp` line 111 is floating point; the model states which note each CV output carries, not the voltage written.
- The `accum`/`timeStep` clock of `NanoKontrolTestPatch.hpp` (lines 62-66) is floating point; `ProcessAudio` takes whether the step is due as its `triggered` parameter.
- The sample rate and the block size come from the host: the block size is the shorter of the two channel arrays, and the sample rate does not enter any modelled computation.
- Screen rendering: the `processScreen` bodies of the note-stack base, `Midi2CVPatch.hpp`, `Midi2CVTripletPatch.hpp`, `MidiMonitorPatch.hpp`, `PureDelayPatch.hpp` and `NanoKontrolSeqPatch.hpp`, `printLeft`, and every screen API call. Only the characters they would print are modelled (`Display`, `Midi2CV.DigitChar`, `ScreenSaver`), and `ScreenSaver`'s choice of coordinates and frame counter.
- The uninitialised `matchValue` read by a NoteOff on an empty stack (`support/midiPatchBase.hpp` lines 56 and 94) is undefined in C++; the model passes the value read as the `indeterminate` parameter, so every outcome the hardware could show is covered.
- `PATCH_STEREO` (`MidiSquarePatch.hpp` lines 72-75) is a compile-time switch that is off in this repository; the model follows the build without it.
- `Midi2CVPatch.hpp`'s `processAudio` only zeroes both channels; it is not modelled separately (it does what `Audio.Silence` does).
- `Saw4Patch.hpp` is floating-point synthesis throughout, and `SilencePatch.hpp` only writes silence; neither is modelled.
- `support/midi.h` and `support/noteNames.h` hold only constants and the note-name table, which the model uses as data.
- `MagusSim/MagusSim.cpp` is an argument stub with no effect, and it is not part of this model.
- Simulator plumbing in `MagusSim/MakeMagusSim.py`: temporary directories, `os.path.abspath`, `makedirs`, file copying, the emitted template text, the `subprocess` compile, the generated driver's frame loop and `FloatArray::_clear` (which clears bytes).
- `MagusSim.IncludeSplit`: the path half is not passed through `os.path.abspath`, since the file system is outside the model.
- `MagusSim.ParseInt`: Python's `int()` also accepts surrounding white space, `_` between digits and non-ASCII digits; the model accepts an optional sign and ASCII digits only.
- `ccDb` in `NanoKontrolSeqPatch.hpp` is a global array; the model makes it a field of the patch object, built by the constructor, since only that constructor writes it.
- Host calls (`registerParameter`, `setParameterValue`, `sendMidi`, `getParameterValue`) are recorded in the patch's `hostLog` or passed as parameters; what the host does with them is outside the model.
- `MidiSquareDrunk.MidiSquareDrunkPatch.ProcessAudio`: requires that every sample of the block selects a slot inside `midiPhase`. With a full stack the selection written in the source can reach `MIDI_MAXDOWN` and the C++ reads past the array, which the model cannot express (see Findings; `MidiSquareDrunk.InBoundsBelowFullStack` shows that a stack below full always meets the requirement).
- `PureDelay.PureDelayPatch.ProcessAudio`: requires the read position `writePtr - backLook() - size + BUFSIZE` to be non-negative, which holds for every block the host delivers (`size <= BUFSIZE - BACK_LOOK`); a longer block would make the C++ `%` of a negative index read outside `history`.
- `MidiSquare.AdvanceStaysInPeriod`: requires a period `max` of at least `PHASE_RADIX` and below 2^15 - `PHASE_RADIX`, so that the 15-bit sum does not wrap; the 15-bit wrap-around itself is modelled in `Advance`.

## Findings

| source | as written | input that shows it | evidently intended | confidence | as-written member | corrected member |
|---|---|---|---|---|---|---|
| MagusSim/MakeMagusSim.py:343-345 | `getProgramChange` returns `data[1]`, the status byte | `pc(0, 5).getProgramChange()` is 0xC0, not 5 | return `data[2]`, the program number that `pc` stores | medium, not executed | `MidiMessages.ProgramChangeReadsStatus` | `MidiMessages.ProgramNumberRoundTrip` |
| support/display.h:28-33 | `octaveChar` prints `'0' + note / 12`, while its `'-'` branch stands for octave -1 | middle C (note 60) prints '5', but `MIDDLEC_OCTAVE` is 4 | `'0' - 1 + note / 12`, as `digitChar` in `support/midiPatchBase.hpp` computes | medium, not executed | `Display.OctaveCharMiddleC` | `Display.OctaveDigitMiddleC` |
| Midi2CVPatch.hpp:37-42 | `digitChar` tests `note == 0` rather than `octave == 0` | note 5 prints '/', one below '0' | test the octave, printing '-' for notes 0-11 | high, not executed | `Midi2CV.DigitCharLowOctave` | `Midi2CV.DigitCharAgreesAboveLowestOctave` |
| MidiSquareDrunkPatch.hpp:35-39 | `nextNote` wraps only once `phaseSelected > downCount` | with the full 31 notes held and selection 30, the selection becomes 31 and the next sample reads `midiPhase[31]`, past the array | wrap once `phaseSelected >= downCount` | high, not executed | `MidiSquareDrunk.NextNoteLeavesArray` | `MidiSquareDrunk.NextNoteWithinStackCycles` |

The corrected definitions are `MidiMessage.GetProgramNumber`, `Display.OctaveDigit` and `MidiSquareDrunk.NextNoteWithinStack`. The screens that would print the octave characters are outside the model. The Drunk patch class keeps `nextNote` as the source writes it because that is the behaviour the repository ships; the corrected selection is stated and proved beside it, and the class's `ProcessAudio` requires the selection to stay inside the stack.
