/**
 * The calls a patch makes into the OWL host: registering and setting
 * parameters and sending MIDI. The host itself is not part of this model;
 * a patch keeps the calls it has made, in order, as a log.
 */
module Host {
  import MidiMessages

  /** A `PatchParameterId`: the host numbers parameters with 32-bit values. */
  type ParameterId = bv32

  /** `(PatchParameterId)c` for c in 0..15: the parameters the nanoKONTROL patches register. */
  const ParameterIds: seq<ParameterId> := [0, 1, 2, 3, 4, 5, 6, 7, 8, 9, 10, 11, 12, 13, 14, 15]

  datatype HostCall =
    | RegisterParameter(id: ParameterId, name: string)
    | SetParameterValue(id: ParameterId, value: real)
    | SendMidi(msg: MidiMessages.MidiMessage)
}
