/**
  The radio packet vocabulary of the gateway: node addresses and the sensor-type
  tags a remote node puts in front of each 4-byte value (iot.cpp, lines 21-28).
 */
module Protocol {
  /** One octet of a frame (`uint8_t`). */
  type byte = bv8

  const TempId: byte := 0
  const IrId: byte := 1
  const MicrophoneAudioId: byte := 2
  const MicrophoneEnvelId: byte := 3
  const Co2Id: byte := 4

  /** The first remote node; every other sender is treated as the second one. */
  const Trinket1Id: byte := 2
  const Trinket2Id: byte := 3

  /** The tags the decoder probes for. MICROPHONE_AUDIO_ID is declared by the
      protocol but no probe tests for it, so it has no constructor here. */
  datatype Tag = Temp | Ir | MicEnvel | Co2

  /** The fixed order in which the decoder probes the tags, once each. */
  const ProbeOrder: seq<Tag> := [Temp, Ir, MicEnvel, Co2]

  /** The byte that announces a value of the given sensor type. */
  function TagId(t: Tag): (id: byte)
    ensures id != MicrophoneAudioId && id <= Co2Id
    ensures id == TempId <==> t == Temp
  {
    match t
    case Temp => TempId
    case Ir => IrId
    case MicEnvel => MicrophoneEnvelId
    case Co2 => Co2Id
  }

  /** Position of a tag in the probe order. */
  function Rank(t: Tag): (k: nat)
    ensures k < |ProbeOrder| && ProbeOrder[k] == t
  {
    match t
    case Temp => 0
    case Ir => 1
    case MicEnvel => 2
    case Co2 => 3
  }

  /** Distinct tags announce themselves with distinct bytes. */
  lemma TagIdInjective(s: Tag, t: Tag)
    ensures TagId(s) == TagId(t) <==> s == t
  {
  }
}
