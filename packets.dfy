/**
 * The decoded messages that the BioHarness packet handler, the signal
 * analysis and the measurement collector consume.  The payload decoders that
 * build them (`SignalPacket`, `SummaryMessage` in zephyr/message.py) are not
 * part of this model; only the fields the modelled code reads are kept.
 */
module Packets {

  /** One sample: a number, or an (x, y, z) triple for acceleration packets. */
  datatype Sample = Scalar(value: real) | Axes(x: real, y: real, z: real)

  /**
   * A signal packet: its stream type ("breathing", "ecg", "rr",
   * "acceleration"), the device timestamp of its first sample, the
   * samplerate, the samples and the device's mod-256 sequence number.
   */
  datatype SignalPacket = SignalPacket(
    kind: string,
    timestamp: real,
    samplerate: real,
    samples: seq<Sample>,
    sequenceNumber: int)

  /** The fields of a summary message that the packet handler forwards. */
  datatype SummaryMessage = SummaryMessage(
    timestamp: real,
    heartRate: real,
    respirationRate: real,
    activity: real)

  /** What the payload parser hands to the packet handler. */
  datatype Packet = Signal(signal: SignalPacket) | Summary(summary: SummaryMessage) | OtherMessage

  /** An event value: the `(timestamp, value)` tuple of the source. */
  datatype TimedValue = TimedValue(timestamp: real, value: real)

  /** An event callback invocation `event_callback(name, (timestamp, value))`. */
  datatype NamedEvent = NamedEvent(name: string, event: TimedValue)

  predicate AllScalar(samples: seq<Sample>)
  {
    forall i :: 0 <= i < |samples| ==> samples[i].Scalar?
  }
}
