/**
 * zephyr/bioharness.py: the packet handler that tracks per-type sequence
 * numbers, corrects timestamps and dispatches packets to callbacks, and the
 * RR analysis that turns RR samples into heartbeat-interval events.
 *
 * Callbacks are modelled as output sequences on the objects: every
 * registered callback receives the same invocations, in this order.  The
 * clock-difference estimator is not part of the model: the value it returns
 * for a packet is a parameter of `HandlePacket`.
 */
module BioHarness {
  import opened Wrappers
  import opened Packets
  import opened RrEvent

  const DEFAULT_SEQUENCE_NUMBER_WRAPAROUND: nat := 256

  /** The number expected after `previous`, if there was one. */
  function NextExpected(previous: Option<int>, wraparound: nat): (r: Option<int>)
    requires wraparound > 0
    ensures r.Some? <==> previous.Some?
    ensures r.Some? ==> 0 <= r.value < wraparound
    ensures previous.Some? && 0 <= previous.value < wraparound - 1 ==> r == Some(previous.value + 1)
    ensures previous == Some(wraparound - 1) ==> r == Some(0)
  {
    if previous.Some? then Some((previous.value + 1) % wraparound) else None
  }

  /** `get_expected_sequence_number(packet_type)` for the stored numbers `sequenceNumbers`. */
  function ExpectedSequenceNumber(sequenceNumbers: map<string, int>, kind: string, wraparound: nat): (r: Option<int>)
    requires wraparound > 0
    ensures r.None? <==> kind !in sequenceNumbers
    ensures r.Some? ==> 0 <= r.value < wraparound
    ensures kind in sequenceNumbers && 0 <= sequenceNumbers[kind] < wraparound - 1 ==>
      r == Some(sequenceNumbers[kind] + 1)
    ensures kind in sequenceNumbers && sequenceNumbers[kind] == wraparound - 1 ==> r == Some(0)
  {
    NextExpected(if kind in sequenceNumbers then Some(sequenceNumbers[kind]) else None, wraparound)
  }

  /** A packet starts a new stream iff a number was expected and another one arrived. */
  predicate StartsNewStream(expected: Option<int>, received: int)
  {
    expected.Some? && expected.value != received
  }

  /**
   * The `starts_new_stream` flags of consecutive packets of one type with
   * the given sequence numbers, when `previous` was stored before them.
   */
  function ContinuityFlags(previous: Option<int>, numbers: seq<int>, wraparound: nat): (flags: seq<bool>)
    requires wraparound > 0
    ensures |flags| == |numbers|
    decreases |numbers|
  {
    if numbers == [] then []
    else [StartsNewStream(NextExpected(previous, wraparound), numbers[0])] +
         ContinuityFlags(Some(numbers[0]), numbers[1..], wraparound)
  }

  /** The number stored before packet `i` is the previous packet's number. */
  function StoredBefore(previous: Option<int>, numbers: seq<int>, i: nat): Option<int>
    requires i <= |numbers|
  {
    if i == 0 then previous else Some(numbers[i - 1])
  }

  /**
   * Packet `i` is flagged iff a number had been stored before it and
   * `numbers[i]` is not that number plus one, modulo the wraparound.
   */
  lemma {:induction false} ContinuityFlagsAt(previous: Option<int>, numbers: seq<int>, wraparound: nat, i: nat)
    requires wraparound > 0 && i < |numbers|
    ensures ContinuityFlags(previous, numbers, wraparound)[i] <==>
      StoredBefore(previous, numbers, i).Some? &&
      numbers[i] != (StoredBefore(previous, numbers, i).value + 1) % wraparound
    decreases i
  {
    if i > 0 {
      ContinuityFlagsAt(Some(numbers[0]), numbers[1..], wraparound, i - 1);
    }
  }

  /** Numbers that count up modulo the wraparound are never a discontinuity. */
  lemma ConsecutiveNumbersNeverFlag(previous: Option<int>, numbers: seq<int>, wraparound: nat)
    requires wraparound > 0
    requires forall i :: 0 < i < |numbers| ==> numbers[i] == (numbers[i - 1] + 1) % wraparound
    requires previous.Some? && |numbers| > 0 ==> numbers[0] == (previous.value + 1) % wraparound
    ensures forall i :: 0 <= i < |numbers| ==> !ContinuityFlags(previous, numbers, wraparound)[i]
  {
    forall i | 0 <= i < |numbers|
      ensures !ContinuityFlags(previous, numbers, wraparound)[i]
    {
      ContinuityFlagsAt(previous, numbers, wraparound, i);
    }
  }

  /** With the default wraparound, 254, 255, 0, 1 after 253 is one stream. */
  lemma WrapAroundIsContinuous()
    ensures ContinuityFlags(Some(253), [254, 255, 0, 1], DEFAULT_SEQUENCE_NUMBER_WRAPAROUND) ==
      [false, false, false, false]
  {
    ConsecutiveNumbersNeverFlag(Some(253), [254, 255, 0, 1], DEFAULT_SEQUENCE_NUMBER_WRAPAROUND);
  }

  /** 0, 1, 5 for a new type is flagged exactly at the 5. */
  lemma GapIsFlaggedOnce()
    ensures ContinuityFlags(None, [0, 1, 5], DEFAULT_SEQUENCE_NUMBER_WRAPAROUND) == [false, false, true]
  {
    var numbers := [0, 1, 5];
    ContinuityFlagsAt(None, numbers, DEFAULT_SEQUENCE_NUMBER_WRAPAROUND, 0);
    ContinuityFlagsAt(None, numbers, DEFAULT_SEQUENCE_NUMBER_WRAPAROUND, 1);
    ContinuityFlagsAt(None, numbers, DEFAULT_SEQUENCE_NUMBER_WRAPAROUND, 2);
  }

  /** `get_message_end_timestamp`: the device time of the packet's last sample. */
  function MessageEndTimestamp(packet: SignalPacket): (r: real)
    requires packet.samplerate != 0.0
    ensures |packet.samples| == 1 ==> r == packet.timestamp
    ensures packet.samplerate > 0.0 && |packet.samples| >= 1 ==> packet.timestamp <= r
    ensures (r - packet.timestamp) * packet.samplerate == (|packet.samples| - 1) as real
  {
    packet.timestamp + (|packet.samples| - 1) as real / packet.samplerate
  }

  /**
   * The packet the signal callbacks receive: only the timestamp replaced, by
   * the same shift the estimator applied to the end timestamp.
   */
  function CorrectedPacket(packet: SignalPacket, correctedEndTimestamp: real): (r: SignalPacket)
    requires packet.samplerate != 0.0
    ensures r.kind == packet.kind && r.samplerate == packet.samplerate
    ensures r.samples == packet.samples && r.sequenceNumber == packet.sequenceNumber
    ensures MessageEndTimestamp(r) == correctedEndTimestamp
  {
    packet.(timestamp := packet.timestamp + correctedEndTimestamp - MessageEndTimestamp(packet))
  }

  /** The three events of a summary message, in the order they are sent. */
  function SummaryEvents(summary: SummaryMessage, correctedTimestamp: real): (r: seq<NamedEvent>)
    ensures |r| == 3
    ensures r[0] == NamedEvent("activity", TimedValue(correctedTimestamp, summary.activity))
    ensures r[1] == NamedEvent("heart_rate", TimedValue(correctedTimestamp, summary.heartRate))
    ensures r[2] == NamedEvent("respiration_rate", TimedValue(correctedTimestamp, summary.respirationRate))
  {
    [NamedEvent("activity", TimedValue(correctedTimestamp, summary.activity)),
     NamedEvent("heart_rate", TimedValue(correctedTimestamp, summary.heartRate)),
     NamedEvent("respiration_rate", TimedValue(correctedTimestamp, summary.respirationRate))]
  }

  /** A signal callback invocation `signal_callback(packet, starts_new_stream)`. */
  datatype SignalCall = SignalCall(packet: SignalPacket, startsNewStream: bool)

  /** Signal packets the handler can process: the end timestamp divides by the samplerate. */
  predicate Processable(packet: Packet)
  {
    packet.Signal? ==> packet.signal.samplerate != 0.0
  }

  class BioHarnessPacketHandler {
    const sequenceNumberWraparound: nat
    /** `sequence_numbers`: the last number received, per packet type. */
    var sequenceNumbers: map<string, int>
    /** The invocations of the signal callbacks. */
    var signalCalls: seq<SignalCall>
    /** The invocations of the event callbacks. */
    var eventCalls: seq<NamedEvent>

    constructor (sequenceNumberWraparound: nat)
      requires sequenceNumberWraparound > 0
      ensures this.sequenceNumberWraparound == sequenceNumberWraparound
      ensures sequenceNumbers == map[] && signalCalls == [] && eventCalls == []
    {
      this.sequenceNumberWraparound := sequenceNumberWraparound;
      sequenceNumbers := map[];
      signalCalls := [];
      eventCalls := [];
    }

    /** `get_expected_sequence_number`, reading the stored numbers. */
    method GetExpectedSequenceNumber(kind: string) returns (expected: Option<int>)
      requires sequenceNumberWraparound > 0
      ensures expected == ExpectedSequenceNumber(sequenceNumbers, kind, sequenceNumberWraparound)
    {
      if kind in sequenceNumbers {
        expected := Some((sequenceNumbers[kind] + 1) % sequenceNumberWraparound);
      } else {
        expected := None;
      }
    }

    /**
     * `handle_packet(packet)`; `estimate` is what the clock-difference
     * estimator returns for this packet (for a signal packet, the corrected
     * end timestamp; for a summary message, the corrected timestamp).
     */
    method HandlePacket(packet: Packet, estimate: real)
      requires sequenceNumberWraparound > 0 && Processable(packet)
      modifies this
      ensures packet.Signal? ==>
        var p := packet.signal;
        && sequenceNumbers == old(sequenceNumbers)[p.kind := p.sequenceNumber]
        && signalCalls == old(signalCalls) + [SignalCall(CorrectedPacket(p, estimate),
             StartsNewStream(ExpectedSequenceNumber(old(sequenceNumbers), p.kind, sequenceNumberWraparound),
                             p.sequenceNumber))]
        && eventCalls == old(eventCalls)
      ensures packet.Summary? ==>
        && eventCalls == old(eventCalls) + SummaryEvents(packet.summary, estimate)
        && sequenceNumbers == old(sequenceNumbers) && signalCalls == old(signalCalls)
      ensures packet.OtherMessage? ==>
        sequenceNumbers == old(sequenceNumbers) && signalCalls == old(signalCalls) && eventCalls == old(eventCalls)
    {
      match packet {
        case Signal(p) =>
          var expected := GetExpectedSequenceNumber(p.kind);
          sequenceNumbers := sequenceNumbers[p.kind := p.sequenceNumber];
          var startsNewStream := expected.Some? && expected.value != p.sequenceNumber;
          var endTimestamp := MessageEndTimestamp(p);
          var correctedTimestamp := p.timestamp + estimate - endTimestamp;
          var corrected := p.(timestamp := correctedTimestamp);
          signalCalls := signalCalls + [SignalCall(corrected, startsNewStream)];
        case Summary(s) =>
          eventCalls := eventCalls + [NamedEvent("activity", TimedValue(estimate, s.activity))];
          eventCalls := eventCalls + [NamedEvent("heart_rate", TimedValue(estimate, s.heartRate))];
          eventCalls := eventCalls + [NamedEvent("respiration_rate", TimedValue(estimate, s.respirationRate))];
        case OtherMessage =>
      }
    }
  }

  /** The numeric values of RR samples. */
  function RrValues(samples: seq<Sample>): (values: seq<real>)
    requires AllScalar(samples)
    ensures |values| == |samples|
    ensures forall i :: 0 <= i < |samples| ==> values[i] == samples[i].value
  {
    if samples == [] then [] else [samples[0].value] + RrValues(samples[1..])
  }

  /** Sample `i` of an RR packet gives a heartbeat-interval event. */
  predicate IsHeartbeat(latest: int, packet: SignalPacket, startsNewStream: bool, i: nat)
    requires AllScalar(packet.samples) && i < |packet.samples|
  {
    ChangesSign(latest, RrValues(packet.samples), i) && !(i == 0 && startsNewStream)
  }

  /** The event for sample `i`: its time in the packet and the RR interval `|value|`. */
  function HeartbeatEvent(packet: SignalPacket, i: nat): NamedEvent
    requires AllScalar(packet.samples) && packet.samplerate != 0.0 && i < |packet.samples|
  {
    NamedEvent("heartbeat_interval",
      TimedValue(packet.timestamp + i as real / packet.samplerate, Abs(packet.samples[i].value)))
  }

  /** The events the first `k` samples of an RR packet give. */
  function HeartbeatsUpTo(latest: int, packet: SignalPacket, startsNewStream: bool, k: nat): seq<NamedEvent>
    requires AllScalar(packet.samples) && packet.samplerate != 0.0 && k <= |packet.samples|
  {
    if k == 0 then []
    else
      var event := if IsHeartbeat(latest, packet, startsNewStream, k - 1) then [HeartbeatEvent(packet, k - 1)] else [];
      HeartbeatsUpTo(latest, packet, startsNewStream, k - 1) + event
  }

  function Heartbeats(latest: int, packet: SignalPacket, startsNewStream: bool): seq<NamedEvent>
    requires AllScalar(packet.samples) && packet.samplerate != 0.0
  {
    HeartbeatsUpTo(latest, packet, startsNewStream, |packet.samples|)
  }

  /**
   * An event is sent for sample `i` iff its sign differs from the sign
   * recorded before it, except for the first sample of a new stream.
   */
  lemma {:induction false} HeartbeatsUpToMembership(latest: int, packet: SignalPacket, startsNewStream: bool, k: nat, e: NamedEvent)
    requires AllScalar(packet.samples) && packet.samplerate != 0.0 && k <= |packet.samples|
    ensures e in HeartbeatsUpTo(latest, packet, startsNewStream, k) <==>
      exists i :: 0 <= i < k && IsHeartbeat(latest, packet, startsNewStream, i) && e == HeartbeatEvent(packet, i)
  {
    if k > 0 {
      HeartbeatsUpToMembership(latest, packet, startsNewStream, k - 1, e);
    }
  }

  lemma HeartbeatsMembership(latest: int, packet: SignalPacket, startsNewStream: bool, e: NamedEvent)
    requires AllScalar(packet.samples) && packet.samplerate != 0.0
    ensures e in Heartbeats(latest, packet, startsNewStream) <==>
      exists i :: 0 <= i < |packet.samples| && IsHeartbeat(latest, packet, startsNewStream, i) &&
        e == HeartbeatEvent(packet, i)
  {
    HeartbeatsUpToMembership(latest, packet, startsNewStream, |packet.samples|, e);
  }

  /** Every heartbeat event is named "heartbeat_interval" and carries a non-negative interval. */
  lemma {:induction false} HeartbeatsUpToWellFormed(latest: int, packet: SignalPacket, startsNewStream: bool, k: nat)
    requires AllScalar(packet.samples) && packet.samplerate != 0.0 && k <= |packet.samples|
    ensures forall j :: 0 <= j < |HeartbeatsUpTo(latest, packet, startsNewStream, k)| ==>
      var e := HeartbeatsUpTo(latest, packet, startsNewStream, k)[j];
      e.name == "heartbeat_interval" && e.event.value >= 0.0
  {
    if k > 0 {
      HeartbeatsUpToWellFormed(latest, packet, startsNewStream, k - 1);
    }
  }

  /** Event times strictly increase and lie in `[lo, hi)`. */
  ghost predicate TimesWithin(es: seq<NamedEvent>, lo: real, hi: real)
  {
    && (forall i, j :: 0 <= i < j < |es| ==> es[i].event.timestamp < es[j].event.timestamp)
    && (forall i :: 0 <= i < |es| ==> lo <= es[i].event.timestamp < hi)
  }

  /**
   * With a positive samplerate the heartbeat events of a packet have strictly
   * increasing timestamps, all within the time the packet's samples span.
   */
  lemma {:induction false} HeartbeatsUpToOrdered(latest: int, packet: SignalPacket, startsNewStream: bool, k: nat)
    requires AllScalar(packet.samples) && packet.samplerate > 0.0 && k <= |packet.samples|
    ensures TimesWithin(HeartbeatsUpTo(latest, packet, startsNewStream, k),
                        packet.timestamp, packet.timestamp + k as real / packet.samplerate)
  {
    if k > 0 {
      HeartbeatsUpToOrdered(latest, packet, startsNewStream, k - 1);
      var lo := packet.timestamp;
      var mid := packet.timestamp + (k - 1) as real / packet.samplerate;
      var hi := packet.timestamp + k as real / packet.samplerate;
      DivStrictlyMonotone((k - 1) as real, k as real, packet.samplerate);
      assert lo <= mid < hi;
      var prev := HeartbeatsUpTo(latest, packet, startsNewStream, k - 1);
      var es := HeartbeatsUpTo(latest, packet, startsNewStream, k);
      var event := if IsHeartbeat(latest, packet, startsNewStream, k - 1) then [HeartbeatEvent(packet, k - 1)] else [];
      assert es == prev + event;
      assert forall e :: e in event ==> e.event.timestamp == mid;
      forall i | 0 <= i < |prev|
        ensures es[i] == prev[i] && es[i].event.timestamp < mid
      {
      }
    }
  }

  lemma HeartbeatsOrdered(latest: int, packet: SignalPacket, startsNewStream: bool)
    requires AllScalar(packet.samples) && packet.samplerate > 0.0
    ensures TimesWithin(Heartbeats(latest, packet, startsNewStream),
                        packet.timestamp, packet.timestamp + |packet.samples| as real / packet.samplerate)
  {
    HeartbeatsUpToOrdered(latest, packet, startsNewStream, |packet.samples|);
  }

  /** Whether a packet is analysed: RR packets only. */
  predicate IsRr(packet: SignalPacket)
  {
    packet.kind == "rr"
  }

  class BioHarnessSignalAnalysis {
    /** `latest_rr_value_sign`: the sign of the last RR sample seen. */
    var latestRrValueSign: int
    /** The invocations of the event callbacks. */
    var eventCalls: seq<NamedEvent>

    constructor ()
      ensures latestRrValueSign == 0 && eventCalls == []
    {
      latestRrValueSign := 0;
      eventCalls := [];
    }

    /** `handle_signal(signal_packet, starts_new_stream)`. */
    method HandleSignal(packet: SignalPacket, startsNewStream: bool)
      requires IsRr(packet) ==> AllScalar(packet.samples) && packet.samplerate != 0.0
      modifies this
      ensures !IsRr(packet) ==> latestRrValueSign == old(latestRrValueSign) && eventCalls == old(eventCalls)
      ensures IsRr(packet) ==>
        && eventCalls == old(eventCalls) + Heartbeats(old(latestRrValueSign), packet, startsNewStream)
        && latestRrValueSign == SignBefore(old(latestRrValueSign), RrValues(packet.samples), |packet.samples|)
    {
      if packet.kind == "rr" {
        ghost var latest := latestRrValueSign;
        ghost var before := eventCalls;
        ghost var values := RrValues(packet.samples);
        for sampleNumber := 0 to |packet.samples|
          invariant latestRrValueSign == SignBefore(latest, values, sampleNumber)
          invariant eventCalls == before + HeartbeatsUpTo(latest, packet, startsNewStream, sampleNumber)
        {
          var rrValue := packet.samples[sampleNumber].value;
          var signalDiscontinuity := sampleNumber == 0 && startsNewStream;
          var rrValueSign := Sign(rrValue);
          if rrValueSign != latestRrValueSign && !signalDiscontinuity {
            var heartbeatInterval := Abs(rrValue);
            var heartbeatIntervalTimestamp := packet.timestamp + sampleNumber as real / packet.samplerate;
            eventCalls := eventCalls + [NamedEvent("heartbeat_interval", TimedValue(heartbeatIntervalTimestamp, heartbeatInterval))];
          }
          latestRrValueSign := rrValueSign;
        }
      }
    }
  }
}
