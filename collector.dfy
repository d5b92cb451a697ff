/**
 * zephyr/collector.py: the measurement collector that accumulates signal
 * packets into per-type sample streams and events into named lists.
 *
 * The Python exceptions the collector can raise are modelled as error
 * results: a `del` of a missing stream type (KeyError), a samplerate that
 * differs from the stream's (AssertionError), an unregistered event list
 * (KeyError) and a second registration of a list (AssertionError).  In each
 * case the exception is raised before anything is changed, and the model
 * leaves the state unchanged.
 */
module Collector {
  import opened Wrappers
  import opened Packets

  datatype CollectorError = MissingStream | SamplerateMismatch | UnknownEventStream | DuplicateEventStream

  /** The value of a `SignalStream`: its fixed samplerate, its samples and its end timestamp. */
  datatype StreamState = StreamState(samplerate: real, samples: seq<Sample>, endTimestamp: real)

  /** `end_timestamp` as `append_signal_packet` sets it: from the appended packet alone. */
  function PacketEndTimestamp(packet: SignalPacket): (r: real)
    requires packet.samplerate != 0.0
    ensures |packet.samples| == 0 ==> r == packet.timestamp
    ensures packet.samplerate > 0.0 ==> packet.timestamp <= r
    ensures r - |packet.samples| as real / packet.samplerate == packet.timestamp
  {
    packet.timestamp + |packet.samples| as real / packet.samplerate
  }

  /** The stream after a successful `append_signal_packet(packet)`. */
  function AppendPacket(s: StreamState, packet: SignalPacket): (r: StreamState)
    requires packet.samplerate != 0.0
    ensures r.samplerate == s.samplerate
    ensures |r.samples| == |s.samples| + |packet.samples|
    ensures r.samples[..|s.samples|] == s.samples && r.samples[|s.samples|..] == packet.samples
  {
    StreamState(s.samplerate, s.samples + packet.samples, PacketEndTimestamp(packet))
  }

  /** `SignalStream(packet)`: the packet's samplerate, then one append of the packet. */
  function NewStream(packet: SignalPacket): (r: StreamState)
    requires packet.samplerate != 0.0
    ensures r.samplerate == packet.samplerate && r.samples == packet.samples
  {
    AppendPacket(StreamState(packet.samplerate, [], 0.0), packet)
  }

  /** `start_timestamp`: the end timestamp less the duration of all samples. */
  function StartTimestamp(s: StreamState): real
    requires s.samplerate != 0.0
  {
    s.endTimestamp - |s.samples| as real / s.samplerate
  }

  /** All samples of a sequence of packets, in order. */
  function ConcatSamples(packets: seq<SignalPacket>): seq<Sample>
  {
    if packets == [] then [] else packets[0].samples + ConcatSamples(packets[1..])
  }

  predicate AllAt(packets: seq<SignalPacket>, samplerate: real)
  {
    forall i :: 0 <= i < |packets| ==> packets[i].samplerate == samplerate
  }

  /** Appending `packets` in order. */
  function AppendAll(s: StreamState, packets: seq<SignalPacket>): StreamState
    requires s.samplerate != 0.0 && AllAt(packets, s.samplerate)
    decreases |packets|
  {
    if packets == [] then s else AppendAll(AppendPacket(s, packets[0]), packets[1..])
  }

  /** Append-only: the stream holds its old samples followed by every appended packet's samples. */
  lemma {:induction false} AppendAllSamples(s: StreamState, packets: seq<SignalPacket>)
    requires s.samplerate != 0.0 && AllAt(packets, s.samplerate)
    ensures AppendAll(s, packets).samplerate == s.samplerate
    ensures AppendAll(s, packets).samples == s.samples + ConcatSamples(packets)
    decreases |packets|
  {
    if packets == [] {
      assert s.samples + [] == s.samples;
    } else {
      var t := AppendPacket(s, packets[0]);
      assert AllAt(packets[1..], s.samplerate);
      AppendAllSamples(t, packets[1..]);
      assert s.samples + ConcatSamples(packets) == t.samples + ConcatSamples(packets[1..]);
    }
  }

  /** The end timestamp is that of the last packet appended; no packets change nothing. */
  lemma {:induction false} AppendAllEnd(s: StreamState, packets: seq<SignalPacket>)
    requires s.samplerate != 0.0 && AllAt(packets, s.samplerate)
    ensures packets != [] ==> AppendAll(s, packets).endTimestamp == PacketEndTimestamp(packets[|packets| - 1])
    ensures packets == [] ==> AppendAll(s, packets) == s
    decreases |packets|
  {
    if packets != [] {
      var t := AppendPacket(s, packets[0]);
      var rest := packets[1..];
      assert AllAt(rest, s.samplerate);
      AppendAllEnd(t, rest);
      if rest != [] {
        assert rest[|rest| - 1] == packets[|packets| - 1];
      }
    }
  }

  /** A stream made from one packet starts at that packet's timestamp. */
  lemma NewStreamStartsAtPacket(packet: SignalPacket)
    requires packet.samplerate != 0.0
    ensures StartTimestamp(NewStream(packet)) == packet.timestamp
  {
  }

  /**
   * The stream `handle_signal` creates holds the packet's samples twice, so
   * its start timestamp lies one packet duration before the packet's.
   */
  lemma FirstPacketCountedTwice(packet: SignalPacket)
    requires packet.samplerate > 0.0 && |packet.samples| > 0
    ensures AppendPacket(NewStream(packet), packet).samples == packet.samples + packet.samples
    ensures StartTimestamp(AppendPacket(NewStream(packet), packet)) ==
      packet.timestamp - |packet.samples| as real / packet.samplerate
    ensures StartTimestamp(AppendPacket(NewStream(packet), packet)) < packet.timestamp
  {
    var n := |packet.samples| as real;
    var sr := packet.samplerate;
    assert (n + n) / sr == n / sr + n / sr;
    assert n / sr > 0.0;
  }

  /** The error `handle_signal` raises, if any, and the streams afterwards. */
  datatype SignalOutcome = SignalOutcome(err: Option<CollectorError>, streams: map<string, StreamState>)

  /**
   * Whether `handle_signal` creates a stream: after the `del` of a new
   * stream's predecessor, or for a type without a stream.
   */
  predicate CreatesStream(streams: map<string, StreamState>, packet: SignalPacket, startsNewStream: bool)
  {
    startsNewStream == (packet.kind in streams)
  }

  /**
   * `handle_signal` on stream values, as written.  Only the entry of the
   * packet's type can change; a `del` of a missing type and a samplerate
   * mismatch change nothing.
   */
  function SignalUpdate(streams: map<string, StreamState>, packet: SignalPacket, startsNewStream: bool): (r: SignalOutcome)
    requires packet.samplerate != 0.0
    ensures r.err == Some(MissingStream) <==> startsNewStream && packet.kind !in streams
    ensures r.err == Some(SamplerateMismatch) <==>
      !startsNewStream && packet.kind in streams && streams[packet.kind].samplerate != packet.samplerate
    ensures r.err.Some? ==> r.streams == streams
    ensures r.err.None? ==> r.streams.Keys == streams.Keys + {packet.kind}
    ensures forall k :: k in streams && k != packet.kind ==> r.streams[k] == streams[k]
    ensures r.err.None? && !CreatesStream(streams, packet, startsNewStream) ==>
      r.streams[packet.kind].samples == streams[packet.kind].samples + packet.samples &&
      r.streams[packet.kind].samplerate == streams[packet.kind].samplerate
    ensures CreatesStream(streams, packet, startsNewStream) ==>
      r.err.None? && r.streams[packet.kind].samples == packet.samples + packet.samples &&
      r.streams[packet.kind].samplerate == packet.samplerate
  {
    var kind := packet.kind;
    if startsNewStream && kind !in streams then SignalOutcome(Some(MissingStream), streams)
    else if !startsNewStream && kind in streams then
      if streams[kind].samplerate != packet.samplerate then SignalOutcome(Some(SamplerateMismatch), streams)
      else SignalOutcome(None, streams[kind := AppendPacket(streams[kind], packet)])
    else SignalOutcome(None, streams[kind := AppendPacket(NewStream(packet), packet)])
  }

  /** The same with a created stream holding the first packet once. */
  function SignalUpdateOnce(streams: map<string, StreamState>, packet: SignalPacket, startsNewStream: bool): (r: SignalOutcome)
    requires packet.samplerate != 0.0
    ensures r.err == Some(MissingStream) <==> startsNewStream && packet.kind !in streams
    ensures r.err == Some(SamplerateMismatch) <==>
      !startsNewStream && packet.kind in streams && streams[packet.kind].samplerate != packet.samplerate
    ensures r.err.Some? ==> r.streams == streams
    ensures r.err.None? ==> r.streams.Keys == streams.Keys + {packet.kind}
    ensures forall k :: k in streams && k != packet.kind ==> r.streams[k] == streams[k]
    ensures r.err.None? && !CreatesStream(streams, packet, startsNewStream) ==>
      r.streams[packet.kind].samples == streams[packet.kind].samples + packet.samples &&
      r.streams[packet.kind].samplerate == streams[packet.kind].samplerate
    ensures CreatesStream(streams, packet, startsNewStream) ==>
      r.err.None? && r.streams[packet.kind].samples == packet.samples &&
      r.streams[packet.kind].samplerate == packet.samplerate &&
      StartTimestamp(r.streams[packet.kind]) == packet.timestamp
  {
    var kind := packet.kind;
    if startsNewStream && kind !in streams then SignalOutcome(Some(MissingStream), streams)
    else if !startsNewStream && kind in streams then
      if streams[kind].samplerate != packet.samplerate then SignalOutcome(Some(SamplerateMismatch), streams)
      else SignalOutcome(None, streams[kind := AppendPacket(streams[kind], packet)])
    else SignalOutcome(None, streams[kind := NewStream(packet)])
  }

  class SignalStream {
    const samplerate: real
    var samples: seq<Sample>
    var endTimestamp: real

    function State(): StreamState
      reads this
    {
      StreamState(samplerate, samples, endTimestamp)
    }

    /** `SignalStream(signal_packet)`. */
    constructor (packet: SignalPacket)
      requires packet.samplerate != 0.0
      ensures State() == NewStream(packet)
    {
      samplerate := packet.samplerate;
      samples := [];
      endTimestamp := 0.0;
      new;
      var err := AppendSignalPacket(packet);
    }

    /** `append_signal_packet(signal_packet)`. */
    method AppendSignalPacket(packet: SignalPacket) returns (err: Option<CollectorError>)
      requires packet.samplerate != 0.0
      modifies this
      ensures packet.samplerate != samplerate ==> err == Some(SamplerateMismatch) && State() == old(State())
      ensures packet.samplerate == samplerate ==> err == None && State() == AppendPacket(old(State()), packet)
    {
      if packet.samplerate != samplerate {
        return Some(SamplerateMismatch);
      }
      samples := samples + packet.samples;
      endTimestamp := packet.timestamp + |packet.samples| as real / packet.samplerate;
      err := None;
    }

    /** The `start_timestamp` property. */
    method GetStartTimestamp() returns (t: real)
      requires samplerate != 0.0
      ensures t == StartTimestamp(State())
    {
      t := endTimestamp - |samples| as real / samplerate;
    }
  }

  class MeasurementCollector {
    var signalStreams: map<string, SignalStream>
    var eventStreams: map<string, seq<TimedValue>>

    /** Distinct stream types hold distinct stream objects. */
    ghost predicate Valid()
      reads this
    {
      forall k1, k2 :: k1 in signalStreams && k2 in signalStreams && k1 != k2 ==>
        signalStreams[k1] != signalStreams[k2]
    }

    /** The streams' values, per type. */
    function SignalStates(): map<string, StreamState>
      reads this, signalStreams.Values
    {
      map k | k in signalStreams :: signalStreams[k].State()
    }

    constructor ()
      ensures Valid() && signalStreams == map[]
      ensures eventStreams.Keys == {"activity", "heart_rate", "respiration_rate", "heartbeat_interval"}
      ensures forall name :: name in eventStreams ==> eventStreams[name] == []
    {
      signalStreams := map[];
      eventStreams := map[];
      new;
      var err := InitializeEventStream("activity");
      err := InitializeEventStream("heart_rate");
      err := InitializeEventStream("respiration_rate");
      err := InitializeEventStream("heartbeat_interval");
    }

    /** `initialize_event_stream(stream_name)`; a name already registered is rejected. */
    method InitializeEventStream(name: string) returns (err: Option<CollectorError>)
      modifies this
      ensures signalStreams == old(signalStreams)
      ensures name in old(eventStreams) ==> err == Some(DuplicateEventStream) && eventStreams == old(eventStreams)
      ensures name !in old(eventStreams) ==> err == None && eventStreams == old(eventStreams)[name := []]
    {
      if name in eventStreams {
        return Some(DuplicateEventStream);
      }
      eventStreams := eventStreams[name := []];
      err := None;
    }

    /** `get_signal_stream(stream_type)`. */
    method GetSignalStream(kind: string) returns (r: Option<SignalStream>)
      ensures kind in signalStreams <==> r.Some?
      ensures r.Some? ==> r.value == signalStreams[kind]
    {
      r := if kind in signalStreams then Some(signalStreams[kind]) else None;
    }

    /** `get_event_stream(stream_type)`. */
    method GetEventStream(name: string) returns (r: Option<seq<TimedValue>>)
      ensures name in eventStreams <==> r.Some?
      ensures r.Some? ==> r.value == eventStreams[name]
    {
      r := if name in eventStreams then Some(eventStreams[name]) else None;
    }

    /** The `del` of `handle_signal`. */
    method DropStream(kind: string)
      requires Valid() && kind in signalStreams
      modifies this
      ensures Valid() && eventStreams == old(eventStreams)
      ensures signalStreams == old(signalStreams) - {kind}
      ensures SignalStates() == old(SignalStates()) - {kind}
    {
      signalStreams := signalStreams - {kind};
    }

    /** `signal_stream.append_signal_packet(signal_packet)` on the stream of the packet's type. */
    method AppendToStream(packet: SignalPacket) returns (err: Option<CollectorError>)
      requires Valid() && packet.samplerate != 0.0 && packet.kind in signalStreams
      modifies signalStreams[packet.kind]
      ensures Valid() && signalStreams == old(signalStreams)
      ensures var s := old(SignalStates())[packet.kind];
        && (s.samplerate != packet.samplerate ==> err == Some(SamplerateMismatch) && SignalStates() == old(SignalStates()))
        && (s.samplerate == packet.samplerate ==>
              err == None && SignalStates() == old(SignalStates())[packet.kind := AppendPacket(s, packet)])
    {
      var stream := signalStreams[packet.kind];
      err := stream.AppendSignalPacket(packet);
      forall k | k in signalStreams && k != packet.kind
        ensures signalStreams[k].State() == old(SignalStates())[k]
      {
        assert signalStreams[k] != stream;
      }
    }

    /** A new `SignalStream(signal_packet)` stored for the packet's type. */
    method AddStream(packet: SignalPacket)
      requires Valid() && packet.samplerate != 0.0 && packet.kind !in signalStreams
      modifies this
      ensures Valid() && eventStreams == old(eventStreams)
      ensures packet.kind in signalStreams && fresh(signalStreams[packet.kind])
      ensures signalStreams - {packet.kind} == old(signalStreams)
      ensures SignalStates() == old(SignalStates())[packet.kind := NewStream(packet)]
    {
      var stream := new SignalStream(packet);
      signalStreams := signalStreams[packet.kind := stream];
    }

    /** The branch of `handle_signal` that makes a new stream and then appends the packet to it. */
    method AddStreamAndAppend(packet: SignalPacket) returns (err: Option<CollectorError>)
      requires Valid() && packet.samplerate != 0.0 && packet.kind !in signalStreams
      modifies this
      ensures Valid() && eventStreams == old(eventStreams)
      ensures signalStreams - {packet.kind} == old(signalStreams)
      ensures err == None
      ensures packet.kind in signalStreams && fresh(signalStreams[packet.kind])
      ensures SignalStates() == old(SignalStates())[packet.kind := AppendPacket(NewStream(packet), packet)]
    {
      AddStream(packet);
      err := AppendToStream(packet);
    }

    /**
     * `handle_signal(signal_packet, starts_new_stream)`, as written: a
     * stream it creates receives the packet's samples from the constructor
     * and again from the append that follows.
     */
    method HandleSignal(packet: SignalPacket, startsNewStream: bool) returns (err: Option<CollectorError>)
      requires Valid() && packet.samplerate != 0.0
      modifies this, signalStreams.Values
      ensures Valid() && eventStreams == old(eventStreams)
      ensures signalStreams - {packet.kind} == old(signalStreams) - {packet.kind}
      ensures SignalOutcome(err, SignalStates()) == SignalUpdate(old(SignalStates()), packet, startsNewStream)
      ensures forall k :: k in signalStreams ==>
        (k in old(signalStreams) && signalStreams[k] == old(signalStreams)[k]) || fresh(signalStreams[k])
      ensures packet.kind in old(signalStreams) && !startsNewStream ==>
        packet.kind in signalStreams && signalStreams[packet.kind] == old(signalStreams)[packet.kind]
      ensures err == None && (startsNewStream || packet.kind !in old(signalStreams)) ==>
        packet.kind in signalStreams && fresh(signalStreams[packet.kind])
    {
      var kind := packet.kind;
      if startsNewStream {
        if kind !in signalStreams {
          return Some(MissingStream);
        }
        DropStream(kind);
      }
      if kind in signalStreams {
        err := AppendToStream(packet);
      } else {
        err := AddStreamAndAppend(packet);
      }
      forall k | k in signalStreams && k != kind
        ensures k in old(signalStreams) && signalStreams[k] == old(signalStreams)[k]
      {
        assert k in signalStreams - {kind};
      }
    }

    /**
     * The same operation with a new stream holding the first packet once,
     * as the constructor already appends it.
     */
    method HandleSignalOnce(packet: SignalPacket, startsNewStream: bool) returns (err: Option<CollectorError>)
      requires Valid() && packet.samplerate != 0.0
      modifies this, signalStreams.Values
      ensures Valid() && eventStreams == old(eventStreams)
      ensures signalStreams - {packet.kind} == old(signalStreams) - {packet.kind}
      ensures SignalOutcome(err, SignalStates()) == SignalUpdateOnce(old(SignalStates()), packet, startsNewStream)
      ensures forall k :: k in signalStreams ==>
        (k in old(signalStreams) && signalStreams[k] == old(signalStreams)[k]) || fresh(signalStreams[k])
      ensures packet.kind in old(signalStreams) && !startsNewStream ==>
        packet.kind in signalStreams && signalStreams[packet.kind] == old(signalStreams)[packet.kind]
      ensures err == None && (startsNewStream || packet.kind !in old(signalStreams)) ==>
        packet.kind in signalStreams && fresh(signalStreams[packet.kind])
    {
      var kind := packet.kind;
      if startsNewStream {
        if kind !in signalStreams {
          return Some(MissingStream);
        }
        DropStream(kind);
      }
      if kind in signalStreams {
        err := AppendToStream(packet);
      } else {
        AddStream(packet);
        err := None;
      }
      forall k | k in signalStreams && k != kind
        ensures k in old(signalStreams) && signalStreams[k] == old(signalStreams)[k]
      {
        assert k in signalStreams - {kind};
      }
    }

    /** `handle_event(stream_name, value)`: append to a registered list. */
    method HandleEvent(name: string, value: TimedValue) returns (err: Option<CollectorError>)
      modifies this
      ensures signalStreams == old(signalStreams)
      ensures name !in old(eventStreams) ==> err == Some(UnknownEventStream) && eventStreams == old(eventStreams)
      ensures name in old(eventStreams) ==>
        err == None && eventStreams == old(eventStreams)[name := old(eventStreams)[name] + [value]]
    {
      if name !in eventStreams {
        return Some(UnknownEventStream);
      }
      eventStreams := eventStreams[name := eventStreams[name] + [value]];
      err := None;
    }
  }
}
