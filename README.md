# zephyr-bt BioHarness core in Dafny

This project models the part of the zephyr-bt library that talks to a Zephyr
BioHarness chest strap. That part covers:

- the CRC-8 checksum and the byte-level message framing,
- the byte-at-a-time frame parser,
- sequence-number continuity tracking and the dispatch of decoded packets to callbacks,
- the RR analysis that turns RR-interval samples into heartbeat-interval events,
- the measurement collector that accumulates signal packets and events.

The project proves properties of this model.

Modules, one per source concern:

| module | file | models |
|---|---|---|
| `Wrappers` | wrappers.dfy | the `Option` type used for Python's `None` |
| `Checksum` | checksum.dfy | `crc_8_digest` (src/zephyr/util.py and its copy in src/zephyr/message.py) |
| `Framing` | framing.dfy | `create_message_frame` and a functional reference machine for the frame parser |
| `FrameParser` | frame_parser.dfy | the imperative `MessageFrame` and `MessageFrameParser` classes, proved against `Framing` |
| `Packets` | packets.dfy | the decoded `SignalPacket` and `SummaryMessage` values the handlers consume |
| `RrEvent` | rr_event.dfy | `sign` and `RREventParser` |
| `BioHarness` | bioharness.dfy | `BioHarnessPacketHandler` and `BioHarnessSignalAnalysis` |
| `Collector` | collector.dfy | `SignalStream` and `MeasurementCollector` |

Modelling choices:

- **Bytes.** Bytes are the integers 0..255 (`Checksum.byte`), as `ord` produces them.
- **Checksum.** The CRC accumulator is an unbounded natural number with an arithmetic XOR, as with Python's integers. That the digest of bytes is itself a byte is proved, not assumed.
- **Two parser copies.** src/zephyr/message.py and src/zephyr/protocol.py (lines 118-224) contain the same encoder, frame class and parser. They differ only in which `crc_8_digest` they call (their own copy or the one in src/zephyr/util.py) and in whether an error is printed or logged. Both `crc_8_digest` texts are identical up to the name of their parameter (`values` in util.py, `bytes` in message.py), so the one `Checksum.Crc8Digest` models both, and the parser is modelled once. The table cites message.py. The same code is in protocol.py 102 lines further on for the encoder (message.py:16-25 is protocol.py:118-127) and 101 lines further on from `MessageFrame` to the end of the parser (message.py:29-123 is protocol.py:130-224).
- **Parser state.** The parser's `handler` field, a bound method in Python, is the `FrameParser.Handler` enumeration.
- **Callbacks.** A registered callback is an output sequence on the object: the frames, signal packets or events it would receive, in order. Every callback in a callback list receives the same invocations. Callbacks are taken to return normally; see "## Left out".
- **Clock estimator.** `ClockDifferenceEstimator` is not part of this model. The value its `estimate_and_correct_timestamp` returns for the packet at hand is a parameter of `BioHarness.BioHarnessPacketHandler.HandlePacket`.
- **Timestamps.** Timestamps and sample values are reals. Nothing is claimed about floating-point rounding.
- **Exceptions.** Exceptions that a caller can trigger are error results, and in each case the state is left as it was, because Python raises before changing anything. These are the parser's `ProtocolError`, the collector's `KeyError`, and the collector's samplerate and duplicate-name assertions.
- **Internal assertions.** The internal assertions of `set_length` and `set_ack` are preconditions, which the parser is proved to meet.
- **A packet appended twice.** `SignalStream.__init__` already appends the packet it is built from (src/zephyr/collector.py:9). `MeasurementCollector.handle_signal` builds a new stream from the packet and then appends the same packet again (src/zephyr/collector.py:55-58). A new stream therefore holds its first packet's samples twice, and its `start_timestamp` (src/zephyr/collector.py:17-19) lies one packet duration before that packet's timestamp. The model follows the code (`Collector.MeasurementCollector.HandleSignal`) and also gives the evidently intended version; see "## Findings".

## Model

| member | source | states |
|---|---|---|
| Checksum.Crc8Digest | src/zephyr/util.py:2-13 | the nested loop computes `Crc8(values)`, the CRC-8/MAXIM fold; on bytes the result is a byte; message.py's copy (lines 2-13), identical up to the parameter name, is the same function for every input |
| Checksum.Crc8Empty | src/zephyr/util.py:3-13 | the digest of the empty list is 0 |
| Checksum.Crc8Bounded | src/zephyr/util.py:5-11 | if every input is in 0..255, the digest is in 0..255 |
| Checksum.Crc8Snoc | src/zephyr/util.py:5-11 | the digest is a left fold: `Crc8(s + [b])` is one byte step, eight shift/conditional-XOR-0x8C rounds after XOR-ing `b` in, applied to `Crc8(s)` |
| Checksum.Crc8AppendDigest | src/zephyr/util.py:6-11 | appending a sequence's digest to it gives digest 0 |
| Checksum.XorSelf | src/zephyr/util.py:6 | XOR-ing a value into itself gives 0, the step behind the zero residue |
| Checksum.RoundsOfZero | src/zephyr/util.py:7-11 | the shift/conditional-XOR rounds keep 0 at 0 |
| Framing.TerminatorStatus | src/zephyr/message.py:113-114 | the status lookup is defined exactly for 0x03, 0x06 and 0x15, and the status maps back to its byte |
| Framing.TerminatorRoundTrip | src/zephyr/message.py:113-114 | every status read from its byte gives back the status |
| Framing.CreateMessageFrame | src/zephyr/message.py:16-25 | None exactly when the payload exceeds 128 bytes, the failed assertion; otherwise `[0x02, id, len] + payload + [crc, 0x03]`, of length `len + 5` |
| Framing.Step | src/zephyr/message.py:75-123 | one handler call: a frame is delivered exactly in the end-of-message state on a valid terminator; a `ProtocolError` is raised exactly for a length over 128, a CRC mismatch after `length` payload bytes, or an invalid terminator; reachable states stay reachable |
| Framing.Run | src/zephyr/message.py:65-73 | the `parse_data` loop on a state: no input leaves the state as it is with no callback, and there is at most one callback per byte read |
| Framing.RunAppend | src/zephyr/message.py:65-73 | parsing `a + b` is parsing `a` and then `b` from where `a` stopped, frames concatenated |
| Framing.RunPreservesWellFormed | src/zephyr/message.py:65-73 | the parser never leaves its reachable states |
| Framing.SeekStartDiscards | src/zephyr/message.py:75-79 | in the start state every byte other than 0x02 is discarded and leaves the state unchanged |
| Framing.CollectPayload | src/zephyr/message.py:44-48 | exactly `length` bytes are collected as payload, with no callback meanwhile |
| Framing.HeaderParse | src/zephyr/message.py:75-95 | STX, id and a length up to 128 lead to collecting `length` payload bytes for that id |
| Framing.TrailerParse | src/zephyr/message.py:97-123 | after the payload, its CRC and a terminator byte deliver the frame if the terminator is valid and nothing otherwise, ending in the start state |
| Framing.FrameBytesParse | src/zephyr/message.py:81-123 | the wire image of any frame, whatever its terminator byte, parses from the start state to exactly the frames it encodes, ending back in the start state |
| Framing.CreateMessageFrameRoundTrip | src/zephyr/message.py:16-25 | round trip: parsing `create_message_frame(id, p)` calls back once with `(id, p, "ETX")` and ends in the start state |
| Framing.ResynchronizesAfterError | src/zephyr/message.py:65-73 | after any `ProtocolError` (no callback), junk without 0x02 followed by a well-formed frame delivers exactly that frame, without a manual reset |
| Framing.FailingByteIsConsumed | src/zephyr/message.py:68-73 | the byte that caused an error is not reprocessed: an invalid terminator equal to 0x02 leaves the parser in the start state, not reading an id |
| Framing.EmptyPayloadCrcIsZero | src/zephyr/message.py:100-106 | with length 0, the byte after the length is the CRC and must be 0 |
| Framing.StepPending | src/zephyr/message.py:75-123 | each step either drops the frame in progress or extends it by the byte read; a delivery completes exactly the frame's wire image |
| Framing.PendingIsSuffix | src/zephyr/message.py:65-73 | the bytes of the frame in progress are the last bytes read |
| Framing.DeliveredFrameWasSent | src/zephyr/message.py:110-121 | a frame goes to the callback only after its complete wire image, terminator included, has been read |
| FrameParser.MessageFrame.constructor | src/zephyr/message.py:30-34 | a new frame has the id, no length, no status and an empty payload |
| FrameParser.MessageFrame.SetLength | src/zephyr/message.py:36-38 | sets the length, which must not have been set, and nothing else |
| FrameParser.MessageFrame.SetAck | src/zephyr/message.py:40-42 | sets the status, which must not have been set, and nothing else |
| FrameParser.MessageFrame.ByteAccepted | src/zephyr/message.py:44-45 | a frame without a length accepts no payload byte (Python 2 orders `None` below every integer); with a length, a byte is accepted exactly while fewer than `length` bytes have been collected |
| FrameParser.MessageFrame.HandleByte | src/zephyr/message.py:47-48 | appends the byte to the payload and changes nothing else |
| FrameParser.MessageFrame.GetCrc | src/zephyr/message.py:50-52 | returns the CRC-8 of the payload |
| FrameParser.MessageFrameParser.constructor | src/zephyr/message.py:60-63 | a new parser is in the start state with no frame and no callbacks |
| FrameParser.MessageFrameParser.HandleStxByte | src/zephyr/message.py:75-79 | moves to reading the id on 0x02 and otherwise stays, as `Step` says |
| FrameParser.MessageFrameParser.HandleMsgIdByte | src/zephyr/message.py:81-84 | starts a fresh frame with this id and moves to reading the length |
| FrameParser.MessageFrameParser.HandleDlcByte | src/zephyr/message.py:86-95 | raises exactly for a length over 128, changing nothing; otherwise sets the length once and moves on to the payload |
| FrameParser.MessageFrameParser.HandlePayloadByte | src/zephyr/message.py:97-108 | appends while fewer than `length` bytes are held, then checks the CRC byte: a mismatch raises and changes nothing |
| FrameParser.MessageFrameParser.HandleEomByte | src/zephyr/message.py:110-123 | an invalid terminator raises and changes nothing; a valid one sets the status, calls back with the frame, and returns to the start state with no frame |
| FrameParser.MessageFrameParser.ParseByte | src/zephyr/message.py:68-73 | one iteration of the loop: the state and callbacks follow `Step`, and any error resets to the start state with no frame |
| FrameParser.MessageFrameParser.ParseData | src/zephyr/message.py:65-73 | the fields represent `Run(old state, data)` afterwards, and the callback received exactly its frames, appended in order; the frame object in progress is the old one, none or freshly allocated, so the parser can be fed chunk after chunk |
| RrEvent.Sign | src/zephyr/rr_event.py:8-9 | `sign` is -1, 0 or 1, exactly according to how the value compares with 0 |
| RrEvent.Abs | src/zephyr/rr_event.py:21 | the yielded interval `abs(value)` is non-negative and is the value or its negation |
| RrEvent.EventsMembership | src/zephyr/rr_event.py:18-21 | a value yields an event iff its sign differs from the sign before it; the event is `(count before the value / samplerate, abs(value))` |
| RrEvent.EventsOrdered | src/zephyr/rr_event.py:21-23 | with a positive samplerate, one call's event times strictly increase, lie in `[count / sr, (count + n) / sr)`, and all intervals are non-negative |
| RrEvent.EventsAppend | src/zephyr/rr_event.py:17-24 | processing `a + b` in one call gives the same events and final sign as processing `a`, then `b`; with `EventsOrdered`, times increase across calls |
| RrEvent.RREventParser.constructor | src/zephyr/rr_event.py:12-15 | a new parser has count 0 and sign 0 |
| RrEvent.RREventParser.HandleValues | src/zephyr/rr_event.py:17-24 | the fully consumed generator yields `Events(...)` of the old state; the count grows by `len(values)`; the sign becomes the last value's sign, and is unchanged for empty input |
| BioHarness.NextExpected | src/zephyr/bioharness.py:47-53 | an expected number exists iff a previous one does; it lies in `[0, wraparound)`; it is the previous number plus one, wrapping to 0 after `wraparound - 1` |
| BioHarness.ExpectedSequenceNumber | src/zephyr/bioharness.py:46-53 | None exactly for a type never seen; otherwise `(previous + 1) % wraparound` |
| BioHarness.ContinuityFlagsAt | src/zephyr/bioharness.py:57-67 | in a run of packets of one type, packet `i` starts a new stream iff a number was stored before it and its number is not that number plus one mod the wraparound; the first packet of a type never does |
| BioHarness.ConsecutiveNumbersNeverFlag | src/zephyr/bioharness.py:49-60 | numbers counting up modulo the wraparound never set `starts_new_stream` |
| BioHarness.WrapAroundIsContinuous | src/zephyr/bioharness.py:34-60 | with the default 256, `253, 254, 255, 0, 1` is one stream |
| BioHarness.GapIsFlaggedOnce | src/zephyr/bioharness.py:34-60 | `0, 1, 5` sets `starts_new_stream` exactly at the 5 |
| BioHarness.MessageEndTimestamp | src/zephyr/bioharness.py:42-44 | the time of the packet's last sample: `n - 1` sample periods after its timestamp, so a one-sample packet ends at its timestamp and, at a positive samplerate, no packet ends before it starts |
| BioHarness.CorrectedPacket | src/zephyr/bioharness.py:70-75 | the forwarded packet has only `timestamp` replaced, shifted so that its end timestamp is the corrected one |
| BioHarness.SummaryEvents | src/zephyr/bioharness.py:83-86 | a summary gives exactly three events, activity, heart_rate, respiration_rate in that order, all at the corrected timestamp |
| BioHarness.BioHarnessPacketHandler.constructor | src/zephyr/bioharness.py:34-39 | a new handler has the wraparound, no stored numbers and no callbacks |
| BioHarness.BioHarnessPacketHandler.GetExpectedSequenceNumber | src/zephyr/bioharness.py:46-53 | returns `ExpectedSequenceNumber` of the stored numbers |
| BioHarness.BioHarnessPacketHandler.HandlePacket | src/zephyr/bioharness.py:55-86 | for a signal packet: it stores the packet's number for its type whether or not it matched, leaving other types alone; it passes the corrected packet on with `starts_new_stream` iff a number was expected and differs. A summary sends its three events and touches no sequence number. Other messages change nothing |
| BioHarness.RrValues | src/zephyr/bioharness.py:18 | the numeric values of the RR samples, index for index |
| BioHarness.HeartbeatsMembership | src/zephyr/bioharness.py:18-28 | an event is sent for sample `i` iff its sign differs from the sign before it and not (`i == 0` and a new stream starts); the event is named heartbeat_interval, at `timestamp + i / samplerate`, with `abs(v_i)` |
| BioHarness.HeartbeatsUpToWellFormed | src/zephyr/bioharness.py:24-28 | every event is a heartbeat_interval with a non-negative interval |
| BioHarness.HeartbeatsOrdered | src/zephyr/bioharness.py:25 | with a positive samplerate, the event times of a packet strictly increase within the time its samples span |
| BioHarness.BioHarnessSignalAnalysis.constructor | src/zephyr/bioharness.py:9-13 | a new analysis has sign 0 and no events |
| BioHarness.BioHarnessSignalAnalysis.HandleSignal | src/zephyr/bioharness.py:15-30 | a non-rr packet changes nothing; an rr packet sends exactly `Heartbeats(...)` and leaves the sign of its last sample |
| Collector.PacketEndTimestamp | src/zephyr/collector.py:15 | `end_timestamp` after an append: subtracting the packet's duration gives back its timestamp; an empty packet ends at its timestamp and, at a positive samplerate, no packet ends before it starts |
| Collector.AppendPacket | src/zephyr/collector.py:11-15 | an append keeps the samplerate and the existing samples as a prefix, followed by the packet's samples |
| Collector.NewStream | src/zephyr/collector.py:4-9 | a stream built from a packet has the packet's samplerate and samples |
| Collector.AppendAllSamples | src/zephyr/collector.py:12-14 | appending packets of the stream's samplerate is append-only: old samples, then each packet's samples in order |
| Collector.AppendAllEnd | src/zephyr/collector.py:15 | `end_timestamp` depends only on the most recently appended packet |
| Collector.NewStreamStartsAtPacket | src/zephyr/collector.py:17-19 | a stream holding one packet starts at that packet's timestamp |
| Collector.FirstPacketCountedTwice | src/zephyr/collector.py:9-58 | the stream `handle_signal` creates holds the samples twice and starts one packet duration early |
| Collector.SignalUpdate | src/zephyr/collector.py:49-58 | `handle_signal` as written: KeyError exactly when a new stream is declared for a type without one; samplerate mismatch exactly on a continuing stream of another samplerate; on error nothing changes; otherwise only the packet's type changes, appending to a continuing stream and giving a new stream the samples twice |
| Collector.SignalUpdateOnce | src/zephyr/collector.py:49-58 | the corrected operation: the same except that a new stream holds the packet once and starts at its timestamp |
| Collector.SignalStream.constructor | src/zephyr/collector.py:4-9 | the samplerate is the packet's; then one append |
| Collector.SignalStream.AppendSignalPacket | src/zephyr/collector.py:11-15 | a different samplerate is an error and changes nothing; otherwise samples are extended and `end_timestamp` comes from this packet alone; the samplerate is a constant |
| Collector.SignalStream.GetStartTimestamp | src/zephyr/collector.py:17-19 | `start_timestamp`, the end timestamp less the duration of all samples |
| Collector.MeasurementCollector.constructor | src/zephyr/collector.py:23-31 | a new collector has no signal streams and exactly the empty lists activity, heart_rate, respiration_rate and heartbeat_interval |
| Collector.MeasurementCollector.InitializeEventStream | src/zephyr/collector.py:45-47 | a duplicate name is rejected with nothing changed; otherwise an empty list is added |
| Collector.MeasurementCollector.GetSignalStream | src/zephyr/collector.py:33-34 | the stream of a present type; None where Python raises KeyError |
| Collector.MeasurementCollector.GetEventStream | src/zephyr/collector.py:36-37 | the list of a registered name; None where Python raises KeyError |
| Collector.MeasurementCollector.DropStream | src/zephyr/collector.py:53-54 | the `del`: the type's entry is removed from the stream map, every other stream and its value and every event list are unchanged |
| Collector.MeasurementCollector.AddStream | src/zephyr/collector.py:55-57 | a fresh `SignalStream` holding `NewStream(packet)` is stored for the packet's type; the other entries and the event lists are unchanged |
| Collector.MeasurementCollector.AppendToStream | src/zephyr/collector.py:58 | the append on the type's stream: a samplerate mismatch is an error with every stream's value unchanged; otherwise that stream's value becomes `AppendPacket(s, packet)` and nothing else changes |
| Collector.MeasurementCollector.AddStreamAndAppend | src/zephyr/collector.py:55-58 | the new-stream branch as written: no error, and the type's stream value is `AppendPacket(NewStream(packet), packet)`, the samples twice, held by a freshly allocated stream; the other entries and the event lists are unchanged |
| Collector.MeasurementCollector.HandleSignal | src/zephyr/collector.py:49-58 | the objects' values follow `SignalUpdate`; no other type's stream object and no event list is touched; a continuing stream keeps its object, and a stream made after a discontinuity or for a new type is a fresh object, so it can be called packet after packet |
| Collector.MeasurementCollector.HandleSignalOnce | src/zephyr/collector.py:49-58 | the corrected method follows `SignalUpdateOnce`, with the same frame and object identity as `HandleSignal` |
| Collector.MeasurementCollector.HandleEvent | src/zephyr/collector.py:60-61 | an unregistered name is an error with nothing changed; otherwise the value is appended at the end of that list only |

## Left out

- The `Protocol` thread and `MessageDataLogger` (src/zephyr/protocol.py:10-91) are not modelled: serial I/O, reconnect with sleep and retry, file logging and threads. `BioHarnessProtocol.enable_*` (src/zephyr/protocol.py:94-115) only writes fixed frames to the connection.
- Callbacks are taken to return normally; a callback that raises is not modelled. In Python such an exception propagates out of `parse_data`, which catches only `ProtocolError` (src/zephyr/message.py:68-73), and the bytes after it in the chunk are not read. The callback in `handle_eom` runs before `self.message = None` and before the handler goes back to `handle_stx` (src/zephyr/message.py:120-123). So the parser then stays in `handle_eom` with `eom` already set, and the next terminator byte fails the assertion in `set_ack` (src/zephyr/message.py:41). In `handle_packet` (src/zephyr/bioharness.py:77-78, 83-86) the callbacks after the failing one, and the remaining summary events, are skipped. A callback that chains into `MeasurementCollector.handle_signal` can raise its `KeyError` or samplerate assertion this way. `Framing.FrameBytesParse`, `Framing.CreateMessageFrameRoundTrip`, `FrameParser.MessageFrameParser.HandleEomByte`, `FrameParser.MessageFrameParser.ParseData` and `BioHarness.BioHarnessPacketHandler.HandlePacket` state the behaviour of callbacks that return.
- The printing and logging of `ProtocolError`s are not modelled; only the reset is.
- The warning `handle_packet` logs when a sequence number breaks continuity (src/zephyr/bioharness.py:61-63) is not modelled; only the `starts_new_stream` flag it accompanies is.
- The default argument `sequence_number_wraparound=256` of `BioHarnessPacketHandler.__init__` (src/zephyr/bioharness.py:34) has no Dafny counterpart: the constructor always takes the wraparound, and the default is the constant `BioHarness.DEFAULT_SEQUENCE_NUMBER_WRAPAROUND`.
- `create_message_frame` joins the bytes into a `str` and `parse_data` takes `ord` of each character. The model works on the byte values directly.
- `create_message_frame` does not check that its id and payload values are bytes (`chr` would raise otherwise); the model's byte type makes them bytes.
- `ClockDifferenceEstimator` (src/zephyr/bioharness.py:40) is not part of this model. Its result is a parameter of `BioHarness.BioHarnessPacketHandler.HandlePacket`.
- `DelayedRealTimeStream` (src/zephyr/delayed_stream.py, src/zephyr/rr_event.py:47-92) is not modelled: threads, wall-clock time and sleeping.
- `SignalCollectorWithRRProcessing` (src/zephyr/rr_event.py:26-44) and src/zephyr/events.py are not modelled. They build on `zephyr.signal.SignalCollector`, which is not part of this model.
- The payload decoders (`MessagePayloadParser` and the constructors of `SignalPacket` and `SummaryMessage`) are not part of this model. `Packets` keeps only the fields the handlers read.
- src/zephyr/hxm.py, src/zephyr/test_hxm.py, src/zephyr/testing.py, src/zephyr/connection.py, src/zephyr/signal.py, src/zephyr/visualization.py, the scripts and setup.py are not modelled: they are device and file I/O, plotting and packaging.
- `MeasurementCollector.iterate_signal_streams` and `iterate_event_streams` (src/zephyr/collector.py:39-43) are not modelled as methods: they only expose the dictionaries, which are the model's public `signalStreams` and `eventStreams` fields.
- The event lists are `seq` values in a map. Python's `get_event_stream` returns the list object itself, so a caller could modify it behind the collector; that aliasing is not modelled.
- Floating-point arithmetic is modelled on reals. Rounding, and Python 2's integer division in `get_message_end_timestamp` when a samplerate is an integer, are not modelled.
- `RrEvent.RREventParser.HandleValues`: requires a non-zero samplerate, where Python raises ZeroDivisionError at the first sign change. It consumes the generator completely; partial consumption is not modelled.
- `BioHarness.BioHarnessPacketHandler.HandlePacket`: requires a non-zero samplerate for signal packets (Python raises ZeroDivisionError) and a positive wraparound (Python raises for 0, and its `%` differs for a negative one).
- `BioHarness.BioHarnessPacketHandler.constructor`: requires a positive wraparound, for the same reason.
- `BioHarness.BioHarnessSignalAnalysis.HandleSignal`: requires an rr packet to have scalar samples and a non-zero samplerate. Python's `cmp` on a tuple and its division by zero are not modelled.
- `Collector.SignalStream.constructor`: requires a non-zero samplerate (Python raises ZeroDivisionError after extending the samples), and so do `Collector.SignalStream.AppendSignalPacket`, `Collector.MeasurementCollector.HandleSignal` and `Collector.MeasurementCollector.HandleSignalOnce`.
- `Collector.SignalStream.constructor`: `end_timestamp` starts as `None` in Python. It is set by the append in the constructor before anyone can read it, so the model gives it a placeholder until then.
- A concrete CRC-8/MAXIM check value, 0xA1 for the ASCII digits "123456789", is not stated: evaluating the arithmetic XOR on literals is beyond the prover's budget.

## Findings

| source | as written | input that shows it | evidently intended | confidence | as-written member | corrected member |
|---|---|---|---|---|---|---|
| src/zephyr/collector.py:9, 53-58 | `handle_signal` creates `SignalStream(packet)`, whose constructor already appends the packet, and then appends the packet again | `handle_signal(p, False)` on a new collector, with `p` holding n > 0 samples at a positive samplerate sr: the stream holds 2n samples and `start_timestamp` is `p.timestamp - n / sr` | the new stream holds the packet's samples once and starts at `p.timestamp` | medium; not executed | Collector.SignalUpdate, with Collector.FirstPacketCountedTwice exhibiting it | Collector.SignalUpdateOnce |
