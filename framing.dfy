/**
 * The BioHarness wire framing: the frame encoder `create_message_frame` and a
 * functional reference model of the byte-at-a-time `MessageFrameParser`.
 *
 * A frame on the wire is `[STX, id, dlc] + payload + [crc, terminator]`,
 * where `dlc` is the payload length (at most 128) and `crc` the CRC-8 of the
 * payload.  The parser is a five-state machine; any protocol error throws it
 * back to the start state, and the byte that caused the error is consumed.
 * The imperative parser (module FrameParser) is proved to follow `Step`.
 */
module Framing {
  import opened Wrappers
  import opened Checksum

  const STX: byte := 0x02
  const ETX: byte := 0x03
  const ACK: byte := 0x06
  const NAK: byte := 0x15
  const MAX_PAYLOAD_LENGTH: nat := 128

  /** The end-of-message status string of a frame ("ETX", "ACK" or "NAK"). */
  datatype Terminator = Etx | Ack | Nak

  /** The terminator byte a status is sent as. */
  function TerminatorByte(t: Terminator): byte
  {
    match t
    case Etx => ETX
    case Ack => ACK
    case Nak => NAK
  }

  /** The lookup `{0x03: "ETX", 0x06: "ACK", 0x15: "NAK"}.get(byte)`. */
  function TerminatorStatus(b: byte): (r: Option<Terminator>)
    ensures r.Some? <==> b in {ETX, ACK, NAK}
    ensures r.Some? ==> TerminatorByte(r.value) == b
  {
    if b == ETX then Some(Etx)
    else if b == ACK then Some(Ack)
    else if b == NAK then Some(Nak)
    else None
  }

  lemma TerminatorRoundTrip(t: Terminator)
    ensures TerminatorStatus(TerminatorByte(t)) == Some(t)
  {
  }

  /** What the parser's callback receives: a validated frame. */
  datatype Frame = Frame(messageId: byte, payload: seq<byte>, eom: Terminator)

  /** The CRC-8 of a byte sequence, as a byte. */
  function PayloadCrc(payload: seq<byte>): (r: byte)
  {
    Crc8Bounded(payload);
    Crc8(payload)
  }

  /** The wire image of a frame with the given terminator byte. */
  function FrameBytes(messageId: byte, payload: seq<byte>, terminator: byte): seq<byte>
    requires |payload| <= MAX_PAYLOAD_LENGTH
  {
    [STX, messageId, |payload|] + payload + [PayloadCrc(payload), terminator]
  }

  /**
   * `create_message_frame(message_id, payload)`: None when the length
   * assertion `0 <= dlc <= 128` fails, otherwise the frame terminated by ETX.
   */
  function CreateMessageFrame(messageId: byte, payload: seq<byte>): (r: Option<seq<byte>>)
    ensures r.Some? <==> |payload| <= MAX_PAYLOAD_LENGTH
    ensures r.Some? ==> |r.value| == |payload| + 5
    ensures r.Some? ==> r.value[..3] == [STX, messageId, |payload|]
    ensures r.Some? ==> r.value[3..3 + |payload|] == payload
    ensures r.Some? ==> r.value[3 + |payload|..] == [Crc8(payload), ETX]
  {
    if |payload| <= MAX_PAYLOAD_LENGTH then Some(FrameBytes(messageId, payload, ETX)) else None
  }

  /** The value of the parser's `handler` field together with the frame in progress. */
  datatype ParserState =
    | SeekStart                                              // handle_stx
    | ReadId                                                 // handle_msgid
    | ReadLength(id: byte)                                   // handle_dlc
    | ReadPayload(id: byte, length: nat, payload: seq<byte>) // handle_payload
    | ReadTerminator(id: byte, payload: seq<byte>)           // handle_eom

  /** The states the parser can actually be in. */
  predicate WellFormed(s: ParserState)
  {
    match s
    case ReadPayload(_, length, payload) => |payload| <= length <= MAX_PAYLOAD_LENGTH
    case ReadTerminator(_, payload) => |payload| <= MAX_PAYLOAD_LENGTH
    case _ => true
  }

  /** The `ProtocolError`s that a handler raises. */
  datatype ProtocolError = IncorrectDataLength | CrcMismatch | InvalidAckByte

  /** What handling one byte does: move on, deliver a frame, or fail. */
  datatype StepResult = Next(state: ParserState) | Deliver(frame: Frame) | Fail(error: ProtocolError)

  /** The handler of state `s` applied to byte `b`. */
  function Step(s: ParserState, b: byte): (r: StepResult)
    ensures r.Deliver? <==> s.ReadTerminator? && TerminatorStatus(b).Some?
    ensures r.Deliver? ==> r.frame == Frame(s.id, s.payload, TerminatorStatus(b).value)
    ensures r.Fail? <==>
      || (s.ReadLength? && b > MAX_PAYLOAD_LENGTH)
      || (s.ReadPayload? && |s.payload| >= s.length && b != Crc8(s.payload))
      || (s.ReadTerminator? && TerminatorStatus(b).None?)
    ensures WellFormed(s) && r.Next? ==> WellFormed(r.state)
  {
    match s
    case SeekStart =>
      if b == STX then Next(ReadId) else Next(SeekStart)
    case ReadId =>
      Next(ReadLength(b))
    case ReadLength(id) =>
      if b > MAX_PAYLOAD_LENGTH then Fail(IncorrectDataLength)
      else Next(ReadPayload(id, b, []))
    case ReadPayload(id, length, payload) =>
      if |payload| < length then Next(ReadPayload(id, length, payload + [b]))
      else if b != Crc8(payload) then Fail(CrcMismatch)
      else Next(ReadTerminator(id, payload))
    case ReadTerminator(id, payload) =>
      match TerminatorStatus(b)
      case None => Fail(InvalidAckByte)
      case Some(status) => Deliver(Frame(id, payload, status))
  }

  /** The state after a step: delivering a frame and every error return to the start. */
  function After(r: StepResult): ParserState
  {
    if r.Next? then r.state else SeekStart
  }

  /** The callback invocations of a step. */
  function Delivered(r: StepResult): seq<Frame>
  {
    if r.Deliver? then [r.frame] else []
  }

  /** `parse_data`: the final state and the frames delivered, in order. */
  datatype RunResult = RunResult(state: ParserState, frames: seq<Frame>)

  function Run(s: ParserState, data: seq<byte>): (r: RunResult)
    ensures data == [] ==> r == RunResult(s, [])
    ensures |r.frames| <= |data|
    decreases |data|
  {
    if data == [] then RunResult(s, [])
    else
      var r := Step(s, data[0]);
      var rest := Run(After(r), data[1..]);
      RunResult(rest.state, Delivered(r) + rest.frames)
  }

  /** Parsing `a + b` is parsing `a`, then parsing `b` from where `a` left off. */
  lemma {:induction false} RunAppend(s: ParserState, a: seq<byte>, b: seq<byte>)
    ensures Run(s, a + b).state == Run(Run(s, a).state, b).state
    ensures Run(s, a + b).frames == Run(s, a).frames + Run(Run(s, a).state, b).frames
    decreases |a|
  {
    if a == [] {
      assert a + b == b;
    } else {
      assert (a + b)[0] == a[0];
      assert (a + b)[1..] == a[1..] + b;
      RunAppend(After(Step(s, a[0])), a[1..], b);
    }
  }

  lemma RunSnoc(s: ParserState, a: seq<byte>, b: byte)
    ensures Run(s, a + [b]).state == After(Step(Run(s, a).state, b))
    ensures Run(s, a + [b]).frames == Run(s, a).frames + Delivered(Step(Run(s, a).state, b))
  {
    RunAppend(s, a, [b]);
    var r := Step(Run(s, a).state, b);
    assert Run(After(r), []) == RunResult(After(r), []);
    assert Delivered(r) + [] == Delivered(r);
  }

  lemma {:induction false} RunPreservesWellFormed(s: ParserState, data: seq<byte>)
    requires WellFormed(s)
    ensures WellFormed(Run(s, data).state)
    decreases |data|
  {
    if data != [] {
      RunPreservesWellFormed(After(Step(s, data[0])), data[1..]);
    }
  }

  /** In the start state every byte other than STX is discarded. */
  lemma {:induction false} SeekStartDiscards(junk: seq<byte>)
    requires forall i :: 0 <= i < |junk| ==> junk[i] != STX
    ensures Run(SeekStart, junk) == RunResult(SeekStart, [])
    decreases |junk|
  {
    if junk != [] {
      SeekStartDiscards(junk[1..]);
    }
  }

  /** Exactly `length` bytes are collected as payload, and nothing is delivered meanwhile. */
  lemma {:induction false} CollectPayload(id: byte, length: nat, got: seq<byte>, more: seq<byte>)
    requires |got| + |more| <= length
    ensures Run(ReadPayload(id, length, got), more) == RunResult(ReadPayload(id, length, got + more), [])
    decreases |more|
  {
    if more == [] {
      assert got + more == got;
    } else {
      assert got + more == (got + [more[0]]) + more[1..];
      CollectPayload(id, length, got + [more[0]], more[1..]);
    }
  }

  /** The first three bytes of a frame lead to collecting `length` payload bytes. */
  lemma HeaderParse(messageId: byte, length: byte)
    requires length <= MAX_PAYLOAD_LENGTH
    ensures Run(SeekStart, [STX, messageId, length]) == RunResult(ReadPayload(messageId, length, []), [])
  {
    assert [length][1..] == [];
    assert Run(ReadLength(messageId), [length]) == RunResult(ReadPayload(messageId, length, []), []);
    assert [messageId, length][1..] == [length];
    assert [STX, messageId, length][1..] == [messageId, length];
  }

  /** The frames a complete frame with terminator byte `terminator` delivers. */
  function ExpectedFrames(messageId: byte, payload: seq<byte>, terminator: byte): seq<Frame>
  {
    match TerminatorStatus(terminator)
    case Some(status) => [Frame(messageId, payload, status)]
    case None => []
  }

  /** The CRC and the terminator of a frame whose payload has been collected. */
  lemma TrailerParse(messageId: byte, payload: seq<byte>, terminator: byte)
    requires |payload| <= MAX_PAYLOAD_LENGTH
    ensures Run(ReadPayload(messageId, |payload|, payload), [PayloadCrc(payload), terminator]) ==
      RunResult(SeekStart, ExpectedFrames(messageId, payload, terminator))
  {
    var tail := [PayloadCrc(payload), terminator];
    var collected := ReadPayload(messageId, |payload|, payload);
    var last := ReadTerminator(messageId, payload);
    assert Step(collected, tail[0]) == Next(last);
    assert tail[1..] == [terminator];
    assert Run(collected, tail) == RunResult(Run(last, [terminator]).state, Run(last, [terminator]).frames);
    assert [terminator][1..] == [];
    assert Run(last, [terminator]) == RunResult(SeekStart, Delivered(Step(last, terminator)));
  }

  /**
   * Feeding from the start state a frame with any terminator byte delivers
   * exactly that frame when the terminator is ETX, ACK or NAK, and nothing
   * otherwise; either way the parser ends in the start state.
   */
  lemma FrameBytesParse(messageId: byte, payload: seq<byte>, terminator: byte)
    requires |payload| <= MAX_PAYLOAD_LENGTH
    ensures Run(SeekStart, FrameBytes(messageId, payload, terminator)) ==
      RunResult(SeekStart, ExpectedFrames(messageId, payload, terminator))
  {
    var n := |payload|;
    var head: seq<byte> := [STX, messageId, n];
    var tail: seq<byte> := [PayloadCrc(payload), terminator];
    assert FrameBytes(messageId, payload, terminator) == head + (payload + tail);
    HeaderParse(messageId, n);
    RunAppend(SeekStart, head, payload + tail);
    RunAppend(ReadPayload(messageId, n, []), payload, tail);
    CollectPayload(messageId, n, [], payload);
    assert [] + payload == payload;
    TrailerParse(messageId, payload, terminator);
  }

  /** Round trip: parsing `create_message_frame(id, p)` delivers `(id, p, ETX)` once. */
  lemma CreateMessageFrameRoundTrip(messageId: byte, payload: seq<byte>)
    requires |payload| <= MAX_PAYLOAD_LENGTH
    ensures CreateMessageFrame(messageId, payload).Some?
    ensures Run(SeekStart, CreateMessageFrame(messageId, payload).value) ==
      RunResult(SeekStart, [Frame(messageId, payload, Etx)])
  {
    FrameBytesParse(messageId, payload, ETX);
  }

  /**
   * After an error the parser is back in the start state, so any bytes
   * without STX followed by a well-formed frame deliver exactly that frame:
   * no manual reset is needed.
   */
  lemma ResynchronizesAfterError(s: ParserState, bad: byte, junk: seq<byte>, messageId: byte, payload: seq<byte>)
    requires Step(s, bad).Fail?
    requires forall i :: 0 <= i < |junk| ==> junk[i] != STX
    requires |payload| <= MAX_PAYLOAD_LENGTH
    ensures Delivered(Step(s, bad)) == []
    ensures Run(After(Step(s, bad)), junk + FrameBytes(messageId, payload, ETX)) ==
      RunResult(SeekStart, [Frame(messageId, payload, Etx)])
  {
    SeekStartDiscards(junk);
    RunAppend(SeekStart, junk, FrameBytes(messageId, payload, ETX));
    FrameBytesParse(messageId, payload, ETX);
  }

  /**
   * The failing byte is consumed and not reprocessed: an invalid terminator
   * equal to STX leaves the parser in the start state, not reading an id.
   */
  lemma FailingByteIsConsumed(id: byte, payload: seq<byte>)
    ensures Run(ReadTerminator(id, payload), [STX]) == RunResult(SeekStart, [])
  {
    assert [STX][1..] == [];
  }

  /** With an empty payload the byte after the length must be the CRC of nothing, 0. */
  lemma EmptyPayloadCrcIsZero(id: byte, b: byte)
    ensures Step(ReadPayload(id, 0, []), b) ==
      if b == 0 then Next(ReadTerminator(id, [])) else Fail(CrcMismatch)
  {
  }

  /** The bytes of the frame in progress that state `s` has already consumed. */
  function Pending(s: ParserState): seq<byte>
    requires WellFormed(s)
  {
    match s
    case SeekStart => []
    case ReadId => [STX]
    case ReadLength(id) => [STX, id]
    case ReadPayload(id, length, payload) => [STX, id, length] + payload
    case ReadTerminator(id, payload) => [STX, id, |payload|] + payload + [PayloadCrc(payload)]
  }

  predicate IsSuffix(a: seq<byte>, b: seq<byte>)
  {
    |a| <= |b| && b[|b| - |a|..] == a
  }

  lemma StepPending(s: ParserState, b: byte)
    requires WellFormed(s)
    ensures Step(s, b).Next? ==> Pending(Step(s, b).state) in {[], Pending(s) + [b]}
    ensures Step(s, b).Deliver? ==>
      var f := Step(s, b).frame;
      |f.payload| <= MAX_PAYLOAD_LENGTH &&
      Pending(s) + [b] == FrameBytes(f.messageId, f.payload, TerminatorByte(f.eom))
  {
    match s
    case ReadPayload(id, length, payload) =>
      if |payload| < length {
        assert [STX, id, length] + (payload + [b]) == [STX, id, length] + payload + [b];
      } else if b == Crc8(payload) {
        assert |payload| == length;
      }
    case SeekStart =>
      assert [] + [b] == [b];
    case ReadId =>
      assert [STX] + [b] == [STX, b];
    case ReadLength(id) =>
      assert [STX, id] + [b] == [STX, id, b] + [];
    case ReadTerminator(id, payload) =>
      if TerminatorStatus(b).Some? {
        assert [STX, id, |payload|] + payload + [PayloadCrc(payload)] + [b] ==
          [STX, id, |payload|] + payload + [PayloadCrc(payload), b];
      }
  }

  lemma SuffixSnoc(a: seq<byte>, b: seq<byte>, x: byte)
    requires IsSuffix(a, b)
    ensures IsSuffix(a + [x], b + [x])
  {
    assert (b + [x])[|b + [x]| - |a + [x]|..] == b[|b| - |a|..] + [x];
  }

  /** From the start state, the state's pending bytes are the last bytes read. */
  lemma {:induction false} PendingIsSuffix(data: seq<byte>)
    ensures WellFormed(Run(SeekStart, data).state)
    ensures IsSuffix(Pending(Run(SeekStart, data).state), data)
    decreases |data|
  {
    RunPreservesWellFormed(SeekStart, data);
    if data != [] {
      var front := data[..|data| - 1];
      var last := data[|data| - 1];
      assert data == front + [last];
      PendingIsSuffix(front);
      RunSnoc(SeekStart, front, last);
      var s := Run(SeekStart, front).state;
      StepPending(s, last);
      if Step(s, last).Next? && Pending(Step(s, last).state) != [] {
        SuffixSnoc(Pending(s), front, last);
      }
    }
  }

  /**
   * Soundness: a frame is delivered only when its complete wire image,
   * terminator included, has just been read.
   */
  lemma DeliveredFrameWasSent(data: seq<byte>, b: byte)
    requires Step(Run(SeekStart, data).state, b).Deliver?
    ensures var f := Step(Run(SeekStart, data).state, b).frame;
      |f.payload| <= MAX_PAYLOAD_LENGTH &&
      IsSuffix(FrameBytes(f.messageId, f.payload, TerminatorByte(f.eom)), data + [b])
  {
    PendingIsSuffix(data);
    var s := Run(SeekStart, data).state;
    StepPending(s, b);
    SuffixSnoc(Pending(s), data, b);
  }
}
