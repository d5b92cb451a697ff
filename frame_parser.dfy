/**
 * The imperative `MessageFrame` and `MessageFrameParser` classes.  The
 * parser's `handler` field names the method that handles the next byte, and
 * `message` is the frame being assembled (a `MessageFrame` object that the
 * handlers update in place).  The registered callback is modelled by the
 * `delivered` field: the frames handed to it, in order.
 *
 * Every method is proved to do what `Framing.Step` / `Framing.Run` say, so
 * the round-trip, resynchronisation and soundness lemmas of module Framing
 * apply to this class.
 */
module FrameParser {
  import opened Wrappers
  import opened Checksum
  import opened Framing

  /** A frame being assembled; `length` and `eom` are `None` until set. */
  class MessageFrame {
    const messageId: byte
    var length: Option<nat>
    var eom: Option<Terminator>
    var payload: seq<byte>

    constructor (messageId: byte)
      ensures this.messageId == messageId
      ensures length == None && eom == None && payload == []
    {
      this.messageId := messageId;
      length := None;
      eom := None;
      payload := [];
    }

    /** `set_length` asserts that the length has not been set before. */
    method SetLength(length: nat)
      requires this.length.None?
      modifies this
      ensures this.length == Some(length)
      ensures eom == old(eom) && payload == old(payload)
    {
      this.length := Some(length);
    }

    /** `set_ack` asserts that the terminator status has not been set before. */
    method SetAck(eom: Terminator)
      requires this.eom.None?
      modifies this
      ensures this.eom == Some(eom)
      ensures length == old(length) && payload == old(payload)
    {
      this.eom := Some(eom);
    }

    /**
     * `byte_accepted`: fewer than `length` payload bytes so far.  (Python 2
     * orders `None` below every integer, so an unset length accepts nothing.)
     */
    predicate ByteAccepted(): (r: bool)
      reads this
      ensures length == None ==> !r
      ensures length.Some? ==> (r <==> |payload| < length.value)
    {
      length.Some? && |payload| < length.value
    }

    /** `handle_byte`: append one payload byte. */
    method HandleByte(b: byte)
      modifies this
      ensures payload == old(payload) + [b]
      ensures length == old(length) && eom == old(eom)
    {
      payload := payload + [b];
    }

    /** `get_crc`: the CRC-8 of the payload collected so far. */
    method GetCrc() returns (crc: nat)
      ensures crc == Crc8(payload)
    {
      crc := Crc8Digest(payload);
    }
  }

  /** The bound method stored in the parser's `handler` field. */
  datatype Handler = HandleStx | HandleMsgId | HandleDlc | HandlePayload | HandleEom

  class MessageFrameParser {
    var handler: Handler
    var message: MessageFrame?
    /** The frames passed to the callback so far, in order. */
    var delivered: seq<Frame>

    /** Which frame-in-progress each handler can find. */
    ghost predicate Valid()
      reads this, message
    {
      match handler
      case HandleStx => message == null
      case HandleMsgId => message == null
      case HandleDlc =>
        message != null && message.length.None? && message.eom.None? && message.payload == []
      case HandlePayload =>
        message != null && message.length.Some? && message.eom.None? &&
        |message.payload| <= message.length.value <= MAX_PAYLOAD_LENGTH
      case HandleEom =>
        message != null && message.length == Some(|message.payload|) && message.eom.None? &&
        |message.payload| <= MAX_PAYLOAD_LENGTH
    }

    /** The abstract state of the reference machine that the fields represent. */
    ghost function State(): (s: ParserState)
      reads this, message
      requires Valid()
      ensures WellFormed(s)
    {
      match handler
      case HandleStx => SeekStart
      case HandleMsgId => ReadId
      case HandleDlc => ReadLength(message.messageId)
      case HandlePayload => ReadPayload(message.messageId, message.length.value, message.payload)
      case HandleEom => ReadTerminator(message.messageId, message.payload)
    }

    constructor ()
      ensures Valid() && State() == SeekStart && delivered == []
    {
      handler := HandleStx;
      message := null;
      delivered := [];
    }

    /** `handle_stx`: wait for the start byte. */
    method HandleStxByte(b: byte)
      requires Valid() && handler == HandleStx
      modifies this
      ensures Valid() && State() == After(Step(old(State()), b))
      ensures delivered == old(delivered) && message == old(message)
    {
      if b == STX {
        handler := HandleMsgId;
      }
    }

    /** `handle_msgid`: start a new frame with this id. */
    method HandleMsgIdByte(b: byte)
      requires Valid() && handler == HandleMsgId
      modifies this
      ensures Valid() && State() == After(Step(old(State()), b))
      ensures delivered == old(delivered) && fresh(message)
    {
      message := new MessageFrame(b);
      handler := HandleDlc;
    }

    /** `handle_dlc`: the payload length, at most 128. */
    method HandleDlcByte(b: byte) returns (err: Option<ProtocolError>)
      requires Valid() && handler == HandleDlc
      modifies this, message
      ensures message == old(message) && delivered == old(delivered)
      ensures err.Some? <==> Step(old(State()), b).Fail?
      ensures err.Some? ==>
        err.value == Step(old(State()), b).error && handler == old(handler) && unchanged(message)
      ensures Valid()
      ensures err.None? ==> State() == After(Step(old(State()), b))
    {
      if b > MAX_PAYLOAD_LENGTH {
        return Some(IncorrectDataLength);
      }
      message.SetLength(b);
      handler := HandlePayload;
      err := None;
    }

    /** `handle_payload`: a payload byte while fewer than `length` are collected, then the CRC. */
    method HandlePayloadByte(b: byte) returns (err: Option<ProtocolError>)
      requires Valid() && handler == HandlePayload
      modifies this, message
      ensures message == old(message) && delivered == old(delivered)
      ensures err.Some? <==> Step(old(State()), b).Fail?
      ensures err.Some? ==>
        err.value == Step(old(State()), b).error && handler == old(handler) && unchanged(message)
      ensures Valid()
      ensures err.None? ==> State() == After(Step(old(State()), b))
    {
      if message.ByteAccepted() {
        message.HandleByte(b);
        err := None;
      } else {
        var calculatedCrc := message.GetCrc();
        if b != calculatedCrc {
          return Some(CrcMismatch);
        }
        handler := HandleEom;
        err := None;
      }
    }

    /** `handle_eom`: the terminator; a valid one hands the frame to the callback. */
    method HandleEomByte(b: byte) returns (err: Option<ProtocolError>)
      requires Valid() && handler == HandleEom
      modifies this, message
      ensures delivered == old(delivered) + Delivered(Step(old(State()), b))
      ensures err.Some? <==> Step(old(State()), b).Fail?
      ensures err.Some? ==>
        err.value == Step(old(State()), b).error && handler == old(handler) &&
        message == old(message) && unchanged(message)
      ensures Valid()
      ensures err.None? ==> State() == After(Step(old(State()), b)) && message == null
    {
      var status := TerminatorStatus(b);
      if status.None? {
        return Some(InvalidAckByte);
      }
      message.SetAck(status.value);
      delivered := delivered + [Frame(message.messageId, message.payload, message.eom.value)];
      message := null;
      handler := HandleStx;
      err := None;
    }

    /**
     * One iteration of `parse_data`: run the current handler and, on a
     * `ProtocolError`, reset to `handle_stx` with no frame in progress.  The
     * byte that caused the error is not handled again.
     */
    method ParseByte(b: byte) returns (err: Option<ProtocolError>)
      requires Valid()
      modifies this, message
      ensures Valid()
      ensures State() == After(Step(old(State()), b))
      ensures delivered == old(delivered) + Delivered(Step(old(State()), b))
      ensures err.Some? <==> Step(old(State()), b).Fail?
      ensures err.Some? ==> err.value == Step(old(State()), b).error
      ensures message == null || message == old(message) || fresh(message)
    {
      err := None;
      match handler {
        case HandleStx => HandleStxByte(b);
        case HandleMsgId => HandleMsgIdByte(b);
        case HandleDlc => err := HandleDlcByte(b);
        case HandlePayload => err := HandlePayloadByte(b);
        case HandleEom => err := HandleEomByte(b);
      }
      if err.Some? {
        handler := HandleStx;
        message := null;
      }
    }

    /** `parse_data`: feed a chunk of received bytes through the parser. */
    method ParseData(data: seq<byte>)
      requires Valid()
      modifies this, message
      ensures Valid()
      ensures State() == Run(old(State()), data).state
      ensures delivered == old(delivered) + Run(old(State()), data).frames
      ensures message == null || message == old(message) || fresh(message)
    {
      ghost var start := State();
      ghost var before := delivered;
      for i := 0 to |data|
        invariant Valid()
        invariant State() == Run(start, data[..i]).state
        invariant delivered == before + Run(start, data[..i]).frames
        invariant message == null || message == old(message) || fresh(message)
      {
        var _ := ParseByte(data[i]);
        assert data[..i + 1] == data[..i] + [data[i]];
        RunSnoc(start, data[..i], data[i]);
      }
      assert data[..|data|] == data;
    }
  }
}
