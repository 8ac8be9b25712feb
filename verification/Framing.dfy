/**
  Message framing: a 32-bit length, the protocol version, a type byte, the payload.
 */
module Framing {
  import opened Wrappers
  import opened Bytes

  const PROTOCOL_VERSION: u8 := 1
  const MAX_MESSAGE_SIZE: nat := 1_048_576

  datatype MessageType =
    | GetMeasurement
    | SignAuthorizationTicket
    | ArmForProduction
    | GetStatus
    | AgentGateway
    | AgentBootRelay
    | AgentAnchorMarksRelay
    | AgentAnchorCommitRelay
    | SignBlockRoot

  datatype FrameError = TooShort | MessageTooLarge | LengthMismatch | InvalidVersion | UnknownMessageType

  datatype FramedMessage = FramedMessage(msgType: MessageType, payload: bytes)

  function TypeByte(t: MessageType): u8 {
    match t
    case GetMeasurement => 0x01
    case SignAuthorizationTicket => 0x10
    case ArmForProduction => 0x20
    case GetStatus => 0x30
    case AgentGateway => 0x40
    case AgentBootRelay => 0x41
    case AgentAnchorMarksRelay => 0x44
    case AgentAnchorCommitRelay => 0x45
    case SignBlockRoot => 0x50
  }

  function MessageTypeOf(b: u8): (t: Option<MessageType>)
    ensures t.Some? ==> TypeByte(t.value) == b
    ensures t.None? ==> forall m :: TypeByte(m) != b
  {
    if b == 0x01 then Some(GetMeasurement)
    else if b == 0x10 then Some(SignAuthorizationTicket)
    else if b == 0x20 then Some(ArmForProduction)
    else if b == 0x30 then Some(GetStatus)
    else if b == 0x40 then Some(AgentGateway)
    else if b == 0x41 then Some(AgentBootRelay)
    else if b == 0x44 then Some(AgentAnchorMarksRelay)
    else if b == 0x45 then Some(AgentAnchorCommitRelay)
    else if b == 0x50 then Some(SignBlockRoot)
    else None
  }

  predicate Fits(payload: bytes) {
    2 + |payload| <= MAX_MESSAGE_SIZE
  }

  function Frame(m: FramedMessage): bytes {
    BE(4, 2 + |m.payload|) + ([PROTOCOL_VERSION, TypeByte(m.msgType)] + m.payload)
  }

  method EncodeMessage(t: MessageType, payload: bytes) returns (r: Result<bytes, FrameError>)
    ensures r == if Fits(payload) then Ok(Frame(FramedMessage(t, payload))) else Err(MessageTooLarge)
  {
    hide BE;
    var total := 2 + |payload|;
    if total > MAX_MESSAGE_SIZE {
      return Err(MessageTooLarge);
    }
    var buf := BE(4, total);
    buf := buf + [PROTOCOL_VERSION];
    buf := buf + [TypeByte(t)];
    buf := buf + payload;
    assert buf == Frame(FramedMessage(t, payload));
    r := Ok(buf);
  }

  /** The decoder is the exact inverse of the encoder: no other bytes are a frame. */
  method DecodeMessage(data: bytes) returns (r: Result<FramedMessage, FrameError>)
    ensures forall m: FramedMessage :: r == Ok(m) <==> Fits(m.payload) && data == Frame(m)
  {
    hide BE, FromBE, Pow256;
    Pow256Values();
    forall m: FramedMessage | Fits(m.payload) && data == Frame(m)
      ensures FrameParts(data, m) && MessageTypeOf(data[5]) == Some(m.msgType)
    {
      FrameHasParts(data, m);
    }
    if |data| < 6 {
      return Err(TooShort);
    }
    FromBEBound(data[..4]);
    var total := FromBE(data[..4]);
    if total > MAX_MESSAGE_SIZE {
      return Err(MessageTooLarge);
    }
    if |data| != 4 + total {
      return Err(LengthMismatch);
    }
    if data[4] != PROTOCOL_VERSION {
      return Err(InvalidVersion);
    }
    var t := MessageTypeOf(data[5]);
    if t.None? {
      return Err(UnknownMessageType);
    }
    var m := FramedMessage(t.value, data[6..]);
    PartsMakeFrame(data, m);
    r := Ok(m);
  }

  /** What a frame looks like, byte range by byte range. */
  predicate FrameParts(data: bytes, m: FramedMessage) {
    && |data| >= 6 && |data| == 6 + |m.payload| && FromBE(data[..4]) == 2 + |m.payload|
    && data[4] == PROTOCOL_VERSION && data[5] == TypeByte(m.msgType) && data[6..] == m.payload
  }

  lemma {:induction false} FrameHasParts(data: bytes, m: FramedMessage)
    requires Fits(m.payload) && data == Frame(m)
    ensures FrameParts(data, m) && MessageTypeOf(data[5]) == Some(m.msgType)
  {
    hide BE, Pow256;
    Pow256Values();
    FromBEOfBE(4, 2 + |m.payload|);
    assert data[..4] == BE(4, 2 + |m.payload|);
    assert data[6..] == m.payload;
    TypeBytesDiffer(m.msgType, MessageTypeOf(data[5]).value);
  }

  lemma {:induction false} TypeBytesDiffer(s: MessageType, t: MessageType)
    requires TypeByte(s) == TypeByte(t)
    ensures s == t
  {
  }

  lemma {:induction false} PartsMakeFrame(data: bytes, m: FramedMessage)
    requires FrameParts(data, m)
    ensures data == Frame(m)
  {
    hide BE, FromBE;
    BEOfFromBE(data[..4]);
    assert data == data[..4] + ([data[4], data[5]] + data[6..]);
  }
}
