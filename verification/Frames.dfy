/** All frames of a packet, written and parsed (the directory frames). */
module Frames {
  import opened Common
  import opened Wire
  import opened AckFrames
  import opened AckCodec
  import opened AckBlocks
  import AckFrameIO
  import Float16
  import opened StopWaiting
  import Streams = StreamFrames

  datatype Frame =
    | Stream(stream: StreamFrame)
    | Ack(ack: AckFrame)
    | Stop(stop: StopWaitingFrame)
    | RstStream(streamID: nat, errorCode: nat, byteOffset: nat)
    | ConnectionClose(errorCode: nat, reason: seq<byte>)
    | Goaway(errorCode: nat, lastGoodStream: nat, reason: seq<byte>)
    | WindowUpdate(streamID: nat, byteOffset: nat)
    | Blocked(streamID: nat)
    | Ping
    | PlusFeedback(data: seq<byte>)

  /** The numbers fit into their Go types, and an ACK frame is one that its Write is meant for. */
  ghost predicate Typed(f: Frame) {
    match f
    case Stream(s) => s.streamID < 0x1_0000_0000 && s.offset < TWO_64
    case Ack(a) => Ordered(a)
    case Stop(_) => true
    case RstStream(id, code, offset) => id < 0x1_0000_0000 && code < 0x1_0000_0000 && offset < TWO_64
    case ConnectionClose(code, _) => code < 0x1_0000_0000
    case Goaway(code, last, _) => code < 0x1_0000_0000 && last < 0x1_0000_0000
    case WindowUpdate(id, offset) => id < 0x1_0000_0000 && offset < TWO_64
    case Blocked(id) => id < 0x1_0000_0000
    case Ping => true
    case PlusFeedback(_) => true
  }

  /** The bytes of a frame, or an error. */
  ghost function FrameBytes(f: Frame): (r: Result<seq<byte>>)
    requires Typed(f)
  {
    match f
    case Stream(s) => Streams.Write(s)
    case Ack(a) => if AckFrameIO.Consistent(a) && FirstGapFits(a) then Ok(AckBytes(a, SentCount(a), [])) else Err
    case Stop(s) => StopWaiting.Write(s)
    case RstStream(id, code, offset) => Ok([0x01] + (ToBytes(id, 4) + (ToBytes(offset, 8) + ToBytes(code, 4))))
    case ConnectionClose(code, reason) =>
      if |reason| > 0xFFFF then Err else Ok([0x02] + (ToBytes(code, 4) + (ToBytes(|reason|, 2) + reason)))
    case Goaway(code, last, reason) =>
      Ok([0x03] + (ToBytes(code, 4) + (ToBytes(last, 4) + (ToBytes(|reason|, 2) + reason))))
    case WindowUpdate(id, offset) => Ok([0x04] + (ToBytes(id, 4) + ToBytes(offset, 8)))
    case Blocked(id) => Ok([0x05] + ToBytes(id, 4))
    case Ping => Ok([0x07])
    case PlusFeedback(data) => if |data| > 255 then Err else Ok([0x08] + ([|data|] + data))
  }

  /** The length that a frame announces to the packer; for a STREAM frame it is that of the header. */
  ghost function MinLength(f: Frame): Result<nat>
    requires Typed(f)
  {
    match f
    case Stream(s) => Ok(Streams.MinLength(s))
    case Ack(a) => Ok(|AckBytes(a, SentCount(a), [])|)
    case Stop(s) => StopWaiting.MinLength(s)
    case RstStream(_, _, _) => Ok(17)
    case ConnectionClose(_, reason) => Ok(7 + |reason|)
    case Goaway(_, _, reason) => Ok(11 + |reason|)
    case WindowUpdate(_, _) => Ok(13)
    case Blocked(_) => Ok(5)
    case Ping => Ok(1)
    case PlusFeedback(data) => Ok(2 + |data|)
  }

  /** What is announced is what is written: for a STREAM frame without its data, for all others with everything. */
  lemma LengthIsExact(f: Frame)
    requires Typed(f) && FrameBytes(f).Ok?
    ensures MinLength(f).Ok? && |FrameBytes(f).value| == MinLength(f).value + if f.Stream? then |f.stream.data| else 0
  {
  }

  function ParseRst(input: seq<byte>): Result<(Frame, seq<byte>)> {
    var (_, rest) :- ReadByte(input);
    var (id, rest) :- ReadUint(rest, 4);
    var (offset, rest) :- ReadUint(rest, 8);
    var (code, rest) :- ReadUint(rest, 4);
    Ok((RstStream(id, code, offset), rest))
  }

  /** A reason phrase with its length in front. */
  function ReadReason(input: seq<byte>): Result<(seq<byte>, seq<byte>)> {
    var (length, rest) :- ReadUint(input, 2);
    if length > MAX_PACKET_SIZE || length > |rest| then Err else Ok((rest[..length], rest[length..]))
  }

  function ParseConnectionClose(input: seq<byte>): Result<(Frame, seq<byte>)> {
    var (_, rest) :- ReadByte(input);
    var (code, rest) :- ReadUint(rest, 4);
    var (reason, rest) :- ReadReason(rest);
    Ok((ConnectionClose(code, reason), rest))
  }

  function ParseGoaway(input: seq<byte>): Result<(Frame, seq<byte>)> {
    var (_, rest) :- ReadByte(input);
    var (code, rest) :- ReadUint(rest, 4);
    var (last, rest) :- ReadUint(rest, 4);
    var (reason, rest) :- ReadReason(rest);
    Ok((Goaway(code, last, reason), rest))
  }

  function ParseWindowUpdate(input: seq<byte>): Result<(Frame, seq<byte>)> {
    var (_, rest) :- ReadByte(input);
    var (id, rest) :- ReadUint(rest, 4);
    var (offset, rest) :- ReadUint(rest, 8);
    Ok((WindowUpdate(id, offset), rest))
  }

  function ParseBlocked(input: seq<byte>): Result<(Frame, seq<byte>)> {
    var (_, rest) :- ReadByte(input);
    var (id, rest) :- ReadUint(rest, 4);
    Ok((Blocked(id), rest))
  }

  /** A missing length byte counts as 0. */
  function ParsePlusFeedback(input: seq<byte>): Result<(Frame, seq<byte>)> {
    var (_, rest) :- ReadByte(input);
    if rest == [] then Ok((PlusFeedback([]), []))
    else if rest[0] > |rest| - 1 then Err
    else Ok((PlusFeedback(rest[1..1 + rest[0]]), rest[1 + rest[0]..]))
  }

  /** One frame that is not padding, by its type byte. */
  function ParseFrame(input: seq<byte>, packetNumber: nat, packetNumberLen: nat): (r: Result<(Frame, seq<byte>)>)
    requires input != []
  {
    var t := input[0];
    if t >= 0x80 then
      var (f, rest) :- Streams.Parse(input);
      Ok((Stream(f), rest))
    else if t >= 0x40 then
      var (f, rest) :- ParseAck(input);
      Ok((Ack(f), rest))
    else if t == 0x01 then ParseRst(input)
    else if t == 0x02 then ParseConnectionClose(input)
    else if t == 0x03 then ParseGoaway(input)
    else if t == 0x04 then ParseWindowUpdate(input)
    else if t == 0x05 then ParseBlocked(input)
    else if t == 0x06 then
      var (leastUnacked, rest) :- StopWaiting.Parse(input, packetNumber, packetNumberLen);
      Ok((Stop(StopWaitingFrame(leastUnacked, 0, 0)), rest))
    else if t == 0x07 then Ok((Ping, input[1..]))
    else if t == 0x08 then ParsePlusFeedback(input)
    else Err
  }

  /** What the receiver gets: an ACK frame may be cut, and a STOP_WAITING frame has no packet number of its own. */
  ghost function Delivered(f: Frame): Frame
    requires Typed(f)
  {
    match f
    case Ack(a) => Ack(Sent(a))
    case Stop(s) => Stop(StopWaitingFrame(s.leastUnacked, 0, 0))
    case _ => f
  }

  /** What a packet can carry, if `rest` comes after it. */
  ghost predicate Sendable(f: Frame, rest: seq<byte>, packetNumber: nat, packetNumberLen: nat) {
    Typed(f) && match f
    case Stream(s) => Streams.Encodable(s, rest)
    case Ack(a) => WellFormed(a) && FirstGapFits(a)
    case Stop(s) =>
      && s.packetNumber == packetNumber && s.packetNumberLen == packetNumberLen && Write(s).Ok?
      && packetNumber - s.leastUnacked < Pow256(packetNumberLen)
    case ConnectionClose(_, reason) => |reason| <= MAX_PACKET_SIZE
    case Goaway(_, _, reason) => |reason| <= MAX_PACKET_SIZE
    case PlusFeedback(data) => |data| <= 255
    case _ => true
  }

  lemma ReadWrittenReason(reason: seq<byte>, rest: seq<byte>)
    requires |reason| <= MAX_PACKET_SIZE
    ensures ReadReason((ToBytes(|reason|, 2) + reason) + rest) == Ok((reason, rest))
  {
    hide ToBytes, FromBytes, ReadUint, Pow256;
    PowValues();
    assert (ToBytes(|reason|, 2) + reason) + rest == ToBytes(|reason|, 2) + (reason + rest);
    ReadWritten(|reason|, 2, reason + rest);
    assert (reason + rest)[..|reason|] == reason && (reason + rest)[|reason|..] == rest;
  }

  lemma ReadWrittenRst(f: Frame, rest: seq<byte>)
    requires f.RstStream? && Typed(f)
    ensures ParseRst(FrameBytes(f).value + rest) == Ok((f, rest))
  {
    hide ToBytes, FromBytes, ReadUint, ReadByte;
    PowValues();
    var a, b, c := ToBytes(f.streamID, 4), ToBytes(f.byteOffset, 8), ToBytes(f.errorCode, 4);
    assert ([0x01] + (a + (b + c))) + rest == [0x01] + (a + (b + (c + rest)));
    ReadWrittenByte(0x01, a + (b + (c + rest)));
    ReadWritten(f.streamID, 4, b + (c + rest));
    ReadWritten(f.byteOffset, 8, c + rest);
    ReadWritten(f.errorCode, 4, rest);
  }

  lemma ReadWrittenConnectionClose(f: Frame, rest: seq<byte>)
    requires f.ConnectionClose? && Sendable(f, rest, 0, 0)
    ensures ParseConnectionClose(FrameBytes(f).value + rest) == Ok((f, rest))
  {
    hide ToBytes, FromBytes, ReadUint, ReadByte, ReadReason;
    PowValues();
    var a, b := ToBytes(f.errorCode, 4), ToBytes(|f.reason|, 2) + f.reason;
    assert ([0x02] + (a + b)) + rest == [0x02] + (a + (b + rest));
    ReadWrittenByte(0x02, a + (b + rest));
    ReadWritten(f.errorCode, 4, b + rest);
    ReadWrittenReason(f.reason, rest);
  }

  lemma ReadWrittenGoaway(f: Frame, rest: seq<byte>)
    requires f.Goaway? && Sendable(f, rest, 0, 0)
    ensures ParseGoaway(FrameBytes(f).value + rest) == Ok((f, rest))
  {
    hide ToBytes, FromBytes, ReadUint, ReadByte, ReadReason;
    PowValues();
    var a, b, c := ToBytes(f.errorCode, 4), ToBytes(f.lastGoodStream, 4), ToBytes(|f.reason|, 2) + f.reason;
    assert ([0x03] + (a + (b + c))) + rest == [0x03] + (a + (b + (c + rest)));
    ReadWrittenByte(0x03, a + (b + (c + rest)));
    ReadWritten(f.errorCode, 4, b + (c + rest));
    ReadWritten(f.lastGoodStream, 4, c + rest);
    ReadWrittenReason(f.reason, rest);
  }

  lemma ReadWrittenWindowUpdate(f: Frame, rest: seq<byte>)
    requires f.WindowUpdate? && Typed(f)
    ensures ParseWindowUpdate(FrameBytes(f).value + rest) == Ok((f, rest))
  {
    hide ToBytes, FromBytes, ReadUint, ReadByte;
    PowValues();
    var a, b := ToBytes(f.streamID, 4), ToBytes(f.byteOffset, 8);
    assert ([0x04] + (a + b)) + rest == [0x04] + (a + (b + rest));
    ReadWrittenByte(0x04, a + (b + rest));
    ReadWritten(f.streamID, 4, b + rest);
    ReadWritten(f.byteOffset, 8, rest);
  }

  lemma ReadWrittenBlocked(f: Frame, rest: seq<byte>)
    requires f.Blocked? && Typed(f)
    ensures ParseBlocked(FrameBytes(f).value + rest) == Ok((f, rest))
  {
    hide ToBytes, FromBytes, ReadUint, ReadByte;
    PowValues();
    var a := ToBytes(f.streamID, 4);
    assert ([0x05] + a) + rest == [0x05] + (a + rest);
    ReadWrittenByte(0x05, a + rest);
    ReadWritten(f.streamID, 4, rest);
  }

  lemma ReadWrittenPlusFeedback(f: Frame, rest: seq<byte>)
    requires f.PlusFeedback? && |f.data| <= 255
    ensures ParsePlusFeedback(FrameBytes(f).value + rest) == Ok((f, rest))
  {
    var tail := [|f.data|] + (f.data + rest);
    assert FrameBytes(f).value + rest == [0x08] + tail;
    ReadWrittenByte(0x08, tail);
    assert tail[1..1 + |f.data|] == f.data && tail[1 + |f.data|..] == rest;
  }

  lemma AckTypeByte(a: AckFrame)
    requires Ordered(a)
    ensures var bs := AckBytes(a, SentCount(a), []); bs != [] && 0x40 <= bs[0] < 0x80
  {
    hide BlockBytes, ToBytes, BlocksUpTo, BlockCount, SentCount;
    LengthsFit(a);
    Float16.DecodeEncode(a.delay);
  }

  lemma StreamTypeByte(s: StreamFrame)
    requires Streams.Write(s).Ok?
    ensures var bs := Streams.Write(s).value; bs != [] && bs[0] >= 0x80
  {
    hide ToBytes, Streams.OffsetLength, Streams.StreamIDLength;
  }

  /** A frame that a packet can carry is read back, and so is what comes after it. */
  lemma ReadWrittenFrame(f: Frame, rest: seq<byte>, packetNumber: nat, packetNumberLen: nat)
    requires Sendable(f, rest, packetNumber, packetNumberLen)
    ensures FrameBytes(f).Ok? && FrameBytes(f).value != [] && FrameBytes(f).value[0] != 0
    ensures ParseFrame(FrameBytes(f).value + rest, packetNumber, packetNumberLen) == Ok((Delivered(f), rest))
  {
    hide ToBytes, Pow256, Streams.Write, Streams.Parse, ParseAck, AckBytes, StopWaiting.Parse, ParseRst,
      ParseConnectionClose, ParseGoaway, ParseWindowUpdate, ParseBlocked, ParsePlusFeedback;
    match f
    case Stream(s) =>
      StreamTypeByte(s);
      Streams.ReadWrittenStream(s, rest);
    case Ack(a) =>
      AckTypeByte(a);
      ReadSent(a, rest);
      AckFrameIO.RestMoves(a, rest);
    case Stop(s) =>
      ReadBack(s, rest);
    case RstStream(_, _, _) =>
      ReadWrittenRst(f, rest);
    case ConnectionClose(_, _) =>
      ReadWrittenConnectionClose(f, rest);
    case Goaway(_, _, _) =>
      ReadWrittenGoaway(f, rest);
    case WindowUpdate(_, _) =>
      ReadWrittenWindowUpdate(f, rest);
    case Blocked(_) =>
      ReadWrittenBlocked(f, rest);
    case Ping =>
      assert ([0x07] + rest)[1..] == rest;
    case PlusFeedback(_) =>
      ReadWrittenPlusFeedback(f, rest);
  }
}
