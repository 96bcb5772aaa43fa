/** Putting packets together (packet_packer.go). */
module PacketPacker {
  import opened Common
  import opened Wire
  import opened PacketNumbers
  import opened PacketNumberGeneration
  import AckFrameIO
  import opened StopWaiting
  import Streams = StreamFrames
  import opened Frames
  import opened Unpacker
  import opened Retransmissions
  import opened PacketSizes
  import Headers = PublicHeaders
  import opened StreamFramer

  /** The bytes that a frame takes. */
  method GetMinLength(f: Frame) returns (l: nat)
    requires Typed(f) && !f.Stop?
    ensures Frames.MinLength(f) == Ok(l)
  {
    match f
    case Stream(s) => l := Streams.MinLength(s);
    case Ack(a) => l := AckFrameIO.MinLength(a);
    case RstStream(_, _, _) => l := 17;
    case ConnectionClose(_, reason) => l := 7 + |reason|;
    case Goaway(_, _, reason) => l := 11 + |reason|;
    case WindowUpdate(_, _) => l := 13;
    case Blocked(_) => l := 5;
    case Ping => l := 1;
    case PlusFeedback(data) => l := 2 + |data|;
  }

  /** The bytes of a frame. */
  method WriteFrame(f: Frame) returns (r: Result<seq<byte>>)
    requires Typed(f)
    ensures r == FrameBytes(f)
  {
    match f
    case Stream(s) => r := Streams.Write(s);
    case Ack(a) => r := AckFrameIO.Write(a);
    case Stop(s) => r := StopWaiting.Write(s);
    case RstStream(id, code, offset) => r := Ok([0x01] + (ToBytes(id, 4) + (ToBytes(offset, 8) + ToBytes(code, 4))));
    case ConnectionClose(code, reason) =>
      if |reason| > 0xFFFF {
        return Err;
      }
      r := Ok([0x02] + (ToBytes(code, 4) + (ToBytes(|reason|, 2) + reason)));
    case Goaway(code, last, reason) =>
      r := Ok([0x03] + (ToBytes(code, 4) + (ToBytes(last, 4) + (ToBytes(|reason|, 2) + reason))));
    case WindowUpdate(id, offset) => r := Ok([0x04] + (ToBytes(id, 4) + ToBytes(offset, 8)));
    case Blocked(id) => r := Ok([0x05] + ToBytes(id, 4));
    case Ping => r := Ok([0x07]);
    case PlusFeedback(data) =>
      if |data| > 255 {
        return Err;
      }
      r := Ok([0x08] + ([|data|] + data));
  }

  /** One BLOCKED frame for each stream, or for the connection. */
  ghost function BlockedFrames(ids: seq<nat>): (fs: seq<Frame>)
    ensures |fs| == |ids| && forall i | 0 <= i < |ids| :: fs[i] == Blocked(ids[i])
  {
    if ids == [] then [] else BlockedFrames(ids[..|ids| - 1]) + [Blocked(ids[|ids| - 1])]
  }

  /** A stream that has used up its window has a BLOCKED frame queued for it, and so has the connection. */
  lemma BlockedIsQueued(left: seq<Frame>, before: seq<nat>, newFrames: seq<StreamFrame>, own: map<nat, nat>,
    connection: nat, i: nat)
    requires i < |newFrames| && Contributed(newFrames) <= connection
    ensures var queue := left + BlockedFrames(before + BlockedByAll(newFrames, own, connection)); var f := newFrames[i];
      && (connection == Contributed(newFrames) ==> Blocked(0) in queue)
      && (connection > Contributed(newFrames) && !f.fin && f.streamID in own && |f.data| == own[f.streamID] ==>
        Blocked(f.streamID) in queue)
  {
    hide BlockedByAll, Contributed;
    UsedUpIsBlocked(newFrames, own, connection, i);
    var more := BlockedByAll(newFrames, own, connection);
    forall id | id in more ensures Blocked(id) in left + BlockedFrames(before + more) {
      var k :| 0 <= k < |more| && more[k] == id;
      assert (before + more)[|before| + k] == id;
      assert (left + BlockedFrames(before + more))[|left| + |before| + k] == Blocked(id);
    }
  }

  lemma FirstBlocked(ids: seq<nat>)
    ensures ids[..0] == [] && BlockedFrames(ids[..0]) == [] && ids[0..] == ids
      && (forall fs: seq<Frame> :: fs + [] == fs)
  {
  }

  lemma NextBlocked(ids: seq<nat>, done: nat, id: nat, rest: seq<nat>)
    requires done <= |ids| && ids[done..] == [id] + rest
    ensures done < |ids| && ids[done] == id && ids[done + 1..] == rest
      && BlockedFrames(ids[..done + 1]) == BlockedFrames(ids[..done]) + [Blocked(id)]
  {
    assert |ids[done..]| == |rest| + 1;
    assert ids[done..][0] == id && ids[done..][1..] == rest;
    assert ids[..done + 1][..done] == ids[..done];
  }

  ghost predicate AllControl(fs: seq<Frame>) {
    forall f | f in fs :: Control(f)
  }

  ghost function Reversed(fs: seq<Frame>): seq<Frame> {
    if fs == [] then [] else [fs[|fs| - 1]] + Reversed(fs[..|fs| - 1])
  }

  lemma ReversedOneMore(left: seq<Frame>, popped: seq<Frame>)
    requires left != []
    ensures var n := |left| - 1; left + Reversed(popped) == left[..n] + Reversed(popped + [left[n]])
  {
    var n := |left| - 1;
    assert (popped + [left[n]])[..|popped|] == popped;
    assert left == left[..n] + [left[n]];
  }

  /** Control frames are taken from the end of the list, as long as they fit. */
  method PopControlFrames(controlFrames: seq<Frame>, length: nat, maxFrameSize: nat)
    returns (popped: seq<Frame>, left: seq<Frame>, payloadLength: nat)
    requires AllControl(controlFrames)
    ensures controlFrames == left + Reversed(popped) && AllControl(popped) && AllControl(left)
    ensures AllTyped(popped) && payloadLength == length + |Payload(popped)|
      && (length <= maxFrameSize ==> payloadLength <= maxFrameSize)
    ensures left != [] ==>
      Typed(left[|left| - 1]) && Frames.MinLength(left[|left| - 1]).Ok?
      && payloadLength + Frames.MinLength(left[|left| - 1]).value > maxFrameSize
  {
    hide Control, Typed, Payload, FrameBytes, Frames.MinLength, Reversed;
    popped, left, payloadLength := [], controlFrames, length;
    NothingPopped(left);
    while left != []
      invariant controlFrames == left + Reversed(popped) && AllControl(popped) && AllControl(left)
      invariant AllTyped(popped) && payloadLength == length + |Payload(popped)|
        && (length <= maxFrameSize ==> payloadLength <= maxFrameSize)
      decreases |left|
    {
      var n := |left| - 1;
      var frame := left[n];
      ControlExact(frame);
      var minLength := GetMinLength(frame);
      if payloadLength + minLength > maxFrameSize {
        return;
      }
      ReversedOneMore(left, popped);
      PopOneMore(popped, frame);
      popped := popped + [frame];
      payloadLength := payloadLength + minLength;
      left := left[..n];
    }
  }

  lemma NothingPopped(left: seq<Frame>)
    ensures left + Reversed([]) == left && AllTyped([]) && Payload([]) == []
  {
  }

  lemma ControlExact(f: Frame)
    requires Control(f)
    ensures Typed(f) && !f.Stop? && !f.Stream? && FrameBytes(f).Ok? && Frames.MinLength(f).Ok?
      && |FrameBytes(f).value| == Frames.MinLength(f).value
  {
    ReadWrittenFrame(f, [], 0, 0);
    LengthIsExact(f);
  }

  lemma PopOneMore(popped: seq<Frame>, f: Frame)
    requires AllTyped(popped) && Typed(f) && FrameBytes(f).Ok?
    ensures AllTyped(popped + [f]) && Payload(popped + [f]) == Payload(popped) + FrameBytes(f).value
  {
    hide FrameBytes, Typed;
    PayloadConcat(popped, [f]);
    assert [f][1..] == [];
  }

  /** All frames are written one after the other. */
  method WriteFrames(fs: seq<Frame>, ghost packetNumber: nat, ghost packetNumberLen: nat) returns (r: Result<seq<byte>>)
    requires AllTyped(fs) && AllSendable(fs, packetNumber, packetNumberLen)
    ensures r == Ok(Payload(fs))
  {
    hide Typed, Payload, FrameBytes, AllSendable;
    var out, i := [], 0;
    assert fs[..0] == [];
    PayloadConcat([], []);
    NothingPopped([]);
    while i < |fs|
      invariant 0 <= i <= |fs| && out == Payload(fs[..i])
    {
      assert fs[..i + 1] == fs[..i] + [fs[i]];
      Writable(fs, i, packetNumber, packetNumberLen);
      var bytes := WriteFrame(fs[i]);
      if bytes.Err? {
        return Err;
      }
      PopOneMore(fs[..i], fs[i]);
      out := out + bytes.value;
      i := i + 1;
    }
    assert fs[..i] == fs;
    return Ok(out);
  }

  lemma {:induction false} Writable(fs: seq<Frame>, i: nat, packetNumber: nat, packetNumberLen: nat)
    requires AllTyped(fs) && AllSendable(fs, packetNumber, packetNumberLen) && i < |fs|
    ensures Typed(fs[i]) && FrameBytes(fs[i]).Ok?
  {
    hide FrameBytes, Typed, Sendable;
    assert fs[i] in fs;
    if i == 0 {
      ReadWrittenFrame(fs[0], Payload(fs[1..]), packetNumber, packetNumberLen);
    } else {
      Writable(fs[1..], i - 1, packetNumber, packetNumberLen);
    }
  }

  datatype Level = Unencrypted | Secure | ForwardSecure

  /** A packet before encryption, which adds 12 bytes to the payload. */
  datatype Packed = Packed(number: nat, numberLen: nat, header: seq<byte>, payload: seq<byte>, frames: seq<Frame>,
    level: Level)

  datatype PackResult = NoPacket | Done(packet: Packed) | TooLarge | UnencryptedData | OtherError

  /** What every packet is that the packer makes. */
  ghost predicate PacketOk(p: Packed, h: Headers.PublicHeader, sentBy: Perspective) {
    && Headers.Regular(h, sentBy) && h.packetNumber == p.number && h.packetNumberLen == p.numberLen
    && Headers.Write(h, sentBy) == Ok(p.header)
    && AllTyped(p.frames) && AllSendable(p.frames, p.number, p.numberLen) && p.payload == Payload(p.frames) != []
    && |p.header| + |p.payload| + 12 <= MAX_PACKET_SIZE
    && forall f | f in p.frames && f.Stream? :: p.level != Unencrypted || f.stream.streamID == 1
  }

  /** Who sends: the side, its connection ID and its version. */
  datatype Identity = Identity(sentBy: Perspective, connectionID: nat, versionTag: nat)

  /** What a header says about who sends it, with which encryption, and whether it leaves out the connection ID. */
  ghost predicate Identifies(h: Headers.PublicHeader, id: Identity, level: Level, truncate: bool, nonce: seq<byte>) {
    && h.truncateConnectionID == truncate && h.connectionID == (if truncate then 0 else id.connectionID)
    && (h.versionFlag <==> id.sentBy == Client && level != ForwardSecure)
    && (h.versionFlag ==> h.versionTag == id.versionTag) && h.diversificationNonce == nonce
  }

  /** The shortest header of a packet with this encryption. */
  function ShortestHeader(sentBy: Perspective, level: Level): nat {
    3 + (if sentBy == Client && level != ForwardSecure then 4 else 0) + if sentBy == Server && level == Secure then 32
      else 0
  }

  /** The frames are in an order in which they can be written and taken apart. */
  ghost predicate Carried(p: Packed) {
    AllTyped(p.frames) && AllSendable(p.frames, p.number, p.numberLen)
  }

  lemma {:induction false} KeptTyped(fs: seq<Frame>)
    requires AllTyped(fs)
    ensures AllTyped(Kept(fs))
  {
  }

  /** A packet that can be sent again as a whole. */
  ghost predicate Resendable(p: Packed, sentBy: Perspective) {
    && AllTyped(p.frames) && AllSendable(p.frames, p.number, p.numberLen)
    && ShortestHeader(sentBy, p.level) + |Payload(Kept(p.frames))|
      <= MAX_FRAME_AND_PUBLIC_HEADER_SIZE - NON_FORWARD_SECURE_PACKET_SIZE_REDUCTION
  }

  /**
   The other side reads what was packed: the header, with the connection ID, version and nonce in it, the same frames in
   the same order, and the packet number, exactly if that is close enough to the largest one it has seen.
   */
  lemma ReadPacket(p: Packed, h: Headers.PublicHeader, sentBy: Perspective, last: nat)
    requires PacketOk(p, h, sentBy) && last < TWO_62 && p.number < TWO_62
    ensures var r := Headers.Parse(p.header + p.payload, sentBy);
      && r.Ok? && r.value.1 == p.payload && r.value.0.packetNumberLen == p.numberLen && p.numberLen in {1, 2, 4, 6}
      && (forall id, truncate, nonce :: Identifies(h, id, p.level, truncate, nonce) ==>
        Identifies(r.value.0, id, p.level, truncate, nonce))
      && (InferPacketNumber(p.numberLen, last, r.value.0.packetNumber) == p.number
        <==> Recoverable(Pow256(p.numberLen), last, p.number))
      && ParseFrames(p.payload, p.number, p.numberLen, p.level != Unencrypted) == Ok(DeliveredAll(p.frames))
  {
    hide Headers.Parse, Headers.Write, ParseFrames, InferPacketNumber, AllSendable, Payload;
    Headers.ReadWrittenHeader(h, sentBy, p.payload);
    InferExact(p.numberLen, last, p.number);
    UnpackPacked(p.frames, p.number, p.numberLen, p.level != Unencrypted);
  }

  class Packer {
    const perspective: Perspective
    const connectionID: nat
    const versionTag: nat
    const generator: PacketNumberGenerator
    const framer: Framer
    var isForwardSecure: bool
    var controlFrames: seq<Frame>

    ghost predicate Valid()
      reads this, framer, framer.repr, framer.flow, framer.flow.conn, framer.flow.made, framer.streamsMap
    {
      && framer.Valid() && framer.BlockedOk() && AllControl(controlFrames)
      && 0 < connectionID < TWO_64 && versionTag < 0x1_0000_0000 && generator.averagePeriod >= 1
    }

    constructor (perspective: Perspective, connectionID: nat, versionTag: nat, framer: Framer)
      requires framer.Valid() && framer.BlockedOk() && 0 < connectionID < TWO_64 && versionTag < 0x1_0000_0000
      ensures Valid() && this.framer == framer && this.perspective == perspective && fresh(generator)
        && controlFrames == [] && generator.next == 1
    {
      this.perspective, this.connectionID, this.versionTag, this.framer :=
        perspective, connectionID, versionTag, framer;
      generator := new PacketNumberGenerator(500);
      isForwardSecure, controlFrames := false, [];
    }

    /** From now on no room is left for sending a packet again as a whole. */
    method SetForwardSecure()
      requires Valid()
      modifies this`isForwardSecure
      ensures Valid() && isForwardSecure
    {
      hide Framer.Valid, Framer.BlockedOk, AllControl;
      isForwardSecure := true;
    }

    /** Frames for the next packet. */
    method QueueControlFrames(fs: seq<Frame>)
      requires Valid() && AllControl(fs)
      modifies this`controlFrames
      ensures Valid() && controlFrames == old(controlFrames) + fs
    {
      hide Framer.Valid, Framer.BlockedOk, Control;
      controlFrames := controlFrames + fs;
    }

    /** The framer's BLOCKED frames go into the next packet. */
    method TakeBlockedFrames()
      requires framer.Valid() && framer.BlockedOk() && AllControl(controlFrames)
      modifies this`controlFrames, framer`blockedFrameQueue
      ensures framer.Valid() && framer.BlockedOk() && framer.blockedFrameQueue == [] && AllControl(controlFrames)
      ensures controlFrames == old(controlFrames) + BlockedFrames(old(framer.blockedFrameQueue))
    {
      hide Framer.Valid, Framer.BlockedOk, BlockedFrames;
      ghost var all := framer.blockedFrameQueue;
      var b := framer.PopBlockedFrame();
      ghost var done := 0;
      FirstBlocked(all);
      while b.Some?
        invariant framer.Valid() && framer.BlockedOk() && AllControl(controlFrames) && 0 <= done <= |all|
        invariant controlFrames == old(controlFrames) + BlockedFrames(all[..done])
        invariant b.Some? ==> b.value < 0x1_0000_0000 && all[done..] == [b.value] + framer.blockedFrameQueue
        invariant b == None ==> framer.blockedFrameQueue == [] && done == |all|
        decreases |framer.blockedFrameQueue|, b.Some?
      {
        NextBlocked(all, done, b.value, framer.blockedFrameQueue);
        controlFrames := controlFrames + [Blocked(b.value)];
        done := done + 1;
        b := framer.PopBlockedFrame();
      }
      assert all[..done] == all;
    }

    /**
     The frames of the next packet: a STOP_WAITING frame in any case, control frames from the end of the list as long as
     they fit, and then STREAM frames, of which the last one goes without the length of its data.
     */
    method ComposeNextPacket(stop: Option<StopWaitingFrame>, maxFrameSize: nat, ghost packetNumber: nat,
      ghost packetNumberLen: nat)
      returns (r: Result<seq<Frame>>, ghost controls: seq<Frame>, ghost left: seq<Frame>, ghost blocked: seq<nat>,
        ghost again: seq<StreamFrame>, ghost newFrames: seq<StreamFrame>)
      requires Valid() && maxFrameSize <= MAX_FRAME_AND_PUBLIC_HEADER_SIZE
      requires stop.Some? ==> Sendable(Stop(stop.value), [], packetNumber, packetNumberLen)
      modifies this`controlFrames, framer`retransmissionQueue, framer`groups, framer`blockedFrameQueue
      modifies framer.flow`all, framer.flow.conn`bytesSent, framer.flow.made`bytesSent,
        framer.streamsMap`roundRobinIndex
      modifies framer.repr`dataForWriting, framer.repr`writeOffset, framer.repr`finSent, framer.repr`sent
      ensures Valid()
      ensures r.Err? <==> stop.Some? && 1 + stop.value.packetNumberLen > maxFrameSize
      ensures r.Ok? ==>
        && r.value == StopPart(stop) + controls + LastWithoutLength(again + newFrames)
        && AllTyped(r.value) && AllSendable(r.value, packetNumber, packetNumberLen)
          && |Payload(r.value)| <= maxFrameSize
      ensures old(controlFrames) == left + Reversed(controls) && controlFrames == left + BlockedFrames(blocked)
      ensures r.Ok? ==>
        framer.blockedFrameQueue == [] && blocked == old(framer.blockedFrameQueue
          + BlockedByAll(newFrames, OwnWindows(framer.flow), ConnectionLeft(framer.flow)))
      ensures framer.flow.conn.bytesSent == old(framer.flow.conn.bytesSent) + Contributed(newFrames)
        && Contributed(newFrames) <= old(ConnectionLeft(framer.flow))
      ensures r.Err? ==> blocked == [] && framer.blockedFrameQueue == old(framer.blockedFrameQueue)
      ensures left != [] ==> Misfit(left[|left| - 1], stop, controls, maxFrameSize)
      ensures r.Ok? && old(framer.Filling()) ==> Full(r.value, StopPart(stop) + controls, maxFrameSize)
      ensures Flatten(framer.groups) == Flatten(old(framer.groups)) + again
      ensures forall x | x in framer.streams ::
        framer.streams[x].sent == old(framer.streams[x].sent) + FramesOf(newFrames, x)
      ensures AllOf(newFrames, framer.streams.Keys)
    {
      hide Framer.Valid, Framer.BlockedOk, AllSendable, Payload, Typed, FrameBytes, AllControl, Reversed,
        LastWithoutLength, Sendable, Size, AllGood, AllWithLength, Flatten, FramesOf, BlockedFrames, AllOf,
        Framer.Filling, Full, OwnWindows, ConnectionLeft, BlockedByAll, Contributed;
      framer.IsLinked();
      ghost var filling := framer.Filling();
      var payloadLength := if stop.Some? then 1 + stop.value.packetNumberLen else 0;
      StopPartSize(stop, packetNumber, packetNumberLen);
      again, newFrames, blocked := [], [], [];
      NoFramesYet(framer.groups, framer.streams.Keys);
      FirstBlocked([]);
      var popped, unpopped, length := PopControlFrames(controlFrames, payloadLength, maxFrameSize);
      controls, left := popped, unpopped;
      controlFrames := unpopped;
      if unpopped != [] {
        DoesNotFit(unpopped[|unpopped| - 1], stop, popped, maxFrameSize);
      }
      if length > maxFrameSize {
        assert forall x | x in framer.streams :: framer.streams[x].sent == framer.streams[x].sent + [];
        return Err, controls, left, blocked, again, newFrames;
      }
      var fs;
      fs, again, newFrames := framer.PopStreamFrames(maxFrameSize + 2 - length);
      AreControl(popped);
      Composed(StopPart(stop), popped, fs, packetNumber, packetNumberLen, maxFrameSize);
      if filling { IsFull(StopPart(stop), popped, fs, packetNumber, packetNumberLen, maxFrameSize); }
      blocked := framer.blockedFrameQueue;
      TakeBlockedFrames();
      r := Ok(StopPart(stop) + popped + LastWithoutLength(fs));
    }

    function GetIdentity(): Identity {
      Identity(perspective, connectionID, versionTag)
    }

    /** A server sends a nonce with the packets that are secure but not forward-secure. */
    ghost predicate NonceOk(level: Level, nonce: seq<byte>) {
      if perspective == Server && level == Secure then |nonce| == 32 else nonce == []
    }

    function MakeHeader(packetNumber: nat, packetNumberLen: nat, level: Level, truncate: bool,
      nonce: seq<byte>): Headers.PublicHeader {
      var version := perspective == Client && level != ForwardSecure;
      Headers.PublicHeader(if truncate then 0 else connectionID, version, false, truncate, packetNumberLen,
        packetNumber, if version then versionTag else 0, [], nonce)
    }

    function HeaderSize(packetNumberLen: nat, level: Level, truncate: bool): nat {
      1 + packetNumberLen + (if truncate then 0 else 8) + (if perspective == Client && level != ForwardSecure then 4
        else 0) + if perspective == Server && level == Secure then 32 else 0
    }

    /** How the length of a header depends on the length of the packet number and on the connection ID. */
    lemma HeaderLengths(packetNumber: nat, packetNumberLen: nat, level: Level, truncate: bool, nonce: seq<byte>)
      requires 0 < connectionID < TWO_64 && versionTag < 0x1_0000_0000 && packetNumberLen in {2, 4, 6}
      requires NonceOk(level, nonce) && (truncate ==> perspective == Server)
      ensures var h := MakeHeader(packetNumber, packetNumberLen, level, truncate, nonce);
        && Headers.Regular(h, perspective) && Headers.Write(h, perspective).Ok? && Headers.GetLength(h, perspective).Ok?
        && |Headers.Write(h, perspective).value| == Headers.GetLength(h, perspective).value
           == HeaderSize(packetNumberLen, level, truncate)
    {
      Headers.LengthIsExact(MakeHeader(packetNumber, packetNumberLen, level, truncate, nonce), perspective);
    }

    /** Writes a packet, unless it is too large. Its number is used up only if everything goes well. */
    method WritePacket(h: Headers.PublicHeader, frames: seq<Frame>, level: Level, random: Option<nat>)
      returns (r: PackResult)
      requires Headers.Regular(h, perspective) && Headers.Write(h, perspective).Ok? && h.packetNumber == generator.next
        && generator.averagePeriod >= 1
      requires frames != [] && AllTyped(frames) && AllSendable(frames, h.packetNumber, h.packetNumberLen)
      modifies generator
      ensures r.Done? || r == UnencryptedData || r == TooLarge
      ensures r == TooLarge <==>
        |Headers.Write(h, perspective).value| + |Payload(frames)| > MAX_FRAME_AND_PUBLIC_HEADER_SIZE
      ensures r == UnencryptedData <==>
        r != TooLarge && level == Unencrypted && exists f | f in frames :: f.Stream? && f.stream.streamID != 1
      ensures r.Done? ==> r.packet.number == old(generator.next) < generator.next <= old(generator.next) + 2
      ensures r.Done? ==> r.packet.frames == frames && r.packet.level == level && PacketOk(r.packet, h, perspective)
      ensures !r.Done? ==> generator.next == old(generator.next)
    {
      hide AllSendable, Payload, FrameBytes, Typed, Headers.Write, Headers.Regular;
      var header := Headers.Write(h, perspective).value;
      var payload := WriteFrames(frames, h.packetNumber, h.packetNumberLen);
      NotEmpty(frames, h.packetNumber, h.packetNumberLen);
      var hasNonCryptoStreamData := HasNonCryptoStreamData(frames);
      if |header| + |payload.value| + 12 > MAX_PACKET_SIZE {
        return TooLarge;
      }
      if hasNonCryptoStreamData && level == Unencrypted {
        return UnencryptedData;
      }
      var number := generator.Pop(random);
      if number != h.packetNumber {
        return OtherError;
      }
      r := Done(Packed(number, h.packetNumberLen, header, payload.value, frames, level));
    }

    /** The header and the frames of a new packet: together they fit into a packet. */
    method NextFrames(stop: Option<StopWaitingFrame>, number: nat, numberLen: nat, level: Level, truncate: bool,
      nonce: seq<byte>)
      returns (header: Headers.PublicHeader, fs: seq<Frame>, ghost taken: seq<Frame>, ghost left: seq<Frame>,
        ghost blocked: seq<nat>,
        ghost again: seq<StreamFrame>, ghost newFrames: seq<StreamFrame>)
      requires Valid() && NonceOk(level, nonce) && (truncate ==> perspective == Server) && numberLen in {2, 4, 6}
      requires stop.Some? ==>
        Sendable(Stop(stop.value), [], number, numberLen) && stop.value.packetNumberLen == numberLen
      modifies this`controlFrames, framer`retransmissionQueue, framer`groups, framer`blockedFrameQueue
      modifies framer.flow`all, framer.flow.conn`bytesSent, framer.flow.made`bytesSent,
        framer.streamsMap`roundRobinIndex
      modifies framer.repr`dataForWriting, framer.repr`writeOffset, framer.repr`finSent, framer.repr`sent
      ensures Valid() && header == MakeHeader(number, numberLen, level, truncate, nonce)
      ensures Headers.Regular(header, perspective) && Headers.Write(header, perspective).Ok?
      ensures AllTyped(fs) && AllSendable(fs, number, numberLen)
        && fs == StopPart(stop) + taken + LastWithoutLength(again + newFrames)
      ensures ShortestHeader(perspective, level) <= |Headers.Write(header, perspective).value|
        == HeaderSize(numberLen, level, truncate)
      ensures |Headers.Write(header,
        perspective).value| + |Payload(fs)| + (if isForwardSecure then 0 else NON_FORWARD_SECURE_PACKET_SIZE_REDUCTION)
        <= MAX_FRAME_AND_PUBLIC_HEADER_SIZE
      ensures old(controlFrames) == left + Reversed(taken) && controlFrames == left + BlockedFrames(blocked)
      ensures old(framer.Filling()) ==>
        var reserve := if isForwardSecure then 0 else NON_FORWARD_SECURE_PACKET_SIZE_REDUCTION;
        Full(fs, StopPart(stop) + taken,
          MAX_FRAME_AND_PUBLIC_HEADER_SIZE - |Headers.Write(header, perspective).value| - reserve)
      ensures LastIsSmall(old(controlFrames)) ==>
        taken != [] && taken[0] == old(controlFrames)[|old(controlFrames)| - 1]
      ensures framer.blockedFrameQueue == [] && blocked == old(framer.blockedFrameQueue
          + BlockedByAll(newFrames, OwnWindows(framer.flow), ConnectionLeft(framer.flow)))
      ensures framer.flow.conn.bytesSent == old(framer.flow.conn.bytesSent) + Contributed(newFrames)
        && Contributed(newFrames) <= old(ConnectionLeft(framer.flow))
      ensures Flatten(framer.groups) == Flatten(old(framer.groups)) + again
      ensures forall x | x in framer.streams ::
        framer.streams[x].sent == old(framer.streams[x].sent) + FramesOf(newFrames, x)
      ensures AllOf(newFrames, framer.streams.Keys)
    {
      hide Framer.Valid, Framer.BlockedOk, AllSendable, Payload, FrameBytes, AllControl, Reversed, LastWithoutLength,
        Headers.Write, Headers.Regular, Headers.GetLength, Sendable, Typed, Flatten, FramesOf, Misfit, MakeHeader,
        BlockedFrames, LastIsSmall, AllOf, Framer.Filling, Full, OwnWindows, ConnectionLeft, BlockedByAll, Contributed;
      header := MakeHeader(number, numberLen, level, truncate, nonce);
      HeaderLengths(number, numberLen, level, truncate, nonce);
      var maxSize := MAX_FRAME_AND_PUBLIC_HEADER_SIZE - Headers.GetLength(header,
        perspective).value - if isForwardSecure then 0 else NON_FORWARD_SECURE_PACKET_SIZE_REDUCTION;
      var frames;
      ghost var controls := controlFrames;
      frames, taken, left, blocked, again, newFrames := ComposeNextPacket(stop, maxSize, number, numberLen);
      fs := frames.value;
      if LastIsSmall(controls) { TakesLast(controls, left, taken, stop, number, numberLen, maxSize); }
    }

    /**
     Packs a new packet. It is never too large, and as long as the connection is not forward-secure it leaves room for
     being sent again as a whole. Every control frame is in the packet or stays queued, together with the framer's
     BLOCKED frames. If there is no packet, no frame was taken. A small frame that comes last in the list is in the
     packet.
     */
    method PackPacket(stopWaiting: Option<nat>, controls: seq<Frame>, leastUnacked: nat, level: Level, truncate: bool,
      nonce: seq<byte>, random: Option<nat>)
      returns (r: PackResult, ghost h: Headers.PublicHeader, ghost taken: seq<Frame>, ghost left: seq<Frame>,
        ghost blocked: seq<nat>,
        ghost again: seq<StreamFrame>, ghost newFrames: seq<StreamFrame>)
      requires Valid() && AllControl(controls) && NonceOk(level, nonce) && (truncate ==> perspective == Server)
      requires 0 < generator.next
      requires stopWaiting.Some? ==>
        stopWaiting.value <= generator.next
          && generator.next - stopWaiting.value < Pow256(LengthForPublicHeader(generator.next, leastUnacked))
      modifies this`controlFrames, generator, framer`retransmissionQueue, framer`groups, framer`blockedFrameQueue
      modifies framer.flow`all, framer.flow.conn`bytesSent, framer.flow.made`bytesSent,
        framer.streamsMap`roundRobinIndex
      modifies framer.repr`dataForWriting, framer.repr`writeOffset, framer.repr`finSent, framer.repr`sent
      ensures Valid() && r != TooLarge && r != OtherError
      ensures if r.Done? then old(generator.next) < generator.next <= old(generator.next) + 2
        else generator.next == old(generator.next)
      ensures r.Done? ==>
        && PacketOk(r.packet, h, perspective) && r.packet.number == old(generator.next) && r.packet.level == level
        && r.packet.numberLen == LengthForPublicHeader(r.packet.number, leastUnacked)
        && |r.packet.header| == HeaderSize(r.packet.numberLen, level, truncate)
        && Identifies(h, GetIdentity(), level, truncate, nonce)
        && r.packet.frames ==
           StopPart(StopFrame(stopWaiting, r.packet.numberLen, r.packet.number)) + taken
           + LastWithoutLength(again + newFrames)
        && (!isForwardSecure ==> Resendable(r.packet, perspective))
      ensures r == NoPacket ==> taken == [] && again == [] && newFrames == []
      ensures r == UnencryptedData ==> level == Unencrypted
      ensures AllControl(taken)
      ensures LastIsSmall(controls) ==> r != NoPacket && taken != [] && taken[0] == controls[|controls| - 1]
      ensures old(framer.Filling()) && stopWaiting == None && taken == [] ==> r != NoPacket
      ensures old(framer.Filling()) && r.Done? ==>
        var reserve := if isForwardSecure then 0 else NON_FORWARD_SECURE_PACKET_SIZE_REDUCTION;
        Full(r.packet.frames, StopPart(StopFrame(stopWaiting, r.packet.numberLen, r.packet.number)) + taken,
          MAX_FRAME_AND_PUBLIC_HEADER_SIZE - |r.packet.header| - reserve)
      ensures old(controlFrames) + controls == left + Reversed(taken) && controlFrames == left + BlockedFrames(blocked)
      ensures framer.blockedFrameQueue == [] && blocked == old(framer.blockedFrameQueue
          + BlockedByAll(newFrames, OwnWindows(framer.flow), ConnectionLeft(framer.flow)))
      ensures framer.flow.conn.bytesSent == old(framer.flow.conn.bytesSent) + Contributed(newFrames)
        && Contributed(newFrames) <= old(ConnectionLeft(framer.flow))
      ensures Flatten(framer.groups) == Flatten(old(framer.groups)) + again
      ensures forall x | x in framer.streams ::
        framer.streams[x].sent == old(framer.streams[x].sent) + FramesOf(newFrames, x)
      ensures AllOf(newFrames, framer.streams.Keys)
    {
      hide Framer.Valid, Framer.BlockedOk, AllSendable, Payload, AllControl, LastWithoutLength, Headers.Write,
        Headers.Regular, PacketOk, Sendable, Typed, Pow256, Resendable, LengthForPublicHeader, Flatten, FramesOf,
        NonceOk, MakeHeader, ShortestHeader, Reversed, BlockedFrames, LastIsSmall, AllOf, Framer.Filling, Full,
        OwnWindows, ConnectionLeft, BlockedByAll, Contributed;
      BothControl(controlFrames, controls);
      SameLast(controlFrames, controls);
      controlFrames := controlFrames + controls;
      var number := generator.next;
      var numberLen := LengthForPublicHeader(number, leastUnacked);
      StopSendable(stopWaiting, number, leastUnacked);
      var stop := StopFrame(stopWaiting, numberLen, number);
      var header, fs;
      header, fs, taken, left, blocked, again, newFrames := NextFrames(stop, number, numberLen, level, truncate, nonce);
      ControlTaken(left, taken);
      h := header;
      HeaderNumber(number, numberLen, level, truncate, nonce);
      FullIsNotEmpty(fs, StopPart(stop) + taken, |Headers.Write(header, perspective).value|, isForwardSecure);
      if |fs| == 0 {
        return NoPacket, h, taken, left, blocked, again, newFrames;
      }
      if |fs| == 1 && stop.Some? {
        return NoPacket, h, taken, left, blocked, again, newFrames;
      }
      r := WritePacket(header, fs, level, random);
      PacketParts(r, h, perspective);
      if r.Done? && !isForwardSecure {
        CanBeSentAgain(r.packet, perspective);
      }
    }

    lemma HeaderNumber(packetNumber: nat, packetNumberLen: nat, level: Level, truncate: bool, nonce: seq<byte>)
      ensures var h := MakeHeader(packetNumber, packetNumberLen, level, truncate, nonce);
        h.packetNumber == packetNumber && h.packetNumberLen == packetNumberLen
        && Identifies(h, GetIdentity(), level, truncate, nonce)
    {
    }

    /** The size of a handshake packet that is sent again, before encryption. */
    ghost function AgainSize(packet: Packed, numberLen: nat, truncate: bool): nat
      requires AllTyped(packet.frames)
    {
      KeptTyped(packet.frames);
      HeaderSize(numberLen, packet.level, truncate) + (1 + numberLen) + |Payload(Kept(packet.frames))|
    }

    /**
     Sends a handshake packet again, with a STOP_WAITING frame in place of its ACK and STOP_WAITING frames. If it was
     packed with room for that it is not too large, and can be sent again itself.
     */
    method RetransmitNonForwardSecurePacket(stopWaiting: Option<nat>, packet: Packed, truncate: bool, nonce: seq<byte>,
      random: Option<nat>)
      returns (r: PackResult, ghost h: Headers.PublicHeader)
      requires Valid() && Carried(packet) && NonceOk(packet.level, nonce) && (truncate ==> perspective == Server)
      requires 0 < generator.next
      requires stopWaiting.Some? ==>
        stopWaiting.value <= generator.next
          && generator.next - stopWaiting.value < Pow256(LengthForPublicHeader(generator.next, 0))
      modifies generator
      ensures Valid()
      ensures if r.Done? then old(generator.next) < generator.next <= old(generator.next) + 2
        else generator.next == old(generator.next)
      ensures r == TooLarge <==>
        && packet.level != ForwardSecure && stopWaiting.Some? && Kept(packet.frames) != []
        && AgainSize(packet, LengthForPublicHeader(old(generator.next), 0), truncate) > MAX_FRAME_AND_PUBLIC_HEADER_SIZE
      ensures Resendable(packet, perspective) ==>
        r != TooLarge && (r.Done? ==> Resendable(r.packet, perspective))
      ensures r == OtherError <==> packet.level == ForwardSecure || stopWaiting == None
      ensures r == NoPacket <==> packet.level != ForwardSecure && stopWaiting.Some? && Kept(packet.frames) == []
      ensures r == UnencryptedData <==>
        && r != TooLarge && packet.level == Unencrypted && stopWaiting.Some?
        && exists f | f in packet.frames :: f.Stream? && f.stream.streamID != 1
      ensures r.Done? ==>
        && PacketOk(r.packet, h, perspective) && r.packet.number == old(generator.next)
          && r.packet.level == packet.level && Identifies(h, GetIdentity(), packet.level, truncate, nonce)
        && var stop := StopWaitingFrame(stopWaiting.value, r.packet.numberLen, r.packet.number);
           r.packet.frames == [Stop(stop)] + Kept(packet.frames)
    {
      hide Framer.Valid, Framer.BlockedOk, AllSendable, Payload, FrameBytes, AllControl, Headers.Write,
        Headers.Regular, Headers.GetLength, PacketOk, Kept;
      var number := generator.next;
      var numberLen := LengthForPublicHeader(number, 0);
      h := MakeHeader(number, numberLen, packet.level, truncate, nonce);
      HeaderNumber(number, numberLen, packet.level, truncate, nonce);
      if packet.level == ForwardSecure {
        return OtherError, h;
      }
      if stopWaiting == None {
        return OtherError, h;
      }
      var header := MakeHeader(number, numberLen, packet.level, truncate, nonce);
      HeaderLengths(number, numberLen, packet.level, truncate, nonce);
      var stop := StopWaitingFrame(stopWaiting.value, numberLen, number);
      AgainSendable(packet.frames, packet.number, packet.numberLen, stop);
      if Resendable(packet, perspective) {
        AgainFits(packet.frames, ShortestHeader(perspective, packet.level), packet.number, packet.numberLen, stop,
          |Headers.Write(header, perspective).value|);
      }
      SameStreamData(packet.frames, stop);
      var kept := KeepFrames(packet.frames);
      var fs := [Stop(stop)] + kept;
      if |fs| == 1 {
        return NoPacket, h;
      }
      r := WritePacket(header, fs, packet.level, random);
      PacketParts(r, h, perspective);
    }
  }

  /** What is left for control frames next to the longest header and a STOP_WAITING frame. */
  const CERTAIN_ROOM: nat := MAX_FRAME_AND_PUBLIC_HEADER_SIZE - NON_FORWARD_SECURE_PACKET_SIZE_REDUCTION - 47 - 7

  /** The last frame of the list, which is taken first, fits into every packet. */
  ghost predicate LastIsSmall(fs: seq<Frame>) {
    && fs != [] && Typed(fs[|fs| - 1]) && Frames.MinLength(fs[|fs| - 1]).Ok?
    && Frames.MinLength(fs[|fs| - 1]).value <= CERTAIN_ROOM
  }

  lemma SameLast(a: seq<Frame>, b: seq<Frame>)
    ensures LastIsSmall(b) ==> LastIsSmall(a + b) && (a + b)[|a + b| - 1] == b[|b| - 1]
  {
  }

  lemma {:induction false} ReversedLast(left: seq<Frame>, taken: seq<Frame>)
    requires taken != []
    ensures Reversed(taken) != [] && (left + Reversed(taken))[|left + Reversed(taken)| - 1] == taken[0]
    decreases |taken|
  {
    var n := |taken| - 1;
    if n > 0 {
      ReversedLast(left, taken[..n]);
    }
  }

  lemma TakesLast(fs: seq<Frame>, left: seq<Frame>, taken: seq<Frame>, stop: Option<StopWaitingFrame>, number: nat,
    numberLen: nat, maxFrameSize: nat)
    requires fs == left + Reversed(taken) && LastIsSmall(fs) && CERTAIN_ROOM + 7 <= maxFrameSize && numberLen <= 6
    requires left != [] ==> Misfit(left[|left| - 1], stop, taken, maxFrameSize)
    requires stop.Some? ==> Sendable(Stop(stop.value), [], number, numberLen) && stop.value.packetNumberLen == numberLen
    ensures taken != [] && taken[0] == fs[|fs| - 1]
  {
    hide Frames.MinLength, Sendable, Typed, Payload;
    StopPartSize(stop, number, numberLen);
    assert StopPart(stop) + [] == StopPart(stop) && left + [] == left;
    if taken != [] { ReversedLast(left, taken); }
  }

  /** STREAM frames are sent again. */
  lemma {:induction false} StreamsKept(fs: seq<Frame>, f: Frame)
    requires f in fs && f.Stream?
    ensures f in Kept(fs)
  {
    if f != fs[0] { StreamsKept(fs[1..], f); }
  }

  /** Whether there is data of a stream other than the crypto stream does not depend on the frames that are left out. */
  lemma SameStreamData(fs: seq<Frame>, stop: StopWaitingFrame)
    ensures (exists f | f in [Stop(stop)] + Kept(fs) :: f.Stream? && f.stream.streamID != 1)
      <==> exists f | f in fs :: f.Stream? && f.stream.streamID != 1
  {
    if f :| f in fs && f.Stream? && f.stream.streamID != 1 {
      StreamsKept(fs, f);
      assert f in [Stop(stop)] + Kept(fs);
    }
  }

  /** ACK and STOP_WAITING frames are not sent again. */
  method KeepFrames(fs: seq<Frame>) returns (r: seq<Frame>)
    ensures r == Kept(fs)
  {
    r := [];
    for i := 0 to |fs|
      invariant r == Kept(fs[..i])
    {
      assert fs[..i + 1] == fs[..i] + [fs[i]];
      KeptOneMore(fs[..i], fs[i]);
      if fs[i].Ack? || fs[i].Stop? {
        continue;
      }
      r := r + [fs[i]];
    }
    assert fs[..|fs|] == fs;
  }

  lemma CanBeSentAgain(p: Packed, sentBy: Perspective)
    requires AllTyped(p.frames) && AllSendable(p.frames, p.number, p.numberLen)
    requires ShortestHeader(sentBy, p.level) + |Payload(p.frames)|
      <= MAX_FRAME_AND_PUBLIC_HEADER_SIZE - NON_FORWARD_SECURE_PACKET_SIZE_REDUCTION
    ensures Resendable(p, sentBy)
  {
    KeptSendable(p.frames, p.number, p.numberLen, p.number, p.numberLen);
  }

  lemma StopSendable(stopWaiting: Option<nat>, number: nat, leastUnacked: nat)
    requires 0 < number
    requires stopWaiting.Some? ==>
      stopWaiting.value <= number && number - stopWaiting.value < Pow256(LengthForPublicHeader(number, leastUnacked))
    ensures var l := LengthForPublicHeader(number, leastUnacked);
      l in {2, 4, 6} && (stopWaiting.Some? ==> Sendable(Stop(StopFrame(stopWaiting, l, number).value), [], number, l))
  {
  }

  lemma PacketParts(r: PackResult, h: Headers.PublicHeader, sentBy: Perspective)
    ensures r.Done? && PacketOk(r.packet, h, sentBy) ==>
      && Headers.Write(h, sentBy) == Ok(r.packet.header) && AllTyped(r.packet.frames)
        && r.packet.payload == Payload(r.packet.frames)
      && AllSendable(r.packet.frames, r.packet.number, r.packet.numberLen) && r.packet.numberLen == h.packetNumberLen
  {
  }

  lemma {:induction false} ControlTaken(left: seq<Frame>, taken: seq<Frame>)
    requires AllControl(left + Reversed(taken))
    ensures AllControl(taken)
    decreases |taken|
  {
    hide Control;
    if taken != [] {
      var n := |taken| - 1;
      assert left + Reversed(taken) == (left + [taken[n]]) + Reversed(taken[..n]);
      ControlTaken(left + [taken[n]], taken[..n]);
      assert taken == taken[..n] + [taken[n]];
      assert (left + Reversed(taken))[|left|] == taken[n];
    }
  }

  lemma BothControl(a: seq<Frame>, b: seq<Frame>)
    requires AllControl(a) && AllControl(b)
    ensures AllControl(a + b)
  {
  }

  lemma NotEmpty(fs: seq<Frame>, packetNumber: nat, packetNumberLen: nat)
    requires fs != [] && AllTyped(fs) && AllSendable(fs, packetNumber, packetNumberLen)
    ensures Payload(fs) != []
  {
    ReadWrittenFrame(fs[0], Payload(fs[1..]), packetNumber, packetNumberLen);
  }

  /** There is data of a stream other than the crypto stream. */
  method HasNonCryptoStreamData(fs: seq<Frame>) returns (b: bool)
    ensures b <==> exists f | f in fs :: f.Stream? && f.stream.streamID != 1
  {
    b := false;
    for i := 0 to |fs|
      invariant b <==> exists j | 0 <= j < i :: fs[j].Stream? && fs[j].stream.streamID != 1
    {
      if fs[i].Stream? && fs[i].stream.streamID != 1 {
        b := true;
      }
    }
  }

  /** The frames take all the room, unless those at the front, behind which others come, leave almost none. */
  ghost predicate Full(fs: seq<Frame>, front: seq<Frame>, room: int) {
    AllTyped(fs) && AllTyped(front) && (|Payload(fs)| == room || |Payload(front)| + 13 >= room)
  }

  lemma IsFull(stop: seq<Frame>, controls: seq<Frame>, fs: seq<StreamFrame>, packetNumber: nat, packetNumberLen: nat,
    maxFrameSize: nat)
    requires AllTyped(stop) && AllTyped(controls) && AllGood(fs) && AllWithLength(fs)
    requires |Payload(stop)| + |Payload(controls)| <= maxFrameSize <= MAX_FRAME_AND_PUBLIC_HEADER_SIZE
    requires var room := maxFrameSize + 2 - |Payload(stop)| - |Payload(controls)|;
      Size(fs) <= room && (15 < room ==> Size(fs) == room)
    ensures Full(stop + controls + LastWithoutLength(fs), stop + controls, maxFrameSize)
  {
    hide Typed, Payload, AllSendable, LastWithoutLength, FrameBytes, AllGood, AllWithLength;
    AllShort(fs);
    StreamsSendable(fs, packetNumber, packetNumberLen);
    PayloadConcat(stop, controls);
    PayloadConcat(stop + controls, LastWithoutLength(fs));
  }

  lemma FullIsNotEmpty(fs: seq<Frame>, front: seq<Frame>, header: nat, isForwardSecure: bool)
    requires header <= 51
    ensures var reserve := if isForwardSecure then 0 else NON_FORWARD_SECURE_PACKET_SIZE_REDUCTION;
      Full(fs, front, MAX_FRAME_AND_PUBLIC_HEADER_SIZE - header - reserve) && front == [] ==> fs != []
  {
  }

  /** A frame for which there is no room any more. */
  ghost predicate Misfit(f: Frame, stop: Option<StopWaitingFrame>, controls: seq<Frame>, maxFrameSize: nat) {
    && AllTyped(StopPart(stop) + controls) && Typed(f) && Frames.MinLength(f).Ok?
    && |Payload(StopPart(stop) + controls)| + Frames.MinLength(f).value > maxFrameSize
  }

  lemma DoesNotFit(f: Frame, stop: Option<StopWaitingFrame>, controls: seq<Frame>, maxFrameSize: nat)
    requires AllTyped(StopPart(stop)) && AllTyped(controls) && Typed(f) && Frames.MinLength(f).Ok?
    requires |Payload(StopPart(stop))| + |Payload(controls)| + Frames.MinLength(f).value > maxFrameSize
    ensures Misfit(f, stop, controls, maxFrameSize)
  {
    PayloadConcat(StopPart(stop), controls);
  }

  lemma NoFramesYet(groups: seq<seq<StreamFrame>>, ids: set<nat>)
    ensures Flatten(groups) + [] == Flatten(groups) && AllOf([], ids) && Contributed([]) == 0
    ensures forall x :: FramesOf([], x) == []
  {
  }

  function StopFrame(leastUnacked: Option<nat>, numberLen: nat, number: nat): Option<StopWaitingFrame> {
    if leastUnacked.Some? then Some(StopWaitingFrame(leastUnacked.value, numberLen, number)) else None
  }

  function StopPart(stop: Option<StopWaitingFrame>): seq<Frame> {
    if stop.Some? then [Stop(stop.value)] else []
  }

  lemma StopPartSize(stop: Option<StopWaitingFrame>, packetNumber: nat, packetNumberLen: nat)
    requires stop.Some? ==> Sendable(Stop(stop.value), [], packetNumber, packetNumberLen)
    ensures AllTyped(StopPart(stop)) && |Payload(StopPart(stop))| == if stop.Some? then 1 + stop.value.packetNumberLen
      else 0
    ensures forall f | f in StopPart(stop) :: f.Stop? && Sendable(f, [], packetNumber, packetNumberLen)
  {
    if stop.Some? {
      OneFrame(Stop(stop.value), packetNumber, packetNumberLen);
    }
  }

  lemma AreControl(fs: seq<Frame>)
    requires AllControl(fs)
    ensures forall f | f in fs :: Control(f)
  {
  }
}
