/** How large packets get (packet_packer.go, protocol/server_parameters.go). */
module PacketSizes {
  import opened Common
  import opened Wire
  import opened StopWaiting
  import Streams = StreamFrames
  import opened Frames
  import opened Unpacker
  import opened Retransmissions

  /** The packet without the 12 bytes of the signature. */
  const MAX_FRAME_AND_PUBLIC_HEADER_SIZE: nat := MAX_PACKET_SIZE - 12

  /** What packets are kept smaller by, as long as they may have to be sent again as a whole. */
  const NON_FORWARD_SECURE_PACKET_SIZE_REDUCTION: nat := 50

  ghost predicate AllTyped(fs: seq<Frame>) {
    forall f | f in fs :: Typed(f)
  }

  /** A frame that the packer takes from its list of control frames. */
  ghost predicate Control(f: Frame) {
    !f.Stream? && !f.Stop? && !f.ConnectionClose? && Sendable(f, [], 0, 0)
  }

  lemma ControlSendable(f: Frame, rest: seq<byte>, packetNumber: nat, packetNumberLen: nat)
    requires Control(f)
    ensures Sendable(f, rest, packetNumber, packetNumberLen)
  {
  }

  lemma {:induction false} PayloadConcat(a: seq<Frame>, b: seq<Frame>)
    requires AllTyped(a) && AllTyped(b)
    ensures AllTyped(a + b) && Payload(a + b) == Payload(a) + Payload(b)
  {
    hide FrameBytes, Typed;
    if a == [] {
      assert a + b == b;
    } else {
      assert (a + b)[0] == a[0] && (a + b)[1..] == a[1..] + b;
      PayloadConcat(a[1..], b);
    }
  }

  /** Frames other than STREAM frames can be carried in front of anything. */
  lemma {:induction false} SendableConcat(a: seq<Frame>, b: seq<Frame>, packetNumber: nat, packetNumberLen: nat)
    requires AllTyped(a) && AllTyped(b) && AllSendable(b, packetNumber, packetNumberLen)
    requires forall f | f in a :: !f.Stream? && Sendable(f, [], packetNumber, packetNumberLen)
    ensures AllTyped(a + b) && AllSendable(a + b, packetNumber, packetNumberLen)
  {
    hide Typed;
    if a == [] {
      assert a + b == b;
    } else {
      assert a[0] in a && (a + b)[0] == a[0] && (a + b)[1..] == a[1..] + b;
      SendableConcat(a[1..], b, packetNumber, packetNumberLen);
    }
  }

  /** STREAM frames as the packer sends them: the last one without the length of its data. */
  function LastWithoutLength(fs: seq<StreamFrame>): (r: seq<Frame>)
    ensures |r| == |fs|
  {
    if fs == [] then []
    else if |fs| == 1 then [Stream(fs[0].(dataLenPresent := false))]
    else [Stream(fs[0])] + LastWithoutLength(fs[1..])
  }

  ghost predicate Short(fs: seq<StreamFrame>) {
    forall f | f in fs :: |f.data| <= MAX_PACKET_SIZE
  }

  lemma {:induction false} SizeFront(fs: seq<StreamFrame>)
    requires fs != []
    ensures Size(fs) == Streams.MinLength(fs[0]) + |fs[0].data| + Size(fs[1..])
  {
    if |fs| == 1 {
      assert fs[..0] == [] && fs[1..] == [];
    } else {
      SizeFront(fs[..|fs| - 1]);
      assert fs[..|fs| - 1][1..] == fs[1..][..|fs| - 2];
    }
  }

  /** They can be carried, and take two bytes less than the framer counts. */
  lemma {:induction false} StreamsSendable(fs: seq<StreamFrame>, packetNumber: nat, packetNumberLen: nat)
    requires AllGood(fs) && AllWithLength(fs) && Short(fs)
    ensures var r := LastWithoutLength(fs);
      AllTyped(r) && AllSendable(r, packetNumber, packetNumberLen) && |Payload(r)| == if fs == [] then 0
        else Size(fs) - 2
  {
    if fs == [] {
    } else if |fs| == 1 {
      var f := fs[0].(dataLenPresent := false);
      assert fs[0] in fs;
      SizeFront(fs);
      OneFrame(Stream(f), packetNumber, packetNumberLen);
      assert fs[1..] == [];
    } else {
      assert fs[0] in fs;
      AllTail(fs);
      StreamsSendable(fs[1..], packetNumber, packetNumberLen);
      SizeFront(fs);
      MoreFrames(Stream(fs[0]), LastWithoutLength(fs[1..]), packetNumber, packetNumberLen);
    }
  }

  lemma AllTail(fs: seq<StreamFrame>)
    requires AllGood(fs) && AllWithLength(fs) && Short(fs) && fs != []
    ensures AllGood(fs[1..]) && AllWithLength(fs[1..]) && Short(fs[1..])
  {
  }

  lemma OneFrame(f: Frame, packetNumber: nat, packetNumberLen: nat)
    requires Sendable(f, [], packetNumber, packetNumberLen)
    ensures AllTyped([f]) && AllSendable([f], packetNumber, packetNumberLen)
    ensures Payload([f]) == if FrameBytes(f).Ok? then FrameBytes(f).value else []
  {
    hide Sendable, FrameBytes;
    SendableIsTyped(f, [], packetNumber, packetNumberLen);
    assert [f][1..] == [];
  }

  lemma MoreFrames(f: Frame, fs: seq<Frame>, packetNumber: nat, packetNumberLen: nat)
    requires AllTyped(fs) && AllSendable(fs, packetNumber, packetNumberLen)
      && Sendable(f, Payload(fs), packetNumber, packetNumberLen)
    ensures AllTyped([f] + fs) && AllSendable([f] + fs, packetNumber, packetNumberLen)
    ensures Payload([f] + fs) == (if FrameBytes(f).Ok? then FrameBytes(f).value else []) + Payload(fs)
  {
    hide Sendable, FrameBytes;
    SendableIsTyped(f, Payload(fs), packetNumber, packetNumberLen);
    assert ([f] + fs)[1..] == fs;
  }

  lemma SendableIsTyped(f: Frame, rest: seq<byte>, packetNumber: nat, packetNumberLen: nat)
    requires Sendable(f, rest, packetNumber, packetNumberLen)
    ensures Typed(f)
  {
  }

  /** What is left of the frames of a handshake packet that is sent again. */
  function Kept(fs: seq<Frame>): (r: seq<Frame>)
    ensures |r| <= |fs| && forall f | f in r :: f in fs
  {
    if fs == [] then [] else (if fs[0].Ack? || fs[0].Stop? then [] else [fs[0]]) + Kept(fs[1..])
  }

  lemma {:induction false} KeptOneMore(fs: seq<Frame>, f: Frame)
    ensures Kept(fs + [f]) == Kept(fs) + if f.Ack? || f.Stop? then [] else [f]
  {
    if fs == [] {
      assert fs + [f] == [f] && [f][1..] == [];
    } else {
      assert (fs + [f])[0] == fs[0] && (fs + [f])[1..] == fs[1..] + [f];
      KeptOneMore(fs[1..], f);
    }
  }

  lemma {:induction false} KeptTwice(fs: seq<Frame>)
    ensures Kept(Kept(fs)) == Kept(fs)
  {
    if fs != [] {
      KeptTwice(fs[1..]);
      if !fs[0].Ack? && !fs[0].Stop? { assert Kept(fs)[1..] == Kept(fs[1..]); }
        else { assert Kept(fs) == Kept(fs[1..]); }
    }
  }

  /** Frames that can be carried can be carried again, without those that are left out, and with any packet number. */
  lemma {:induction false} KeptSendable(fs: seq<Frame>, packetNumber: nat, packetNumberLen: nat, packetNumber': nat,
    packetNumberLen': nat)
    requires AllTyped(fs) && AllSendable(fs, packetNumber, packetNumberLen)
    ensures AllTyped(Kept(fs)) && AllSendable(Kept(fs), packetNumber', packetNumberLen')
      && |Payload(Kept(fs))| <= |Payload(fs)|
  {
    hide Typed, FrameBytes, Streams.Encodable;
    if fs != [] {
      var tail := fs[1..];
      assert fs[0] in fs;
      KeptSendable(tail, packetNumber, packetNumberLen, packetNumber', packetNumberLen');
      if fs[0].Ack? || fs[0].Stop? {
        assert Kept(fs) == Kept(tail);
      } else {
        SendableAgain(fs[0], Payload(tail), Payload(Kept(tail)), packetNumber, packetNumberLen, packetNumber',
          packetNumberLen');
        MoreFrames(fs[0], Kept(tail), packetNumber', packetNumberLen');
      }
    }
  }

  lemma SendableAgain(f: Frame, rest: seq<byte>, rest': seq<byte>, packetNumber: nat, packetNumberLen: nat,
    packetNumber': nat, packetNumberLen': nat)
    requires Sendable(f, rest, packetNumber, packetNumberLen) && !f.Ack? && !f.Stop? && |rest'| <= |rest|
    ensures Sendable(f, rest', packetNumber', packetNumberLen')
  {
  }

  /** The frames of a handshake packet that is sent again. */
  ghost function Again(stop: StopWaitingFrame, fs: seq<Frame>): seq<Frame> {
    [Stop(stop)] + Kept(fs)
  }

  /** What is sent again can be taken apart, and the same frames are left to be sent the next time. */
  lemma AgainSendable(fs: seq<Frame>, packetNumber: nat, packetNumberLen: nat, stop: StopWaitingFrame)
    requires AllTyped(fs) && AllSendable(fs, packetNumber, packetNumberLen)
    requires Sendable(Stop(stop), [], stop.packetNumber, stop.packetNumberLen)
    ensures var again := Again(stop, fs);
      && AllTyped(again) && AllSendable(again, stop.packetNumber, stop.packetNumberLen)
      && AllTyped(Kept(fs)) && |Payload(again)| == 1 + stop.packetNumberLen + |Payload(Kept(fs))|
      && stop.packetNumberLen <= 6 && Kept(again) == Kept(fs)
  {
    hide Typed, AllSendable, FrameBytes;
    KeptSendable(fs, packetNumber, packetNumberLen, stop.packetNumber, stop.packetNumberLen);
    KeptTwice(fs);
    StopAnywhere(stop, Payload(Kept(fs)));
    MoreFrames(Stop(stop), Kept(fs), stop.packetNumber, stop.packetNumberLen);
    assert Again(stop, fs)[1..] == Kept(fs);
  }

  /**
   A handshake packet with the reserve can be sent again any number of times: its frames fit into a packet with a longer
   packet number, a full connection ID and a STOP_WAITING frame.
   */
  lemma AgainFits(fs: seq<Frame>, header: nat, packetNumber: nat, packetNumberLen: nat, stop: StopWaitingFrame,
    header': nat)
    requires AllTyped(fs) && AllSendable(fs, packetNumber, packetNumberLen)
    requires header + |Payload(Kept(fs))| <= MAX_FRAME_AND_PUBLIC_HEADER_SIZE - NON_FORWARD_SECURE_PACKET_SIZE_REDUCTION
    requires header' <= header + 4 + 8
    requires Sendable(Stop(stop), [], stop.packetNumber, stop.packetNumberLen)
    ensures var again := Again(stop, fs);
      && AllTyped(again) && AllSendable(again, stop.packetNumber, stop.packetNumberLen)
      && header' + |Payload(again)| <= MAX_FRAME_AND_PUBLIC_HEADER_SIZE
      && Kept(again) == Kept(fs)
  {
    hide Typed, AllSendable, Payload, Again;
    AgainSendable(fs, packetNumber, packetNumberLen, stop);
  }

  lemma StopAnywhere(stop: StopWaitingFrame, rest: seq<byte>)
    requires Sendable(Stop(stop), [], stop.packetNumber, stop.packetNumberLen)
    ensures Sendable(Stop(stop), rest, stop.packetNumber, stop.packetNumberLen)
    ensures FrameBytes(Stop(stop)).Ok? && |FrameBytes(Stop(stop)).value| == 1 + stop.packetNumberLen <= 7
  {
  }

  lemma MemberSize(fs: seq<StreamFrame>, f: StreamFrame)
    requires f in fs
    ensures |f.data| <= Size(fs)
  {
    var i :| 0 <= i < |fs| && fs[i] == f;
    PrefixSize(fs, i);
  }

  lemma {:induction false} PrefixSize(fs: seq<StreamFrame>, i: nat)
    requires i < |fs|
    ensures |fs[i].data| <= Size(fs)
  {
    if i < |fs| - 1 { PrefixSize(fs[..|fs| - 1], i); }
  }

  lemma AllShort(fs: seq<StreamFrame>)
    requires Size(fs) <= MAX_PACKET_SIZE
    ensures Short(fs)
  {
    forall f | f in fs ensures |f.data| <= MAX_PACKET_SIZE {
      MemberSize(fs, f);
    }
  }

  /**
   A STOP_WAITING frame, control frames and STREAM frames make a packet that is not too large and that can be taken
   apart.
   */
  lemma Composed(stop: seq<Frame>, controls: seq<Frame>, fs: seq<StreamFrame>, packetNumber: nat, packetNumberLen: nat,
    maxFrameSize: nat)
    requires |stop| <= 1 && forall f | f in stop :: f.Stop? && Sendable(f, [], packetNumber, packetNumberLen)
    requires forall f | f in controls :: Control(f)
    requires AllTyped(stop) && AllTyped(controls)
      && |Payload(stop)| + |Payload(controls)| <= maxFrameSize <= MAX_FRAME_AND_PUBLIC_HEADER_SIZE
    requires AllGood(fs) && AllWithLength(fs) && Size(fs) <= maxFrameSize + 2 - |Payload(stop)| - |Payload(controls)|
    ensures var all := stop + controls + LastWithoutLength(fs);
      AllTyped(all) && AllSendable(all, packetNumber, packetNumberLen) && |Payload(all)| <= maxFrameSize
  {
    hide Typed, Payload, AllSendable, Size, LastWithoutLength, FrameBytes;
    var streams := LastWithoutLength(fs);
    AllShort(fs);
    StreamsSendable(fs, packetNumber, packetNumberLen);
    PayloadConcat(stop, controls);
    PayloadConcat(stop + controls, streams);
    forall f | f in stop + controls ensures !f.Stream? && Sendable(f, [], packetNumber, packetNumberLen) {
      if f in controls { ControlSendable(f, [], packetNumber, packetNumberLen); }
    }
    SendableConcat(stop + controls, streams, packetNumber, packetNumberLen);
  }
}
