/** A handshake packet that is too large when it is sent again, although nothing but the usual calls led there. */
module FailingHandshake {
  import opened Common
  import opened Wire
  import opened PacketNumbers
  import opened Frames
  import opened Unpacker
  import opened Schedule
  import StreamsMap
  import opened FlowLedgers
  import opened FlowControl
  import opened StreamFramer
  import opened PacketSizes
  import opened PacketPacker
  import opened SentPackets
  import opened SenderBooks
  import Headers = PublicHeaders
  import opened SentHandler
  import opened SessionSends
  import SenderRuns
  import Writer = StreamWriter

  /** What a stream may send that has sent nothing, if nothing was sent on the connection. */
  lemma NothingSent(framer: Framer, id: nat)
    requires framer.Valid() && id in framer.streams && framer.streams[id].sent == []
    requires framer.flow.conn.bytesSent == framer.flow.conn.sendWindow == 0
      && id in framer.flow.streams && framer.flow.streams[id].sendWindow == 0
    ensures framer.flow.SendWindowSize(id) >= Min(framer.flow.sendStreamWindow, framer.flow.sendConnectionWindow)
    ensures framer.streams[id].writeOffset == 0
  {
    hide StreamsMap.TableOk, Retransmissions.QueueOk, Retransmissions.AllGood, SumsOk, SendOk, Writer.OneFin;
    assert framer.streams[id].Valid() && Counted(framer.streams[id], framer.flow);
    var s := framer.streams[id];
    assert |s.written[..s.writeOffset]| == s.writeOffset == 0;
    NothingCounted(s, framer.flow);
    assert framer.flow.streams[id].bytesSent == framer.flow.LedgerOf(id).bytesSent == 0;
  }

  /** The crypto stream is served first. */
  lemma CryptoFirst(open: seq<nat>, index: nat)
    requires 1 in open && index <= |open|
    ensures Order(open, index) != [] && Order(open, index)[0] == 1
  {
  }

  lemma CryptoFills(framer: Framer)
    requires framer.Valid() && 1 in framer.streams && framer.retransmissionQueue == []
    requires framer.streams[1].sent == [] && |framer.streams[1].written| >= MAX_PACKET_SIZE && !framer.streams[1].failed
    requires framer.flow.conn.bytesSent == framer.flow.conn.sendWindow == 0
      && 1 in framer.flow.streams && framer.flow.streams[1].sendWindow == 0
    requires Min(framer.flow.sendStreamWindow, framer.flow.sendConnectionWindow) >= MAX_PACKET_SIZE
    ensures framer.flow.Linked() && framer.Filling()
  {
    hide Retransmissions.QueueOk, Retransmissions.AllGood, SumsOk, SendOk, Order, Writer.OneFin, StreamsMap.CountParity;
    NothingSent(framer, 1);
    CryptoFirst(framer.streamsMap.openStreams, framer.streamsMap.roundRobinIndex);
  }

  /** A new session of a server. */
  ghost predicate IsNew(session: Session)
    reads session, session.handler, session.packer, session.packer.generator, session.packer.framer,
      session.packer.framer.flow, session.packer.framer.flow.conn, session.packer.framer.streamsMap
  {
    && session.packer.perspective == session.packer.framer.streamsMap.perspective == Server
    && session.packer.controlFrames == [] && session.packer.generator.next == 1
    && session.handler.packetHistory == [] && session.handler.retransmissionQueue == []
    && session.handler.lossTime == None && session.handler.largestAcked == 0
    && var framer := session.packer.framer;
    && framer.streams == map[] && framer.retransmissionQueue == [] && framer.repr == {} && framer.flow.streams == map[]
    && framer.streamsMap.highestStreamOpenedByPeer == 0 && framer.streamsMap.streams == {}
    && framer.flow.conn.bytesSent == framer.flow.conn.sendWindow == 0 && framer.flow.made == []
    && framer.flow.sendStreamWindow == framer.flow.sendConnectionWindow == 100000
  }

  method NewServer() returns (session: Session)
    ensures session.Valid() && IsNew(session)
    ensures fresh(session) && fresh(session.handler) && fresh(session.handler.stopWaitingManager)
    ensures fresh(session.packer) && fresh(session.packer.generator) && fresh(session.packer.framer)
    ensures fresh(session.packer.framer.flow) && fresh(session.packer.framer.flow.conn)
      && fresh(session.packer.framer.streamsMap)
  {
    hide Session.Valid, Packer.Valid, Framer.Valid, FlowControlManager.Valid, FlowControlManager.Linked,
      FlowControlManager.Sending, FlowControlManager.Receiving, Framer.BlockedOk, AllControl;
    var flow := new FlowControlManager(100000, 100000, 100000, 100000, 100000, 100000);
    var m := new StreamsMap.Map(Server);
    NoneOpen(m);
    var framer := new Framer(m, flow);
    var packer := new Packer(Server, 1, 0, framer);
    session := new Session(packer);
  }

  lemma EmptyIds(q: seq<nat>)
    ensures StreamsMap.Ids(q) == {} <==> q == []
  {
    if q != [] { assert q[0] in StreamsMap.Ids(q); }
  }

  lemma NoneOpen(m: StreamsMap.Map)
    requires m.Valid() && (m.openStreams == [] || m.streams == {})
    ensures m.streams == {} && m.numIncomingStreams == 0
  {
    EmptyIds(m.openStreams);
  }

  lemma NothingToSend(framer: Framer, id: nat)
    requires framer.Valid() && id in framer.streams && framer.streams[id].written == []
    ensures framer.streams[id].dataForWriting == None
  {
    hide FlowControlManager.Valid, FlowControlManager.Sending, StreamsMap.TableOk;
    assert framer.streams[id].Valid();
  }

  lemma FramerOf(session: Session)
    requires session.Valid()
    ensures session.packer.framer.Valid() && session.packer.framer.streamsMap.Valid()
      && session.packer.framer.streamsMap.streams == session.packer.framer.streams.Keys
      == session.packer.framer.flow.streams.Keys
  {
    hide FlowControlManager.Valid, FlowControlManager.Sending, Framer.StreamsOk, AllControl, Session.Derived,
      Session.Remembered, Session.Logged, SenderRuns.Ready, StreamsMap.TableOk;
  }

  /** The first stream of the peer can be opened. */
  lemma IsOpened(session: Session, r: StreamsMap.OpenResult, k: nat)
    requires session.Valid() && r in {StreamsMap.Opened, StreamsMap.TooManyOpenStreams}
    requires r == StreamsMap.Opened ==> 1 + 2 * k == 3
    requires r == StreamsMap.TooManyOpenStreams ==>
      session.packer.framer.streamsMap.numIncomingStreams >= 100 && 1 + 2 * k <= 1
    requires NewStreams(map[], session.packer.framer.streams, 1, k)
    ensures r == StreamsMap.Opened && k == 1 && 1 in session.packer.framer.streams
  {
    hide Session.Valid, FlowControlManager.Valid;
    FramerOf(session);
    assert StreamsMap.NextIds(1, 0) == [] && StreamsMap.NextIds(1, 1) == [1];
    if k == 0 { NoneOpen(session.packer.framer.streamsMap); }
  }

  method OpenCryptoStream(session: Session)
    requires session.Valid() && IsNew(session)
    modifies session.packer.framer`streams, session.packer.framer`repr, session.packer.framer.streamsMap
    modifies session.packer.framer.flow`streams, session.packer.framer.flow`all, session.packer.framer.flow`made
    ensures session.Valid() && 1 in session.packer.framer.streams && 1 in session.packer.framer.flow.streams
    ensures var s := session.packer.framer.streams[1];
      s.written == [] && s.sent == [] && !s.failed && s.dataForWriting == None
    ensures session.packer.framer.flow.streams[1].sendWindow == 0
    ensures fresh(session.packer.framer.repr) && fresh(session.packer.framer.flow.made)
  {
    hide Session.Valid, Packer.Valid, Framer.Valid, FlowControlManager.Valid, FlowControlManager.Linked,
      FlowControlManager.Sending, StreamsMap.TableOk;
    var r, k := session.GetOrOpenStream(1, 100);
    IsOpened(session, r, k);
    FramerOf(session);
    NothingToSend(session.packer.framer, 1);
    ghost var made := session.packer.framer.flow.made;
    forall i | 0 <= i < |made| ensures fresh(made[i]) {
      assert made[i] in session.packer.framer.flow.made && made[i] !in old(session.packer.framer.flow.made);
    }
  }

  /** The crypto stream is opened, gets more than fits into a packet, and forward security is there. */
  method StartHandshake(session: Session, data: seq<byte>)
    requires session.Valid() && IsNew(session) && MAX_PACKET_SIZE <= |data| < TWO_48
    modifies session.packer`isForwardSecure, session.packer.framer`streams, session.packer.framer`repr
    modifies session.packer.framer.streamsMap, session.packer.framer.flow`streams, session.packer.framer.flow`all,
      session.packer.framer.flow`made
    ensures session.Valid() && session.packer.isForwardSecure
    ensures fresh(session.packer.framer.repr) && fresh(session.packer.framer.flow.made)
    ensures session.packer.framer.flow.Linked() && session.packer.framer.Filling()
  {
    hide Session.Valid, Packer.Valid, Framer.Valid, FlowControlManager.Valid, FlowControlManager.Linked,
      FlowControlManager.Sending, StreamsMap.TableOk, Framer.Filling, FlowControlManager.SendWindowSize;
    OpenCryptoStream(session);
    var _ := session.Write(1, data);
    session.SetForwardSecure();
    FramerOf(session);
    CryptoFills(session.packer.framer);
  }

  /** A packet that is full and carries nothing but STREAM frames does not fit next to a STOP_WAITING frame. */
  lemma FullOverflows(session: Session, p: Packed)
    requires IsFilled(p, session.packer.HeaderSize(2, Secure, false), true) && Carried(p) && p.level == Secure
    requires 0 < session.packer.generator.next < 0x8000
    ensures session.Overflows(p, false)
  {
    hide Payload, Typed, AllSendable;
    AllKept(p.frames);
  }

  lemma {:induction false} AllKept(fs: seq<Frame>)
    requires forall f | f in fs :: f.Stream?
    ensures Kept(fs) == fs
  {
    if fs != [] {
      assert fs[0] in fs && fs == [fs[0]] + fs[1..];
      AllKept(fs[1..]);
    }
  }

  lemma FirstPacket(session: Session, p: Packed)
    requires session.Valid() && session.log != [] && session.log[|session.log| - 1] == p
    requires p.number == session.handler.lastSentPacketNumber == 1
    ensures Carried(p) && 0 < session.packer.generator.next <= 3
    ensures LengthForPublicHeader(1, 1) == 2
  {
    hide Balanced, NeverSent, Dense, Announced, Session.Remembered, Session.Derived, Session.Logged, Packer.Valid,
      Headers.Write, Headers.Regular;
    session.LastIsReadable(p);
    var h, truncate, nonce :| Bears(p, h, session.packer.GetIdentity(), truncate, nonce);
  }

  lemma NothingTaken(q: Queues, q': Queues, c: Contents)
    requires Takes(q, q', [], c) && q.controls == []
    ensures c.taken == []
  {
    hide Reversed;
    if c.taken != [] { ReversedLast(c.left, c.taken); }
  }

  lemma QueuedControls(session: Session)
    ensures session.GetQueues().controls == session.packer.controlFrames
  {
  }

  /**
   The server packs the crypto data with the secure level, because it has not sent its SHLO yet. The packet is lost, the
   alarm queues it, and then it is too large to be sent again: the session is closed.
   */
  method HandshakeTooLarge(data: seq<byte>, nonce: seq<byte>) returns (tooLarge: bool, log: seq<Packed>)
    requires MAX_PACKET_SIZE <= |data| < TWO_48 && |nonce| == 32
    ensures tooLarge && |log| == 1 && log[0].level == Secure
  {
    hide Session.Valid, Packer.Valid, Framer.Valid, FlowControlManager.Valid, FlowControlManager.Linked, Framer.Filling,
      IsFilled, Carried, Session.Overflows, AllControl, LengthForPublicHeader, Takes, Session.GetQueues, Holds,
      Announces, Bears, IsSentAgain, NextStop, LastIsSmall, StillDue, StreamFramesOf;
    var session := NewServer();
    StartHandshake(session, data);
    var s := Setting(Secure, false, nonce, None, 0);
    var r;
    ghost var c;
    NoControls();
    ghost var before := session.GetQueues();
    QueuedControls(session);
    r, c := session.SendNew(false, false, [], s);
    NothingTaken(before, session.GetQueues(), c);
    FirstPacket(session, r.packet);
    session.OnAlarm(1000, 0);
    FullOverflows(session, r.packet);
    var controls;
    ghost var packet, again;
    controls, tooLarge, packet, again := session.Retransmit(s);
    log := [r.packet];
  }
}
