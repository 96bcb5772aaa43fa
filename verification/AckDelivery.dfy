/** An ACK on its way into a packet and out of it again: it is small enough for every packet. */
module AckDelivery {
  import opened Common
  import opened AckFrames
  import opened AckBlocks
  import opened AckCodec
  import Float16
  import opened Frames
  import opened Unpacker
  import opened PacketSizes
  import Headers = PublicHeaders
  import opened PacketPacker
  import opened ReceivedHistory
  import ReceivedHandler
  import opened ReceiverRuns
  import opened SessionSends

  /** The type byte, the delay, the number of ranges and timestamps, the largest packet, and 255 short ranges. */
  const MAX_ACK_SIZE: nat := 4 + 6 + 3 * 255

  lemma {:induction false} StretchSize(first: nat, last: nat, packets: set<nat>)
    requires first <= last && forall p | first <= p <= last :: p in packets
    ensures last - first + 1 <= |packets|
    decreases last
  {
    if first < last {
      StretchSize(first, last - 1, packets - {last});
    }
    assert last in packets;
  }

  /** The lengths of the ranges of an ACK of few packets fit into two bytes. */
  lemma ShortRanges(f: AckFrame, packets: set<nat>)
    requires Ordered(f) && |packets| < 0x1_0000 && forall p: nat | Acks(f, p) :: p in packets
    ensures DeltaLen(f) <= 2
  {
    if f.ackRanges == [] {
      StretchSize(f.lowestAcked, f.largestAcked, packets);
    } else {
      forall i | 0 <= i < |f.ackRanges| ensures Length(f.ackRanges[i]) < 0x1_0000 {
        StretchSize(f.ackRanges[i].first, f.ackRanges[i].last, packets);
      }
    }
  }

  lemma ShortAck(f: AckFrame, packets: set<nat>)
    requires Ordered(f) && |packets| < 0x1_0000 && forall p: nat | Acks(f, p) :: p in packets
    ensures |AckBytes(f, SentCount(f), [])| <= MAX_ACK_SIZE
  {
    hide Ordered, Acks, AckBytes, SentCount, DeltaLen, BlockCount;
    ShortRanges(f, packets);
    SentBlocks(f);
    AckBytesLength(f, SentCount(f), []);
    var l, n := DeltaLen(f), BlockCount(f.ackRanges, SentCount(f)) + 1;
    assert (1 + l) * n <= 3 * 255 by { Product(1 + l, n); }
  }

  lemma SentBlocks(f: AckFrame)
    requires Ordered(f)
    ensures SentCount(f) <= |f.ackRanges| && Descending(f.ackRanges) && BlockCount(f.ackRanges, SentCount(f)) < 0xFF
  {
  }

  lemma Product(a: nat, b: nat)
    requires a <= 3 && b <= 255
    ensures a * b <= 3 * 255
  {
    assert a == 0 || a == 1 || a == 2 || a == 3;
  }

  /** No more packets are tracked than the history has room for. */
  lemma {:induction false} FewNumbers(events: seq<Event>)
    ensures |Replay(events).numbers| <= MAX_TRACKED_PACKETS
  {
    hide ReceivedHandler.AfterArrival, ReceivedHandler.IsDue;
    if events != [] {
      var n := |events| - 1;
      var r, e := Replay(events[..n]), events[n];
      FewNumbers(events[..n]);
      var r' := Apply(r, e);
      if IsNew(r, e) && !Rejects(r, e) && !r.stopped {
        assert |r.numbers + {e.number}| <= MAX_TRACKED_PACKETS;
        SubsetSize(r'.numbers, r.numbers + {e.number});
      }
    }
  }

  /** An ACK of the packets that are tracked fits into every packet. */
  lemma AckIsSmall(events: seq<Event>, ack: AckFrame)
    requires Faithful(ack, Replay(events)) && Ordered(ack)
    ensures LastIsSmall([Ack(ack)])
  {
    hide Replay, Ordered, WellFormed, Acks, AckBytes, SentCount;
    FewNumbers(events);
    ShortAck(ack, Replay(events).numbers);
  }

  /** What is written of an ACK acknowledges the same packets, from some number on. */
  lemma SentAcks(f: AckFrame, p: nat)
    requires Ordered(f) && WellFormed(f)
    ensures Sent(f).largestAcked == f.largestAcked
    ensures Acks(Sent(f), p) <==> Acks(f, p) && Sent(f).lowestAcked <= p
  {
    if f.ackRanges != [] {
      var k := AckBlocks.Kept(f.ackRanges);
      var sent := Sent(f).ackRanges;
      assert forall i | 0 <= i < k :: sent[i] == f.ackRanges[i];
      if Acks(f, p) && Sent(f).lowestAcked <= p {
        var i :| 0 <= i < |f.ackRanges| && f.ackRanges[i].first <= p <= f.ackRanges[i].last;
        assert i < k;
        assert sent[i].first <= p <= sent[i].last;
      }
    }
  }

  /** The other side finds the ACK in the packet. */
  ghost predicate FindsAck(p: Packed, ack: AckFrame)
    requires Ordered(ack)
  {
    var r := ParseFrames(p.payload, p.number, p.numberLen, p.level != Unencrypted);
    r.Ok? && Ack(Sent(ack)) in r.value
  }

  lemma ReadsAck(p: Packed, id: Identity, c: Contents, ack: AckFrame)
    requires Readable(p, id) && Holds(p, c) && c.taken != [] && c.taken[0] == Ack(ack) && Ordered(ack)
    ensures FindsAck(p, ack)
  {
    hide Headers.Write, Headers.Regular, ParseFrames, AllSendable, Payload, LastWithoutLength, Ordered, Sent;
    var h, truncate, nonce :| Bears(p, h, id, truncate, nonce);
    UnpackPacked(p.frames, p.number, p.numberLen, p.level != Unencrypted);
    var i := |StopPart(StopFrame(c.stop, p.numberLen, p.number))|;
    assert p.frames[i] == c.taken[0];
    assert DeliveredAll(p.frames)[i] == Ack(Sent(ack));
  }

  /**
   An ACK that is due is given to the session: unless the sender must not send, or a handshake packet does not fit any
   more, there is a packet, the other side finds the ACK in it, and what it finds acknowledges the packets that were
   received, from some number up to the largest.
   */
  method SendAck(session: Session, ack: AckFrame, ghost events: seq<Event>, congestionWindow: nat,
    windowUpdates: seq<Frame>, s: Setting)
    returns (r: PackResult)
    requires session.Valid() && session.Fits(s) && AllControl(windowUpdates)
    requires Control(Ack(ack)) && Faithful(ack, Replay(events))
    modifies session`packets, session`log, session`unreserved, session`made, session.handler,
      session.handler.stopWaitingManager
    modifies session.packer`controlFrames, session.packer.generator
    modifies session.packer.framer`retransmissionQueue, session.packer.framer`queued, session.packer.framer`groups,
      session.packer.framer`blockedFrameQueue
    modifies session.packer.framer.flow`all, session.packer.framer.flow.conn`bytesSent,
      session.packer.framer.flow.made`bytesSent, session.packer.framer.streamsMap`roundRobinIndex
    modifies session.packer.framer.repr`dataForWriting, session.packer.framer.repr`writeOffset,
      session.packer.framer.repr`finSent, session.packer.framer.repr`sent
    ensures session.Valid() && Ordered(ack)
    ensures old(session.handler.SendingAllowed(congestionWindow)) ==> r.Done? || r == UnencryptedData || r == TooLarge
    ensures r == TooLarge ==>
      exists p | p in old(session.handler.retransmissionQueue) :: p.number in old(session.unreserved)
    ensures r.Done? ==> FindsAck(r.packet, ack)
    ensures forall p: nat :: Acks(Sent(ack), p) <==> p in Replay(events).numbers && Sent(ack).lowestAcked <= p
    ensures Sent(ack).largestAcked == ack.largestAcked
  {
    hide *;
    IsOrdered(ack);
    AckIsSmall(events, ack);
    ArrivesFaithful(events, ack);
    ghost var c, again;
    r, c, again := session.SendPacket(congestionWindow, windowUpdates, Some(Ack(ack)), s);
    if r.Done? {
      session.LastIsReadable(r.packet);
      ReadsAck(r.packet, session.packer.GetIdentity(), c, ack);
    }
  }

  lemma IsOrdered(ack: AckFrame)
    requires Control(Ack(ack))
    ensures Ordered(ack)
  {
  }

  lemma ArrivesFaithful(events: seq<Event>, ack: AckFrame)
    requires Ordered(ack) && Faithful(ack, Replay(events))
    ensures forall p: nat :: Acks(Sent(ack), p) <==> p in Replay(events).numbers && Sent(ack).lowestAcked <= p
    ensures Sent(ack).largestAcked == ack.largestAcked
  {
    hide Replay, Ordered, Acks, Sent;
    SentAcks(ack, 0);
    forall p: nat ensures Acks(Sent(ack), p) <==> p in Replay(events).numbers && Sent(ack).lowestAcked <= p {
      SentAcks(ack, p);
    }
  }
}
