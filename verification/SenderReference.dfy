/** What the sender does, as a function of the events: the reference for SenderRuns. */
module SenderReference {
  import opened Common
  import opened AckFrames
  import opened PacketNumbers
  import opened SentPackets
  import opened AckScan
  import opened SenderBooks
  import opened SentHandler

  /** What the packer puts into the packet, as far as the sender's books are concerned. */
  datatype Packed = Packed(length: nat, sendTime: int, random: Option<nat>)

  /**
   A round of sending: the i-th packet taken off the retransmission queue is a handshake packet that is sent again if
   there is an i-th element that says so, and else its frames wait for the packet at the end of the round, which has a
   STOP_WAITING frame if it has an ACK or frames sent again.
   */
  datatype Event =
    | Round(congestionWindow: nat, handshake: seq<Option<Packed>>, hasAck: bool, hasRetransmission: bool,
      last: Option<Packed>)
    | Ack(frame: AckFrame, withPacketNumber: nat, now: int, delayUntilLost: int)
    | Alarm(now: int, delayUntilLost: int)

  /** A packed packet has at least a header, and ACK frames are the ones that the parser accepts. */
  ghost predicate Possible(e: Event) {
    match e
    case Round(_, handshake, _, _, last) =>
      (forall p | p in handshake :: p.Some? ==> p.value.length > 0) && (last.Some? ==> last.value.length > 0)
    case Ack(frame, _, _, _) => WellFormed(frame)
    case Alarm(_, _) => true
  }

  /** A packet on the wire; `leastUnacked` is what its STOP_WAITING frame says, if it has one. */
  datatype Sent = Sent(number: nat, numberLen: nat, leastUnacked: Option<nat>)

  /**
   The packets on the wire, in flight and to be sent again, and the fate of every packet; the largest packet that is
   acknowledged and the one that said so; when the next packet is lost; what the next STOP_WAITING frame names and what
   the last one named; and whether the connection was closed because a packet was acknowledged before it was sent.
   */
  datatype Books = Books(
    log: seq<Sent>, history: seq<Packet>, queue: seq<Packet>, fates: Fates, lastSent: nat, largestAcked: nat,
      withAck: nat,
    lossTime: Option<int>, next: nat, named: nat, stopped: bool)

  ghost function Replay(events: seq<Event>): Books {
    if events == [] then Books([], [], [], map[], 0, 0, 0, None, 0, 0, false)
    else Apply(Replay(events[..|events| - 1]), events[|events| - 1])
  }

  ghost function Apply(b: Books, e: Event): Books {
    if b.stopped then b
    else
      match e
      case Round(_, _, _, _, _) => AfterRound(b, e)
      case Ack(_, _, _, _) => AfterAck(b, e)
      case Alarm(now, delayUntilLost) => AfterAlarm(b, now, delayUntilLost)
  }

  /**
   The oldest packet in the history, or the one after the largest acknowledged. Packets before it are acknowledged, or
   wait to be sent again.
   */
  ghost function LeastUnacked(b: Books): nat {
    if b.history != [] then b.history[0].number else b.largestAcked + 1
  }

  /** Packets are numbered without a gap. */
  ghost function AfterSending(b: Books, p: Packed, leastUnacked: nat, stopWaiting: Option<nat>): Books {
    var n := b.lastSent + 1;
    b.(log := b.log + [Sent(n, LengthForPublicHeader(n, leastUnacked), stopWaiting)],
       history := b.history + [Packet(n, p.length, p.sendTime)], fates := b.fates[n := Outstanding], lastSent := n)
  }

  /** What a STOP_WAITING frame names, if there is one. */
  ghost function Named(b: Books, force: bool): Option<nat> {
    if b.next > 0 && (force || b.named < b.next) then Some(b.next) else None
  }

  /** The queue is a stack, from which handshake packets are sent again. */
  ghost function AfterDequeueing(b: Books, again: Option<Packed>): Books
    requires b.queue != []
  {
    var n := |b.queue| - 1;
    var b' := b.(queue := b.queue[..n], fates := Refate(b.fates, {b.queue[n].number}, Dequeued));
    if again == None then b' else AfterSending(b'.(named := b.next), again.value, 0, Named(b', true))
  }

  ghost function AfterResending(b: Books, handshake: seq<Option<Packed>>): Books
    decreases |b.queue|
  {
    if b.queue == [] then b
    else if handshake == [] then AfterResending(AfterDequeueing(b, None), [])
    else AfterResending(AfterDequeueing(b, handshake[0]), handshake[1..])
  }

  ghost function AfterRound(b: Books, e: Event): Books
    requires e.Round?
  {
    if Bytes(b.history) > e.congestionWindow || |b.queue| + |b.history| >= MAX_TRACKED_SENT then b
    else
      var b := AfterResending(b, e.handshake);
      var asked := e.hasAck || e.hasRetransmission;
      var stopWaiting := if asked then Named(b, e.hasRetransmission) else None;
      var b := if asked then b.(named := b.next) else b;
      if e.last == None then b else AfterSending(b, e.last.value, LeastUnacked(b), stopWaiting)
  }

  /**
   An ACK of a packet that was not sent ends the connection. Old and repeated ACKs change nothing. Of the packets in
   flight, those that are acknowledged leave, and those of the others that are lost are queued.
   */
  ghost function AfterAck(b: Books, e: Event): Books
    requires e.Ack?
  {
    var f := e.frame;
    if f.largestAcked > b.lastSent then b.(stopped := true)
    else if e.withPacketNumber <= b.withAck then b
    else if f.largestAcked < LeastUnacked(b) then b.(withAck := e.withPacketNumber)
    else
      var unacked := Unacked(b.history, f);
      var lost := LostIn(unacked, f.largestAcked, e.now, e.delayUntilLost);
      b.(withAck := e.withPacketNumber, largestAcked := f.largestAcked,
         history := NotLost(unacked, f.largestAcked, e.now, e.delayUntilLost), queue := b.queue + lost,
         fates := Refate(Refate(b.fates, Numbers(AckedBy(b.history, f)), Acked), Numbers(lost), Queued),
         lossTime := LossTime(unacked, f.largestAcked, e.now, e.delayUntilLost),
         next := Max(NextAfter(b.next, lost), f.largestAcked + 1))
  }

  ghost function AfterAlarm(b: Books, now: int, delayUntilLost: int): Books {
    var lost := TakenByAlarm(b.history, b.lossTime, b.largestAcked, now, delayUntilLost);
    var left := if b.lossTime.Some? then NotLost(b.history, b.largestAcked, now, delayUntilLost)
      else b.history[|lost|..];
    b.(history := left,
       queue := b.queue + lost, fates := Refate(b.fates, Numbers(lost), Queued), next := NextAfter(b.next, lost),
       lossTime := if b.lossTime.Some? then LossTime(b.history, b.largestAcked, now, delayUntilLost) else None)
  }

  /** Only an ACK closes the connection. */
  lemma StopStep(b: Books, e: Event)
    ensures Apply(b, e).stopped <==> b.stopped || (e.Ack? && e.frame.largestAcked > b.lastSent)
  {
    if e.Round? { ResendingStops(b, e.handshake); }
  }

  lemma {:induction false} ResendingStops(b: Books, handshake: seq<Option<Packed>>)
    ensures AfterResending(b, handshake).stopped == b.stopped
    decreases |b.queue|
  {
    if b.queue != [] {
      if handshake == [] {
        ResendingStops(AfterDequeueing(b, None), []);
      } else {
        ResendingStops(AfterDequeueing(b, handshake[0]), handshake[1..]);
      }
    }
  }

  /** The connection is closed if and only if a packet is acknowledged that was not sent until then. */
  lemma {:induction false} StoppedByAck(events: seq<Event>)
    ensures Replay(events).stopped <==> exists i | 0 <= i < |events| :: AcksUnsent(events, i)
  {
    hide Apply;
    if events != [] {
      var n := |events| - 1;
      var past := events[..n];
      StoppedByAck(past);
      StopStep(Replay(past), events[n]);
      assert AcksUnsent(events, n) <==> events[n].Ack? && events[n].frame.largestAcked > Replay(past).lastSent;
      forall i | 0 <= i < n ensures AcksUnsent(events, i) <==> AcksUnsent(past, i) { assert events[..i] == past[..i]; }
      if Replay(past).stopped {
        var i :| 0 <= i < n && AcksUnsent(past, i);
        assert AcksUnsent(events, i);
      }
      if exists i | 0 <= i <= n :: AcksUnsent(events, i) {
        var i :| 0 <= i <= n && AcksUnsent(events, i);
        assert i < n ==> AcksUnsent(past, i);
      }
    }
  }

  ghost predicate AcksUnsent(events: seq<Event>, i: nat)
    requires i < |events|
  {
    events[i].Ack? && events[i].frame.largestAcked > Replay(events[..i]).lastSent
  }
}
