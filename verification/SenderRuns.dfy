/** Whole runs of the sender: session.go's sendPacket with the packet number generator and the sent packet handler. */
module SenderRuns {
  import opened Common
  import opened AckFrames
  import opened Wire
  import opened PacketNumbers
  import opened StopWaiting
  import opened SentPackets
  import opened AckScan
  import opened SenderBooks
  import opened SentHandler
  import opened PacketNumberGeneration
  import opened SenderReference

  /** The STOP_WAITING frame can be written, and read back. */
  ghost predicate Announces(s: Sent) {
    s.leastUnacked.Some? ==>
      && s.numberLen in {2, 4, 6} && 0 < s.leastUnacked.value <= s.number
      && s.number - s.leastUnacked.value < Pow256(s.numberLen)
  }

  lemma AnnouncesReadsBack(s: Sent, rest: seq<byte>)
    requires Announces(s) && s.leastUnacked.Some?
    ensures var f := StopWaitingFrame(s.leastUnacked.value, s.numberLen, s.number);
      Write(f).Ok? && Parse(Write(f).value + rest, s.number, s.numberLen) == Ok((s.leastUnacked.value, rest))
  {
    ReadBack(StopWaitingFrame(s.leastUnacked.value, s.numberLen, s.number), rest);
  }

  /** A set that has one of any two consecutive numbers of a stretch has at least half as many numbers. */
  lemma {:induction false} HalfOfStretch(numbers: set<nat>, first: nat, last: nat)
    requires forall n | first <= n < last :: n in numbers || n + 1 in numbers
    ensures last <= first + 2 * |numbers|
    decreases last - first
  {
    if first < last {
      var m := if first in numbers then first else first + 1;
      assert m in numbers;
      HalfOfStretch(numbers - {m}, first + 2, last);
    }
  }

  lemma {:induction false} NumbersSize(h: seq<Packet>)
    ensures |Numbers(h)| <= |h|
  {
    if h != [] {
      var front, last := h[..|h| - 1], h[|h| - 1];
      NumbersSize(front);
      assert h == front + [last];
      assert Numbers(h) == Numbers(front) + {last.number};
    }
  }

  /**
   All packets from the one that STOP_WAITING frames name on are in flight, so that it is not far behind the last one.
   */
  lemma NamedIsNear(h: seq<Packet>, queue: seq<Packet>, bytes: nat, lastSent: nat, fates: Fates, next: nat)
    requires Balanced(h, queue, bytes, lastSent, fates) && Announced(fates, next, lastSent) && Dense(fates, lastSent)
      && next > 0
    ensures next <= lastSent + 1 <= next + 2 * |h| + 1
  {
    forall n | next <= n < lastSent ensures n in Numbers(h) || n + 1 in Numbers(h) {
      var m := if n in fates then n else n + 1;
      assert m in fates && fates[m] == Outstanding;
    }
    HalfOfStretch(Numbers(h), next, lastSent);
    NumbersSize(h);
  }

  /** Whatever length is chosen for the packet number, it is enough for the STOP_WAITING frame. */
  lemma StopWaitingFits(h: seq<Packet>, queue: seq<Packet>, bytes: nat, lastSent: nat, fates: Fates, next: nat,
    pn: nat, leastUnacked: nat)
    requires Balanced(h, queue, bytes, lastSent, fates) && Announced(fates, next, lastSent) && Dense(fates, lastSent)
      && next > 0
    requires lastSent < pn <= lastSent + 2 && |h| <= MAX_TRACKED_SENT
    ensures next <= pn && pn - next < Pow256(LengthForPublicHeader(pn, leastUnacked))
  {
    NamedIsNear(h, queue, bytes, lastSent, fates, next);
    PowValues();
  }

  /** What holds of the sender between any two steps. */
  ghost predicate Ready(h: SentPacketHandler, g: PacketNumberGenerator)
    reads h, h.stopWaitingManager, g
  {
    && h.Valid() && h.SkipsOk() && Dense(h.fates, h.lastSentPacketNumber)
    && g.averagePeriod >= 1 && h.lastSentPacketNumber < g.next <= h.lastSentPacketNumber + 2
  }

  /** The sender is in the state that the reference says. */
  ghost predicate Mirrors(h: SentPacketHandler, g: PacketNumberGenerator, log: seq<Sent>, b: Books)
    reads h, h.stopWaitingManager, g
  {
    && log == b.log && h.packetHistory == b.history && h.retransmissionQueue == b.queue && h.fates == b.fates
    && h.lastSentPacketNumber == b.lastSent && h.largestAcked == b.largestAcked
      && h.largestReceivedPacketWithAck == b.withAck
    && h.lossTime == b.lossTime && h.stopWaitingManager.nextLeastUnacked == b.next
    && h.stopWaitingManager.largestLeastUnackedSent == b.named
    && h.skippedPackets == [] && g.next == b.lastSent + 1 && g.nextToSkip <= b.lastSent && !b.stopped
  }

  /** Sends one packet, which is in the books from then on. The packer takes a number off the generator only now. */
  method SendPackedPacket(h: SentPacketHandler, g: PacketNumberGenerator, leastUnacked: nat, stopWaiting: Option<nat>,
    p: Packed)
    returns (s: Sent)
    requires Ready(h, g) && p.length > 0
    requires |h.retransmissionQueue| + |h.packetHistory| < MAX_TRACKED_SENT
    requires stopWaiting.Some? ==> stopWaiting.value == h.stopWaitingManager.nextLeastUnacked > 0
    modifies h`lastSentPacketNumber, h`skippedPackets, h`packetHistory, h`bytesInFlight, h`fates, g
    ensures Ready(h, g) && s.number == h.lastSentPacketNumber == old(g.next) && s.leastUnacked == stopWaiting
      && Announces(s)
    ensures s.numberLen == LengthForPublicHeader(s.number, leastUnacked)
    ensures h.fates == old(h.fates)[s.number := Outstanding] && AllMove(old(h.fates), h.fates)
    ensures h.packetHistory == old(h.packetHistory) + [Packet(s.number, p.length, p.sendTime)]
    ensures forall log, b: Books :: old(Mirrors(h, g, log, b)) ==>
      Mirrors(h, g, log + [s], AfterSending(b, p, leastUnacked, stopWaiting))
  {
    hide Balanced, NeverSent, AllMove, Dense, Announced;
    var numberLen := LengthForPublicHeader(g.next, leastUnacked);
    if stopWaiting.Some? {
      StopWaitingFits(h.packetHistory, h.retransmissionQueue, h.bytesInFlight, h.lastSentPacketNumber, h.fates,
        h.stopWaitingManager.nextLeastUnacked, g.next, leastUnacked);
    }
    LastIsSent(h);
    SendDense(h.fates, h.lastSentPacketNumber, g.next);
    var number := g.Pop(p.random);
    var r := h.SentPacket(Packet(number, p.length, p.sendTime));
    s := Sent(number, numberLen, stopWaiting);
  }

  lemma LeastUnackedBound(h: SentPacketHandler, g: PacketNumberGenerator)
    requires Ready(h, g)
    ensures 0 <= h.GetLeastUnacked() <= g.next
    ensures h.packetHistory != [] ==> h.GetLeastUnacked() == h.packetHistory[0].number
  {
    if h.packetHistory != [] { assert h.packetHistory[0] in h.packetHistory; }
  }

  lemma LastIsSent(h: SentPacketHandler)
    requires h.Valid()
    ensures h.lastSentPacketNumber > 0 ==> h.lastSentPacketNumber in h.fates
  {
  }

  /** Numbers grow, and every STOP_WAITING frame can be read back. */
  ghost predicate GoodLog(log: seq<Sent>, lastSent: nat) {
    && (forall s | s in log :: Announces(s) && 0 < s.number <= lastSent)
    && forall i, j | 0 <= i < j < |log| :: log[i].number < log[j].number
  }

  lemma LogGrows(log: seq<Sent>, lastSent: nat, s: Sent)
    requires GoodLog(log, lastSent) && lastSent < s.number && Announces(s)
    ensures GoodLog(log + [s], s.number)
  {
  }

  /** The numbers on the wire are those in the books. */
  ghost predicate Booked(log: seq<Sent>, fates: Fates) {
    (forall s | s in log :: s.number in fates) && forall n | n in fates :: exists s | s in log :: s.number == n
  }

  lemma BookedGrows(log: seq<Sent>, fates: Fates, s: Sent)
    requires Booked(log, fates)
    ensures Booked(log + [s], fates[s.number := Outstanding])
  {
    var fates' := fates[s.number := Outstanding];
    forall n | n in fates' ensures exists t | t in log + [s] :: t.number == n {
      if n == s.number { assert s in log + [s]; } else { var t :| t in log && t.number == n; assert t in log + [s]; }
    }
  }

  /** Takes a packet off the retransmission queue, and sends it again if it is a handshake packet. */
  method Retransmit(h: SentPacketHandler, g: PacketNumberGenerator, again: Option<Packed>, log: seq<Sent>,
    ghost b: Books)
    returns (log': seq<Sent>)
    requires Ready(h, g) && h.retransmissionQueue != [] && (again.Some? ==> again.value.length > 0)
    requires |h.retransmissionQueue| + |h.packetHistory| < MAX_TRACKED_SENT
    requires GoodLog(log, h.lastSentPacketNumber) && Booked(log, h.fates) && Mirrors(h, g, log, b)
    modifies h, h.stopWaitingManager, g
    ensures Ready(h, g) && GoodLog(log', h.lastSentPacketNumber) && Booked(log', h.fates) && log <= log'
    ensures |h.retransmissionQueue| + |h.packetHistory| < MAX_TRACKED_SENT
    ensures AllMove(old(h.fates), h.fates) && Mirrors(h, g, log', AfterDequeueing(b, again))
  {
    hide Balanced, NeverSent, AllMove, Dense, Announced, GoodLog, Booked;
    ghost var fates0, last := h.fates, h.lastSentPacketNumber;
    var p := h.DequeuePacketForRetransmission();
    SameKeys(log, fates0, h.fates, h.skippedPackets, h.lastSentPacketNumber);
    ghost var fates1 := h.fates;
    log' := log;
    assert Mirrors(h, g, log, AfterDequeueing(b, None));
    if again.Some? {
      DequeuedIsAnnounced(h, p.value.number);
      var stopWaiting := h.GetStopWaitingFrame(true);
      var s := SendPackedPacket(h, g, 0, stopWaiting, again.value);
      MovesCompose(fates0, fates1, h.fates);
      LogGrows(log, last, s);
      BookedGrows(log, fates1, s);
      log' := log + [s];
    }
  }

  lemma SameKeys(log: seq<Sent>, fates: Fates, fates': Fates, skipped: seq<nat>, lastSent: nat)
    requires fates'.Keys == fates.Keys
    ensures Booked(log, fates) <==> Booked(log, fates')
    ensures Dense(fates, lastSent) <==> Dense(fates', lastSent)
    ensures NeverSent(skipped, fates, lastSent) <==> NeverSent(skipped, fates', lastSent)
  {
  }

  lemma DequeuedIsAnnounced(h: SentPacketHandler, n: nat)
    requires h.Valid() && n in h.fates && h.fates[n] == Dequeued
    ensures h.stopWaitingManager.nextLeastUnacked > 0
  {
  }

  /** Everything in the retransmission queue. */
  method RetransmitAll(h: SentPacketHandler, g: PacketNumberGenerator, handshake: seq<Option<Packed>>, log: seq<Sent>,
    ghost b: Books)
    returns (log': seq<Sent>)
    requires forall p | p in handshake :: p.Some? ==> p.value.length > 0
    requires Ready(h, g) && GoodLog(log, h.lastSentPacketNumber) && Booked(log, h.fates) && Mirrors(h, g, log, b)
    requires |h.retransmissionQueue| + |h.packetHistory| < MAX_TRACKED_SENT
    modifies h, h.stopWaitingManager, g
    ensures Ready(h, g) && GoodLog(log', h.lastSentPacketNumber) && Booked(log', h.fates) && log <= log'
    ensures |h.retransmissionQueue| + |h.packetHistory| < MAX_TRACKED_SENT && h.retransmissionQueue == []
    ensures AllMove(old(h.fates), h.fates) && Mirrors(h, g, log', AfterResending(b, handshake))
  {
    hide Balanced, NeverSent, AllMove, Dense, Announced, GoodLog, Booked, AfterDequeueing;
    log' := log;
    ghost var fates0, b' := h.fates, b;
    NoMoves(fates0);
    var i := 0;
    assert handshake[0..] == handshake;
    while h.retransmissionQueue != []
      invariant Ready(h, g) && GoodLog(log', h.lastSentPacketNumber) && Booked(log', h.fates) && log <= log'
        && 0 <= i <= |handshake|
      invariant |h.retransmissionQueue| + |h.packetHistory| < MAX_TRACKED_SENT
      invariant AllMove(fates0, h.fates) && Mirrors(h, g, log', b')
        && AfterResending(b, handshake) == AfterResending(b', handshake[i..])
      decreases |h.retransmissionQueue|
    {
      ghost var fates1 := h.fates;
      var again := if i < |handshake| then handshake[i] else None;
      OneLess(b', again);
      log' := Retransmit(h, g, again, log', b');
      b' := AfterDequeueing(b', again);
      MovesCompose(fates0, fates1, h.fates);
      if i < |handshake| {
        assert handshake[i..][1..] == handshake[i + 1..];
        i := i + 1;
      }
    }
  }

  lemma OneLess(b: Books, again: Option<Packed>)
    requires b.queue != []
    ensures |AfterDequeueing(b, again).queue| == |b.queue| - 1
  {
  }

  /** One round of sending: everything in the retransmission queue, and then a packet with what there is to send. */
  method SendRound(h: SentPacketHandler, g: PacketNumberGenerator, e: Event, log: seq<Sent>, ghost b: Books)
    returns (log': seq<Sent>)
    requires e.Round? && Possible(e) && Ready(h, g) && GoodLog(log, h.lastSentPacketNumber) && Booked(log, h.fates)
    requires Mirrors(h, g, log, b)
    modifies h, h.stopWaitingManager, g
    ensures Ready(h, g) && GoodLog(log', h.lastSentPacketNumber) && Booked(log', h.fates) && log <= log'
    ensures AllMove(old(h.fates), h.fates) && Mirrors(h, g, log', AfterRound(b, e))
  {
    hide Balanced, NeverSent, AllMove, Dense, Announced, GoodLog, Booked, AfterResending, AfterSending;
    log' := log;
    ghost var fates0 := h.fates;
    NoMoves(fates0);
    BytesCounted(h);
    if !h.SendingAllowed(e.congestionWindow) {
      return;
    }
    log' := RetransmitAll(h, g, e.handshake, log, b);
    ghost var b' := AfterResending(b, e.handshake);
    var stopWaiting: Option<nat> := None;
    if e.hasAck || e.hasRetransmission {
      stopWaiting := h.GetStopWaitingFrame(e.hasRetransmission);
    }
    if e.hasAck || e.hasRetransmission { b' := b'.(named := b'.next); }
    LeastUnackedBound(h, g);
    assert Mirrors(h, g, log', b');
    if e.last.Some? {
      ghost var fates1, last := h.fates, h.lastSentPacketNumber;
      var leastUnacked: nat := h.GetLeastUnacked();
      var s := SendPackedPacket(h, g, leastUnacked, stopWaiting, e.last.value);
      assert Mirrors(h, g, log' + [s], AfterSending(b', e.last.value, leastUnacked, stopWaiting));
      MovesCompose(fates0, fates1, h.fates);
      LogGrows(log', last, s);
      BookedGrows(log', fates1, s);
      log' := log' + [s];
    }
  }

  lemma BytesCounted(h: SentPacketHandler)
    requires h.Valid()
    ensures h.bytesInFlight == Bytes(h.packetHistory)
  {
  }

  method Step(h: SentPacketHandler, g: PacketNumberGenerator, e: Event, log: seq<Sent>, ghost b: Books)
    returns (log': seq<Sent>, error: bool)
    requires Possible(e) && Ready(h, g) && GoodLog(log, h.lastSentPacketNumber) && Booked(log, h.fates)
      && Mirrors(h, g, log, b)
    modifies h, h.stopWaitingManager, g
    ensures Ready(h, g) && GoodLog(log', h.lastSentPacketNumber) && Booked(log', h.fates) && log <= log'
    ensures AllMove(old(h.fates), h.fates)
    ensures error == Apply(b, e).stopped
    ensures if error then Mirrors(h, g, log', b) && Apply(b, e) == b.(stopped := true)
      else Mirrors(h, g, log', Apply(b, e))
  {
    hide Balanced, NeverSent, AllMove, Dense, Announced, GoodLog, Booked, WellFormed, Acks, LostIn, NotLost, LossTime,
      Unacked, AfterRound;
    log', error := log, false;
    ghost var fates0 := h.fates;
    StopStep(b, e);
    LeastUnackedBound(h, g);
    match e
    case Round(_, _, _, _, _) =>
      log' := SendRound(h, g, e, log, b);
    case Ack(frame, withPacketNumber, now, delayUntilLost) =>
      var r := h.ReceivedAck(frame, withPacketNumber, now, delayUntilLost);
      error := r == AckForUnsent || r == AckForSkipped;
      SameKeys(log, fates0, h.fates, h.skippedPackets, h.lastSentPacketNumber);
    case Alarm(now, delayUntilLost) =>
      h.OnAlarm(now, delayUntilLost);
      SameKeys(log, fates0, h.fates, h.skippedPackets, h.lastSentPacketNumber);
  }

  /**
   Every run of the sender, over any events: the packets on the wire, those in flight, those to be sent again and the
   fate of each are what the reference says, and the connection is closed exactly when it says so. Numbers on the wire
   only grow, every packet sent is in the books with one fate, the history and the queue hold exactly the packets that
   are in flight and queued, the byte count is theirs, and every STOP_WAITING frame can be written and read back.
   */
  method Run(events: seq<Event>)
    returns (log: seq<Sent>, history: seq<Packet>, queue: seq<Packet>, bytesInFlight: nat, stopped: bool,
      ghost fates: Fates)
    requires forall e | e in events :: Possible(e)
    ensures var b := Replay(events);
      log == b.log && history == b.history && queue == b.queue && fates == b.fates && stopped == b.stopped
    ensures GoodLog(log, Replay(events).lastSent) && Booked(log, fates)
    ensures Balanced(history, queue, bytesInFlight, Replay(events).lastSent, fates)
  {
    hide Balanced, NeverSent, AllMove, Dense, Announced, GoodLog, Booked, Possible, Apply;
    var h := new SentPacketHandler();
    var g := new PacketNumberGenerator(500);
    log, stopped := [], false;
    NothingSent(h.fates);
    var i := 0;
    assert events[..0] == [];
    while i < |events| && !stopped
      invariant 0 <= i <= |events|
      invariant fresh(h) && fresh(h.stopWaitingManager) && fresh(g)
      invariant Ready(h, g) && GoodLog(log, h.lastSentPacketNumber) && Booked(log, h.fates)
      invariant stopped == Replay(events[..i]).stopped
      invariant Mirrors(h, g, log, Replay(events[..i]).(stopped := false))
    {
      assert events[..i + 1][..i] == events[..i];
      log, stopped := Step(h, g, events[i], log, Replay(events[..i]));
      i := i + 1;
    }
    StaysStopped(events, i);
    history, queue, bytesInFlight, fates := h.packetHistory, h.retransmissionQueue, h.bytesInFlight, h.fates;
  }

  /** Nothing happens after the connection is closed. */
  lemma {:induction false} StaysStopped(events: seq<Event>, i: nat)
    requires i <= |events| && (Replay(events[..i]).stopped || i == |events|)
    ensures Replay(events) == Replay(events[..i])
    decreases |events| - i
  {
    if i < |events| {
      assert events[..i + 1][..i] == events[..i];
      StaysStopped(events, i + 1);
    } else {
      assert events[..i] == events;
    }
  }

  lemma NothingSent(fates: Fates)
    requires fates == map[]
    ensures GoodLog([], 0) && Booked([], fates) && Dense(fates, 0)
  {
  }
}
