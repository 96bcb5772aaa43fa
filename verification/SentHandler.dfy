/** The sender's side of acknowledgements (ackhandler/sent_packet_handler.go, ackhandler/stop_waiting_manager.go). */
module SentHandler {
  import opened Common
  import opened AckFrames
  import opened SentPackets
  import opened AckScan
  import opened SenderBooks

  const MAX_TRACKED_SENT: nat := 2000
  const MAX_TRACKED_SKIPPED: nat := 10

  /** Which packet number the next STOP_WAITING frame names. */
  class StopWaitingManager {
    var largestLeastUnackedSent: nat
    var nextLeastUnacked: nat
    var lastStopWaitingFrame: Option<nat>

    /** The last frame is the one with the largest number, and there is one as soon as a number has been sent. */
    ghost predicate Valid()
      reads this
    {
      && largestLeastUnackedSent <= nextLeastUnacked
      && lastStopWaitingFrame == if largestLeastUnackedSent == 0 then None else Some(largestLeastUnackedSent)
    }

    constructor ()
      ensures Valid() && nextLeastUnacked == 0 && largestLeastUnackedSent == 0
    {
      largestLeastUnackedSent, nextLeastUnacked, lastStopWaitingFrame := 0, 0, None;
    }

    /**
     A frame always names the current least unacknowledged packet; with `force` there is one as soon as it is not 0.
     */
    method GetStopWaitingFrame(force: bool) returns (leastUnacked: Option<nat>)
      requires Valid()
      modifies this
      ensures Valid() && nextLeastUnacked == old(nextLeastUnacked)
      ensures leastUnacked.Some? ==> leastUnacked.value == nextLeastUnacked > 0
      ensures leastUnacked.Some? <==> nextLeastUnacked > 0 && (force || old(largestLeastUnackedSent) < nextLeastUnacked)
      ensures largestLeastUnackedSent == nextLeastUnacked
    {
      if nextLeastUnacked <= largestLeastUnackedSent {
        if force {
          return lastStopWaitingFrame;
        }
        return None;
      }
      largestLeastUnackedSent := nextLeastUnacked;
      lastStopWaitingFrame := Some(nextLeastUnacked);
      return lastStopWaitingFrame;
    }

    method ReceivedAck(largestAcked: nat)
      requires Valid()
      modifies this`nextLeastUnacked
      ensures Valid() && nextLeastUnacked == Max(old(nextLeastUnacked), largestAcked + 1)
    {
      if largestAcked >= nextLeastUnacked {
        nextLeastUnacked := largestAcked + 1;
      }
    }

    method QueuedRetransmissionForPacketNumber(p: nat)
      requires Valid()
      modifies this`nextLeastUnacked
      ensures Valid() && nextLeastUnacked == Max(old(nextLeastUnacked), p + 1)
    {
      if p >= nextLeastUnacked {
        nextLeastUnacked := p + 1;
      }
    }
  }

  /** Packets that are no longer outstanding lie below the number that STOP_WAITING frames name. */
  ghost predicate Announced(fates: Fates, next: nat, lastSent: nat) {
    next <= lastSent + 1 && forall n | n in fates && fates[n] != Outstanding :: n < next
  }

  /** Of any two consecutive numbers, at least one was sent. */
  ghost predicate Dense(fates: Fates, lastSent: nat) {
    forall n | 1 <= n < lastSent :: n in fates || n + 1 in fates
  }

  /** The skipped numbers were never used. */
  ghost predicate NeverSent(skipped: seq<nat>, fates: Fates, lastSent: nat) {
    forall n | n in skipped :: n !in fates && n <= lastSent
  }

  datatype SendResult = SentOk | NotIncreasing | TooManyTracked | EmptyPacket
  datatype AckResult = AckOk | AckForUnsent | DuplicateOrOutOfOrder | Repeated | AckForSkipped | ScanBug

  function Range(from: nat, to: nat): seq<nat> {
    if to <= from then [] else Range(from, to - 1) + [to - 1]
  }

  lemma {:induction false} InRange(from: nat, to: nat, n: nat)
    ensures n in Range(from, to) <==> from <= n < to
  {
    if from < to { InRange(from, to - 1, n); }
  }

  /** The numbers up to the last one that is not above the limit are gone. */
  ghost predicate Collected(skipped: seq<nat>, skipped': seq<nat>, limit: int) {
    && (forall n | n in skipped' :: n > limit)
    && exists k | 0 <= k <= |skipped| :: skipped' == skipped[k..] && (k > 0 ==> skipped[k - 1] <= limit)
  }

  lemma CollectedIn(skipped: seq<nat>, skipped': seq<nat>, limit: int)
    requires Collected(skipped, skipped', limit)
    ensures |skipped'| <= |skipped| && forall n | n in skipped' :: n in skipped
  {
  }

  /** The last ten elements. */
  function LastTen(s: seq<nat>): (t: seq<nat>)
    ensures |t| <= MAX_TRACKED_SKIPPED
  {
    if |s| <= MAX_TRACKED_SKIPPED then s else s[|s| - MAX_TRACKED_SKIPPED..]
  }

  lemma LastTenStep(s: seq<nat>, x: nat)
    ensures LastTen(s + [x]) == var longer := LastTen(s) + [x];
      if |longer| > MAX_TRACKED_SKIPPED then longer[1..] else longer
  {
  }

  /** Appends the numbers that the generator left out, and forgets all but the last ten. */
  method NoteSkipped(skipped: seq<nat>, from: nat, to: nat) returns (out: seq<nat>)
    requires |skipped| <= MAX_TRACKED_SKIPPED && from <= to
    ensures out == LastTen(skipped + Range(from, to))
  {
    hide LastTen;
    out := skipped;
    NothingDropped(skipped);
    var p := from;
    while p < to
      invariant from <= p <= to
      invariant out == LastTen(skipped + Range(from, p))
    {
      LastTenStep(skipped + Range(from, p), p);
      assert skipped + Range(from, p + 1) == (skipped + Range(from, p)) + [p];
      out := out + [p];
      if |out| > MAX_TRACKED_SKIPPED {
        out := out[1..];
      }
      p := p + 1;
    }
  }

  lemma NothingDropped(s: seq<nat>)
    requires |s| <= MAX_TRACKED_SKIPPED
    ensures LastTen(s + []) == s
  {
    assert s + [] == s;
  }

  /** Numbers between the last packet and the next one are never used. */
  lemma SkippedNeverSent(skipped: seq<nat>, fates: Fates, lastSent: nat, number: nat)
    requires NeverSent(skipped, fates, lastSent) && lastSent < number && forall n | n in fates :: n <= lastSent
    ensures NeverSent(LastTen(skipped + Range(lastSent + 1, number)), fates[number := Outstanding], number)
  {
    var all := skipped + Range(lastSent + 1, number);
    forall n | n in LastTen(all) ensures n !in fates[number := Outstanding] && n <= number {
      assert n in all;
      InRange(lastSent + 1, number, n);
    }
  }

  /** Without the packet, the numbers before it are not below the last one. */
  lemma NotedTooEarly(skipped: seq<nat>, lastSent: nat, number: nat, fates: Fates)
    requires lastSent < number && |skipped| <= MAX_TRACKED_SKIPPED
    ensures number > lastSent + 1 ==> !NeverSent(LastTen(skipped + Range(lastSent + 1, number)), fates, lastSent)
    ensures number == lastSent + 1 ==> LastTen(skipped + Range(lastSent + 1, number)) == skipped
  {
    var all := skipped + Range(lastSent + 1, number);
    if number > lastSent + 1 {
      var last := LastTen(all);
      assert last[|last| - 1] == number - 1 && last[|last| - 1] in last;
    } else {
      assert all == skipped;
    }
  }

  /** The packets of `ps` go from the history to the queue, one by one. */
  method QueueAll(h: seq<Packet>, bytes: nat, queue: seq<Packet>, ps: seq<Packet>, m: StopWaitingManager)
    returns (left: seq<Packet>, bytesLeft: nat, longer: seq<Packet>)
    requires Increasing(h) && bytes == Bytes(h) && Increasing(ps) && (forall p | p in ps :: p in h) && m.Valid()
    modifies m`nextLeastUnacked
    ensures Increasing(left) && bytesLeft == Bytes(left) && Remains(h, ps, left) && longer == queue + ps && m.Valid()
    ensures m.nextLeastUnacked == NextAfter(old(m.nextLeastUnacked), ps)
  {
    hide Increasing, Remove, Bytes;
    left, bytesLeft, longer := h, bytes, queue;
    var i := 0;
    while i < |ps|
      invariant 0 <= i <= |ps| && Increasing(left) && bytesLeft == Bytes(left) && m.Valid()
      invariant Remains(h, ps[..i], left) && longer == queue + ps[..i]
      invariant m.nextLeastUnacked == if i == 0 then old(m.nextLeastUnacked)
        else Max(old(m.nextLeastUnacked), ps[i - 1].number + 1)
    {
      RemainsStep(h, ps, i, left);
      RemoveBytes(left, ps[i]);
      RemoveIncreasing(left, ps[i].number);
      NextIsLarger(ps, i);
      bytesLeft := bytesLeft - ps[i].length;
      longer := longer + [ps[i]];
      left := Remove(left, ps[i].number);
      m.QueuedRetransmissionForPacketNumber(ps[i].number);
      assert ps[..i] + [ps[i]] == ps[..i + 1];
      i := i + 1;
    }
    assert ps[..i] == ps;
  }

  lemma NextIsLarger(ps: seq<Packet>, i: nat)
    requires Increasing(ps) && i < |ps|
    ensures i > 0 ==> ps[i - 1].number < ps[i].number
  {
  }

  lemma AnnouncedAfterQueueing(fates: Fates, next: nat, next': nat, lastSent: nat, ps: seq<Packet>, fate: Fate)
    requires Announced(fates, next, lastSent) && Increasing(ps) && forall p | p in ps :: p.number <= lastSent
    requires next' == NextAfter(next, ps)
    ensures Announced(Refate(fates, Numbers(ps), fate), next', lastSent)
  {
    forall n | n in Numbers(ps) ensures n < next' {
      var p :| p in ps && p.number == n;
      var i :| 0 <= i < |ps| && ps[i] == p;
      assert i == |ps| - 1 || ps[i].number < ps[|ps| - 1].number;
    }
    if ps != [] { assert ps[|ps| - 1] in ps; }
  }

  ghost function NextAfter(next: nat, ps: seq<Packet>): nat {
    if ps == [] then next else Max(next, ps[|ps| - 1].number + 1)
  }

  /** An empty packet with numbers before it that were not used: it is refused after these have been noted. */
  predicate NotesTooEarly(packet: Packet, lastSent: nat, tracked: nat) {
    packet.length == 0 && packet.number > lastSent + 1 && tracked < MAX_TRACKED_SENT
  }

  class SentPacketHandler {
    var lastSentPacketNumber: nat
    var skippedPackets: seq<nat>
    var largestAcked: nat
    var largestReceivedPacketWithAck: nat
    var packetHistory: seq<Packet>
    const stopWaitingManager: StopWaitingManager
    var retransmissionQueue: seq<Packet>
    var bytesInFlight: nat
    var rtoCount: nat
    var lossTime: Option<int>
    ghost var fates: Fates

    ghost predicate BooksOk()
      reads this, stopWaitingManager
    {
      && Balanced(packetHistory, retransmissionQueue, bytesInFlight, lastSentPacketNumber, fates)
      && stopWaitingManager.Valid() && |skippedPackets| <= MAX_TRACKED_SKIPPED && largestAcked <= lastSentPacketNumber
    }

    ghost predicate Valid()
      reads this, stopWaitingManager
    {
      BooksOk() && Announced(fates, stopWaitingManager.nextLeastUnacked, lastSentPacketNumber)
    }

    ghost predicate SkipsOk()
      reads this
    {
      NeverSent(skippedPackets, fates, lastSentPacketNumber)
    }

    constructor ()
      ensures Valid() && SkipsOk() && fates == map[] && fresh(stopWaitingManager) && lastSentPacketNumber == 0
      ensures packetHistory == [] && retransmissionQueue == [] && skippedPackets == [] && lossTime == None
      ensures largestAcked == 0 && largestReceivedPacketWithAck == 0
      ensures stopWaitingManager.nextLeastUnacked == 0 && stopWaitingManager.largestLeastUnackedSent == 0
    {
      stopWaitingManager := new StopWaitingManager();
      lastSentPacketNumber, skippedPackets, largestAcked, largestReceivedPacketWithAck := 0, [], 0, 0;
      packetHistory, retransmissionQueue, bytesInFlight, rtoCount, lossTime := [], [], 0, 0, None;
      fates := map[];
    }

    function LargestInOrderAcked(): int
      reads this
    {
      if packetHistory != [] then packetHistory[0].number - 1 else largestAcked
    }

    function GetLeastUnacked(): int
      reads this
    {
      LargestInOrderAcked() + 1
    }

    method SentPacket(packet: Packet) returns (r: SendResult)
      requires Valid()
      modifies this`lastSentPacketNumber, this`skippedPackets, this`packetHistory, this`bytesInFlight, this`fates
      ensures r == NotIncreasing <==> packet.number <= old(lastSentPacketNumber)
      ensures r == TooManyTracked <==>
        packet.number > old(lastSentPacketNumber)
          && |old(retransmissionQueue)| + |old(packetHistory)| + 1 > MAX_TRACKED_SENT
      ensures r == EmptyPacket <==>
        packet.number > old(lastSentPacketNumber)
          && |old(retransmissionQueue)| + |old(packetHistory)| + 1 <= MAX_TRACKED_SENT && packet.length == 0
      ensures var noted := Range(old(lastSentPacketNumber) + 1, packet.number);
        skippedPackets ==
          if r == SentOk || r == EmptyPacket then LastTen(old(skippedPackets) + noted) else old(skippedPackets)
      ensures Valid()
      ensures fates == if r == SentOk then old(fates)[packet.number := Outstanding] else old(fates)
      ensures r == SentOk ==> lastSentPacketNumber == packet.number && packetHistory == old(packetHistory) + [packet]
      ensures r != SentOk ==> lastSentPacketNumber == old(lastSentPacketNumber) && packetHistory == old(packetHistory)
      ensures AllMove(old(fates), fates) && retransmissionQueue == old(retransmissionQueue)
      ensures old(SkipsOk()) ==>
        (SkipsOk() <==>
        !NotesTooEarly(packet, old(lastSentPacketNumber), |old(retransmissionQueue)| + |old(packetHistory)|))
    {
      hide Balanced, Increasing, Bytes, NeverSent, AllMove, LastTen, Range;
      NoMoves(fates);
      if packet.number <= lastSentPacketNumber {
        return NotIncreasing;
      }
      if |retransmissionQueue| + |packetHistory| + 1 > MAX_TRACKED_SENT {
        return TooManyTracked;
      }
      ghost var skipped := skippedPackets;
      skippedPackets := NoteSkipped(skippedPackets, lastSentPacketNumber + 1, packet.number);
      if packet.length == 0 {
        NotedTooEarly(skipped, lastSentPacketNumber, packet.number, fates);
        return EmptyPacket;
      }
      SendBalanced(packetHistory, retransmissionQueue, bytesInFlight, lastSentPacketNumber, fates, packet);
      FatesBounded(packetHistory, retransmissionQueue, bytesInFlight, lastSentPacketNumber, fates);
      if NeverSent(skipped, fates, lastSentPacketNumber) {
        SkippedNeverSent(skipped, fates, lastSentPacketNumber, packet.number);
      }
      bytesInFlight := bytesInFlight + packet.length;
      lastSentPacketNumber := packet.number;
      packetHistory := packetHistory + [packet];
      fates := fates[packet.number := Outstanding];
      return SentOk;
    }

    /** Some skipped packet number is acknowledged. */
    method SkippedPacketsAcked(f: AckFrame) returns (b: bool)
      requires WellFormed(f)
      ensures b <==> exists n | n in skippedPackets :: Acks(f, n)
    {
      hide WellFormed, Acks;
      var i := 0;
      while i < |skippedPackets|
        invariant 0 <= i <= |skippedPackets|
        invariant forall n | n in skippedPackets[..i] :: !Acks(f, n)
      {
        var acked := AcksPacket(f, skippedPackets[i]);
        if acked {
          assert skippedPackets[i] in skippedPackets;
          return true;
        }
        assert skippedPackets[..i + 1] == skippedPackets[..i] + [skippedPackets[i]];
        i := i + 1;
      }
      assert skippedPackets[..i] == skippedPackets;
      return false;
    }

    /** Forgets the skipped numbers up to the last one that is not above what is acknowledged in order. */
    method GarbageCollectSkippedPackets()
      modifies this`skippedPackets
      ensures Collected(old(skippedPackets), skippedPackets, LargestInOrderAcked())
    {
      var lioa, deleteIndex, i := LargestInOrderAcked(), 0, 0;
      while i < |skippedPackets|
        invariant 0 <= deleteIndex <= i <= |skippedPackets|
        invariant deleteIndex > 0 ==> skippedPackets[deleteIndex - 1] <= lioa
        invariant forall j | deleteIndex <= j < i :: skippedPackets[j] > lioa
      {
        if skippedPackets[i] <= lioa {
          deleteIndex := i + 1;
        }
        i := i + 1;
      }
      skippedPackets := skippedPackets[deleteIndex..];
    }

    /** Moves packets of the history to the queue. */
    method QueueForRetransmission(ps: seq<Packet>)
      requires BooksOk() && Increasing(ps) && forall p | p in ps :: p in packetHistory
      modifies this`packetHistory, this`bytesInFlight, this`retransmissionQueue, this`fates,
        stopWaitingManager`nextLeastUnacked
      ensures BooksOk()
      ensures fates == Refate(old(fates), Numbers(ps), Queued) && retransmissionQueue == old(retransmissionQueue) + ps
      ensures stopWaitingManager.nextLeastUnacked == NextAfter(old(stopWaitingManager.nextLeastUnacked), ps)
      ensures AllMove(old(fates), fates) && Remains(old(packetHistory), ps, packetHistory)
    {
      hide Balanced, Increasing, Bytes, Remains, AllMove;
      ghost var h, q, b := packetHistory, retransmissionQueue, bytesInFlight;
      BalancedParts(h, q, b, lastSentPacketNumber, fates);
      packetHistory, bytesInFlight, retransmissionQueue :=
        QueueAll(packetHistory, bytesInFlight, retransmissionQueue, ps, stopWaitingManager);
      QueueBalanced(h, q, b, lastSentPacketNumber, fates, ps, packetHistory, bytesInFlight);
      fates := Refate(fates, Numbers(ps), Queued);
    }

    /** Lost packets are queued for retransmission. */
    method DetectLostPackets(now: int, delayUntilLost: int)
      requires BooksOk()
      modifies this`lossTime, this`packetHistory, this`bytesInFlight, this`retransmissionQueue, this`fates,
        stopWaitingManager`nextLeastUnacked
      ensures BooksOk() && AllMove(old(fates), fates)
      ensures var lost := LostIn(old(packetHistory), largestAcked, now, delayUntilLost);
        && fates == Refate(old(fates), Numbers(lost), Queued) && retransmissionQueue == old(retransmissionQueue) + lost
        && stopWaitingManager.nextLeastUnacked == NextAfter(old(stopWaitingManager.nextLeastUnacked), lost)
      ensures packetHistory == NotLost(old(packetHistory), largestAcked, now, delayUntilLost)
      ensures lossTime == LossTime(old(packetHistory), largestAcked, now, delayUntilLost)
    {
      hide Balanced, Increasing, Bytes, Remains, AllMove, LostIn, NotLost, IsLossTime, LossTime;
      BalancedParts(packetHistory, retransmissionQueue, bytesInFlight, lastSentPacketNumber, fates);
      LostMembers(packetHistory, largestAcked, now, delayUntilLost);
      ghost var h := packetHistory;
      var lost;
      lost, lossTime := FindLost(packetHistory, largestAcked, now, delayUntilLost);
      LossTimeUnique(h, largestAcked, now, delayUntilLost, lossTime);
      QueueForRetransmission(lost);
      BalancedParts(packetHistory, retransmissionQueue, bytesInFlight, lastSentPacketNumber, fates);
      RemainsNotLost(h, packetHistory, largestAcked, now, delayUntilLost);
    }

    /** The acknowledged packets leave the history, one by one. */
    method OnPacketsAcked(acked: seq<Packet>)
      requires BooksOk() && Increasing(acked) && forall p | p in acked :: p in packetHistory
      modifies this`packetHistory, this`bytesInFlight, this`rtoCount, this`fates
      ensures BooksOk() && AllMove(old(fates), fates)
      ensures fates == Refate(old(fates), Numbers(acked), Acked) && Remains(old(packetHistory), acked, packetHistory)
      ensures rtoCount == if acked == [] then old(rtoCount) else 0
    {
      hide Balanced, Increasing, Bytes, Remains, AllMove;
      ghost var h, b := packetHistory, bytesInFlight;
      BalancedParts(h, retransmissionQueue, b, lastSentPacketNumber, fates);
      packetHistory, bytesInFlight := RemoveAll(packetHistory, bytesInFlight, acked);
      if acked != [] {
        rtoCount := 0;
      }
      AckBalanced(h, retransmissionQueue, b, lastSentPacketNumber, fates, acked, packetHistory, bytesInFlight);
      fates := Refate(fates, Numbers(acked), Acked);
    }

    /**
     Handles an ACK frame. Of the packets in flight, exactly those that the frame acknowledges are acknowledged, and of
     the others those that are lost are queued.
     */
    method ReceivedAck(f: AckFrame, withPacketNumber: nat, now: int, delayUntilLost: int) returns (r: AckResult)
      requires Valid() && WellFormed(f)
      modifies this, stopWaitingManager`nextLeastUnacked
      ensures Valid() && r != ScanBug && lastSentPacketNumber == old(lastSentPacketNumber)
      ensures r == AckForUnsent <==> f.largestAcked > lastSentPacketNumber
      ensures r == DuplicateOrOutOfOrder <==>
        f.largestAcked <= lastSentPacketNumber && withPacketNumber <= old(largestReceivedPacketWithAck)
      ensures r == Repeated <==>
        f.largestAcked <= lastSentPacketNumber && withPacketNumber > old(largestReceivedPacketWithAck)
          && f.largestAcked <= old(LargestInOrderAcked())
      ensures r == AckForSkipped || r == AckOk <==>
        f.largestAcked <= lastSentPacketNumber && withPacketNumber > old(largestReceivedPacketWithAck)
          && f.largestAcked > old(LargestInOrderAcked())
      ensures largestReceivedPacketWithAck
        == if r == AckForUnsent || r == DuplicateOrOutOfOrder then old(largestReceivedPacketWithAck)
        else withPacketNumber
      ensures largestAcked == if r == AckForSkipped || r == AckOk then f.largestAcked else old(largestAcked)
      ensures r == AckForSkipped ==> exists n | n in old(skippedPackets) :: Acks(f, n)
      ensures r == AckOk ==> forall n | n in old(skippedPackets) :: !Acks(f, n)
      ensures r == AckOk ==>
        largestAcked == f.largestAcked < stopWaitingManager.nextLeastUnacked
        && old(retransmissionQueue) <= retransmissionQueue
      ensures r != AckOk ==>
        fates == old(fates) && packetHistory == old(packetHistory) && retransmissionQueue == old(retransmissionQueue)
      ensures if r == AckOk then Collected(old(skippedPackets), skippedPackets, LargestInOrderAcked())
        else skippedPackets == old(skippedPackets)
      ensures r == AckOk ==> AckedAndLost(old(packetHistory), old(fates), fates, f, now, delayUntilLost)
      ensures r == AckOk ==> var unacked := Unacked(old(packetHistory), f);
        var lost := LostIn(unacked, largestAcked, now, delayUntilLost);
        && packetHistory == NotLost(unacked, largestAcked, now, delayUntilLost)
          && retransmissionQueue == old(retransmissionQueue) + lost
        && stopWaitingManager.nextLeastUnacked
          == Max(NextAfter(old(stopWaitingManager.nextLeastUnacked), lost), f.largestAcked + 1)
        && lossTime == LossTime(unacked, largestAcked, now, delayUntilLost)
        && fates == Refate(Refate(old(fates), Numbers(AckedBy(old(packetHistory), f)), Acked), Numbers(lost), Queued)
      ensures r != AckOk ==>
        lossTime == old(lossTime) && stopWaitingManager.nextLeastUnacked == old(stopWaitingManager.nextLeastUnacked)
      ensures AllMove(old(fates), fates) && |skippedPackets| <= |old(skippedPackets)|
      ensures old(SkipsOk()) ==> SkipsOk()
    {
      hide Balanced, Increasing, Bytes, Remains, AllMove, LostIn, NotLost, Unacked, LossTime, AckedBy, WellFormed,
        Acks, NeverSent;
      if f.largestAcked > lastSentPacketNumber {
        NoMoves(fates);
        return AckForUnsent;
      }
      if withPacketNumber <= largestReceivedPacketWithAck {
        NoMoves(fates);
        return DuplicateOrOutOfOrder;
      }
      largestReceivedPacketWithAck := withPacketNumber;
      if f.largestAcked <= LargestInOrderAcked() {
        NoMoves(fates);
        return Repeated;
      }
      largestAcked := f.largestAcked;
      var skipped := SkippedPacketsAcked(f);
      if skipped {
        NoMoves(fates);
        return AckForSkipped;
      }
      ghost var skipped0, fates0 := skippedPackets, fates;
      r := Acknowledge(f, now, delayUntilLost);
      CollectedIn(skipped0, skippedPackets, LargestInOrderAcked());
      if NeverSent(skipped0, fates0, lastSentPacketNumber) {
        FewerSkipped(skipped0, skippedPackets, fates0, fates, lastSentPacketNumber);
      }
    }

    /** The part of ReceivedAck that changes the books. */
    method Acknowledge(f: AckFrame, now: int, delayUntilLost: int) returns (r: AckResult)
      requires Valid() && WellFormed(f) && largestAcked == f.largestAcked
      modifies this, stopWaitingManager`nextLeastUnacked
      ensures Valid() && r == AckOk && lastSentPacketNumber == old(lastSentPacketNumber)
      ensures AckedAndLost(old(packetHistory), old(fates), fates, f, now, delayUntilLost)
      ensures var unacked := Unacked(old(packetHistory), f);
        var lost := LostIn(unacked, largestAcked, now, delayUntilLost);
        && packetHistory == NotLost(unacked, largestAcked, now, delayUntilLost)
          && retransmissionQueue == old(retransmissionQueue) + lost
        && stopWaitingManager.nextLeastUnacked
          == Max(NextAfter(old(stopWaitingManager.nextLeastUnacked), lost), f.largestAcked + 1)
        && lossTime == LossTime(unacked, largestAcked, now, delayUntilLost)
        && fates == Refate(Refate(old(fates), Numbers(AckedBy(old(packetHistory), f)), Acked), Numbers(lost), Queued)
      ensures AllMove(old(fates), fates) && fates.Keys == old(fates).Keys
      ensures Collected(old(skippedPackets), skippedPackets, LargestInOrderAcked())
      ensures largestAcked == f.largestAcked < stopWaitingManager.nextLeastUnacked
        && old(retransmissionQueue) <= retransmissionQueue
      ensures largestReceivedPacketWithAck == old(largestReceivedPacketWithAck)
    {
      hide Balanced, Increasing, Bytes, Remains, AllMove, LostIn, NotLost, Unacked, AckedBy, WellFormed, Acks, LossTime,
        Collected;
      ghost var h, fates0, next := packetHistory, fates, stopWaitingManager.nextLeastUnacked;
      BalancedParts(packetHistory, retransmissionQueue, bytesInFlight, lastSentPacketNumber, fates);
      var acked, bug := DetermineNewlyAckedPackets(packetHistory, f);
      if bug {
        return ScanBug;
      }
      AckedMembers(packetHistory, f);
      OnPacketsAcked(acked);
      ghost var left, fates1 := packetHistory, fates;
      BalancedParts(packetHistory, retransmissionQueue, bytesInFlight, lastSentPacketNumber, fates);
      RemainsUnacked(h, left, f);
      DetectLostPackets(now, delayUntilLost);
      GarbageCollectSkippedPackets();
      stopWaitingManager.ReceivedAck(f.largestAcked);
      FatesAfterAck(h, left, fates0, f, now, delayUntilLost, next, lastSentPacketNumber);
      MovesCompose(fates0, fates1, fates);
      return AckOk;
    }

    /** The timer: packets that have become lost, or else, after a retransmission timeout, the two oldest ones. */
    method OnAlarm(now: int, delayUntilLost: int)
      requires Valid()
      modifies this`packetHistory, this`bytesInFlight, this`retransmissionQueue, this`fates, this`lossTime,
        this`rtoCount, stopWaitingManager`nextLeastUnacked
      ensures Valid() && AllMove(old(fates), fates) && fates.Keys == old(fates).Keys
      ensures var h, q, lost :=
        old(packetHistory), old(retransmissionQueue),
        TakenByAlarm(old(packetHistory), old(lossTime), largestAcked, now, delayUntilLost);
        && retransmissionQueue == q + lost && fates == Refate(old(fates), Numbers(lost), Queued)
        && stopWaitingManager.nextLeastUnacked == NextAfter(old(stopWaitingManager.nextLeastUnacked), lost)
        && packetHistory == (if old(lossTime).Some? then NotLost(h, largestAcked, now, delayUntilLost) else h[|lost|..])
      ensures lossTime == if old(lossTime).Some? then LossTime(old(packetHistory), largestAcked, now, delayUntilLost)
        else None
      ensures rtoCount == old(rtoCount) + if old(lossTime).Some? then 0 else 1
    {
      hide Balanced, Increasing, Bytes, Remains, AllMove, LostIn, NotLost, Announced, LossTime;
      ghost var h, next, fates0 := packetHistory, stopWaitingManager.nextLeastUnacked, fates;
      BalancedParts(packetHistory, retransmissionQueue, bytesInFlight, lastSentPacketNumber, fates);
      LostMembers(h, largestAcked, now, delayUntilLost);
      if lossTime.Some? {
        DetectLostPackets(now, delayUntilLost);
        AnnouncedAfterQueueing(fates0, next, stopWaitingManager.nextLeastUnacked, lastSentPacketNumber,
          LostIn(h, largestAcked, now, delayUntilLost), Queued);
      } else {
        RetransmitOldest();
        rtoCount := rtoCount + 1;
      }
    }

    /** Queues the oldest packet, and then the oldest one of those that are left. */
    method RetransmitOldest()
      requires Valid()
      modifies this`packetHistory, this`bytesInFlight, this`retransmissionQueue, this`fates,
        stopWaitingManager`nextLeastUnacked
      ensures Valid() && AllMove(old(fates), fates) && fates.Keys == old(fates).Keys
      ensures var oldest := old(packetHistory)[..Min(2, |old(packetHistory)|)];
        && retransmissionQueue == old(retransmissionQueue) + oldest && packetHistory == old(packetHistory)[|oldest|..]
        && fates == Refate(old(fates), Numbers(oldest), Queued)
        && stopWaitingManager.nextLeastUnacked == NextAfter(old(stopWaitingManager.nextLeastUnacked), oldest)
    {
      hide Balanced, Increasing, Bytes, Remains, AllMove, Announced, Refate, Numbers, NextAfter;
      ghost var h, q, fates0 := packetHistory, retransmissionQueue, fates;
      BalancedParts(h, q, bytesInFlight, lastSentPacketNumber, fates);
      NoMoves(fates);
      OldestTwo(h, q, fates, stopWaitingManager.nextLeastUnacked);
      if packetHistory != [] {
        QueueOldest();
        ghost var fates1 := fates;
        if packetHistory != [] {
          QueueOldest();
          MovesCompose(fates0, fates1, fates);
        }
      }
    }

    method QueueOldest()
      requires Valid() && packetHistory != []
      modifies this`packetHistory, this`bytesInFlight, this`retransmissionQueue, this`fates,
        stopWaitingManager`nextLeastUnacked
      ensures Valid() && AllMove(old(fates), fates) && fates.Keys == old(fates).Keys
      ensures retransmissionQueue == old(retransmissionQueue) + [old(packetHistory)[0]]
        && packetHistory == old(packetHistory)[1..]
      ensures fates == Refate(old(fates), Numbers([old(packetHistory)[0]]), Queued)
      ensures stopWaitingManager.nextLeastUnacked
        == NextAfter(old(stopWaitingManager.nextLeastUnacked), [old(packetHistory)[0]])
    {
      hide Balanced, Increasing, Bytes, Remains, AllMove, Announced;
      ghost var h, next, fates0 := packetHistory, stopWaitingManager.nextLeastUnacked, fates;
      BalancedParts(packetHistory, retransmissionQueue, bytesInFlight, lastSentPacketNumber, fates);
      var oldest := [packetHistory[0]];
      OneIncreasing(packetHistory[0]);
      QueueForRetransmission(oldest);
      AnnouncedAfterQueueing(fates0, next, stopWaitingManager.nextLeastUnacked, lastSentPacketNumber, oldest, Queued);
      BalancedParts(packetHistory, retransmissionQueue, bytesInFlight, lastSentPacketNumber, fates);
      RemainsTail(h, packetHistory);
    }

    method GetStopWaitingFrame(force: bool) returns (leastUnacked: Option<nat>)
      requires Valid()
      modifies stopWaitingManager
      ensures Valid() && stopWaitingManager.nextLeastUnacked == old(stopWaitingManager.nextLeastUnacked)
      ensures leastUnacked.Some? ==> leastUnacked.value == stopWaitingManager.nextLeastUnacked > 0
      ensures leastUnacked.Some? <==> var m := stopWaitingManager;
        m.nextLeastUnacked > 0 && (force || old(m.largestLeastUnackedSent) < m.nextLeastUnacked)
      ensures stopWaitingManager.largestLeastUnackedSent == stopWaitingManager.nextLeastUnacked
    {
      hide Balanced, Announced;
      leastUnacked := stopWaitingManager.GetStopWaitingFrame(force);
    }

    predicate SendingAllowed(congestionWindow: nat)
      reads this
    {
      bytesInFlight <= congestionWindow && |retransmissionQueue| + |packetHistory| < MAX_TRACKED_SENT
    }

    /** The packet that was queued last. */
    method DequeuePacketForRetransmission() returns (p: Option<Packet>)
      requires Valid()
      modifies this`retransmissionQueue, this`fates
      ensures Valid() && AllMove(old(fates), fates) && fates.Keys == old(fates).Keys
      ensures p == None <==> old(retransmissionQueue) == []
      ensures p.Some? ==>
        retransmissionQueue + [p.value] == old(retransmissionQueue)
        && fates == Refate(old(fates), {p.value.number}, Dequeued)
      ensures p.Some? ==> p.value.number in fates && fates[p.value.number] == Dequeued
      ensures p == None ==> fates == old(fates) && retransmissionQueue == []
    {
      hide Balanced, AllMove;
      if |retransmissionQueue| == 0 {
        NoMoves(fates);
        return None;
      }
      DequeueBalanced(packetHistory, retransmissionQueue, bytesInFlight, lastSentPacketNumber, fates);
      QueuedIsAnnounced(packetHistory, retransmissionQueue, bytesInFlight, lastSentPacketNumber, fates);
      var n := |retransmissionQueue| - 1;
      p := Some(retransmissionQueue[n]);
      fates := Refate(fates, {retransmissionQueue[n].number}, Dequeued);
      retransmissionQueue := retransmissionQueue[..n];
    }
  }

  /** A number that was noted for an empty packet is used after all, and then its ACK is refused. */
  method NotedNumberRefused() returns (empty: SendResult, sent: SendResult, acked: AckResult, h: SentPacketHandler)
    ensures empty == EmptyPacket && sent == SentOk && acked == AckForSkipped
    ensures h.Valid() && !h.SkipsOk() && 1 in h.fates && 1 in h.skippedPackets
  {
    hide Balanced, Increasing, AllMove, LostIn, NotLost, LossTime, Unacked, AckedBy, Announced, AckedAndLost, Refate,
      Bytes;
    h := new SentPacketHandler();
    assert Range(1, 2) == [1] && Range(1, 1) == [];
    empty := h.SentPacket(Packet(2, 0, 0));
    assert h.skippedPackets == [1];
    sent := h.SentPacket(Packet(1, 10, 0));
    assert h.skippedPackets == [1];
    var f := AckFrame(1, 1, [], 0);
    assert Acks(f, 1) && 1 in h.skippedPackets;
    acked := h.ReceivedAck(f, 1, 0, 0);
  }

  /** What the alarm queues: the packets that have become lost, or the two oldest ones. */
  ghost function TakenByAlarm(h: seq<Packet>, lossTime: Option<int>, largestAcked: nat, now: int,
    delayUntilLost: int): seq<Packet> {
    if lossTime.Some? then LostIn(h, largestAcked, now, delayUntilLost) else h[..Min(2, |h|)]
  }

  lemma RemainsNotLost(h: seq<Packet>, left: seq<Packet>, largestAcked: nat, now: int, delayUntilLost: int)
    requires Increasing(h) && Increasing(left) && Remains(h, LostIn(h, largestAcked, now, delayUntilLost), left)
    ensures left == NotLost(h, largestAcked, now, delayUntilLost)
  {
    hide Increasing;
    LostMembers(h, largestAcked, now, delayUntilLost);
    SelectMembers(h, (p: Packet) => !IsLost(p, largestAcked, now, delayUntilLost));
    assert forall p :: p in left <==> p in h && p !in LostIn(h, largestAcked, now, delayUntilLost);
    SameMembers(left, NotLost(h, largestAcked, now, delayUntilLost));
  }

  lemma RemainsUnacked(h: seq<Packet>, left: seq<Packet>, f: AckFrame)
    requires Increasing(h) && Increasing(left) && Remains(h, AckedBy(h, f), left)
    ensures left == Unacked(h, f)
  {
    hide Increasing, Acks, WellFormed;
    AckedMembers(h, f);
    SelectMembers(h, (p: Packet) => !Acks(f, p.number));
    assert forall p :: p in left <==> p in h && p !in AckedBy(h, f);
    SameMembers(left, Unacked(h, f));
  }

  /** What an ACK does to the packets in flight: acknowledged, else lost and queued, else nothing. */
  ghost predicate AckedAndLost(h: seq<Packet>, fates: Fates, fates': Fates, f: AckFrame, now: int,
    delayUntilLost: int) {
    && fates'.Keys == fates.Keys
    && (forall n | n in fates && n !in Numbers(h) :: fates'[n] == fates[n])
    && (forall p | p in h && p.number in fates' ::
          fates'[p.number] == if Acks(f, p.number) then Acked
            else if IsLost(p, f.largestAcked, now, delayUntilLost) then Queued else Outstanding)
  }

  /** Acknowledging and then queueing the lost among the remaining packets is what AckedAndLost says. */
  lemma FatesAfterAck(h: seq<Packet>, left: seq<Packet>, fates: Fates, f: AckFrame, now: int, delayUntilLost: int,
    next: nat, lastSent: nat)
    requires Increasing(h)
      && (forall p | p in h :: p.number in fates && fates[p.number] == Outstanding && p.number <= lastSent)
    requires Remains(h, AckedBy(h, f), left) && Increasing(left) && WellFormed(f) && f.largestAcked <= lastSent
    requires Announced(fates, next, lastSent)
    ensures var lost := LostIn(left, f.largestAcked, now, delayUntilLost);
      var fates' := Refate(Refate(fates, Numbers(AckedBy(h, f)), Acked), Numbers(lost), Queued);
      && AckedAndLost(h, fates, fates', f, now, delayUntilLost)
      && Announced(fates', Max(NextAfter(next, lost), f.largestAcked + 1), lastSent)
  {
    hide WellFormed, Acks, Increasing, AckedBy, LostIn, IsLost, Announced;
    var acked, lost := AckedBy(h, f), LostIn(left, f.largestAcked, now, delayUntilLost);
    AckedMembers(h, f);
    LostMembers(left, f.largestAcked, now, delayUntilLost);
    forall p | p in h
      ensures p.number in Numbers(acked) <==> p in acked
      ensures p.number in Numbers(lost) <==> p in lost
    {
      NumberIn(h, acked, p);
      NumberIn(h, lost, p);
    }
    AnnouncedAfterAck(fates, acked, lost, next, f.largestAcked, lastSent);
  }

  lemma NumberIn(h: seq<Packet>, ps: seq<Packet>, p: Packet)
    requires Increasing(h) && p in h && forall q | q in ps :: q in h
    ensures p.number in Numbers(ps) <==> p in ps
  {
    RemoveExactly(h, p);
  }

  lemma AnnouncedAfterAck(fates: Fates, acked: seq<Packet>, lost: seq<Packet>, next: nat, largestAcked: nat,
    lastSent: nat)
    requires Announced(fates, next, lastSent) && largestAcked <= lastSent
    requires (forall p | p in acked :: p.number <= largestAcked) && forall p | p in lost :: p.number <= largestAcked
    ensures Announced(Refate(Refate(fates, Numbers(acked), Acked), Numbers(lost), Queued),
      Max(NextAfter(next, lost), largestAcked + 1), lastSent)
  {
    if lost != [] { assert lost[|lost| - 1] in lost; }
  }

  lemma FewerSkipped(skipped: seq<nat>, fewer: seq<nat>, fates: Fates, fates': Fates, lastSent: nat)
    requires NeverSent(skipped, fates, lastSent) && fates'.Keys == fates.Keys && forall n | n in fewer :: n in skipped
    ensures NeverSent(fewer, fates', lastSent)
  {
  }

  lemma OneIncreasing(p: Packet)
    ensures Increasing([p])
  {
  }

  /** Queueing the oldest packet, and then the oldest of those that are left, is queueing the two oldest. */
  lemma OldestTwo(h: seq<Packet>, q: seq<Packet>, fates: Fates, next: nat)
    requires Increasing(h)
    ensures h == [] ==>
      q + h[..0] == q && Refate(fates, Numbers(h[..0]), Queued) == fates && NextAfter(next, h[..0]) == next
    ensures |h| == 1 ==> h[..1] == [h[0]]
    ensures |h| >= 2 ==>
      && q + [h[0]] + [h[1..][0]] == q + h[..2] && h[1..][1..] == h[2..]
      && Refate(Refate(fates, Numbers([h[0]]), Queued), Numbers([h[1..][0]]), Queued)
        == Refate(fates, Numbers(h[..2]), Queued)
      && NextAfter(NextAfter(next, [h[0]]), [h[1..][0]]) == NextAfter(next, h[..2])
  {
    if |h| >= 2 {
      assert h[..2] == [h[0], h[1]];
      assert h[0] in h[..2] && h[1] in h[..2] && h[1..][0] == h[1];
      assert h[0] in [h[0]] && h[1] in [h[1..][0]];
      assert Numbers(h[..2]) == Numbers([h[0]]) + Numbers([h[1..][0]]);
    }
  }

  lemma QueuedIsAnnounced(h: seq<Packet>, queue: seq<Packet>, bytes: nat, lastSent: nat, fates: Fates)
    requires Balanced(h, queue, bytes, lastSent, fates)
    ensures forall p | p in queue :: p.number in fates && fates[p.number] == Queued
  {
  }

  /** Without its first packet, an increasing list is its tail. */
  lemma RemainsTail(h: seq<Packet>, left: seq<Packet>)
    requires h != [] && Increasing(h) && Increasing(left) && Remains(h, [h[0]], left)
    ensures left == h[1..]
  {
    SameMembers(left, h[1..]);
  }

  lemma {:induction false} SameMembers(a: seq<Packet>, b: seq<Packet>)
    requires Increasing(a) && Increasing(b) && forall p :: p in a <==> p in b
    ensures a == b
  {
    assert (a != [] ==> a[0] in b) && (b != [] ==> b[0] in a);
    if a != [] && b != [] {
      SameNumberSamePacket(a, a[0], b[0]);
      assert a == [a[0]] + a[1..] && b == [b[0]] + b[1..];
      assert a[0] !in a[1..] && b[0] !in b[1..];
      forall p ensures p in a[1..] <==> p in b[1..] {
        assert p in a <==> p == a[0] || p in a[1..];
        assert p in b <==> p == b[0] || p in b[1..];
      }
      SameMembers(a[1..], b[1..]);
    }
  }

  lemma AckedMembers(h: seq<Packet>, f: AckFrame)
    requires Increasing(h)
    ensures Increasing(AckedBy(h, f)) && forall p :: p in AckedBy(h, f) <==> p in h && Acks(f, p.number)
    ensures WellFormed(f) ==> forall p | p in AckedBy(h, f) :: p.number <= f.largestAcked
  {
    hide Acks, WellFormed;
    SelectMembers(h, (p: Packet) => Acks(f, p.number));
    if WellFormed(f) {
      forall p | p in AckedBy(h, f) ensures p.number <= f.largestAcked {
        if p.number > f.largestAcked { OutOfBounds(f, p.number); }
      }
    }
  }

  lemma NoMoves(fates: Fates)
    ensures AllMove(fates, fates)
  {
  }

  lemma MovesCompose(a: Fates, b: Fates, c: Fates)
    requires AllMove(a, b) && AllMove(b, c)
    ensures AllMove(a, c)
  {
  }

  lemma LostMembers(h: seq<Packet>, largestAcked: nat, now: int, delayUntilLost: int)
    requires Increasing(h)
    ensures var lost := LostIn(h, largestAcked, now, delayUntilLost);
      && Increasing(lost) && (forall p :: p in lost <==> p in h && IsLost(p, largestAcked, now, delayUntilLost))
      && forall p | p in lost :: p.number <= largestAcked
  {
    SelectMembers(h, (p: Packet) => IsLost(p, largestAcked, now, delayUntilLost));
  }

  lemma BalancedParts(h: seq<Packet>, queue: seq<Packet>, bytes: nat, lastSent: nat, fates: Fates)
    requires Balanced(h, queue, bytes, lastSent, fates)
    ensures Increasing(h) && bytes == Bytes(h)
    ensures forall p | p in h :: p.number in fates && fates[p.number] == Outstanding && 1 <= p.number <= lastSent
  {
  }

  /** After a packet with a number of at most one more than the next. */
  lemma SendDense(fates: Fates, lastSent: nat, number: nat)
    requires Dense(fates, lastSent) && lastSent < number <= lastSent + 2 && (lastSent > 0 ==> lastSent in fates)
    ensures Dense(fates[number := Outstanding], number)
  {
  }

  lemma FatesBounded(h: seq<Packet>, queue: seq<Packet>, bytes: nat, lastSent: nat, fates: Fates)
    requires Balanced(h, queue, bytes, lastSent, fates)
    ensures forall n | n in fates :: 1 <= n <= lastSent
  {
  }
}
