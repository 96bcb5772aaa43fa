/**
 When and what the receiver acknowledges (ackhandler/received_packet_handler.go). Times are integers; None is the zero
 time.
 */
module ReceivedHandler {
  import opened Common
  import opened AckFrames
  import opened ReceivedHistory

  const MAX_PACKETS_BEFORE_ACK: nat := 20
  const RETRANSMITTABLE_BEFORE_ACK: nat := 2
  const ACK_SEND_DELAY: nat := 25_000_000

  datatype Outcome = Accepted | InvalidNumber | BelowStopWaiting | DuplicatePacket | TooMany

  lemma ReversedIn(rs: seq<PacketInterval>, ars: seq<AckRange>, p: nat)
    requires |ars| == |rs| && forall i | 0 <= i < |rs| ::
      ars[i] == AckRange(rs[|rs| - 1 - i].start, rs[|rs| - 1 - i].end)
    ensures In(rs, p) <==> exists i | 0 <= i < |ars| :: ars[i].first <= p <= ars[i].last
  {
    if In(rs, p) {
      var i :| 0 <= i < |rs| && rs[i].start <= p <= rs[i].end;
      assert ars[|rs| - 1 - i].first <= p <= ars[|rs| - 1 - i].last;
    }
  }

  /** The largest number of the set ends the last range. */
  lemma LargestEndsLast(rs: seq<PacketInterval>, largest: nat)
    requires Canonical(rs) && In(rs, largest) && forall x: nat | In(rs, x) :: x <= largest
    ensures rs != [] && rs[|rs| - 1].end == largest
  {
    var n := |rs| - 1;
    assert rs[n].start <= rs[n].end <= rs[n].end;
    assert In(rs, rs[n].end);
  }

  /** The frame for the given ranges. Its delay is filled in when it is written. */
  function AckOf(ars: seq<AckRange>, largest: nat): AckFrame
    requires ars != []
  {
    AckFrame(largest, ars[|ars| - 1].first, if |ars| > 1 then ars else [], 0)
  }

  /** It acknowledges exactly the numbers of the list. */
  lemma AckOfRanges(rs: seq<PacketInterval>, numbers: set<nat>, ignored: nat, ars: seq<AckRange>, largest: nat)
    requires HistoryOk(rs, numbers) && largest in numbers && Within(numbers, ignored, largest)
    requires |ars| == |rs| && Descending(ars) && forall i | 0 <= i < |rs| ::
      ars[i] == AckRange(rs[|rs| - 1 - i].start, rs[|rs| - 1 - i].end)
    ensures ars != [] && var f := AckOf(ars, largest);
      WellFormed(f) && 1 <= f.lowestAcked && forall p: nat :: Acks(f, p) <==> p in numbers
  {
    LargestEndsLast(rs, largest);
    var f := AckOf(ars, largest);
    assert ars[0].last == largest && ars[|ars| - 1].first == rs[0].start;
    assert rs[0].start <= rs[0].start <= rs[0].end;
    assert In(rs, rs[0].start);
    forall p: nat ensures Acks(f, p) <==> In(rs, p) {
      ReversedIn(rs, ars, p);
      if |ars| == 1 && f.lowestAcked <= p <= f.largestAcked { assert ars[0].first <= p <= ars[0].last; }
    }
  }

  /**
   Whether an ACK is queued and when one is due at the latest; how many packets came since the last ACK, and how many of
   them must be acknowledged; and the largest packet that the last ACK acknowledged.
   */
  datatype Pending = Pending(queued: bool, alarm: Option<int>, packets: nat, retransmittable: nat, last: Option<nat>)

  /** An ACK is due. */
  ghost predicate IsDue(d: Pending, now: int) {
    d.queued || (d.alarm.Some? && d.alarm.value <= now)
  }

  /** The reasons for an ACK when a packet arrives; `numbers` are the packets received, including this one. */
  ghost function AfterArrival(d: Pending, numbers: set<nat>, number: nat, instigatesAck: bool, now: int): Pending {
    var packets, retransmittable := d.packets + 1, d.retransmittable + if instigatesAck then 1 else 0;
    var queued :=
      || d.queued || d.last == None || packets >= MAX_PACKETS_BEFORE_ACK || number < d.last.value
        || MissingAbove(numbers, d.last.value)
      || (instigatesAck && retransmittable >= RETRANSMITTABLE_BEFORE_ACK);
    var alarm := if queued then None else if d.alarm == None && instigatesAck then Some(now + ACK_SEND_DELAY)
      else d.alarm;
    Pending(queued, alarm, packets, retransmittable, d.last)
  }

  ghost predicate Within(numbers: set<nat>, ignored: nat, largest: nat) {
    forall p | p in numbers :: ignored < p <= largest
  }

  lemma HighestMissing(history: ReceivedPacketHistory, from: nat)
    requires history.Valid() && history.receivedPacketNumbers != {}
    ensures history.GetHighestAckRange().first > from <==> MissingAbove(history.receivedPacketNumbers, from)
  {
    var p :| p in history.receivedPacketNumbers;
    assert In(history.ranges, p);
    HighestBegins(history.ranges, history.receivedPacketNumbers, from);
  }

  class ReceivedPacketHandler {
    const packetHistory: ReceivedPacketHistory
    var largestObserved: nat
    var ignorePacketsBelow: nat
    var largestObservedReceivedTime: int
    var packetsReceivedSinceLastAck: nat
    var retransmittablePacketsReceivedSinceLastAck: nat
    var ackQueued: bool
    var ackAlarm: Option<int>
    var lastAck: Option<AckFrame>

    ghost predicate Valid()
      reads this, packetHistory
    {
      && packetHistory.Valid()
      && Within(packetHistory.receivedPacketNumbers, ignorePacketsBelow, largestObserved)
      && (ackQueued || ackAlarm.Some? ==> 0 < largestObserved)
      && packetHistory.lowestInReceivedPacketNumbers <= ignorePacketsBelow + 1
    }

    /** The largest packet number seen has not been deleted from the history. */
    ghost predicate HasLargest()
      reads this, packetHistory
    {
      0 < largestObserved ==> largestObserved in packetHistory.receivedPacketNumbers
    }

    ghost function PendingAck(): Pending
      reads this
    {
      Pending(ackQueued, ackAlarm, packetsReceivedSinceLastAck, retransmittablePacketsReceivedSinceLastAck,
        if lastAck.Some? then Some(lastAck.value.largestAcked) else None)
    }

    constructor ()
      ensures Valid() && HasLargest() && fresh(packetHistory) && PendingAck() == Pending(false, None, 0, 0, None)
      ensures packetHistory.receivedPacketNumbers == {} && ignorePacketsBelow == 0
    {
      packetHistory := new ReceivedPacketHistory();
      largestObserved, ignorePacketsBelow, largestObservedReceivedTime := 0, 0, 0;
      packetsReceivedSinceLastAck, retransmittablePacketsReceivedSinceLastAck := 0, 0;
      ackQueued, ackAlarm, lastAck := false, None, None;
    }

    /** Enters the packet in the history, unless it is invalid, too old or a duplicate. */
    method Record(packetNumber: nat, now: int) returns (r: Outcome)
      requires Valid()
      modifies this`largestObserved, this`largestObservedReceivedTime, packetHistory
      ensures Valid() && (r == Accepted ==> 0 < largestObserved)
      ensures r == InvalidNumber <==> packetNumber == 0
      ensures r == BelowStopWaiting <==> 0 < packetNumber <= ignorePacketsBelow
      ensures r == DuplicatePacket <==> packetNumber in old(packetHistory.receivedPacketNumbers)
      ensures r == TooMany <==>
        packetNumber > ignorePacketsBelow && var numbers := old(packetHistory.receivedPacketNumbers);
        packetNumber !in numbers && Full(numbers)
      ensures packetHistory.receivedPacketNumbers
        == old(packetHistory.receivedPacketNumbers) + if r == Accepted then {packetNumber} else {}
      ensures largestObserved == if r == Accepted then Max(old(largestObserved), packetNumber) else old(largestObserved)
      ensures largestObservedReceivedTime
        == if largestObserved > old(largestObserved) then now else old(largestObservedReceivedTime)
    {
      hide HistoryOk, Full;
      if packetNumber == 0 {
        return InvalidNumber;
      }
      if packetNumber <= ignorePacketsBelow {
        return BelowStopWaiting;
      }
      if packetHistory.IsDuplicate(packetNumber) {
        return DuplicatePacket;
      }
      var ok := packetHistory.ReceivedPacket(packetNumber);
      if !ok {
        return TooMany;
      }
      if packetNumber > largestObserved {
        largestObserved, largestObservedReceivedTime := packetNumber, now;
      }
      return Accepted;
    }

    method ReceivedPacket(packetNumber: nat, shouldInstigateAck: bool, now: int) returns (r: Outcome)
      requires Valid()
      modifies this, packetHistory
      ensures Valid() && ignorePacketsBelow == old(ignorePacketsBelow) && lastAck == old(lastAck)
      ensures r == InvalidNumber <==> packetNumber == 0
      ensures r == BelowStopWaiting <==> 0 < packetNumber <= ignorePacketsBelow
      ensures r == DuplicatePacket <==> packetNumber in old(packetHistory.receivedPacketNumbers)
      ensures packetHistory.receivedPacketNumbers
        == old(packetHistory.receivedPacketNumbers) + if r == Accepted then {packetNumber} else {}
      ensures largestObserved == if r == Accepted then Max(old(largestObserved), packetNumber) else old(largestObserved)
      ensures largestObservedReceivedTime
        == if largestObserved > old(largestObserved) then now else old(largestObservedReceivedTime)
      ensures old(HasLargest()) ==> HasLargest()
      ensures r == TooMany <==>
        packetNumber > ignorePacketsBelow && var numbers := old(packetHistory.receivedPacketNumbers);
        packetNumber !in numbers && Full(numbers)
      ensures PendingAck() == if r != Accepted then old(PendingAck())
        else AfterArrival(old(PendingAck()), packetHistory.receivedPacketNumbers, packetNumber, shouldInstigateAck, now)
    {
      hide HistoryOk, Full;
      r := Record(packetNumber, now);
      if r == Accepted {
        MaybeQueueAck(packetNumber, shouldInstigateAck, now);
      }
    }

    method MaybeQueueAck(packetNumber: nat, shouldInstigateAck: bool, now: int)
      requires packetHistory.Valid() && packetHistory.receivedPacketNumbers != {}
      modifies this`packetsReceivedSinceLastAck, this`retransmittablePacketsReceivedSinceLastAck, this`ackQueued,
        this`ackAlarm
      ensures PendingAck() == AfterArrival(old(PendingAck()), packetHistory.receivedPacketNumbers, packetNumber,
        shouldInstigateAck, now)
    {
      hide HistoryOk, MissingAbove;
      if lastAck.Some? { HighestMissing(packetHistory, lastAck.value.largestAcked); }
      packetsReceivedSinceLastAck := packetsReceivedSinceLastAck + 1;
      if shouldInstigateAck {
        retransmittablePacketsReceivedSinceLastAck := retransmittablePacketsReceivedSinceLastAck + 1;
      }
      if lastAck == None {
        ackQueued := true;
      }
      if packetsReceivedSinceLastAck >= MAX_PACKETS_BEFORE_ACK {
        ackQueued := true;
      }
      if lastAck.Some? && packetNumber < lastAck.value.largestAcked {
        ackQueued := true;
      }
      if lastAck.Some? && packetHistory.GetHighestAckRange().first > lastAck.value.largestAcked {
        ackQueued := true;
      }
      if !ackQueued && shouldInstigateAck {
        if retransmittablePacketsReceivedSinceLastAck >= RETRANSMITTABLE_BEFORE_ACK {
          ackQueued := true;
        } else if ackAlarm == None {
          ackAlarm := Some(now + ACK_SEND_DELAY);
        }
      }
      if ackQueued {
        ackAlarm := None;
      }
    }

    /**
     Packets below leastUnacked are forgotten. The largest packet survives that exactly when the frame is ignored or
     does not reach beyond it.
     */
    method ReceivedStopWaiting(leastUnacked: nat)
      requires Valid()
      modifies this`ignorePacketsBelow, packetHistory
      ensures Valid()
      ensures ignorePacketsBelow == Max(old(ignorePacketsBelow), leastUnacked - 1)
      ensures packetHistory.receivedPacketNumbers == set x | x in old(packetHistory.receivedPacketNumbers)
        && ignorePacketsBelow < x
      ensures old(HasLargest()) ==>
        (HasLargest() <==> largestObserved == 0 || leastUnacked <= Max(largestObserved, old(ignorePacketsBelow)))
    {
      if ignorePacketsBelow >= leastUnacked {
        return;
      }
      ignorePacketsBelow := leastUnacked - 1;
      packetHistory.DeleteBelow(leastUnacked);
    }

    /** The frame, if one is due, acknowledges exactly the packets in the history and is well-formed. */
    method GetAckFrame(now: int) returns (ack: Option<AckFrame>)
      requires Valid() && HasLargest()
      modifies this`lastAck, this`ackAlarm, this`ackQueued, this`packetsReceivedSinceLastAck,
        this`retransmittablePacketsReceivedSinceLastAck
      ensures Valid() && HasLargest()
      ensures ack.Some? ==>
        && WellFormed(ack.value) && 1 <= ack.value.lowestAcked && ack.value.largestAcked == largestObserved
        && forall p: nat :: Acks(ack.value, p) <==> p in packetHistory.receivedPacketNumbers
      ensures ack.Some? <==> IsDue(old(PendingAck()), now)
      ensures PendingAck() == if ack.Some? then Pending(false, None, 0, 0, Some(largestObserved)) else old(PendingAck())
    {
      hide HistoryOk;
      if !ackQueued && (ackAlarm == None || ackAlarm.value > now) {
        return None;
      }
      var ackRanges := packetHistory.GetAckRanges();
      AckOfRanges(packetHistory.ranges, packetHistory.receivedPacketNumbers, ignorePacketsBelow, ackRanges,
        largestObserved);
      lastAck, ackAlarm, ackQueued := Some(AckOf(ackRanges, largestObserved)), None, false;
      packetsReceivedSinceLastAck, retransmittablePacketsReceivedSinceLastAck := 0, 0;
      return lastAck;
    }
  }
}
