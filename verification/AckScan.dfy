/** The scans over the packets in flight (ackhandler/sent_packet_handler.go). */
module AckScan {
  import opened Common
  import opened AckFrames
  import opened SentPackets

  /** The packets of the list that the frame acknowledges. */
  ghost function AckedBy(h: seq<Packet>, f: AckFrame): seq<Packet> {
    Select(h, (p: Packet) => Acks(f, p.number))
  }

  /** The i lowest ranges end before n. */
  ghost predicate Passed(rs: seq<AckRange>, i: nat, n: nat) {
    forall k | |rs| - i <= k < |rs| && 0 <= k :: rs[k].last < n
  }

  /** In the range where the scan has stopped, or nowhere. */
  lemma InStoppedRange(f: AckFrame, i: nat, n: nat)
    requires WellFormed(f) && i < |f.ackRanges| && Passed(f.ackRanges, i, n)
    requires n <= f.ackRanges[|f.ackRanges| - 1 - i].last
    ensures Acks(f, n) <==> f.ackRanges[|f.ackRanges| - 1 - i].first <= n
  {
    var rs := f.ackRanges;
    var at := |rs| - 1 - i;
    forall k | 0 <= k < |rs| && k != at ensures !(rs[k].first <= n <= rs[k].last) {
      if k < at {
        assert rs[at].last + 1 < rs[k].first;
      }
    }
  }

  /** Moves on to the first range, from the lowest up, that does not end before n. */
  method AdvanceRange(f: AckFrame, i: nat, n: nat) returns (j: nat)
    requires WellFormed(f) && i < |f.ackRanges| && n <= f.largestAcked && Passed(f.ackRanges, i, n)
    ensures i <= j < |f.ackRanges| && Passed(f.ackRanges, j, n) && n <= f.ackRanges[|f.ackRanges| - 1 - j].last
  {
    j := i;
    while n > f.ackRanges[|f.ackRanges| - 1 - j].last && j < |f.ackRanges| - 1
      invariant i <= j < |f.ackRanges| && Passed(f.ackRanges, j, n)
    {
      j := j + 1;
    }
  }

  /**
   One pass over the packets and, beside it, over the ranges from the lowest up. It finds exactly the packets that the
   frame acknowledges, and the case the source reports as a bug does not occur.
   */
  method DetermineNewlyAckedPackets(h: seq<Packet>, f: AckFrame) returns (acked: seq<Packet>, bug: bool)
    requires Increasing(h) && WellFormed(f)
    ensures !bug && acked == AckedBy(h, f)
  {
    hide WellFormed, Increasing, Acks;
    acked, bug := [], false;
    var ackRangeIndex, el := 0, 0;
    while el < |h|
      invariant 0 <= el <= |h| && acked == AckedBy(h[..el], f)
      invariant HasMissingRanges(f) ==> ackRangeIndex < |f.ackRanges|
      invariant forall k | el <= k < |h| :: Passed(f.ackRanges, ackRangeIndex, h[k].number)
    {
      var n := h[el].number;
      SelectNext(h, el, f);
      if n < f.lowestAcked {
        OutOfBounds(f, n);
      } else if n > f.largestAcked {
        NoneAbove(h, el, f);
        return;
      } else if HasMissingRanges(f) {
        var i := AdvanceRange(f, ackRangeIndex, n);
        InStoppedRange(f, i, n);
        PassedLater(h, el, f.ackRanges, i);
        ackRangeIndex := i;
        var range := f.ackRanges[|f.ackRanges| - 1 - i];
        if n >= range.first {
          if n > range.last {
            return [], true;
          }
          acked := acked + [h[el]];
        }
      } else {
        AcksPlain(f, n);
        acked := acked + [h[el]];
      }
      el := el + 1;
    }
    assert h[..el] == h;
  }

  lemma AcksPlain(f: AckFrame, n: nat)
    requires f.ackRanges == [] && f.lowestAcked <= n <= f.largestAcked
    ensures Acks(f, n)
  {
  }

  lemma SelectNext(h: seq<Packet>, el: nat, f: AckFrame)
    requires el < |h|
    ensures AckedBy(h[..el + 1], f) == AckedBy(h[..el], f) + if Acks(f, h[el].number) then [h[el]] else []
  {
    assert h[..el + 1][..el] == h[..el];
  }

  lemma PassedLater(h: seq<Packet>, el: nat, rs: seq<AckRange>, i: nat)
    requires Increasing(h) && el < |h| && Passed(rs, i, h[el].number)
    ensures forall k | el <= k < |h| :: Passed(rs, i, h[k].number)
  {
    forall k | el <= k < |h| ensures Passed(rs, i, h[k].number) {
      assert k == el || h[el].number < h[k].number;
    }
  }

  /** Beyond the largest acknowledged packet there is nothing to find. */
  lemma {:induction false} NoneAbove(h: seq<Packet>, el: nat, f: AckFrame)
    requires Increasing(h) && el < |h| && WellFormed(f) && f.largestAcked < h[el].number
    ensures AckedBy(h, f) == AckedBy(h[..el], f)
  {
    var k := el;
    while k < |h|
      invariant el <= k <= |h| && AckedBy(h[..k], f) == AckedBy(h[..el], f)
    {
      SelectNext(h, k, f);
      OutOfBounds(f, h[k].number);
      k := k + 1;
    }
    assert h[..k] == h;
  }

  // ---------- loss detection ----------

  /** Sent too long ago, with something sent later acknowledged. */
  predicate IsLost(p: Packet, largestAcked: nat, now: int, delayUntilLost: int) {
    p.number <= largestAcked && now - p.sendTime > delayUntilLost
  }

  ghost function LostIn(h: seq<Packet>, largestAcked: nat, now: int, delayUntilLost: int): seq<Packet> {
    Select(h, (p: Packet) => IsLost(p, largestAcked, now, delayUntilLost))
  }

  /**
   When the first packet that is below the largest acknowledged one and not lost yet will be lost; None if there is
   none.
   */
  ghost predicate IsLossTime(h: seq<Packet>, largestAcked: nat, now: int, delayUntilLost: int, lossTime: Option<int>) {
    match lossTime
    case None => forall p | p in h && p.number <= largestAcked :: IsLost(p, largestAcked, now, delayUntilLost)
    case Some(t) => exists i | 0 <= i < |h| ::
      && h[i].number <= largestAcked && !IsLost(h[i], largestAcked, now, delayUntilLost)
        && t == h[i].sendTime + delayUntilLost >= now
      && forall j | 0 <= j < i :: IsLost(h[j], largestAcked, now, delayUntilLost)
  }

  /** The same as a function. */
  ghost function LossTime(h: seq<Packet>, largestAcked: nat, now: int, delayUntilLost: int): Option<int> {
    if h == [] then None
    else
      var before, last := LossTime(h[..|h| - 1], largestAcked, now, delayUntilLost), h[|h| - 1];
      if before.Some? || last.number > largestAcked || IsLost(last, largestAcked, now, delayUntilLost) then before
      else Some(last.sendTime + delayUntilLost)
  }

  lemma {:induction false} LossTimeUnique(h: seq<Packet>, largestAcked: nat, now: int, delayUntilLost: int,
    lossTime: Option<int>)
    requires Increasing(h) && IsLossTime(h, largestAcked, now, delayUntilLost, lossTime)
    ensures lossTime == LossTime(h, largestAcked, now, delayUntilLost)
  {
    if h != [] {
      var front, last := h[..|h| - 1], h[|h| - 1];
      assert h == front + [last];
      if lossTime.Some? && forall p | p in front && p.number <= largestAcked ::
        IsLost(p, largestAcked, now, delayUntilLost) {
        LossTimeUnique(front, largestAcked, now, delayUntilLost, None);
      } else {
        LossTimeUnique(front, largestAcked, now, delayUntilLost, lossTime);
      }
    }
  }

  /** The packets that are not acknowledged, and those that are not lost. */
  ghost function Unacked(h: seq<Packet>, f: AckFrame): seq<Packet> {
    Select(h, (p: Packet) => !Acks(f, p.number))
  }

  ghost function NotLost(h: seq<Packet>, largestAcked: nat, now: int, delayUntilLost: int): seq<Packet> {
    Select(h, (p: Packet) => !IsLost(p, largestAcked, now, delayUntilLost))
  }

  /** The lost packets, and the time at which the first of the others will be lost. */
  method FindLost(h: seq<Packet>, largestAcked: nat, now: int, delayUntilLost: int)
    returns (lost: seq<Packet>, lossTime: Option<int>)
    requires Increasing(h)
    ensures lost == LostIn(h, largestAcked, now, delayUntilLost)
    ensures IsLossTime(h, largestAcked, now, delayUntilLost, lossTime)
  {
    lost, lossTime := [], None;
    var el := 0;
    while el < |h|
      invariant 0 <= el <= |h| && lost == LostIn(h[..el], largestAcked, now, delayUntilLost)
      invariant lossTime == None ==> forall j | 0 <= j < el :: IsLost(h[j], largestAcked, now, delayUntilLost)
      invariant lossTime.Some? ==> IsLossTime(h, largestAcked, now, delayUntilLost, lossTime)
    {
      if h[el].number > largestAcked {
        break;
      }
      assert h[..el + 1][..el] == h[..el];
      assert h[..el + 1] == h[..el] + [h[el]];
      var timeSinceSent := now - h[el].sendTime;
      if timeSinceSent > delayUntilLost {
        lost := lost + [h[el]];
      } else if lossTime == None {
        lossTime := Some(now + (delayUntilLost - timeSinceSent));
      }
      el := el + 1;
    }
    NoneLater(h, el, largestAcked, now, delayUntilLost);
  }

  lemma {:induction false} NoneLater(h: seq<Packet>, el: nat, largestAcked: nat, now: int, delayUntilLost: int)
    requires Increasing(h) && el <= |h| && (el < |h| ==> largestAcked < h[el].number)
    ensures LostIn(h, largestAcked, now, delayUntilLost) == LostIn(h[..el], largestAcked, now, delayUntilLost)
    ensures forall p | p in h && p.number <= largestAcked :: p in h[..el]
  {
    var k := el;
    while k < |h|
      invariant el <= k <= |h|
        && LostIn(h[..k], largestAcked, now, delayUntilLost) == LostIn(h[..el], largestAcked, now, delayUntilLost)
    {
      assert h[..k + 1][..k] == h[..k];
      k := k + 1;
    }
    assert h[..k] == h;
  }
}
