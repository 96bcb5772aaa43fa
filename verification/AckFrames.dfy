/** ACK frames as values, and the checks on them (frames/ack_frame.go, frames/ack_range.go). */
module AckFrames {
  import opened Common

  datatype AckRange = AckRange(first: nat, last: nat)

  /** Highest range first; no ranges means that everything from lowestAcked to largestAcked is acknowledged. */
  datatype AckFrame = AckFrame(largestAcked: nat, lowestAcked: nat, ackRanges: seq<AckRange>, delay: nat)

  /** uint64 arithmetic: x modulo 2^64. */
  function Wrap(x: int): (w: nat)
    ensures w < TWO_64
  {
    if 0 <= x < TWO_64 then x else if 0 <= x + TWO_64 < TWO_64 then x + TWO_64 else x % TWO_64
  }

  predicate HasMissingRanges(f: AckFrame) {
    |f.ackRanges| > 0
  }

  /** Ranges are non-empty, descending, and leave at least one packet between neighbours. */
  ghost predicate Descending(rs: seq<AckRange>) {
    && (forall i | 0 <= i < |rs| :: rs[i].first <= rs[i].last)
    && (forall i, j | 0 <= i < j < |rs| :: rs[j].last + 1 < rs[i].first)
  }

  /** What an ACK frame should look like. */
  ghost predicate WellFormed(f: AckFrame) {
    if f.ackRanges == [] then f.lowestAcked <= f.largestAcked
    else
      && |f.ackRanges| >= 2 && Descending(f.ackRanges)
      && f.ackRanges[0].last == f.largestAcked
      && f.ackRanges[|f.ackRanges| - 1].first == f.lowestAcked
  }

  /** validateAckRanges: its comparison of neighbours adds one in uint64 arithmetic. */
  method ValidateAckRanges(f: AckFrame) returns (ok: bool)
    ensures ok <==> Validates(f)
  {
    var rs := f.ackRanges;
    if |rs| == 0 {
      return true;
    }
    if |rs| == 1 {
      return false;
    }
    if rs[0].last != f.largestAcked {
      return false;
    }
    var i := 0;
    while i < |rs|
      invariant 0 <= i <= |rs|
      invariant forall j | 0 <= j < i :: rs[j].first <= rs[j].last
    {
      if rs[i].first > rs[i].last {
        return false;
      }
      i := i + 1;
    }
    i := 1;
    while i < |rs|
      invariant 1 <= i <= |rs|
      invariant forall j | 1 <= j < i :: Below(rs[j - 1], rs[j])
    {
      if rs[i - 1].first <= rs[i].first || rs[i - 1].first <= Wrap(rs[i].last + 1) {
        return false;
      }
      i := i + 1;
    }
    return true;
  }

  predicate Below(r: AckRange, next: AckRange) {
    next.first < r.first && Wrap(next.last + 1) < r.first
  }

  predicate Validates(f: AckFrame) {
    var rs := f.ackRanges;
    |rs| > 0 ==>
      && |rs| > 1 && rs[0].last == f.largestAcked
      && (forall i | 0 <= i < |rs| :: rs[i].first <= rs[i].last)
      && (forall i | 1 <= i < |rs| :: Below(rs[i - 1], rs[i]))
  }

  /** A well-formed frame passes validation. */
  lemma WellFormedValidates(f: AckFrame)
    requires WellFormed(f) && f.largestAcked < TWO_64
    ensures Validates(f)
  {
    var rs := f.ackRanges;
    if rs != [] {
      forall i | 1 <= i < |rs| ensures Below(rs[i - 1], rs[i]) {
        assert rs[i].last + 1 < rs[i - 1].first <= rs[i - 1].last <= f.largestAcked;
      }
    }
  }

  /** The packets a frame acknowledges. */
  ghost predicate Acks(f: AckFrame, p: nat) {
    if f.ackRanges == [] then f.lowestAcked <= p <= f.largestAcked
    else exists i | 0 <= i < |f.ackRanges| :: f.ackRanges[i].first <= p <= f.ackRanges[i].last
  }

  /** AcksPacket: the bounds check in front of the search changes nothing on a well-formed frame. */
  method AcksPacket(f: AckFrame, p: nat) returns (acked: bool)
    ensures acked <==> f.lowestAcked <= p <= f.largestAcked && Acks(f, p)
    ensures WellFormed(f) ==> (acked <==> Acks(f, p))
  {
    if p < f.lowestAcked || p > f.largestAcked {
      if WellFormed(f) { OutOfBounds(f, p); }
      return false;
    }
    if HasMissingRanges(f) {
      var i := 0;
      while i < |f.ackRanges|
        invariant 0 <= i <= |f.ackRanges|
        invariant forall j | 0 <= j < i :: !(f.ackRanges[j].first <= p <= f.ackRanges[j].last)
      {
        if p >= f.ackRanges[i].first && p <= f.ackRanges[i].last {
          return true;
        }
        i := i + 1;
      }
      return false;
    }
    return true;
  }

  lemma OutOfBounds(f: AckFrame, p: nat)
    requires WellFormed(f) && (p < f.lowestAcked || p > f.largestAcked)
    ensures !Acks(f, p)
  {
    var rs := f.ackRanges;
    if rs != [] {
      var n := |rs| - 1;
      forall i | 0 <= i < |rs| ensures !(rs[i].first <= p <= rs[i].last) {
        assert i == 0 || rs[i].last + 1 < rs[0].first;
        assert i == n || rs[n].last + 1 < rs[i].first;
      }
    }
  }
}
