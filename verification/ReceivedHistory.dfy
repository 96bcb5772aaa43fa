/** The receiver's record of packet numbers (ackhandler/received_packet_history.go): an interval list and a set. */
module ReceivedHistory {
  import opened Common
  import opened AckFrames
  import opened Sequences
  import ByteIntervals

  const MAX_TRACKED_PACKETS: nat := 2000
  const MAX_TRACKED_RANGES: nat := 1000

  /** Both ends belong to the interval. */
  datatype PacketInterval = PacketInterval(start: nat, end: nat)

  /** Intervals are non-empty, ascending, and leave at least one number between neighbours. */
  ghost predicate Canonical(rs: seq<PacketInterval>) {
    && (forall i | 0 <= i < |rs| :: rs[i].start <= rs[i].end)
    && (forall i, j | 0 <= i < j < |rs| :: rs[i].end + 1 < rs[j].start)
  }

  ghost predicate In(rs: seq<PacketInterval>, p: nat) {
    exists i | 0 <= i < |rs| :: rs[i].start <= p <= rs[i].end
  }

  /** There is one canonical list for each set of numbers. */
  lemma CanonicalUnique(a: seq<PacketInterval>, b: seq<PacketInterval>)
    requires Canonical(a) && Canonical(b) && forall p: nat :: In(a, p) <==> In(b, p)
    ensures a == b
  {
    forall p: nat ensures ByteIntervals.Covers(HalfOpen(a), p) <==> ByteIntervals.Covers(HalfOpen(b), p) {
      HalfOpenCovers(a, p);
      HalfOpenCovers(b, p);
    }
    ByteIntervals.CanonicalUnique(HalfOpen(a), HalfOpen(b));
    forall i | 0 <= i < |a| ensures a[i] == b[i] {
      assert HalfOpen(a)[i] == HalfOpen(b)[i];
    }
  }

  ghost function HalfOpen(rs: seq<PacketInterval>): seq<ByteIntervals.ByteInterval> {
    seq(|rs|, i requires 0 <= i < |rs| => ByteIntervals.ByteInterval(rs[i].start, rs[i].end + 1))
  }

  lemma HalfOpenCovers(rs: seq<PacketInterval>, p: nat)
    ensures ByteIntervals.Covers(HalfOpen(rs), p) <==> In(rs, p)
    ensures Canonical(rs) ==> ByteIntervals.Canonical(HalfOpen(rs))
  {
    var h := HalfOpen(rs);
    if In(rs, p) {
      var i :| 0 <= i < |rs| && rs[i].start <= p <= rs[i].end;
      assert h[i].start <= p < h[i].end;
    }
    if ByteIntervals.Covers(h, p) {
      var i :| 0 <= i < |h| && h[i].start <= p < h[i].end;
      assert rs[i].start <= p <= rs[i].end;
    }
  }

  // ---------- adding a packet ----------

  /** The list with one more number in it. */
  ghost predicate Adds(rs: seq<PacketInterval>, p: nat, out: seq<PacketInterval>) {
    Canonical(out) && forall x: nat :: In(out, x) <==> In(rs, x) || x == p
  }

  lemma InConcat(a: seq<PacketInterval>, b: seq<PacketInterval>, x: nat)
    ensures In(a + b, x) <==> In(a, x) || In(b, x)
  {
    var c := a + b;
    if In(a, x) {
      var i :| 0 <= i < |a| && a[i].start <= x <= a[i].end;
      assert c[i].start <= x <= c[i].end;
    }
    if In(b, x) {
      var i :| 0 <= i < |b| && b[i].start <= x <= b[i].end;
      assert c[|a| + i].start <= x <= c[|a| + i].end;
    }
    if In(c, x) {
      var i :| 0 <= i < |c| && c[i].start <= x <= c[i].end;
      if i < |a| { assert a[i].start <= x <= a[i].end; } else { assert b[i - |a|].start <= x <= b[i - |a|].end; }
    }
  }

  lemma InOne(r: PacketInterval, x: nat)
    ensures In([r], x) <==> r.start <= x <= r.end
  {
    if r.start <= x <= r.end { assert [r][0].start <= x <= [r][0].end; }
  }

  /** The list with the ranges i..j-1 replaced by the range m. */
  function Splice(rs: seq<PacketInterval>, i: nat, j: nat, m: PacketInterval): seq<PacketInterval>
    requires i <= j <= |rs|
  {
    rs[..i] + [m] + rs[j..]
  }

  lemma SpliceIn(rs: seq<PacketInterval>, i: nat, j: nat, m: PacketInterval, x: nat)
    requires i <= j <= |rs|
    ensures In(rs, x) <==> In(rs[..i], x) || In(rs[i..j], x) || In(rs[j..], x)
    ensures In(Splice(rs, i, j, m), x) <==> In(rs[..i], x) || m.start <= x <= m.end || In(rs[j..], x)
  {
    ThreeParts(rs, i, j);
    InConcat(rs[..i], rs[i..j] + rs[j..], x);
    InConcat(rs[i..j], rs[j..], x);
    InConcat(rs[..i] + [m], rs[j..], x);
    InConcat(rs[..i], [m], x);
    InOne(m, x);
  }

  lemma SpliceCanonical(rs: seq<PacketInterval>, i: nat, j: nat, m: PacketInterval)
    requires Canonical(rs) && i <= j <= |rs| && m.start <= m.end
    requires i > 0 ==> rs[i - 1].end + 1 < m.start
    requires j < |rs| ==> m.end + 1 < rs[j].start
    ensures Canonical(Splice(rs, i, j, m))
  {
    var out := Splice(rs, i, j, m);
    forall a | 0 <= a < |out|
      ensures out[a].start <= out[a].end && (a < i ==> out[a].end + 1 < m.start)
      && (a > i ==> m.end + 1 < out[a].start) {
      assert a < i ==> out[a] == rs[a];
      assert a > i ==> out[a] == rs[a - i - 1 + j];
    }
    forall a, b | 0 <= a < b < |out| ensures out[a].end + 1 < out[b].start {
      if b < i { assert out[a] == rs[a] && out[b] == rs[b]; }
      if a > i { assert out[a] == rs[a - i - 1 + j] && out[b] == rs[b - i - 1 + j]; }
    }
  }

  /** Inserting, extending and merging are all this: a range takes the place of its neighbours and p. */
  lemma SpliceAdds(rs: seq<PacketInterval>, i: nat, j: nat, m: PacketInterval, p: nat)
    requires Canonical(rs) && i <= j <= |rs| && m.start <= p <= m.end
    requires i > 0 ==> rs[i - 1].end + 1 < m.start
    requires j < |rs| ==> m.end + 1 < rs[j].start
    requires j == i ==> m.start == m.end
    requires j == i + 1 ==>
      m.start == Min(p, rs[i].start) && m.end == Max(p, rs[i].end) && rs[i].start <= p + 1 && p <= rs[i].end + 1
    requires j == i + 2 ==>
      m.start == rs[i].start && m.end == rs[i + 1].end && rs[i].end + 1 == p == rs[i + 1].start - 1
    requires j <= i + 2
    ensures Adds(rs, p, Splice(rs, i, j, m))
  {
    SpliceCanonical(rs, i, j, m);
    forall x: nat ensures In(Splice(rs, i, j, m), x) <==> In(rs, x) || x == p {
      SpliceIn(rs, i, j, m, x);
      if j == i + 1 {
        assert rs[i..j] == [rs[i]];
        InOne(rs[i], x);
      } else if j == i + 2 {
        assert rs[i..j] == [rs[i]] + [rs[i + 1]];
        InConcat([rs[i]], [rs[i + 1]], x);
        InOne(rs[i], x);
        InOne(rs[i + 1], x);
      }
    }
  }

  /** Walks the list from the back to the place where p belongs. */
  method AddToRanges(rs: seq<PacketInterval>, p: nat) returns (out: seq<PacketInterval>)
    requires Canonical(rs) && p >= 1
    ensures Adds(rs, p, out)
    ensures |out| <= |rs| + 1
  {
    var el := |rs|;
    while el > 0
      invariant 0 <= el <= |rs|
      invariant el < |rs| ==> p + 1 < rs[el].start
    {
      el := el - 1;
      var r := rs[el];
      // p is already in a range
      if p >= r.start && p <= r.end {
        assert In(rs, p);
        return rs;
      }
      var extended := r;
      if r.end == p - 1 {
        extended := PacketInterval(r.start, p);
      } else if r.start == p + 1 {
        extended := PacketInterval(p, r.end);
      }
      if extended != r {
        if el > 0 && rs[el - 1].end + 1 == extended.start {
          // the extended range meets the one before it
          var merged := PacketInterval(rs[el - 1].start, extended.end);
          SpliceAdds(rs, el - 1, el + 1, merged, p);
          return Splice(rs, el - 1, el + 1, merged);
        }
        SpliceAdds(rs, el, el + 1, extended, p);
        return Splice(rs, el, el + 1, extended);
      }
      // a new range after this one
      if p > r.end {
        SpliceAdds(rs, el + 1, el + 1, PacketInterval(p, p), p);
        return Splice(rs, el + 1, el + 1, PacketInterval(p, p));
      }
    }
    // a new range at the front
    SpliceAdds(rs, 0, 0, PacketInterval(p, p), p);
    return Splice(rs, 0, 0, PacketInterval(p, p));
  }

  // ---------- deleting below a packet number ----------

  /** The list without the numbers below `least`. */
  function Trim(rs: seq<PacketInterval>, least: nat): (out: seq<PacketInterval>)
    ensures |out| <= |rs|
  {
    if rs == [] then []
    else if rs[0].end < least then Trim(rs[1..], least)
    else if rs[0].start < least then [PacketInterval(least, rs[0].end)] + rs[1..]
    else rs
  }

  lemma {:induction false} TrimIn(rs: seq<PacketInterval>, least: nat, x: nat)
    requires Canonical(rs)
    ensures Canonical(Trim(rs, least)) && (In(Trim(rs, least), x) <==> In(rs, x) && least <= x)
  {
    if rs != [] {
      var r, tail := rs[0], rs[1..];
      assert rs == [r] + tail;
      InConcat([r], tail, x);
      InOne(r, x);
      TailAbove(rs, x);
      if r.end < least {
        TrimIn(tail, least, x);
      } else if r.start < least {
        TrimFirst(rs, least, x);
      }
    }
  }

  lemma TailAbove(rs: seq<PacketInterval>, x: nat)
    requires Canonical(rs) && rs != []
    ensures Canonical(rs[1..]) && (In(rs[1..], x) ==> rs[0].end < x)
  {
    assert forall i | 0 <= i < |rs[1..]| :: rs[1..][i] == rs[i + 1];
  }

  lemma TrimFirst(rs: seq<PacketInterval>, least: nat, x: nat)
    requires Canonical(rs) && rs != [] && rs[0].start < least <= rs[0].end
    ensures var out := [PacketInterval(least, rs[0].end)] + rs[1..];
      Canonical(out) && (In(out, x) <==> least <= x <= rs[0].end || In(rs[1..], x))
  {
    var m := PacketInterval(least, rs[0].end);
    SpliceCanonical(rs, 0, 1, m);
    assert Splice(rs, 0, 1, m) == [m] + rs[1..];
    InConcat([m], rs[1..], x);
    InOne(m, x);
  }

  method DeleteNumbers(numbers: set<nat>, from: nat, to: nat) returns (left: set<nat>)
    ensures left == set x | x in numbers && !(from <= x < to)
  {
    left := numbers;
    var i := from;
    while i < to
      invariant from <= i
      invariant left == set x | x in numbers && !(from <= x < Min(i, to))
    {
      left := left - {i};
      i := i + 1;
    }
  }

  /** Takes ranges off the front of the list until one reaches `least`. */
  method DeleteBelowIn(rs: seq<PacketInterval>, numbers: set<nat>, least: nat)
    returns (out: seq<PacketInterval>, left: set<nat>)
    requires Canonical(rs) && forall x: nat :: x in numbers <==> In(rs, x)
    ensures out == Trim(rs, least) && left == set x | x in numbers && least <= x
  {
    left := numbers;
    var k := 0;
    while k < |rs|
      invariant 0 <= k <= |rs| && (k > 0 ==> rs[k - 1].end < least)
      invariant Trim(rs[k..], least) == Trim(rs, least)
      invariant left == set x | x in numbers && !(k > 0 && x <= rs[k - 1].end)
    {
      var el := rs[k];
      if least > el.start && least <= el.end {
        left := DeleteNumbers(left, el.start, least);
        assert rs[k..][1..] == rs[k + 1..];
        BetweenRanges(rs, k);
        return [PacketInterval(least, el.end)] + rs[k + 1..], left;
      }
      if el.end < least {
        BetweenRanges(rs, k);
        left := DeleteNumbers(left, el.start, el.end + 1);
        assert rs[k..][1..] == rs[k + 1..];
        k := k + 1;
      } else {
        BetweenRanges(rs, k);
        return rs[k..], left;
      }
    }
    assert rs[k..] == [];
    AllBelow(rs, numbers, least);
    return [], left;
  }

  /** No number lies between a range and the next one. */
  lemma BetweenRanges(rs: seq<PacketInterval>, k: nat)
    requires Canonical(rs) && k < |rs|
    ensures forall x: nat | In(rs, x) && x < rs[k].start :: k > 0 && x <= rs[k - 1].end
  {
  }

  lemma AllBelow(rs: seq<PacketInterval>, numbers: set<nat>, least: nat)
    requires Canonical(rs) && forall x: nat :: x in numbers <==> In(rs, x)
    requires rs != [] ==> rs[|rs| - 1].end < least
    ensures forall x | x in numbers :: x < least && rs != [] && x <= rs[|rs| - 1].end
  {
  }

  lemma {:induction false} SubsetSize(a: set<nat>, b: set<nat>)
    requires a <= b
    ensures |a| <= |b|
  {
    assert b == a + (b - a);
  }

  /** The list is the canonical form of the set, and both keep to their limits. */
  ghost predicate HistoryOk(ranges: seq<PacketInterval>, numbers: set<nat>) {
    && Canonical(ranges) && (forall x: nat :: x in numbers <==> In(ranges, x))
    && |numbers| <= MAX_TRACKED_PACKETS && |ranges| <= MAX_TRACKED_RANGES
    && 0 !in numbers
  }

  /** The last numbers of the stretches of a set: there are as many as there are intervals. */
  ghost function Ends(numbers: set<nat>): set<nat> {
    set n | n in numbers && IsEnd(numbers, n)
  }

  ghost predicate IsEnd(numbers: set<nat>, n: nat) {
    n + 1 !in numbers
  }

  lemma {:induction false} CountRanges(rs: seq<PacketInterval>, numbers: set<nat>)
    requires Canonical(rs) && forall x: nat :: x in numbers <==> In(rs, x)
    ensures |rs| == |Ends(numbers)|
  {
    if rs == [] {
      assert Ends(numbers) == {};
    } else {
      var front, last := rs[..|rs| - 1], rs[|rs| - 1];
      var below := set x | x in numbers && x < last.start;
      forall x: nat ensures x in below <==> In(front, x) { InFront(rs, x); }
      CountRanges(front, below);
      EndsOfLast(rs, numbers, below);
    }
  }

  lemma InFront(rs: seq<PacketInterval>, x: nat)
    requires Canonical(rs) && rs != []
    ensures In(rs[..|rs| - 1], x) <==> In(rs, x) && x < rs[|rs| - 1].start
    ensures rs[|rs| - 1].start <= x <= rs[|rs| - 1].end ==> In(rs, x)
    ensures In(rs, x) ==> x <= rs[|rs| - 1].end
    ensures x + 1 == rs[|rs| - 1].start ==> !In(rs, x)
  {
    var front := rs[..|rs| - 1];
    if In(front, x) {
      var i :| 0 <= i < |front| && front[i].start <= x <= front[i].end;
      assert rs[i].start <= x <= rs[i].end && rs[i].end + 1 < rs[|rs| - 1].start;
    }
    if In(rs, x) && x < rs[|rs| - 1].start {
      var i :| 0 <= i < |rs| && rs[i].start <= x <= rs[i].end;
      assert front[i] == rs[i];
    }
  }

  lemma EndsOfLast(rs: seq<PacketInterval>, numbers: set<nat>, below: set<nat>)
    requires Canonical(rs) && rs != [] && forall x: nat :: x in numbers <==> In(rs, x)
    requires below == set x | x in numbers && x < rs[|rs| - 1].start
    ensures Ends(numbers) == Ends(below) + {rs[|rs| - 1].end} && rs[|rs| - 1].end !in Ends(below)
  {
    var last := rs[|rs| - 1];
    forall x: nat ensures last.start <= x <= last.end ==> x in numbers { InFront(rs, x); }
    forall x: nat | x in numbers ensures x <= last.end { InFront(rs, x); }
    forall x: nat | x in numbers ensures x + 1 != last.start { InFront(rs, x); }
    forall n: nat ensures n in Ends(numbers) <==> n in Ends(below) || n == last.end {
      assert n in numbers && n < last.start ==> n + 1 != last.start;
    }
  }

  /** There is no room for one more packet. */
  ghost predicate Full(numbers: set<nat>) {
    |Ends(numbers)| >= MAX_TRACKED_RANGES || |numbers| >= MAX_TRACKED_PACKETS
  }

  /** Some number is missing between the two ends of a stretch. */
  ghost predicate MissingAbove(numbers: set<nat>, from: nat) {
    exists x: nat, p | from <= x < p && p in numbers :: x !in numbers
  }

  /** The highest interval begins above a number exactly when something from that number on is missing. */
  lemma HighestBegins(rs: seq<PacketInterval>, numbers: set<nat>, from: nat)
    requires Canonical(rs) && rs != [] && (forall x: nat :: x in numbers <==> In(rs, x)) && 0 !in numbers
    ensures rs[|rs| - 1].start > from <==> MissingAbove(numbers, from)
  {
    var last := rs[|rs| - 1];
    if last.start > from {
      InFront(rs, last.start);
      InFront(rs, last.start - 1);
      assert from <= last.start - 1 < last.start && last.start in numbers && last.start - 1 !in numbers;
    } else {
      forall x: nat, p: nat | from <= x < p && p in numbers ensures x in numbers {
        InFront(rs, p);
        InFront(rs, x);
      }
    }
  }

  class ReceivedPacketHistory {
    var ranges: seq<PacketInterval>
    var receivedPacketNumbers: set<nat>
    var lowestInReceivedPacketNumbers: nat

    ghost predicate Valid()
      reads this
    {
      HistoryOk(ranges, receivedPacketNumbers)
    }

    constructor ()
      ensures Valid() && receivedPacketNumbers == {} && lowestInReceivedPacketNumbers == 0
    {
      ranges, receivedPacketNumbers, lowestInReceivedPacketNumbers := [], {}, 0;
    }

    method ReceivedPacket(p: nat) returns (ok: bool)
      requires Valid() && p >= 1
      modifies this`ranges, this`receivedPacketNumbers
      ensures Valid()
      ensures ok <==> |old(ranges)| < MAX_TRACKED_RANGES && |old(receivedPacketNumbers)| < MAX_TRACKED_PACKETS
      ensures ok <==> !Full(old(receivedPacketNumbers))
      ensures receivedPacketNumbers == if ok then old(receivedPacketNumbers) + {p} else old(receivedPacketNumbers)
    {
      CountRanges(ranges, receivedPacketNumbers);
      if |ranges| >= MAX_TRACKED_RANGES || |receivedPacketNumbers| >= MAX_TRACKED_PACKETS {
        return false;
      }
      receivedPacketNumbers := receivedPacketNumbers + {p};
      ranges := AddToRanges(ranges, p);
      return true;
    }

    method DeleteBelow(leastUnacked: nat)
      requires Valid()
      modifies this
      ensures Valid()
      ensures receivedPacketNumbers == set x | x in old(receivedPacketNumbers) && leastUnacked <= x
      ensures lowestInReceivedPacketNumbers == Max(old(lowestInReceivedPacketNumbers), leastUnacked)
    {
      lowestInReceivedPacketNumbers := Max(lowestInReceivedPacketNumbers, leastUnacked);
      ghost var rs, numbers := ranges, receivedPacketNumbers;
      ranges, receivedPacketNumbers := DeleteBelowIn(ranges, receivedPacketNumbers, leastUnacked);
      forall x: nat ensures Canonical(ranges) && (In(ranges, x) <==> In(rs, x) && leastUnacked <= x) {
        TrimIn(rs, leastUnacked, x);
      }
      assert Canonical(ranges) by { TrimIn(rs, leastUnacked, 0); }
      SubsetSize(receivedPacketNumbers, numbers);
    }

    function IsDuplicate(p: nat): (b: bool)
      reads this
    {
      p < lowestInReceivedPacketNumbers || p in receivedPacketNumbers
    }

    /** The ranges, highest first. */
    method GetAckRanges() returns (ackRanges: seq<AckRange>)
      requires Valid()
      ensures |ackRanges| == |ranges| && Descending(ackRanges)
      ensures forall i | 0 <= i < |ranges| ::
        ackRanges[i] == AckRange(ranges[|ranges| - 1 - i].start, ranges[|ranges| - 1 - i].end)
    {
      ackRanges := [];
      var el := |ranges|;
      while el > 0
        invariant 0 <= el <= |ranges| && |ackRanges| == |ranges| - el
        invariant forall i | 0 <= i < |ackRanges| ::
          ackRanges[i] == AckRange(ranges[|ranges| - 1 - i].start, ranges[|ranges| - 1 - i].end)
      {
        el := el - 1;
        ackRanges := ackRanges + [AckRange(ranges[el].start, ranges[el].end)];
      }
    }

    function GetHighestAckRange(): AckRange
      reads this
    {
      if ranges == [] then AckRange(0, 0) else AckRange(ranges[|ranges| - 1].start, ranges[|ranges| - 1].end)
    }
  }
}
