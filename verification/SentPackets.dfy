/** The sender's list of packets in flight (ackhandler/packet.go, ackhandler/sent_packet_handler.go), as a sequence. */
module SentPackets {
  import opened Common

  datatype Packet = Packet(number: nat, length: nat, sendTime: int)

  ghost predicate Increasing(h: seq<Packet>) {
    forall i, j | 0 <= i < j < |h| :: h[i].number < h[j].number
  }

  ghost function Numbers(h: seq<Packet>): set<nat> {
    set p | p in h :: p.number
  }

  /** The bytes of all packets of the list. */
  function Bytes(h: seq<Packet>): nat {
    if h == [] then 0 else Bytes(h[..|h| - 1]) + h[|h| - 1].length
  }

  /** The list without the packet with the given number. */
  function Remove(h: seq<Packet>, n: nat): (r: seq<Packet>)
    ensures |r| <= |h|
  {
    if h == [] then []
    else
      var last := h[|h| - 1];
      if last.number == n then Remove(h[..|h| - 1], n) else Remove(h[..|h| - 1], n) + [last]
  }

  lemma {:induction false} RemoveMembers(h: seq<Packet>, n: nat)
    ensures forall p :: p in Remove(h, n) <==> p in h && p.number != n
  {
    if h != [] {
      var front, last := h[..|h| - 1], h[|h| - 1];
      assert h == front + [last];
      RemoveMembers(front, n);
    }
  }

  lemma {:induction false} RemoveIncreasing(h: seq<Packet>, n: nat)
    requires Increasing(h)
    ensures Increasing(Remove(h, n))
  {
    if h != [] {
      var front, last := h[..|h| - 1], h[|h| - 1];
      RemoveIncreasing(front, n);
      RemoveMembers(front, n);
      forall i | 0 <= i < |Remove(front, n)| ensures Remove(front, n)[i].number < last.number {
        assert Remove(front, n)[i] in front;
      }
    }
  }

  lemma {:induction false} RemoveAbsent(h: seq<Packet>, n: nat)
    requires n !in Numbers(h)
    ensures Remove(h, n) == h
  {
    if h != [] {
      var front, last := h[..|h| - 1], h[|h| - 1];
      assert h == front + [last];
      assert last in h;
      RemoveAbsent(front, n);
    }
  }

  /** Taking a packet out takes its bytes out, and no others. */
  lemma {:induction false} RemoveBytes(h: seq<Packet>, p: Packet)
    requires Increasing(h) && p in h
    ensures Bytes(Remove(h, p.number)) == Bytes(h) - p.length && |Remove(h, p.number)| == |h| - 1
  {
    var front, last := h[..|h| - 1], h[|h| - 1];
    assert h == front + [last];
    if last == p {
      assert forall q | q in front :: q.number < p.number;
      RemoveAbsent(front, p.number);
    } else {
      assert p in front;
      assert p.number < last.number;
      RemoveBytes(front, p);
      assert (Remove(front, p.number) + [last])[..|Remove(front, p.number)|] == Remove(front, p.number);
    }
  }

  lemma {:induction false} BytesSnoc(h: seq<Packet>, p: Packet)
    ensures Bytes(h + [p]) == Bytes(h) + p.length
  {
    assert (h + [p])[..|h|] == h;
  }

  lemma {:induction false} SameNumberSamePacket(h: seq<Packet>, p: Packet, q: Packet)
    requires Increasing(h) && p in h && q in h && p.number == q.number
    ensures p == q
  {
    var i :| 0 <= i < |h| && h[i] == p;
    var j :| 0 <= j < |h| && h[j] == q;
    assert i < j || j < i || i == j;
  }

  /** The packets with a given property, in the order of the list. */
  ghost function Select(h: seq<Packet>, keep: Packet -> bool): seq<Packet> {
    if h == [] then []
    else
      var last := h[|h| - 1];
      Select(h[..|h| - 1], keep) + if keep(last) then [last] else []
  }

  lemma {:induction false} SelectMembers(h: seq<Packet>, keep: Packet -> bool)
    ensures forall p :: p in Select(h, keep) <==> p in h && keep(p)
    ensures Increasing(h) ==> Increasing(Select(h, keep))
  {
    if h != [] {
      var front, last := h[..|h| - 1], h[|h| - 1];
      assert h == front + [last];
      SelectMembers(front, keep);
      if Increasing(h) {
        forall i | 0 <= i < |Select(front, keep)| ensures Select(front, keep)[i].number < last.number {
          assert Select(front, keep)[i] in front;
        }
      }
    }
  }

  /** The list `left` is what remains of h without the packets ps. */
  ghost predicate Remains(h: seq<Packet>, ps: seq<Packet>, left: seq<Packet>) {
    forall p :: p in left <==> p in h && p !in ps
  }

  lemma RemainsStep(h: seq<Packet>, ps: seq<Packet>, i: nat, left: seq<Packet>)
    requires Increasing(h) && Increasing(ps) && i < |ps| && ps[i] in h && Remains(h, ps[..i], left)
    ensures ps[i] in left && Remains(h, ps[..i + 1], Remove(left, ps[i].number))
  {
    assert ps[i] !in ps[..i];
    assert ps[..i + 1] == ps[..i] + [ps[i]];
    RemoveMembers(left, ps[i].number);
    RemoveExactly(h, ps[i]);
  }

  /** Takes packets off the list one by one, keeping count of the bytes. */
  method RemoveAll(h: seq<Packet>, bytes: nat, ps: seq<Packet>) returns (left: seq<Packet>, bytesLeft: nat)
    requires Increasing(h) && bytes == Bytes(h) && Increasing(ps) && forall p | p in ps :: p in h
    ensures Increasing(left) && bytesLeft == Bytes(left) && Remains(h, ps, left)
  {
    hide Increasing, Remove;
    left, bytesLeft := h, bytes;
    var i := 0;
    while i < |ps|
      invariant 0 <= i <= |ps| && Increasing(left) && bytesLeft == Bytes(left)
      invariant Remains(h, ps[..i], left)
    {
      RemainsStep(h, ps, i, left);
      RemoveBytes(left, ps[i]);
      RemoveIncreasing(left, ps[i].number);
      left, bytesLeft := Remove(left, ps[i].number), bytesLeft - ps[i].length;
      i := i + 1;
    }
    assert ps[..i] == ps;
  }

  lemma RemoveExactly(h: seq<Packet>, p: Packet)
    requires Increasing(h) && p in h
    ensures forall q | q in h :: q.number == p.number <==> q == p
  {
    forall q | q in h && q.number == p.number ensures q == p {
      SameNumberSamePacket(h, p, q);
    }
  }
}
