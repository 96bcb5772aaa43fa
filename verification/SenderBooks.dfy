/** The books of the sender: what it must know about every packet it has ever sent. */
module SenderBooks {
  import opened Common
  import opened SentPackets

  /** What has become of a packet that was sent. */
  datatype Fate = Outstanding | Queued | Dequeued | Acked

  type Fates = map<nat, Fate>

  /**
   No packet comes back into flight, a queued one can only be dequeued, and what is acknowledged or dequeued stays so.
   */
  ghost predicate Moves(a: Fate, b: Fate) {
    a == b || a == Outstanding || (a == Queued && b == Dequeued)
  }

  ghost predicate AllMove(fates: Fates, fates': Fates) {
    forall n | n in fates :: n in fates' && Moves(fates[n], fates'[n])
  }

  ghost predicate DistinctNumbers(q: seq<Packet>) {
    forall i, j | 0 <= i < j < |q| :: q[i].number != q[j].number
  }

  /** The list holds exactly the packets with the given fate. */
  ghost predicate Lists(q: seq<Packet>, fates: Fates, fate: Fate) {
    && (forall p | p in q :: p.number in fates && fates[p.number] == fate)
    && (forall n | n in fates && fates[n] == fate :: n in Numbers(q))
  }

  /** Every packet sent has one fate, and the history, the queue and the byte count say what it is. */
  ghost predicate Balanced(h: seq<Packet>, queue: seq<Packet>, bytes: nat, lastSent: nat, fates: Fates) {
    && Increasing(h) && bytes == Bytes(h) && DistinctNumbers(queue)
    && Lists(h, fates, Outstanding) && Lists(queue, fates, Queued)
    && (forall n | n in fates :: 1 <= n <= lastSent) && (lastSent > 0 ==> lastSent in fates)
  }

  /** The packets with the given numbers get a new fate. */
  ghost function Refate(fates: Fates, ns: set<nat>, fate: Fate): Fates {
    map n | n in fates :: if n in ns then fate else fates[n]
  }

  lemma SendBalanced(h: seq<Packet>, queue: seq<Packet>, bytes: nat, lastSent: nat, fates: Fates, p: Packet)
    requires Balanced(h, queue, bytes, lastSent, fates) && lastSent < p.number
    ensures Balanced(h + [p], queue, bytes + p.length, p.number, fates[p.number := Outstanding])
    ensures AllMove(fates, fates[p.number := Outstanding])
  {
    hide Increasing, Bytes, DistinctNumbers, Lists;
    BytesSnoc(h, p);
    SendLists(h, queue, lastSent, fates, p);
  }

  lemma SendLists(h: seq<Packet>, queue: seq<Packet>, lastSent: nat, fates: Fates, p: Packet)
    requires Increasing(h) && Lists(h, fates, Outstanding) && Lists(queue, fates, Queued)
    requires lastSent < p.number && forall n | n in fates :: n <= lastSent
    ensures Increasing(h + [p])
    ensures Lists(h + [p], fates[p.number := Outstanding], Outstanding)
      && Lists(queue, fates[p.number := Outstanding], Queued)
  {
    var fates' := fates[p.number := Outstanding];
    forall i | 0 <= i < |h| ensures h[i].number < p.number { assert h[i] in h; }
    forall n | n in fates' && fates'[n] == Outstanding ensures n in Numbers(h + [p]) {
      if n == p.number { assert p in h + [p]; } else { var q :| q in h && q.number == n; assert q in h + [p]; }
    }
  }

  /** Packets leave the list for another fate. */
  lemma RemoveLists(h: seq<Packet>, ps: seq<Packet>, left: seq<Packet>, fates: Fates, fate: Fate)
    requires Increasing(h) && Lists(h, fates, Outstanding) && Remains(h, ps, left) && fate != Outstanding
    requires forall p | p in ps :: p in h
    ensures Lists(left, Refate(fates, Numbers(ps), fate), Outstanding)
  {
    var fates' := Refate(fates, Numbers(ps), fate);
    forall p | p in left ensures p.number in fates' && fates'[p.number] == Outstanding {
      forall q | q in ps ensures q.number != p.number {
        if q.number == p.number { SameNumberSamePacket(h, p, q); }
      }
    }
    forall n | n in fates' && fates'[n] == Outstanding ensures n in Numbers(left) {
      var p :| p in h && p.number == n;
      assert p in left;
    }
  }

  lemma AckBalanced(h: seq<Packet>, queue: seq<Packet>, bytes: nat, lastSent: nat, fates: Fates, ps: seq<Packet>,
    left: seq<Packet>, bytesLeft: nat)
    requires Balanced(h, queue, bytes, lastSent, fates) && forall p | p in ps :: p in h
    requires Increasing(left) && bytesLeft == Bytes(left) && Remains(h, ps, left)
    ensures Balanced(left, queue, bytesLeft, lastSent, Refate(fates, Numbers(ps), Acked))
    ensures AllMove(fates, Refate(fates, Numbers(ps), Acked))
  {
    hide Remains, Increasing, Bytes, DistinctNumbers;
    RemoveLists(h, ps, left, fates, Acked);
    assert Lists(queue, Refate(fates, Numbers(ps), Acked), Queued);
  }

  lemma QueueBalanced(h: seq<Packet>, queue: seq<Packet>, bytes: nat, lastSent: nat, fates: Fates, ps: seq<Packet>,
    left: seq<Packet>, bytesLeft: nat)
    requires Balanced(h, queue, bytes, lastSent, fates) && Increasing(ps) && forall p | p in ps :: p in h
    requires Increasing(left) && bytesLeft == Bytes(left) && Remains(h, ps, left)
    ensures Balanced(left, queue + ps, bytesLeft, lastSent, Refate(fates, Numbers(ps), Queued))
    ensures AllMove(fates, Refate(fates, Numbers(ps), Queued))
  {
    hide Remains, Bytes;
    RemoveLists(h, ps, left, fates, Queued);
    QueueLists(h, queue, fates, ps);
  }

  lemma QueueLists(h: seq<Packet>, queue: seq<Packet>, fates: Fates, ps: seq<Packet>)
    requires Lists(h, fates, Outstanding) && Lists(queue, fates, Queued) && DistinctNumbers(queue) && Increasing(ps)
    requires forall p | p in ps :: p in h
    ensures Lists(queue + ps, Refate(fates, Numbers(ps), Queued), Queued) && DistinctNumbers(queue + ps)
  {
    var fates' := Refate(fates, Numbers(ps), Queued);
    forall n | n in fates' && fates'[n] == Queued ensures n in Numbers(queue + ps) {
      if n in Numbers(ps) {
        var p :| p in ps && p.number == n;
        assert p in queue + ps;
      } else {
        var p :| p in queue && p.number == n;
        assert p in queue + ps;
      }
    }
    forall i, j | 0 <= i < j < |queue + ps| ensures (queue + ps)[i].number != (queue + ps)[j].number {
      if i < |queue| <= j {
        assert queue[i] in queue && ps[j - |queue|] in ps;
      }
    }
  }

  lemma DequeueBalanced(h: seq<Packet>, queue: seq<Packet>, bytes: nat, lastSent: nat, fates: Fates)
    requires Balanced(h, queue, bytes, lastSent, fates) && queue != []
    ensures var n := |queue| - 1;
      && Balanced(h, queue[..n], bytes, lastSent, Refate(fates, {queue[n].number}, Dequeued))
      && AllMove(fates, Refate(fates, {queue[n].number}, Dequeued))
  {
    hide Increasing, Bytes;
    var n := |queue| - 1;
    var p := queue[n];
    var fates' := Refate(fates, {p.number}, Dequeued);
    assert p in queue;
    assert Lists(queue[..n], fates', Queued) by {
      forall q | q in queue[..n] ensures q.number != p.number && q in queue {
        var i :| 0 <= i < n && queue[i] == q;
      }
      forall k | k in fates' && fates'[k] == Queued ensures k in Numbers(queue[..n]) {
        var q :| q in queue && q.number == k;
        var i :| 0 <= i < |queue| && queue[i] == q;
        assert queue[..n][i] == q;
      }
    }
    assert Lists(h, fates', Outstanding);
  }
}
