/** How STREAM frames on the wire come from the frames of a stream: cut into pieces, any number of times. */
module Descent {
  import opened Common
  import opened Retransmissions

  /** The frame as the other side gets it: the last frame of a packet is written without the length of its data. */
  ghost predicate OnWire(f: StreamFrame, g: StreamFrame) {
    f == g.(dataLenPresent := f.dataLenPresent)
  }

  /** The frame, or what is left of it after it was cut at most so many times to be sent again. */
  ghost predicate DescendsFrom(f: StreamFrame, g: StreamFrame, cuts: nat)
    decreases cuts
  {
    OnWire(f, g) || (cuts > 0 && exists ps, p | Cut(g, ps) && p in ps :: DescendsFrom(f, p, cuts - 1))
  }

  ghost predicate ComesFrom(f: StreamFrame, sent: seq<StreamFrame>) {
    exists g, cuts | g in sent :: DescendsFrom(f, g, cuts)
  }

  ghost predicate AllComeFrom(fs: seq<StreamFrame>, sent: seq<StreamFrame>) {
    forall f | f in fs :: ComesFrom(f, sent)
  }

  lemma ComesFromItself(f: StreamFrame, sent: seq<StreamFrame>)
    requires f in sent
    ensures ComesFrom(f, sent)
  {
    assert DescendsFrom(f, f, 0);
  }

  lemma {:induction false} DescendsInMoreCuts(f: StreamFrame, g: StreamFrame, cuts: nat, more: nat)
    requires DescendsFrom(f, g, cuts) && cuts <= more
    ensures DescendsFrom(f, g, more)
    decreases cuts
  {
    hide Cut;
    if !OnWire(f, g) {
      var ps, p :| Cut(g, ps) && p in ps && DescendsFrom(f, p, cuts - 1);
      DescendsInMoreCuts(f, p, cuts - 1, more - 1);
    }
  }

  /** Pieces of a frame are pieces of it without the length of its data. */
  lemma {:induction false} DescendsOnWire(f: StreamFrame, g: StreamFrame, h: StreamFrame, cuts: nat)
    requires DescendsFrom(f, g, cuts) && OnWire(g, h)
    ensures DescendsFrom(f, h, cuts)
  {
    if !OnWire(f, g) {
      var ps, p :| Cut(g, ps) && p in ps && DescendsFrom(f, p, cuts - 1);
      assert Cut(h, ps);
    }
  }

  /** What descends from a descendant is a descendant. */
  lemma {:induction false} DescendsFurther(f: StreamFrame, g: StreamFrame, h: StreamFrame, cuts: nat, more: nat)
    requires DescendsFrom(f, g, cuts) && DescendsFrom(g, h, more)
    ensures DescendsFrom(f, h, cuts + more)
    decreases more
  {
    hide Cut;
    if OnWire(g, h) {
      DescendsOnWire(f, g, h, cuts);
      DescendsInMoreCuts(f, h, cuts, cuts + more);
    } else {
      var ps, p :| Cut(h, ps) && p in ps && DescendsFrom(g, p, more - 1);
      DescendsFurther(f, g, p, cuts, more - 1);
    }
  }

  lemma ComesFurther(f: StreamFrame, g: StreamFrame, cuts: nat, sent: seq<StreamFrame>)
    requires DescendsFrom(f, g, cuts) && ComesFrom(g, sent)
    ensures ComesFrom(f, sent)
  {
    hide DescendsFrom;
    var h, more :| h in sent && DescendsFrom(g, h, more);
    DescendsFurther(f, g, h, cuts, more);
  }

  lemma ComesFromMore(f: StreamFrame, sent: seq<StreamFrame>, sent': seq<StreamFrame>)
    requires ComesFrom(f, sent) && forall g | g in sent :: g in sent'
    ensures ComesFrom(f, sent')
  {
    hide DescendsFrom;
  }

  lemma {:induction false} DescendsInStream(f: StreamFrame, g: StreamFrame, cuts: nat)
    requires DescendsFrom(f, g, cuts)
    ensures f.streamID == g.streamID
    decreases cuts
  {
    if !OnWire(f, g) {
      var ps, p :| Cut(g, ps) && p in ps && DescendsFrom(f, p, cuts - 1);
      PieceInStream(g, ps, p);
      DescendsInStream(f, p, cuts - 1);
    }
  }

  lemma PieceInStream(g: StreamFrame, ps: seq<StreamFrame>, p: StreamFrame)
    requires Cut(g, ps) && p in ps
    ensures p.streamID == g.streamID
  {
    var n := |ps| - 1;
    var i :| 0 <= i <= n && p == ps[i];
    if i < n { assert ps[..n][i] == ps[i]; }
  }

  /** A piece that has left the retransmission queue is one of the pieces of a frame that was put there. */
  lemma LeftDescends(queued: seq<StreamFrame>, groups: seq<seq<StreamFrame>>, queue: seq<StreamFrame>, f: StreamFrame)
    requires QueueOk(queued, groups, queue) && f in Flatten(groups)
    ensures exists g | g in queued :: DescendsFrom(f, g, 1)
  {
    var i := GroupOf(groups, f);
    var g := queued[i];
    if i < |queued| - |queue| {
      PieceDescends(f, g, groups[i]);
    } else {
      var last := queue[i - |queued| + |queue|].(dataLenPresent := true);
      var ps := groups[i] + [last];
      assert ps[..|ps| - 1] == groups[i];
      assert Cut(g, ps);
      assert f in ps;
      PieceDescends(f, g, ps);
    }
    assert g in queued;
  }

  lemma PieceDescends(f: StreamFrame, g: StreamFrame, ps: seq<StreamFrame>)
    requires Cut(g, ps) && f in ps
    ensures DescendsFrom(f, g, 1)
  {
    assert DescendsFrom(f, f, 0);
  }

  lemma {:induction false} GroupOf(groups: seq<seq<StreamFrame>>, f: StreamFrame) returns (i: nat)
    requires f in Flatten(groups)
    ensures i < |groups| && f in groups[i]
  {
    var n := |groups| - 1;
    if f in groups[n] {
      i := n;
    } else {
      i := GroupOf(groups[..n], f);
    }
  }
}
