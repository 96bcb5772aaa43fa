/**
 From the writer of a stream to its reader, through frames that are lost, cut and sent again, repeated and reordered.
 */
module EndToEnd {
  import opened Common
  import opened Sequences
  import opened FrameSorter
  import opened StreamReader
  import opened StreamRuns
  import opened Descent
  import Resend = Retransmissions
  import Writer = StreamWriter

  /** Everything that arrives is a frame of the stream or comes from one. */
  ghost predicate AllFrom(events: seq<Event>, sent: seq<StreamFrame>) {
    forall i | 0 <= i < |events| && events[i].Arrive? :: ComesFrom(events[i].frame, sent)
  }

  /** The frame arrives, or all the pieces into which it was cut do. */
  ghost predicate ArrivesWhole(events: seq<Event>, g: StreamFrame, cuts: nat)
    decreases cuts
  {
    || (exists i | 0 <= i < |events| && events[i].Arrive? :: OnWire(events[i].frame, g))
    || (cuts > 0 && exists ps: seq<StreamFrame> | Resend.Cut(g, ps) :: forall p | p in ps ::
      ArrivesWhole(events, p, cuts - 1))
  }

  ghost predicate AllArrive(events: seq<Event>, sent: seq<StreamFrame>) {
    forall g | g in sent :: exists cuts :: ArrivesWhole(events, g, cuts)
  }

  /** The bytes in a frame are those of the stream, and byte x of the stream is in one of the frames. */
  lemma {:induction false} MadeAgrees(frames: seq<StreamFrame>, id: nat, bytes: seq<byte>, stream: seq<byte>,
    f: StreamFrame)
    requires Writer.Covers(frames, id, bytes) && bytes <= stream && f in frames
    ensures f.streamID == id && End(f) <= |bytes| && f.data == stream[f.offset..End(f)]
  {
    var n := |frames| - 1;
    if f != frames[n] {
      MadeAgrees(frames[..n], id, bytes[..frames[n].offset], stream, f);
    }
  }

  lemma {:induction false} MadeCovers(frames: seq<StreamFrame>, id: nat, bytes: seq<byte>, x: nat)
    requires Writer.Covers(frames, id, bytes) && x < |bytes|
    ensures exists f | f in frames :: f.offset <= x < End(f)
  {
    var n := |frames| - 1;
    if x < frames[n].offset {
      MadeCovers(frames[..n], id, bytes[..frames[n].offset], x);
    } else {
      assert frames[n] in frames;
    }
  }

  /** Frames do not overlap. */
  lemma {:induction false} MadeOnce(frames: seq<StreamFrame>, id: nat, bytes: seq<byte>, f: StreamFrame,
    g: StreamFrame, x: nat)
    requires Writer.Covers(frames, id, bytes) && f in frames && g in frames
    requires f.offset <= x < End(f) && g.offset <= x < End(g)
    ensures f == g
  {
    var n := |frames| - 1;
    var prefix := bytes[..frames[n].offset];
    if f != frames[n] && g != frames[n] {
      MadeOnce(frames[..n], id, prefix, f, g, x);
    } else if f != g {
      var other := if f == frames[n] then g else f;
      Writer.SentInside(frames[..n], id, prefix, other);
    }
  }

  /** A FIN without bytes is at the end of what was written. */
  ghost predicate FinAtEnd(s: Writer.Stream)
    reads s
  {
    forall f | f in s.sent && f.data == [] :: f.offset == |s.written|
  }

  /** The frame has bytes of the stream before the given offset, and has no bytes only if it is a FIN. */
  ghost predicate FromStream(f: StreamFrame, stream: seq<byte>, to: nat) {
    BytesAgree(f, stream) && End(f) <= to && (f.data != [] || f.fin)
  }

  /**
   Every frame has the bytes that were written at its offset, and unless bytes are written after a FIN, FINs are at the
   end.
   */
  lemma SentAgrees(s: Writer.Stream, f: StreamFrame)
    requires s.Valid() && f in s.sent
    ensures FromStream(f, s.written, s.writeOffset) && (!s.late ==> FinAtEnd(s))
      && (FinAtEnd(s) ==> Agrees(f, s.written))
  {
    MadeAgrees(s.sent, s.streamID, s.written[..s.writeOffset], s.written, f);
  }

  /** A frame with a FIN is at the end of what was written, unless bytes were written after a FIN. */
  lemma SentFin(s: Writer.Stream, f: StreamFrame)
    requires s.Valid() && !s.late && f in s.sent && f.fin
    ensures End(f) == |s.written|
  {
    assert Writer.FinPlace(f, s.late, |s.written|);
  }

  lemma {:induction false} DataPrefix(ps: seq<StreamFrame>, i: nat)
    requires i < |ps|
    ensures Resend.Data(ps[..i]) + ps[i].data <= Resend.Data(ps)
  {
    var n := |ps| - 1;
    if i < n {
      DataPrefix(ps[..n], i);
      assert ps[..n][..i] == ps[..i];
    }
  }

  /** A piece of a frame has the bytes of the frame at their place. */
  lemma PieceOfFrame(g: StreamFrame, ps: seq<StreamFrame>, p: StreamFrame)
    requires Resend.Cut(g, ps) && p in ps
    ensures g.offset <= p.offset && End(p) <= End(g) && p.data == g.data[p.offset - g.offset..End(p) - g.offset]
    ensures p.data == [] ==> p.fin == g.fin && g.data == [] && p.offset == g.offset
  {
    var n := |ps| - 1;
    var i :| 0 <= i <= n && p == ps[i];
    if i < n {
      assert ps[..n][..i] == ps[..i];
      DataPrefix(ps[..n], i);
    }
  }

  lemma PieceAgrees(g: StreamFrame, ps: seq<StreamFrame>, p: StreamFrame, stream: seq<byte>, to: nat)
    requires Resend.Cut(g, ps) && p in ps && FromStream(g, stream, to)
    ensures FromStream(p, stream, to) && (Agrees(g, stream) ==> Agrees(p, stream))
  {
    hide Resend.Cut;
    PieceOfFrame(g, ps, p);
    SliceOfSlice(stream, g.offset, End(g), p.offset - g.offset, End(p) - g.offset);
  }

  lemma {:induction false} DescendantAgrees(f: StreamFrame, g: StreamFrame, cuts: nat, stream: seq<byte>, to: nat)
    requires DescendsFrom(f, g, cuts) && FromStream(g, stream, to)
    ensures FromStream(f, stream, to) && (Agrees(g, stream) ==> Agrees(f, stream))
    decreases cuts
  {
    hide Resend.Cut;
    if !OnWire(f, g) {
      var ps, p :| Resend.Cut(g, ps) && p in ps && DescendsFrom(f, p, cuts - 1);
      PieceAgrees(g, ps, p, stream, to);
      DescendantAgrees(f, p, cuts - 1, stream, to);
    }
  }

  /** A piece has the FIN of its frame if and only if it has its end, or the frame has no bytes. */
  lemma PieceFin(g: StreamFrame, ps: seq<StreamFrame>, p: StreamFrame)
    requires Resend.Cut(g, ps) && p in ps
    ensures p.fin <==> g.fin && End(p) == End(g)
  {
    var n := |ps| - 1;
    var i :| 0 <= i <= n && p == ps[i];
    if i < n {
      assert ps[..n][i] == ps[i] && ps[..n][..i] == ps[..i];
      DataPrefix(ps[..n], i);
    }
  }

  lemma {:induction false} DescendantFin(f: StreamFrame, g: StreamFrame, cuts: nat)
    requires DescendsFrom(f, g, cuts)
    ensures g.offset <= f.offset && End(f) <= End(g) && (f.fin <==> g.fin && End(f) == End(g))
    decreases cuts
  {
    hide Resend.Cut;
    if !OnWire(f, g) {
      var ps, p :| Resend.Cut(g, ps) && p in ps && DescendsFrom(f, p, cuts - 1);
      PieceOfFrame(g, ps, p);
      PieceFin(g, ps, p);
      DescendantFin(f, p, cuts - 1);
    }
  }

  /** Every byte of a frame is in one of its pieces. */
  lemma {:induction false} DataCovers(ps: seq<StreamFrame>, d: nat)
    requires d < |Resend.Data(ps)|
    ensures exists i | 0 <= i < |ps| :: |Resend.Data(ps[..i])| <= d < |Resend.Data(ps[..i])| + |ps[i].data|
  {
    var n := |ps| - 1;
    if d < |Resend.Data(ps[..n])| {
      DataCovers(ps[..n], d);
      var i :| 0 <= i < n && |Resend.Data(ps[..n][..i])| <= d < |Resend.Data(ps[..n][..i])| + |ps[..n][i].data|;
      assert ps[..n][..i] == ps[..i];
    }
  }

  lemma PiecesCover(g: StreamFrame, ps: seq<StreamFrame>, x: nat)
    requires Resend.Cut(g, ps) && g.offset <= x < End(g)
    ensures exists p | p in ps :: p.offset <= x < End(p)
  {
    var n := |ps| - 1;
    if x < ps[n].offset {
      DataCovers(ps[..n], x - g.offset);
      var i :| 0 <= i < n && |Resend.Data(ps[..n][..i])|
        <= x - g.offset < |Resend.Data(ps[..n][..i])| + |ps[..n][i].data|;
      assert ps[i] in ps;
    } else {
      assert ps[n] in ps;
    }
  }

  lemma {:induction false} WholeArrived(events: seq<Event>, g: StreamFrame, cuts: nat, x: nat)
    requires ArrivesWhole(events, g, cuts) && g.offset <= x < End(g)
    ensures Arrived(events, x)
    decreases cuts
  {
    hide Resend.Cut;
    if !exists i | 0 <= i < |events| && events[i].Arrive? :: OnWire(events[i].frame, g) {
      var ps: seq<StreamFrame> :| Resend.Cut(g, ps) && forall p | p in ps :: ArrivesWhole(events, p, cuts - 1);
      PiecesCover(g, ps, x);
      var p :| p in ps && p.offset <= x < End(p);
      WholeArrived(events, p, cuts - 1, x);
    }
  }

  lemma EmptyPiece(g: StreamFrame, ps: seq<StreamFrame>)
    requires Resend.Cut(g, ps) && g.data == [] && g.fin
    ensures ps != [] && var last := ps[|ps| - 1];
      last in ps && last.data == [] && last.fin && last.offset == g.offset
  {
  }

  /** A FIN without bytes cannot be cut: it arrives as it is. */
  lemma {:induction false} EmptyArrived(events: seq<Event>, g: StreamFrame, cuts: nat)
    requires ArrivesWhole(events, g, cuts) && g.data == [] && g.fin
    ensures exists i | 0 <= i < |events| && events[i].Arrive? ::
      events[i].frame.fin && events[i].frame.data == [] && events[i].frame.offset == g.offset
    decreases cuts
  {
    hide Resend.Cut;
    if !exists i | 0 <= i < |events| && events[i].Arrive? :: OnWire(events[i].frame, g) {
      var ps: seq<StreamFrame> :| Resend.Cut(g, ps) && forall p | p in ps :: ArrivesWhole(events, p, cuts - 1);
      EmptyPiece(g, ps);
      EmptyArrived(events, ps[|ps| - 1], cuts - 1);
    }
  }

  /** The first time a byte arrives. */
  lemma {:induction false} FirstArrival(events: seq<Event>, x: nat)
    requires Arrived(events, x)
    ensures exists i | 0 <= i < |events| && events[i].Arrive? ::
      events[i].frame.offset <= x < End(events[i].frame) && !Arrived(events[..i], x)
  {
    var n := |events| - 1;
    if Arrived(events[..n], x) {
      FirstArrival(events[..n], x);
      var i :| 0 <= i < n && events[..n][i].Arrive? && events[..n][i].frame.offset <= x < End(events[..n][i].frame)
        && !Arrived(events[..n][..i], x);
      assert events[..n][..i] == events[..i] && events[..n][i] == events[i];
    } else {
      assert events == events[..n] + [events[n]];
      ArrivedSnoc(events[..n], events[n], x);
    }
  }

  lemma ArrivalAgrees(s: Writer.Stream, f: StreamFrame)
    requires s.Valid() && ComesFrom(f, s.sent)
    ensures FromStream(f, s.written, s.writeOffset) && (FinAtEnd(s) ==> Agrees(f, s.written))
  {
    hide DescendsFrom, Agrees, FromStream;
    var g, cuts :| g in s.sent && DescendsFrom(f, g, cuts);
    SentAgrees(s, g);
    DescendantAgrees(f, g, cuts, s.written, s.writeOffset);
  }

  /** When every frame has arrived, the first byte that has not is the first one that was not sent. */
  lemma NothingMissing(s: Writer.Stream, events: seq<Event>)
    requires s.Valid() && AllFrom(events, s.sent) && AllArrive(events, s.sent)
    ensures FirstMissing(events, s.writeOffset)
  {
    hide ArrivesWhole, ComesFrom, Agrees;
    forall x: nat | x < s.writeOffset ensures Arrived(events, x) {
      MadeCovers(s.sent, s.streamID, s.written[..s.writeOffset], x);
      var g :| g in s.sent && g.offset <= x < End(g);
      var cuts :| ArrivesWhole(events, g, cuts);
      WholeArrived(events, g, cuts, x);
    }
    forall i | 0 <= i < |events| && events[i].Arrive? ensures End(events[i].frame) <= s.writeOffset {
      ArrivalAgrees(s, events[i].frame);
    }
  }

  /** Unless bytes were written after a FIN, a FIN that arrives is at the end of what was written. */
  lemma FinArrivesAtEnd(s: Writer.Stream, f: StreamFrame)
    requires s.Valid() && !s.late && ComesFrom(f, s.sent) && f.fin
    ensures End(f) == |s.written|
  {
    var g, cuts :| g in s.sent && DescendsFrom(f, g, cuts);
    DescendantFin(f, g, cuts);
    SentFin(s, g);
  }

  /** The part of a frame that first brings the last byte of the stream brings the FIN. */
  lemma LastByteHasFin(s: Writer.Stream, last: StreamFrame, f: StreamFrame)
    requires s.Valid() && last in s.sent && last.fin && End(last) == |s.written| && last.data != []
    requires ComesFrom(f, s.sent) && f.offset <= |s.written| - 1 < End(f)
    ensures f.fin && End(f) == |s.written|
  {
    hide DescendsFrom;
    var g, cuts :| g in s.sent && DescendsFrom(f, g, cuts);
    DescendantFin(f, g, cuts);
    MadeOnce(s.sent, s.streamID, s.written[..s.writeOffset], g, last, |s.written| - 1);
  }

  /** When every frame of a finished stream has arrived, so has its end. */
  lemma EndHasArrived(s: Writer.Stream, events: seq<Event>)
    requires s.Valid() && s.finSent && !s.late && AllFrom(events, s.sent) && AllArrive(events, s.sent)
    ensures EndArrives(events, s.written) && s.writeOffset == |s.written|
  {
    hide ArrivesWhole, ComesFrom;
    s.LateIsEarlyFin();
    var last :| last in s.sent && last.fin && End(last) == |s.written|;
    var cuts :| ArrivesWhole(events, last, cuts);
    if last.data == [] {
      EmptyArrived(events, last, cuts);
      var i :| 0 <= i < |events| && events[i].Arrive? && events[i].frame.fin && events[i].frame.data == []
        && events[i].frame.offset == last.offset;
      assert NewEnd(events[..i], events[i].frame, s.written);
    } else {
      WholeArrived(events, last, cuts, |s.written| - 1);
      FirstArrival(events, |s.written| - 1);
      var i :| 0 <= i < |events| && events[i].Arrive? && !Arrived(events[..i], |s.written| - 1)
        && events[i].frame.offset <= |s.written| - 1 < End(events[i].frame);
      LastByteHasFin(s, last, events[i].frame);
      assert NewEnd(events[..i], events[i].frame, s.written);
    }
  }

  /** No FIN that arrives loses the end of its frame to bytes that arrived before. */
  ghost predicate NoneCut(events: seq<Event>) {
    forall i | 0 <= i < |events| && events[i].Arrive? && events[i].frame.fin :: NotCut(events[..i], events[i].frame)
  }

  lemma UncutIsClean(s: Writer.Stream, events: seq<Event>)
    requires s.Valid() && !s.late && AllFrom(events, s.sent) && NoneCut(events)
    ensures FinsClean(events, s.written)
  {
    hide ComesFrom, NotCut;
    forall i | 0 <= i < |events| && events[i].Arrive? && events[i].frame.fin
      ensures FinClean(events[..i], events[i].frame, s.written)
    {
      FinArrivesAtEnd(s, events[i].frame);
    }
  }

  /**
   Whatever happens to the frames of a stream on their way, the reader gets a prefix of what was written. When every
   frame has arrived, whole or in pieces, a reader that is not stopped by a FIN gets everything that was sent, as far as
   it has room, unless a FIN without bytes was sent before the end. If no bytes were written after a FIN was sent, and
   no FIN arrives in a frame whose end is cut off, a reader that is stopped by a FIN has got everything that was
   written; and with room to spare it is stopped once every frame has arrived, the FIN among them.
   */
  method Transfer(ghost s: Writer.Stream, events: seq<Event>, n: nat)
    returns (out: seq<byte>, early: nat, status: ReadStatus, ok: bool)
    requires s.Valid() && |s.written| < MAX_BYTE_COUNT && AllFrom(events, s.sent)
    ensures out <= s.written
    ensures ok && FinAtEnd(s) && status != Eof && AllArrive(events, s.sent) ==>
      out == s.written[..Min(early + n, s.writeOffset)]
    ensures ok && FinAtEnd(s) && status == Eof && FinsClean(events, s.written) ==> out == s.written
    ensures !s.late && NoneCut(events) ==> FinAtEnd(s) && FinsClean(events, s.written)
    ensures ok && !s.late && s.finSent && AllArrive(events, s.sent) && |s.written| < early + n ==> status == Eof
    ensures early <= |out| && early <= Rooms(events)
    ensures ok && FinAtEnd(s) && FinsClean(events, s.written) ==> Progress(events) <= early
    ensures !ok ==> exists k, g | 0 <= k <= |events| :: Scattered(g, events[..k])
  {
    hide ComesFrom, Agrees, AllArrive, FinsClean, FirstMissing, Refuses, BytesAgree, NoneCut, EndArrives, Rooms,
      Progress;
    forall i | 0 <= i < |events| && events[i].Arrive?
      ensures FromStream(events[i].frame, s.written, s.writeOffset)
        && (FinAtEnd(s) ==> Agrees(events[i].frame, s.written))
    {
      ArrivalAgrees(s, events[i].frame);
    }
    if !s.late { FinsOfStream(s, events); }
    out, early, status, ok := Deliver(events, n, s.written);
    if !ok {
      ghost var k :| 0 <= k <= |events| && Refuses(events[..k]);
      RefusesScattered(events, k);
    } else if FinAtEnd(s) && status != Eof && AllArrive(events, s.sent) {
      ghost var m: nat :| FirstMissing(events, m) && m <= |s.written| && out == s.written[..Min(early + n, m)];
      NothingMissing(s, events);
      FirstMissingUnique(events, m, s.writeOffset);
    }
  }

  lemma FinsOfStream(s: Writer.Stream, events: seq<Event>)
    requires s.Valid() && !s.late && AllFrom(events, s.sent)
    ensures FinAtEnd(s) && (NoneCut(events) ==> FinsClean(events, s.written))
    ensures s.finSent && AllArrive(events, s.sent) ==>
      EndArrives(events, s.written) && FirstMissing(events, |s.written|)
  {
    hide NoneCut, AllArrive, AllFrom, EndArrives, FirstMissing, FinsClean, Writer.Stream.Valid;
    NoLateFins(s);
    if NoneCut(events) { UncutIsClean(s, events); }
    if s.finSent && AllArrive(events, s.sent) {
      EndHasArrived(s, events);
      NothingMissing(s, events);
    }
  }

  lemma NoLateFins(s: Writer.Stream)
    requires s.Valid() && !s.late
    ensures FinAtEnd(s)
  {
    forall f | f in s.sent && f.data == [] ensures f.offset == |s.written| { SentFin(s, f); }
  }

  lemma RefusesScattered(events: seq<Event>, k: nat)
    requires k <= |events| && Refuses(events[..k])
    requires forall i | 0 <= i < |events| && events[i].Arrive? :: events[i].frame.data != [] || events[i].frame.fin
    ensures exists g :: Scattered(g, events[..k])
  {
    assert events[..k][k - 1] == events[k - 1];
  }
}
