/**
 The receiving half of a stream (stream.go): frames arrive in any order and are read back in order.

 Read looks at the head of the queue in one critical section, copies bytes out of it, and pops it in a second one;
 frames may arrive in between. The three steps are separate methods, and the frame between the two critical
 sections is kept in the field `held`.
 */
module StreamReader {
  import opened Common
  import opened Sequences
  import opened ByteIntervals
  import opened FrameSorter

  /** The queue tiles what has been received with bytes of the stream. */
  ghost predicate Ready(q: Queue, from: nat, g: seq<ByteInterval>, stream: seq<byte>) {
    GapsOk(g) && Sound(q, g) && from <= g[0].start && Tiled(q, from, g) && Genuine(q, stream)
  }

  /** Every queued FIN is at the end of the stream. */
  ghost predicate FinsAtEnd(q: Queue, stream: seq<byte>) {
    forall o | o in q && q[o].fin :: End(q[o]) == |stream|
  }

  // ---------- what arriving frames do to the queue ----------

  lemma {:induction false} OnChainInStream(q: Queue, from: nat, to: nat, o: nat, stream: seq<byte>)
    requires Genuine(q, stream) && Sound(q, []) && Chain(q, from, to) && OnChain(q, from, to, o)
    ensures o < |stream|
    decreases Max(to - from, 0)
  {
    if o != from { OnChainInStream(q, from + |q[from].data|, to, o, stream); }
  }

  lemma {:induction false} LiveInStream(q: Queue, from: nat, g: seq<ByteInterval>, o: nat, stream: seq<byte>)
    requires Genuine(q, stream) && Sound(q, []) && Tiled(q, from, g) && Live(q, from, g, o)
    ensures o < |stream|
    decreases |g|
  {
    if OnChain(q, from, g[0].start, o) {
      OnChainInStream(q, from, g[0].start, o, stream);
    } else {
      LiveInStream(q, g[0].end, g[1..], o, stream);
    }
  }

  lemma PieceAgrees(p: StreamFrame, f: StreamFrame, stream: seq<byte>)
    requires Agrees(f, stream) && IsPiece(p, f) && p.data != []
    ensures Agrees(p, stream)
  {
    SliceOfSlice(stream, f.offset, End(f), p.offset - f.offset, End(p) - f.offset);
  }

  lemma FinArrives(q: Queue, from: nat, g: seq<ByteInterval>, f: StreamFrame, stream: seq<byte>)
    requires Ready(q, from, g, stream) && Agrees(f, stream) && f.data == []
    ensures Tiled(q[f.offset := f], from, g)
  {
    if Live(q, from, g, f.offset) { LiveInStream(q, from, g, f.offset, stream); }
    EmptyFrameKeepsTiles(q, from, g, f);
  }

  lemma DataArrives(q: Queue, q': Queue, g: seq<ByteInterval>, f: StreamFrame, stream: seq<byte>)
    requires Genuine(q, stream) && Agrees(f, stream) && GainsMissingPart(g, q, q', f)
    ensures Genuine(q', stream)
  {
    var s :| s in q' && IsMissingPart(g, f, s, q'[s]) && forall o | o in q' && o != s :: o in q && q'[o] == q[o];
    PieceAgrees(q'[s], f, stream);
  }

  /** Frames of the stream, in whatever order and however they overlap, keep the queue ready to be read. */
  lemma ArrivalKeepsReady(from: nat, g: seq<ByteInterval>, q: Queue, f: StreamFrame, r: PushResult,
                          g': seq<ByteInterval>, q': Queue, stream: seq<byte>)
    requires Ready(q, from, g, stream) && Agrees(f, stream)
    requires Pushed(from, g, q, f, r, g', q') && r in {Stored, Duplicate}
    ensures Ready(q', from, g', stream)
  {
    if r == Stored {
      if f.data == [] {
        FinArrives(q, from, g, f, stream);
      } else {
        DataArrives(q, q', g, f, stream);
      }
    }
  }

  /**
   A frame with a FIN keeps the FIN when its end is cut off. So the FINs stay at the end of the stream exactly
   when the last byte of a frame with a FIN had not been received before.
   */
  lemma ArrivalKeepsFins(q: Queue, q': Queue, g: seq<ByteInterval>, f: StreamFrame, stream: seq<byte>)
    requires FinsAtEnd(q, stream) && (f.fin ==> End(f) == |stream|)
    requires if f.data == [] then q' == q[f.offset := f] else GainsMissingPart(g, q, q', f)
    ensures FinsAtEnd(q', stream) <==> (f.fin && f.data != [] ==> Covers(g, End(f) - 1))
  {
    if f.data != [] {
      var s :| s in q' && IsMissingPart(g, f, s, q'[s]) && forall o | o in q' && o != s :: o in q && q'[o] == q[o];
      MissingPartEnd(g, f, s, q'[s]);
    }
  }

  // ---------- the end of the stream ----------

  /** The end of the stream is queued at offset o, and no frame before it reaches past o. */
  ghost predicate EndsAt(q: Queue, from: nat, o: nat, stream: seq<byte>) {
    && from <= o && o in q && q[o].fin && End(q[o]) == |stream|
    && forall p | p in q && from <= p < o :: End(q[p]) <= o
  }

  /** A reader that is not held up by a gap gets to the end of the stream. */
  ghost predicate Ends(q: Queue, from: nat, stream: seq<byte>) {
    exists o :: EndsAt(q, from, o, stream)
  }

  /** A FIN at the end of the stream, without bytes or with a last byte that is new. */
  ghost predicate Announces(g: seq<ByteInterval>, f: StreamFrame, stream: seq<byte>) {
    f.fin && End(f) == |stream| && (f.data == [] || Covers(g, End(f) - 1))
  }

  lemma FinEnds(q: Queue, from: nat, f: StreamFrame, stream: seq<byte>)
    requires Genuine(q, stream) && Agrees(f, stream) && f.data == [] && from <= |stream|
    ensures Ends(q[f.offset := f], from, stream)
  {
    assert EndsAt(q[f.offset := f], from, |stream|, stream);
  }

  lemma DataKeepsEnd(q: Queue, q': Queue, from: nat, g: seq<ByteInterval>, f: StreamFrame, stream: seq<byte>)
    requires Ready(q, from, g, stream) && Agrees(f, stream) && GainsMissingPart(g, q, q', f) && LaterKept(q, q', f)
    requires Ends(q, from, stream)
    ensures Ends(q', from, stream)
  {
    hide Ready, Agrees, Tiled, Genuine;
    var s :| s in q' && IsMissingPart(g, f, s, q'[s]) && forall o | o in q' && o != s :: o in q && q'[o] == q[o];
    var o :| EndsAt(q, from, o, stream);
    LastMissing(q, g, from, f, o, End(q'[s]) - 1, stream);
    assert EndsAt(q', from, o, stream);
  }

  /** A missing byte of the stream is before the frame at its end. */
  lemma LastMissing(q: Queue, g: seq<ByteInterval>, from: nat, f: StreamFrame, o: nat, x: nat, stream: seq<byte>)
    requires Ready(q, from, g, stream) && EndsAt(q, from, o, stream) && Agrees(f, stream)
    requires f.offset <= x < End(f) && Covers(g, x)
    ensures x < o && End(q[o]) >= End(f)
  {
  }

  lemma DataEnds(q: Queue, q': Queue, from: nat, g: seq<ByteInterval>, f: StreamFrame, stream: seq<byte>)
    requires Ready(q, from, g, stream) && GainsMissingPart(g, q, q', f) && f.data != []
    requires Announces(g, f, stream)
    ensures Ends(q', from, stream)
  {
    hide Tiled, Genuine;
    var s :| s in q' && IsMissingPart(g, f, s, q'[s]) && forall o | o in q' && o != s :: o in q && q'[o] == q[o];
    MissingPartEnd(g, f, s, q'[s]);
    forall p | p in q' && from <= p < s ensures End(q'[p]) <= s { EndsBefore(g, q, p, s); }
    assert EndsAt(q', from, s, stream);
  }

  /** Once the end of the stream is queued it stays queued, and a FIN with something new at the end queues it. */
  lemma ArrivalKeepsEnd(from: nat, g: seq<ByteInterval>, q: Queue, f: StreamFrame, r: PushResult,
                        g': seq<ByteInterval>, q': Queue, stream: seq<byte>)
    requires Ready(q, from, g, stream) && Agrees(f, stream)
    requires Pushed(from, g, q, f, r, g', q') && r in {Stored, Duplicate}
    requires from <= |stream| && (Ends(q, from, stream) || Announces(g, f, stream))
    ensures Ends(q', from, stream)
  {
    hide Ends, Agrees, Genuine, GainsMissingPart, LaterKept;
    if r == Stored {
      if f.data == [] {
        FinEnds(q, from, f, stream);
      } else if Announces(g, f, stream) {
        DataEnds(q, q', from, g, f, stream);
      } else {
        DataKeepsEnd(q, q', from, g, f, stream);
      }
    }
  }

  /** Without a gap before the end of the stream there is always a frame to read, until the end has been read. */
  lemma HeadToEnd(q: Queue, from: nat, g: seq<ByteInterval>, stream: seq<byte>)
    requires Ready(q, from, g, stream) && Ends(q, from, stream) && g[0].start == |stream|
    ensures from in q
  {
    var o :| EndsAt(q, from, o, stream);
  }

  lemma PopKeepsEnd(q: Queue, from: nat, stream: seq<byte>)
    requires Ends(q, from, stream) && from in q && q[from].offset == from && !q[from].fin
    ensures Ends(q - {from}, from + |q[from].data|, stream)
  {
    var o :| EndsAt(q, from, o, stream);
    assert EndsAt(q - {from}, from + |q[from].data|, o, stream);
  }

  // ---------- reading ----------

  /**
   Where the reader is: everything before `from` is read and popped, and if the reader is inside a frame, or holds one,
   that frame is the head of the queue.
   */
  ghost predicate InWindow(q: Queue, from: nat, readOffset: nat, held: Option<StreamFrame>) {
    && from <= readOffset
    && match held
       case None => readOffset == from || (from in q && readOffset - from < |q[from].data|)
       case Some(f) =>
         && from in q && q[from].offset == f.offset && q[from].data == f.data && q[from].fin == f.fin
         && readOffset - from <= |f.data|
  }

  /** Arriving frames never touch the frame that is being read. */
  lemma ArrivalKeepsWindow(from: nat, g: seq<ByteInterval>, q: Queue, f: StreamFrame, r: PushResult,
                           g': seq<ByteInterval>, q': Queue, stream: seq<byte>, readOffset: nat,
                             held: Option<StreamFrame>)
    requires Ready(q, from, g, stream) && Agrees(f, stream) && InWindow(q, from, readOffset, held)
    requires Pushed(from, g, q, f, r, g', q') && r in {Stored, Duplicate}
    ensures InWindow(q', from, readOffset, held)
  {
    if r == Stored && from in q {
      if q[from].data == [] {
        EndReached(from, g, q, f, stream);
      } else {
        HeadBeforeGap(from, g, q);
      }
    }
  }

  lemma HeadBeforeGap(from: nat, g: seq<ByteInterval>, q: Queue)
    requires GapsOk(g) && Sound(q, g) && from <= g[0].start && from in q && q[from].data != []
    ensures from < g[0].start
  {
    assert Covers(g, g[0].start) by { assert g[0].start <= g[0].start < g[0].end; }
  }

  /** A queued FIN at the read position means that the whole stream has arrived. */
  lemma EndReached(from: nat, g: seq<ByteInterval>, q: Queue, f: StreamFrame, stream: seq<byte>)
    requires Ready(q, from, g, stream) && Agrees(f, stream) && from in q && q[from].data == []
    ensures from == |stream| && (f.data == [] || AllReceived(g, f))
  {
    assert forall x: nat | x < g[0].start :: !Covers(g, x);
  }

  lemma WindowBeforeGap(q: Queue, from: nat, g: seq<ByteInterval>, readOffset: nat, held: Option<StreamFrame>)
    requires GapsOk(g) && Sound(q, g) && from <= g[0].start && InWindow(q, from, readOffset, held)
    ensures readOffset <= g[0].start
  {
    if from in q { PopKeepsTiles(q, from, g); }
  }

  // ---------- what holds whatever FINs arrive ----------

  /** The queue holds bytes of the stream at their places; an empty frame without FIN lies where nothing is missing. */
  ghost predicate Safe(q: Queue, from: nat, g: seq<ByteInterval>, stream: seq<byte>) {
    && GapsOk(g) && Sound(q, g) && from <= g[0].start
    && forall o | o in q :: BytesAgree(q[o], stream) && (q[o].data != [] || q[o].fin || !Covers(g, o))
  }

  /** What an arrival does to the queue, whatever is queued. */
  lemma ArrivalParts(from: nat, g: seq<ByteInterval>, q: Queue, f: StreamFrame, r: PushResult, g': seq<ByteInterval>,
    q': Queue)
    requires g != [] && Pushed(from, g, q, f, r, g', q') && r in {Stored, Duplicate}
    ensures g' == Received(g, f) && GapsOk(g') && Sound(q', g') && from <= g'[0].start
    ensures r == Duplicate ==> q' == q
    ensures r == Stored ==>
      if f.data == [] then f.fin && q' == q[f.offset := f] else FrontKept(q, q', g) && OnlyGainsPiece(g, q, q', f)
  {
  }

  lemma FewerGaps(g: seq<ByteInterval>, f: StreamFrame)
    ensures forall x: nat | Covers(Received(g, f), x) :: Covers(g, x)
  {
    forall x: nat | Covers(Received(g, f), x) ensures Covers(g, x) {
      if f.data != [] { SubtractCovers(g, f.offset, End(f), x); }
    }
  }

  lemma AnyPieceAgrees(p: StreamFrame, f: StreamFrame, stream: seq<byte>)
    requires BytesAgree(f, stream) && IsPiece(p, f) && p.offset <= End(p)
    ensures BytesAgree(p, stream)
  {
    SliceOfSlice(stream, f.offset, End(f), p.offset - f.offset, End(p) - f.offset);
  }

  lemma ArrivalKeepsSafe(from: nat, g: seq<ByteInterval>, q: Queue, f: StreamFrame, r: PushResult,
                         g': seq<ByteInterval>, q': Queue, stream: seq<byte>)
    requires Safe(q, from, g, stream) && BytesAgree(f, stream)
    requires Pushed(from, g, q, f, r, g', q') && r in {Stored, Duplicate}
    ensures Safe(q', from, g', stream)
  {
    hide Pushed, GapsOk, Sound, BytesAgree, IsPiece, Received, Covers, FrontKept;
    SafeParts(q, from, g, stream);
    ArrivalParts(from, g, q, f, r, g', q');
    FewerGaps(g, f);
    forall o | o in q' ensures BytesAgree(q'[o], stream) && (q'[o].data != [] || q'[o].fin || !Covers(g', o)) {
      if f.data != [] && !(o in q && q'[o] == q[o]) { AnyPieceAgrees(q'[o], f, stream); }
    }
  }

  /** The frame that is held is the head of the queue, or was before a FIN took its place, or is a FIN without bytes. */
  ghost predicate Holds(q: Queue, from: nat, g: seq<ByteInterval>, f: StreamFrame)
    requires g != []
  {
    f.offset == from && ((f.fin && f.data == []) || (from < g[0].start && from in q && |q[from].data| <= |f.data|))
  }

  lemma ArrivalKeepsHold(from: nat, g: seq<ByteInterval>, q: Queue, f: StreamFrame, r: PushResult,
                         g': seq<ByteInterval>, q': Queue, held: StreamFrame)
    requires GapsOk(g) && from <= g[0].start && Holds(q, from, g, held)
    requires Pushed(from, g, q, f, r, g', q') && r in {Stored, Duplicate}
    ensures Holds(q', from, g', held)
  {
    hide Pushed, Sound, Received;
    ArrivalParts(from, g, q, f, r, g', q');
    FewerGaps(g, f);
    assert Covers(g', g'[0].start) by { assert g'[0].start <= g'[0].start < g'[0].end; }
    assert g[0].start <= g'[0].start;
  }

  lemma HeadIsHeld(q: Queue, from: nat, g: seq<ByteInterval>, stream: seq<byte>)
    requires Safe(q, from, g, stream) && from in q
    ensures Holds(q, from, g, q[from]) && End(q[from]) <= g[0].start
  {
    assert Covers(g, g[0].start) by { assert g[0].start <= g[0].start < g[0].end; }
    PopKeepsTiles(q, from, g);
  }

  datatype ReadStatus = Fine | Eof | WouldBlock | Closed | Bug

  /** A frame that is held and not read to its end stays the head. */
  lemma HeldPart(q: Queue, from: nat, g: seq<ByteInterval>, readOffset: nat, held: StreamFrame)
    requires g != [] && Holds(q, from, g, held) && from <= readOffset
    ensures held.offset == from
    ensures readOffset - from < |held.data| && InWindow(q, from, readOffset, Some(held)) ==>
      InWindow(q, from, readOffset, None)
  {
  }

  /** The frame that is held is read to its end, and the head of the queue is popped. */
  lemma PopKeeps(q: Queue, from: nat, g: seq<ByteInterval>, stream: seq<byte>, readOffset: nat, held: StreamFrame)
    requires Safe(q, from, g, stream) && Holds(q, from, g, held) && readOffset == End(held)
    ensures FinsAtEnd(q, stream) && from in q && held == q[from] && held.fin ==> readOffset == |stream|
    ensures from in q ==> var q', from' := q - {from}, from + |q[from].data|;
      && Safe(q', from', g, stream) && |q'| < |q| && (FinsAtEnd(q, stream) ==> FinsAtEnd(q', stream))
      && (from' <= readOffset || held.fin)
      && (Ready(q, from, g, stream) ==> Ready(q', from', g, stream))
      && (InWindow(q, from, readOffset, Some(held)) ==>
        InWindow(q', from', readOffset, None) && (Ends(q, from, stream) && !held.fin ==> Ends(q', from', stream)))
    ensures from !in q ==> held.fin && !InWindow(q, from, readOffset, Some(held))
  {
    hide Tiled, BytesAgree, Covers, Canonical, Ends;
    if from in q {
      PopKeepsTiles(q, from, g);
      if Ends(q, from, stream) && !q[from].fin { PopKeepsEnd(q, from, stream); }
      assert (q - {from}).Keys == q.Keys - {from};
    }
  }

  lemma SafeParts(q: Queue, from: nat, g: seq<ByteInterval>, stream: seq<byte>)
    requires Safe(q, from, g, stream)
    ensures GapsOk(g) && Sound(q, g) && from <= g[0].start && g != []
  {
  }

  lemma Refused(from: nat, g: seq<ByteInterval>, q: Queue, f: StreamFrame, r: PushResult, g': seq<ByteInterval>,
    q': Queue)
    requires g != [] && Pushed(from, g, q, f, r, g', q') && End(f) < MAX_BYTE_COUNT
    ensures r !in {Stored, Duplicate} ==> if f.data == [] then !f.fin else |Received(g, f)| > MAX_GAPS
    ensures r in {Stored, Duplicate} ==> g' == Received(g, f) && g' != []
  {
  }

  /** Everything that holds of frames of the stream is kept. */
  lemma Kept(from: nat, g: seq<ByteInterval>, q: Queue, f: StreamFrame, r: PushResult,
             g': seq<ByteInterval>, q': Queue, stream: seq<byte>, readOffset: nat, held: Option<StreamFrame>)
    requires Ready(q, from, g, stream) && InWindow(q, from, readOffset, held) && GapsOk(g)
    requires Pushed(from, g, q, f, r, g', q') && r in {Stored, Duplicate}
    ensures Agrees(f, stream) ==> Ready(q', from, g', stream) && InWindow(q', from, readOffset, held)
    ensures FinsAtEnd(q, stream) && (f.fin ==> End(f) == |stream|)
              && (f.fin && f.data != [] && !AllReceived(g, f) ==> Covers(g, End(f) - 1))
            ==> FinsAtEnd(q', stream)
    ensures Agrees(f, stream) && readOffset <= |stream| && (Ends(q, from, stream) || Announces(g, f, stream)) ==>
      Ends(q', from, stream)
  {
    hide Ready, FinsAtEnd, Ends, Announces;
    if Agrees(f, stream) {
      if readOffset <= |stream| && (Ends(q, from, stream) || Announces(g, f, stream)) {
        ArrivalKeepsEnd(from, g, q, f, r, g', q', stream);
      }
      ArrivalKeepsReady(from, g, q, f, r, g', q', stream);
      ArrivalKeepsWindow(from, g, q, f, r, g', q', stream, readOffset, held);
    }
    if FinsAtEnd(q, stream) && (f.fin ==> End(f) == |stream|) && r == Stored
      && (f.fin && f.data != [] && !AllReceived(g, f) ==> Covers(g, End(f) - 1))
    {
      FinsKept(from, g, q, f, r, g', q', stream);
    }
  }

  lemma FinsKept(from: nat, g: seq<ByteInterval>, q: Queue, f: StreamFrame, r: PushResult,
                 g': seq<ByteInterval>, q': Queue, stream: seq<byte>)
    requires Ready(q, from, g, stream) && Pushed(from, g, q, f, r, g', q') && r == Stored
    requires FinsAtEnd(q, stream) && (f.fin ==> End(f) == |stream|)
    requires f.fin && f.data != [] && !AllReceived(g, f) ==> Covers(g, End(f) - 1)
    ensures FinsAtEnd(q', stream)
  {
    hide FinsAtEnd, Sound;
    ArrivalKeepsFins(q, q', g, f, stream);
  }

  class Stream {
    const frameQueue: StreamFrameSorter
    var readPosInFrame: nat
    var readOffset: nat
    var cancelled: bool
    var resetLocally: bool
    var finishedReading: bool
    var held: Option<StreamFrame>

    /** The reader is on the stream: what it holds and what is queued are bytes of the stream at their places. */
    ghost predicate OnStream(stream: seq<byte>)
      reads this, frameQueue
    {
      && Safe(frameQueue.queuedFrames, frameQueue.readPosition, frameQueue.gaps, stream) && readOffset <= |stream|
      && (if finishedReading then held == None else frameQueue.readPosition <= readOffset)
      && (held.Some? ==>
            && BytesAgree(held.value, stream)
              && readPosInFrame == readOffset - frameQueue.readPosition <= |held.value.data|
            && Holds(frameQueue.queuedFrames, frameQueue.readPosition, frameQueue.gaps, held.value))
    }

    /** In addition, nothing that has arrived is lost. */
    ghost predicate Valid(stream: seq<byte>)
      reads this, frameQueue
    {
      && OnStream(stream)
      && Ready(frameQueue.queuedFrames, frameQueue.readPosition, frameQueue.gaps, stream)
      && InWindow(frameQueue.queuedFrames, frameQueue.readPosition, readOffset, held)
    }

    /** The end of the stream has been read or is queued, where the reader will find it. */
    ghost predicate Ending(stream: seq<byte>)
      reads this, frameQueue
    {
      finishedReading || Ends(frameQueue.queuedFrames, frameQueue.readPosition, stream)
    }

    constructor (ghost stream: seq<byte>)
      ensures Valid(stream) && fresh(frameQueue)
      ensures readOffset == 0 && held == None && !cancelled && !resetLocally && !finishedReading
      ensures frameQueue.gaps == [ByteInterval(0, MAX_BYTE_COUNT)] && frameQueue.queuedFrames == map[]
    {
      frameQueue := new StreamFrameSorter();
      readPosInFrame, readOffset, held := 0, 0, None;
      cancelled, resetLocally, finishedReading := false, false, false;
    }

    /** A frame arrives. Only errors other than a duplicate close the stream. */
    method AddStreamFrame(frame: StreamFrame, ghost stream: seq<byte>) returns (ok: bool, ghost r: PushResult)
      requires OnStream(stream) && BytesAgree(frame, stream) && |stream| < MAX_BYTE_COUNT
      modifies frameQueue
      ensures frameQueue.readPosition == old(frameQueue.readPosition) && (ok <==> r in {Stored, Duplicate})
      ensures Pushed(frameQueue.readPosition, old(frameQueue.gaps), old(frameQueue.queuedFrames), frame, r,
                frameQueue.gaps, frameQueue.queuedFrames)
      ensures ok ==> OnStream(stream) && frameQueue.gaps == Received(old(frameQueue.gaps), frame)
      ensures ok && old(Valid(stream)) && Agrees(frame, stream) ==> Valid(stream)
      ensures !ok ==> if frame.data == [] then !frame.fin else |Received(old(frameQueue.gaps), frame)| > MAX_GAPS
      ensures var g := old(frameQueue.gaps);
        && ok && old(Valid(stream)) && old(FinsAtEnd(frameQueue.queuedFrames, stream))
        && (frame.fin ==> End(frame) == |stream|)
        && (frame.fin && frame.data != [] && !AllReceived(g, frame) ==> Covers(g, End(frame) - 1))
        ==> FinsAtEnd(frameQueue.queuedFrames, stream)
      ensures ok && old(Valid(stream)) && Agrees(frame, stream)
        && (old(Ending(stream)) || Announces(old(frameQueue.gaps), frame, stream))
        ==> Ending(stream)
    {
      hide Pushed, Ready, Safe, InWindow, Holds, GapsOk, Sound, FinsAtEnd, Ends, Announces;
      ghost var g, q, from := frameQueue.gaps, frameQueue.queuedFrames, frameQueue.readPosition;
      SafeParts(q, from, g, stream);
      var result := frameQueue.Push(frame);
      ok, r := result == Stored || result == Duplicate, result;
      Refused(from, g, q, frame, r, frameQueue.gaps, frameQueue.queuedFrames);
      if ok {
        ArrivalKeepsSafe(from, g, q, frame, r, frameQueue.gaps, frameQueue.queuedFrames, stream);
        if held.Some? { ArrivalKeepsHold(from, g, q, frame, r, frameQueue.gaps, frameQueue.queuedFrames, held.value); }
        if Ready(q, from, g, stream) && InWindow(q, from, readOffset, held) {
          Kept(from, g, q, frame, r, frameQueue.gaps, frameQueue.queuedFrames, stream, readOffset, held);
        }
      }
    }

    /** First critical section of Read: take hold of the head of the queue, if there is one. */
    method Fetch(ghost stream: seq<byte>) returns (bug: bool)
      requires OnStream(stream) && held == None && !finishedReading
      modifies this`held, this`readPosInFrame
      ensures OnStream(stream) && held == if bug then None else frameQueue.Head()
      ensures bug <==> frameQueue.Head().Some? && readOffset > End(frameQueue.Head().value)
      ensures old(Valid(stream)) ==> Valid(stream) && !bug
      ensures old(Ending(stream)) ==> Ending(stream)
    {
      held, bug := frameQueue.Head(), false;
      if held.Some? {
        HeadIsHeld(frameQueue.queuedFrames, frameQueue.readPosition, frameQueue.gaps, stream);
        readPosInFrame := readOffset - held.value.offset;
        if readPosInFrame > |held.value.data| {
          held, bug := None, true;
        }
      }
    }

    /** Copies bytes of the frame that is held. */
    method CopyOut(room: nat, ghost stream: seq<byte>) returns (chunk: seq<byte>)
      requires OnStream(stream) && held.Some?
      modifies this`readPosInFrame, this`readOffset
      ensures OnStream(stream) && (old(Valid(stream)) ==> Valid(stream)) && (old(Ending(stream)) ==> Ending(stream))
      ensures old(readOffset) <= readOffset && chunk == stream[old(readOffset)..readOffset]
      ensures |chunk| == Min(room, End(held.value) - old(readOffset))
    {
      hide Ready, Safe, Ends;
      var f := held.value;
      var m := Min(room, |f.data| - readPosInFrame);
      chunk := f.data[readPosInFrame..readPosInFrame + m];
      SliceOfSlice(stream, f.offset, End(f), readPosInFrame, readPosInFrame + m);
      readPosInFrame, readOffset := readPosInFrame + m, readOffset + m;
    }

    /** Second critical section of Read: pop the frame if all of it has been read. */
    method FinishFrame(ghost stream: seq<byte>) returns (eof: bool)
      requires OnStream(stream) && held.Some?
      modifies this`held, this`finishedReading, frameQueue
      ensures OnStream(stream) && held == None && frameQueue.gaps == old(frameQueue.gaps)
      ensures old(Valid(stream)) ==> Valid(stream) && (old(Ending(stream)) ==> Ending(stream))
      ensures eof <==> readOffset == End(old(held).value) && old(held).value.fin
      ensures finishedReading == eof
      ensures readOffset == End(old(held).value) && old(frameQueue.Head()).Some? ==>
        |frameQueue.queuedFrames| < |old(frameQueue.queuedFrames)|
      ensures old(FinsAtEnd(frameQueue.queuedFrames, stream)) ==>
        && FinsAtEnd(frameQueue.queuedFrames, stream)
        && (eof && old(held == frameQueue.Head()) ==> readOffset == |stream|)
    {
      hide Ready, Safe, InWindow, FinsAtEnd, BytesAgree, GapsOk, Sound, Holds, Tiled, Ends;
      var f := held.value;
      eof := false;
      SafeParts(frameQueue.queuedFrames, frameQueue.readPosition, frameQueue.gaps, stream);
      HeldPart(frameQueue.queuedFrames, frameQueue.readPosition, frameQueue.gaps, readOffset, f);
      if readPosInFrame >= |f.data| {
        PopKeeps(frameQueue.queuedFrames, frameQueue.readPosition, frameQueue.gaps, stream, readOffset, f);
        var _ := frameQueue.Pop();
        if f.fin {
          finishedReading, eof := true, true;
        }
      }
      held := None;
    }

    /** One turn of the loop in Read, with nothing arriving in between. */
    method ReadFrame(room: nat, ghost stream: seq<byte>) returns (chunk: seq<byte>, status: ReadStatus)
      requires OnStream(stream) && held == None && 0 < room && !finishedReading
      modifies this`held, this`readPosInFrame, this`readOffset, this`finishedReading, frameQueue
      ensures OnStream(stream) && held == None && frameQueue.gaps == old(frameQueue.gaps)
      ensures |chunk| <= room && readOffset == old(readOffset) + |chunk| && chunk == stream[old(readOffset)..readOffset]
      ensures status != Closed && finishedReading == (status == Eof)
      ensures status == Fine ==> 0 < |chunk| || |frameQueue.queuedFrames| < |old(frameQueue.queuedFrames)|
      ensures (status == WouldBlock <==> old(frameQueue.Head()) == None)
        && (status in {WouldBlock, Bug} ==> chunk == [])
      ensures old(Valid(stream)) ==>
        && Valid(stream) && status != Bug && readOffset <= frameQueue.gaps[0].start
        && (status == WouldBlock ==> readOffset == old(readOffset) == frameQueue.gaps[0].start)
        && (old(Ending(stream)) ==>
          Ending(stream) && (status == WouldBlock ==> frameQueue.gaps[0].start != |stream|))
      ensures old(Valid(stream)) && old(FinsAtEnd(frameQueue.queuedFrames, stream)) ==>
        FinsAtEnd(frameQueue.queuedFrames, stream) && (status == Eof ==> readOffset == |stream|)
    {
      hide Ready, Safe, InWindow, FinsAtEnd, Ends;
      ghost var valid, head := Valid(stream), frameQueue.Head();
      if valid { ValidWindow(stream); }
      var bug := Fetch(stream);
      if bug {
        return [], Bug;
      }
      if held == None {
        return [], WouldBlock;
      }
      chunk := CopyOut(room, stream);
      var eof := FinishFrame(stream);
      status := if eof then Eof else Fine;
      if valid { ValidWindow(stream); }
    }

    /** The reader is not past the first gap, and without a frame to read it is there. */
    lemma ValidWindow(stream: seq<byte>)
      requires Valid(stream) && held == None
      ensures readOffset <= frameQueue.gaps[0].start
        && (frameQueue.Head() == None ==> readOffset == frameQueue.gaps[0].start)
        && (Ending(stream) && !finishedReading && frameQueue.gaps[0].start == |stream| ==> frameQueue.Head().Some?)
    {
      if Ending(stream) && !finishedReading && frameQueue.gaps[0].start == |stream| {
        HeadToEnd(frameQueue.queuedFrames, frameQueue.readPosition, frameQueue.gaps, stream);
      }
      WindowBeforeGap(frameQueue.queuedFrames, frameQueue.readPosition, frameQueue.gaps, readOffset, held);
    }

    /**
     Read without waiting: where the source would block, the status says so. It returns the next bytes of the stream,
     and as many as fit and have arrived without a gap, unless it stops at a FIN.
     */
    method Read(n: nat, ghost stream: seq<byte>) returns (data: seq<byte>, status: ReadStatus)
      requires OnStream(stream) && held == None
      modifies this`held, this`readPosInFrame, this`readOffset, this`finishedReading, frameQueue
      ensures OnStream(stream) && held == None && frameQueue.gaps == old(frameQueue.gaps)
      ensures old(readOffset) <= readOffset && data == stream[old(readOffset)..readOffset] && |data| <= n
      ensures status == Closed <==> cancelled || resetLocally
      ensures status == Closed || old(finishedReading) ==> data == []
      ensures old(Valid(stream)) ==> Valid(stream) && status != Bug
      ensures old(Valid(stream)) && status in {Fine, WouldBlock} ==>
        && |data| == Min(n, frameQueue.gaps[0].start - old(readOffset))
        && (status == WouldBlock <==> data == [] && 0 < n)
      ensures old(Valid(stream)) && old(FinsAtEnd(frameQueue.queuedFrames, stream)) && status == Eof
        && !old(finishedReading)
        ==> readOffset == |stream|
      ensures old(Valid(stream)) && old(Ending(stream)) && old(frameQueue.gaps[0].start) == |stream|
        && |stream| < old(readOffset) + n && status != Closed
        ==> status == Eof
    {
      hide Ready, Safe, InWindow, FinsAtEnd, OnStream, Ends, Valid, Ending;
      StartOfRead(stream);
      data := [];
      if cancelled || resetLocally {
        return data, Closed;
      }
      if finishedReading {
        return data, Eof;
      }
      if Valid(stream) { ValidWindow(stream); }
      while |data| < n
        invariant OnStream(stream) && held == None && frameQueue.gaps == old(frameQueue.gaps) && !finishedReading
        invariant old(Valid(stream)) ==> Valid(stream) && readOffset <= frameQueue.gaps[0].start
        invariant readOffset == old(readOffset) + |data| <= |stream| && data == stream[old(readOffset)..readOffset]
          && |data| <= n
        invariant old(Valid(stream)) && old(FinsAtEnd(frameQueue.queuedFrames, stream)) ==>
          FinsAtEnd(frameQueue.queuedFrames, stream)
        invariant old(Valid(stream)) && old(Ending(stream)) ==> Ending(stream)
        modifies this`held, this`readPosInFrame, this`readOffset, this`finishedReading, frameQueue
        decreases n - |data|, |frameQueue.queuedFrames|
      {
        ghost var before := readOffset;
        var chunk, turn := ReadFrame(n - |data|, stream);
        if turn == Bug {
          return data, Bug;
        }
        if turn == WouldBlock {
          return data, if |data| > 0 then Fine else WouldBlock;
        }
        StartOfRead(stream);
        JoinSlices(stream, old(readOffset), before, readOffset);
        data := data + chunk;
        if turn == Eof {
          return data, Eof;
        }
      }
      status := Fine;
    }

    lemma StartOfRead(stream: seq<byte>)
      requires OnStream(stream)
      ensures readOffset <= |stream| && frameQueue.gaps != []
    {
    }
  }
}
