/** Whole runs of a receiving stream: frames arrive between any two steps of the reader. */
module StreamRuns {
  import opened Common
  import opened Sequences
  import opened ByteIntervals
  import opened FrameSorter
  import opened StreamReader
  import Resend = Retransmissions
  import Writer = StreamWriter

  /** A frame arrives, or the reader takes one of its three steps. */
  datatype Event = Arrive(frame: StreamFrame) | FetchHead | CopyBytes(room: nat) | FinishHead

  /** Every frame that arrives has bytes of the stream at their places, whatever FINs there are. */
  ghost predicate AllBytesAgree(events: seq<Event>, stream: seq<byte>) {
    forall i | 0 <= i < |events| && events[i].Arrive? :: BytesAgree(events[i].frame, stream)
  }

  /** In addition, a frame without bytes is a FIN at the end of the stream. */
  ghost predicate AllAgree(events: seq<Event>, stream: seq<byte>) {
    forall i | 0 <= i < |events| && events[i].Arrive? :: Agrees(events[i].frame, stream)
  }

  /** Byte x of the stream is in a frame that arrived. */
  ghost predicate Arrived(events: seq<Event>, x: nat) {
    exists i | 0 <= i < |events| && events[i].Arrive? :: events[i].frame.offset <= x < End(events[i].frame)
  }

  /** The first byte of the stream that is in no frame that arrived. */
  ghost predicate FirstMissing(events: seq<Event>, m: nat) {
    !Arrived(events, m) && forall x: nat | x < m :: Arrived(events, x)
  }

  /** Each FIN names the end of the stream, and its frame is entirely old or has a new last byte. */
  ghost predicate FinsClean(events: seq<Event>, stream: seq<byte>) {
    forall i | 0 <= i < |events| && events[i].Arrive? && events[i].frame.fin ::
      FinClean(events[..i], events[i].frame, stream)
  }

  ghost predicate FinClean(earlier: seq<Event>, f: StreamFrame, stream: seq<byte>) {
    End(f) == |stream| && NotCut(earlier, f)
  }

  /** The end of the frame is not cut off: it has no bytes, its last byte is new, or the frame is entirely old. */
  ghost predicate NotCut(earlier: seq<Event>, f: StreamFrame) {
    f.data == [] || !Arrived(earlier, End(f) - 1) || forall x: nat | f.offset <= x < End(f) :: Arrived(earlier, x)
  }

  /** A FIN arrives that names the end of the stream, without bytes or with a new last byte. */
  ghost predicate EndArrives(events: seq<Event>, stream: seq<byte>) {
    exists i | 0 <= i < |events| && events[i].Arrive? :: NewEnd(events[..i], events[i].frame, stream)
  }

  ghost predicate NewEnd(earlier: seq<Event>, f: StreamFrame, stream: seq<byte>) {
    f.fin && End(f) == |stream| && (f.data == [] || !Arrived(earlier, End(f) - 1))
  }

  /** The gaps are exactly the bytes that have not arrived. */
  ghost predicate Tracks(g: seq<ByteInterval>, events: seq<Event>) {
    forall x: nat | x < MAX_BYTE_COUNT :: Covers(g, x) <==> !Arrived(events, x)
  }

  /** What has not arrived is in too many pieces. */
  ghost predicate Scattered(g: seq<ByteInterval>, events: seq<Event>) {
    GapsOk(g) && Tracks(g, events) && |g| > MAX_GAPS
  }

  /** The last frame that arrived has neither bytes nor a FIN, or leaves what has not arrived in too many pieces. */
  ghost predicate Refuses(events: seq<Event>) {
    && events != [] && var e := events[|events| - 1];
    e.Arrive? && ((e.frame.data == [] && !e.frame.fin) || exists g :: Scattered(g, events))
  }

  lemma ArrivedSnoc(events: seq<Event>, e: Event, x: nat)
    ensures Arrived(events + [e], x) <==> Arrived(events, x) || (e.Arrive? && e.frame.offset <= x < End(e.frame))
  {
    var all := events + [e];
    if Arrived(events, x) {
      var i :| 0 <= i < |events| && events[i].Arrive? && events[i].frame.offset <= x < End(events[i].frame);
      assert all[i] == events[i];
    }
    if e.Arrive? && e.frame.offset <= x < End(e.frame) {
      assert all[|events|] == e;
    }
  }

  lemma TracksArrival(g: seq<ByteInterval>, events: seq<Event>, f: StreamFrame)
    requires Tracks(g, events)
    ensures Tracks(Received(g, f), events + [Arrive(f)])
  {
    forall x: nat | x < MAX_BYTE_COUNT ensures Covers(Received(g, f), x) <==> !Arrived(events + [Arrive(f)], x) {
      ArrivedSnoc(events, Arrive(f), x);
      if f.data != [] { SubtractCovers(g, f.offset, End(f), x); }
    }
  }

  lemma TracksStep(g: seq<ByteInterval>, events: seq<Event>, e: Event)
    requires Tracks(g, events) && !e.Arrive?
    ensures Tracks(g, events + [e])
  {
    forall x: nat | x < MAX_BYTE_COUNT ensures Covers(g, x) <==> !Arrived(events + [e], x) {
      ArrivedSnoc(events, e, x);
    }
  }

  lemma TracksFirstMissing(g: seq<ByteInterval>, events: seq<Event>)
    requires GapsOk(g) && Tracks(g, events)
    ensures FirstMissing(events, g[0].start)
  {
    assert Covers(g, g[0].start) by { assert g[0].start <= g[0].start < g[0].end; }
    assert forall x: nat | x < g[0].start :: !Covers(g, x);
  }

  lemma EndArrivesSnoc(events: seq<Event>, e: Event, stream: seq<byte>)
    requires EndArrives(events + [e], stream)
    ensures EndArrives(events, stream) || (e.Arrive? && NewEnd(events, e.frame, stream))
  {
    var all := events + [e];
    var i :| 0 <= i < |all| && all[i].Arrive? && NewEnd(all[..i], all[i].frame, stream);
    if i < |events| {
      assert all[..i] == events[..i] && all[i] == events[i];
    } else {
      assert all[..i] == events;
    }
  }

  lemma NewEndAnnounces(g: seq<ByteInterval>, events: seq<Event>, f: StreamFrame, stream: seq<byte>)
    requires Tracks(g, events) && NewEnd(events, f, stream) && |stream| < MAX_BYTE_COUNT
    ensures Announces(g, f, stream)
  {
  }

  lemma FirstMissingUnique(events: seq<Event>, m: nat, n: nat)
    requires FirstMissing(events, m) && FirstMissing(events, n)
    ensures m == n
  {
  }

  lemma FinCleanCovers(g: seq<ByteInterval>, events: seq<Event>, f: StreamFrame, stream: seq<byte>)
    requires Tracks(g, events) && FinClean(events, f, stream) && |stream| < MAX_BYTE_COUNT
    ensures End(f) == |stream| && (f.data != [] && !AllReceived(g, f) ==> Covers(g, End(f) - 1))
  {
  }

  // ---------- how far the reader gets ----------

  /** The room that the reader had so far. */
  ghost function Rooms(events: seq<Event>): nat {
    if events == [] then 0
    else
      var e := events[|events| - 1];
      Rooms(events[..|events| - 1]) + if e.CopyBytes? then e.room else 0
  }

  lemma RoomsSnoc(events: seq<Event>, e: Event)
    ensures Rooms(events + [e]) == Rooms(events) + if e.CopyBytes? then e.room else 0
  {
    assert (events + [e])[..|events|] == events;
  }

  /** The reader lets go of what it holds, takes hold of the next frame, and copies from it. */
  ghost predicate IsTurn(a: Event, b: Event, c: Event) {
    a.FinishHead? && b.FetchHead? && c.CopyBytes? && c.room > 0
  }

  ghost predicate ArrivedUpTo(events: seq<Event>, x: nat) {
    forall y: nat | y <= x :: Arrived(events, y)
  }

  /** How far the reader gets at least: each turn gets it one byte further, if that byte has arrived before the turn. */
  ghost function Progress(events: seq<Event>): nat
    decreases |events|
  {
    var n := |events|;
    if n == 0 then 0
    else if n >= 3 && IsTurn(events[n - 3], events[n - 2], events[n - 1])
      && ArrivedUpTo(events[..n - 3], Progress(events[..n - 3])) then
      Progress(events[..n - 3]) + 1
    else Progress(events[..n - 1])
  }

  /** The reader, at this offset and with this frame, is not behind. */
  ghost predicate Moving(events: seq<Event>, offset: nat, held: Option<StreamFrame>) {
    var n := |events|;
    && Progress(events) <= offset
    && (n >= 1 && events[n - 1].FinishHead? ==> held == None)
    && (n >= 2 && events[n - 2].FinishHead? && events[n - 1].FetchHead? && ArrivedUpTo(events[..n - 2], offset) ==>
      held.Some? && offset < End(held.value))
  }

  lemma ProgressWithout(events: seq<Event>, e: Event)
    requires !e.CopyBytes?
    ensures Progress(events + [e]) == Progress(events)
  {
    assert (events + [e])[..|events|] == events;
  }

  /** An arrival, or the end of a turn. */
  lemma MovingOn(events: seq<Event>, e: Event, offset: nat, held: Option<StreamFrame>)
    requires Progress(events) <= offset && (e.Arrive? || (e.FinishHead? && held == None))
    ensures Moving(events + [e], offset, held)
  {
    hide Progress;
    ProgressWithout(events, e);
  }

  lemma MovingFetch(events: seq<Event>, e: Event, offset: nat, held: Option<StreamFrame>)
    requires Progress(events) <= offset && e.FetchHead?
    requires events != [] && events[|events| - 1].FinishHead? && ArrivedUpTo(events, offset) ==>
      held.Some? && offset < End(held.value)
    ensures Moving(events + [e], offset, held)
  {
    hide Progress, Arrived;
    ProgressWithout(events, e);
    var all, n := events + [e], |events|;
    if n >= 1 && events[n - 1].FinishHead? && ArrivedUpTo(all[..n - 1], offset) {
      assert all[..n - 1] == events[..n - 1];
      ArrivedMore(events, n - 1, offset);
    }
  }

  lemma ArrivedMore(events: seq<Event>, n: nat, x: nat)
    requires n <= |events| && ArrivedUpTo(events[..n], x)
    ensures ArrivedUpTo(events, x)
  {
    forall y: nat | y <= x ensures Arrived(events, y) {
      assert Arrived(events[..n], y);
      var i :| 0 <= i < n && events[..n][i].Arrive? && events[..n][i].frame.offset <= y < End(events[..n][i].frame);
      assert events[i] == events[..n][i];
    }
  }

  lemma MovingCopy(events: seq<Event>, e: Event, offset: nat, held: Option<StreamFrame>, offset': nat)
    requires Moving(events, offset, held) && e.CopyBytes? && offset <= offset'
    requires held.Some? ==> offset' == offset + Min(e.room, End(held.value) - offset)
    ensures Moving(events + [e], offset', held)
  {
    hide ArrivedUpTo;
    var all, n := events + [e], |events|;
    assert all[..n] == events;
    if n >= 2 && IsTurn(all[n - 2], all[n - 1], e) {
      assert all[..n - 2] == events[..n - 2];
      ProgressOfTurn(events);
    }
  }

  lemma ProgressOfTurn(events: seq<Event>)
    requires |events| >= 2 && events[|events| - 2].FinishHead? && events[|events| - 1].FetchHead?
    ensures Progress(events) == Progress(events[..|events| - 2])
  {
    var n := |events|;
    assert events == events[..n - 1] + [events[n - 1]] && events[..n - 1] == events[..n - 2] + [events[n - 2]];
    ProgressWithout(events[..n - 1], events[n - 1]);
    ProgressWithout(events[..n - 2], events[n - 2]);
  }

  /** When the next byte has arrived, the head of the queue has it. */
  lemma HeadHasNext(s: Stream, events: seq<Event>, stream: seq<byte>)
    requires s.Valid(stream) && s.held == None && Tracks(s.frameQueue.gaps, events) && |stream| < MAX_BYTE_COUNT
    requires ArrivedUpTo(events, s.readOffset)
    ensures s.frameQueue.Head().Some? && s.readOffset < End(s.frameQueue.Head().value)
  {
    hide Arrived;
    var g := s.frameQueue.gaps;
    assert Covers(g, g[0].start) by { assert g[0].start <= g[0].start < g[0].end; }
  }

  /** A reader at the end of the stream waits for nothing that has arrived. */
  lemma NotAtEnd(events: seq<Event>, stream: seq<byte>, offset: nat)
    requires AllBytesAgree(events, stream) && ArrivedUpTo(events, offset)
    ensures offset < |stream|
  {
    assert Arrived(events, offset);
  }

  /** One event. On an error the stream is closed and nothing more is promised than that the reader did not move. */
  method Step(s: Stream, e: Event, ghost earlier: seq<Event>, ghost stream: seq<byte>)
    returns (chunk: seq<byte>, ok: bool)
    requires s.OnStream(stream) && Tracks(s.frameQueue.gaps, earlier) && |stream| < MAX_BYTE_COUNT
    requires e.Arrive? ==> BytesAgree(e.frame, stream)
    modifies s`held, s`readPosInFrame, s`readOffset, s`finishedReading, s.frameQueue
    ensures s.readOffset == old(s.readOffset) + |chunk| <= |stream| && chunk == stream[old(s.readOffset)..s.readOffset]
    ensures ok ==> s.OnStream(stream) && Tracks(s.frameQueue.gaps, earlier + [e])
    ensures ok && old(s.Valid(stream)) && (e.Arrive? ==> Agrees(e.frame, stream)) ==> s.Valid(stream)
    ensures !ok ==> Refuses(earlier + [e])
    ensures ok && old(s.Valid(stream)) && old(NoEarlyEnd(s, stream))
      && (e.Arrive? && e.frame.fin ==> FinClean(earlier, e.frame, stream))
      ==> NoEarlyEnd(s, stream)
    ensures ok && old(s.Valid(stream)) && (e.Arrive? ==> Agrees(e.frame, stream))
      && (old(s.Ending(stream)) || (e.Arrive? && NewEnd(earlier, e.frame, stream)))
      ==> s.Ending(stream)
    ensures |chunk| <= if e.CopyBytes? then e.room else 0
    ensures ok && old(s.Valid(stream)) && old(NoEarlyEnd(s, stream)) && old(Moving(earlier, s.readOffset, s.held))
      && AllBytesAgree(earlier, stream)
      ==> Moving(earlier + [e], s.readOffset, s.held)
  {
    hide Tracks, Safe, Ready, InWindow, Holds, FinsAtEnd, FinClean, Agrees, NewEnd, Ends, Progress, Arrived,
      ArrivedUpTo;
    chunk, ok := [], true;
    s.StartOfRead(stream);
    match e {
      case Arrive(f) =>
        if Moving(earlier, s.readOffset, s.held) { MovingOn(earlier, e, s.readOffset, s.held); }
        ok := TakeFrame(s, f, earlier, stream);
      case FetchHead =>
        TracksStep(s.frameQueue.gaps, earlier, e);
        if s.held == None && !s.finishedReading {
          HeadFinAtEnd(s, stream);
          if s.Valid(stream) && ArrivedUpTo(earlier, s.readOffset) { HeadHasNext(s, earlier, stream); }
          var _ := s.Fetch(stream);
        } else if AllBytesAgree(earlier, stream) && ArrivedUpTo(earlier, s.readOffset) {
          NotAtEnd(earlier, stream, s.readOffset);
        }
        if old(s.Valid(stream)) && old(NoEarlyEnd(s, stream)) && old(Moving(earlier, s.readOffset, s.held))
          && AllBytesAgree(earlier, stream)
        {
          MovingFetch(earlier, e, s.readOffset, s.held);
        }
      case CopyBytes(room) =>
        TracksStep(s.frameQueue.gaps, earlier, e);
        ghost var before := s.readOffset;
        if s.held.Some? { chunk := s.CopyOut(room, stream); }
        if Moving(earlier, before, s.held) { MovingCopy(earlier, e, before, s.held, s.readOffset); }
      case FinishHead =>
        TracksStep(s.frameQueue.gaps, earlier, e);
        if s.held.Some? { var _ := s.FinishFrame(stream); }
        if Progress(earlier) <= s.readOffset { MovingOn(earlier, e, s.readOffset, s.held); }
    }
    if ok { s.StartOfRead(stream); }
  }

  /** A frame arrives. */
  method TakeFrame(s: Stream, f: StreamFrame, ghost earlier: seq<Event>, ghost stream: seq<byte>) returns (ok: bool)
    requires s.OnStream(stream) && Tracks(s.frameQueue.gaps, earlier) && |stream| < MAX_BYTE_COUNT
      && BytesAgree(f, stream)
    modifies s.frameQueue
    ensures ok ==> s.OnStream(stream) && Tracks(s.frameQueue.gaps, earlier + [Arrive(f)])
    ensures ok && old(s.Valid(stream)) && Agrees(f, stream) ==> s.Valid(stream)
    ensures !ok ==> Refuses(earlier + [Arrive(f)])
    ensures ok && old(s.Valid(stream)) && old(NoEarlyEnd(s, stream)) && (f.fin ==> FinClean(earlier, f, stream)) ==>
      NoEarlyEnd(s, stream)
    ensures ok && old(s.Valid(stream)) && Agrees(f, stream) && (old(s.Ending(stream)) || NewEnd(earlier, f, stream)) ==>
      s.Ending(stream)
  {
    hide Safe, Ready, InWindow, Holds, FinsAtEnd, Agrees, Tracks, FinClean, GapsOk, NewEnd, Announces, Ends, Pushed;
    ghost var g := s.frameQueue.gaps;
    if NewEnd(earlier, f, stream) { NewEndAnnounces(g, earlier, f, stream); }
    if f.fin && FinClean(earlier, f, stream) { FinCleanCovers(g, earlier, f, stream); }
    TracksArrival(g, earlier, f);
    SafeParts(s.frameQueue.queuedFrames, s.frameQueue.readPosition, g, stream);
    ghost var r;
    ok, r := s.AddStreamFrame(f, stream);
    assert (earlier + [Arrive(f)])[|earlier|] == Arrive(f);
    if !ok && f.data != [] {
      ReceivedGapsOk(g, f);
      assert Scattered(Received(g, f), earlier + [Arrive(f)]);
    }
  }

  lemma HeadFinAtEnd(s: Stream, stream: seq<byte>)
    requires s.OnStream(stream)
    ensures NoEarlyEnd(s, stream) && s.frameQueue.Head().Some? && s.frameQueue.Head().value.fin ==>
      End(s.frameQueue.Head().value) == |stream|
  {
  }

  /** No FIN is queued, held or has been read anywhere but at the end of the stream. */
  ghost predicate NoEarlyEnd(s: Stream, stream: seq<byte>)
    reads s, s.frameQueue
  {
    && FinsAtEnd(s.frameQueue.queuedFrames, stream)
    && (s.held.Some? && s.held.value.fin ==> End(s.held.value) == |stream|)
    && (s.finishedReading ==> s.readOffset == |stream|)
  }

  /**
   Any interleaving of arriving frames and reader steps, during which `early` bytes are read, and then a read of up
   to n bytes.

   If the frames have bytes of the stream at their places, whatever FINs they have, what the reader gets over the whole
   run is a prefix of the stream. If, in addition, frames without bytes are FINs at the end of the stream: unless a FIN
   stops the final read, that read gets everything up to the first byte that is in no frame, as far as it has room; and
   if a FIN stops it and the FINs were clean, the reader has got the whole stream. When the whole stream has arrived,
   and with it a FIN at its end, a final read with room to spare is stopped by a FIN. Before the final read, the reader
   gets no more than it has room for, and with clean FINs each of its turns gets it further. The run fails only at a
   frame without bytes and FIN, or at one that leaves too many gaps.
   */
  method Deliver(events: seq<Event>, n: nat, ghost stream: seq<byte>)
    returns (out: seq<byte>, early: nat, status: ReadStatus, ok: bool)
    requires AllBytesAgree(events, stream) && |stream| < MAX_BYTE_COUNT
    ensures out <= stream
    ensures ok && AllAgree(events, stream) && status != Eof ==>
      exists m: nat :: FirstMissing(events, m) && m <= |stream| && out == stream[..Min(early + n, m)]
    ensures ok && AllAgree(events, stream) && status == Eof && FinsClean(events, stream) ==> out == stream
    ensures ok && AllAgree(events, stream) && EndArrives(events, stream) && FirstMissing(events, |stream|)
      && |stream| < early + n
      ==> status == Eof
    ensures early <= |out| && early <= Rooms(events)
    ensures ok && AllAgree(events, stream) && FinsClean(events, stream) ==> Progress(events) <= early
    ensures !ok ==> exists k | 0 <= k <= |events| :: Refuses(events[..k])
  {
    hide Refuses, FinsClean, AllAgree, Tracks, FirstMissing, Safe, Ready, InWindow, Ends, EndArrives,
      Rooms, Progress;
    var s := new Stream(stream);
    status := Closed;
    NothingArrived(s, stream);
    out, ok := Run(s, events, stream);
    early := |out|;
    if ok {
      var rest;
      ghost var valid := s.Valid(stream);
      rest, status := LastRead(s, n, stream);
      JoinSlices(stream, 0, early, s.readOffset);
      out := out + rest;
      if valid {
        ValidGaps(s, stream);
        TracksFirstMissing(s.frameQueue.gaps, events);
        MissingInStream(events, s.frameQueue.gaps[0].start, stream);
        if FirstMissing(events, |stream|) { FirstMissingUnique(events, |stream|, s.frameQueue.gaps[0].start); }
      }
    }
  }

  lemma NothingArrived(s: Stream, stream: seq<byte>)
    requires s.frameQueue.gaps == [ByteInterval(0, MAX_BYTE_COUNT)] && s.frameQueue.queuedFrames == map[]
      && s.held == None && !s.finishedReading
    ensures Tracks(s.frameQueue.gaps, []) && NoEarlyEnd(s, stream)
  {
    forall x: nat | x < MAX_BYTE_COUNT ensures Covers(s.frameQueue.gaps, x) {
      assert s.frameQueue.gaps[0].start <= x < s.frameQueue.gaps[0].end;
    }
  }

  lemma ValidGaps(s: Stream, stream: seq<byte>)
    requires s.OnStream(stream)
    ensures GapsOk(s.frameQueue.gaps)
  {
  }

  /** The run from a fresh stream. */
  method Run(s: Stream, events: seq<Event>, ghost stream: seq<byte>) returns (out: seq<byte>, ok: bool)
    requires s.Valid(stream) && s.readOffset == 0 && Tracks(s.frameQueue.gaps, []) && NoEarlyEnd(s, stream)
    requires AllBytesAgree(events, stream) && |stream| < MAX_BYTE_COUNT
    modifies s`held, s`readPosInFrame, s`readOffset, s`finishedReading, s.frameQueue
    ensures s.readOffset == |out| && out <= stream
    ensures ok ==> s.OnStream(stream) && Tracks(s.frameQueue.gaps, events)
    ensures ok && AllAgree(events, stream) ==> s.Valid(stream) && (FinsClean(events, stream) ==> NoEarlyEnd(s, stream))
    ensures ok && AllAgree(events, stream) && EndArrives(events, stream) ==> s.Ending(stream)
    ensures |out| <= Rooms(events)
    ensures ok && AllAgree(events, stream) && FinsClean(events, stream) ==> Progress(events) <= |out|
    ensures !ok ==> exists k | 0 <= k <= |events| :: Refuses(events[..k])
  {
    hide Refuses, Safe, Ready, InWindow, Tracks, Agrees, NoEarlyEnd, FinClean, Ends, NewEnd, Moving, Rooms;
    out, ok := [], true;
    NotMovedYet(s.held);
    var i := 0;
    assert events[..0] == [];
    while i < |events|
      invariant 0 <= i <= |events|
      invariant s.OnStream(stream) && s.readOffset == |out| && out == stream[..|out|] && ok
      invariant Tracks(s.frameQueue.gaps, events[..i])
      invariant AllAgree(events, stream) ==> s.Valid(stream) && (FinsClean(events, stream) ==> NoEarlyEnd(s, stream))
      invariant AllAgree(events, stream) && EndArrives(events[..i], stream) ==> s.Ending(stream)
      invariant |out| <= Rooms(events[..i])
      invariant AllAgree(events, stream) && FinsClean(events, stream) ==> Moving(events[..i], s.readOffset, s.held)
    {
      RoomsSnoc(events[..i], events[i]);
      MoreRoom(events, i + 1);
      var chunk;
      chunk, ok := Step(s, events[i], events[..i], stream);
      assert events[..i] + [events[i]] == events[..i + 1];
      if EndArrives(events[..i + 1], stream) { EndArrivesSnoc(events[..i], events[i], stream); }
      JoinSlices(stream, 0, |out|, s.readOffset);
      out := out + chunk;
      if !ok {
        return;
      }
      i := i + 1;
    }
    assert events[..i] == events;
    IsMoving(events, s.readOffset, s.held);
  }

  lemma NotMovedYet(held: Option<StreamFrame>)
    ensures Rooms([]) == 0 && Moving([], 0, held)
  {
  }

  lemma IsMoving(events: seq<Event>, offset: nat, held: Option<StreamFrame>)
    ensures Moving(events, offset, held) ==> Progress(events) <= offset
  {
  }

  lemma {:induction false} MoreRoom(events: seq<Event>, i: nat)
    requires i <= |events|
    ensures Rooms(events[..i]) <= Rooms(events)
  {
    if i < |events| {
      MoreRoom(events[..|events| - 1], i);
      assert events[..|events| - 1][..i] == events[..i];
    } else {
      assert events[..i] == events;
    }
  }

  /** Lets go of a frame that is still held and reads on. */
  method LastRead(s: Stream, n: nat, ghost stream: seq<byte>) returns (data: seq<byte>, status: ReadStatus)
    requires s.OnStream(stream) && !s.cancelled && !s.resetLocally
    modifies s`held, s`readPosInFrame, s`readOffset, s`finishedReading, s.frameQueue
    ensures s.OnStream(stream) && s.frameQueue.gaps == old(s.frameQueue.gaps)
    ensures old(s.readOffset) <= s.readOffset && data == stream[old(s.readOffset)..s.readOffset]
    ensures old(s.Valid(stream)) && status != Eof ==>
      s.readOffset == Min(old(s.readOffset) + n, s.frameQueue.gaps[0].start)
    ensures old(s.Valid(stream)) && status == Eof && old(NoEarlyEnd(s, stream)) ==> s.readOffset == |stream|
    ensures old(s.Valid(stream)) && old(s.Ending(stream)) && s.frameQueue.gaps[0].start == |stream|
      && |stream| < old(s.readOffset) + n
      ==> status == Eof
  {
    hide Safe, Ready, InWindow, FinsAtEnd, Ends;
    if s.held.Some? { var _ := s.FinishFrame(stream); }
    s.StartOfRead(stream);
    data, status := s.Read(n, stream);
  }

  lemma MissingInStream(events: seq<Event>, m: nat, stream: seq<byte>)
    requires AllBytesAgree(events, stream) && FirstMissing(events, m)
    ensures m <= |stream|
  {
    assert !Arrived(events, |stream|);
  }

  /**
   The stream 1, 2, 3 is sent in one frame, and sent again in two. Of these the second arrives, and then, late, the
   frame itself: the reader is told that the stream ends after 2.
   */
  method FinCutShort() returns (whole: StreamFrame, first: Option<StreamFrame>, last: StreamFrame,
      head: Option<StreamFrame>)
    ensures whole == StreamFrame(5, true, true, 0, [1, 2, 3])
    ensures first == Some(StreamFrame(5, false, true, 0, [1, 2])) && last == StreamFrame(5, true, true, 2, [3])
    ensures head.Some? && head.value.fin && head.value.data == [1, 2]
  {
    hide Pushed, Tiled, Sound, Canonical, GapsOk;
    whole := SendWhole();
    assert whole.data[..2] == [1, 2] && whole.data[2..] == [3];
    first, last := Resend.MaybeSplitOffFrame(whole, 2);
    var s := new StreamFrameSorter();
    ghost var g, q := s.gaps, s.queuedFrames;
    var r := s.Push(last);
    LastFirst(g, q, last, r, s.gaps, s.queuedFrames);
    g, q := s.gaps, s.queuedFrames;
    r := s.Push(whole);
    WholeSecond(g, q, whole, r, s.gaps, s.queuedFrames);
    head := s.Pop();
  }

  method SendWhole() returns (whole: StreamFrame)
    ensures whole == StreamFrame(5, true, true, 0, [1, 2, 3])
  {
    hide Writer.Covers, Writer.OneFin;
    var s := new Writer.Stream(5);
    var _ := s.Write([1, 2, 3]);
    assert s.written == [1, 2, 3];
    s.Close();
    var frame := s.NextFrame(100);
    assert s.written[0..3] == [1, 2, 3];
    whole := frame.value;
  }

  lemma LastFirst(g: seq<ByteInterval>, q: Queue, f: StreamFrame, r: PushResult, g': seq<ByteInterval>, q': Queue)
    requires g == [ByteInterval(0, MAX_BYTE_COUNT)] && Tiled(q, 0, g) && f.offset == 2 && |f.data| == 1
    requires Pushed(0, g, q, f, r, g', q')
    ensures r == Stored && g' == [ByteInterval(0, 2), ByteInterval(3, MAX_BYTE_COUNT)] && Tiled(q', 0, g')
      && GapsOk(g') && Sound(q', g')
  {
    assert g[0].start <= 2 < g[0].end;
    assert g[1..] == [];
    assert Subtract(g, 2, 3) == Cut(g[0], 2, 3) + Subtract([], 2, 3);
  }

  lemma WholeSecond(g: seq<ByteInterval>, q: Queue, f: StreamFrame, r: PushResult, g': seq<ByteInterval>, q': Queue)
    requires g == [ByteInterval(0, 2), ByteInterval(3, MAX_BYTE_COUNT)] && Tiled(q, 0, g) && f.offset == 0
      && |f.data| == 3
    requires Pushed(0, g, q, f, r, g', q')
    ensures r == Stored && 0 in q' && q'[0] == Slice(f, 0, 2) && GapsOk(g') && Sound(q', g') && 0 <= g'[0].start
  {
    assert g[0].start <= 0 < g[0].end && g[0].start <= 1 < g[0].end;
    assert Covers(g, 0) && Covers(g, 1) && !Covers(g, 2);
    assert g[1..] == [g[1]];
    assert Subtract(g[1..], 0, 3) == Cut(g[1], 0, 3) + Subtract([], 0, 3);
    assert |Received(g, f)| == 1;
    var o :| o in q' && IsMissingPart(g, f, o, q'[o]);
    assert o == 0 && End(q'[o]) == 2;
  }
}
