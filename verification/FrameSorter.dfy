/**
 The stream frame sorter (stream_frame_sorter.go): a gap list and a map from offset to queued frame
 turn overlapping, reordered and duplicated STREAM frames into an in-order byte stream.

 The list of gaps is a sequence; module RingList shows that the linked list behind it behaves like one.
 */
module FrameSorter {
  import opened Common
  import opened Sequences
  import opened ByteIntervals

  const MAX_GAPS: nat := 1000

  type Queue = map<nat, StreamFrame>

  datatype PushResult = Stored | Duplicate | EmptyData | TooManyGaps | NoGapFound | NoEndGapFound

  /** The frame carries bytes of the stream at their place. */
  ghost predicate BytesAgree(f: StreamFrame, stream: seq<byte>) {
    f.offset + |f.data| <= |stream| && f.data == stream[f.offset..f.offset + |f.data|]
  }

  /** In addition, a frame without bytes is a FIN at the end of the stream. */
  ghost predicate Agrees(f: StreamFrame, stream: seq<byte>) {
    BytesAgree(f, stream) && (f.data == [] ==> f.fin && f.offset == |stream|)
  }

  /** Every queued frame lies under its own offset, holds stream bytes, and covers only received bytes. */
  ghost predicate Sound(q: Queue, g: seq<ByteInterval>) {
    forall o | o in q :: q[o].offset == o && (forall x | o <= x < o + |q[o].data| :: !Covers(g, x))
  }

  ghost predicate Genuine(q: Queue, stream: seq<byte>) {
    forall o | o in q :: Agrees(q[o], stream)
  }

  /** Starting at `from`, non-empty queued frames follow one another without gap or overlap and end exactly at `to`. */
  ghost predicate Chain(q: Queue, from: nat, to: nat)
    decreases Max(to - from, 0)
  {
    from <= to &&
    (from < to ==> from in q && 0 < |q[from].data| && Chain(q, from + |q[from].data|, to))
  }

  /**
   The live frames tile everything received at or after `from`: each stretch between two gaps is a chain.
   Frames in the map that are on no chain are stale: a later frame swallowed them.
   */
  ghost predicate Tiled(q: Queue, from: nat, g: seq<ByteInterval>)
    decreases |g|
  {
    g != [] ==> Chain(q, from, g[0].start) && Tiled(q, g[0].end, g[1..])
  }

  ghost predicate GapsOk(g: seq<ByteInterval>) {
    Canonical(g) && g != [] && g[|g| - 1].end == MAX_BYTE_COUNT
  }

  // ---------- chains ----------

  lemma {:induction false} ChainFrame(q: Queue, q': Queue, from: nat, to: nat)
    requires Chain(q, from, to)
    requires forall o | o in q && from <= o < to :: o in q' && q'[o] == q[o]
    ensures Chain(q', from, to)
    decreases Max(to - from, 0)
  {
    if from < to { ChainFrame(q, q', from + |q[from].data|, to); }
  }

  lemma {:induction false} ChainJoin(q: Queue, a: nat, b: nat, c: nat)
    requires Chain(q, a, b) && Chain(q, b, c)
    ensures Chain(q, a, c)
    decreases Max(b - a, 0)
  {
    if a < b { ChainJoin(q, a + |q[a].data|, b, c); }
  }

  lemma {:induction false} TiledFrame(q: Queue, q': Queue, from: nat, g: seq<ByteInterval>, to: nat)
    requires Tiled(q, from, g) && Canonical(g)
    requires g != [] ==> from <= g[0].start && g[|g| - 1].start <= to
    requires forall o | o in q && from <= o < to :: o in q' && q'[o] == q[o]
    ensures Tiled(q', from, g)
    decreases |g|
  {
    if g != [] {
      ChainFrame(q, q', from, g[0].start);
      if |g| > 1 {
        assert g[1..][|g[1..]| - 1] == g[|g| - 1];
        TiledFrame(q, q', g[0].end, g[1..], to);
      }
    }
  }

  ghost function EndOf(from: nat, g: seq<ByteInterval>): nat {
    if g == [] then from else g[|g| - 1].end
  }

  lemma {:induction false} TiledConcat(q: Queue, from: nat, a: seq<ByteInterval>, b: seq<ByteInterval>)
    ensures Tiled(q, from, a + b) <==> Tiled(q, from, a) && Tiled(q, EndOf(from, a), b)
    decreases |a|
  {
    if a == [] {
      assert a + b == b;
    } else {
      TiledConcat(q, a[0].end, a[1..], b);
      assert (a + b)[1..] == a[1..] + b;
      assert EndOf(a[0].end, a[1..]) == EndOf(from, a);
    }
  }

  /** A queued frame that starts where a gap ends is the first live frame after that gap. */
  lemma {:induction false} TiledAfterGap(q: Queue, from: nat, g: seq<ByteInterval>, i: nat)
    requires Tiled(q, from, g) && Canonical(g) && i + 1 < |g|
    ensures Chain(q, g[i].end, g[i + 1].start)
    ensures g[i].end in q && 0 < |q[g[i].end].data|
    decreases i
  {
    if i > 0 {
      TiledAfterGap(q, g[0].end, g[1..], i - 1);
    } else {
      assert Tiled(q, g[0].end, g[1..]);
      assert g[1..][0] == g[1];
    }
  }

  ghost predicate OnChain(q: Queue, from: nat, to: nat, o: nat)
    decreases Max(to - from, 0)
  {
    from < to && (o == from || (from in q && 0 < |q[from].data| && OnChain(q, from + |q[from].data|, to, o)))
  }

  /** The queued frame at offset o is one of the tiles. */
  ghost predicate Live(q: Queue, from: nat, g: seq<ByteInterval>, o: nat)
    decreases |g|
  {
    g != [] && (OnChain(q, from, g[0].start, o) || Live(q, g[0].end, g[1..], o))
  }

  lemma {:induction false} OverwriteChain(q: Queue, from: nat, to: nat, f: StreamFrame)
    requires Chain(q, from, to) && f.data == []
    ensures Chain(q[f.offset := f], from, to) <==> !OnChain(q, from, to, f.offset)
    decreases Max(to - from, 0)
  {
    if from < to {
      OverwriteChain(q, from + |q[from].data|, to, f);
    }
  }

  /**
   A frame without data replaces whatever is queued at its offset. The live frames survive that exactly
   when the frame does not land on one of them.
   */
  lemma {:induction false} EmptyFrameKeepsTiles(q: Queue, from: nat, g: seq<ByteInterval>, f: StreamFrame)
    requires Tiled(q, from, g) && f.data == []
    ensures Tiled(q[f.offset := f], from, g) <==> !Live(q, from, g, f.offset)
    decreases |g|
  {
    if g != [] {
      OverwriteChain(q, from, g[0].start, f);
      EmptyFrameKeepsTiles(q, g[0].end, g[1..], f);
    }
  }

  lemma SplitTiles(q: Queue, from: nat, g: seq<ByteInterval>, i: nat)
    requires Tiled(q, from, g) && i <= |g|
    ensures Tiled(q, from, g[..i]) && Tiled(q, EndOf(from, g[..i]), g[i..])
  {
    assert g == g[..i] + g[i..];
    TiledConcat(q, from, g[..i], g[i..]);
  }

  /** The tiling before gap i depends only on frames queued before gap i. */
  lemma LeftUntouched(q: Queue, q': Queue, from: nat, g: seq<ByteInterval>, i: nat)
    requires Canonical(g) && Tiled(q, from, g) && i < |g| && from <= g[0].start
    requires forall o | o in q && o < g[i].start :: o in q' && q'[o] == q[o]
    ensures Tiled(q', from, g[..i]) && Chain(q', EndOf(from, g[..i]), g[i].start)
  {
    SplitTiles(q, from, g, i);
    TiledFrame(q, q', from, g[..i], g[i].start);
    ChainFrame(q, q', EndOf(from, g[..i]), g[i].start);
  }

  /** The tiling after gap k depends only on frames queued after gap k. */
  lemma RightUntouched(q: Queue, q': Queue, from: nat, g: seq<ByteInterval>, k: nat)
    requires Canonical(g) && Tiled(q, from, g) && k < |g|
    requires forall o | o in q && g[k].end <= o :: o in q' && q'[o] == q[o]
    ensures Tiled(q', g[k].end, g[k + 1..])
  {
    SplitTiles(q, from, g, k + 1);
    var b := g[k + 1..];
    if b != [] {
      TiledFrame(q, q', g[k].end, b, b[|b| - 1].start);
    }
  }

  lemma AppendTiles(q: Queue, from: nat, a: seq<ByteInterval>, b: seq<ByteInterval>)
    requires Tiled(q, from, a) && Tiled(q, EndOf(from, a), b)
    ensures Tiled(q, from, a + b) && EndOf(from, a + b) == EndOf(EndOf(from, a), b)
  {
    TiledConcat(q, from, a, b);
  }

  /** A new tile [s, e) between a chain that ends at `at` and the tiling that starts at `end`. */
  lemma InsertTile(q: Queue, before: nat, at: nat, s: nat, e: nat, end: nat, b: seq<ByteInterval>)
    requires Chain(q, before, at) && at <= s < e <= end
    requires s in q && |q[s].data| == e - s
    requires Tiled(q, end, b) && (e == end ==> b != [])
    ensures Tiled(q, before, Piece(at, s))
    ensures Tiled(q, EndOf(before, Piece(at, s)), Piece(e, end))
    ensures Tiled(q, EndOf(EndOf(before, Piece(at, s)), Piece(e, end)), b)
  {
    assert Chain(q, s, e);
    var l, r := Piece(at, s), Piece(e, end);
    var mid := EndOf(before, l);
    assert Chain(q, mid, e) by {
      if l == [] { ChainJoin(q, before, s, e); }
    }
    if r == [] { ChainJoin(q, mid, e, b[0].start); }
  }

  /** Storing the cut frame [s, e) makes the tiling follow the gaps. */
  lemma StoreKeepsTiles(q: Queue, q': Queue, from: nat, g: seq<ByteInterval>, i: nat, k: nat, s: nat, e: nat)
    requires GapsOk(g) && Tiled(q, from, g) && from <= g[0].start
    requires i <= k < |g|
    requires g[i].start <= s && s < e <= g[k].end
    requires e == g[k].end ==> k + 1 < |g|
    requires s in q' && |q'[s].data| == e - s
    requires forall o | o in q && (o < g[i].start || g[k].end <= o) :: o in q' && q'[o] == q[o]
    ensures Tiled(q', from, g[..i] + Piece(g[i].start, s) + Piece(e, g[k].end) + g[k + 1..])
  {
    LeftUntouched(q, q', from, g, i);
    RightUntouched(q, q', from, g, k);
    InsertTile(q', EndOf(from, g[..i]), g[i].start, s, e, g[k].end, g[k + 1..]);
    var a, l, r, b := g[..i], Piece(g[i].start, s), Piece(e, g[k].end), g[k + 1..];
    AppendTiles(q', from, a, l);
    AppendTiles(q', from, a + l, r);
    AppendTiles(q', from, a + l + r, b);
  }

  // ---------- the sorter ----------

  /** The gaps after a frame has arrived: those before it, without its bytes. */
  ghost function Received(g: seq<ByteInterval>, f: StreamFrame): seq<ByteInterval> {
    if f.data == [] then g else Subtract(g, f.offset, f.offset + |f.data|)
  }

  /** All bytes of the frame arrived earlier. */
  ghost predicate AllReceived(g: seq<ByteInterval>, f: StreamFrame) {
    forall x | f.offset <= x < f.offset + |f.data| :: !Covers(g, x)
  }

  /** The ends of the gaps i..k-1. */
  ghost function GapEnds(g: seq<ByteInterval>, i: nat, k: nat): set<nat>
    requires i <= k <= |g|
  {
    if i == k then {} else GapEnds(g, i, k - 1) + {g[k - 1].end}
  }

  lemma {:induction false} GapEndsBounds(g: seq<ByteInterval>, i: nat, k: nat, x: nat)
    requires i <= k < |g| && Canonical(g) && x in GapEnds(g, i, k)
    ensures g[i].start < x < g[k].start
  {
    if x != g[k - 1].end { GapEndsBounds(g, i, k - 1, x); }
  }

  lemma RemoveMore<K, V>(m: map<K, V>, ks: set<K>, x: K)
    ensures (m - ks) - {x} == m - (ks + {x})
  {
  }

  lemma UncoveredApart(g: seq<ByteInterval>, s: nat, e: nat)
    requires s < e && forall x | s <= x < e :: !Covers(g, x)
    requires forall i | 0 <= i < |g| :: g[i].start < g[i].end
    ensures forall i | 0 <= i < |g| :: g[i].end <= s || e <= g[i].start
  {
    forall i | 0 <= i < |g| ensures g[i].end <= s || e <= g[i].start {
      if s < g[i].end && g[i].start < e {
        assert Covers(g, Max(s, g[i].start));
      }
    }
  }

  /** A frame no longer than the one already queued at its offset brings nothing new. */
  lemma QueuedIsDuplicate(q: Queue, g: seq<ByteInterval>, f: StreamFrame)
    requires GapsOk(g) && Sound(q, g) && f.data != []
    requires f.offset in q && |f.data| <= |q[f.offset].data|
    ensures AllReceived(g, f) && Received(g, f) == g && f.offset + |f.data| != MAX_BYTE_COUNT
  {
    UncoveredApart(g, f.offset, f.offset + |f.data|);
    SubtractApart(g, f.offset, f.offset + |f.data|);
  }

  /** The bytes of the frame already queued at its offset need not be cut out of the gaps again. */
  lemma QueuedPartSkipped(q: Queue, g: seq<ByteInterval>, f: StreamFrame)
    requires GapsOk(g) && Sound(q, g)
    requires f.offset in q && |q[f.offset].data| < |f.data|
    ensures Received(g, f) == Subtract(g, f.offset + |q[f.offset].data|, f.offset + |f.data|)
  {
    hide Subtract, Covers;
    var n := |q[f.offset].data|;
    if n > 0 {
      UncoveredApart(g, f.offset, f.offset + n);
      SubtractSkipFront(g, f.offset, f.offset + n, f.offset + |f.data|);
    }
  }

  lemma GapsReached(g: seq<ByteInterval>, s: nat, e: nat, i: nat, k: nat)
    requires Canonical(g) && i <= k < |g| && s < e
    requires forall j | 0 <= j < i :: g[j].end < s
    requires s <= g[i].end && g[k].start < e
    requires e < g[k].end || (k + 1 < |g| && e <= g[k + 1].start)
    ensures Reaches(g, s, e, i, k)
  {
  }

  function End(f: StreamFrame): nat {
    f.offset + |f.data|
  }

  /** The part of the frame from offset a to offset b. */
  function Slice(f: StreamFrame, a: nat, b: nat): (p: StreamFrame)
    requires f.offset <= a <= b <= End(f)
    ensures p.offset == a && End(p) == b
  {
    f.(offset := a, data := f.data[a - f.offset..b - f.offset])
  }

  /** The frame f, cut at its front by what is queued at its offset. */
  ghost function Trimmed(q: Queue, f: StreamFrame): (t: StreamFrame)
    requires f.offset in q ==> |q[f.offset].data| < |f.data|
  {
    if f.offset in q then Slice(f, f.offset + |q[f.offset].data|, End(f)) else f
  }

  ghost predicate IsPiece(p: StreamFrame, f: StreamFrame) {
    f.offset <= p.offset && End(p) <= End(f) && p == Slice(f, p.offset, End(p))
  }

  /** Frames queued before the first gap, among them the one being read, stay as they are. */
  ghost predicate FrontKept(q: Queue, q': Queue, g: seq<ByteInterval>)
    requires g != []
  {
    forall o | o in q && o < g[0].start :: o in q' && q'[o] == q[o]
  }

  /** Frames that do not end before the frame f stay as they are. */
  ghost predicate LaterKept(q: Queue, q': Queue, f: StreamFrame) {
    forall o | o in q && End(q[o]) >= End(f) :: o in q' && q'[o] == q[o]
  }

  /** What Push has worked out when it stores `piece`. */
  ghost predicate Placed(g: seq<ByteInterval>, q: Queue, f: StreamFrame, i: nat, k: nat) {
    && f.data != [] && End(f) < MAX_BYTE_COUNT
    && (f.offset in q ==> |q[f.offset].data| < |f.data|)
    && Reaches(g, Trimmed(q, f).offset, End(f), i, k)
    && (End(f) >= g[k].end ==> k + 1 < |g|)
  }

  /** The gaps once the missing part of the frame is cut out of them. */
  ghost function PlacedList(g: seq<ByteInterval>, q: Queue, f: StreamFrame, i: nat, k: nat): seq<ByteInterval>
    requires Placed(g, q, f, i, k)
  {
    var s, e := Max(Trimmed(q, f).offset, g[i].start), Min(End(f), g[k].end);
    g[..i] + Piece(g[i].start, s) + Piece(e, g[k].end) + g[k + 1..]
  }

  lemma PlacedGaps(g: seq<ByteInterval>, q: Queue, f: StreamFrame, i: nat, k: nat)
    requires Placed(g, q, f, i, k) && GapsOk(g) && Sound(q, g)
    ensures Received(g, f) == PlacedList(g, q, f, i, k)
  {
    if f.offset in q { QueuedPartSkipped(q, g, f); }
    SubtractRun(g, Trimmed(q, f).offset, End(f), i, k);
  }

  lemma ReceivedGapsOk(g: seq<ByteInterval>, f: StreamFrame)
    requires GapsOk(g) && f.data != [] && End(f) < MAX_BYTE_COUNT
    ensures GapsOk(Received(g, f)) && g[0].start <= Received(g, f)[0].start
  {
    SubtractCanonical(g, f.offset, End(f));
    SubtractLast(g, f.offset, End(f));
  }

  /** The frame is no longer than what is queued at its offset, or meets no gap beyond that. */
  ghost predicate Repeated(g: seq<ByteInterval>, q: Queue, f: StreamFrame) {
    if f.offset in q && |f.data| <= |q[f.offset].data| then true
    else forall j | 0 <= j < |g| :: g[j].end < Trimmed(q, f).offset || End(f) <= g[j].start
  }

  /** Such a frame brings nothing new. */
  lemma RepeatedIsDuplicate(g: seq<ByteInterval>, q: Queue, f: StreamFrame)
    requires GapsOk(g) && Sound(q, g) && f.data != [] && Repeated(g, q, f)
    ensures Received(g, f) == g
  {
    if f.offset in q && |f.data| <= |q[f.offset].data| {
      QueuedIsDuplicate(q, g, f);
    } else {
      assert Subtract(g, Trimmed(q, f).offset, End(f)) == g by { SubtractApart(g, Trimmed(q, f).offset, End(f)); }
      if f.offset in q { QueuedPartSkipped(q, g, f); }
    }
  }

  lemma NothingNew(g: seq<ByteInterval>, f: StreamFrame)
    requires Received(g, f) == g && GapsOk(g) && f.data != []
    ensures AllReceived(g, f) && End(f) != MAX_BYTE_COUNT
  {
    var last := g[|g| - 1];
    assert Covers(g, last.end - 1);
    forall x | f.offset <= x < f.offset + |f.data| ensures !Covers(g, x) {
      SubtractCovers(g, f.offset, End(f), x);
    }
  }

  lemma PlacedSound(g: seq<ByteInterval>, q: Queue, f: StreamFrame, queue: Queue, piece: StreamFrame)
    requires Sound(q, g) && f.data != []
    requires forall o | o in queue :: o in q && queue[o] == q[o]
    requires f.offset <= piece.offset && End(piece) <= End(f)
    ensures Sound(queue[piece.offset := piece], Received(g, f))
  {
    forall x: nat ensures Covers(Received(g, f), x) <==> Covers(g, x) && !(f.offset <= x < End(f)) {
      SubtractCovers(g, f.offset, End(f), x);
    }
  }

  /** With the live frames in place, the piece to store starts inside gap i, not at its end. */
  lemma PlacedInsideGap(g: seq<ByteInterval>, q: Queue, from: nat, f: StreamFrame, i: nat, k: nat)
    requires Placed(g, q, f, i, k) && GapsOk(g) && Sound(q, g) && Tiled(q, from, g)
    ensures Trimmed(q, f).offset < g[i].end
  {
    var s := Trimmed(q, f).offset;
    if s == g[i].end {
      assert i + 1 < |g|;
      TiledAfterGap(q, from, g, i);
      assert f.offset in q && f.offset < s;
      assert Covers(g, s - 1);
    }
  }

  lemma PieceOfTrimmed(q: Queue, f: StreamFrame, s: nat, e: nat)
    requires f.offset in q ==> |q[f.offset].data| < |f.data|
    requires Trimmed(q, f).offset <= s <= e <= End(f)
    ensures Slice(Trimmed(q, f), s, e) == Slice(f, s, e)
  {
    if f.offset in q {
      var n := |q[f.offset].data|;
      SliceOfSlice(f.data, n, |f.data|, s - f.offset - n, e - f.offset - n);
    }
  }

  /** The queue once the missing part of the frame is stored. */
  ghost function PlacedQueue(g: seq<ByteInterval>, q: Queue, f: StreamFrame, i: nat, k: nat): Queue
    requires Placed(g, q, f, i, k)
  {
    var s, e := Max(Trimmed(q, f).offset, g[i].start), Min(End(f), g[k].end);
    (q - GapEnds(g, i, k))[s := Slice(f, s, e)]
  }

  /** Every frame that is new in the queue is a piece of f, and an empty one lies where nothing is missing. */
  ghost predicate OnlyGainsPiece(g: seq<ByteInterval>, q: Queue, q': Queue, f: StreamFrame) {
    forall o | o in q' :: (o in q && q'[o] == q[o]) || (IsPiece(q'[o], f) && (q'[o].data != [] || !Covers(g, o)))
  }

  lemma PlacedFront(g: seq<ByteInterval>, q: Queue, f: StreamFrame, i: nat, k: nat)
    requires Placed(g, q, f, i, k) && GapsOk(g)
    ensures FrontKept(q, PlacedQueue(g, q, f, i, k), g) && OnlyGainsPiece(g, q, PlacedQueue(g, q, f, i, k), f)
  {
    var q' := PlacedQueue(g, q, f, i, k);
    var s, e := Max(Trimmed(q, f).offset, g[i].start), Min(End(f), g[k].end);
    assert g[0].start <= g[i].start && (i < k ==> g[i].end < g[k].start);
    forall o | o in q && o < g[0].start ensures o in q' && q'[o] == q[o] {
      if o in GapEnds(g, i, k) { GapEndsBounds(g, i, k, o); }
    }
    assert IsPiece(Slice(f, s, e), f);
    if s == e { assert i == k && s == g[i].end && !Covers(g, s); }
  }

  /** The frames that are deleted or overwritten end before the frame f. */
  lemma PlacedLater(g: seq<ByteInterval>, q: Queue, f: StreamFrame, i: nat, k: nat)
    requires Placed(g, q, f, i, k) && GapsOk(g) && Sound(q, g)
    ensures LaterKept(q, PlacedQueue(g, q, f, i, k), f)
  {
    var s := Max(Trimmed(q, f).offset, g[i].start);
    OverwritesNothing(g, q, f, i, k);
    assert g[i].start <= g[k].start < End(f) && s < End(f);
    forall o | o in q && (o in GapEnds(g, i, k) || o == s) ensures End(q[o]) < End(f) {
      if o in GapEnds(g, i, k) { EndBeforeNextGap(g, q, i, k, o); }
    }
  }

  /** A queued frame ends before a byte that is missing. */
  lemma EndsBefore(g: seq<ByteInterval>, q: Queue, o: nat, x: nat)
    requires Sound(q, g) && o in q && o <= x && Covers(g, x)
    ensures q[o].offset == o && End(q[o]) <= x
  {
  }

  /** Where the missing part is stored, no bytes are queued. */
  lemma OverwritesNothing(g: seq<ByteInterval>, q: Queue, f: StreamFrame, i: nat, k: nat)
    requires Placed(g, q, f, i, k) && GapsOk(g) && Sound(q, g)
    ensures var s := Max(Trimmed(q, f).offset, g[i].start); s in q ==> q[s].data == []
  {
    hide Sound;
    var s := Max(Trimmed(q, f).offset, g[i].start);
    if s < g[i].end {
      assert Covers(g, s) by { assert g[i].start <= s < g[i].end; }
      if s in q { EndsBefore(g, q, s, s); }
    } else {
      assert Covers(g, s - 1) by { assert g[i].start <= s - 1 < g[i].end; }
      if f.offset in q && f.offset < s { EndsBefore(g, q, f.offset, s - 1); }
    }
  }

  /** What is queued behind a gap ends at the next one at the latest. */
  lemma {:induction false} EndBeforeNextGap(g: seq<ByteInterval>, q: Queue, i: nat, k: nat, o: nat)
    requires i <= k < |g| && Canonical(g) && Sound(q, g) && o in q && o in GapEnds(g, i, k)
    ensures End(q[o]) <= g[k].start
  {
    if o == g[k - 1].end {
      assert Covers(g, g[k].start) by { assert g[k].start <= g[k].start < g[k].end; }
    } else {
      EndBeforeNextGap(g, q, i, k - 1, o);
    }
  }

  lemma PlacedTiles(g: seq<ByteInterval>, q: Queue, from: nat, f: StreamFrame, i: nat, k: nat)
    requires Placed(g, q, f, i, k) && GapsOk(g) && Sound(q, g) && Tiled(q, from, g) && from <= g[0].start
    ensures Tiled(PlacedQueue(g, q, f, i, k), from, Received(g, f))
  {
    var q' := PlacedQueue(g, q, f, i, k);
    var s, e := Max(Trimmed(q, f).offset, g[i].start), Min(End(f), g[k].end);
    PlacedGaps(g, q, f, i, k);
    PlacedInsideGap(g, q, from, f, i, k);
    assert s < e;
    forall o | o in q && (o < g[i].start || g[k].end <= o) ensures o in q' && q'[o] == q[o] {
      if o in GapEnds(g, i, k) { GapEndsBounds(g, i, k, o); }
    }
    StoreKeepsTiles(q, q', from, g, i, k, s, e);
  }

  /** The one frame that is new in the queue is the part of f from its first to its last missing byte. */
  ghost predicate GainsMissingPart(g: seq<ByteInterval>, q: Queue, q': Queue, f: StreamFrame) {
    exists s | s in q' :: IsMissingPart(g, f, s, q'[s]) && forall o | o in q' && o != s :: o in q && q'[o] == q[o]
  }

  ghost predicate IsMissingPart(g: seq<ByteInterval>, f: StreamFrame, s: nat, p: StreamFrame) {
    && p.offset == s < End(p) && IsPiece(p, f) && Covers(g, s) && Covers(g, End(p) - 1)
    && forall x | f.offset <= x < End(f) && !(s <= x < End(p)) :: !Covers(g, x)
  }

  lemma BesideMissingPart(g: seq<ByteInterval>, q: Queue, f: StreamFrame, i: nat, k: nat, x: nat)
    requires Placed(g, q, f, i, k) && GapsOk(g) && Sound(q, g) && f.offset <= x < End(f)
    requires x < Max(Trimmed(q, f).offset, g[i].start) || Min(End(f), g[k].end) <= x
    ensures !Covers(g, x)
  {
    if x < Trimmed(q, f).offset {
      assert f.offset in q;
    } else {
      ReachesEnds(g, Trimmed(q, f).offset, End(f), i, k, x);
    }
  }

  lemma PlacedIsMissingPart(g: seq<ByteInterval>, q: Queue, from: nat, f: StreamFrame, i: nat, k: nat)
    requires Placed(g, q, f, i, k) && GapsOk(g) && Sound(q, g) && Tiled(q, from, g)
    ensures !AllReceived(g, f) && GainsMissingPart(g, q, PlacedQueue(g, q, f, i, k), f)
  {
    var s, e := Max(Trimmed(q, f).offset, g[i].start), Min(End(f), g[k].end);
    PlacedInsideGap(g, q, from, f, i, k);
    assert Covers(g, s) by { assert g[i].start <= s < g[i].end; }
    assert Covers(g, e - 1) by { assert g[k].start <= e - 1 < g[k].end; }
    forall x | f.offset <= x < End(f) && !(s <= x < e) ensures !Covers(g, x) {
      BesideMissingPart(g, q, f, i, k, x);
    }
    var q' := PlacedQueue(g, q, f, i, k);
    assert s in q' && q'[s] == Slice(f, s, e);
    assert IsMissingPart(g, f, s, q'[s]);
  }

  /** The stored part of a frame reaches the end of the frame exactly when the last byte of the frame was missing. */
  lemma MissingPartEnd(g: seq<ByteInterval>, f: StreamFrame, s: nat, p: StreamFrame)
    requires f.data != [] && IsMissingPart(g, f, s, p)
    ensures End(p) == End(f) <==> Covers(g, End(f) - 1)
  {
  }

  /**
   What Push promises, for the gaps g and the queue q before it, g' and q' after it, and frames read up to `from`.
   On the last two results of the list the state is of no further use: the stream is closed.
   */
  ghost predicate Pushed(from: nat, g: seq<ByteInterval>, q: Queue, f: StreamFrame, r: PushResult,
    g': seq<ByteInterval>, q': Queue)
    requires g != []
  {
    // which result
    && r != NoGapFound
    && (r == EmptyData <==> f.data == [] && !f.fin)
    && (r == NoEndGapFound <==> f.data != [] && End(f) == MAX_BYTE_COUNT)
    && (r == Duplicate ==> f.data != [] && AllReceived(g, f))
    && (Tiled(q, from, g) && f.data != [] && AllReceived(g, f) ==> r == Duplicate)
    && (r == TooManyGaps <==> f.data != [] && r !in {Duplicate, NoEndGapFound} && |Received(g, f)| > MAX_GAPS)
    // the state
    && (r in {Stored, Duplicate, EmptyData} ==>
      g' == Received(g, f) && GapsOk(g') && Sound(q', g') && from <= g'[0].start)
    && (r in {EmptyData, Duplicate} ==> g' == g && q' == q)
    && (r == Stored && f.data == [] ==> q' == q[f.offset := f])
    && (r == Stored && f.data != [] ==> FrontKept(q, q', g) && LaterKept(q, q', f) && OnlyGainsPiece(g, q, q', f))
    && (r == Stored && f.data != [] && Tiled(q, from, g) ==> Tiled(q', from, g') && GainsMissingPart(g, q, q', f))
  }

  lemma StoredState(g: seq<ByteInterval>, q: Queue, from: nat, f: StreamFrame, i: nat, k: nat)
    requires Placed(g, q, f, i, k) && GapsOk(g) && Sound(q, g) && from <= g[0].start
    requires PlacedList(g, q, f, i, k) == Received(g, f)
    ensures |Received(g, f)| <= MAX_GAPS ==> Pushed(from, g, q, f, Stored, Received(g, f), PlacedQueue(g, q, f, i, k))
  {
    ReceivedGapsOk(g, f);
    var s, e := Max(Trimmed(q, f).offset, g[i].start), Min(End(f), g[k].end);
    PlacedSound(g, q, f, q - GapEnds(g, i, k), Slice(f, s, e));
    PlacedFront(g, q, f, i, k);
    PlacedLater(g, q, f, i, k);
    if Tiled(q, from, g) {
      PlacedTiles(g, q, from, f, i, k);
      PlacedIsMissingPart(g, q, from, f, i, k);
    }
  }

  lemma TooManyState(g: seq<ByteInterval>, q: Queue, from: nat, f: StreamFrame, i: nat, k: nat, g': seq<ByteInterval>,
    q': Queue)
    requires Placed(g, q, f, i, k) && GapsOk(g) && Sound(q, g) && from <= g[0].start
    requires |Received(g, f)| > MAX_GAPS
    ensures Pushed(from, g, q, f, TooManyGaps, g', q')
  {
    if Tiled(q, from, g) { PlacedIsMissingPart(g, q, from, f, i, k); }
  }

  lemma DuplicateState(g: seq<ByteInterval>, q: Queue, from: nat, f: StreamFrame)
    requires GapsOk(g) && Sound(q, g) && from <= g[0].start && f.data != [] && Repeated(g, q, f)
    ensures Pushed(from, g, q, f, Duplicate, g, q)
  {
    RepeatedIsDuplicate(g, q, f);
    NothingNew(g, f);
  }

  /** An empty frame is queued if it has FIN, whatever is there. */
  lemma EmptyState(g: seq<ByteInterval>, q: Queue, from: nat, f: StreamFrame)
    requires GapsOk(g) && Sound(q, g) && from <= g[0].start && f.data == []
    ensures if f.fin then Pushed(from, g, q, f, Stored, g, q[f.offset := f]) else Pushed(from, g, q, f, EmptyData, g, q)
  {
    hide Tiled, Canonical, Covers;
  }

  lemma NoEndGapState(g: seq<ByteInterval>, q: Queue, from: nat, f: StreamFrame, g': seq<ByteInterval>, q': Queue)
    requires GapsOk(g) && f.data != [] && End(f) == MAX_BYTE_COUNT
    ensures Pushed(from, g, q, f, NoEndGapFound, g', q')
  {
    var last := g[|g| - 1];
    assert Covers(g, End(f) - 1) by { assert last.start <= End(f) - 1 < last.end; }
  }

  lemma PopKeepsTiles(q: Queue, from: nat, g: seq<ByteInterval>)
    requires GapsOk(g) && Sound(q, g) && from <= g[0].start && from in q
    ensures from + |q[from].data| <= g[0].start
    ensures Tiled(q, from, g) ==> Tiled(q - {from}, from + |q[from].data|, g)
  {
    var n := |q[from].data|;
    assert from + n <= g[0].start by {
      if g[0].start < from + n { assert Covers(g, g[0].start); }
    }
    if Tiled(q, from, g) {
      var q' := q - {from};
      if n > 0 {
        assert Chain(q, from + n, g[0].start);
      }
      ChainFrame(q, q', from + n, g[0].start);
      RightUntouched(q, q', from, g, 0);
    }
  }

  class StreamFrameSorter {
    var queuedFrames: Queue
    var readPosition: nat
    var gaps: seq<ByteInterval>

    ghost predicate Valid()
      reads this
    {
      GapsOk(gaps) && Sound(queuedFrames, gaps) && readPosition <= gaps[0].start
    }

    constructor ()
      ensures Valid() && Tiled(queuedFrames, readPosition, gaps)
      ensures queuedFrames == map[] && readPosition == 0 && gaps == [ByteInterval(0, MAX_BYTE_COUNT)]
    {
      queuedFrames, readPosition, gaps := map[], 0, [ByteInterval(0, MAX_BYTE_COUNT)];
    }

    /** Skips the gaps before the frame [start, end). */
    static method FindGap(gaps: seq<ByteInterval>, start: nat, end: nat) returns (r: PushResult, i: nat)
      requires GapsOk(gaps) && start < end <= MAX_BYTE_COUNT
      ensures r == Stored || r == Duplicate
      ensures r == Stored ==>
        && i < |gaps| && start <= gaps[i].end && gaps[i].start < end
        && forall j | 0 <= j < i :: gaps[j].end < start
      ensures r == Duplicate ==> forall j | 0 <= j < |gaps| :: gaps[j].end < start || end <= gaps[j].start
    {
      i := 0;
      while i < |gaps|
        invariant i <= |gaps|
        invariant forall j | 0 <= j < i :: gaps[j].end < start
      {
        if end <= gaps[i].start {
          return Duplicate, i;
        }
        if end > gaps[i].start && start <= gaps[i].end {
          return Stored, i;
        }
        i := i + 1;
      }
      return NoGapFound, i;
    }

    /**
     Walks from gap i to gap k, the last one that starts before `end`, deleting the first frame queued in
     each received stretch on the way: the frame covers that stretch.
     */
    static method SwallowGaps(g: seq<ByteInterval>, q: Queue, i: nat, end: nat)
      returns (ok: bool, queue: Queue, k: nat)
      requires GapsOk(g) && i < |g| && g[i].start < end <= MAX_BYTE_COUNT
      ensures ok <==> end < MAX_BYTE_COUNT
      ensures i <= k < |g| && g[k].start < end && queue == q - GapEnds(g, i, k)
      ensures ok && end >= g[k].end ==> k + 1 < |g| && end <= g[k + 1].start
    {
      queue, k := q, i;
      while end >= g[k].end
        invariant i <= k < |g| && g[k].start < end && queue == q - GapEnds(g, i, k)
        decreases |g| - k
      {
        if k + 1 == |g| {
          return false, queue, k;
        }
        if end <= g[k + 1].start {
          break;
        }
        RemoveMore(q, GapEnds(g, i, k), g[k].end);
        queue := queue - {g[k].end};
        k := k + 1;
      }
      ok := true;
    }

    /**
     Shrinks, splits or removes the gaps i and k at the two ends of the stored frame [start, end); the gaps
     between them go, and so does gap k if the frame reaches its end.
     */
    static method AdjustGaps(g: seq<ByteInterval>, i: nat, k: nat, start: nat, end: nat)
      returns (list: seq<ByteInterval>)
      requires i <= k < |g| && g[i].start < g[i].end
      requires g[i].start <= start <= end <= g[k].end && start <= g[i].end
      requires if i == k then start < end || start == g[i].end else g[i].end < end
      ensures list == g[..i] + Piece(g[i].start, start) + Piece(end, g[k].end) + g[k + 1..]
    {
      var gap, endGap := g[i], g[k];
      var mid := if i < k && end < endGap.end then [gap, endGap] else [gap];
      var e := |mid| - 1;
      if start == gap.start {
        if end >= gap.end {
          mid := mid[1..];
          e := 0;
        }
        if end < endGap.end {
          mid := mid[e := ByteInterval(end, endGap.end)];
        }
      } else if end == endGap.end {
        mid := mid[0 := ByteInterval(gap.start, start)];
      } else if i == k {
        mid := [ByteInterval(gap.start, start), ByteInterval(end, gap.end)];
      } else {
        mid := mid[0 := ByteInterval(gap.start, start)];
        mid := mid[e := ByteInterval(end, endGap.end)];
      }
      assert mid == Piece(gap.start, start) + Piece(end, endGap.end);
      list := g[..i] + mid + g[k + 1..];
    }

    /**
     Cuts the frame down to the part that is stored and cuts that part out of the gaps; i and k are the first
     and the last gap it reaches.
     */
    static method Place(g: seq<ByteInterval>, q: Queue, frame: StreamFrame)
      returns (r: PushResult, list: seq<ByteInterval>, queue: Queue, piece: StreamFrame, ghost i: nat, ghost k: nat)
      requires GapsOk(g) && frame.data != [] && End(frame) <= MAX_BYTE_COUNT
      ensures r in {Stored, Duplicate, NoEndGapFound}
      ensures r == Duplicate ==> list == g && queue == q
      ensures r == Duplicate ==> forall j | 0 <= j < |g| :: g[j].end < frame.offset || End(frame) <= g[j].start
      ensures r == NoEndGapFound <==> End(frame) == MAX_BYTE_COUNT
      ensures r == Stored ==>
        && Reaches(g, frame.offset, End(frame), i, k) && queue == q - GapEnds(g, i, k)
        && piece == Slice(frame, Max(frame.offset, g[i].start), Min(End(frame), g[k].end))
        && (End(piece) == g[k].end ==> k + 1 < |g|)
        && list == g[..i] + Piece(g[i].start, piece.offset) + Piece(End(piece), g[k].end) + g[k + 1..]
    {
      list, queue, piece, k := g, q, frame, 0;
      var start, end := frame.offset, End(frame);
      var found, first := FindGap(g, start, end);
      i := first;
      if found != Stored {
        return found, list, queue, piece, i, k;
      }
      if start < g[first].start {
        start := g[first].start;
      }
      var ok, remaining, last := SwallowGaps(g, q, first, end);
      queue, k := remaining, last;
      if !ok {
        list := g[..first + 1] + g[Max(last, first + 1)..];
        return NoEndGapFound, list, queue, piece, i, k;
      }
      GapsReached(g, frame.offset, end, first, last);
      if end > g[last].end {
        end := g[last].end;
      }
      piece := Slice(frame, start, end);
      list := AdjustGaps(g, first, last, start, end);
      r := Stored;
    }

    /** Where a frame with data goes: the new gaps and the new queue. */
    static method Insert(g: seq<ByteInterval>, q: Queue, f: StreamFrame)
      returns (r: PushResult, list: seq<ByteInterval>, queue: Queue, ghost i: nat, ghost k: nat)
      requires GapsOk(g) && f.data != [] && End(f) <= MAX_BYTE_COUNT
      ensures r in {Stored, Duplicate, TooManyGaps, NoEndGapFound}
      ensures r == NoEndGapFound ==> End(f) == MAX_BYTE_COUNT
      ensures r == Duplicate ==> Repeated(g, q, f) && list == g && queue == q
      ensures r == Stored || r == TooManyGaps ==> Placed(g, q, f, i, k) && list == PlacedList(g, q, f, i, k)
      ensures r == Stored ==> |list| <= MAX_GAPS && queue == PlacedQueue(g, q, f, i, k)
      ensures r == TooManyGaps ==> |list| > MAX_GAPS
    {
      var frame := f;
      if f.offset in q {
        if |f.data| <= |q[f.offset].data| {
          return Duplicate, g, q, 0, 0;
        }
        frame := Slice(f, f.offset + |q[f.offset].data|, End(f));
      }
      assert frame == Trimmed(q, f);
      var piece;
      r, list, queue, piece, i, k := Place(g, q, frame);
      if r == Stored {
        PieceOfTrimmed(q, f, piece.offset, End(piece));
        assert Placed(g, q, f, i, k);
        if |list| > MAX_GAPS {
          return TooManyGaps, list, queue, i, k;
        }
        queue := queue[piece.offset := piece];
      }
    }

    /**
     Queues a frame. The list of gaps loses exactly the bytes of the frame, and the part of the frame that was
     missing becomes a live frame.
     */
    method Push(frame: StreamFrame) returns (r: PushResult)
      requires Valid() && End(frame) <= MAX_BYTE_COUNT
      modifies this`gaps, this`queuedFrames
      ensures Pushed(readPosition, old(gaps), old(queuedFrames), frame, r, gaps, queuedFrames)
    {
      hide Pushed, Sound, Tiled, Canonical, Subtract, Covers, Repeated, PlacedList, PlacedQueue, Placed, Received;
      if frame.data == [] {
        EmptyState(gaps, queuedFrames, readPosition, frame);
        if frame.fin {
          queuedFrames := queuedFrames[frame.offset := frame];
          return Stored;
        }
        return EmptyData;
      }
      ghost var g, q := gaps, queuedFrames;
      ghost var i, k;
      var list, queue;
      r, list, queue, i, k := Insert(gaps, queuedFrames, frame);
      gaps, queuedFrames := list, queue;
      match r {
        case Duplicate => DuplicateState(g, q, readPosition, frame);
        case NoEndGapFound => NoEndGapState(g, q, readPosition, frame, gaps, queuedFrames);
        case TooManyGaps =>
          PlacedGaps(g, q, frame, i, k);
          TooManyState(g, q, readPosition, frame, i, k, gaps, queuedFrames);
        case _ =>
          PlacedGaps(g, q, frame, i, k);
          StoredState(g, q, readPosition, frame, i, k);
      }
    }

    function Head(): (f: Option<StreamFrame>)
      reads this
    {
      if readPosition in queuedFrames then Some(queuedFrames[readPosition]) else None
    }

    /** Takes the frame at the read position off the queue. */
    method Pop() returns (f: Option<StreamFrame>)
      requires Valid()
      modifies this`readPosition, this`queuedFrames
      ensures f == old(Head()) && Valid()
      ensures f == None ==> readPosition == old(readPosition) && queuedFrames == old(queuedFrames)
      ensures f.Some? ==>
        && readPosition == old(readPosition) + |f.value.data|
        && queuedFrames == old(queuedFrames) - {old(readPosition)}
      ensures old(Tiled(queuedFrames, readPosition, gaps)) ==> Tiled(queuedFrames, readPosition, gaps)
    {
      f := Head();
      if f.Some? {
        PopKeepsTiles(queuedFrames, readPosition, gaps);
        readPosition := readPosition + |f.value.data|;
        queuedFrames := queuedFrames - {f.value.offset};
      }
    }
  }
}
