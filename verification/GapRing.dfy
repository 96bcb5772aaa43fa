/**
 The gap list of the stream frame sorter as it is: a ring that is walked, edited in place and shortened
 (stream_frame_sorter.go). What happens to it is what FrameSorter does to the sequence of its values.
 */
module GapRing {
  import opened Common
  import opened ByteIntervals
  import opened FrameSorter
  import opened RingList

  /** Skips the gaps before the frame [start, end); the gap found is the i-th. */
  method FindGap(l: List, start: nat, end: nat) returns (found: bool, gap: Element?, ghost i: nat)
    requires l.Valid() && GapsOk(l.Contents()) && start < end <= MAX_BYTE_COUNT
    ensures found ==>
      && i < |l.nodes| && gap == l.nodes[i] && start <= l.Contents()[i].end && l.Contents()[i].start < end
      && forall j | 0 <= j < i :: l.Contents()[j].end < start
    ensures !found ==> forall j | 0 <= j < |l.nodes| :: l.Contents()[j].end < start || end <= l.Contents()[j].start
  {
    hide Linked, RingList.Distinct, Values;
    ghost var g := l.Contents();
    gap := l.Front();
    i := 0;
    while gap != null
      invariant 0 <= i <= |l.nodes| && gap == if i < |l.nodes| then l.nodes[i] else null
      invariant forall j | 0 <= j < i :: g[j].end < start
      decreases |l.nodes| - i
    {
      ValueAt(l.nodes, i);
      assert gap in l.nodes;
      if end <= gap.value.start {
        Later(g, i, end);
        return false, null, i;
      }
      if end > gap.value.start && start <= gap.value.end {
        return true, gap, i;
      }
      gap := gap.Next(i);
      i := i + 1;
    }
    found := false;
  }

  lemma Later(g: seq<ByteInterval>, i: nat, end: nat)
    requires GapsOk(g) && i < |g| && end <= g[i].start
    ensures forall j | i <= j < |g| :: end <= g[j].start
  {
  }

  /**
   What is left of the list when the gaps after gap i up to gap k are removed, and gap k if the frame reaches its end.
   */
  ghost function FirstLeft(g: seq<ByteInterval>, i: nat, k: nat, end: nat): (n: nat)
    requires i <= k < |g|
    ensures i + 1 <= n <= |g|
  {
    if k > i && end >= g[k].end then k + 1 else Max(k, i + 1)
  }

  /**
   Walks from gap i to gap k, the last one that starts before `end`, and removes the gaps on the way and the frames
   queued behind them.
   */
  method SwallowGaps(l: List, q: Queue, gap: Element, ghost i: nat, end: nat)
    returns (ok: bool, queue: Queue, endGap: Element, ghost k: nat)
    requires l.Valid() && i < |l.nodes| && gap == l.nodes[i] && GapsOk(l.Contents())
    requires l.Contents()[i].start < end <= MAX_BYTE_COUNT
    modifies l`len, l`nodes, l.root`next, l.root`prev, l.nodes`next, l.nodes`prev, l.nodes`list
    ensures l.Valid() && (ok <==> end < MAX_BYTE_COUNT)
    ensures i <= k < |old(l.nodes)| && endGap == old(l.nodes)[k]
    ensures var g := old(l.Contents());
      g[k].start < end && queue == q - GapEnds(g, i, k)
        && (ok && end >= g[k].end ==> k + 1 < |g| && end <= g[k + 1].start)
    ensures ok ==> Shortened(old(l.nodes), old(l.Contents()), l.nodes, l.Contents(), i,
      FirstLeft(old(l.Contents()), i, k, end))
  {
    hide Linked, RingList.Distinct, Values, Shortened, GapsOk, List.Valid, GapEnds;
    ghost var g, ns := l.Contents(), l.nodes;
    queue, endGap, k, ok := q, gap, i, true;
    NothingRemoved(l, i);
    EmptyEnds(g, q, i);
    while end >= endGap.value.end
      invariant l.Valid() && i <= k < |ns| == |g| && endGap == ns[k] && g[k].start < end
      invariant queue == q - GapEnds(g, i, k)
      invariant Shortened(ns, g, l.nodes, l.Contents(), i, Max(k, i + 1))
      invariant forall j | 0 <= j < |ns| :: ns[j].value == g[j]
      decreases |g| - k
    {
      LastGapEnds(g, k, end);
      ghost var here := if k == i then i else i + 1;
      Present(l, ns, g, i, k);
      var nextEndGap := endGap.Next(here);
      if nextEndGap == null {
        return false, queue, endGap, k;
      }
      if endGap != gap {
        RemoveAt(l, endGap, ns, g, i, k);
      }
      if end <= nextEndGap.value.start {
        break;
      }
      MoreEnds(g, q, i, k);
      queue := queue - {endGap.value.end};
      endGap, k := nextEndGap, k + 1;
    }
    if end < g[k].end { NoMoreGaps(g, k, end); }
  }

  /** The nodes after node i up to node n are gone. */
  ghost predicate Shortened(ns: seq<Element>, g: seq<ByteInterval>, nodes: seq<Element>, contents: seq<ByteInterval>,
    i: nat, n: nat) {
    |g| == |ns| && i < n <= |ns| && nodes == ns[..i + 1] + ns[n..] && contents == g[..i + 1] + g[n..]
  }

  lemma NothingRemoved(l: List, i: nat)
    requires l.Valid() && i < |l.nodes|
    ensures Shortened(l.nodes, l.Contents(), l.nodes, l.Contents(), i, i + 1)
    ensures forall j | 0 <= j < |l.nodes| :: l.nodes[j].value == l.Contents()[j]
  {
    forall j | 0 <= j < |l.nodes| ensures l.nodes[j].value == l.Contents()[j] { ValueAt(l.nodes, j); }
    assert l.nodes == l.nodes[..i + 1] + l.nodes[i + 1..]
      && l.Contents() == l.Contents()[..i + 1] + l.Contents()[i + 1..];
  }

  lemma EmptyEnds(g: seq<ByteInterval>, q: Queue, i: nat)
    requires i <= |g|
    ensures q == q - GapEnds(g, i, i)
  {
  }

  lemma MoreEnds(g: seq<ByteInterval>, q: Queue, i: nat, k: nat)
    requires i <= k < |g|
    ensures (q - GapEnds(g, i, k)) - {g[k].end} == q - GapEnds(g, i, k + 1)
  {
    RemoveMore(q, GapEnds(g, i, k), g[k].end);
  }

  /** Node k and what follows it are still in the list. */
  lemma Present(l: List, ns: seq<Element>, g: seq<ByteInterval>, i: nat, k: nat)
    requires l.Valid() && i <= k < |ns| && Shortened(ns, g, l.nodes, l.Contents(), i, Max(k, i + 1))
    ensures var here := if k == i then i else i + 1;
      && here < |l.nodes| && l.nodes[here] == ns[k] && ns[k].list == l && (k != i ==> ns[k] != ns[i])
      && (if k + 1 < |ns| then here + 1 < |l.nodes| && l.nodes[here + 1] == ns[k + 1] else here + 1 == |l.nodes|)
  {
    var here := if k == i then i else i + 1;
    assert ns[k] in l.nodes;
    if k != i {
      l.Neighbours(here);
      assert l.nodes[i] == ns[i];
    }
  }

  /** Removes node k, which follows node i. */
  method RemoveAt(l: List, e: Element, ghost ns: seq<Element>, ghost g: seq<ByteInterval>, ghost i: nat, ghost k: nat)
    requires l.Valid() && i < k < |ns| && e == ns[k] && Shortened(ns, g, l.nodes, l.Contents(), i, k)
    modifies l`len, l`nodes, l.root`next, l.root`prev, ns`next, ns`prev, ns`list
    ensures l.Valid() && Shortened(ns, g, l.nodes, l.Contents(), i, k + 1)
  {
    hide Linked, RingList.Distinct, Values, List.Valid;
    Present(l, ns, g, i, k);
    OnlyThere(l, i + 1);
    ghost var nodes, contents := l.nodes, l.Contents();
    var _ := l.Remove(e);
    DropOne(ns, nodes, i, k);
    DropOne(g, contents, i, k);
  }

  lemma DropOne<T>(ns: seq<T>, nodes: seq<T>, i: nat, k: nat)
    requires i < k < |ns| && nodes == ns[..i + 1] + ns[k..]
    ensures nodes[..i + 1] + nodes[i + 2..] == ns[..i + 1] + ns[k + 1..]
  {
  }

  lemma NoMoreGaps(g: seq<ByteInterval>, k: nat, end: nat)
    requires GapsOk(g) && k < |g| && end < g[k].end
    ensures end < MAX_BYTE_COUNT
  {
  }

  lemma LastGapEnds(g: seq<ByteInterval>, k: nat, end: nat)
    requires GapsOk(g) && k < |g| && g[k].end <= end <= MAX_BYTE_COUNT
    ensures k + 1 == |g| <==> end == MAX_BYTE_COUNT && g[k].end == end
    ensures k + 1 < |g| && end <= g[k + 1].start ==> end < MAX_BYTE_COUNT
  {
  }

  lemma OwnNode(l: List, i: nat)
    requires l.Valid() && i < |l.nodes|
    ensures l.nodes[i].list == l && l.nodes[i] in l.nodes
  {
  }

  lemma OnlyThere(l: List, k: nat)
    requires l.Valid() && k < |l.nodes|
    ensures l.IndexOf(l.nodes[k]) == k
  {
    l.Neighbours(k);
  }

  /**
   Shrinks, splits or removes the gaps at the two ends of the stored frame [start, end). The first one is the i-th of
   the list; the last one is the same, or the next one, or gone already because the frame reaches its end.
   */
  method AdjustGaps(l: List, gap: Element, endGap: Element, ghost ns: seq<Element>, ghost i: nat, start: nat, end: nat)
    requires l.Valid() && (forall j | 0 <= j < |l.nodes| :: l.nodes[j] in ns) && i < |l.nodes| && gap == l.nodes[i]
      && gap.value.start < gap.value.end
    requires gap.value.start <= start <= gap.value.end && start <= end <= endGap.value.end
    requires if endGap == gap then start < end || start == gap.value.end else gap.value.end < end
    requires endGap != gap ==>
      if end < endGap.value.end then i + 1 < |l.nodes| && endGap == l.nodes[i + 1] else endGap !in l.nodes
    modifies l`len, l`nodes, l.root`next, l.root`prev, ns`next, ns`prev, ns`list, ns`value
    ensures l.Valid()
    ensures var g := old(l.Contents()); var n := if old(endGap in l.nodes) && endGap != gap then i + 2 else i + 1;
      l.Contents() == g[..i] + Piece(old(gap.value.start), start) + Piece(end, old(endGap.value.end)) + g[n..]
  {
    hide Linked, RingList.Distinct, Values, List.Valid;
    NothingRemoved(l, i);
    OwnNode(l, i);
    if start == gap.value.start {
      AdjustFront(l, gap, endGap, ns, i, end);
      NoPiece(old(l.Contents())[..i], start);
    } else if end == endGap.value.end {
      NoPiece(l.Contents()[..i] + Piece(gap.value.start, start), end);
      Splices(l.Contents(), i, ByteInterval(gap.value.start, start), ByteInterval(0, 0));
      l.SetValue(gap, ByteInterval(gap.value.start, start), i);
    } else {
      AdjustInside(l, gap, endGap, ns, i, start, end);
    }
  }

  lemma NoPiece(g: seq<ByteInterval>, x: nat)
    ensures g + Piece(x, x) == g
  {
  }

  /** The frame lies inside one gap, which it splits, or reaches from inside one gap into another one. */
  method AdjustInside(l: List, gap: Element, endGap: Element, ghost ns: seq<Element>, ghost i: nat, start: nat,
    end: nat)
    requires l.Valid() && (forall j | 0 <= j < |l.nodes| :: l.nodes[j] in ns) && i < |l.nodes| && gap == l.nodes[i]
      && l.Contents()[i] == gap.value
    requires endGap != gap ==> i + 1 < |l.nodes| && endGap == l.nodes[i + 1]
    modifies l`len, l`nodes, l.root`next, l.root`prev, ns`next, ns`prev, ns`value
    ensures l.Valid()
    ensures var g := old(l.Contents());
      l.Contents() == g[..i] + [ByteInterval(old(gap.value.start), start)] + [ByteInterval(end, old(endGap.value.end))]
        + g[if endGap == gap then i + 1 else i + 2..]
  {
    hide Linked, RingList.Distinct, Values, List.Valid;
    OwnNode(l, i);
    Splices(l.Contents(), i, ByteInterval(gap.value.start, start), ByteInterval(end, endGap.value.end));
    if gap == endGap {
      OnlyThere(l, i);
      var _ := l.InsertAfter(ByteInterval(end, gap.value.end), gap);
      l.SetValue(gap, ByteInterval(gap.value.start, start), i);
    } else {
      l.SetValue(gap, ByteInterval(gap.value.start, start), i);
      l.SetValue(endGap, ByteInterval(end, endGap.value.end), i + 1);
    }
  }

  /** The frame begins where the gap begins. */
  method AdjustFront(l: List, gap: Element, endGap: Element, ghost ns: seq<Element>, ghost i: nat, end: nat)
    requires l.Valid() && (forall j | 0 <= j < |l.nodes| :: l.nodes[j] in ns) && i < |l.nodes| && gap == l.nodes[i]
      && l.Contents()[i] == gap.value && gap.value.start < gap.value.end
    requires gap.value.start <= end <= endGap.value.end && (endGap != gap ==> gap.value.end < end)
    requires endGap != gap ==>
      if end < endGap.value.end then i + 1 < |l.nodes| && endGap == l.nodes[i + 1] else endGap !in l.nodes
    modifies l`len, l`nodes, l.root`next, l.root`prev, ns`next, ns`prev, ns`list, ns`value
    ensures l.Valid()
    ensures var g := old(l.Contents()); var n := if old(endGap in l.nodes) && endGap != gap then i + 2 else i + 1;
      l.Contents() == g[..i] + Piece(end, old(endGap.value.end)) + g[n..]
  {
    hide Linked, RingList.Distinct, Values, List.Valid;
    ghost var before := l.nodes;
    OwnNode(l, i);
    Splices(l.Contents(), i, gap.value, ByteInterval(end, endGap.value.end));
    if end >= gap.value.end {
      OnlyThere(l, i);
      var _ := l.Remove(gap);
      assert i + 1 < |before| ==> l.nodes[i] == before[i + 1];
    }
    if end < endGap.value.end {
      l.SetValue(endGap, ByteInterval(end, endGap.value.end), i);
    }
  }

  /** The edits of the list, as splices. */
  lemma Splices(g: seq<ByteInterval>, i: nat, a: ByteInterval, b: ByteInterval)
    requires i < |g|
    ensures g[..i] + g[i + 1..] == g[..i] + [] + g[i + 1..]
    ensures i + 1 < |g| ==> (g[..i] + g[i + 1..])[i := b] == g[..i] + [b] + g[i + 2..]
    ensures g[i := b] == g[..i] + [b] + g[i + 1..]
    ensures (g[..i + 1] + [b] + g[i + 1..])[i := a] == g[..i] + [a] + [b] + g[i + 1..]
    ensures i + 1 < |g| ==> g[i := a][i + 1 := b] == g[..i] + [a] + [b] + g[i + 2..]
  {
  }

  /** Adjusts the gaps i and k of the list as it was before the gaps between them were removed. */
  method Settle(l: List, gap: Element, endGap: Element, ghost ns: seq<Element>, ghost g: seq<ByteInterval>,
    ghost i: nat, ghost k: nat, start: nat, end: nat)
    requires l.Valid() && RingList.Distinct(ns) && i <= k < |ns| == |g| && gap == ns[i] && endGap == ns[k]
      && gap.value == g[i] && endGap.value == g[k]
    requires Shortened(ns, g, l.nodes, l.Contents(), i, FirstLeft(g, i, k, end))
    requires g[i].start < g[i].end && g[i].start <= start <= g[i].end && start <= end <= g[k].end
    requires if i == k then start < end || start == g[i].end else g[i].end < end
    modifies l`len, l`nodes, l.root`next, l.root`prev, ns`next, ns`prev, ns`list, ns`value
    ensures l.Valid() && l.Contents() == g[..i] + Piece(g[i].start, start) + Piece(end, g[k].end) + g[k + 1..]
  {
    hide Linked, RingList.Distinct, Values, List.Valid, Shortened;
    AfterSwallowing(ns, g, l.nodes, l.Contents(), i, k, end);
    AdjustGaps(l, gap, endGap, ns, i, start, end);
  }

  /**
   Cuts the frame down to the part that is stored and cuts that part out of the gaps: the ring gets the gaps that
   FrameSorter.StreamFrameSorter.Place computes for the sequence of its values.
   */
  method Place(l: List, q: Queue, frame: StreamFrame)
    returns (r: PushResult, queue: Queue, piece: StreamFrame, ghost i: nat, ghost k: nat)
    requires l.Valid() && GapsOk(l.Contents()) && frame.data != [] && End(frame) <= MAX_BYTE_COUNT
    modifies l`len, l`nodes, l.root`next, l.root`prev, l.nodes`next, l.nodes`prev, l.nodes`list, l.nodes`value
    ensures l.Valid() && r in {Stored, Duplicate, NoEndGapFound}
    ensures r == Duplicate ==> l.Contents() == old(l.Contents()) && queue == q
    ensures var g := old(l.Contents()); r == Duplicate ==>
      forall j | 0 <= j < |g| :: g[j].end < frame.offset || End(frame) <= g[j].start
    ensures r == NoEndGapFound <==> End(frame) == MAX_BYTE_COUNT
    ensures r == Stored ==> CutOut(old(l.Contents()), q, frame, l.Contents(), queue, piece, i, k)
  {
    hide Linked, RingList.Distinct, Values, List.Valid, GapEnds, Shortened, GapsOk, FirstLeft, List.Chain, CutOut;
    queue, piece, k := q, frame, 0;
    ghost var g, ns := l.Contents(), l.nodes;
    var found, gap;
    found, gap, i := FindGap(l, frame.offset, End(frame));
    if !found {
      BeforeLastGap(g, frame.offset, End(frame));
      return Duplicate, queue, piece, i, k;
    }
    NothingRemoved(l, i);
    DistinctNodes(l);
    var ok, endGap;
    ok, queue, endGap, k := SwallowGaps(l, q, gap, i, End(frame));
    if !ok {
      return NoEndGapFound, queue, piece, i, k;
    }
    Reached(g, frame.offset, End(frame), i, k);
    piece := CutFrame(l, q, frame, gap, endGap, ns, g, i, k);
    r := Stored;
  }

  lemma Reached(g: seq<ByteInterval>, s: nat, e: nat, i: nat, k: nat)
    requires GapsOk(g) && i <= k < |g| && s < e && (forall j | 0 <= j < i :: g[j].end < s) && s <= g[i].end
      && g[k].start < e
    requires e < g[k].end || (k + 1 < |g| && e <= g[k + 1].start)
    ensures Reaches(g, s, e, i, k) && e < MAX_BYTE_COUNT
  {
    GapsReached(g, s, e, i, k);
    assert g[k].end <= g[|g| - 1].end && (k + 1 < |g| ==> g[k + 1].start < g[|g| - 1].end);
  }

  /** A frame that is apart from all gaps does not end at the largest byte count, where the last gap ends. */
  lemma BeforeLastGap(g: seq<ByteInterval>, s: nat, e: nat)
    requires GapsOk(g) && s < e <= MAX_BYTE_COUNT && forall j | 0 <= j < |g| :: g[j].end < s || e <= g[j].start
    ensures e < MAX_BYTE_COUNT
  {
    var last := g[|g| - 1];
    assert last.start < last.end == MAX_BYTE_COUNT;
  }

  /** The part of the frame from gap i to gap k is cut out of them. */
  method CutFrame(l: List, ghost q: Queue, frame: StreamFrame, gap: Element, endGap: Element, ghost ns: seq<Element>,
    ghost g: seq<ByteInterval>,
    ghost i: nat, ghost k: nat)
    returns (piece: StreamFrame)
    requires l.Valid() && RingList.Distinct(ns) && i <= k < |ns| == |g| && gap == ns[i] && endGap == ns[k]
      && gap.value == g[i] && endGap.value == g[k]
    requires Shortened(ns, g, l.nodes, l.Contents(), i, FirstLeft(g, i, k, End(frame)))
      && Reaches(g, frame.offset, End(frame), i, k)
    modifies l`len, l`nodes, l.root`next, l.root`prev, ns`next, ns`prev, ns`list, ns`value
    ensures l.Valid() && CutOut(g, q, frame, l.Contents(), q - GapEnds(g, i, k), piece, i, k)
  {
    hide Linked, RingList.Distinct, Values, List.Valid, GapEnds, Shortened, Reaches, Slice, FirstLeft, List.Chain,
      CutOut;
    var start, end := frame.offset, End(frame);
    if start < gap.value.start {
      start := gap.value.start;
    }
    SameLeft(g, i, k, end);
    if end > endGap.value.end {
      end := endGap.value.end;
    }
    Between(g, i, k, frame.offset, start, End(frame), end);
    piece := Slice(frame, start, end);
    Settle(l, gap, endGap, ns, g, i, k, start, end);
    IsCutOut(g, q, frame, l.Contents(), q - GapEnds(g, i, k), piece, i, k, start, end);
  }

  /** What Place does to the list of gaps g and to the queue. */
  ghost predicate CutOut(g: seq<ByteInterval>, q: Queue, frame: StreamFrame, list: seq<ByteInterval>, queue: Queue,
    piece: StreamFrame, i: nat, k: nat) {
    && Reaches(g, frame.offset, End(frame), i, k) && queue == q - GapEnds(g, i, k)
    && var s, e := Max(frame.offset, g[i].start), Min(End(frame), g[k].end);
    && s <= e && piece == Slice(frame, s, e) && list == g[..i] + Piece(g[i].start, s) + Piece(e, g[k].end) + g[k + 1..]
  }

  lemma IsCutOut(g: seq<ByteInterval>, q: Queue, frame: StreamFrame, list: seq<ByteInterval>, queue: Queue,
    piece: StreamFrame,
    i: nat, k: nat, start: nat, end: nat)
    requires Reaches(g, frame.offset, End(frame), i, k) && queue == q - GapEnds(g, i, k)
    requires start == Max(frame.offset, g[i].start) <= end == Min(End(frame), g[k].end)
      && piece == Slice(frame, start, end)
    requires list == g[..i] + Piece(g[i].start, start) + Piece(end, g[k].end) + g[k + 1..]
    ensures CutOut(g, q, frame, list, queue, piece, i, k)
  {
  }

  /** Cutting the end of the frame changes nothing in what is left of the list. */
  lemma SameLeft(g: seq<ByteInterval>, i: nat, k: nat, end: nat)
    requires i <= k < |g|
    ensures FirstLeft(g, i, k, end) == FirstLeft(g, i, k, Min(end, g[k].end))
  {
  }

  lemma Between(g: seq<ByteInterval>, i: nat, k: nat, from: nat, start: nat, to: nat, end: nat)
    requires Reaches(g, from, to, i, k) && start == Max(from, g[i].start) && end == Min(to, g[k].end)
    ensures g[i].start < g[i].end && start <= g[i].end && start <= end
    ensures if i == k then start < end || start == g[i].end else g[i].end < end
  {
  }

  lemma DistinctNodes(l: List)
    requires l.Valid()
    ensures RingList.Distinct(l.nodes)
  {
    forall a, b | 0 <= a < b < |l.nodes| ensures l.nodes[a] != l.nodes[b] { l.Neighbours(a); }
  }

  /** Where the first and the last gap are in what is left of the list. */
  lemma AfterSwallowing(ns: seq<Element>, g: seq<ByteInterval>, nodes: seq<Element>, c: seq<ByteInterval>, i: nat,
    k: nat, end: nat)
    requires RingList.Distinct(ns) && i <= k < |ns| == |g| && Shortened(ns, g, nodes, c, i, FirstLeft(g, i, k, end))
    ensures (forall j | 0 <= j < |nodes| :: nodes[j] in ns) && i < |nodes| && nodes[i] == ns[i]
      && (ns[k] == ns[i] <==> k == i) && c[..i] == g[..i]
    ensures k != i ==> if end < g[k].end then i + 1 < |nodes| && nodes[i + 1] == ns[k] else ns[k] !in nodes
    ensures c[if ns[k] in nodes && k != i then i + 2 else i + 1..] == g[k + 1..]
  {
  }
}
