/**
 The blocks of an ACK frame (frames/ack_frame.go). Each range after the first is sent as the gap in front of it and
 its length. A gap is one byte, so a longer gap is sent as several blocks: all but the last have gap 255 and length 0.
 */
module AckBlocks {
  import opened Common
  import opened Sequences
  import opened AckFrames

  datatype Block = Block(gap: byte, length: nat)

  // ---------- writing ----------

  /** The number of blocks for a gap, as Write and numWritableNackRanges compute it. */
  function NumBlocks(gap: nat): (n: nat)
    ensures gap > 0 ==> n >= 1 && 255 * (n - 1) < gap <= 255 * n
  {
    if gap % 255 == 0 then gap / 255 else gap / 255 + 1
  }

  function GapBlocks(gap: nat, length: nat): (bs: seq<Block>)
  {
    if gap <= 255 then [Block(gap, length)] else [Block(255, 0)] + GapBlocks(gap - 255, length)
  }

  lemma {:induction false} GapBlocksCount(gap: nat, length: nat)
    requires gap > 0
    ensures |GapBlocks(gap, length)| == NumBlocks(gap)
  {
    if gap > 255 { GapBlocksCount(gap - 255, length); }
  }

  /** The packets missing between range i - 1 and range i. */
  function Gap(rs: seq<AckRange>, i: nat): (g: nat)
    requires Descending(rs) && 0 < i < |rs|
    ensures g > 0
  {
    rs[i - 1].first - rs[i].last - 1
  }

  function Length(r: AckRange): nat
    requires r.first <= r.last
  {
    r.last - r.first + 1
  }

  /** The blocks for the first k ranges; the first range is not sent as a block. */
  function BlocksUpTo(rs: seq<AckRange>, k: nat): (bs: seq<Block>)
    requires Descending(rs) && k <= |rs|
  {
    if k <= 1 then [] else BlocksUpTo(rs, k - 1) + GapBlocks(Gap(rs, k - 1), Length(rs[k - 1]))
  }

  function BlockCount(rs: seq<AckRange>, k: nat): nat
    requires Descending(rs) && k <= |rs|
  {
    |BlocksUpTo(rs, k)|
  }

  /** How many ranges are written, if the first k fit: ranges are added while there are fewer than 255 blocks. */
  function KeptFrom(rs: seq<AckRange>, k: nat): (m: nat)
    requires Descending(rs) && 1 <= k <= |rs| && BlockCount(rs, k) < 0xFF
    ensures k <= m <= |rs| && BlockCount(rs, m) < 0xFF
    decreases |rs| - k
  {
    if k == |rs| || BlockCount(rs, k + 1) >= 0xFF then k else KeptFrom(rs, k + 1)
  }

  function Kept(rs: seq<AckRange>): nat
    requires Descending(rs) && rs != []
  {
    KeptFrom(rs, 1)
  }

  lemma {:induction false} BlockCountMono(rs: seq<AckRange>, k: nat, m: nat)
    requires Descending(rs) && 1 <= k <= m <= |rs|
    ensures BlockCount(rs, k) + (m - k) <= BlockCount(rs, m)
  {
    if k < m {
      BlockCountMono(rs, k, m - 1);
      GapBlocksCount(Gap(rs, m - 1), Length(rs[m - 1]));
    }
  }

  lemma {:induction false} KeptFromIsLongest(rs: seq<AckRange>, k: nat, m: nat)
    requires Descending(rs) && 1 <= k <= |rs| && BlockCount(rs, k) < 0xFF
    requires k <= m <= |rs|
    ensures BlockCount(rs, m) < 0xFF <==> m <= KeptFrom(rs, k)
    decreases |rs| - k
  {
    if k < m {
      BlockCountMono(rs, k + 1, m);
      if BlockCount(rs, k + 1) < 0xFF {
        KeptFromIsLongest(rs, k + 1, m);
      }
    }
  }

  /** The ranges that are written are the longest prefix whose blocks number less than 255. */
  lemma {:induction false} KeptIsLongest(rs: seq<AckRange>, m: nat)
    requires Descending(rs) && 1 <= m <= |rs|
    ensures BlockCount(rs, m) < 0xFF <==> m <= Kept(rs)
  {
    KeptFromIsLongest(rs, 1, m);
  }

  // ---------- reading ----------

  /**
   The variables of the loop in ParseAckFrame; `current` is the last element of the slice of ranges and `earlier`
   the rest of it.
   */
  datatype Reader = Reader(earlier: seq<AckRange>, current: AckRange, inLongBlock: bool, lastRangeComplete: bool)

  /** One block. All arithmetic is uint64. */
  function Feed(st: Reader, b: Block): Reader {
    if st.inLongBlock then
      Reader(st.earlier, AckRange(Wrap(st.current.first - (b.gap + b.length)), Wrap(st.current.last - b.gap)),
             b.length == 0, st.lastRangeComplete || b.length > 0)
    else
      var last := Wrap(st.current.first - b.gap - 1);
      Reader(st.earlier + [st.current], AckRange(Wrap(last - b.length + 1), last), b.length == 0, b.length > 0)
  }

  function FeedAll(st: Reader, bs: seq<Block>): (st': Reader)
    ensures st.earlier != [] || (bs != [] && !st.inLongBlock) ==> st'.earlier != []
    decreases |bs|
  {
    if bs == [] then st else FeedAll(Feed(st, bs[0]), bs[1..])
  }

  lemma {:induction false} FeedAllConcat(st: Reader, a: seq<Block>, b: seq<Block>)
    ensures FeedAll(st, a + b) == FeedAll(FeedAll(st, a), b)
    decreases |a|
  {
    if a == [] {
      assert a + b == b;
    } else {
      FeedAllConcat(Feed(st, a[0]), a[1..], b);
      assert (a + b)[0] == a[0] && (a + b)[1..] == a[1..] + b;
    }
  }

  /** The first range stays what it is. */
  lemma {:induction false} FeedAllKeepsFirst(st: Reader, bs: seq<Block>)
    ensures st.earlier != [] ==> FeedAll(st, bs).earlier != [] && FeedAll(st, bs).earlier[0] == st.earlier[0]
    ensures st.earlier == [] && bs != [] && !st.inLongBlock ==> FeedAll(st, bs).earlier[0] == st.current
    decreases |bs|
  {
    if bs != [] { FeedAllKeepsFirst(Feed(st, bs[0]), bs[1..]); }
  }

  lemma {:induction false} FeedGapBlocks(st: Reader, gap: nat, length: nat)
    ensures gap <= 255 ==> FeedAll(st, GapBlocks(gap, length)) == Feed(st, Block(gap, length))
    ensures gap > 255 ==>
      FeedAll(st, GapBlocks(gap, length)) == FeedAll(Feed(st, Block(255, 0)), GapBlocks(gap - 255, length))
  {
    var bs := GapBlocks(gap, length);
    if gap <= 255 {
      assert bs[1..] == [];
      assert FeedAll(Feed(st, bs[0]), []) == Feed(st, bs[0]);
    } else {
      assert bs[1..] == GapBlocks(gap - 255, length);
    }
  }

  /** In the middle of a long gap, the unfinished range is empty and slides down with each block. */
  lemma {:induction false} FinishLongGap(earlier: seq<AckRange>, at: nat, complete: bool, gap: nat, length: nat)
    requires 1 <= gap && 1 <= length && gap + length <= at + 1 < TWO_64
    ensures FeedAll(Reader(earlier, AckRange(at + 1, at), true, complete), GapBlocks(gap, length))
         == Reader(earlier, AckRange(at + 1 - gap - length, at - gap), false, true)
    decreases gap
  {
    FeedGapBlocks(Reader(earlier, AckRange(at + 1, at), true, complete), gap, length);
    if gap > 255 {
      FinishLongGap(earlier, at - 255, complete, gap - 255, length);
    }
  }

  /** The blocks of one range put that range back, however many there are. */
  lemma {:induction false} FeedRange(earlier: seq<AckRange>, prev: AckRange, complete: bool, gap: nat, length: nat)
    requires 1 <= gap && 1 <= length && gap + length <= prev.first < TWO_64
    ensures FeedAll(Reader(earlier, prev, false, complete), GapBlocks(gap, length))
         == Reader(earlier + [prev], AckRange(prev.first - gap - length, prev.first - gap - 1), false, true)
  {
    FeedGapBlocks(Reader(earlier, prev, false, complete), gap, length);
    if gap > 255 {
      FinishLongGap(earlier + [prev], prev.first - 256, false, gap - 255, length);
    }
  }

  /** Reading the blocks of the first k ranges gives back these ranges. */
  lemma {:induction false} FeedWritten(rs: seq<AckRange>, k: nat)
    requires Descending(rs) && 1 <= k <= |rs| && rs[0].last < TWO_64
    ensures FeedAll(Reader([], rs[0], false, false), BlocksUpTo(rs, k)) == Reader(rs[..k - 1], rs[k - 1], false, k > 1)
  {
    if k > 1 {
      FeedWritten(rs, k - 1);
      var prev, gap, length := rs[k - 2], Gap(rs, k - 1), Length(rs[k - 1]);
      FeedAllConcat(Reader([], rs[0], false, false), BlocksUpTo(rs, k - 1), GapBlocks(gap, length));
      assert prev.first <= prev.last <= rs[0].last;
      FeedRange(rs[..k - 2], prev, k - 1 > 1, gap, length);
      assert rs[..k - 2] + [prev] == rs[..k - 1];
    }
  }

  // ---------- reading bytes that nobody wrote ----------

  ghost predicate IsBlock(b: Block) {
    b.length < TWO_48
  }

  /**
   A range read after one that starts at f, modulo 2^64: it lies at most `reach` below, and holds fewer than 2^48
   packets. The subtractions may have wrapped around.
   */
  ghost predicate Follows(f: nat, r: AckRange, reach: nat) {
    && f < TWO_64 && r.first < TWO_64 && r.last < TWO_64
    && Wrap(f - 1 - r.last) <= reach && Wrap(r.last + 1 - r.first) < TWO_48
  }

  ghost predicate NonEmpty(r: AckRange) {
    r.first < TWO_64 && r.last < TWO_64 && 1 <= Wrap(r.last + 1 - r.first)
  }

  /** What holds of the loop's variables after n blocks, whatever these are. */
  ghost predicate Tracked(st: Reader, n: nat) {
    var all := st.earlier + [st.current];
    && n < 0x100
    && 1 <= all[0].first <= TWO_48 && all[0].first <= all[0].last < TWO_64
    && (forall i | 1 <= i < |all| :: Follows(all[i - 1].first, all[i], 255 * n))
    && (forall i | 1 <= i < |st.earlier| :: NonEmpty(st.earlier[i]))
    && (st.inLongBlock ==> st.earlier != [] && Wrap(st.current.last + 1 - st.current.first) == 0)
    && (!st.inLongBlock && st.earlier != [] ==> st.lastRangeComplete && NonEmpty(st.current))
    && (st.inLongBlock ==> !st.lastRangeComplete)
  }

  lemma {:induction false} FeedNewRange(st: Reader, b: Block, n: nat)
    requires Tracked(st, n) && IsBlock(b) && n + 1 < 0x100 && !st.inLongBlock
    ensures Tracked(Feed(st, b), n + 1)
  {
    var st' := Feed(st, b);
    var all, all' := st.earlier + [st.current], st'.earlier + [st'.current];
    assert all' == all + [st'.current];
    assert Follows(st.current.first, st'.current, 255 * (n + 1));
    forall i | 1 <= i < |all'| ensures Follows(all'[i - 1].first, all'[i], 255 * (n + 1)) {
      if i < |all| { assert Follows(all[i - 1].first, all[i], 255 * n); }
    }
  }

  lemma {:induction false} FeedLongBlock(st: Reader, b: Block, n: nat)
    requires Tracked(st, n) && IsBlock(b) && n + 1 < 0x100 && st.inLongBlock
    ensures Tracked(Feed(st, b), n + 1)
  {
    var st' := Feed(st, b);
    var all, all' := st.earlier + [st.current], st'.earlier + [st'.current];
    var k := |st.earlier|;
    assert Follows(all[k - 1].first, all[k], 255 * n);
    assert Follows(all'[k - 1].first, all'[k], 255 * (n + 1));
    forall i | 1 <= i < |all'| ensures Follows(all'[i - 1].first, all'[i], 255 * (n + 1)) {
      if i < k { assert all'[i] == all[i] && all'[i - 1] == all[i - 1]; }
    }
  }

  lemma {:induction false} FeedAllTracked(st: Reader, bs: seq<Block>, n: nat)
    requires Tracked(st, n) && n + |bs| < 0x100 && forall b | b in bs :: IsBlock(b)
    ensures Tracked(FeedAll(st, bs), n + |bs|)
    decreases |bs|
  {
    if bs != [] {
      if st.inLongBlock { FeedLongBlock(st, bs[0], n); } else { FeedNewRange(st, bs[0], n); }
      FeedAllTracked(Feed(st, bs[0]), bs[1..], n + 1);
    }
  }

  /** The checks on a range and the next one rule out that anything wrapped around between them. */
  lemma {:induction false} NoWrapAround(r: AckRange, next: AckRange, reach: nat)
    requires r.first <= TWO_48 && Follows(r.first, next, reach) && reach < 0x1_0000 && NonEmpty(next)
    requires next.first <= next.last && Below(r, next)
    ensures next.last + 1 < r.first
  {
  }

  ghost predicate Checked(r: AckRange, next: AckRange, reach: nat) {
    next.first <= next.last && Below(r, next) && Follows(r.first, next, reach) && NonEmpty(next)
  }

  lemma {:induction false} CheckedRanges(rs: seq<AckRange>, reach: nat, k: nat)
    requires 1 <= k <= |rs| && reach < 0x1_0000 && rs[0].first <= TWO_48 && rs[0].first <= rs[0].last
    requires forall i | 1 <= i < |rs| :: Checked(rs[i - 1], rs[i], reach)
    ensures Descending(rs[..k]) && rs[k - 1].first <= rs[0].first
  {
    hide Descending, Follows, Below, NonEmpty;
    if k == 1 {
      assert rs[..1] == [rs[0]];
      OneDescending(rs[0]);
    } else {
      CheckedRanges(rs, reach, k - 1);
      assert Checked(rs[k - 2], rs[k - 1], reach);
      NoWrapAround(rs[k - 2], rs[k - 1], reach);
      DescendingSnoc(rs[..k - 1], rs[k - 1]);
      assert rs[..k - 1] + [rs[k - 1]] == rs[..k];
    }
  }

  lemma OneDescending(r: AckRange)
    requires r.first <= r.last
    ensures Descending([r])
  {
  }

  lemma {:induction false} DescendingSnoc(rs: seq<AckRange>, r: AckRange)
    requires Descending(rs) && rs != [] && r.first <= r.last && r.last + 1 < rs[|rs| - 1].first
    ensures Descending(rs + [r])
  {
    var n := |rs| - 1;
    assert forall i | 0 <= i < n :: rs[n].last + 1 < rs[i].first;
  }
}
