/** ACK frames on the wire (frames/ack_frame.go). */
module AckCodec {
  import opened Common
  import opened Sequences
  import opened Wire
  import Float16
  import opened AckFrames
  import opened AckBlocks

  // ---------- lengths ----------

  /** 1, 2, 4 or 6 bytes, whatever the number needs (protocol/packet_number.go). */
  function NumberLen(n: nat): (l: nat)
    ensures l in {1, 2, 4, 6}
  {
    if n < 0x100 then 1 else if n < 0x1_0000 then 2 else if n < 0x1_0000_0000 then 4 else 6
  }

  lemma NumberLenFits(n: nat)
    requires n < TWO_48
    ensures n < Pow256(NumberLen(n))
  {
    PowValues();
  }

  /** The length of the longest of the first k ranges. */
  function MaxLength(rs: seq<AckRange>, k: nat): (m: nat)
    requires Descending(rs) && k <= |rs|
    ensures forall i | 0 <= i < k :: Length(rs[i]) <= m
    ensures k > 0 ==> exists i | 0 <= i < k :: Length(rs[i]) == m
  {
    if k == 0 then 0 else Max(MaxLength(rs, k - 1), Length(rs[k - 1]))
  }

  /** What Write is meant for: ordered ranges of packet numbers that are not 0 and fit in 6 bytes. */
  ghost predicate Ordered(f: AckFrame) {
    && 1 <= f.lowestAcked <= f.largestAcked < TWO_48
    && Descending(f.ackRanges)
    && forall i | 0 <= i < |f.ackRanges| :: 1 <= f.ackRanges[i].first && f.ackRanges[i].last < TWO_48
  }

  /** Bytes per range length. */
  function DeltaLen(f: AckFrame): (l: nat)
    requires Ordered(f)
    ensures l in {1, 2, 4, 6}
  {
    NumberLen(if HasMissingRanges(f) then MaxLength(f.ackRanges, |f.ackRanges|) else f.largestAcked - f.lowestAcked + 1)
  }

  // ---------- writing ----------

  function TypeByte(has: bool, largestLen: nat, deltaLen: nat): byte
    requires largestLen in {1, 2, 4, 6} && deltaLen in {1, 2, 4, 6}
  {
    0x40 + (if has then 0x20 else 0) + 4 * LenBits(largestLen) + LenBits(deltaLen)
  }

  lemma FieldsOf(h: nat, a: nat, b: nat)
    requires h < 2 && a < 4 && b < 4
    ensures var t := 0x40 + 0x20 * h + 4 * a + b; t / 0x40 == 1 && t / 0x20 % 2 == h && t / 4 % 4 == a && t % 4 == b
  {
    var t := 0x40 + 0x20 * h + 4 * a + b;
    assert t / 4 == 16 + 8 * h + a;
    assert t / 0x20 == 2 + h;
  }

  lemma TypeByteFields(has: bool, largestLen: nat, deltaLen: nat)
    requires largestLen in {1, 2, 4, 6} && deltaLen in {1, 2, 4, 6}
    ensures var t := TypeByte(has, largestLen, deltaLen);
      && t / 0x40 == 1 && t / 0x20 % 2 == (if has then 1 else 0)
      && LenFromBits(t / 4 % 4) == largestLen && LenFromBits(t % 4) == deltaLen
  {
    FieldsOf(if has then 1 else 0, LenBits(largestLen), LenBits(deltaLen));
  }

  ghost predicate Writable(bs: seq<Block>, deltaLen: nat) {
    forall b | b in bs :: b.length < Pow256(deltaLen)
  }

  function BlockBytes(bs: seq<Block>, deltaLen: nat): (out: seq<byte>)
    ensures |out| == (1 + deltaLen) * |bs|
  {
    if bs == [] then [] else [bs[0].gap] + ToBytes(bs[0].length, deltaLen) + BlockBytes(bs[1..], deltaLen)
  }

  lemma {:induction false} BlockBytesConcat(a: seq<Block>, b: seq<Block>, deltaLen: nat)
    ensures BlockBytes(a + b, deltaLen) == BlockBytes(a, deltaLen) + BlockBytes(b, deltaLen)
  {
    if a == [] {
      assert a + b == b;
    } else {
      assert (a + b)[0] == a[0] && (a + b)[1..] == a[1..] + b;
      BlockBytesConcat(a[1..], b, deltaLen);
    }
  }

  lemma {:induction false} GapBlocksWritable(gap: nat, length: nat, deltaLen: nat)
    requires length < Pow256(deltaLen)
    ensures Writable(GapBlocks(gap, length), deltaLen)
  {
    if gap > 255 { GapBlocksWritable(gap - 255, length, deltaLen); }
  }

  lemma {:induction false} BlocksWritable(rs: seq<AckRange>, k: nat, deltaLen: nat)
    requires Descending(rs) && k <= |rs| && forall i | 0 <= i < |rs| :: Length(rs[i]) < Pow256(deltaLen)
    ensures Writable(BlocksUpTo(rs, k), deltaLen)
  {
    if k > 1 {
      BlocksWritable(rs, k - 1, deltaLen);
      GapBlocksWritable(Gap(rs, k - 1), Length(rs[k - 1]), deltaLen);
    }
  }

  lemma LengthsFit(f: AckFrame)
    requires Ordered(f)
    ensures forall i | 0 <= i < |f.ackRanges| :: Length(f.ackRanges[i]) < Pow256(DeltaLen(f))
    ensures f.ackRanges == [] ==> f.largestAcked - f.lowestAcked + 1 < Pow256(DeltaLen(f))
  {
    PowValues();
  }

  // ---------- reading ----------

  function ReadBlocks(input: seq<byte>, n: nat, deltaLen: nat): Result<(seq<Block>, seq<byte>)> {
    if n == 0 then Ok(([], input))
    else
      var (gap, rest) :- ReadByte(input);
      var (length, rest) :- ReadUint(rest, deltaLen);
      var (bs, rest) :- ReadBlocks(rest, n - 1, deltaLen);
      Ok(([Block(gap, length)] + bs, rest))
  }

  lemma SplitBytes(b: byte, number: seq<byte>, more: seq<byte>, rest: seq<byte>)
    ensures var input := [b] + number + more + rest;
      input != [] && input[0] == b && input[1..] == number + (more + rest)
  {
  }

  lemma {:induction false} ReadWrittenBlocks(bs: seq<Block>, deltaLen: nat, rest: seq<byte>)
    requires Writable(bs, deltaLen)
    ensures ReadBlocks(BlockBytes(bs, deltaLen) + rest, |bs|, deltaLen) == Ok((bs, rest))
  {
    if bs == [] {
      assert BlockBytes(bs, deltaLen) + rest == rest;
    } else {
      var tail := BlockBytes(bs[1..], deltaLen) + rest;
      SplitBytes(bs[0].gap, ToBytes(bs[0].length, deltaLen), BlockBytes(bs[1..], deltaLen), rest);
      ReadWritten(bs[0].length, deltaLen, tail);
      ReadWrittenBlocks(bs[1..], deltaLen, rest);
      assert [bs[0]] + bs[1..] == bs;
    }
  }

  lemma {:induction false} ReadBlocksAreBlocks(input: seq<byte>, n: nat, deltaLen: nat)
    requires deltaLen <= 6
    ensures var r := ReadBlocks(input, n, deltaLen); r.Ok? ==>
      |r.value.0| == n && forall b | b in r.value.0 :: IsBlock(b)
  {
    if n > 0 && input != [] && ReadUint(input[1..], deltaLen).Ok? {
      PowBound(deltaLen);
      ReadBlocksAreBlocks(ReadUint(input[1..], deltaLen).value.1, n - 1, deltaLen);
    }
  }

  lemma {:induction false} PowBound(n: nat)
    requires n <= 6
    ensures Pow256(n) <= TWO_48
  {
    PowValues();
    assert Pow256(0) == 1;
  }

  /** Everything in front of the blocks. */
  datatype Header = Header(has: bool, deltaLen: nat, largest: nat, delayBits: nat, numBlocks: nat, firstLength: nat)

  ghost predicate HeaderOk(h: Header) {
    && h.deltaLen in {1, 2, 4, 6} && h.largest < TWO_48 && h.delayBits < 0x1_0000 && h.numBlocks < 0x100
    && h.firstLength < Pow256(h.deltaLen)
    && (!h.has ==> h.numBlocks == 0)
  }

  function HeaderBytes(h: Header, rest: seq<byte>): seq<byte>
    requires HeaderOk(h)
  {
    var largestLen := NumberLen(h.largest);
    var count: seq<byte> := if h.has then [h.numBlocks] else [];
    [TypeByte(h.has, largestLen, h.deltaLen)] +
    (ToBytes(h.largest, largestLen) + (ToBytes(h.delayBits, 2) + (count + (ToBytes(h.firstLength, h.deltaLen) + rest))))
  }

  function ReadHeader(input: seq<byte>): (r: Result<(Header, seq<byte>)>)
    ensures r.Ok? ==> HeaderOk(r.value.0)
  {
    var (t, rest) :- ReadByte(input);
    PowValues();
    var has, deltaLen := t / 0x20 % 2 == 1, LenFromBits(t % 4);
    var (largest, rest) :- ReadUint(rest, LenFromBits(t / 4 % 4));
    var (delayBits, rest) :- ReadUint(rest, 2);
    var (numBlocks, rest) :- if has then ReadByte(rest) else Ok((0, rest));
    var (firstLength, rest) :- ReadUint(rest, deltaLen);
    Ok((Header(has, deltaLen, largest, delayBits, numBlocks, firstLength), rest))
  }

  lemma ReadWrittenHeader(h: Header, rest: seq<byte>)
    requires HeaderOk(h)
    ensures ReadHeader(HeaderBytes(h, rest)) == Ok((h, rest))
  {
    var largestLen := NumberLen(h.largest);
    var count: seq<byte> := if h.has then [h.numBlocks] else [];
    var r4 := ToBytes(h.firstLength, h.deltaLen) + rest;
    var r3 := count + r4;
    var r2 := ToBytes(h.delayBits, 2) + r3;
    var r1 := ToBytes(h.largest, largestLen) + r2;
    TypeByteFields(h.has, largestLen, h.deltaLen);
    ReadWrittenByte(TypeByte(h.has, largestLen, h.deltaLen), r1);
    NumberLenFits(h.largest);
    ReadWritten(h.largest, largestLen, r2);
    PowValues();
    ReadWritten(h.delayBits, 2, r3);
    if h.has { ReadWrittenByte(h.numBlocks, r4); } else { assert r3 == r4; }
    ReadWritten(h.firstLength, h.deltaLen, rest);
  }

  /** The header of a frame whose first k ranges are written. */
  function HeaderOf(f: AckFrame, k: nat): Header
    requires Ordered(f) && k <= |f.ackRanges|
  {
    if HasMissingRanges(f) then
      Header(true, DeltaLen(f), f.largestAcked, Float16.Encode(f.delay), BlockCount(f.ackRanges, k),
        Length(f.ackRanges[0]))
    else
      Header(false, DeltaLen(f), f.largestAcked, Float16.Encode(f.delay), 0, f.largestAcked - f.lowestAcked + 1)
  }

  /** The bytes of a frame whose first k ranges are written, followed by `rest`. */
  function AckBytes(f: AckFrame, k: nat, rest: seq<byte>): seq<byte>
    requires Ordered(f) && k <= |f.ackRanges| && BlockCount(f.ackRanges, k) < 0x100
  {
    LengthsFit(f);
    Float16.DecodeEncode(f.delay);
    HeaderBytes(HeaderOf(f, k), BlockBytes(BlocksUpTo(f.ackRanges, k), DeltaLen(f)) + ([0] + rest))
  }

  lemma {:induction false} HeaderLength(h: Header, rest: seq<byte>)
    requires HeaderOk(h)
    ensures |HeaderBytes(h, rest)| == 1 + NumberLen(h.largest) + 2 + (if h.has then 1 else 0) + h.deltaLen + |rest|
  {
  }

  /** The length of a written frame. */
  lemma {:induction false} AckBytesLength(f: AckFrame, k: nat, rest: seq<byte>)
    requires Ordered(f) && k <= |f.ackRanges| && BlockCount(f.ackRanges, k) < 0x100
    ensures |AckBytes(f, k, rest)| == 4 + NumberLen(f.largestAcked) + |rest|
          + if HasMissingRanges(f) then (1 + DeltaLen(f)) * (BlockCount(f.ackRanges, k) + 1) else DeltaLen(f)
  {
    LengthsFit(f);
    Float16.DecodeEncode(f.delay);
    var l, n := DeltaLen(f), BlockCount(f.ackRanges, k);
    HeaderLength(HeaderOf(f, k), BlockBytes(BlocksUpTo(f.ackRanges, k), l) + ([0] + rest));
    OneMore(l, n);
  }

  lemma OneMore(l: nat, n: nat)
    ensures (1 + l) * (n + 1) == (1 + l) * n + 1 + l
  {
  }

  function SkipPairs(input: seq<byte>, n: nat): Result<seq<byte>> {
    if n == 0 then Ok(input)
    else
      var (_, rest) :- ReadByte(input);
      var (_, rest) :- ReadUint(rest, 2);
      SkipPairs(rest, n - 1)
  }

  /** Timestamps are read over. */
  function SkipTimestamps(input: seq<byte>): Result<seq<byte>> {
    var (n, rest) :- ReadByte(input);
    if n == 0 then Ok(rest)
    else
      var (_, rest) :- ReadByte(rest);
      var (_, rest) :- ReadUint(rest, 4);
      SkipPairs(rest, n - 1)
  }

  /** The ranges at the end of the loop: an unfinished last range is dropped. */
  function RangesOf(st: Reader): seq<AckRange> {
    if st.lastRangeComplete then st.earlier + [st.current] else st.earlier
  }

  function FirstRange(h: Header): AckRange
    requires h.firstLength <= h.largest
  {
    AckRange(h.largest - h.firstLength + 1, h.largest)
  }

  function ParseRanges(h: Header, input: seq<byte>): Result<(AckFrame, seq<byte>)>
    requires HeaderOk(h) && h.has && h.numBlocks > 0 && h.firstLength <= h.largest
  {
    var (bs, rest) :- ReadBlocks(input, h.numBlocks, h.deltaLen);
    ReadBlocksAreBlocks(input, h.numBlocks, h.deltaLen);
    var rs := RangesOf(FeedAll(Reader([], FirstRange(h), false, false), bs));
    Ok((AckFrame(h.largest, rs[|rs| - 1].first, rs, Float16.Decode(h.delayBits)), rest))
  }

  /** What ParseAckFrame does with a sequence of bytes: a frame and the bytes after it, or an error. */
  function ParseAck(input: seq<byte>): Result<(AckFrame, seq<byte>)> {
    var (h, rest) :- ReadHeader(input);
    ParseBody(h, rest)
  }

  /** How many ranges of a frame are written. */
  function SentCount(f: AckFrame): (k: nat)
    requires Ordered(f)
    ensures k <= |f.ackRanges| && BlockCount(f.ackRanges, k) < 0xFF
  {
    if f.ackRanges == [] then 0 else Kept(f.ackRanges)
  }

  /** The part of a frame that is written. */
  function Sent(f: AckFrame): (s: AckFrame)
    requires Ordered(f)
  {
    Float16.DecodeEncode(f.delay);
    var delay := Float16.Decode(Float16.Encode(f.delay));
    if f.ackRanges == [] then f.(delay := delay)
    else
      var k := Kept(f.ackRanges);
      AckFrame(f.largestAcked, f.ackRanges[k - 1].first, f.ackRanges[..k], delay)
  }

  /** The first gap does not fill the frame by itself. */
  ghost predicate FirstGapFits(f: AckFrame)
    requires Ordered(f)
  {
    |f.ackRanges| > 1 ==> BlockCount(f.ackRanges, 2) < 0xFF
  }

  lemma {:induction false} HeaderOfOk(f: AckFrame, k: nat)
    requires Ordered(f) && k <= |f.ackRanges| && BlockCount(f.ackRanges, k) < 0x100
    requires f.ackRanges != [] ==> f.ackRanges[0].last == f.largestAcked
    ensures HeaderOk(HeaderOf(f, k)) && 1 <= HeaderOf(f, k).firstLength <= f.largestAcked
  {
    LengthsFit(f);
    Float16.DecodeEncode(f.delay);
  }

  lemma {:induction false} ReadSentRanges(rs: seq<AckRange>, h: Header, k: nat, rest: seq<byte>)
    requires Descending(rs) && 2 <= k <= |rs| && Writable(BlocksUpTo(rs, k), h.deltaLen)
    requires HeaderOk(h) && h.has && h.numBlocks == BlockCount(rs, k) > 0 && h.firstLength <= h.largest
      && FirstRange(h) == rs[0]
    ensures ParseRanges(h, BlockBytes(BlocksUpTo(rs, k), h.deltaLen) + rest)
         == Ok((AckFrame(h.largest, rs[k - 1].first, rs[..k], Float16.Decode(h.delayBits)), rest))
  {
    hide ReadBlocks, BlockBytes, FeedAll, Float16.Decode, BlocksUpTo, Writable, RangesOf;
    ReadWrittenBlocks(BlocksUpTo(rs, k), h.deltaLen, rest);
    RangesRead(rs, k);
  }

  lemma {:induction false} RangesRead(rs: seq<AckRange>, k: nat)
    requires Descending(rs) && 2 <= k <= |rs| && rs[0].last < TWO_64
    ensures RangesOf(FeedAll(Reader([], rs[0], false, false), BlocksUpTo(rs, k))) == rs[..k]
  {
    FeedWritten(rs, k);
    assert rs[..k - 1] + [rs[k - 1]] == rs[..k];
  }

  /** Parsing once the header is read. */
  function ParseBody(h: Header, input: seq<byte>): Result<(AckFrame, seq<byte>)>
    requires HeaderOk(h)
  {
    if (h.has && h.numBlocks == 0) || (h.largest > 0 && h.firstLength < 1) || h.firstLength > h.largest then Err
    else
      var (f, rest) :-
        if h.has then ParseRanges(h, input)
        else Ok((AckFrame(h.largest, if h.largest == 0 then 0 else h.largest + 1 - h.firstLength, [],
          Float16.Decode(h.delayBits)), input));
      if !Validates(f) then Err
      else
        var rest :- SkipTimestamps(rest);
        Ok((f, rest))
  }

  /** The bytes of n timestamps: their number, 5 bytes for the first one, and 3 for each of the others. */
  function TimestampBytes(n: byte): nat {
    if n == 0 then 1 else 1 + 5 + 3 * (n - 1)
  }

  lemma {:induction false} SkipPairsExact(input: seq<byte>, n: nat)
    ensures SkipPairs(input, n) == if |input| < 3 * n then Err else Ok(input[3 * n..])
  {
    if n > 0 && |input| >= 3 {
      SkipPairsExact(input[3..], n - 1);
    }
  }

  /** Timestamps are read over if and only if all their bytes are there, and nothing else is. */
  lemma SkipExact(input: seq<byte>)
    ensures SkipTimestamps(input) ==
      if input == [] || |input| < TimestampBytes(input[0]) then Err else Ok(input[TimestampBytes(input[0])..])
  {
    if |input| >= 6 && input[0] > 0 {
      SkipPairsExact(input[6..], input[0] - 1);
    }
  }

  /** Any timestamps, with their number in front. */
  ghost predicate AreTimestamps(stamps: seq<byte>) {
    stamps != [] && |stamps| == TimestampBytes(stamps[0])
  }

  lemma SkipStamps(stamps: seq<byte>, rest: seq<byte>)
    requires AreTimestamps(stamps)
    ensures SkipTimestamps(stamps + rest) == Ok(rest)
  {
    SkipExact(stamps + rest);
    assert (stamps + rest)[|stamps|..] == rest;
  }

  lemma {:induction false} ReadSentBody(f: AckFrame, k: nat, stamps: seq<byte>, rest: seq<byte>)
    requires Ordered(f) && WellFormed(f) && FirstGapFits(f) && AreTimestamps(stamps)
    requires k == SentCount(f)
    ensures HeaderOk(HeaderOf(f, k))
    ensures ParseBody(HeaderOf(f, k), BlockBytes(BlocksUpTo(f.ackRanges, k), DeltaLen(f)) + (stamps + rest))
      == Ok((Sent(f), rest))
  {
    hide SkipTimestamps;
    HeaderOfOk(f, k);
    SkipStamps(stamps, rest);
    SentValidates(f);
    if f.ackRanges == [] {
      assert BlockBytes([], DeltaLen(f)) + (stamps + rest) == stamps + rest;
    } else {
      ReadKeptRanges(f, stamps + rest);
    }
  }

  lemma {:induction false} ReadKeptRanges(f: AckFrame, rest: seq<byte>)
    requires Ordered(f) && WellFormed(f) && FirstGapFits(f) && f.ackRanges != []
    requires HeaderOk(HeaderOf(f, Kept(f.ackRanges)))
    ensures var h := HeaderOf(f, Kept(f.ackRanges));
      && h.numBlocks > 0 && 1 <= h.firstLength <= h.largest
      && ParseRanges(h, BlockBytes(BlocksUpTo(f.ackRanges, Kept(f.ackRanges)), DeltaLen(f)) + rest)
        == Ok((Sent(f), rest))
  {
    hide ParseRanges, BlockBytes, BlocksUpTo, Writable, KeptFrom;
    var rs := f.ackRanges;
    var k := Kept(rs);
    assert k >= 2 && BlockCount(rs, k) > 0 by {
      KeptIsLongest(rs, 2);
      BlockCountMono(rs, 1, k);
    }
    assert Writable(BlocksUpTo(rs, k), DeltaLen(f)) by {
      LengthsFit(f);
      BlocksWritable(rs, k, DeltaLen(f));
    }
    ReadSentRanges(rs, HeaderOf(f, k), k, rest);
  }

  /**
   Reading a written frame gives back the longest prefix of its ranges whose blocks fit, with the delay rounded, and
   leaves the bytes after the frame.
   */
  lemma {:induction false} ReadSent(f: AckFrame, rest: seq<byte>)
    requires Ordered(f) && WellFormed(f) && FirstGapFits(f)
    ensures ParseAck(AckBytes(f, SentCount(f), rest)) == Ok((Sent(f), rest))
  {
    var k := SentCount(f);
    ReadSentBody(f, k, [0], rest);
    ReadWrittenHeader(HeaderOf(f, k), BlockBytes(BlocksUpTo(f.ackRanges, k), DeltaLen(f)) + ([0] + rest));
  }

  lemma {:induction false} SentValidates(f: AckFrame)
    requires Ordered(f) && WellFormed(f) && FirstGapFits(f)
    ensures WellFormed(Sent(f)) && Validates(Sent(f))
  {
    if f.ackRanges != [] {
      KeptIsLongest(f.ackRanges, 2);
      var k := Kept(f.ackRanges);
      assert forall i | 0 <= i < k :: f.ackRanges[..k][i] == f.ackRanges[i];
    }
    WellFormedValidates(Sent(f));
  }

  // ---------- every accepted frame is well-formed ----------

  lemma {:induction false} AcceptedRanges(h: Header, input: seq<byte>)
    requires HeaderOk(h) && h.has && h.numBlocks > 0 && 1 <= h.firstLength <= h.largest
    ensures var r := ParseRanges(h, input); r.Ok? && Validates(r.value.0) ==>
      WellFormed(r.value.0) && r.value.0.largestAcked < TWO_48
  {
    var read := ReadBlocks(input, h.numBlocks, h.deltaLen);
    if read.Ok? {
      ReadBlocksAreBlocks(input, h.numBlocks, h.deltaLen);
      var st := Reader([], FirstRange(h), false, false);
      var st' := FeedAll(st, read.value.0);
      assert Tracked(st, 0);
      FeedAllTracked(st, read.value.0, 0);
      var rs := RangesOf(st');
      if Validates(ParseRanges(h, input).value.0) {
        ValidatedRanges(st', h.numBlocks);
        assert rs[0] == (st'.earlier + [st'.current])[0];
      }
    }
  }

  lemma {:induction false} ValidatedRanges(st: Reader, n: nat)
    requires Tracked(st, n) && st.earlier != []
    requires var rs := RangesOf(st);
      && (forall i | 0 <= i < |rs| :: rs[i].first <= rs[i].last)
      && (forall i | 1 <= i < |rs| :: Below(rs[i - 1], rs[i]))
    ensures Descending(RangesOf(st))
  {
    var rs, all := RangesOf(st), st.earlier + [st.current];
    forall i | 1 <= i < |rs| ensures Checked(rs[i - 1], rs[i], 255 * n) {
      assert rs[i] == all[i] && rs[i - 1] == all[i - 1];
      assert Follows(all[i - 1].first, all[i], 255 * n);
    }
    assert rs[0] == all[0];
    CheckedRanges(rs, 255 * n, |rs|);
    assert rs[..|rs|] == rs;
  }

  /**
   Whatever bytes arrive, a frame that is accepted has descending, non-empty ranges with a gap between neighbours,
   and its bounds are those of its ranges, although the ranges are computed with wrapping subtractions.
   */
  lemma {:induction false} AcceptedIsWellFormed(input: seq<byte>)
    ensures ParseAck(input).Ok? ==> WellFormed(ParseAck(input).value.0) && ParseAck(input).value.0.largestAcked < TWO_48
  {
    var read := ReadHeader(input);
    if read.Ok? {
      var (h, rest) := read.value;
      if h.has && h.numBlocks > 0 && 1 <= h.firstLength <= h.largest {
        AcceptedRanges(h, rest);
      } else {
        AcceptedPlain(h, rest);
      }
    }
  }

  /** Without ranges, or with an empty first range, there is nothing to go wrong. */
  lemma {:induction false} AcceptedPlain(h: Header, input: seq<byte>)
    requires HeaderOk(h) && !(h.has && h.numBlocks > 0 && 1 <= h.firstLength <= h.largest)
    ensures var r := ParseBody(h, input); r.Ok? ==> WellFormed(r.value.0) && r.value.0.largestAcked < TWO_48
  {
    if h.has && h.numBlocks > 0 && h.largest == h.firstLength == 0 {
      EmptyFirstRange(h, input);
    }
  }

  lemma {:induction false} EmptyFirstRange(h: Header, input: seq<byte>)
    requires HeaderOk(h) && h.has && h.numBlocks > 0 && h.largest == h.firstLength == 0
    ensures var r := ParseRanges(h, input); r.Ok? ==> !Validates(r.value.0)
  {
    var read := ReadBlocks(input, h.numBlocks, h.deltaLen);
    if read.Ok? {
      ReadBlocksAreBlocks(input, h.numBlocks, h.deltaLen);
      FeedAllKeepsFirst(Reader([], FirstRange(h), false, false), read.value.0);
      var f := ParseRanges(h, input).value.0;
      assert f.ackRanges[0] == FirstRange(h);
    }
  }
}
