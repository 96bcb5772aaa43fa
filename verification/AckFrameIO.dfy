/** The loops that parse and write ACK frames (frames/ack_frame.go), proved against the functions of AckCodec. */
module AckFrameIO {
  import opened Common
  import opened Sequences
  import Arithmetic
  import opened Wire
  import Float16
  import opened AckFrames
  import opened AckBlocks
  import opened AckCodec

  // ---------- parsing ----------

  /** Reading n blocks and feeding each one as it comes. */
  function ReadAndFeed(st: Reader, input: seq<byte>, n: nat, deltaLen: nat): Result<(Reader, seq<byte>)>
    decreases n
  {
    if n == 0 then Ok((st, input))
    else
      var (gap, rest) :- ReadByte(input);
      var (length, rest) :- ReadUint(rest, deltaLen);
      ReadAndFeed(Feed(st, Block(gap, length)), rest, n - 1, deltaLen)
  }

  lemma {:induction false} ReadThenFeed(st: Reader, input: seq<byte>, n: nat, deltaLen: nat)
    ensures var a, b := ReadAndFeed(st, input, n, deltaLen), ReadBlocks(input, n, deltaLen);
      (a.Ok? <==> b.Ok?) && (a.Ok? ==> a.value == (FeedAll(st, b.value.0), b.value.1))
    decreases n
  {
    if n > 0 && ReadByte(input).Ok? {
      var (gap, rest) := ReadByte(input).value;
      if ReadUint(rest, deltaLen).Ok? {
        var (length, rest') := ReadUint(rest, deltaLen).value;
        ReadThenFeed(Feed(st, Block(gap, length)), rest', n - 1, deltaLen);
        var more := ReadBlocks(rest', n - 1, deltaLen);
        if more.Ok? {
          assert ([Block(gap, length)] + more.value.0)[1..] == more.value.0;
        }
      }
    }
  }

  /** Reads the blocks, keeping the ranges in a sequence whose last element may still change. */
  method FeedBlocks(start: Reader, input: seq<byte>, numBlocks: nat, deltaLen: nat)
    returns (r: Result<(Reader, seq<byte>)>)
    ensures r == ReadAndFeed(start, input, numBlocks, deltaLen)
  {
    var st, rest, i := start, input, 0;
    while i < numBlocks
      invariant 0 <= i <= numBlocks
      invariant ReadAndFeed(st, rest, numBlocks - i, deltaLen) == ReadAndFeed(start, input, numBlocks, deltaLen)
    {
      var gap := ReadByte(rest);
      if gap.Err? {
        return Err;
      }
      var length := ReadUint(gap.value.1, deltaLen);
      if length.Err? {
        return Err;
      }
      st, rest := Feed(st, Block(gap.value.0, length.value.0)), length.value.1;
      i := i + 1;
    }
    return Ok((st, rest));
  }

  method ParseBlocks(h: Header, input: seq<byte>) returns (r: Result<(AckFrame, seq<byte>)>)
    requires HeaderOk(h) && h.has && h.numBlocks > 0 && h.firstLength <= h.largest
    ensures r == ParseRanges(h, input)
  {
    var start := Reader([], FirstRange(h), false, false);
    ReadThenFeed(start, input, h.numBlocks, h.deltaLen);
    ReadBlocksAreBlocks(input, h.numBlocks, h.deltaLen);
    var fed := FeedBlocks(start, input, h.numBlocks, h.deltaLen);
    if fed.Err? {
      return Err;
    }
    var (st, rest) := fed.value;
    var ranges := st.earlier;
    if st.lastRangeComplete {
      ranges := ranges + [st.current];
    }
    return Ok((AckFrame(h.largest, ranges[|ranges| - 1].first, ranges, Float16.Decode(h.delayBits)), rest));
  }

  method SkipTimestampsLoop(input: seq<byte>) returns (r: Result<seq<byte>>)
    ensures r == SkipTimestamps(input)
  {
    var numTimestamp := ReadByte(input);
    if numTimestamp.Err? {
      return Err;
    }
    var (n, rest) := numTimestamp.value;
    if n > 0 {
      var delta := ReadByte(rest);
      if delta.Err? {
        return Err;
      }
      var first := ReadUint(delta.value.1, 4);
      if first.Err? {
        return Err;
      }
      rest := first.value.1;
      ghost var all := SkipPairs(rest, n - 1);
      var i := 0;
      while i < n - 1
        invariant 0 <= i <= n - 1
        invariant SkipPairs(rest, n - 1 - i) == all
      {
        delta := ReadByte(rest);
        if delta.Err? {
          return Err;
        }
        var since := ReadUint(delta.value.1, 2);
        if since.Err? {
          return Err;
        }
        rest := since.value.1;
        i := i + 1;
      }
    }
    return Ok(rest);
  }

  method ParseAckFrame(input: seq<byte>) returns (r: Result<(AckFrame, seq<byte>)>)
    ensures r == ParseAck(input)
    ensures r.Ok? ==> WellFormed(r.value.0)
  {
    AcceptedIsWellFormed(input);
    var header := ReadHeader(input);
    if header.Err? {
      return Err;
    }
    var (h, rest) := header.value;
    if (h.has && h.numBlocks == 0) || (h.largest > 0 && h.firstLength < 1) || h.firstLength > h.largest {
      return Err;
    }
    var frame;
    if h.has {
      var parsed := ParseBlocks(h, rest);
      if parsed.Err? {
        return Err;
      }
      frame, rest := parsed.value.0, parsed.value.1;
    } else {
      var lowest := if h.largest == 0 then 0 else h.largest + 1 - h.firstLength;
      frame := AckFrame(h.largest, lowest, [], Float16.Decode(h.delayBits));
    }
    var valid := ValidateAckRanges(frame);
    if !valid {
      return Err;
    }
    var after := SkipTimestampsLoop(rest);
    if after.Err? {
      return Err;
    }
    return Ok((frame, after.value));
  }

  // ---------- writing ----------

  method MaxRangeLength(rs: seq<AckRange>) returns (m: nat)
    requires Descending(rs)
    ensures m == MaxLength(rs, |rs|)
  {
    m := 0;
    var i := 0;
    while i < |rs|
      invariant 0 <= i <= |rs|
      invariant m == MaxLength(rs, i)
    {
      var rangeLength := rs[i].last - rs[i].first + 1;
      if rangeLength > m {
        m := rangeLength;
      }
      i := i + 1;
    }
  }

  method GetMissingSequenceNumberDeltaLen(f: AckFrame) returns (l: nat)
    requires Ordered(f)
    ensures l == DeltaLen(f)
  {
    var maxRangeLength := f.largestAcked - f.lowestAcked + 1;
    if HasMissingRanges(f) {
      maxRangeLength := MaxRangeLength(f.ackRanges);
    }
    l := if maxRangeLength <= 0xFF then 1 else if maxRangeLength <= 0xFFFF then 2
      else if maxRangeLength <= 0xFFFF_FFFF then 4 else 6;
  }

  lemma NoBlocks(rs: seq<AckRange>)
    requires Descending(rs) && rs != []
    ensures BlockCount(rs, 1) == 0 && (BlockCount(rs, |rs|) < 0xFF ==> KeptFrom(rs, |rs|) == |rs|)
  {
  }

  lemma OneMoreRange(rs: seq<AckRange>, i: nat)
    requires Descending(rs) && 1 <= i < |rs|
    ensures Gap(rs, i) == rs[i - 1].first - rs[i].last - 1 > 0
    ensures BlockCount(rs, i + 1) == BlockCount(rs, i) + NumBlocks(Gap(rs, i))
    ensures BlockCount(rs, i) < 0xFF ==>
      KeptFrom(rs, i) == if BlockCount(rs, i + 1) >= 0xFF then i else KeptFrom(rs, i + 1)
  {
    hide GapBlocks, NumBlocks;
    GapBlocksCount(Gap(rs, i), Length(rs[i]));
  }

  /** One more than the number of blocks that are written; 0 without ranges. */
  method NumWritableNackRanges(f: AckFrame) returns (n: nat)
    requires Descending(f.ackRanges)
    ensures n == if f.ackRanges == [] then 0 else BlockCount(f.ackRanges, Kept(f.ackRanges)) + 1
  {
    hide NumBlocks, GapBlocks, BlocksUpTo, BlockCount, Descending, KeptFrom;
    var rs := f.ackRanges;
    if |rs| == 0 {
      return 0;
    }
    var numRanges, i := 0, 1;
    NoBlocks(rs);
    while i < |rs|
      invariant 1 <= i <= |rs|
      invariant numRanges == BlockCount(rs, i) < 0xFF && KeptFrom(rs, i) == Kept(rs)
    {
      OneMoreRange(rs, i);
      var gap := rs[i - 1].first - rs[i].last - 1;
      var rangeLength := NumBlocks(gap);
      if numRanges + rangeLength < 0xFF {
        numRanges := numRanges + rangeLength;
      } else {
        break;
      }
      i := i + 1;
    }
    return numRanges + 1;
  }

  /** MinLength is the exact number of bytes that are written. */
  method MinLength(f: AckFrame) returns (length: nat)
    requires Ordered(f)
    ensures length == |AckBytes(f, SentCount(f), [])|
  {
    AckBytesLength(f, SentCount(f), []);
    length := 1 + 2 + 1 + NumberLen(f.largestAcked);
    var deltaLen := GetMissingSequenceNumberDeltaLen(f);
    if HasMissingRanges(f) {
      var n := NumWritableNackRanges(f);
      length := length + (1 + deltaLen) * n;
    } else {
      length := length + deltaLen;
    }
  }

  lemma {:induction false} GapBlocksSplit(gap: nat, length: nat, i: nat)
    requires gap > 255 * i
    ensures GapBlocks(gap, length) == Fillers(i) + GapBlocks(gap - 255 * i, length)
    decreases i
  {
    if i > 0 {
      GapBlocksSplit(gap - 255, length, i - 1);
      assert [Block(255, 0)] + Fillers(i - 1) == Fillers(i);
      ConcatAssoc([Block(255, 0)], Fillers(i - 1), GapBlocks(gap - 255 * i, length));
    } else {
      assert [] + GapBlocks(gap, length) == GapBlocks(gap, length);
    }
  }

  function Fillers(i: nat): seq<Block> {
    seq(i, _ => Block(255, 0))
  }

  /** The blocks of one range: all but the last one are fillers. */
  method WriteRange(gap: nat, length: nat, deltaLen: nat) returns (out: seq<byte>, num: nat)
    requires gap > 0
    ensures out == BlockBytes(GapBlocks(gap, length), deltaLen) && num == |GapBlocks(gap, length)|
  {
    GapBlocksCount(gap, length);
    num := NumBlocks(gap);
    if num == 1 {
      out := OneBlock(gap, length, deltaLen);
      return;
    }
    out := [];
    var i := 0;
    while i < num - 1
      invariant 0 <= i <= num - 1
      invariant out == BlockBytes(Fillers(i), deltaLen)
    {
      var block := OneBlock(0xFF, 0, deltaLen);
      BlockBytesConcat(Fillers(i), [Block(255, 0)], deltaLen);
      assert Fillers(i) + [Block(255, 0)] == Fillers(i + 1);
      assert BlockBytes([Block(255, 0)], deltaLen) == block;
      out := out + block;
      i := i + 1;
    }
    LastBlock(gap, num);
    var block := OneBlock(1 + (gap - 1) % 255, length, deltaLen);
    GapBlocksSplit(gap, length, num - 1);
    BlockBytesConcat(Fillers(num - 1), GapBlocks(gap - 255 * (num - 1), length), deltaLen);
    out := out + block;
  }

  lemma LastBlock(gap: nat, num: nat)
    requires num >= 1 && 255 * (num - 1) < gap <= 255 * num
    ensures 1 + (gap - 1) % 255 == gap - 255 * (num - 1)
  {
    Arithmetic.DivUnique(gap - 1, 255, num - 1, gap - 1 - 255 * (num - 1));
  }

  method OneBlock(gap: nat, length: nat, deltaLen: nat) returns (out: seq<byte>)
    requires gap <= 255
    ensures out == BlockBytes([Block(gap, length)], deltaLen) == BlockBytes(GapBlocks(gap, length), deltaLen)
  {
    out := [gap] + ToBytes(length, deltaLen);
    assert [Block(gap, length)][1..] == [];
    assert BlockBytes([], deltaLen) == [];
  }

  lemma {:induction false} NextRange(rs: seq<AckRange>, i: nat, deltaLen: nat)
    requires Descending(rs) && 0 < i < |rs|
    ensures var blocks := GapBlocks(Gap(rs, i), Length(rs[i]));
      && BlockCount(rs, i + 1) == BlockCount(rs, i) + |blocks|
      && BlockBytes(BlocksUpTo(rs, i + 1), deltaLen)
        == BlockBytes(BlocksUpTo(rs, i), deltaLen) + BlockBytes(blocks, deltaLen)
  {
    BlockBytesConcat(BlocksUpTo(rs, i), GapBlocks(Gap(rs, i), Length(rs[i])), deltaLen);
  }

  /**
   Writes ranges until the announced number is reached. The test comes after the range, so one range is always written.
   */
  method WriteUntil(rs: seq<AckRange>, numRanges: nat, deltaLen: nat)
    returns (out: seq<byte>, written: nat, ghost i: nat)
    requires Descending(rs) && rs != []
    ensures 1 <= i <= |rs| && written == BlockCount(rs, i) + 1 && out == BlockBytes(BlocksUpTo(rs, i), deltaLen)
    ensures i > 2 ==> BlockCount(rs, i - 1) + 1 < numRanges
    ensures i == |rs| == 1 || (i >= 2 && (i == |rs| || written >= numRanges))
  {
    out, written := [], 1;
    var next := 1;
    while next < |rs|
      invariant 1 <= next <= |rs|
      invariant written == BlockCount(rs, next) + 1 && out == BlockBytes(BlocksUpTo(rs, next), deltaLen)
      invariant next == 1 || written < numRanges
    {
      var length, gap := rs[next].last - rs[next].first + 1, rs[next - 1].first - rs[next].last - 1;
      var block, num := WriteRange(gap, length, deltaLen);
      NextRange(rs, next, deltaLen);
      out, written := out + block, written + num;
      next := next + 1;
      if written >= numRanges {
        return out, written, next;
      }
      GapBlocksCount(gap, length);
    }
    i := next;
    if i > 2 { BlockCountMono(rs, i - 1, i); }
  }

  method WriteRanges(rs: seq<AckRange>, numRanges: nat, deltaLen: nat) returns (out: seq<byte>, written: nat)
    requires Descending(rs) && rs != [] && numRanges == BlockCount(rs, Kept(rs)) + 1
    ensures written == numRanges <==> |rs| == 1 || BlockCount(rs, 2) < 0xFF
    ensures written == numRanges ==> out == BlockBytes(BlocksUpTo(rs, Kept(rs)), deltaLen)
  {
    ghost var i;
    out, written, i := WriteUntil(rs, numRanges, deltaLen);
    StoppedAtKept(rs, i);
  }

  /** Where the loop of Write stops. */
  lemma {:induction false} StoppedAtKept(rs: seq<AckRange>, i: nat)
    requires Descending(rs) && 1 <= i <= |rs|
    requires i > 2 ==> BlockCount(rs, i - 1) < BlockCount(rs, Kept(rs))
    requires i == |rs| == 1 || (i >= 2 && (i == |rs| || BlockCount(rs, i) >= BlockCount(rs, Kept(rs))))
    ensures BlockCount(rs, i) == BlockCount(rs, Kept(rs)) <==> |rs| == 1 || BlockCount(rs, 2) < 0xFF
    ensures BlockCount(rs, i) == BlockCount(rs, Kept(rs)) ==> i == Kept(rs)
  {
    if |rs| > 1 {
      var k := Kept(rs);
      KeptIsLongest(rs, 2);
      if k < i { BlockCountMono(rs, k, i); } else { BlockCountMono(rs, i, k); }
      if k < i - 1 { BlockCountMono(rs, k, i - 1); }
    }
  }

  /** The bounds are those of the ranges. */
  ghost predicate Consistent(f: AckFrame) {
    f.ackRanges != [] ==> f.ackRanges[0].last == f.largestAcked && f.ackRanges[|f.ackRanges| - 1].first == f.lowestAcked
  }

  lemma HeaderThenRest(h: Header, rest: seq<byte>)
    requires HeaderOk(h)
    ensures HeaderBytes(h, rest) == HeaderBytes(h, []) + rest
  {
    var largestLen := NumberLen(h.largest);
    var count: seq<byte> := if h.has then [h.numBlocks] else [];
    var t, a, b, c := [TypeByte(h.has, largestLen, h.deltaLen)], ToBytes(h.largest, largestLen), ToBytes(h.delayBits,
      2), ToBytes(h.firstLength, h.deltaLen);
    NestConcat(t, a, b, count, c, rest);
    NestConcat(t, a, b, count, c, []);
    assert t + a + b + count + c + [] == t + a + b + count + c;
  }

  lemma NestConcat<T>(t: seq<T>, a: seq<T>, b: seq<T>, c: seq<T>, d: seq<T>, rest: seq<T>)
    ensures t + (a + (b + (c + (d + rest)))) == t + a + b + c + d + rest
  {
  }

  method WriteHeader(h: Header) returns (out: seq<byte>)
    requires HeaderOk(h)
    ensures out == HeaderBytes(h, [])
  {
    var largestLen := NumberLen(h.largest);
    out := [TypeByte(h.has, largestLen, h.deltaLen)];
    out := out + ToBytes(h.largest, largestLen);
    out := out + ToBytes(h.delayBits, 2);
    var count: seq<byte> := if h.has then [h.numBlocks] else [];
    out := out + count;
    out := out + ToBytes(h.firstLength, h.deltaLen);
    NestConcat([TypeByte(h.has, largestLen, h.deltaLen)], ToBytes(h.largest, largestLen), ToBytes(h.delayBits, 2),
      count,
               ToBytes(h.firstLength, h.deltaLen), []);
  }

  /** The fields in front of the blocks, and the number of blocks plus one. */
  method BuildHeader(f: AckFrame) returns (h: Header, numRanges: nat)
    requires Ordered(f) && Consistent(f)
    ensures h == HeaderOf(f, SentCount(f)) && HeaderOk(h)
    ensures f.ackRanges != [] ==> numRanges == BlockCount(f.ackRanges, Kept(f.ackRanges)) + 1
  {
    var deltaLen := GetMissingSequenceNumberDeltaLen(f);
    var delayBits := Float16.WriteUfloat16(f.delay);
    numRanges := NumWritableNackRanges(f);
    HeaderOfOk(f, SentCount(f));
    if HasMissingRanges(f) {
      h := Header(true, deltaLen, f.largestAcked, delayBits, numRanges - 1, f.largestAcked - f.ackRanges[0].first + 1);
    } else {
      h := Header(false, deltaLen, f.largestAcked, delayBits, 0, f.largestAcked - f.lowestAcked + 1);
    }
  }

  /**
   Writes a frame. It fails exactly when the bounds do not match the ranges or the first gap needs 255 blocks or more;
   otherwise the bytes are those that ReadSent is about.
   */
  method Write(f: AckFrame) returns (r: Result<seq<byte>>)
    requires Ordered(f)
    ensures r.Ok? <==> Consistent(f) && FirstGapFits(f)
    ensures r.Ok? ==> r.value == AckBytes(f, SentCount(f), [])
  {
    var rs := f.ackRanges;
    if |rs| > 0 && (f.largestAcked != rs[0].last || f.lowestAcked != rs[|rs| - 1].first) {
      return Err;
    }
    var h, numRanges := BuildHeader(f);
    var out := WriteHeader(h);
    var blocks := [];
    if |rs| > 0 {
      var written;
      blocks, written := WriteRanges(rs, numRanges, h.deltaLen);
      if written != numRanges {
        return Err;
      }
    }
    HeaderThenRest(h, blocks + ([0] + []));
    return Ok(out + (blocks + ([0] + [])));
  }

  lemma EndConcat<T>(a: seq<T>, b: seq<T>, z: seq<T>, rest: seq<T>)
    ensures a + (b + (z + [])) + rest == a + (b + (z + rest))
  {
    assert z + [] == z;
  }

  /** A frame is read in the same way if the peer has put timestamps where this side writes that there are none. */
  lemma {:induction false} ReadWithTimestamps(f: AckFrame, stamps: seq<byte>, rest: seq<byte>)
    requires Ordered(f) && WellFormed(f) && FirstGapFits(f) && AreTimestamps(stamps)
    ensures var written := AckBytes(f, SentCount(f), []);
      && written != [] && written[|written| - 1] == 0
      && ParseAck(written[..|written| - 1] + (stamps + rest)) == Ok((Sent(f), rest))
  {
    hide ParseBody, ReadHeader, HeaderBytes, BlockBytes, BlocksUpTo, SentCount, FirstGapFits, WellFormed, Sent;
    var k := SentCount(f);
    ReadSentBody(f, k, stamps, rest);
    var h, blocks := HeaderOf(f, k), BlockBytes(BlocksUpTo(f.ackRanges, k), DeltaLen(f));
    assert [0] + [] == [0];
    HeaderThenRest(h, blocks + [0]);
    HeaderThenRest(h, blocks + (stamps + rest));
    ReplaceEnd(HeaderBytes(h, []), blocks, stamps + rest);
    ReadWrittenHeader(h, blocks + (stamps + rest));
  }

  lemma ReplaceEnd(a: seq<byte>, b: seq<byte>, end: seq<byte>)
    ensures var all := a + (b + [0]); all[|all| - 1] == 0 && all[..|all| - 1] + end == a + (b + end)
  {
  }

  /** Writing and parsing, end to end. */
  method WriteThenParse(f: AckFrame, rest: seq<byte>) returns (r: Result<(AckFrame, seq<byte>)>)
    requires Ordered(f) && WellFormed(f)
    ensures r.Ok? <==> FirstGapFits(f)
    ensures r.Ok? ==> r.value == (Sent(f), rest)
  {
    var written := Write(f);
    if written.Err? {
      return Err;
    }
    ReadSent(f, rest);
    RestMoves(f, rest);
    r := ParseAckFrame(written.value + rest);
  }

  lemma RestMoves(f: AckFrame, rest: seq<byte>)
    requires Ordered(f)
    ensures AckBytes(f, SentCount(f), []) + rest == AckBytes(f, SentCount(f), rest)
  {
    LengthsFit(f);
    Float16.DecodeEncode(f.delay);
    var h, blocks := HeaderOf(f, SentCount(f)), BlockBytes(BlocksUpTo(f.ackRanges, SentCount(f)), DeltaLen(f));
    HeaderThenRest(h, blocks + ([0] + []));
    HeaderThenRest(h, blocks + ([0] + rest));
    EndConcat(HeaderBytes(h, []), blocks, [0], rest);
  }
}
