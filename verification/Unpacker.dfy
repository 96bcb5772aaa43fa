/** Taking the payload of a packet apart (packet_unpacker.go). */
module Unpacker {
  import opened Common
  import opened Wire
  import opened AckFrames
  import opened AckCodec
  import opened StopWaiting
  import Streams = StreamFrames
  import opened Frames

  lemma {:induction false} BlocksProgress(input: seq<byte>, n: nat, deltaLen: nat)
    ensures ReadBlocks(input, n, deltaLen).Ok? ==> |ReadBlocks(input, n, deltaLen).value.1| <= |input|
  {
    if n > 0 && ReadBlocks(input, n, deltaLen).Ok? {
      var rest := ReadUint(ReadByte(input).value.1, deltaLen).value.1;
      BlocksProgress(rest, n - 1, deltaLen);
    }
  }

  lemma {:induction false} PairsProgress(input: seq<byte>, n: nat)
    ensures SkipPairs(input, n).Ok? ==> |SkipPairs(input, n).value| <= |input|
  {
    if n > 0 && SkipPairs(input, n).Ok? {
      PairsProgress(ReadUint(ReadByte(input).value.1, 2).value.1, n - 1);
    }
  }

  lemma TimestampsProgress(input: seq<byte>)
    ensures SkipTimestamps(input).Ok? ==> |SkipTimestamps(input).value| <= |input|
  {
    if SkipTimestamps(input).Ok? {
      var (n, rest) := ReadByte(input).value;
      if n > 0 { PairsProgress(ReadUint(ReadByte(rest).value.1, 4).value.1, n - 1); }
    }
  }

  lemma RangesProgress(h: Header, input: seq<byte>)
    requires HeaderOk(h) && h.has && h.numBlocks > 0 && h.firstLength <= h.largest
    ensures ParseRanges(h, input).Ok? ==> |ParseRanges(h, input).value.1| <= |input|
  {
    hide ReadBlocks;
    BlocksProgress(input, h.numBlocks, h.deltaLen);
  }

  lemma BodyProgress(h: Header, input: seq<byte>)
    requires HeaderOk(h)
    ensures ParseBody(h, input).Ok? ==> |ParseBody(h, input).value.1| <= |input|
  {
    hide ParseRanges, SkipTimestamps, Validates;
    if ParseBody(h, input).Ok? {
      if h.has {
        RangesProgress(h, input);
        TimestampsProgress(ParseRanges(h, input).value.1);
      } else {
        TimestampsProgress(input);
      }
    }
  }

  lemma HeaderProgress(input: seq<byte>)
    ensures ReadHeader(input).Ok? ==> |ReadHeader(input).value.1| < |input|
  {
  }

  lemma StreamProgress(input: seq<byte>)
    requires input != []
    ensures Streams.Parse(input).Ok? ==> |Streams.Parse(input).value.1| < |input|
  {
  }

  lemma StopProgress(input: seq<byte>, packetNumber: nat, packetNumberLen: nat)
    requires input != []
    ensures var r := StopWaiting.Parse(input, packetNumber, packetNumberLen); r.Ok? ==> |r.value.1| < |input|
  {
  }

  /** Every frame takes at least a byte. */
  lemma FrameProgress(input: seq<byte>, packetNumber: nat, packetNumberLen: nat)
    requires input != []
    ensures var r := ParseFrame(input, packetNumber, packetNumberLen); r.Ok? ==> |r.value.1| < |input|
  {
    hide ReadHeader, ParseBody, Pow256, Streams.Parse, StopWaiting.Parse;
    StreamProgress(input);
    StopProgress(input, packetNumber, packetNumberLen);
    HeaderProgress(input);
    if ReadHeader(input).Ok? {
      BodyProgress(ReadHeader(input).value.0, ReadHeader(input).value.1);
    }
  }

  /** All frames of a payload; padding is skipped, and unencrypted data is only allowed on the crypto stream. */
  function ParseFrames(input: seq<byte>, packetNumber: nat, packetNumberLen: nat, encrypted: bool): Result<seq<Frame>>
    decreases |input|
  {
    if input == [] then Ok([])
    else if input[0] == 0 then ParseFrames(input[1..], packetNumber, packetNumberLen, encrypted)
    else
      FrameProgress(input, packetNumber, packetNumberLen);
      var (f, rest) :- ParseFrame(input, packetNumber, packetNumberLen);
      if f.Stream? && f.stream.streamID != 1 && !encrypted then Err
      else
        var more :- ParseFrames(rest, packetNumber, packetNumberLen, encrypted);
        Ok([f] + more)
  }

  /** The STREAM frames are all of the crypto stream. */
  ghost predicate OnlyCrypto(fs: seq<Frame>) {
    forall f | f in fs && f.Stream? :: f.stream.streamID == 1
  }

  lemma OnlyCryptoConcat(f: Frame, fs: seq<Frame>)
    ensures OnlyCrypto([f] + fs) <==> (f.Stream? ==> f.stream.streamID == 1) && OnlyCrypto(fs)
  {
    assert f in [f] + fs && forall g | g in fs :: g in [f] + fs;
  }

  /**
   Without encryption, the same payloads are accepted and give the same frames, unless they carry data of a stream other
   than the crypto stream.
   */
  lemma {:induction false} UnencryptedExactly(input: seq<byte>, packetNumber: nat, packetNumberLen: nat)
    ensures var r := ParseFrames(input, packetNumber, packetNumberLen, true);
      ParseFrames(input, packetNumber, packetNumberLen, false) == if r.Ok? && !OnlyCrypto(r.value) then Err else r
    decreases |input|
  {
    hide ParseFrame, OnlyCrypto;
    if input == [] {
      assert OnlyCrypto([]) by { NoStreams(); }
    } else if input[0] == 0 {
      UnencryptedExactly(input[1..], packetNumber, packetNumberLen);
    } else {
      FrameProgress(input, packetNumber, packetNumberLen);
      var r := ParseFrame(input, packetNumber, packetNumberLen);
      if r.Ok? {
        UnencryptedExactly(r.value.1, packetNumber, packetNumberLen);
        var more := ParseFrames(r.value.1, packetNumber, packetNumberLen, true);
        if more.Ok? { OnlyCryptoConcat(r.value.0, more.value); }
      }
    }
  }

  lemma NoStreams()
    ensures OnlyCrypto([])
  {
  }

  function Padding(n: nat): (p: seq<byte>)
    ensures |p| == n
  {
    seq(n, _ => 0)
  }

  /** Padding is skipped. */
  lemma {:induction false} PaddingIsSkipped(n: nat, input: seq<byte>, packetNumber: nat, packetNumberLen: nat,
    encrypted: bool)
    ensures ParseFrames(Padding(n) + input, packetNumber, packetNumberLen, encrypted)
      == ParseFrames(input, packetNumber, packetNumberLen, encrypted)
  {
    hide ParseFrame;
    if n == 0 {
      assert Padding(0) + input == input;
    } else {
      assert (Padding(n) + input)[1..] == Padding(n - 1) + input;
      PaddingIsSkipped(n - 1, input, packetNumber, packetNumberLen, encrypted);
    }
  }

  function After(fs: seq<Frame>, more: Result<seq<Frame>>): Result<seq<Frame>> {
    if more.Ok? then Ok(fs + more.value) else Err
  }

  lemma AfterNothing(more: Result<seq<Frame>>)
    ensures After([], more) == more
  {
    if more.Ok? { assert [] + more.value == more.value; }
  }

  lemma AfterOne(fs: seq<Frame>, f: Frame, more: Result<seq<Frame>>)
    ensures After(fs, After([f], more)) == After(fs + [f], more)
  {
    if more.Ok? { assert fs + ([f] + more.value) == (fs + [f]) + more.value; }
  }

  /** The loop over the decrypted payload. */
  method Unpack(payload: seq<byte>, packetNumber: nat, packetNumberLen: nat, encrypted: bool)
    returns (r: Result<seq<Frame>>)
    ensures r == if payload == [] then Err else ParseFrames(payload, packetNumber, packetNumberLen, encrypted)
  {
    hide ParseFrame;
    if payload == [] {
      return Err;
    }
    var rest, fs := payload, [];
    AfterNothing(ParseFrames(payload, packetNumber, packetNumberLen, encrypted));
    while rest != []
      invariant ParseFrames(payload, packetNumber, packetNumberLen, encrypted)
        == After(fs, ParseFrames(rest, packetNumber, packetNumberLen, encrypted))
      decreases |rest|
    {
      if rest[0] == 0 {
        rest := rest[1..];
        continue;
      }
      FrameProgress(rest, packetNumber, packetNumberLen);
      var parsed := ParseFrame(rest, packetNumber, packetNumberLen);
      if parsed.Err? {
        return Err;
      }
      var frame := parsed.value.0;
      if frame.Stream? && frame.stream.streamID != 1 && !encrypted {
        return Err;
      }
      AfterOne(fs, frame, ParseFrames(parsed.value.1, packetNumber, packetNumberLen, encrypted));
      fs, rest := fs + [frame], parsed.value.1;
    }
    assert fs + [] == fs;
    return Ok(fs);
  }

  /** The bytes of frames, one after the other. */
  ghost function Payload(fs: seq<Frame>): seq<byte>
    requires forall f | f in fs :: Typed(f)
  {
    if fs == [] then []
    else (if FrameBytes(fs[0]).Ok? then FrameBytes(fs[0]).value else []) + Payload(fs[1..])
  }

  /** Each frame can be carried in front of those after it; so one without a length can only be the last. */
  ghost predicate AllSendable(fs: seq<Frame>, packetNumber: nat, packetNumberLen: nat)
    requires forall f | f in fs :: Typed(f)
  {
    fs != [] ==> AllSendable(fs[1..], packetNumber, packetNumberLen) && Sendable(fs[0], Payload(fs[1..]), packetNumber,
      packetNumberLen)
  }

  ghost function DeliveredAll(fs: seq<Frame>): (ds: seq<Frame>)
    requires forall f | f in fs :: Typed(f)
    ensures |ds| == |fs|
  {
    seq(|fs|, i requires 0 <= i < |fs| => assert fs[i] in fs; Delivered(fs[i]))
  }

  /** The bytes of frames, with some padding in front of each of them and at the end. */
  ghost function Padded(fs: seq<Frame>, gaps: seq<nat>): seq<byte>
    requires (forall f | f in fs :: Typed(f)) && |gaps| == |fs| + 1
  {
    Padding(gaps[0])
    + if fs == [] then []
    else (if FrameBytes(fs[0]).Ok? then FrameBytes(fs[0]).value else []) + Padded(fs[1..], gaps[1..])
  }

  ghost predicate AllSendableIn(fs: seq<Frame>, gaps: seq<nat>, packetNumber: nat, packetNumberLen: nat)
    requires (forall f | f in fs :: Typed(f)) && |gaps| == |fs| + 1
  {
    fs != [] ==>
      && AllSendableIn(fs[1..], gaps[1..], packetNumber, packetNumberLen)
      && Sendable(fs[0], Padded(fs[1..], gaps[1..]), packetNumber, packetNumberLen)
  }

  /** Unpacking gives the same frames in the same order, whatever the padding. */
  lemma {:induction false} UnpackPadded(fs: seq<Frame>, gaps: seq<nat>, packetNumber: nat, packetNumberLen: nat)
    requires (forall f | f in fs :: Typed(f)) && |gaps| == |fs| + 1
      && AllSendableIn(fs, gaps, packetNumber, packetNumberLen)
    ensures ParseFrames(Padded(fs, gaps), packetNumber, packetNumberLen, true) == Ok(DeliveredAll(fs))
  {
    hide ParseFrame, FrameBytes, Sendable, Typed;
    if fs == [] {
      PaddingIsSkipped(gaps[0], [], packetNumber, packetNumberLen, true);
      assert DeliveredAll(fs) == [];
    } else {
      var f, rest := fs[0], Padded(fs[1..], gaps[1..]);
      UnpackPadded(fs[1..], gaps[1..], packetNumber, packetNumberLen);
      ReadWrittenFrame(f, rest, packetNumber, packetNumberLen);
      var bytes := FrameBytes(f).value + rest;
      PaddingIsSkipped(gaps[0], bytes, packetNumber, packetNumberLen, true);
      assert bytes[0] == FrameBytes(f).value[0];
      assert DeliveredAll(fs) == [Delivered(f)] + DeliveredAll(fs[1..]);
    }
  }

  /** Unpacking what was packed gives the same frames in the same order. */
  lemma {:induction false} UnpackPacked(fs: seq<Frame>, packetNumber: nat, packetNumberLen: nat, encrypted: bool)
    requires (forall f | f in fs :: Typed(f)) && AllSendable(fs, packetNumber, packetNumberLen)
    requires forall f | f in fs && f.Stream? :: encrypted || f.stream.streamID == 1
    ensures ParseFrames(Payload(fs), packetNumber, packetNumberLen, encrypted) == Ok(DeliveredAll(fs))
  {
    hide ParseFrame, FrameBytes, Sendable, Typed;
    if fs == [] {
      assert DeliveredAll(fs) == [];
    } else {
      var f, rest := fs[0], Payload(fs[1..]);
      UnpackPacked(fs[1..], packetNumber, packetNumberLen, encrypted);
      ReadWrittenFrame(f, rest, packetNumber, packetNumberLen);
      assert Payload(fs) == FrameBytes(f).value + rest;
      assert Payload(fs)[0] == FrameBytes(f).value[0];
      assert DeliveredAll(fs) == [Delivered(f)] + DeliveredAll(fs[1..]);
      assert f in fs;
    }
  }
}
