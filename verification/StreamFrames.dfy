/** STREAM frames on the wire (frames/stream_frame.go). */
module StreamFrames {
  import opened Common
  import opened Sequences
  import opened Wire

  /** The bytes for a stream ID. */
  function StreamIDLength(id: nat): (l: nat)
    ensures 1 <= l <= 4
  {
    if id < 0x100 then 1 else if id < 0x1_0000 then 2 else if id < 0x100_0000 then 3 else 4
  }

  /** The bytes for an offset: none for 0, and never one. */
  function OffsetLength(offset: nat): (l: nat)
    ensures l <= 8 && l != 1 && (l == 0 <==> offset == 0)
  {
    if offset == 0 then 0
    else if offset < 0x1_0000 then 2
    else if offset < 0x100_0000 then 3
    else if offset < 0x1_0000_0000 then 4
    else if offset < 0x100_0000_0000 then 5
    else if offset < 0x1_0000_0000_0000 then 6
    else if offset < 0x100_0000_0000_0000 then 7
    else 8
  }

  /** The bytes in front of the data. */
  function MinLength(f: StreamFrame): (l: nat)
    ensures l <= 15
  {
    1 + StreamIDLength(f.streamID) + OffsetLength(f.offset) + if f.dataLenPresent then 2 else 0
  }

  function TypeByte(fin: bool, dataLenPresent: bool, offsetLen: nat, idLen: nat): byte
    requires 1 <= idLen <= 4 && offsetLen <= 8 && offsetLen != 1
  {
    0x80 + (if fin then 0x40 else 0) + (if dataLenPresent then 0x20 else 0)
      + (if offsetLen > 0 then (offsetLen - 1) * 4 else 0) + (idLen - 1)
  }

  /** What the type byte says: FIN, whether there is a length of the data, and the lengths of offset and stream ID. */
  function Fields(t: byte): (r: (bool, bool, nat, nat))
    ensures r.2 <= 8 && 1 <= r.3 <= 4
  {
    var bits := t / 4 % 8;
    (t / 0x40 % 2 == 1, t / 0x20 % 2 == 1, if bits == 0 then 0 else bits + 1, t % 4 + 1)
  }

  lemma Digits(a: nat, b: nat, c: nat, d: nat)
    requires a < 4 && b < 8 && c < 2 && d < 2
    ensures var t := 0x80 + d * 0x40 + c * 0x20 + b * 4 + a;
      t % 4 == a && t / 4 % 8 == b && t / 0x20 % 2 == c && t / 0x40 % 2 == d && t / 0x80 == 1
  {
    var t := 0x80 + d * 0x40 + c * 0x20 + b * 4 + a;
    assert t / 4 == 0x20 + d * 0x10 + c * 8 + b;
    assert t / 0x20 == 4 + d * 2 + c;
    assert t / 0x40 == 2 + d;
  }

  lemma TypeByteFields(fin: bool, dataLenPresent: bool, offsetLen: nat, idLen: nat)
    requires 1 <= idLen <= 4 && offsetLen <= 8 && offsetLen != 1
    ensures var t := TypeByte(fin, dataLenPresent, offsetLen, idLen);
      Fields(t) == (fin, dataLenPresent, offsetLen, idLen) && t / 0x80 == 1
  {
    Digits(idLen - 1, if offsetLen > 0 then offsetLen - 1 else 0, if dataLenPresent then 1 else 0,
      if fin then 1 else 0);
  }

  /** The bytes of a frame. An empty frame without FIN is refused. */
  function Write(f: StreamFrame): (r: Result<seq<byte>>)
    ensures r.Ok? <==> f.data != [] || f.fin
    ensures r.Ok? ==> |r.value| == MinLength(f) + |f.data|
  {
    if f.data == [] && !f.fin then Err
    else
      var length: seq<byte> := if f.dataLenPresent then ToBytes(|f.data|, 2) else [];
      Ok([TypeByte(f.fin, f.dataLenPresent, OffsetLength(f.offset), StreamIDLength(f.streamID))] +
         (ToBytes(f.streamID, StreamIDLength(f.streamID))
          + (ToBytes(f.offset, OffsetLength(f.offset)) + (length + f.data))))
  }

  /** A frame and the bytes after it. What is accepted never ends beyond the last offset, and is empty only with FIN. */
  function Parse(input: seq<byte>): (r: Result<(StreamFrame, seq<byte>)>)
    ensures r.Ok? ==> var f := r.value.0;
      |r.value.1| < |input| && f.offset + |f.data| < TWO_64 && (f.data != [] || f.fin)
  {
    var (t, rest) :- ReadByte(input);
    var (fin, dataLenPresent, offsetLen, idLen) := Fields(t);
    var (id, rest) :- ReadUint(rest, idLen);
    var (offset, rest) :- ReadUint(rest, offsetLen);
    var (given, rest) :- if dataLenPresent then ReadUint(rest, 2) else Ok((0, rest));
    if given > MAX_PACKET_SIZE then Err
    else
      var dataLen := if dataLenPresent then given else |rest| % 0x1_0000;
      if dataLen > |rest| then Err
      else
        var f := StreamFrame(id, fin, dataLenPresent, offset, rest[..dataLen]);
        if offset + dataLen >= TWO_64 then Err
        else if !fin && dataLen == 0 then Err
        else Ok((f, rest[dataLen..]))
  }

  lemma LengthsFit(id: nat, offset: nat)
    requires id < 0x1_0000_0000 && offset < TWO_64
    ensures id < Pow256(StreamIDLength(id)) && offset < Pow256(OffsetLength(offset))
  {
    PowValues();
  }

  /** What can be written and read back; without a length, the frame goes to the end of the packet. */
  ghost predicate Encodable(f: StreamFrame, rest: seq<byte>) {
    && f.streamID < 0x1_0000_0000 && f.offset + |f.data| < TWO_64 && (f.data != [] || f.fin)
    && if f.dataLenPresent then |f.data| <= MAX_PACKET_SIZE else rest == [] && |f.data| < 0x1_0000
  }

  lemma Split<T>(a: seq<T>, b: seq<T>)
    ensures (a + b)[..|a|] == a && (a + b)[|a|..] == b
  {
  }

  lemma Whole(none: seq<byte>, data: seq<byte>, rest: seq<byte>)
    requires none == [] && rest == [] && |data| < 0x1_0000
    ensures none + (data + rest) == data + rest && |data + rest| % 0x1_0000 == |data|
  {
  }

  lemma ReadWrittenStream(f: StreamFrame, rest: seq<byte>)
    requires Encodable(f, rest)
    ensures Parse(Write(f).value + rest) == Ok((f, rest))
  {
    hide ToBytes, Pow256, FromBytes, TypeByte, Fields, OffsetLength, StreamIDLength, ReadUint, ReadByte, MinLength;
    var t := TypeByte(f.fin, f.dataLenPresent, OffsetLength(f.offset), StreamIDLength(f.streamID));
    TypeByteFields(f.fin, f.dataLenPresent, OffsetLength(f.offset), StreamIDLength(f.streamID));
    LengthsFit(f.streamID, f.offset);
    PowValues();
    var length: seq<byte> := if f.dataLenPresent then ToBytes(|f.data|, 2) else [];
    var r3 := f.data + rest;
    var r2 := length + r3;
    var r1 := ToBytes(f.offset, OffsetLength(f.offset)) + r2;
    var r0 := ToBytes(f.streamID, StreamIDLength(f.streamID)) + r1;
    ConcatLast([t], ToBytes(f.streamID, StreamIDLength(f.streamID)), ToBytes(f.offset, OffsetLength(f.offset)), length,
      f.data, rest);
    assert Write(f).value + rest == [t] + r0;
    ReadWrittenByte(t, r0);
    ReadWritten(f.streamID, StreamIDLength(f.streamID), r1);
    ReadWritten(f.offset, OffsetLength(f.offset), r2);
    if f.dataLenPresent {
      ReadWritten(|f.data|, 2, r3);
    } else {
      Whole(length, f.data, rest);
    }
    Split(f.data, rest);
  }
}
