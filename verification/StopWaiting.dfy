/** STOP_WAITING frames (frames/stop_waiting_frame.go). */
module StopWaiting {
  import opened Common
  import opened Wire

  datatype StopWaitingFrame = StopWaitingFrame(leastUnacked: nat, packetNumberLen: nat, packetNumber: nat)

  /** The difference to the number of the packet that carries the frame is written, in as many bytes as that number. */
  function Write(f: StopWaitingFrame): (r: Result<seq<byte>>)
    ensures r.Ok? <==> 0 < f.packetNumber && f.leastUnacked <= f.packetNumber && f.packetNumberLen in {1, 2, 4, 6}
    ensures r.Ok? ==> MinLength(f) == Ok(|r.value|)
  {
    if f.packetNumber == 0 || f.leastUnacked > f.packetNumber || f.packetNumberLen !in {1, 2, 4, 6} then Err
    else Ok([0x06] + ToBytes(f.packetNumber - f.leastUnacked, f.packetNumberLen))
  }

  function MinLength(f: StopWaitingFrame): Result<nat> {
    if f.packetNumberLen == 0 then Err else Ok(1 + f.packetNumberLen)
  }

  /** The least unacknowledged packet, and the bytes after the frame. */
  function Parse(input: seq<byte>, packetNumber: nat, packetNumberLen: nat): (r: Result<(nat, seq<byte>)>)
    ensures r.Ok? ==> r.value.0 <= packetNumber
  {
    var (_, rest) :- ReadByte(input);
    var (delta, rest) :- ReadUint(rest, packetNumberLen);
    if delta > packetNumber then Err else Ok((packetNumber - delta, rest))
  }

  lemma {:induction false} ToBytesModulo(v: nat, n: nat)
    ensures FromBytes(ToBytes(v, n)) < Pow256(n)
  {
    FromBytesBound(ToBytes(v, n));
  }

  /** A written frame is read back exactly when the difference fits into the length of the packet number. */
  lemma ReadBack(f: StopWaitingFrame, rest: seq<byte>)
    requires Write(f).Ok?
    ensures Parse(Write(f).value + rest, f.packetNumber, f.packetNumberLen) == Ok((f.leastUnacked, rest))
       <==> f.packetNumber - f.leastUnacked < Pow256(f.packetNumberLen)
  {
    var delta := f.packetNumber - f.leastUnacked;
    var bytes := ToBytes(delta, f.packetNumberLen);
    assert Write(f).value + rest == [0x06] + (bytes + rest);
    ReadWrittenByte(0x06, bytes + rest);
    ToBytesModulo(delta, f.packetNumberLen);
    if delta < Pow256(f.packetNumberLen) {
      ReadWritten(delta, f.packetNumberLen, rest);
    } else {
      assert (bytes + rest)[..f.packetNumberLen] == bytes;
    }
  }
}
