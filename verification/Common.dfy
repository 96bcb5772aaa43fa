/** Types and constants shared by the components (protocol/protocol.go, protocol/server_parameters.go). */
module Common {

  type byte = b: int | 0 <= b < 0x100

  datatype Option<+T> = None | Some(value: T)

  datatype Result<+T> = Ok(value: T) | Err {
    predicate IsFailure() {
      Err?
    }

    function PropagateFailure<U>(): Result<U>
      requires Err?
    {
      Err
    }

    function Extract(): T
      requires Ok?
    {
      value
    }
  }

  /** The largest uint64, and the end of the last gap of every stream. */
  const MAX_BYTE_COUNT: nat := 0xFFFF_FFFF_FFFF_FFFF

  /** One more than the largest uint64: arithmetic on PacketNumber and ByteCount is modulo this number. */
  const TWO_64: nat := 0x1_0000_0000_0000_0000

  /** One more than the largest packet number that fits into 6 bytes. */
  const TWO_48: nat := 0x1_0000_0000_0000

  const MAX_PACKET_SIZE: nat := 1350

  datatype Perspective = Server | Client

  function Min(a: int, b: int): int {
    if a < b then a else b
  }

  function Max(a: int, b: int): int {
    if a < b then b else a
  }

  /** A STREAM frame (frames/stream_frame.go). */
  datatype StreamFrame = StreamFrame(streamID: nat, fin: bool, dataLenPresent: bool, offset: nat, data: seq<byte>)
}
