# Google QUIC transport, modelled and proved in Dafny

This project models the transport core of a Go implementation of Google QUIC (versions 35 to 37) and proves what it
promises: that received bytes come out in order, that both sides agree about which packets arrived, that packets fit and
can be taken apart again, that flow control is respected, and that every stream has its turn. `dafny verify
dfyconfig.toml` checks all of it.

## What is modelled

| part of the system | modules |
|---|---|
| reassembly of a stream from overlapping, reordered and repeated frames | `ByteIntervals`, `FrameSorter`, `StreamReader`, `StreamRuns` |
| the linked lists underneath | `RingList`, `GapRing` |
| ACK frames: values, block splitting, wire format, loops | `AckFrames`, `AckBlocks`, `AckCodec`, `AckFrameIO`, `Float16` |
| the receiver's record of packets, and its ACKs | `ReceivedHistory`, `ReceivedHandler`, `ReceiverRuns` |
| the sender's record of packets, loss, retransmission, STOP_WAITING | `SentPackets`, `AckScan`, `SenderBooks`, `SentHandler`, `StopWaiting`, `SenderReference`, `SenderRuns` |
| packet numbers: drawing, truncating, inferring | `PacketNumberGeneration`, `PacketNumbers` |
| flow control on two levels | `FlowLedgers`, `FlowControl`, `FlowReference`, `FlowRuns` |
| the stream table and the round-robin scheduler | `Schedule`, `StreamsMap` |
| the sending side of streams, and the framer | `StreamWriter`, `Retransmissions`, `StreamFramer` |
| a stream from its writer to its reader, through frames that are cut and sent again | `Descent`, `EndToEnd`, `SessionStreams` |
| frames and headers on the wire, packing and unpacking | `Wire`, `StreamFrames`, `Frames`, `PublicHeaders`, `Unpacker`, `PacketSizes`, `PacketPacker` |
| the session's rounds of sending, with books, numbers and packer together | `SessionSends` |
| an ACK from the receiver's record to the other side | `AckDelivery` |
| inputs on which the code fails | `FailingRuns`, `FailingHandshake` |
| shared | `Common`, `Sequences`, `Arithmetic` |

Objects that the Go code updates in place are classes; their methods say what the new state is. Loops are loops, proved
against a function or predicate that says what they are for. Ghost state records what the program does not: the fate of
every packet ever sent, every frame ever made of a stream, every flow controller ever created. Each section that the Go
code runs under a mutex, and each call of the framer's callback, is one step. The clock, the round-trip time, random
numbers, the congestion window, the encryption level and the peer are parameters. The method called `Run`, `Deliver`,
`Transfer` or `Acknowledge` of a component plays an arbitrary sequence of events from the initial state. Its contract
says that the outcome is the one of a reference, which is a function of the events (`Replay`) or the set of bytes that
arrived, and states what holds of every outcome.

## What does not hold

Where the code does not do what it promises, the model keeps the code, shows an input, and states exactly when it does:

- A FIN stays on a frame that is cut at its end, so that a reader can be told too early that the stream is over.
  `StreamRuns.FinCutShort` is such a run, with frames as the sender cuts them; `StreamReader.ArrivalKeepsFins` says it happens if and only if such a frame is
  stored and its last byte had arrived before. A frame of which everything had arrived is not stored, and its FIN is lost.
- An empty FIN frame replaces whatever is queued at its offset, as in `FailingRuns.EmptyFinOverwrites`.
  `FrameSorter.EmptyFrameKeepsTiles` says this is harmless if and only if no live frame is there. In any case the reader
  gets no wrong byte (`StreamRuns.Deliver`).
- "No end gap found" is reported if and only if a frame ends at the last possible offset
  (`FailingRuns.EndsAtLargestCount`); "no gap found" is never reported (`FrameSorter.Pushed`, the contract of `Push`).
- `AckFrame.Write` fails on a well-formed frame if and only if the first gap needs 255 blocks or more
  (`AckFrameIO.Write`), as it does after packets 1 and 100000 (`FailingRuns.AckRefused`).
- A STOP_WAITING frame may delete the largest packet seen from the history, after which an ACK cannot be built
  (`FailingRuns.StopWaitingTooFar`); `ReceivedPacketHandler.ReceivedStopWaiting` says this happens if and only if the frame
  names a packet above all that were seen or ignored. A frame that is handled after its carrier never does.
- The documentation of the packet number generator promises random skips. A new generator never skips a number
  (`PacketNumberGeneration.Draw`), because the first number to skip is 0.
- A packet number is recovered from its low bytes if and only if `PacketNumbers.Recoverable` holds, which includes ties and
  the first epoch, where the subtraction wraps around (`PacketNumbers.InferExact`). The length that the sender chooses is
  not always enough: it looks at the oldest packet in its history, but an alarm takes packets out of the history that are
  not acknowledged, and then a receiver may be further behind. `FailingRuns.NumberNotRecovered` is such a run.
- A handshake packet must fit when it is sent again as a whole. The packer leaves room for that until `SetForwardSecure`,
  but a server is told so before it has sent its SHLO, and packs with the secure level until then. In
  `FailingHandshake.HandshakeTooLarge` such a packet is lost, and the packer then refuses it as too large, which closes
  the session. `Packer.RetransmitNonForwardSecurePacket` and `Session.Retransmit` say that this happens if and only if the
  header, the STOP_WAITING frame and the frames that are kept exceed the packet, and `SessionSends.Session.SendPacket`
  that it never happens if no packet is packed below the forward-secure level after `SetForwardSecure`.
- A WINDOW_UPDATE frame of the connection that is lost is not sent again, because its stream ID is that of no stream
  (`SessionSends.Session.ConnectionWindowIsNotDue`). One of a stream is, if and only if the stream is open and its window
  has not grown since (`SessionSends.IsDue`, in the contract of `SendFramesAgain`).
- `SentPacket` refuses an empty packet only after it has noted the numbers before it as skipped. These may be used
  afterwards, and then their ACK is refused (`SentHandler.NotedNumberRefused`). Its contract says that skipped numbers stay
  unused if and only if the packet is not an empty one with numbers before it.
- `Write` does not look at `Close`: bytes that are written after FIN was sent are framed behind it, whether the FIN went
  alone (`FailingRuns.WriteAfterFin`) or with other bytes, in which case the reader is told that the stream is over before
  them (`FailingRuns.WriteAfterFinWithData`). A FIN lies before the end of what was written if and only if bytes were
  written after one was sent (`StreamWriter.Stream.LateIsEarlyFin`). The reader gets a prefix of what was written all the
  same. That the end of file comes after everything that was written, and that it comes at all, is promised if no bytes
  were written after a FIN was sent; the first also needs that no FIN arrives on a frame that is cut at its end
  (`EndToEnd.Transfer`).
- A stream that receives more than its own window allows counts bytes that the connection does not
  (`FailingRuns.StreamAhead`). `UpdateHighestReceived` and `ResetStream` say that the sums disagree if and only if the
  offset is above the window of a stream that contributes; a violation of the connection's window leaves them equal.

## Model

| member | source | states |
|---|---|---|
| `ByteIntervals.SubtractCovers` | stream_frame_sorter.go:104-130 | the reference for the gap list: cutting a frame out of the gaps removes exactly its bytes |
| `ByteIntervals.SubtractCanonical` | stream_frame_sorter.go:104-130 | gaps stay non-empty, sorted, disjoint and separated, inside their old bounds |
| `ByteIntervals.SubtractRun` | stream_frame_sorter.go:78-130 | cutting a frame out touches only the gaps it reaches and leaves at most two pieces of them |
| `ByteIntervals.CanonicalUnique` | stream_frame_sorter.go:51-143 | a set of missing bytes has one gap list |
| `FrameSorter.EmptyFrameKeepsTiles` | stream_frame_sorter.go:33-39 | an empty FIN frame leaves the partition of received bytes into queued frames intact if and only if it does not land on a live frame |
| `FrameSorter.StoreKeepsTiles` | stream_frame_sorter.go:136-143 | storing the cut frame keeps the queued frames an exact partition of what was received and not read |
| `FrameSorter.PlacedGaps` | stream_frame_sorter.go:51-130 | all cases of cutting, splitting and removing gaps together are the reference cut |
| `FrameSorter.RepeatedIsDuplicate` | stream_frame_sorter.go:42-64 | a frame that is reported as a duplicate brings no new byte |
| `FrameSorter.PlacedIsMissingPart` | stream_frame_sorter.go:70-102 | a frame that is stored had a missing byte; what is stored is its part from the first missing byte to the last one, and nothing else in the queue is new |
| `FrameSorter.StoredState` | stream_frame_sorter.go:132-143 | a stored frame leaves canonical gaps, a sound queue, the partition, and the partly read head untouched |
| `FrameSorter.DuplicateState` | stream_frame_sorter.go:42-60 | a duplicate changes nothing; with an intact partition it is reported if and only if all bytes had arrived |
| `FrameSorter.NoEndGapState` | stream_frame_sorter.go:80-84 | the missing end gap is reported if and only if the frame ends at the largest byte count |
| `FrameSorter.StreamFrameSorter.constructor` | stream_frame_sorter.go:23-30 | everything is missing at first |
| `FrameSorter.StreamFrameSorter.FindGap` | stream_frame_sorter.go:54-68 | finds the first gap that the frame meets or touches; a gap list that reaches the end always has one or the frame is a duplicate |
| `FrameSorter.StreamFrameSorter.SwallowGaps` | stream_frame_sorter.go:78-94 | finds the last gap that the frame reaches, and removes from the queue exactly the frames at the ends of the gaps before it |
| `FrameSorter.StreamFrameSorter.AdjustGaps` | stream_frame_sorter.go:104-130 | the five ways to adjust gaps leave the pieces before and after the frame |
| `FrameSorter.StreamFrameSorter.Place` | stream_frame_sorter.go:51-130 | cuts the frame to what is missing, and the gaps to what is still missing |
| `FrameSorter.StreamFrameSorter.Insert` | stream_frame_sorter.go:41-143 | where a frame with data ends up, with all results |
| `FrameSorter.StreamFrameSorter.Push` | stream_frame_sorter.go:32-144 | which result, exactly when; the new gaps are the old ones without the frame; the partition, the head and the soundness of the queue are kept |
| `FrameSorter.StreamFrameSorter.Pop` | stream_frame_sorter.go:146-161 | takes the head and moves the read position by its length; the partition is kept |
| `StreamReader.ArrivalKeepsReady` | stream.go:239-254 | frames of one stream in any order and with any overlap keep the queue a partition of its received bytes |
| `StreamReader.ArrivalKeepsFins` | stream_frame_sorter.go:96-102 | when a frame is stored, queued FINs stay at the end of the stream if and only if the last byte of a FIN frame is new |
| `StreamReader.ArrivalKeepsWindow` | stream.go:71-145 | arriving frames never alter the frame that is partly read |
| `StreamReader.ArrivalKeepsEnd` | stream_frame_sorter.go:32-144 | once the end of the stream is queued it stays queued where the reader gets to it, and a FIN at the end without bytes or with a new last byte queues it |
| `StreamReader.ArrivalKeepsSafe` | stream_frame_sorter.go:32-144 | frames with bytes of the stream keep all queued bytes at their places, whatever FINs they have |
| `StreamReader.ArrivalKeepsHold` | stream.go:71-145 | only a FIN without bytes can take the place of a frame that is being read |
| `StreamReader.PopKeeps` | stream.go:132-141 | popping a frame read to its end never moves the read position past the reader, unless the stream is finished |
| `StreamReader.Stream.AddStreamFrame` | stream.go:239-254 | frames with bytes of the stream keep the reader on the stream, and frames of the stream lose nothing, the end of the stream included; an error only if a frame has neither bytes nor FIN or leaves too many gaps; otherwise the gaps are the old ones without the frame |
| `StreamReader.Stream.Fetch` | stream.go:84-121 | takes hold of the head of the queue; the BUG is reported if and only if the reader is past its end, which frames of the stream exclude |
| `StreamReader.Stream.CopyOut` | stream.go:112-124 | copies the next bytes of the stream, as many as there is room for or the frame has |
| `StreamReader.Stream.FinishFrame` | stream.go:132-141 | pops a frame that is read to its end; the end of the stream is reported if and only if it has FIN |
| `StreamReader.Stream.ReadFrame` | stream.go:83-142 | one turn of the loop of Read: blocks if and only if the next byte is missing |
| `StreamReader.Stream.Read` | stream.go:71-145 | gets the next bytes of the stream, whatever FINs arrived; with frames of the stream up to the first missing byte, as far as there is room; with room to spare, and the end of the stream queued without a gap before it, it reports the end of file |
| `StreamRuns.Step` | stream.go:71-145 | any arrival between any two critical sections of Read keeps the reader on the stream |
| `StreamRuns.MovingCopy` | stream.go:83-142 | a turn of the reader gets it at least one byte further, if that byte has arrived |
| `StreamRuns.Deliver` | stream.go:71-145 | over every run of frames with bytes of the stream, whatever their FINs, the bytes read are a prefix of the stream; if FINs without bytes are at the end, a last read gets everything before the first byte in no frame, and at the end of file with clean FINs it is the whole stream; once the whole stream and its end have arrived, a last read with room to spare is at the end of file; before that read the reader gets no more than it had room for, and with clean FINs each of its turns gets it further; a run fails only at a frame without bytes and FIN or with too many gaps |
| `StreamRuns.FinCutShort` | stream_frame_sorter.go:96-102 | a frame of the stream 1, 2, 3 arrives after the second of the two into which it was cut, and the reader is told that the stream ends after 2 |
| `RingList.Element.Next` | utils/byteinterval_linkedlist.go:29-34 | the next element of the sequence, or none |
| `RingList.Element.Prev` | utils/byteinterval_linkedlist.go:37-42 | the element before, or none |
| `RingList.List.Init` | utils/byteinterval_linkedlist.go:52-57 | the list becomes an empty ring |
| `RingList.List.Front` | utils/byteinterval_linkedlist.go:67-72 | the first element |
| `RingList.List.Back` | utils/byteinterval_linkedlist.go:75-80 | the last element |
| `RingList.List.LazyInit` | utils/byteinterval_linkedlist.go:83-87 | the zero value becomes an empty ring |
| `RingList.List.Insert` | utils/byteinterval_linkedlist.go:90-99 | the pointer surgery is an insertion into the sequence, and changes nothing but the element and its two neighbours |
| `RingList.List.Unlink` | utils/byteinterval_linkedlist.go:107-115 | the pointer surgery is a removal from the sequence, and changes nothing but the element and its two neighbours |
| `RingList.List.Remove` | utils/byteinterval_linkedlist.go:119-126 | removes an element of this list, and leaves elements of other lists where they are |
| `RingList.List.PushFront` | utils/byteinterval_linkedlist.go:129-132 | prepends a value |
| `RingList.List.PushBack` | utils/byteinterval_linkedlist.go:135-138 | appends a value |
| `RingList.List.InsertBefore` | utils/byteinterval_linkedlist.go:142-148 | inserts a value before a mark of this list, and does nothing for other marks |
| `RingList.List.InsertAfter` | utils/byteinterval_linkedlist.go:152-158 | inserts a value after a mark of this list, and does nothing for other marks |
| `RingList.WalkForward` | stream_frame_sorter.go:56-64 | a walk over Front and Next meets the values of the sequence in order |
| `RingList.WalkBackward` | ackhandler/received_packet_history.go:123-135 | a walk over Back and Prev meets them in the opposite order |
| `RingList.List.SetValue` | stream_frame_sorter.go:113-128 | an edit of a value in place is an update of the sequence |
| `GapRing.FindGap` | stream_frame_sorter.go:54-68 | the walk over the ring finds the first gap that the frame reaches, or none if the frame brings nothing |
| `GapRing.SwallowGaps` | stream_frame_sorter.go:78-95 | the ring loses the gaps that the frame covers, and the queue the frames behind them |
| `GapRing.AdjustGaps` | stream_frame_sorter.go:104-130 | removing, editing and inserting elements cuts the frame out of the first and the last gap |
| `GapRing.Place` | stream_frame_sorter.go:51-130 | on the ring of gaps, edited in place, Push does what it does on the sequence of their values, with the same condition for a missing end gap |
| `Wire.ReadWritten` | utils/utils.go:9-129 | a number that fits is read back, whatever follows it |
| `Wire.ReadCut` | utils/utils.go:85-129 | a number that does not fit is cut to its low bytes |
| `Wire.ReadUintN` | utils/utils.go:9-19 | the loop reads the little-endian number |
| `Float16.WriteUfloat16` | utils/float16.go:54-86 | the binary search for the exponent finds the number of halvings that 12 bits need |
| `Float16.DecodeEncode` | utils/float16.go:25-86 | written and read back, a value is rounded down by less than one part in 2^11, and clamped at the maximum |
| `Float16.EncodeDecode` | utils/float16.go:25-86 | every bit pattern is the encoding of its value |
| `AckFrames.ValidateAckRanges` | frames/ack_frame.go:356-392 | the loop accepts exactly the frames that pass all checks, in uint64 arithmetic |
| `AckFrames.WellFormedValidates` | frames/ack_frame.go:356-392 | non-empty, descending, separated ranges within the bounds are accepted |
| `AckFrames.AcksPacket` | frames/ack_frame.go:452-468 | finds out whether a number is within the bounds and in a range; on a well-formed frame the bounds change nothing |
| `AckBlocks.GapBlocksCount` | frames/ack_frame.go:268-274 | how many blocks a gap is split into |
| `AckBlocks.KeptIsLongest` | frames/ack_frame.go:396-422 | the ranges that are written are the longest prefix whose blocks fit |
| `AckBlocks.FeedWritten` | frames/ack_frame.go:103-142 | reading the blocks undoes the splitting of gaps longer than 255 |
| `AckBlocks.NoWrapAround` | frames/ack_frame.go:117-129 | a range that passes the checks against the one before did not come from a subtraction that wrapped around |
| `AckBlocks.CheckedRanges` | frames/ack_frame.go:356-392 | checked ranges are descending, non-empty and separated |
| `AckCodec.AckBytesLength` | frames/ack_frame.go:334-349 | how long a written frame is |
| `AckCodec.ReadSent` | frames/ack_frame.go:37-331 | parsing a written frame gives the longest prefix of its ranges that fits, with the delay rounded, and leaves the bytes after it |
| `AckCodec.AcceptedIsWellFormed` | frames/ack_frame.go:37-191 | every accepted byte string gives descending, non-empty, separated ranges within the bounds, although the arithmetic wraps around |
| `AckFrameIO.ParseAckFrame` | frames/ack_frame.go:37-191 | the loops over blocks and timestamps compute what ReadSent and AcceptedIsWellFormed are about |
| `AckCodec.SkipExact` | frames/ack_frame.go:157-188 | exactly the bytes of the timestamps are skipped, or the frame is refused because they are cut |
| `AckFrameIO.ReadWithTimestamps` | frames/ack_frame.go:157-191 | a frame with any timestamps of the peer is read as the same frame without them, up to its last byte |
| `AckFrameIO.GetMissingSequenceNumberDeltaLen` | frames/ack_frame.go:424-449 | the loop finds the length that the longest range needs |
| `AckFrameIO.NumWritableNackRanges` | frames/ack_frame.go:396-422 | the loop counts the blocks of the ranges that are written |
| `AckFrameIO.MinLength` | frames/ack_frame.go:334-349 | exactly the number of bytes that are written |
| `AckFrameIO.WriteRange` | frames/ack_frame.go:268-316 | the blocks of one range |
| `AckFrameIO.WriteUntil` | frames/ack_frame.go:263-322 | the loop stops after the ranges that fit |
| `AckFrameIO.Write` | frames/ack_frame.go:194-331 | fails if and only if the bounds do not match the ranges or the first gap needs 255 blocks; otherwise writes the bytes that ReadSent reads |
| `AckFrameIO.WriteThenParse` | frames/ack_frame.go:37-331 | the round trip from end to end |
| `ReceivedHistory.CanonicalUnique` | ackhandler/received_packet_history.go:32-85 | a set of packet numbers has one interval list |
| `ReceivedHistory.AddToRanges` | ackhandler/received_packet_history.go:43-84 | extending, merging and inserting ranges adds one number to the set |
| `ReceivedHistory.TrimIn` | ackhandler/received_packet_history.go:88-109 | trimming the list is intersection with the numbers from the bound on |
| `ReceivedHistory.DeleteBelowIn` | ackhandler/received_packet_history.go:88-109 | the loop trims the list and the set alike |
| `ReceivedHistory.CountRanges` | ackhandler/received_packet_history.go:32-41 | there are as many ranges as numbers whose successor is missing |
| `ReceivedHistory.HighestBegins` | ackhandler/received_packet_history.go:137-145 | the highest range begins above a number if and only if something from that number on is missing |
| `ReceivedHistory.ReceivedPacketHistory.ReceivedPacket` | ackhandler/received_packet_history.go:32-85 | adds the number and keeps the list the canonical form of the set; refuses if and only if a limit is reached |
| `ReceivedHistory.ReceivedPacketHistory.DeleteBelow` | ackhandler/received_packet_history.go:88-109 | keeps exactly the numbers from the bound on |
| `ReceivedHistory.ReceivedPacketHistory.GetAckRanges` | ackhandler/received_packet_history.go:123-135 | the intervals in descending order, ready for an ACK frame |
| `ReceivedHandler.AckOfRanges` | ackhandler/received_packet_handler.go:143-166 | the frame acknowledges exactly the numbers of the history, is well-formed, and passes the checks of Write |
| `ReceivedHandler.ReceivedPacketHandler.ReceivedPacket` | ackhandler/received_packet_handler.go:50-77 | which packets are refused and why, exactly; what enters the history; when an ACK will be due, exactly |
| `ReceivedHandler.ReceivedPacketHandler.MaybeQueueAck` | ackhandler/received_packet_handler.go:91-141 | exactly when an ACK is queued and when the alarm is set, in terms of the set of packets received |
| `ReceivedHandler.ReceivedPacketHandler.ReceivedStopWaiting` | ackhandler/received_packet_handler.go:79-89 | deletes what is below; the largest packet stays in the history if and only if the frame does not name a packet above all seen or ignored ones |
| `ReceivedHandler.ReceivedPacketHandler.GetAckFrame` | ackhandler/received_packet_handler.go:143-166 | a frame exactly when one is due; it acknowledges exactly the history, and never indexes an empty list |
| `ReceiverRuns.Handle` | session.go:459-481 | a packet is recorded before its STOP_WAITING frame is handled; the history, the pending ACK and the error are what the reference says |
| `ReceiverRuns.Acknowledge` | session.go:459-481 | in every run there is an ACK exactly when one is due by the reference, each acknowledges exactly the packets of the reference, and the connection is closed exactly when a packet must be rejected |
| `ReceiverRuns.AlarmIsSoon` | ackhandler/received_packet_handler.go:124-137 | no alarm is set for later than the delay after the last event |
| `ReceiverRuns.AcknowledgedInTime` | ackhandler/received_packet_handler.go:91-166 | a packet that must be acknowledged is, by the first ACK asked for a delay after its arrival, unless the peer does not wait for it any more |
| `ReceiverRuns.PendingExactly` | ackhandler/received_packet_handler.go:91-166 | over any run, an ACK is queued exactly if a packet since the last one is the first ever, the twentieth, the second that must be acknowledged, one that was missing, or one that leaves another missing; otherwise the alarm is set for a delay after the one that must be acknowledged |
| `PacketNumbers.InferExact` | protocol/packet_number.go:4-28 | a receiver recovers a number from its low bytes if and only if it is close enough to the one expected next, with the exact rule for ties and the first epoch |
| `PacketNumbers.ChosenLengthSuffices` | protocol/packet_number.go:32-42 | the length that the sender chooses is enough for every receiver that has seen the packet before the oldest in the history, or a later one |
| `PacketNumberGeneration.PacketNumberGenerator.Pop` | packet_number_generator.go:31-43 | numbers grow by one or two; a number is left out exactly at the number to skip, and then the next two are used |
| `PacketNumberGeneration.PacketNumberGenerator.SkipIsNear` | packet_number_generator.go:46-58 | after a number was left out, the next one to leave out is never one of the next two, and lies about two periods ahead at most |
| `PacketNumberGeneration.PacketNumberGenerator.GenerateNewSkip` | packet_number_generator.go:45-56 | the next number to skip is drawn from the random number, at least two ahead, and stays if there is none |
| `PacketNumberGeneration.Draw` | packet_number_generator.go:20-43 | a new generator draws 1, 2, 3 and so on, whatever the random numbers are |
| `StopWaiting.ReadBack` | frames/stop_waiting_frame.go:25-91 | a written frame is read back if and only if the difference fits into the length of the packet number |
| `SentPackets.RemoveBytes` | ackhandler/sent_packet_handler.go:302-307 | a packet that leaves the history takes its bytes along |
| `SentPackets.RemoveAll` | ackhandler/sent_packet_handler.go:164-169 | packets leave the history one by one, with their bytes |
| `AckScan.AdvanceRange` | ackhandler/sent_packet_handler.go:197-202 | the range pointer moves to the first range that does not end before the packet |
| `AckScan.DetermineNewlyAckedPackets` | ackhandler/sent_packet_handler.go:180-216 | the scan with two pointers selects exactly the packets that the frame acknowledges; its BUG branch is never taken |
| `AckScan.FindLost` | ackhandler/sent_packet_handler.go:252-273 | exactly the packets that are lost, in order, and the time at which the first of the others will be |
| `AckScan.LossTimeUnique` | ackhandler/sent_packet_handler.go:262-272 | the loss time is determined by the packets in flight |
| `SenderBooks.SendBalanced` | ackhandler/sent_packet_handler.go:92-130 | sending keeps the books: increasing history, byte count, one fate for each packet |
| `SenderBooks.AckBalanced` | ackhandler/sent_packet_handler.go:302-307 | acknowledging keeps the books |
| `SenderBooks.QueueBalanced` | ackhandler/sent_packet_handler.go:360-366 | queueing for retransmission keeps the books |
| `SenderBooks.DequeueBalanced` | ackhandler/sent_packet_handler.go:309-318 | dequeueing keeps the books |
| `SentHandler.StopWaitingManager.GetStopWaitingFrame` | ackhandler/stop_waiting_manager.go:16-30 | exactly when there is a frame, and that it names the present least unacknowledged packet |
| `SentHandler.StopWaitingManager.ReceivedAck` | ackhandler/stop_waiting_manager.go:32-36 | the least unacknowledged packet never goes back |
| `SentHandler.StopWaitingManager.QueuedRetransmissionForPacketNumber` | ackhandler/stop_waiting_manager.go:38-42 | a queued packet is below what will be announced |
| `SentHandler.NoteSkipped` | ackhandler/sent_packet_handler.go:101-107 | the last ten numbers that were left out |
| `SentHandler.QueueAll` | ackhandler/sent_packet_handler.go:275-280 | packets move from the history to the queue with their bytes |
| `SentHandler.SentPacketHandler.SentPacket` | ackhandler/sent_packet_handler.go:92-130 | which result, exactly; the new history; skipped numbers stay unused if and only if the packet is not an empty one with numbers before it |
| `SentHandler.SentPacketHandler.SkippedPacketsAcked` | ackhandler/sent_packet_handler.go:379-386 | whether the frame acknowledges a skipped number |
| `SentHandler.SentPacketHandler.GarbageCollectSkippedPackets` | ackhandler/sent_packet_handler.go:388-397 | the numbers up to the last one that is not above the in-order mark are forgotten, and no others |
| `SentHandler.SentPacketHandler.QueueForRetransmission` | ackhandler/sent_packet_handler.go:360-366 | what moves to the queue, with the books kept |
| `SentHandler.SentPacketHandler.DetectLostPackets` | ackhandler/sent_packet_handler.go:251-281 | exactly the lost packets are queued, and the loss time is that of the first of the others |
| `SentHandler.SentPacketHandler.OnPacketsAcked` | ackhandler/sent_packet_handler.go:302-307 | exactly the acknowledged packets leave, with the books kept |
| `SentHandler.FatesAfterAck` | ackhandler/sent_packet_handler.go:159-175 | acknowledging first and detecting losses then gives each packet in flight the fate that the frame and the time say, and all that are not in flight stay announced |
| `SentHandler.SentPacketHandler.ReceivedAck` | ackhandler/sent_packet_handler.go:132-178 | which result, exactly; of the packets in flight those acknowledged are acknowledged, of the others those lost are queued; no other fate changes; the new history, queue, loss time and announced number, and the skipped numbers that are remembered |
| `SentHandler.SentPacketHandler.OnAlarm` | ackhandler/sent_packet_handler.go:283-296 | exactly the lost packets or the two oldest move from the history to the queue, with the books kept |
| `SentHandler.SentPacketHandler.RetransmitOldest` | ackhandler/sent_packet_handler.go:339-346 | the two oldest packets, or fewer if there are fewer |
| `SentHandler.SentPacketHandler.DequeuePacketForRetransmission` | ackhandler/sent_packet_handler.go:309-318 | the packet queued last leaves the queue for good |
| `SentHandler.NotedNumberRefused` | ackhandler/sent_packet_handler.go:101-113 | a number noted for an empty packet is used, and its ACK is refused |
| `SenderReference.StoppedByAck` | session.go:581-583 | by the reference, the connection is closed if and only if a packet is acknowledged that was not sent until then |
| `SenderRuns.NamedIsNear` | ackhandler/stop_waiting_manager.go:16-42 | the packet that STOP_WAITING frames name is at most twice as many numbers behind the last one as there are packets in flight |
| `SenderRuns.StopWaitingFits` | protocol/packet_number.go:32-42 | for every packet number, the least unacknowledged packet is not above it, and the difference fits into whatever length is chosen |
| `SenderRuns.AnnouncesReadsBack` | frames/stop_waiting_frame.go:25-91 | such a frame is written without error and parsed to the same value |
| `SenderRuns.SendPackedPacket` | session.go:763-779 | a packet that is sent is in the books, and its STOP_WAITING frame can be read back |
| `SenderRuns.Retransmit` | session.go:682-703 | a handshake packet that is sent again always has a STOP_WAITING frame; the state is the one of the reference |
| `SenderRuns.SendRound` | session.go:664-752 | a round of sending never tracks too many packets, and leaves the state of the reference |
| `SenderRuns.Run` | session.go:664-752 | in every run the packets on the wire, in flight and queued, their fates and the end of the connection are those of the reference; numbers grow, every packet has exactly one fate that history, queue and byte count agree with, and every STOP_WAITING frame can be written and read back |
| `FlowLedgers.WindowGrows` | flowcontrol/flow_controller.go:133-184 | a window update raises the window, and the subtraction does not wrap around |
| `FlowLedgers.RaisedByOneMore` | flowcontrol/flow_controller.go:189-194 | of several demands on the connection's increment only the largest decides |
| `FlowLedgers.RaisedByUnique` | flowcontrol/flow_control_manager.go:140-147 | the outcome does not depend on the order of the demands |
| `FlowLedgers.PostedOk` | flowcontrol/flow_control_manager.go:107-112 | what is counted for a stream and the connection alike keeps the sums |
| `FlowControl.FlowController.UpdateSendWindow` | flowcontrol/flow_controller.go:77-83 | the send window is the largest offset granted |
| `FlowControl.FlowController.SendWindowSize` | flowcontrol/flow_controller.go:85-92 | what may be sent without going beyond the window or the peer's parameter |
| `FlowControl.FlowController.UpdateHighestReceived` | flowcontrol/flow_controller.go:103-113 | the highest offset, and by how much it grew |
| `FlowControl.FlowController.AddBytesRead` | flowcontrol/flow_controller.go:121-128 | reading the first byte starts the clock of the window |
| `FlowControl.FlowController.MaybeUpdateWindow` | flowcontrol/flow_controller.go:133-152 | an update is necessary exactly if less than half the increment is left; the new window |
| `FlowControl.FlowController.MaybeAdjustWindowIncrement` | flowcontrol/flow_controller.go:155-184 | exactly when the increment doubles |
| `FlowControl.FlowController.EnsureMinimumWindowIncrement` | flowcontrol/flow_controller.go:189-194 | the increment is raised, within its maximum |
| `FlowControl.FlowControlManager.NewStream` | flowcontrol/flow_control_manager.go:40-49 | a new ledger, once for each stream; sums and safety are kept |
| `FlowControl.FlowControlManager.RemoveStream` | flowcontrol/flow_control_manager.go:52-56 | a removed stream still counts in the sums |
| `FlowControl.FlowControlManager.UpdateHighestReceived` | flowcontrol/flow_control_manager.go:91-115 | too much data is reported exactly when stream or connection would exceed its window; the sums agree if and only if a contributing stream does not exceed its own window |
| `FlowControl.FlowControlManager.ResetStream` | flowcontrol/flow_control_manager.go:61-86 | the same for a reset, which must not go back |
| `FlowControl.FlowControlManager.AddBytesRead` | flowcontrol/flow_control_manager.go:118-133 | the sums agree; windows stay sound if no more is read than was received |
| `FlowControl.FlowControlManager.LookAtStreams` | flowcontrol/flow_control_manager.go:139-147 | in whatever order the map is walked, each stream is updated by itself and the connection's increment is the one of the largest demand |
| `FlowControl.FlowControlManager.GetWindowUpdates` | flowcontrol/flow_control_manager.go:135-154 | the windows and the increment that are left, independent of the order; an update exactly for those that need one; every window offset grows |
| `FlowControl.FlowControlManager.SendWindowSize` | flowcontrol/flow_control_manager.go:186-201 | what the stream's window leaves, or the smaller of that and what the connection's window leaves if the stream contributes |
| `FlowControl.FlowControlManager.AddBytesSent` | flowcontrol/flow_control_manager.go:168-183 | the sums agree; nobody exceeds what was granted if no more is sent than the send window |
| `FlowControl.FlowControlManager.UpdateWindow` | flowcontrol/flow_control_manager.go:211-227 | only the send window of the stream or the connection changes, and never goes back |
| `FlowControl.ListedGrows` | flowcontrol/flow_control_manager.go:139-147 | every stream in the list of updates gets a larger window than it had |
| `FlowReference.FailsAtOffence` | flowcontrol/flow_control_manager.go:61-115 | by the reference, the connection is closed if and only if an event brings too much data or resets a stream below what it received |
| `FlowReference.OneLedgerEach` | flowcontrol/flow_control_manager.go:40-56 | there is exactly one ledger for each stream that was ever opened, and its first Open says whether it contributes |
| `FlowReference.ReceivedIsHighest` | flowcontrol/flow_control_manager.go:61-115 | what a stream has received is the largest offset of data or reset that came while it was open |
| `FlowReference.RoundLeavesHalf` | flowcontrol/flow_controller.go:131-152 | after every round of window updates, each open stream and the connection may receive at least half of their first windows beyond what was read; where less than half of the increment was left, an update is due |
| `FlowRuns.Run` | flowcontrol/flow_control_manager.go:61-227 | in every run the ledgers, the windows announced at each event and the first error are those of the reference; without an error the connection's counts are the sums over all streams ever created; announced windows strictly grow; neither a stream nor the connection sends past the largest window ever granted |
| `Schedule.OpeningKeepsOrder` | streams_map.go:279-288 | opening streams leaves the order of the others alone |
| `Schedule.RemovingKeepsOrder` | streams_map.go:303-313 | removing a stream leaves the order of the others alone |
| `Schedule.Closer` | streams_map.go:253-267 | a stream that a call does not serve is closer to its turn after it |
| `Schedule.Fair` | streams_map.go:236-269 | as many calls as there are open streams serve every stream, although passing over streams 1 and 3 does not move the index |
| `Schedule.OrderDistinct` | streams_map.go:243-267 | no stream is served twice in one call |
| `StreamsMap.PutOk` | streams_map.go:115-162 | opening a stream keeps the table: no duplicates, counters of even and odd streams, bounds |
| `StreamsMap.RemoveOk` | streams_map.go:291-318 | removing a stream keeps the table, and no counter goes below zero |
| `StreamsMap.ServeInTurn` | streams_map.go:253-267 | the loop with its index arithmetic serves the streams in their order and moves the index by those it served |
| `StreamsMap.Map.OpenRemoteStream` | streams_map.go:115-140 | which result, exactly; a number above all others is never too far below the highest |
| `StreamsMap.Map.OpenStream` | streams_map.go:142-162 | which result, exactly; the table and the order of the others are kept |
| `StreamsMap.Map.GetOrOpenStream` | streams_map.go:69-113 | which result, exactly; all missing streams of the peer up to the number are opened in order, or those before the first that cannot be, and a server stays within its limit; the highest number is the last one opened |
| `StreamsMap.Map.RemoveStream` | streams_map.go:291-318 | the table is kept, and the order of the others |
| `StreamsMap.Map.RoundRobinIterate` | streams_map.go:236-269 | serves the crypto stream, the header stream and the others in turn, up to the first that stops it |
| `StreamsMap.ServeAll` | streams_map.go:236-269 | enough calls with any callbacks that get past the special streams serve every open stream |
| `StreamsMap.RunTable` | streams_map.go:69-162 | over any run of openings, frames and removals the table is that of the reference, which opens one number after the other; a number that a stream had is never given to another one, and all numbers up to the last one were given |
| `StreamWriter.Stream.Write` | stream.go:147-177 | data is appended to what was written; bytes after a FIN are noted as late, and then the FIN lies before the end |
| `StreamWriter.Stream.LateIsEarlyFin` | stream.go:147-177 | a sent FIN lies before the end of what was written if and only if bytes were written after it; otherwise, once FIN is sent, all is sent and FIN is at the end |
| `StreamWriter.Stream.GetDataForWriting` | stream.go:189-211 | the next bytes of what was written, at most so many |
| `StreamWriter.Stream.NextFrame` | stream_framer.go:102-115 | the frames of a stream follow one another without gap or overlap and are the bytes written; FIN is sent once at most, exactly when all is written and sent, and then it is at the end |
| `Retransmissions.MaybeSplitOffFrame` | stream_framer.go:144-161 | the two parts of a frame that is split |
| `Retransmissions.PopOk` | stream_framer.go:67-69 | with its last piece a queued frame is complete |
| `Retransmissions.SplitOk` | stream_framer.go:60-65 | a piece continues where the last one ended, is not empty and has no FIN |
| `Retransmissions.MaybePopFrames` | stream_framer.go:48-72 | each queued frame leaves as consecutive non-empty pieces that together are the frame, FIN on the last only; the pieces fit, and what stays did not fit |
| `StreamFramer.PopFrame` | stream_framer.go:78-136 | exactly when a stream has a frame, and how long it is; no more than the send window; flow control counts it; exactly when there is a BLOCKED frame for the stream or the connection |
| `StreamFramer.Framer.ServeInOrder` | stream_framer.go:74-141 | the frames fit, and each is recorded with its stream; a stream that has and may send enough fills the room; exactly those BLOCKED frames are queued that the frames make necessary, and the connection counts the data of all streams but 1 and 3 |
| `StreamFramer.Framer.MaybePopNormalFrames` | stream_framer.go:74-141 | streams are served in the round-robin order, until there is no room; the frames are in that order, at most one of each stream; the BLOCKED frames and the count of the connection, exactly |
| `StreamFramer.Framer.PopStreamFrames` | stream_framer.go:30-33 | frames to be sent again, then new ones; they fit, fill the room if there is enough, and all records are kept; the BLOCKED frames and the count of the connection, exactly |
| `StreamFramer.UsedUpIsBlocked` | stream_framer.go:118-125 | a frame that uses up the window of its stream, or the last one that uses up that of the connection, leads to a BLOCKED frame |
| `StreamFramer.BlockedIsUsedUp` | stream_framer.go:118-125 | no other BLOCKED frame is queued |
| `StreamFramer.Framer.AddFrameForRetransmission` | stream_framer.go:26-28 | the frame is queued behind the others |
| `StreamFramer.Framer.PopBlockedFrame` | stream_framer.go:35-42 | BLOCKED frames leave in the order they came |
| `StreamFramer.Framer.OpenStream` | session.go:851-865 | a new stream of this side is known to the table, to flow control and to the framer, unless too many are open; it counts for the connection if and only if it is neither stream 1 nor stream 3 |
| `StreamFramer.Framer.AcceptStream` | session.go:851-865 | the same for the peer's next stream, unless too many are open |
| `StreamFramer.Framer.GetOrOpenStream` | streams_map.go:69-113 | which result, exactly; all missing streams of the peer up to the number are known to the table, to flow control and to the framer, or those before the first that cannot be opened; the others stay as they are |
| `StreamFramer.Framer.UpdateWindow` | session.go:554-566 | the send window of the stream or the connection becomes the larger one, and nothing else changes |
| `StreamFramer.Framer.RemoveStream` | session.go:869-881 | so does the removal of a finished stream |
| `EndToEnd.SentAgrees` | stream_framer.go:102-115 | every frame made of a stream has the bytes written at its offset, and is empty only with FIN |
| `EndToEnd.SentFin` | stream_framer.go:102-115 | a frame with FIN is at the end of what was written, unless bytes were written after a FIN |
| `EndToEnd.DescendantAgrees` | stream_framer.go:144-161 | so has everything into which a frame is cut, any number of times |
| `EndToEnd.DescendantFin` | stream_framer.go:144-161 | a piece has the FIN of its frame if and only if it has its end, however often the frame was cut |
| `EndToEnd.WholeArrived` | stream_framer.go:144-161 | when all the pieces of a frame arrive, all its bytes have arrived |
| `EndToEnd.NothingMissing` | stream_framer.go:102-115 | when every frame arrives whole or in pieces, the first missing byte is the first unsent one |
| `EndToEnd.EndHasArrived` | stream_framer.go:102-115 | when every frame of a finished stream has arrived, whole or in pieces, a FIN has arrived that names its end, without bytes or with a new last byte |
| `EndToEnd.Transfer` | stream.go:71-211 | frames are lost, cut and sent again, repeated, reordered and read in between: the reader gets a prefix of what was written, and everything that was sent once every frame has arrived, unless a FIN stops it or a FIN without bytes was sent before the end; if no bytes were written after a FIN, the end of file comes after everything that was written, unless a FIN was cut, and comes once every frame has arrived; how far the reader gets before the last read is bounded from both sides by its steps |
| `Descent.DescendsFurther` | stream_framer.go:144-161 | pieces of pieces descend from the frame, with or without the length of their data |
| `Descent.LeftDescends` | stream_framer.go:48-72 | what leaves the retransmission queue descends from a frame that was put there, also when the rest of the frame is still queued |
| `SessionStreams.ArrivalsComeFrom` | session.go:664-752 | every STREAM frame in a packet of a session comes from a frame that was made of its stream |
| `SessionStreams.TransferStream` | session.go:664-752 | whatever the network does with the packets of a session, the reader of a stream gets a prefix of what was written, and at the end of file, if no FIN was cut or followed by bytes, everything |
| `StreamFrames.Parse` | frames/stream_frame.go:27-91 | an accepted frame does not end beyond the last offset, is empty only with FIN, and takes at least a byte |
| `StreamFrames.ReadWrittenStream` | frames/stream_frame.go:27-160 | a written frame is read back; without a length it goes to the end of the packet |
| `Frames.LengthIsExact` | packet_packer.go:225-242 | the length that a frame announces is the length it is written with |
| `Frames.ReadWrittenFrame` | packet_unpacker.go:40-103 | every kind of frame is read back by the dispatch on its type byte, and so is what comes after it |
| `PublicHeaders.LengthIsExact` | public_header.go:219-249 | the length of a header is exact |
| `PublicHeaders.ReadWrittenHeader` | public_header.go:35-215 | a header is read back, with the low bytes of the packet number |
| `PublicHeaders.ReadVersionNegotiation` | server.go:391-406 | the client reads all versions of a version negotiation packet in their order |
| `Unpacker.FrameProgress` | packet_unpacker.go:39-110 | every frame takes at least a byte, so that the loop ends |
| `Unpacker.Unpack` | packet_unpacker.go:22-116 | the loop parses all frames, skips padding, and refuses an empty payload and unencrypted data, as the next rows say |
| `Unpacker.UnpackPacked` | packet_unpacker.go:38-110 | unpacking a payload gives the same frames in the same order |
| `Unpacker.UnencryptedExactly` | packet_unpacker.go:47-56 | without encryption, exactly those payloads are refused in addition that carry data of another stream than the crypto stream; the others give the same frames |
| `Unpacker.PaddingIsSkipped` | packet_unpacker.go:39-43 | padding in front of a payload changes nothing |
| `Unpacker.UnpackPadded` | packet_unpacker.go:38-110 | unpacking gives the same frames in the same order, whatever padding lies between them |
| `PacketSizes.StreamsSendable` | packet_packer.go:249-262 | leaving out the length of the last frame saves two bytes, and the payload can still be taken apart |
| `PacketSizes.AgainSendable` | packet_packer.go:131-143 | what is sent again can be taken apart, is longer by the STOP_WAITING frame, and leaves the same frames for the next time |
| `PacketSizes.AgainFits` | packet_packer.go:131-143 | a handshake packet with 50 bytes to spare fits when it is sent again with a longer number, a full connection ID and a STOP_WAITING frame, any number of times |
| `PacketSizes.Composed` | packet_packer.go:221-269 | what the composer puts together fits, with the allowance of two bytes, and can be taken apart |
| `PacketPacker.PopControlFrames` | packet_packer.go:234-243 | control frames from the end of the list, as many as fit; none is lost |
| `PacketPacker.WriteFrames` | packet_packer.go:176-184 | all frames are written |
| `PacketPacker.KeepFrames` | packet_packer.go:135-143 | everything but ACK and STOP_WAITING frames is sent again |
| `PacketPacker.Packer.TakeBlockedFrames` | packet_packer.go:264-266 | all BLOCKED frames are queued behind the control frames, in their order |
| `PacketPacker.Packer.ComposeNextPacket` | packet_packer.go:221-269 | the STOP_WAITING frame, then control frames, then stream frames; they fit and can be taken apart; what was left out did not fit, and stays queued together with the BLOCKED frames |
| `PacketPacker.Packer.HeaderLengths` | packet_packer.go:97-118 | the header can be written and read, and how long it is |
| `PacketPacker.HasNonCryptoStreamData` | packet_packer.go:175-184 | whether a frame belongs to a stream other than the crypto stream |
| `PacketPacker.Packer.NextFrames` | packet_packer.go:115-155 | header and frames of a new packet fit together, with 50 bytes to spare before forward security; no control frame is lost |
| `PacketPacker.Packer.WritePacket` | packet_packer.go:166-219 | a packet is too large if and only if header and payload exceed the limit; its number is used up only if nothing fails |
| `PacketPacker.Packer.PackPacket` | packet_packer.go:74-219 | a packet is never too large; it can be read; its header names this connection and version, with the nonce of the packet; before forward security it can be sent again; every control frame is in the packet or stays queued, with exactly the BLOCKED frames that the new frames make necessary; a small control frame that comes last in the list is in the packet; without a packet no frame is taken; with enough data it is full |
| `PacketPacker.BlockedIsQueued` | packet_packer.go:264-266 | a stream whose frame uses up its window has its BLOCKED frame among the control frames for the next packet, and so has the connection |
| `PacketPacker.Packer.RetransmitNonForwardSecurePacket` | packet_packer.go:60-69 | which result, exactly: a handshake packet that is sent again is too large if and only if the new header, the STOP_WAITING frame and the kept frames exceed the limit; one that was packed with room for that never is, and can be sent again itself; its header names this connection and version |
| `PacketPacker.ReadPacket` | packet_unpacker.go:22-116 | the other side reads the connection ID, unless it is left out, the version, and the same frames in the same order, and infers the packet number if and only if it is close enough to the largest it has seen |
| `SessionSends.Session.SendPackedPacket` | session.go:763-779 | a packet that is sent is in the books and remembered, so that it can be sent again, as a whole if there is room; its STREAM frames come from those that were made |
| `SessionSends.Session.GetStopWaiting` | session.go:729-733 | the STOP_WAITING frame for the next packet is there if and only if one is asked for, and is forced or names a larger packet than the last one; it can be written by the packer and read back |
| `SessionSends.Session.SendNew` | session.go:724-749 | packing never fails but for unencrypted data, and what is sent can be read by the other side and bears the connection ID; the packet has a STOP_WAITING frame if and only if one is due, with the right number; its other frames are the control frames that left the queue, and the stream frames that are recorded as made or sent again; BLOCKED frames are queued exactly; the packets without room for being sent again are those below the forward-secure level after SetForwardSecure |
| `SessionSends.Session.SendFramesAgain` | session.go:704-721 | the stream frames of a lost packet are queued in their order; of the others, exactly those are sent again that are neither ACK nor STOP_WAITING frames nor windows of streams that are gone or have a larger one since |
| `SessionSends.Session.SendHandshakeAgain` | session.go:688-703 | a handshake packet is sent again unless it does not fit, exactly when, behind a STOP_WAITING frame that names the packet that is due; one that was packed with room for that always fits, any number of times |
| `SessionSends.Session.Retransmit` | session.go:682-723 | the packet at the end of the queue is sent again as a whole, unless it does not fit, exactly when, or its frames that still matter are queued; what is named by STOP_WAITING frames afterwards |
| `SessionSends.Session.RetransmitAll` | session.go:682-723 | unless a packet without room for it does not fit, the queue is emptied; the handshake packets in it are on the wire again, once each and in order; the stream frames that are queued and the control frames that are sent again are those of the others |
| `SessionSends.Session.SendPacket` | session.go:664-752 | a round empties the retransmission queue, unless a handshake packet was packed without room for being sent again and does not fit; no other error of the packer occurs but unencrypted data; all packets on the wire can be read and are those in the books, with rising numbers; the handshake packets of the queue are on the wire again, once each; the new packet has a STOP_WAITING frame if and only if there is an ACK or something to be sent again, and in the first case only if it names a larger packet than before; the control frames, window updates, frames sent again and the ACK are in the packet or stay queued, window updates once more, and a small ACK is in the packet |
| `SessionSends.Session.HandleAck` | session.go:581-583 | ACKs keep all of it; the connection is closed if and only if a packet is acknowledged that was not sent, or an ACK that is not outdated acknowledges a skipped one; an ACK that is accepted takes what it acknowledges out of flight and queues exactly what is lost by it, and one that is not changes nothing |
| `SessionSends.Session.OnAlarm` | ackhandler/sent_packet_handler.go:283-296 | so do timeouts, which queue the lost packets or the two oldest, and move the next STOP_WAITING frame beyond them |
| `SessionSends.Session.OpenStream` | session.go:823-825 | so does opening a stream: its number was not used before, so that none of the frames sent so far is its own |
| `SessionSends.Session.GetOrOpenStream` | session.go:808-816 | so does a frame for a new stream of the peer |
| `SessionSends.Session.Write` | stream.go:147-177 | so does writing |
| `SessionSends.Session.Close` | stream.go:213-217 | so does closing a stream, which marks that stream and no other |
| `SessionSends.Session.RemoveStream` | session.go:869-881 | so does the removal of a stream |
| `SessionSends.Session.SetForwardSecure` | packet_packer.go:275-277 | so does the news that forward security is there |
| `SessionSends.Session.ConnectionWindowIsNotDue` | session.go:704-721 | the window of the connection is never sent again |
| `SessionSends.SentIsRead` | packet_unpacker.go:22-116 | the other side reads every packet that a session ever sent, with the connection ID of that session unless it is left out |
| `SessionSends.Session.ConnectionWindowKept` | stream_framer.go:92-116 | in every session, what was ever sent on all streams but 1 and 3 is what the connection has counted, and no more than the largest window granted for it |
| `SessionSends.ContributedByStream` | session.go:851-865 | what counts for the connection is the sum over the streams |
| `AckDelivery.AckIsSmall` | frames/ack_frame.go:334-349 | an ACK of the packets that are tracked fits into every packet, next to the longest header and a STOP_WAITING frame |
| `AckDelivery.SentAcks` | frames/ack_frame.go:194-331 | what is written of an ACK acknowledges the same packets, from some number on |
| `AckDelivery.SendAck` | session.go:725-749 | an ACK that is due goes into the next packet, the other side finds it there, and what it finds acknowledges the packets that were received, from some number up to the largest |
| `FailingRuns.EmptyFinOverwrites` | stream_frame_sorter.go:33-36 | a FIN without bytes replaces bytes that have arrived, and they are never read |
| `FailingRuns.AckRefused` | frames/ack_frame.go:263-331 | after packets 1 and 100000 the ACK cannot be written |
| `FailingRuns.StopWaitingTooFar` | ackhandler/received_packet_handler.go:79-89 | an ACK is queued, but the packet it is for is deleted |
| `FailingRuns.StreamAhead` | flowcontrol/flow_control_manager.go:91-115 | too much data for a stream breaks the sums |
| `FailingRuns.WriteAfterFin` | stream.go:147-177 | a FIN is followed by data at its offset |
| `FailingRuns.WriteAfterFinWithData` | stream.go:147-177 | a FIN on the first byte is followed by a second byte, and the reader is at the end of file after the first |
| `FailingRuns.EndsAtLargestCount` | stream_frame_sorter.go:80-84 | a frame that ends at the largest byte count is refused |
| `FailingRuns.NumberNotRecovered` | protocol/packet_number.go:4-42 | after 51999 alarms two bytes are chosen for packet 105536, and a receiver that has seen 65536 takes it for packet 40000 |
| `FailingHandshake.HandshakeTooLarge` | packet_packer.go:147-199 | a server packs crypto data at the secure level after SetForwardSecure; the packet is lost, queued by the alarm, and too large when it is sent again |

## Left out

- sockets, the PLUS library, accept loops, goroutines, channels, timers and the session's bookkeeping other than the call orders above
- encryption, key derivation, certificates, compression, handshake messages: the encryption level is a parameter, and a payload is what it is after decryption
- congestion control and the round-trip time: `maybeUpdateRTT`, `updateLossDetectionAlarm` and `computeRTOTimeout` are left out, `delayUntilLost` and the congestion window are arbitrary
- HTTP, the examples and the integration tests
- `PackConnectionClose`: the reason phrase is not bounded when it is packed
- the choice of a version, and public resets, of which only the header parser is covered
- the position of the end of file after a frame is cut, beyond the exact condition above; RST and FIN exclusivity
- the limits for the peer's streams on a client: `openRemoteStream` compares the number of the client's own streams
- stream IDs, packet numbers above 2^64 and byte counts above 2^64 do not wrap around unless a contract says so
- PacketPacker.Packer.PackPacket: ACK frames in the list of control frames have a first gap of fewer than 255 blocks, because writing fails otherwise; that its STOP_WAITING frames fit is what SessionSends.Session.GetStopWaiting proves
- FlowRuns.Run: a second Open of a stream is ignored, where the code would start a new controller; StreamsMap.RunTable shows that a number is never opened twice
- FlowReference.OneLedgerEach: the same
- FrameSorter.StreamFrameSorter.Push: works on the sequence of gaps, of which GapRing.Place shows that the ring behaves like it; copying the data of cut frames is not visible in values
- ReceivedHistory.AddToRanges: works on the sequence of ranges; the walk and the edits of its ring are like those of the gaps
- ReceivedHistory.ReceivedPacketHistory.ReceivedPacket: is not called for packet number 0, which the handler rejects before
- AckDelivery.SendAck: the first gap of the ACK has fewer than 255 blocks, because writing fails otherwise, as in FailingRuns.AckRefused
- StreamReader.Stream.AddStreamFrame: the call of flow control before the frame is queued is left out; its error changes nothing here
- AckFrameIO.GetMissingSequenceNumberDeltaLen: ranges that descend, as those of the history do, and numbers that fit into 6 bytes
- AckFrameIO.NumWritableNackRanges: ranges that descend, as those of the history do
- AckFrameIO.MinLength: ranges that descend, as those of the history do, and numbers that fit into 6 bytes
- AckFrameIO.Write: ranges that descend, as those of the history do, and numbers from 1 on that fit into 6 bytes
- SessionSends.Session.SendPacket: window updates are a parameter; GetWindowUpdates is FlowControl.FlowControlManager.GetWindowUpdates
- StreamReader.Stream.Read: a reader that would wait is modelled as a result; waiting, deadlines and concurrent calls of Read are left out
