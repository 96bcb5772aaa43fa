/**
 Inputs on which the code does not do what it promises. The contracts of the methods called say exactly when that is.
 */
module FailingRuns {
  import opened Common
  import opened AckFrames
  import opened AckBlocks
  import opened AckCodec
  import AckFrameIO
  import opened ByteIntervals
  import opened FrameSorter
  import opened FlowLedgers
  import opened FlowControl
  import opened ReceivedHistory
  import opened ReceivedHandler
  import PacketNumbers
  import opened SentPackets
  import opened SenderBooks
  import opened SentHandler
  import StreamReader
  import StreamWriter
  import Wire

  /** A FIN without data at the offset of a frame that has not been read: the bytes of that frame are never read. */
  method EmptyFinOverwrites() returns (s: StreamFrameSorter, head: Option<StreamFrame>)
    ensures head == Some(StreamFrame(5, true, true, 0, []))
    ensures !Covers(s.gaps, 0) && s.queuedFrames == map[] && s.readPosition == 0
  {
    hide Pushed, Tiled, Sound, GapsOk;
    s := new StreamFrameSorter();
    var data, fin := StreamFrame(5, false, true, 0, [1, 2]), StreamFrame(5, true, true, 0, []);
    ghost var g, q := s.gaps, s.queuedFrames;
    var r := s.Push(data);
    FirstBytes(g, q, data, r, s.gaps, s.queuedFrames);
    g, q := s.gaps, s.queuedFrames;
    r := s.Push(fin);
    FinOnTop(g, q, fin, r, s.gaps, s.queuedFrames);
    head := s.Pop();
  }

  lemma FirstBytes(g: seq<ByteInterval>, q: Queue, f: StreamFrame, r: PushResult, g': seq<ByteInterval>, q': Queue)
    requires g == [ByteInterval(0, MAX_BYTE_COUNT)] && q == map[] && Tiled(q, 0, g) && f.offset == 0 && |f.data| == 2
    requires Pushed(0, g, q, f, r, g', q')
    ensures r == Stored && g' == [ByteInterval(2, MAX_BYTE_COUNT)] && q'.Keys == {0} && GapsOk(g') && Sound(q', g')
  {
    assert g[0].start <= 0 < g[0].end;
    assert g[1..] == [];
    assert Subtract(g, 0, 2) == Cut(g[0], 0, 2) + Subtract([], 0, 2);
  }

  lemma FinOnTop(g: seq<ByteInterval>, q: Queue, f: StreamFrame, r: PushResult, g': seq<ByteInterval>, q': Queue)
    requires g == [ByteInterval(2, MAX_BYTE_COUNT)] && q.Keys == {0} && f.offset == 0 && f.data == [] && f.fin
    requires Pushed(0, g, q, f, r, g', q')
    ensures r == Stored && g' == g && q' == map[0 := f] && GapsOk(g') && Sound(q', g') && 0 <= g'[0].start
  {
  }

  /** Packets 1 and 100000 are acknowledged by a frame that cannot be written. */
  method AckRefused() returns (ack: Option<AckFrame>, bytes: Result<seq<byte>>)
    ensures ack.Some? && (forall p: nat :: Acks(ack.value, p) <==> p in {1, 100000}) && bytes == Err
  {
    hide HistoryOk, WellFormed, Acks, Full, Ordered, FirstGapFits;
    var h := new ReceivedPacketHandler();
    FewPackets();
    var r := h.ReceivedPacket(1, true, 0);
    assert h.packetHistory.receivedPacketNumbers == {1};
    r := h.ReceivedPacket(100000, true, 0);
    assert h.packetHistory.receivedPacketNumbers == {1, 100000};
    ack := h.GetAckFrame(0);
    FarApart(ack.value);
    bytes := AckFrameIO.Write(ack.value);
  }

  lemma FewPackets()
    ensures !Full({}) && !Full({1})
  {
    assert Ends({}) == {} && Ends({1}) <= {1};
    SubsetSize(Ends({1}), {1});
  }

  /** The 99998 packets between the two need 393 blocks. */
  lemma FarApart(f: AckFrame)
    requires WellFormed(f) && f.largestAcked == 100000 && forall p: nat :: Acks(f, p) <==> p in {1, 100000}
    ensures Ordered(f) && !FirstGapFits(f)
  {
    var rs := f.ackRanges;
    assert Acks(f, 1) && !Acks(f, 2);
    forall i | 0 <= i < |rs| ensures rs[i].first in {1, 100000} && rs[i].last in {1, 100000} {
      assert rs[i].first <= rs[i].last;
      assert Acks(f, rs[i].first) && Acks(f, rs[i].last);
    }
    assert rs[0].last == 100000 && rs[1].last == 1;
    assert forall i | 0 <= i < |rs| :: !(rs[i].first <= 2 <= rs[i].last);
    FarGap(rs);
  }

  lemma FarGap(rs: seq<AckRange>)
    requires Descending(rs) && |rs| >= 2 && Gap(rs, 1) == 99998
    ensures BlockCount(rs, 2) == 393
  {
    assert BlocksUpTo(rs, 2) == BlocksUpTo(rs, 1) + GapBlocks(99998, Length(rs[1]));
    GapBlocksCount(99998, Length(rs[1]));
  }

  /**
   A STOP_WAITING frame that names a packet above the only one received: an ACK of the largest packet is due, but it is
   gone.
   */
  method StopWaitingTooFar() returns (h: ReceivedPacketHandler)
    ensures h.Valid() && h.ackQueued && h.largestObserved == 1 && h.packetHistory.receivedPacketNumbers == {}
  {
    hide HistoryOk, Full;
    h := new ReceivedPacketHandler();
    FewPackets();
    var r := h.ReceivedPacket(1, true, 0);
    h.ReceivedStopWaiting(3);
  }

  /** A stream receives more than its window allows, and the connection does not hear of it. */
  method StreamAhead() returns (m: FlowControlManager, e: FlowError)
    ensures e == TooMuchData && m.Linked() && !SumsOk(m.all, m.conn.Value())
  {
    hide SumsOk, ReceiveOk, SendOk, FlowController.Value, FlowControlManager.Linked;
    m := new FlowControlManager(10, 10, 100, 100, 0, 0);
    m.NewStream(1, true);
    NewLedgerOf(m, 1);
    e := m.UpdateHighestReceived(1, 11);
  }

  lemma NewLedgerOf(m: FlowControlManager, id: nat)
    requires m.Linked() && id in m.streams
    ensures m.streams[id].slot < |m.all| && m.LedgerOf(id) == m.all[m.streams[id].slot]
  {
  }

  /** Bytes written after a FIN was sent follow behind it, at its offset. */
  method WriteAfterFin() returns (fin: Option<StreamFrame>, data: Option<StreamFrame>)
    ensures fin == Some(StreamFrame(5, true, true, 0, [])) && data == Some(StreamFrame(5, false, true, 0, [1]))
  {
    hide StreamWriter.Covers, StreamWriter.OneFin;
    var s := new StreamWriter.Stream(5);
    s.Close();
    fin := s.NextFrame(100);
    var _ := s.Write([1]);
    assert s.written == [1];
    data := s.NextFrame(100);
    assert s.written[0..1] == [1];
  }

  /** Bytes written after a FIN was sent with other bytes: the reader is told that the stream ends before them. */
  method WriteAfterFinWithData() returns (first: Option<StreamFrame>, second: Option<StreamFrame>, out: seq<byte>,
      eof: bool)
    ensures first == Some(StreamFrame(5, true, true, 0, [1])) && second == Some(StreamFrame(5, false, true, 1, [2]))
    ensures out == [1] && eof
  {
    first, second := SendAfterFin();
    var r := new StreamReader.Stream([1, 2]);
    out, eof := ReadToFin(r, first.value, second.value);
  }

  method SendAfterFin() returns (first: Option<StreamFrame>, second: Option<StreamFrame>)
    ensures first == Some(StreamFrame(5, true, true, 0, [1])) && second == Some(StreamFrame(5, false, true, 1, [2]))
  {
    hide StreamWriter.Covers, StreamWriter.OneFin;
    var s := new StreamWriter.Stream(5);
    var _ := s.Write([1]);
    assert s.written == [1];
    s.Close();
    first := s.NextFrame(100);
    assert s.written[0..1] == [1];
    var _ := s.Write([2]);
    assert s.written == [1, 2];
    second := s.NextFrame(100);
    assert s.written[1..2] == [2];
  }

  /** Both frames arrive at a new stream, and the reader takes one turn. */
  method ReadToFin(r: StreamReader.Stream, first: StreamFrame, second: StreamFrame)
    returns (out: seq<byte>, eof: bool)
    requires first == StreamFrame(5, true, true, 0, [1]) && second == StreamFrame(5, false, true, 1, [2])
    requires r.Valid([1, 2]) && r.readOffset == 0 && r.held == None && !r.finishedReading
      && r.frameQueue.gaps == [ByteInterval(0, MAX_BYTE_COUNT)] && r.frameQueue.queuedFrames == map[]
    modifies r, r.frameQueue
    ensures out == [1] && eof && r.finishedReading
  {
    hide Pushed, Tiled, Sound, GapsOk;
    var sorter := r.frameQueue;
    ghost var g, q := sorter.gaps, sorter.queuedFrames;
    var ok;
    ghost var result;
    ok, result := r.AddStreamFrame(first, [1, 2]);
    FirstFrame(g, q, first, result, sorter.gaps, sorter.queuedFrames);
    g, q := sorter.gaps, sorter.queuedFrames;
    ok, result := r.AddStreamFrame(second, [1, 2]);
    SecondFrame(g, q, second, result, sorter.gaps, sorter.queuedFrames);
    var _ := r.Fetch([1, 2]);
    out := r.CopyOut(10, [1, 2]);
    eof := r.FinishFrame([1, 2]);
  }

  lemma FirstFrame(g: seq<ByteInterval>, q: Queue, f: StreamFrame, r: PushResult, g': seq<ByteInterval>, q': Queue)
    requires g == [ByteInterval(0, MAX_BYTE_COUNT)] && q == map[] && Tiled(q, 0, g) && f.offset == 0 && |f.data| == 1
    requires Pushed(0, g, q, f, r, g', q')
    ensures r == Stored && g' == [ByteInterval(1, MAX_BYTE_COUNT)] && 0 in q' && q'[0] == f
  {
    assert g[0].start <= 0 < g[0].end;
    assert g[1..] == [];
    assert Subtract(g, 0, 1) == Cut(g[0], 0, 1) + Subtract([], 0, 1);
  }

  lemma SecondFrame(g: seq<ByteInterval>, q: Queue, f: StreamFrame, r: PushResult, g': seq<ByteInterval>, q': Queue)
    requires g == [ByteInterval(1, MAX_BYTE_COUNT)] && 0 in q && f.offset == 1 && |f.data| == 1
    requires Pushed(0, g, q, f, r, g', q')
    ensures r in {Stored, Duplicate} && 0 in q' && q'[0] == q[0]
  {
    assert g[1..] == [];
    assert Subtract(g, 1, 2) == Cut(g[0], 1, 2) + Subtract([], 1, 2);
  }

  /** A frame that ends at the largest byte count: the gap in which it ends is not found. */
  method EndsAtLargestCount() returns (r: PushResult)
    ensures r == NoEndGapFound
  {
    hide Tiled, Sound, GapsOk;
    var s := new StreamFrameSorter();
    r := s.Push(StreamFrame(5, false, true, MAX_BYTE_COUNT - 1, [1]));
  }

  // ---------- a packet number that is not recovered ----------

  /** The packets a, a + 1, ..., a + n - 1. */
  ghost function PacketsFrom(a: nat, n: nat): seq<Packet> {
    seq(n, i requires 0 <= i < n => Packet(a + i, 100, 0))
  }

  lemma OneMorePacket(a: nat, n: nat)
    ensures PacketsFrom(a, n) + [Packet(a + n, 100, 0)] == PacketsFrom(a, n + 1)
  {
  }

  lemma WithoutOldest(a: nat, n: nat)
    requires n >= 2
    ensures PacketsFrom(a, n)[2..] == PacketsFrom(a + 2, n - 2) && |PacketsFrom(a, n)[..2]| == 2
  {
  }

  /** Sends the next packet. */
  method SendNext(h: SentPacketHandler, ghost a: nat, ghost n: nat)
    requires h.Valid() && h.packetHistory == PacketsFrom(a, n) && h.lastSentPacketNumber == a + n - 1 && a + n > 0
    requires h.retransmissionQueue == [] && n < MAX_TRACKED_SENT
    modifies h`lastSentPacketNumber, h`skippedPackets, h`packetHistory, h`bytesInFlight, h`fates
    ensures h.Valid() && h.packetHistory == PacketsFrom(a, n + 1) && h.lastSentPacketNumber == a + n
  {
    hide SentPacketHandler.Valid, SentPacketHandler.SkipsOk, PacketsFrom, AllMove, LastTen, SentHandler.Range;
    OneMorePacket(a, n);
    assert |PacketsFrom(a, n)| == n by { HowMany(a, n); }
    var _ := h.SentPacket(Packet(h.lastSentPacketNumber + 1, 100, 0));
  }

  lemma HowMany(a: nat, n: nat)
    ensures |PacketsFrom(a, n)| == n
  {
  }

  /** An alarm queues the two oldest packets, and what was in them is sent again in two new ones. */
  method AlarmAndResend(h: SentPacketHandler, ghost a: nat, ghost n: nat)
    requires h.Valid() && h.packetHistory == PacketsFrom(a, n) && h.lastSentPacketNumber == a + n - 1 && a > 0
    requires h.retransmissionQueue == [] && 2 <= n < MAX_TRACKED_SENT && h.lossTime == None
    modifies h, h.stopWaitingManager
    ensures h.Valid() && h.packetHistory == PacketsFrom(a + 2, n) && h.lastSentPacketNumber == a + n + 1
    ensures h.retransmissionQueue == [] && h.lossTime == None
  {
    hide SentPacketHandler.Valid, SentPacketHandler.SkipsOk, PacketsFrom, AllMove, Refate, NextAfter;
    WithoutOldest(a, n);
    HowMany(a, n);
    h.OnAlarm(1000, 0);
    var _ := h.DequeuePacketForRetransmission();
    var _ := h.DequeuePacketForRetransmission();
    SendNext(h, a + 2, n - 2);
    SendNext(h, a + 2, n - 1);
  }

  /** No ACK arrives any more: alarms keep the history short, and its oldest packet is far ahead of those before. */
  method FallBehind() returns (h: SentPacketHandler)
    ensures h.Valid() && h.lastSentPacketNumber == 105535 && h.GetLeastUnacked() == 103999
  {
    hide SentPacketHandler.Valid, SentPacketHandler.SkipsOk, PacketsFrom;
    h := new SentPacketHandler();
    assert PacketsFrom(1, 0) == [] by { HowMany(1, 0); }
    for n := 0 to 1537
      invariant h.Valid() && h.packetHistory == PacketsFrom(1, n) && h.lastSentPacketNumber == n
      invariant h.retransmissionQueue == [] && h.lossTime == None
      modifies h`lastSentPacketNumber, h`skippedPackets, h`packetHistory, h`bytesInFlight, h`fates
    {
      SendNext(h, 1, n);
    }
    for i := 0 to 51999
      invariant h.Valid() && h.packetHistory == PacketsFrom(1 + 2 * i, 1537)
      invariant h.lastSentPacketNumber == 1537 + 2 * i && h.retransmissionQueue == [] && h.lossTime == None
      modifies h, h.stopWaitingManager
    {
      AlarmAndResend(h, 1 + 2 * i, 1537);
    }
    Oldest(h);
  }

  lemma Oldest(h: SentPacketHandler)
    requires h.packetHistory == PacketsFrom(103999, 1537)
    ensures h.GetLeastUnacked() == 103999
  {
  }

  /**
   The oldest packet in the history of the sender is 103999, those before it having been queued by alarms, and the
   receiver has seen none after 65536: the two bytes that the sender chooses for packet 105536 stand for packet 40000.
   */
  method NumberNotRecovered() returns (h: SentPacketHandler, number: nat, length: nat, inferred: nat)
    ensures h.Valid() && number == h.lastSentPacketNumber + 1 == 105536
    ensures length == PacketNumbers.LengthForPublicHeader(number, h.GetLeastUnacked()) == 2
    ensures inferred == PacketNumbers.InferPacketNumber(2, 65536, number % Wire.Pow256(2)) == 40000
  {
    hide SentPacketHandler.Valid;
    h := FallBehind();
    Wire.PowValues();
    number, length := 105536, 2;
    inferred := PacketNumbers.InferPacketNumber(2, 65536, 105536 % 0x1_0000);
  }
}
