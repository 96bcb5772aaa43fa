/**
 What the session does to send packets (session.go): the books of the sender, the numbers and the packer together. The
 packer gets only STOP_WAITING frames that it can write. Its errors are those for data that is not encrypted, and for a
 handshake packet that was packed without room for being sent again.
 */
module SessionSends {
  import opened Common
  import opened Sequences
  import opened Wire
  import opened PacketNumbers
  import opened PacketNumberGeneration
  import Streams = StreamFrames
  import opened Frames
  import opened Unpacker
  import opened Retransmissions
  import opened PacketSizes
  import opened StreamFramer
  import Headers = PublicHeaders
  import opened PacketPacker
  import opened AckFrames
  import opened SentPackets
  import opened AckScan
  import opened SenderBooks
  import opened SentHandler
  import SenderRuns
  import StreamsMap
  import opened Descent

  /** What the crypto setup, the generator's random numbers and the clock contribute to a packet. */
  datatype Setting = Setting(level: Level, truncate: bool, nonce: seq<byte>, random: Option<nat>, now: int)

  /** A frame that can be sent again: as STREAM frame, as control frame, or not at all. */
  ghost predicate Reusable(f: Frame) {
    match f
    case Stream(s) => Good(s)
    case Stop(_) => true
    case _ => Control(f)
  }

  ghost predicate AllReusable(fs: seq<Frame>) {
    forall f | f in fs :: Reusable(f)
  }

  /**
   What is remembered of a packet: its frames can be sent again together or one by one, and if it was packed with room
   for that, they fit into a packet together.
   */
  ghost predicate Repeatable(p: Packed, sentBy: Perspective, reserved: bool) {
    && AllReusable(p.frames) && Carried(p) && (p.level != ForwardSecure && reserved ==> Resendable(p, sentBy))
    && forall f | f in p.frames && f.Stream? :: p.level != Unencrypted || f.stream.streamID == 1
  }

  lemma {:induction false} SendableReusable(fs: seq<Frame>, packetNumber: nat, packetNumberLen: nat)
    requires AllTyped(fs) && AllSendable(fs, packetNumber, packetNumberLen) && forall f | f in fs :: !f.ConnectionClose?
    ensures AllReusable(fs)
  {
    hide Typed, FrameBytes, Payload;
    if fs != [] {
      SendableReusable(fs[1..], packetNumber, packetNumberLen);
      assert fs == [fs[0]] + fs[1..];
      OneReusable(fs[0], Payload(fs[1..]), packetNumber, packetNumberLen);
    }
  }

  lemma OneReusable(f: Frame, rest: seq<byte>, packetNumber: nat, packetNumberLen: nat)
    requires Sendable(f, rest, packetNumber, packetNumberLen) && !f.ConnectionClose?
    ensures Reusable(f)
  {
  }

  /** What the packer makes can be sent again. */
  lemma PackedRepeatable(p: Packed, h: Headers.PublicHeader, sentBy: Perspective, stop: seq<Frame>, taken: seq<Frame>,
    fs: seq<StreamFrame>, reserved: bool)
    requires PacketOk(p, h, sentBy) && (p.level != ForwardSecure && reserved ==> Resendable(p, sentBy))
    requires p.frames == stop + taken + LastWithoutLength(fs) && AllControl(taken) && forall f | f in stop :: f.Stop?
    ensures Repeatable(p, sentBy, reserved) && p.payload != []
  {
    hide AllSendable, Typed, Headers.Write, Headers.Regular, Resendable, Payload, AllReusable;
    StreamsOnly(fs);
    forall f | f in p.frames ensures !f.ConnectionClose? {
      assert f in stop || f in taken || f in LastWithoutLength(fs);
    }
    SendableReusable(p.frames, p.number, p.numberLen);
  }

  lemma StreamsOnly(fs: seq<StreamFrame>)
    ensures forall f | f in LastWithoutLength(fs) :: f.Stream?
  {
  }

  /** The other side can read the packet, and from whom it comes. */
  ghost predicate Bears(p: Packed, h: Headers.PublicHeader, id: Identity, truncate: bool, nonce: seq<byte>) {
    PacketOk(p, h, id.sentBy) && Identifies(h, id, p.level, truncate, nonce)
  }

  ghost predicate Readable(p: Packed, id: Identity) {
    exists h, truncate, nonce :: Bears(p, h, id, truncate, nonce)
  }

  ghost predicate AllReadable(log: seq<Packed>, id: Identity) {
    forall p | p in log :: Readable(p, id)
  }

  /**
   The other side reads every packet that was sent: the connection ID, unless it is left out, the version, the frames in
   their order, and the number, exactly if that is close enough to the largest one it has seen.
   */
  lemma SentIsRead(log: seq<Packed>, id: Identity, p: Packed, last: nat)
    requires AllReadable(log, id) && p in log && last < TWO_62 && p.number < TWO_62
    ensures var r := Headers.Parse(p.header + p.payload, id.sentBy);
      && (r.Ok? ==> exists truncate, nonce :: Identifies(r.value.0, id, p.level, truncate, nonce))
      && r.Ok? && r.value.1 == p.payload && r.value.0.packetNumberLen == p.numberLen && p.numberLen in {1, 2, 4, 6}
      && (InferPacketNumber(p.numberLen, last, r.value.0.packetNumber) == p.number
        <==> Recoverable(Pow256(p.numberLen), last, p.number))
      && ParseFrames(p.payload, p.number, p.numberLen, p.level != Unencrypted) == Ok(DeliveredAll(p.frames))
  {
    hide PacketOk, InferPacketNumber, Recoverable, Headers.Parse, ParseFrames, Identifies;
    assert Readable(p, id);
    var h, truncate, nonce :| Bears(p, h, id, truncate, nonce);
    ReadPacket(p, h, id.sentBy, last);
  }

  ghost predicate Rising(log: seq<Packed>, last: nat) {
    (forall p | p in log :: p.number <= last) && forall i, j | 0 <= i < j < |log| :: log[i].number < log[j].number
  }

  /** The packets on the wire are those in the books. */
  ghost predicate SameNumbers(log: seq<Packed>, fates: Fates) {
    (forall p | p in log :: p.number in fates) && forall n | n in fates :: IsLogged(log, n)
  }

  ghost predicate IsLogged(log: seq<Packed>, n: nat) {
    exists p | p in log :: p.number == n
  }

  lemma OneMoreLogged(log: seq<Packed>, p: Packed, last: nat, fates: Fates, id: Identity, last0: nat)
    requires AllReadable(log, id) && Rising(log, last0) && SameNumbers(log, fates) && Readable(p, id)
      && last0 < p.number == last
    ensures AllReadable(log + [p], id) && Rising(log + [p], last)
      && SameNumbers(log + [p], fates[p.number := Outstanding])
  {
    hide Readable;
    forall n | n in fates[p.number := Outstanding] ensures IsLogged(log + [p], n) {
      if n == p.number {
        assert p in log + [p];
      } else {
        assert IsLogged(log, n);
        var q :| q in log && q.number == n;
        assert q in log + [p];
      }
    }
  }

  lemma NotSentYet(h: SentPacketHandler, number: nat)
    requires h.Valid() && h.lastSentPacketNumber < number
    ensures number !in h.fates
  {
  }

  lemma SameKeysLogged(log: seq<Packed>, fates: Fates, fates': Fates)
    requires SameNumbers(log, fates) && fates'.Keys == fates.Keys
    ensures SameNumbers(log, fates')
  {
    hide IsLogged;
  }

  // ---------- where STREAM frames come from ----------

  ghost predicate LogFrom(log: seq<Packed>, made: seq<StreamFrame>) {
    forall p | p in log :: AllComeFrom(StreamFramesOf(p.frames), made)
  }

  /** What was sent, what is remembered, and what is to be sent again comes from the frames that were made. */
  ghost predicate DerivedFrom(log: seq<Packed>, packets: map<nat, Packed>, queued: seq<StreamFrame>,
    made: seq<StreamFrame>) {
    LogFrom(log, made) && AllComeFrom(queued, made) && forall n | n in packets :: packets[n] in log
  }

  ghost predicate AllUsed(made: seq<StreamFrame>, p: Perspective, next: nat, highest: nat) {
    forall f | f in made :: StreamsMap.Used(p, next, highest, f.streamID)
  }

  lemma {:induction false} InStreamFrames(fs: seq<Frame>, f: StreamFrame)
    ensures f in StreamFramesOf(fs) <==> Stream(f) in fs
  {
    if fs != [] {
      InStreamFrames(fs[..|fs| - 1], f);
      assert fs == fs[..|fs| - 1] + [fs[|fs| - 1]];
    }
  }

  lemma DeriveMore(log: seq<Packed>, packets: map<nat, Packed>, queued: seq<StreamFrame>, made: seq<StreamFrame>,
    more: seq<StreamFrame>)
    requires DerivedFrom(log, packets, queued, made)
    ensures DerivedFrom(log, packets, queued, made + more)
  {
    hide ComesFrom;
    forall f | ComesFrom(f, made) ensures ComesFrom(f, made + more) { ComesFromMore(f, made, made + more); }
  }

  lemma DeriveSent(log: seq<Packed>, packets: map<nat, Packed>, queued: seq<StreamFrame>, made: seq<StreamFrame>,
    p: Packed)
    requires DerivedFrom(log, packets, queued, made) && AllComeFrom(StreamFramesOf(p.frames), made)
    ensures DerivedFrom(log + [p], packets[p.number := p], queued, made)
  {
    hide AllComeFrom;
    assert p in log + [p];
  }

  lemma DeriveQueued(log: seq<Packed>, packets: map<nat, Packed>, queued: seq<StreamFrame>, made: seq<StreamFrame>,
    p: Packed)
    requires DerivedFrom(log, packets, queued, made) && p in log
    ensures DerivedFrom(log, packets, queued + StreamFramesOf(p.frames), made)
  {
    hide ComesFrom;
  }

  lemma {:induction false} MembersOnWire(fs: seq<StreamFrame>, f: StreamFrame)
    requires Stream(f) in LastWithoutLength(fs)
    ensures exists g | g in fs :: OnWire(f, g)
  {
    if |fs| == 1 {
      assert fs[0] in fs && OnWire(f, fs[0]);
    } else if Stream(f) == Stream(fs[0]) {
      assert fs[0] in fs && OnWire(f, fs[0]);
    } else {
      MembersOnWire(fs[1..], f);
    }
  }

  /** What a packet carries comes from the frames of streams that were put into it. */
  lemma LayoutComes(frames: seq<Frame>, stop: seq<Frame>, taken: seq<Frame>, fs: seq<StreamFrame>,
    made: seq<StreamFrame>)
    requires IsLayout(frames, stop, taken, fs) && AllControl(taken) && AllComeFrom(fs, made)
    ensures AllComeFrom(StreamFramesOf(frames), made)
  {
    hide ComesFrom, LastWithoutLength, Sendable;
    forall f | f in StreamFramesOf(frames) ensures ComesFrom(f, made) {
      InStreamFrames(frames, f);
      assert Stream(f) in LastWithoutLength(fs) by {
        if Stream(f) in taken { AreControl(taken); }
      }
      MembersOnWire(fs, f);
      var g :| g in fs && OnWire(f, g);
      assert DescendsFrom(f, g, 0);
      ComesFurther(f, g, 0, made);
    }
  }

  lemma PoppedComes(queued: seq<StreamFrame>, groups: seq<seq<StreamFrame>>, queue: seq<StreamFrame>,
    before: seq<StreamFrame>, again: seq<StreamFrame>, made: seq<StreamFrame>, newFrames: seq<StreamFrame>)
    requires QueueOk(queued, groups, queue) && Flatten(groups) == before + again && AllComeFrom(queued, made)
    ensures AllComeFrom(again + newFrames, made + newFrames)
  {
    hide ComesFrom, DescendsFrom, QueueOk, Flatten;
    forall f | f in again + newFrames ensures ComesFrom(f, made + newFrames) {
      if f in newFrames {
        ComesFromItself(f, made + newFrames);
      } else {
        assert f in before + again;
        LeftDescends(queued, groups, queue, f);
        var g :| g in queued && DescendsFrom(f, g, 1);
        ComesFurther(f, g, 1, made);
        ComesFromMore(f, made, made + newFrames);
      }
    }
  }

  lemma {:induction false} FramesOfConcat(a: seq<StreamFrame>, b: seq<StreamFrame>, id: nat)
    ensures FramesOf(a + b, id) == FramesOf(a, id) + FramesOf(b, id)
    decreases |b|
  {
    if b == [] {
      assert a + b == a;
    } else {
      var n := |b| - 1;
      FramesOfConcat(a, b[..n], id);
      assert (a + b)[..|a + b| - 1] == a + b[..n];
    }
  }

  lemma AllConcat(a: seq<StreamFrame>, b: seq<StreamFrame>)
    ensures forall id :: FramesOf(a + b, id) == FramesOf(a, id) + FramesOf(b, id)
  {
    forall id ensures FramesOf(a + b, id) == FramesOf(a, id) + FramesOf(b, id) { FramesOfConcat(a, b, id); }
  }

  lemma MoreUsed(framer: Framer, made: seq<StreamFrame>, more: seq<StreamFrame>)
    requires framer.Valid() && AllOf(more, framer.streams.Keys)
    requires var m := framer.streamsMap; AllUsed(made, m.perspective, m.nextStream, m.highestStreamOpenedByPeer)
    ensures var m := framer.streamsMap;
      AllUsed(made + more, m.perspective, m.nextStream, m.highestStreamOpenedByPeer)
  {
    hide Framer.StreamsOk, QueueOk, AllGood;
    forall f | f in more ensures f.streamID in framer.streamsMap.openStreams { }
  }

  lemma {:induction false} UnusedMadeNothing(made: seq<StreamFrame>, p: Perspective, next: nat, highest: nat, id: nat)
    requires AllUsed(made, p, next, highest) && !StreamsMap.Used(p, next, highest, id)
    ensures FramesOf(made, id) == []
  {
    if made != [] {
      UnusedMadeNothing(made[..|made| - 1], p, next, highest, id);
      assert made[|made| - 1] in made;
    }
  }

  lemma OwnIsUnused(framer: Framer, made: seq<StreamFrame>)
    requires framer.Valid()
    requires var m := framer.streamsMap; AllUsed(made, m.perspective, m.nextStream, m.highestStreamOpenedByPeer)
    ensures FramesOf(made, framer.streamsMap.nextStream) == []
  {
    hide FramesOf, AllUsed, Framer.StreamsOk, QueueOk, AllGood;
    var m := framer.streamsMap;
    UnusedMadeNothing(made, m.perspective, m.nextStream, m.highestStreamOpenedByPeer, m.nextStream);
  }

  lemma PeersAreUnused(framer: Framer, made: seq<StreamFrame>)
    requires framer.Valid()
    requires var m := framer.streamsMap; AllUsed(made, m.perspective, m.nextStream, m.highestStreamOpenedByPeer)
    ensures var first := framer.streamsMap.FirstNew();
      && framer.streamsMap.highestStreamOpenedByPeer < first
      && forall k: nat, x | x in StreamsMap.Ids(StreamsMap.NextIds(first, k)) :: FramesOf(made, x) == []
  {
    hide FramesOf, AllUsed, Framer.StreamsOk, QueueOk, AllGood;
    var m := framer.streamsMap;
    var first := m.FirstNew();
    forall k: nat, x | x in StreamsMap.Ids(StreamsMap.NextIds(first, k)) ensures FramesOf(made, x) == [] {
      var i :| 0 <= i < k && StreamsMap.NextIds(first, k)[i] == x;
      assert x == first + 2 * i;
      UnusedMadeNothing(made, m.perspective, m.nextStream, m.highestStreamOpenedByPeer, x);
    }
  }

  lemma {:induction false} ContributedConcat(a: seq<StreamFrame>, b: seq<StreamFrame>)
    ensures Contributed(a + b) == Contributed(a) + Contributed(b)
  {
    if b == [] {
      assert a + b == a;
    } else {
      var n := |b| - 1;
      assert (a + b)[..|a| + n] == a + b[..n];
      ContributedConcat(a, b[..n]);
    }
  }

  /** The data of a stream's frames. */
  ghost function DataSent(fs: seq<StreamFrame>): nat {
    if fs == [] then 0 else DataSent(fs[..|fs| - 1]) + |fs[|fs| - 1].data|
  }

  /** The data of the streams below a number, without the crypto stream and the header stream. */
  ghost function SentUpTo(made: seq<StreamFrame>, n: nat): nat {
    if n == 0 then 0
    else SentUpTo(made, n - 1) + if n - 1 == 1 || n - 1 == 3 then 0 else DataSent(FramesOf(made, n - 1))
  }

  lemma {:induction false} OneFrameMore(made: seq<StreamFrame>, n: nat)
    requires made != []
    ensures var f := made[|made| - 1];
      SentUpTo(made, n) == SentUpTo(made[..|made| - 1], n) + if f.streamID < n then ContributedBy(f) else 0
  {
    if n > 0 {
      OneFrameMore(made, n - 1);
      var f, before := made[|made| - 1], FramesOf(made[..|made| - 1], n - 1);
      if f.streamID == n - 1 {
        assert (before + [f])[..|before|] == before;
        assert FramesOf(made, n - 1) == before + [f];
      } else {
        assert FramesOf(made, n - 1) == before + [] == before;
      }
    }
  }

  lemma {:induction false} NothingSentUpTo(n: nat)
    ensures SentUpTo([], n) == 0
  {
    if n > 0 { NothingSentUpTo(n - 1); }
  }

  /** What counts for the connection is the sum of what the streams have sent. */
  lemma {:induction false} ContributedByStream(made: seq<StreamFrame>, n: nat)
    requires forall f | f in made :: f.streamID < n
    ensures Contributed(made) == SentUpTo(made, n)
  {
    hide SentUpTo;
    if made == [] {
      NothingSentUpTo(n);
    } else {
      OneFrameMore(made, n);
      assert made[|made| - 1] in made;
      ContributedByStream(made[..|made| - 1], n);
    }
  }

  /** A handshake packet that is sent again carries the same STREAM frames. */
  lemma AgainComes(p: Packed, again: Packed, made: seq<StreamFrame>, leastUnacked: nat)
    requires SentAgain(p, again, leastUnacked) && AllComeFrom(StreamFramesOf(p.frames), made)
    ensures AllComeFrom(StreamFramesOf(again.frames), made)
  {
    hide ComesFrom;
    forall f | f in StreamFramesOf(again.frames) ensures ComesFrom(f, made) {
      InStreamFrames(again.frames, f);
      assert Stream(f) in PacketSizes.Kept(p.frames);
      InStreamFrames(p.frames, f);
    }
  }

  class Session {
    const handler: SentPacketHandler
    const packer: Packer

    /** The packets in flight or to be sent again, by their numbers. */
    var packets: map<nat, Packed>

    /** All packets that were sent. */
    ghost var log: seq<Packed>

    /**
     The packets that were packed without forward security after SetForwardSecure, and so without room for being sent
     again as a whole, and those in which they were sent again.
     */
    ghost var unreserved: set<nat>

    /** All frames that were made of streams. */
    ghost var made: seq<StreamFrame>

    constructor (packer: Packer)
      requires packer.Valid() && packer.generator.next == 1 && packer.framer.queued == []
        && packer.framer.flow.conn.bytesSent == 0
        && forall x | x in packer.framer.streams :: packer.framer.streams[x].sent == []
      ensures Valid() && this.packer == packer && fresh(handler) && fresh(handler.stopWaitingManager)
        && handler.fates == map[] && unreserved == {} && log == []
      ensures handler.packetHistory == [] && handler.retransmissionQueue == [] && handler.lossTime == None
        && handler.largestAcked == 0
    {
      hide Framer.Valid, Framer.BlockedOk, AllControl;
      handler := new SentPacketHandler();
      this.packer, packets, log, unreserved, made := packer, map[], [], {}, [];
    }

    ghost predicate Remembered()
      reads this`packets, this`unreserved, handler`fates
    {
      && (forall n | n in handler.fates && handler.fates[n] in {Outstanding, Queued} ::
        n in packets && packets[n].number == n && Repeatable(packets[n], packer.perspective, n !in unreserved))
      && forall n | n in unreserved :: n in handler.fates
    }

    ghost predicate Logged()
      reads this`log, handler`fates, handler`lastSentPacketNumber
    {
      AllReadable(log, packer.GetIdentity()) && Rising(log, handler.lastSentPacketNumber)
        && SameNumbers(log, handler.fates)
    }

    /** The frames that the streams have made are those that are recorded. */
    ghost predicate SentAsMade()
      reads this`made, packer.framer`streams, packer.framer`repr, packer.framer.repr`sent
    {
      forall x | x in packer.framer.streams && packer.framer.streams[x] in packer.framer.repr ::
        packer.framer.streams[x].sent == FramesOf(made, x)
    }

    /** Every STREAM frame on the wire, and every one that is to be sent again, comes from a frame of its stream. */
    ghost predicate Derived()
      reads this`log, this`packets, this`made, packer.framer`queued, packer.framer`streams, packer.framer`repr,
        packer.framer.repr`sent
      reads packer.framer.streamsMap`nextStream, packer.framer.streamsMap`highestStreamOpenedByPeer
    {
      && DerivedFrom(log, packets, packer.framer.queued, made) && SentAsMade()
      && var m := packer.framer.streamsMap; AllUsed(made, m.perspective, m.nextStream, m.highestStreamOpenedByPeer)
    }

    /** All that the streams have made counts for the connection, unless it is of the crypto or the header stream. */
    ghost predicate Charged()
      reads this`made, packer.framer.flow.conn`bytesSent
    {
      packer.framer.flow.conn.bytesSent == Contributed(made)
    }

    ghost predicate Valid()
      reads this, handler, handler.stopWaitingManager, packer, packer.generator, packer.framer, packer.framer.repr,
        packer.framer.flow, packer.framer.flow.conn, packer.framer.flow.made, packer.framer.streamsMap
    {
      SenderRuns.Ready(handler, packer.generator) && packer.Valid() && Remembered() && Logged() && Derived()
        && Charged()
    }

    /**
     What was ever sent on all streams but the crypto stream and the header stream is no more than the peer has granted
     for the connection.
     */
    lemma ConnectionWindowKept(n: nat)
      requires Valid() && forall f | f in made :: f.streamID < n
      ensures var flow := packer.framer.flow;
        SentUpTo(made, n) == flow.conn.bytesSent <= Max(flow.conn.sendWindow, flow.grantedConnection)
      ensures forall x | x in packer.framer.streams && packer.framer.streams[x] in packer.framer.repr ::
        packer.framer.streams[x].sent == FramesOf(made, x)
    {
      hide Balanced, NeverSent, Dense, Announced, Repeatable, AllReadable, SentUpTo, DerivedFrom, AllUsed, FramesOf;
      ContributedByStream(made, n);
      SentValue(packer.framer.flow.conn);
    }

    lemma LastIsReadable(p: Packed)
      requires Valid() && log != [] && log[|log| - 1] == p
      ensures Readable(p, packer.GetIdentity())
    {
      hide Balanced, NeverSent, Dense, Announced, Repeatable, Packer.Valid, Readable, Derived;
      assert p in log;
    }

    /** Between two packets of a round. */
    ghost predicate HasRoom()
      reads handler
    {
      |handler.retransmissionQueue| + |handler.packetHistory| < MAX_TRACKED_SENT
    }

    /** There is a nonce, and only servers leave out the connection ID. */
    ghost predicate Fits(s: Setting) {
      |s.nonce| == 32 && (s.truncate ==> packer.perspective == Server)
    }

    function NonceFor(level: Level, nonce: seq<byte>): (n: seq<byte>)
      requires |nonce| == 32
      ensures packer.NonceOk(level, n)
    {
      NonceOf(packer.perspective, level, nonce)
    }

    /** Notes a packet that was packed with the next number, and sends it. */
    method SendPackedPacket(p: Packed, now: int, ghost reserved: bool)
      requires handler.Valid() && handler.SkipsOk() && Dense(handler.fates, handler.lastSentPacketNumber) && HasRoom()
      requires Remembered() && Logged() && Readable(p, packer.GetIdentity())
      requires Derived() && AllComeFrom(StreamFramesOf(p.frames), made)
      requires handler.lastSentPacketNumber < p.number <= handler.lastSentPacketNumber + 2 && p.payload != []
        && Repeatable(p, packer.perspective, reserved)
      modifies this`packets, this`log, this`unreserved, handler`lastSentPacketNumber, handler`skippedPackets,
        handler`packetHistory, handler`bytesInFlight, handler`fates
      ensures handler.Valid() && handler.SkipsOk() && Dense(handler.fates, handler.lastSentPacketNumber) && Remembered()
      ensures Logged() && Derived() && log == old(log) + [p] && handler.lastSentPacketNumber == p.number
        && packets == old(packets)[p.number := p]
        && unreserved == old(unreserved) + if reserved then {} else {p.number}
      ensures handler.packetHistory
        == old(handler.packetHistory) + [Packet(p.number, |p.header| + |p.payload| + 12, now)]
      ensures handler.fates == old(handler.fates)[p.number := Outstanding]
    {
      hide Balanced, NeverSent, AllMove, Dense, Announced, Repeatable, AllReadable, Rising, SameNumbers, Readable,
        DerivedFrom, AllUsed, SentAsMade, AllComeFrom, StreamFramesOf;
      DeriveSent(log, packets, packer.framer.queued, made, p);
      ghost var fates0, last0 := handler.fates, handler.lastSentPacketNumber;
      SenderRuns.LastIsSent(handler);
      NotSentYet(handler, p.number);
      SendDense(handler.fates, handler.lastSentPacketNumber, p.number);
      var _ := handler.SentPacket(Packet(p.number, |p.header| + |p.payload| + 12, now));
      packets := packets[p.number := p];
      unreserved := unreserved + if reserved then {} else {p.number};
      OneMoreLogged(log, p, handler.lastSentPacketNumber, fates0, packer.GetIdentity(), last0);
      log := log + [p];
    }

    /** The STOP_WAITING frame for the next packet, if one is asked for: it can be written and read back. */
    method GetStopWaiting(asked: bool, force: bool) returns (stopWaiting: Option<nat>, leastUnacked: nat)
      requires SenderRuns.Ready(handler, packer.generator) && HasRoom()
      modifies handler.stopWaitingManager
      ensures SenderRuns.Ready(handler, packer.generator)
      ensures stopWaiting.Some? ==> var n := packer.generator.next;
        stopWaiting.value <= n && n - stopWaiting.value < Pow256(LengthForPublicHeader(n, leastUnacked))
      ensures leastUnacked == handler.GetLeastUnacked()
      ensures var m := handler.stopWaitingManager;
        && stopWaiting == NextStop(asked, force, m.nextLeastUnacked, old(m.largestLeastUnackedSent))
        && m.nextLeastUnacked == old(m.nextLeastUnacked)
    {
      hide Balanced, NeverSent, Dense, Announced;
      stopWaiting := None;
      if asked {
        stopWaiting := handler.GetStopWaitingFrame(force);
      }
      SenderRuns.LeastUnackedBound(handler, packer.generator);
      leastUnacked := handler.GetLeastUnacked();
      if stopWaiting.Some? {
        SenderRuns.StopWaitingFits(handler.packetHistory, handler.retransmissionQueue, handler.bytesInFlight,
          handler.lastSentPacketNumber,
          handler.fates, handler.stopWaitingManager.nextLeastUnacked, packer.generator.next, leastUnacked);
      }
    }

    /** What is put into a packet comes from the frames that were made, the new ones among them. */
    lemma NewFrames(before: seq<StreamFrame>, again: seq<StreamFrame>, made0: seq<StreamFrame>,
      newFrames: seq<StreamFrame>)
      requires packer.Valid() && Flatten(packer.framer.groups) == before + again
      requires made == made0 + newFrames && AllOf(newFrames, packer.framer.streams.Keys)
      requires DerivedFrom(log, packets, packer.framer.queued, made0)
      requires var m := packer.framer.streamsMap;
        AllUsed(made0, m.perspective, m.nextStream, m.highestStreamOpenedByPeer)
      ensures DerivedFrom(log, packets, packer.framer.queued, made) && AllComeFrom(again + newFrames, made)
      ensures var m := packer.framer.streamsMap;
        AllUsed(made, m.perspective, m.nextStream, m.highestStreamOpenedByPeer)
      ensures forall x :: FramesOf(made, x) == FramesOf(made0, x) + FramesOf(newFrames, x)
    {
      hide LogFrom, AllComeFrom, AllUsed, AllOf, FramesOf, Flatten, AllControl, Framer.StreamsOk, QueueOk, AllGood;
      MoreUsed(packer.framer, made0, newFrames);
      AllConcat(made0, newFrames);
      DeriveMore(log, packets, packer.framer.queued, made0, newFrames);
      PoppedComes(packer.framer.queued, packer.framer.groups, packer.framer.retransmissionQueue, before, again, made0,
        newFrames);
    }

    /** Packs a packet with what there is to send, and with the STOP_WAITING frame. */
    method PackNew(stopWaiting: Option<nat>, leastUnacked: nat, controls: seq<Frame>, s: Setting)
      returns (r: PackResult, ghost c: Contents)
      requires packer.Valid() && Derived() && Charged() && AllControl(controls) && Fits(s) && 0 < packer.generator.next
      requires stopWaiting.Some? ==> var n := packer.generator.next;
        stopWaiting.value <= n && n - stopWaiting.value < Pow256(LengthForPublicHeader(n, leastUnacked))
      modifies this`made, packer`controlFrames, packer.generator
      modifies packer.framer`retransmissionQueue, packer.framer`groups, packer.framer`blockedFrameQueue
      modifies packer.framer.flow`all, packer.framer.flow.conn`bytesSent, packer.framer.flow.made`bytesSent,
        packer.framer.streamsMap`roundRobinIndex
      modifies packer.framer.repr`dataForWriting, packer.framer.repr`writeOffset, packer.framer.repr`finSent,
        packer.framer.repr`sent
      ensures packer.Valid() && Derived() && Charged() && (r.Done? || r == NoPacket || r == UnencryptedData)
        && (r == UnencryptedData ==> s.level == Unencrypted)
      ensures if r.Done? then old(packer.generator.next) < packer.generator.next <= old(packer.generator.next) + 2
        else packer.generator.next == old(packer.generator.next)
      ensures r.Done? ==>
        && r.packet.number == old(packer.generator.next) && r.packet.payload != []
        && AllComeFrom(StreamFramesOf(r.packet.frames), made)
        && Repeatable(r.packet, packer.perspective, !packer.isForwardSecure || s.level == ForwardSecure)
        && r.packet.level == s.level && r.packet.numberLen == LengthForPublicHeader(r.packet.number, leastUnacked)
      ensures r.Done? ==>
        && Bears(r.packet, c.header, packer.GetIdentity(), s.truncate, NonceFor(s.level, s.nonce))
        && Holds(r.packet, c) && Announces(r.packet, c.stop)
      ensures old(packer.framer.Filling()) && stopWaiting == None && c.taken == [] ==>
        && r != NoPacket
        && (r.Done? ==>
          IsFilled(r.packet, packer.HeaderSize(r.packet.numberLen, s.level, s.truncate), packer.isForwardSecure))
      ensures c.stop == stopWaiting
      ensures Takes(old(GetQueues()), GetQueues(), controls, c)
      ensures r == NoPacket ==> c.taken == [] && c.again == [] && c.newFrames == []
      ensures LastIsSmall(controls) ==> r != NoPacket && c.taken != [] && c.taken[0] == controls[|controls| - 1]
    {
      hide Repeatable, Packer.Valid, PacketOk, Packer.NonceOk, AllControl, Resendable, LastWithoutLength, Flatten,
        FramesOf, Reversed, BlockedFrames, Pow256, LengthForPublicHeader, LastIsSmall, AllOf, DerivedFrom, AllUsed,
        AllComeFrom, StreamFramesOf, Full, IsFilled, Announces, Framer.Filling, Identifies, BlockedByAll, OwnWindows,
        ConnectionLeft, Contributed;
      ghost var h, taken, left, blocked, again, newFrames;
      ghost var before, made0 := Flatten(packer.framer.groups), made;
      r, h, taken, left, blocked, again, newFrames :=
        packer.PackPacket(stopWaiting, controls, leastUnacked, s.level, s.truncate, NonceFor(s.level, s.nonce),
        s.random);
      c := Contents(h, stopWaiting, taken, left, blocked, again, newFrames);
      made := made + newFrames;
      NewFrames(before, again, made0, newFrames);
      ContributedConcat(made0, newFrames);
      if r.Done? {
        ghost var stop := StopPart(StopFrame(stopWaiting, r.packet.numberLen, r.packet.number));
        PackedRepeatable(r.packet, h, packer.perspective, stop, taken, again + newFrames,
          !packer.isForwardSecure || s.level == ForwardSecure);
        LayoutComes(r.packet.frames, stop, taken, again + newFrames, made);
        HoldsStop(r.packet, c);
        if stopWaiting == None && taken == [] {
          FilledUp(r.packet, again + newFrames, |r.packet.header|, packer.isForwardSecure);
        }
      }
    }

    /** A packet with what there is to send, and with a STOP_WAITING frame if one is asked for. */
    method SendNew(asked: bool, force: bool, controls: seq<Frame>, s: Setting)
      returns (r: PackResult, ghost c: Contents)
      requires Valid() && HasRoom() && AllControl(controls) && Fits(s)
      modifies this`packets, this`log, this`unreserved, this`made, handler, handler.stopWaitingManager,
        packer`controlFrames, packer.generator
      modifies packer.framer`retransmissionQueue, packer.framer`groups, packer.framer`blockedFrameQueue
      modifies packer.framer.flow`all, packer.framer.flow.conn`bytesSent, packer.framer.flow.made`bytesSent,
        packer.framer.streamsMap`roundRobinIndex
      modifies packer.framer.repr`dataForWriting, packer.framer.repr`writeOffset, packer.framer.repr`finSent,
        packer.framer.repr`sent
      ensures Valid() && (r.Done? || r == NoPacket || r == UnencryptedData)
        && (r == UnencryptedData ==> s.level == Unencrypted)
        && handler.retransmissionQueue == old(handler.retransmissionQueue) && handler.lossTime == old(handler.lossTime)
      ensures handler.packetHistory == old(handler.packetHistory)
        + if r.Done? then [Packet(r.packet.number, |r.packet.header| + |r.packet.payload| + 12, s.now)] else []
      ensures r.Done? ==> r.packet.number == handler.lastSentPacketNumber == old(packer.generator.next)
      ensures r.Done? ==>
        r.packet.number in packets && packets[r.packet.number] == r.packet
        && handler.fates == old(handler.fates)[r.packet.number := Outstanding]
      ensures log == old(log) + if r.Done? then [r.packet] else []
      ensures !r.Done? ==> handler.fates == old(handler.fates) && packets == old(packets)
      ensures unreserved == old(unreserved)
        + if r.Done? && packer.isForwardSecure && s.level != ForwardSecure then {r.packet.number} else {}
      ensures Takes(old(GetQueues()), GetQueues(), controls, c)
      ensures r.Done? ==>
        && Bears(r.packet, c.header, packer.GetIdentity(), s.truncate, NonceFor(s.level, s.nonce))
        && Holds(r.packet, c) && Announces(r.packet, c.stop)
      ensures r == NoPacket ==> c.taken == [] && c.again == [] && c.newFrames == []
      ensures LastIsSmall(controls) ==> r != NoPacket && c.taken != [] && c.taken[0] == controls[|controls| - 1]
      ensures var m := handler.stopWaitingManager;
        && c.stop == NextStop(asked, force, m.nextLeastUnacked, old(m.largestLeastUnackedSent))
        && m.nextLeastUnacked == old(m.nextLeastUnacked)
      ensures r.Done? ==>
        r.packet.level == s.level
        && r.packet.numberLen == LengthForPublicHeader(r.packet.number, old(handler.GetLeastUnacked()))
      ensures old(packer.framer.Filling()) && !asked && c.taken == [] ==>
        && r != NoPacket
        && (r.Done? ==>
          IsFilled(r.packet, packer.HeaderSize(r.packet.numberLen, s.level, s.truncate), packer.isForwardSecure))
    {
      hide Balanced, NeverSent, Dense, Announced, Repeatable, Packer.Valid, PacketOk, Packer.NonceOk, AllControl,
        Remembered, Resendable, Logged, Takes, GetQueues, Pow256, LengthForPublicHeader, Increasing, Bytes,
        LastIsSmall, Derived, AllComeFrom, Holds, Announces, StreamFramesOf, Bears, IsFilled, Framer.Filling, Charged;
      var stopWaiting, leastUnacked := GetStopWaiting(asked, force);
      r, c := PackNew(stopWaiting, leastUnacked, controls, s);
      if r.Done? {
        assert Readable(r.packet, packer.GetIdentity());
        SendPackedPacket(r.packet, s.now, !packer.isForwardSecure || s.level == ForwardSecure);
      }
    }

    /** What is waiting to be sent, and how much may be. */
    ghost function GetQueues(): Queues
      reads this`made, packer`controlFrames, packer.framer`blockedFrameQueue, packer.framer`groups, packer.framer.flow,
        packer.framer.flow.conn
    {
      Queues(packer.controlFrames, packer.framer.blockedFrameQueue, Flatten(packer.framer.groups), made,
        OwnWindows(packer.framer.flow), ConnectionLeft(packer.framer.flow))
    }

    /** The receive windows of the streams that are open. */
    ghost function Windows(): map<nat, nat>
      reads packer.framer.flow, packer.framer.flow.streams.Values
    {
      map id | id in packer.framer.flow.streams :: packer.framer.flow.streams[id].receiveWindow
    }

    /** The frames of a forward-secure packet are sent again with later packets, as far as they still matter. */
    method SendFramesAgain(fs: seq<Frame>) returns (controls: seq<Frame>)
      requires packer.Valid() && AllReusable(fs)
      modifies packer.framer`retransmissionQueue, packer.framer`queued, packer.framer`groups
      ensures packer.Valid() && AllControl(controls)
      ensures packer.framer.queued == old(packer.framer.queued) + StreamFramesOf(fs)
        && packer.framer.retransmissionQueue == old(packer.framer.retransmissionQueue) + StreamFramesOf(fs)
      ensures controls == StillDue(fs, Windows()) && GetQueues() == old(GetQueues())
    {
      hide Framer.Valid, Framer.BlockedOk, Control, Good, StillDue, StreamFramesOf, Flatten, OwnWindows, ConnectionLeft;
      controls := [];
      ghost var queued, queue, before :=
        packer.framer.queued, packer.framer.retransmissionQueue, Flatten(packer.framer.groups);
      assert fs[..0] == [];
      NoneDue(Windows());
      for i := 0 to |fs|
        invariant packer.Valid() && AllControl(controls) && packer.framer.queued == queued + StreamFramesOf(fs[..i])
        invariant packer.framer.retransmissionQueue == queue + StreamFramesOf(fs[..i])
        invariant controls == StillDue(fs[..i], Windows()) && Flatten(packer.framer.groups) == before
      {
        var f := fs[i];
        assert f in fs;
        OneMoreDue(fs, i, Windows());
        match f {
          case Stream(s) =>
            packer.framer.AddFrameForRetransmission(s);
          case Ack(_) =>
          case Stop(_) =>
          case WindowUpdate(id, offset) =>
            var flow := packer.framer.flow;
            if id in flow.streams && offset >= flow.streams[id].receiveWindow {
              controls := controls + [f];
            }
          case _ =>
            controls := controls + [f];
        }
      }
      assert fs[..|fs|] == fs;
    }

    /** Takes a packet off the retransmission queue. */
    method Dequeue() returns (packet: Packed)
      requires Valid() && handler.retransmissionQueue != []
      modifies handler`retransmissionQueue, handler`fates
      ensures Valid() && Repeatable(packet, packer.perspective, packet.number !in unreserved)
        && handler.stopWaitingManager.nextLeastUnacked > 0 && packet in log
      ensures IsTaken(old(handler.retransmissionQueue), handler.retransmissionQueue, packets, packet)
    {
      hide Balanced, NeverSent, Dense, Announced, Repeatable, Packer.Valid, AllMove, AllReadable, Rising, SameNumbers,
        LogFrom, AllComeFrom, AllUsed, SentAsMade;
      ghost var fates0 := handler.fates;
      QueuedIsAnnounced(handler.packetHistory, handler.retransmissionQueue, handler.bytesInFlight,
        handler.lastSentPacketNumber, handler.fates);
      assert handler.retransmissionQueue[|handler.retransmissionQueue| - 1] in handler.retransmissionQueue;
      var p := handler.DequeuePacketForRetransmission();
      SenderRuns.SameKeys([], fates0, handler.fates, handler.skippedPackets, handler.lastSentPacketNumber);
      SenderRuns.DequeuedIsAnnounced(handler, p.value.number);
      SameKeysLogged(log, fates0, handler.fates);
      packet := packets[p.value.number];
    }

    /** The packet does not fit any more when it is sent again with the next packet number. */
    ghost predicate Overflows(packet: Packed, truncate: bool)
      requires Carried(packet)
      reads packer.generator
    {
      && packet.level != ForwardSecure && PacketSizes.Kept(packet.frames) != []
      && packer.AgainSize(packet, LengthForPublicHeader(packer.generator.next, 0), truncate)
        > MAX_FRAME_AND_PUBLIC_HEADER_SIZE
    }

    /** Packs a handshake packet again as it is, unless it does not fit. */
    method PackAgain(stopWaiting: nat, packet: Packed, s: Setting, ghost reserved: bool) returns (r: PackResult)
      requires packer.Valid() && Fits(s) && packet.level != ForwardSecure
        && Repeatable(packet, packer.perspective, reserved)
      requires var n := packer.generator.next;
        0 < n && stopWaiting <= n && n - stopWaiting < Pow256(LengthForPublicHeader(n, 0))
      modifies packer.generator
      ensures packer.Valid() && (r.Done? || r == NoPacket || r == TooLarge)
      ensures if r.Done? then old(packer.generator.next) < packer.generator.next <= old(packer.generator.next) + 2
        else packer.generator.next == old(packer.generator.next)
      ensures Carried(packet) && (r == TooLarge <==> old(Overflows(packet, s.truncate)))
      ensures r == TooLarge ==> !reserved
      ensures r == NoPacket <==> PacketSizes.Kept(packet.frames) == []
      ensures r.Done? ==>
        && r.packet.number == old(packer.generator.next) && r.packet.payload != [] && r.packet.level == packet.level
        && Repeatable(r.packet, packer.perspective, reserved)
        && SentAgain(packet, r.packet, stopWaiting)
        && exists h :: Bears(r.packet, h, packer.GetIdentity(), s.truncate, NonceFor(packet.level, s.nonce))
    {
      hide Repeatable, Packer.Valid, PacketOk, Packer.NonceOk, Resendable, Carried, Packer.AgainSize, Pow256,
        LengthForPublicHeader, Identifies;
      RepeatableParts(packet, packer.perspective, reserved);
      ghost var h;
      r, h := packer.RetransmitNonForwardSecurePacket(Some(stopWaiting), packet, s.truncate,
        NonceFor(packet.level, s.nonce), s.random);
      if r.Done? {
        AgainRepeatable(packet, r.packet, h, packer.perspective, reserved, stopWaiting);
        assert Bears(r.packet, h, packer.GetIdentity(), s.truncate, NonceFor(packet.level, s.nonce));
      }
    }

    /** A handshake packet is sent again as it is, unless it does not fit. */
    method SendHandshakeAgain(packet: Packed, s: Setting) returns (tooLarge: bool, ghost again: seq<Packed>)
      requires Valid() && HasRoom() && Fits(s) && packet.level != ForwardSecure && packet in log
        && Repeatable(packet, packer.perspective, packet.number !in unreserved)
      requires handler.stopWaitingManager.nextLeastUnacked > 0
      modifies this`packets, this`log, this`unreserved, handler, handler.stopWaitingManager, packer.generator
      ensures Carried(packet) && (tooLarge <==> old(Overflows(packet, s.truncate)))
      ensures tooLarge ==> packet.number in old(unreserved)
      ensures unreserved == old(unreserved)
        + if log != old(log) && packet.number in old(unreserved) then {handler.lastSentPacketNumber} else {}
      ensures log != old(log) ==> old(handler.lastSentPacketNumber) < handler.lastSentPacketNumber
      ensures Valid() && handler.retransmissionQueue == old(handler.retransmissionQueue)
      ensures |handler.packetHistory| <= |old(handler.packetHistory)| + 1
      ensures SamePackets(old(packets), packets, old(handler.lastSentPacketNumber))
        && old(handler.lastSentPacketNumber) <= handler.lastSentPacketNumber
      ensures log == old(log) + again
        && IsSentAgain(packet, again, tooLarge, packer.GetIdentity(), s,
          old(handler.stopWaitingManager.nextLeastUnacked))
      ensures var m := handler.stopWaitingManager;
        m.nextLeastUnacked == old(m.nextLeastUnacked) == m.largestLeastUnackedSent
    {
      hide Balanced, NeverSent, Dense, Announced, Repeatable, Packer.Valid, Remembered, Logged, Carried, Overflows,
        Derived, AllComeFrom, Bears, SentAgain, Pow256, LengthForPublicHeader, StreamFramesOf;
      var stopWaiting := handler.GetStopWaitingFrame(true);
      SenderRuns.StopWaitingFits(handler.packetHistory, handler.retransmissionQueue, handler.bytesInFlight,
        handler.lastSentPacketNumber,
        handler.fates, handler.stopWaitingManager.nextLeastUnacked, packer.generator.next, 0);
      ghost var reserved := packet.number !in unreserved;
      var r := PackAgain(stopWaiting.value, packet, s, reserved);
      tooLarge, again := r == TooLarge, [];
      if r.Done? {
        SentComes(packet);
        AgainComes(packet, r.packet, made, stopWaiting.value);
        ghost var h :| Bears(r.packet, h, packer.GetIdentity(), s.truncate, NonceFor(packet.level, s.nonce));
        assert Readable(r.packet, packer.GetIdentity());
        SendPackedPacket(r.packet, s.now, reserved);
        again := [r.packet];
      }
    }

    lemma SentComes(p: Packed)
      requires Derived() && p in log
      ensures AllComeFrom(StreamFramesOf(p.frames), made)
    {
      hide AllComeFrom, SentAsMade, AllUsed;
    }

    /**
     Takes a packet off the retransmission queue: a handshake packet is sent again as it is, and of others the frames
     are.
     */
    method Retransmit(s: Setting)
      returns (controls: seq<Frame>, tooLarge: bool, ghost packet: Packed, ghost again: seq<Packed>)
      requires Valid() && HasRoom() && handler.retransmissionQueue != [] && Fits(s)
      modifies this`packets, this`log, this`unreserved, handler, handler.stopWaitingManager, packer.generator
      modifies packer.framer`retransmissionQueue, packer.framer`queued, packer.framer`groups
      ensures Valid() && HasRoom() && AllControl(controls)
        && SamePackets(old(packets), packets, old(handler.lastSentPacketNumber))
        && old(handler.lastSentPacketNumber) <= handler.lastSentPacketNumber
      ensures IsTaken(old(handler.retransmissionQueue), handler.retransmissionQueue, old(packets), packet)
      ensures controls == ControlsAgain(packet, Windows()) && GetQueues() == old(GetQueues())
      ensures packer.framer.queued == old(packer.framer.queued) + StreamsAgain(packet)
        && packer.framer.retransmissionQueue == old(packer.framer.retransmissionQueue) + StreamsAgain(packet)
      ensures Carried(packet) && (tooLarge <==> old(Overflows(packet, s.truncate)))
      ensures tooLarge ==> packet.number in old(unreserved)
      ensures SameReserve(old(unreserved), unreserved, old(handler.lastSentPacketNumber))
      ensures log == old(log) + again
        && IsSentAgain(packet, again, tooLarge, packer.GetIdentity(), s,
          old(handler.stopWaitingManager.nextLeastUnacked))
      ensures var m := handler.stopWaitingManager;
        && m.nextLeastUnacked == old(m.nextLeastUnacked)
        && m.largestLeastUnackedSent
          == if packet.level != ForwardSecure then m.nextLeastUnacked else old(m.largestLeastUnackedSent)
    {
      hide Balanced, NeverSent, Dense, Announced, Repeatable, Packer.Valid, Resendable, AllReusable, Control, Logged,
        Carried, Packer.AgainSize, DerivedFrom, AllUsed, SentAsMade, StreamFramesOf, GetQueues, Charged,
        PacketSizes.Kept, IsAgain, SenderRuns.Ready, AllComeFrom, StillDue;
      var p := Dequeue();
      packet, controls, tooLarge, again := p, [], false, [];
      RepeatableParts(p, packer.perspective, p.number !in unreserved);
      if p.level != ForwardSecure {
        tooLarge, again := SendHandshakeAgain(p, s);
      } else {
        DeriveQueued(log, packets, packer.framer.queued, made, p);
        controls := SendFramesAgain(p.frames);
      }
    }

    /** Everything in the retransmission queue is remembered. */
    lemma QueueRemembered()
      requires Valid()
      ensures AllRemembered(handler.retransmissionQueue, packets, handler.lastSentPacketNumber)
    {
      hide NeverSent, Dense, Announced, Repeatable, Packer.Valid, Logged, Increasing, Bytes, Derived;
      QueuedIsAnnounced(handler.packetHistory, handler.retransmissionQueue, handler.bytesInFlight,
        handler.lastSentPacketNumber, handler.fates);
    }

    /** Sends the retransmission queue, or has its frames sent with the next packets, unless a packet does not fit. */
    method RetransmitAll(s: Setting) returns (controls: seq<Frame>, tooLarge: bool, ghost again: seq<Packed>)
      requires Valid() && HasRoom() && Fits(s)
      modifies this`packets, this`log, this`unreserved, handler, handler.stopWaitingManager, packer.generator
      modifies packer.framer`retransmissionQueue, packer.framer`queued, packer.framer`groups
      ensures Valid() && HasRoom() && AllControl(controls)
        && SameReserve(old(unreserved), unreserved, old(handler.lastSentPacketNumber))
        && old(handler.lastSentPacketNumber) <= handler.lastSentPacketNumber
      ensures tooLarge ==> exists p | p in old(handler.retransmissionQueue) :: p.number in old(unreserved)
      ensures !tooLarge ==>
        && handler.retransmissionQueue == []
        && controls == AllControlsAgain(old(handler.retransmissionQueue), old(packets), Windows())
        && packer.framer.queued
          == old(packer.framer.queued) + AllStreamsAgain(old(handler.retransmissionQueue), old(packets))
        && packer.framer.retransmissionQueue
          == old(packer.framer.retransmissionQueue) + AllStreamsAgain(old(handler.retransmissionQueue), old(packets))
      ensures log == old(log) + again && GetQueues() == old(GetQueues())
      ensures !tooLarge ==>
        AreSentAgain(Handshakes(old(handler.retransmissionQueue), old(packets)), again, packer.GetIdentity(), s,
          old(handler.stopWaitingManager.nextLeastUnacked))
      ensures var m := handler.stopWaitingManager;
        && m.nextLeastUnacked == old(m.nextLeastUnacked)
        && (!tooLarge ==>
          m.largestLeastUnackedSent == if Handshakes(old(handler.retransmissionQueue), old(packets)) != []
            then m.nextLeastUnacked else old(m.largestLeastUnackedSent))
    {
      hide Balanced, NeverSent, Dense, Announced, Repeatable, Packer.Valid, Remembered, Logged, SamePackets,
        AllRemembered, AllControl, SenderRuns.Ready, AllControlsAgain, AllStreamsAgain, Windows, Derived,
        SameReserve, Carried, Overflows, ControlsAgain, StreamsAgain, PacketSizes.Kept, Charged, AreSentAgain,
        IsSentAgain, Handshakes, GetQueues;
      controls, tooLarge, again := [], false, [];
      ghost var next, named := handler.stopWaitingManager.nextLeastUnacked,
        handler.stopWaitingManager.largestLeastUnackedSent;
      ghost var toSend, done: seq<Packed> := packer.framer.retransmissionQueue, [];
      ghost var queue, known, last := handler.retransmissionQueue, packets, handler.lastSentPacketNumber;
      ghost var queued, reserve := packer.framer.queued, unreserved;
      QueueRemembered();
      Same(packets, last, unreserved);
      NoControls();
      NoneSentAgain(packer.GetIdentity(), s, next);
      while handler.retransmissionQueue != [] && !tooLarge
        invariant Valid() && HasRoom() && AllControl(controls) && handler.retransmissionQueue <= queue
        invariant SamePackets(known, packets, last) && last <= handler.lastSentPacketNumber
        invariant SameReserve(reserve, unreserved, last)
        invariant tooLarge ==> exists p | p in queue :: p.number in reserve
        invariant log == old(log) + again && GetQueues() == old(GetQueues())
        invariant done + Handshakes(handler.retransmissionQueue, known) == Handshakes(queue, known)
        invariant !tooLarge ==> AreSentAgain(done, again, packer.GetIdentity(), s, next)
        invariant var m := handler.stopWaitingManager;
          m.nextLeastUnacked == next && m.largestLeastUnackedSent == if done != [] then next else named
        invariant packer.framer.retransmissionQueue + AllStreamsAgain(handler.retransmissionQueue, known)
          == toSend + AllStreamsAgain(queue, known)
        invariant controls + AllControlsAgain(handler.retransmissionQueue, known, Windows())
          == AllControlsAgain(queue, known, Windows())
        invariant packer.framer.queued + AllStreamsAgain(handler.retransmissionQueue, known)
          == queued + AllStreamsAgain(queue, known)
        decreases |handler.retransmissionQueue|
      {
        ghost var soFar := packer.framer.queued;
        ghost var rest, before, upTo := handler.retransmissionQueue, packets, handler.lastSentPacketNumber;
        ghost var kept := unreserved;
        var more;
        ghost var packet, resent;
        ghost var waiting := packer.framer.retransmissionQueue;
        more, tooLarge, packet, resent := Retransmit(s);
        StillSame(known, before, packets, last, upTo);
        StillReserved(queue, rest, known, reserve, kept, unreserved, last, upTo);
        LastOfQueue(queue, rest, known, before, last, packet, Windows());
        BothControl(controls, more);
        ConcatAssoc(controls, more, AllControlsAgain(handler.retransmissionQueue, known, Windows()));
        ConcatAssoc(soFar, StreamsAgain(packet), AllStreamsAgain(handler.retransmissionQueue, known));
        ConcatAssoc(waiting, StreamsAgain(packet), AllStreamsAgain(handler.retransmissionQueue, known));
        ConcatAssoc(done, HandshakePart(packet), Handshakes(handler.retransmissionQueue, known));
        ConcatAssoc(old(log), again, resent);
        if !tooLarge { OneMoreSentAgain(done, again, packet, resent, packer.GetIdentity(), s, next); }
        again, done := again + resent, done + HandshakePart(packet);
        controls := controls + more;
      }
      QueueEmpty(known, Windows());
      assert done + [] == done;
    }

    method QueueControlFrames(more: seq<Frame>)
      requires Valid() && AllControl(more)
      modifies packer`controlFrames
      ensures Valid() && GetQueues() == old(GetQueues().(controls := GetQueues().controls + more))
    {
      hide Balanced, NeverSent, Dense, Announced, Remembered, Logged, Derived, SenderRuns.Ready, Framer.Valid, Control,
        Framer.BlockedOk, Flatten, OwnWindows, ConnectionLeft, Charged;
      packer.QueueControlFrames(more);
    }

    /**
     One round of sendPacket: everything in the retransmission queue, and then a packet with what there is to send.
     Window updates are sent twice, if there is a packet. Control frames are in the packet or stay queued, and a small
     ACK is in the packet.
     */
    method SendPacket(congestionWindow: nat, windowUpdates: seq<Frame>, ack: Option<Frame>, s: Setting)
      returns (r: PackResult, ghost c: Contents, ghost again: seq<Packed>)
      requires Valid() && Fits(s) && AllControl(windowUpdates) && (ack.Some? ==> Control(ack.value))
      modifies this`packets, this`log, this`unreserved, this`made, handler, handler.stopWaitingManager,
        packer`controlFrames, packer.generator
      modifies packer.framer`retransmissionQueue, packer.framer`queued, packer.framer`groups,
        packer.framer`blockedFrameQueue
      modifies packer.framer.flow`all, packer.framer.flow.conn`bytesSent, packer.framer.flow.made`bytesSent,
        packer.framer.streamsMap`roundRobinIndex
      modifies packer.framer.repr`dataForWriting, packer.framer.repr`writeOffset, packer.framer.repr`finSent,
        packer.framer.repr`sent
      ensures Valid() && (r.Done? || r == NoPacket || r == UnencryptedData || r == TooLarge)
      ensures r == TooLarge ==> exists p | p in old(handler.retransmissionQueue) :: p.number in old(unreserved)
      ensures old(unreserved) == {} && (packer.isForwardSecure ==> s.level == ForwardSecure) ==> unreserved == {}
      ensures log == old(log) + again + if r.Done? then [r.packet] else []
      ensures !old(handler.SendingAllowed(congestionWindow)) ==>
        && r == NoPacket && log == old(log) && packer.controlFrames == old(packer.controlFrames)
        && made == old(made) && handler.retransmissionQueue == old(handler.retransmissionQueue)
      ensures r == TooLarge ==> packer.controlFrames == old(packer.controlFrames)
      ensures old(handler.SendingAllowed(congestionWindow)) && r != TooLarge ==>
        var resent := old(AllControlsAgain(handler.retransmissionQueue, packets, Windows()));
        && handler.retransmissionQueue == []
        && TakesWith(old(GetQueues()), GetQueues(), windowUpdates + resent + AckPart(ack), c,
          if r.Done? then windowUpdates else [])
        && packer.framer.queued
          == old(packer.framer.queued + AllStreamsAgain(handler.retransmissionQueue, packets))
        && (r.Done? ==> Holds(r.packet, c) && Announces(r.packet, c.stop))
        && (r.Done? ==>
          && r.packet.level == s.level
          && Bears(r.packet, c.header, packer.GetIdentity(), s.truncate, NonceFor(s.level, s.nonce)))
        && (r == NoPacket ==> c.taken == [] && c.again == [] && c.newFrames == [])
        && (ack.Some? && LastIsSmall([ack.value]) ==> r != NoPacket && c.taken != [] && c.taken[0] == ack.value)
      ensures old(handler.SendingAllowed(congestionWindow)) && r != TooLarge ==>
        var handshakes := Handshakes(old(handler.retransmissionQueue), old(packets));
        var waiting := old(packer.framer.retransmissionQueue + AllStreamsAgain(handler.retransmissionQueue, packets));
        var next := old(handler.stopWaitingManager.nextLeastUnacked);
        && AreSentAgain(handshakes, again, packer.GetIdentity(), s, next)
        && c.stop == NextStop(ack.Some? || waiting != [], waiting != [], next,
          if handshakes != [] then next else old(handler.stopWaitingManager.largestLeastUnackedSent))
    {
      hide Balanced, NeverSent, Dense, Announced, Repeatable, Packer.Valid, PacketOk, Control, Framer.Valid,
        Remembered, Logged, Derived, AllControlsAgain, AllStreamsAgain, Holds, Announces, Takes, TakesWith, Charged,
        LastIsSmall, IsFilled, Framer.Filling, SenderRuns.Ready, Windows, Bears, AreSentAgain, Handshakes, GetQueues;
      c, again := *, [];
      if !handler.SendingAllowed(congestionWindow) {
        assert old(log) + [] + [] == old(log);
        return NoPacket, c, again;
      }
      var resent, tooLarge;
      resent, tooLarge, again := RetransmitAll(s);
      if tooLarge {
        assert old(log) + again + [] == old(log) + again;
        return TooLarge, c, again;
      }
      var controls := windowUpdates + resent;
      if ack.Some? {
        controls := controls + [ack.value];
      }
      assert controls == windowUpdates + resent + AckPart(ack);
      SameLast(windowUpdates + resent, AckPart(ack));
      var hasRetransmission := packer.framer.HasFramesForRetransmission();
      r, c := SendNew(ack.Some? || hasRetransmission, hasRetransmission, controls, s);
      TakesThenQueues(old(GetQueues()), GetQueues(), controls, c, if r.Done? then windowUpdates else []);
      if r.Done? {
        QueueControlFrames(windowUpdates);
      }
    }

    // ---------- streams ----------

    /** What the streams have made stays recorded when a stream is opened, because its number was not used before. */
    twostate lemma StillAsMade()
      requires old(SentAsMade() && packer.Valid())
      requires forall x | x in packer.framer.streams && x in old(packer.framer.streams) ::
        packer.framer.streams[x] == old(packer.framer.streams)[x]
        && packer.framer.streams[x].sent == old(packer.framer.streams[x].sent)
      requires forall x | x in packer.framer.streams && x !in old(packer.framer.streams) ::
        packer.framer.streams[x].sent == [] == FramesOf(made, x)
      requires made == old(made)
      ensures SentAsMade()
    {
    }

    method OpenStream(maxOutgoing: nat) returns (r: StreamsMap.OpenResult)
      requires Valid() && packer.framer.streamsMap.nextStream < 0x1_0000_0000
      modifies packer.framer`streams, packer.framer`repr, packer.framer.streamsMap, packer.framer.flow`streams,
        packer.framer.flow`all, packer.framer.flow`made
      ensures Valid()
      ensures r.Opened? ==> var id := old(packer.framer.streamsMap.nextStream);
        && id !in old(packer.framer.streams) && id in packer.framer.streams
        && packer.framer.streams == old(packer.framer.streams)[id := packer.framer.streams[id]]
        && fresh(packer.framer.streams[id]) && packer.framer.streams[id].written == []
      ensures !r.Opened? ==> packer.framer.streams == old(packer.framer.streams)
      ensures r == StreamsMap.Opened <==> old(packer.framer.streamsMap.numOutgoingStreams) < maxOutgoing
    {
      hide Balanced, NeverSent, Dense, Announced, Remembered, Logged, DerivedFrom, Framer.Valid, Framer.BlockedOk,
        AllControl, SentAsMade, SenderRuns.Ready;
      var m := packer.framer.streamsMap;
      OwnIsUnused(packer.framer, made);
      r := packer.framer.OpenStream(maxOutgoing);
      StillAsMade();
    }

    /** A frame arrives for a stream of the peer. */
    method GetOrOpenStream(id: nat, maxIncoming: nat) returns (r: StreamsMap.OpenResult, k: nat)
      requires Valid() && id < 0x1_0000_0000
      modifies packer.framer`streams, packer.framer`repr, packer.framer.streamsMap, packer.framer.flow`streams,
        packer.framer.flow`all, packer.framer.flow`made
      ensures Valid()
      ensures NewStreams(old(packer.framer.streams), packer.framer.streams,
        old(packer.framer.streamsMap.FirstNew()), k)
      ensures r == StreamsMap.Opened ==> k > 0 && old(packer.framer.streamsMap.FirstNew()) + 2 * k == id + 2
      ensures r == StreamsMap.TooManyOpenStreams ==>
        packer.framer.streamsMap.numIncomingStreams >= maxIncoming
        && old(packer.framer.streamsMap.FirstNew()) + 2 * k <= id
      ensures r == StreamsMap.Existing <==> id in old(packer.framer.streamsMap.streams)
      ensures r == StreamsMap.Closed <==>
        id !in old(packer.framer.streamsMap.streams)
        && id <= old(packer.framer.streamsMap.highestStreamOpenedByPeer)
      ensures r == StreamsMap.InvalidStreamID <==>
        && id !in old(packer.framer.streamsMap.streams)
        && id > old(packer.framer.streamsMap.highestStreamOpenedByPeer)
        && !StreamsMap.IsPeers(packer.framer.streamsMap.perspective, id)
      ensures r != StreamsMap.NotCreated
      ensures fresh(packer.framer.repr - old(packer.framer.repr))
        && forall c | c in packer.framer.flow.made && c !in old(packer.framer.flow.made) :: fresh(c)
      ensures NewWindows(old(packer.framer.flow.streams), packer.framer.flow.streams)
    {
      hide Balanced, NeverSent, Dense, Announced, Remembered, Logged, DerivedFrom, Framer.Valid, Framer.BlockedOk,
        AllControl, SentAsMade, SenderRuns.Ready;
      PeersAreUnused(packer.framer, made);
      r, k := packer.framer.GetOrOpenStream(id, maxIncoming);
      StillAsMade();
    }

    method Write(id: nat, p: seq<byte>) returns (accepted: bool)
      requires id in packer.framer.streams
        && (packer.framer.streams[id].dataForWriting == None || packer.framer.streams[id].failed)
        && |packer.framer.streams[id].written| + |p| < TWO_64
      requires Valid()
      modifies packer.framer.repr`dataForWriting, packer.framer.repr`written, packer.framer.repr`late
      ensures accepted == !packer.framer.streams[id].failed
      ensures forall x | x in packer.framer.streams ::
        packer.framer.streams[x].written
        == old(packer.framer.streams[x].written) + if x == id && accepted then p else []
      ensures Valid()
    {
      hide Balanced, NeverSent, Dense, Announced, Remembered, Logged, Derived, AllControl, SenderRuns.Ready,
        Framer.Valid, Framer.BlockedOk;
      accepted := packer.framer.Write(id, p);
    }

    method Close(id: nat)
      requires Valid() && id in packer.framer.streams
      modifies packer.framer.repr`finishedWriting
      ensures Valid() && forall x | x in packer.framer.streams ::
        packer.framer.streams[x].finishedWriting == (x == id || old(packer.framer.streams[x].finishedWriting))
    {
      hide Balanced, NeverSent, Dense, Announced, Remembered, Logged, Derived, AllControl, SenderRuns.Ready,
        Framer.Valid, Framer.BlockedOk;
      packer.framer.Close(id);
    }

    method RemoveStream(id: nat) returns (ok: bool)
      requires Valid()
      modifies packer.framer`streams, packer.framer.streamsMap, packer.framer.flow`streams
      ensures Valid() && packer.framer.streams == old(packer.framer.streams) - {id}
        && (ok <==> id in old(packer.framer.streams))
    {
      hide Balanced, NeverSent, Dense, Announced, Remembered, Logged, DerivedFrom, Framer.Valid, Framer.BlockedOk,
        AllControl, SentAsMade, SenderRuns.Ready;
      ok := packer.framer.RemoveStream(id);
      StillAsMade();
    }

    method SetForwardSecure()
      requires Valid()
      modifies packer`isForwardSecure
      ensures Valid() && packer.isForwardSecure
    {
      hide Balanced, NeverSent, Dense, Announced, Remembered, Logged, Derived, Packer.Valid, SenderRuns.Ready;
      packer.SetForwardSecure();
    }

    /** A window of the connection is never sent again, because its number is that of no stream. */
    lemma ConnectionWindowIsNotDue(offset: nat)
      requires Valid()
      ensures !IsDue(WindowUpdate(0, offset), Windows())
    {
      hide Balanced, NeverSent, Dense, Announced, Remembered, Logged, Derived, AllControl, SenderRuns.Ready;
      assert 0 !in packer.framer.streamsMap.openStreams;
    }

    /** The ACK is news, and acknowledges nothing that was not sent. */
    ghost predicate Accepts(frame: AckFrame, withPacketNumber: nat)
      reads handler
    {
      && frame.largestAcked <= handler.lastSentPacketNumber && withPacketNumber > handler.largestReceivedPacketWithAck
      && frame.largestAcked > handler.LargestInOrderAcked()
      && forall n | n in handler.skippedPackets :: !Acks(frame, n)
    }

    /**
     An ACK arrives. What it acknowledges is in flight no longer, what is lost by it is queued for being sent again, and
     the next STOP_WAITING frame goes beyond both. An ACK that is not accepted changes nothing of that.
     */
    method HandleAck(frame: AckFrame, withPacketNumber: nat, now: int, delayUntilLost: int) returns (closed: bool)
      requires Valid() && WellFormed(frame)
      modifies handler, handler.stopWaitingManager
      ensures Valid() && log == old(log)
      ensures closed <==>
        || frame.largestAcked > handler.lastSentPacketNumber
        || (withPacketNumber > old(handler.largestReceivedPacketWithAck)
          && frame.largestAcked > old(handler.LargestInOrderAcked())
          && exists n | n in old(handler.skippedPackets) :: Acks(frame, n))
      ensures old(Accepts(frame, withPacketNumber)) ==>
        var unacked := Unacked(old(handler.packetHistory), frame);
        var lost := LostIn(unacked, frame.largestAcked, now, delayUntilLost);
        && AckedAndLost(old(handler.packetHistory), old(handler.fates), handler.fates, frame, now, delayUntilLost)
        && handler.packetHistory == NotLost(unacked, frame.largestAcked, now, delayUntilLost)
        && handler.retransmissionQueue == old(handler.retransmissionQueue) + lost
        && handler.stopWaitingManager.nextLeastUnacked
          == Max(NextAfter(old(handler.stopWaitingManager.nextLeastUnacked), lost), frame.largestAcked + 1)
        && handler.lossTime == LossTime(unacked, frame.largestAcked, now, delayUntilLost)
      ensures !old(Accepts(frame, withPacketNumber)) ==>
        && handler.fates == old(handler.fates) && handler.packetHistory == old(handler.packetHistory)
        && handler.retransmissionQueue == old(handler.retransmissionQueue) && handler.lossTime == old(handler.lossTime)
        && handler.stopWaitingManager.nextLeastUnacked == old(handler.stopWaitingManager.nextLeastUnacked)
    {
      hide Balanced, NeverSent, Announced, Repeatable, Packer.Valid, AllReadable, Rising, SameNumbers, LostIn, NotLost,
        Unacked, LossTime, WellFormed, Acks, AckedBy, AckedAndLost, Dense, Derived;
      ghost var fates0 := handler.fates;
      var r := handler.ReceivedAck(frame, withPacketNumber, now, delayUntilLost);
      SenderRuns.SameKeys([], fates0, handler.fates, handler.skippedPackets, handler.lastSentPacketNumber);
      SameKeysLogged(log, fates0, handler.fates);
      closed := r == AckForUnsent || r == AckForSkipped;
    }

    /** The timer of the sender runs out. */
    method OnAlarm(now: int, delayUntilLost: int)
      requires Valid()
      modifies handler, handler.stopWaitingManager
      ensures Valid() && log == old(log)
      ensures handler.retransmissionQueue
        == old(handler.retransmissionQueue
        + TakenByAlarm(handler.packetHistory, handler.lossTime, handler.largestAcked, now, delayUntilLost))
      ensures old(handler.lossTime) == None ==>
        handler.packetHistory == old(handler.packetHistory)[Min(2, |old(handler.packetHistory)|)..]
      ensures old(handler.lossTime).Some? ==>
        handler.packetHistory == NotLost(old(handler.packetHistory), handler.largestAcked, now, delayUntilLost)
      ensures handler.stopWaitingManager.nextLeastUnacked == NextAfter(old(handler.stopWaitingManager.nextLeastUnacked),
        old(TakenByAlarm(handler.packetHistory, handler.lossTime, handler.largestAcked, now, delayUntilLost)))
    {
      hide Balanced, NeverSent, Announced, Repeatable, Packer.Valid, AllReadable, Rising, SameNumbers, LostIn, NotLost,
        LossTime, Dense, Refate, Derived;
      ghost var fates0 := handler.fates;
      handler.OnAlarm(now, delayUntilLost);
      SenderRuns.SameKeys([], fates0, handler.fates, handler.skippedPackets, handler.lastSentPacketNumber);
      SameKeysLogged(log, fates0, handler.fates);
    }
  }

  /** A server sends its nonce with packets that are secure but not forward-secure. */
  function NonceOf(sentBy: Perspective, level: Level, nonce: seq<byte>): seq<byte> {
    if sentBy == Server && level == Secure then nonce else []
  }

  /** Frames that are sent again by themselves: no ACK, no STOP_WAITING, and no window that has been enlarged since. */
  ghost function StillDue(fs: seq<Frame>, windows: map<nat, nat>): seq<Frame> {
    if fs == [] then []
    else
      var f := fs[|fs| - 1];
      StillDue(fs[..|fs| - 1], windows) + if IsDue(f, windows) then [f] else []
  }

  lemma NoneDue(windows: map<nat, nat>)
    ensures StillDue([], windows) == [] && StreamFramesOf([]) == []
  {
  }

  lemma OneMoreDue(fs: seq<Frame>, i: nat, windows: map<nat, nat>)
    requires i < |fs|
    ensures StillDue(fs[..i + 1], windows)
      == StillDue(fs[..i], windows) + if IsDue(fs[i], windows) then [fs[i]] else []
    ensures StreamFramesOf(fs[..i + 1]) == StreamFramesOf(fs[..i]) + if fs[i].Stream? then [fs[i].stream] else []
  {
    assert fs[..i + 1][..i] == fs[..i];
  }

  ghost predicate IsDue(f: Frame, windows: map<nat, nat>) {
    && !f.Stream? && !f.Ack? && !f.Stop?
    && (f.WindowUpdate? ==> f.streamID in windows && f.byteOffset >= windows[f.streamID])
  }

  /** The control frames and the STREAM frames of a packet that are sent again in other packets. */
  ghost function ControlsAgain(p: Packed, windows: map<nat, nat>): seq<Frame> {
    if p.level == ForwardSecure then StillDue(p.frames, windows) else []
  }

  ghost function StreamsAgain(p: Packed): seq<StreamFrame> {
    if p.level == ForwardSecure then StreamFramesOf(p.frames) else []
  }

  /** The same for the packets of the retransmission queue, from which they are taken at the end. */
  ghost function AllControlsAgain(queue: seq<Packet>, packets: map<nat, Packed>, windows: map<nat, nat>): seq<Frame> {
    if queue == [] then []
    else
      var n := |queue| - 1;
      (if queue[n].number in packets then ControlsAgain(packets[queue[n].number], windows) else [])
      + AllControlsAgain(queue[..n], packets, windows)
  }

  ghost function AllStreamsAgain(queue: seq<Packet>, packets: map<nat, Packed>): seq<StreamFrame> {
    if queue == [] then []
    else
      var n := |queue| - 1;
      (if queue[n].number in packets then StreamsAgain(packets[queue[n].number]) else [])
      + AllStreamsAgain(queue[..n], packets)
  }

  /** The handshake packets of the retransmission queue. */
  ghost function Handshakes(queue: seq<Packet>, packets: map<nat, Packed>): seq<Packed> {
    if queue == [] then []
    else
      var n := |queue| - 1;
      (if queue[n].number in packets then HandshakePart(packets[queue[n].number]) else [])
      + Handshakes(queue[..n], packets)
  }

  ghost predicate AllRemembered(queue: seq<Packet>, packets: map<nat, Packed>, last: nat) {
    forall p | p in queue :: p.number in packets && p.number <= last
  }

  /** The packet at the end of the queue is taken. */
  ghost predicate IsTaken(queue: seq<Packet>, queue': seq<Packet>, packets: map<nat, Packed>, packet: Packed) {
    && queue != [] && queue' == queue[..|queue| - 1] && queue[|queue| - 1].number == packet.number
    && packet.number in packets && packet == packets[packet.number]
  }

  /** The packet that is taken next is the one that was remembered at first. */
  lemma LastOfQueue(queue: seq<Packet>, rest: seq<Packet>, known: map<nat, Packed>, packets: map<nat, Packed>,
    last: nat, packet: Packed, windows: map<nat, nat>)
    requires AllRemembered(queue, known, last) && SamePackets(known, packets, last) && rest <= queue && rest != []
    requires rest[|rest| - 1].number in packets && packet == packets[rest[|rest| - 1].number]
    ensures var n := |rest| - 1;
      && AllControlsAgain(rest, known, windows)
        == ControlsAgain(packet, windows) + AllControlsAgain(rest[..n], known, windows)
      && AllStreamsAgain(rest, known) == StreamsAgain(packet) + AllStreamsAgain(rest[..n], known)
      && Handshakes(rest, known) == HandshakePart(packet) + Handshakes(rest[..n], known)
      && rest[..n] <= queue
  {
    assert queue[|rest| - 1] == rest[|rest| - 1];
  }

  lemma QueueEmpty(packets: map<nat, Packed>, windows: map<nat, nat>)
    ensures AllControlsAgain([], packets, windows) == [] && AllStreamsAgain([], packets) == []
      && Handshakes([], packets) == []
  {
  }

  lemma NoControls()
    ensures AllControl([])
  {
  }

  lemma Same(packets: map<nat, Packed>, last: nat, reserve: set<nat>)
    ensures SamePackets(packets, packets, last) && SameReserve(reserve, reserve, last)
  {
  }

  lemma StillSame(a: map<nat, Packed>, b: map<nat, Packed>, c: map<nat, Packed>, last: nat, later: nat)
    requires SamePackets(a, b, last) && SamePackets(b, c, later) && last <= later
    ensures SamePackets(a, c, last)
  {
  }

  function AckPart(ack: Option<Frame>): seq<Frame> {
    if ack.Some? then [ack.value] else []
  }

  /** Up to that number, the same packets have no room for being sent again; without any there is no new one. */
  ghost predicate SameReserve(reserve: set<nat>, reserve': set<nat>, last: nat) {
    (forall n | n <= last :: n in reserve' <==> n in reserve) && (reserve == {} ==> reserve' == {})
  }

  lemma StillReserved(queue: seq<Packet>, rest: seq<Packet>, known: map<nat, Packed>, a: set<nat>, b: set<nat>,
    c: set<nat>, last: nat, later: nat)
    requires AllRemembered(queue, known, last) && rest <= queue && rest != [] && last <= later
    requires SameReserve(a, b, last) && SameReserve(b, c, later)
    ensures SameReserve(a, c, last)
    ensures rest[|rest| - 1].number in b ==> exists p | p in queue :: p.number in a
  {
    assert rest[|rest| - 1] == queue[|rest| - 1];
  }

  /** What was sent up to that number is remembered as it was. */
  ghost predicate SamePackets(packets: map<nat, Packed>, packets': map<nat, Packed>, last: nat) {
    forall n | n in packets && n <= last :: n in packets' && packets'[n] == packets[n]
  }

  /**
   What a packet is made of: its header, the packet that its STOP_WAITING frame names, the control frames in it and
   those that stay queued, with BLOCKED frames behind them, and the frames of streams that are sent again and that are
   new.
   */
  datatype Contents = Contents(header: Headers.PublicHeader, stop: Option<nat>, taken: seq<Frame>, left: seq<Frame>,
    blocked: seq<nat>, again: seq<StreamFrame>, newFrames: seq<StreamFrame>)

  /**
   The control frames and the BLOCKED frames that are queued, the frames of streams that were sent again and those that
   were made, and what each stream and the connection may send.
   */
  datatype Queues = Queues(controls: seq<Frame>, blocked: seq<nat>, again: seq<StreamFrame>, made: seq<StreamFrame>,
    own: map<nat, nat>, left: nat)

  /**
   The control frames are in the packet or stay queued, with the BLOCKED frames for those that the new frames have
   brought to the end of their windows. The frames of streams in the packet are counted as sent again or as made.
   */
  ghost predicate Takes(q: Queues, q': Queues, controls: seq<Frame>, c: Contents) {
    && q.controls + controls == c.left + Reversed(c.taken) && q'.controls == c.left + BlockedFrames(c.blocked)
    && q'.blocked == [] && c.blocked == q.blocked + BlockedByAll(c.newFrames, q.own, q.left)
    && q'.again == q.again + c.again && q'.made == q.made + c.newFrames
  }

  /** The same, and then more control frames are queued. */
  ghost predicate TakesWith(q: Queues, q': Queues, controls: seq<Frame>, c: Contents, more: seq<Frame>) {
    var left := c.left + BlockedFrames(c.blocked);
    Takes(q, q'.(controls := left), controls, c) && q'.controls == left + more
  }

  lemma TakesThenQueues(q: Queues, q': Queues, controls: seq<Frame>, c: Contents, more: seq<Frame>)
    requires Takes(q, q', controls, c)
    ensures TakesWith(q, q'.(controls := q'.controls + more), controls, c, more)
    ensures more == [] ==> q'.(controls := q'.controls + more) == q'
  {
    hide Reversed, BlockedFrames, BlockedByAll;
  }

  /** The frames of a packet: a STOP_WAITING frame if one is due, the control frames, and STREAM frames. */
  ghost predicate Holds(p: Packed, c: Contents) {
    p.frames == StopPart(StopFrame(c.stop, p.numberLen, p.number)) + c.taken + LastWithoutLength(c.again + c.newFrames)
  }

  ghost predicate IsLayout(frames: seq<Frame>, stop: seq<Frame>, taken: seq<Frame>, fs: seq<StreamFrame>) {
    frames == stop + taken + LastWithoutLength(fs) && forall f | f in stop :: f.Stop?
  }

  /** When a packet gets a STOP_WAITING frame: if one is asked for, and either it is news or it is forced. */
  function NextStop(asked: bool, force: bool, next: nat, named: nat): Option<nat> {
    if asked && next > 0 && (force || named < next) then Some(next) else None
  }

  /** The packet has a STOP_WAITING frame exactly if one is due, and that frame names the packet it should. */
  ghost predicate Announces(p: Packed, stop: Option<nat>) {
    && (forall f | f in p.frames && f.Stop? :: stop == Some(f.stop.leastUnacked))
    && (stop.Some? ==> exists f :: f in p.frames && f.Stop?)
  }

  lemma HoldsStop(p: Packed, c: Contents)
    requires Holds(p, c) && AllControl(c.taken)
    ensures Announces(p, c.stop)
  {
    hide LastWithoutLength, Sendable;
    StreamsOnly(c.again + c.newFrames);
    AreControl(c.taken);
    if c.stop.Some? { assert p.frames[0] in p.frames; }
  }

  /** The packet carries nothing but STREAM frames, and takes all the room that there is. */
  ghost predicate IsFilled(p: Packed, header: nat, isForwardSecure: bool) {
    && p.frames != [] && AllTyped(p.frames) && (forall f | f in p.frames :: f.Stream?)
    && header + |Payload(p.frames)| + (if isForwardSecure then 0 else NON_FORWARD_SECURE_PACKET_SIZE_REDUCTION)
      == MAX_FRAME_AND_PUBLIC_HEADER_SIZE
  }

  lemma FilledUp(p: Packed, fs: seq<StreamFrame>, header: nat, isForwardSecure: bool)
    requires p.frames == StopPart(None) + [] + LastWithoutLength(fs) && header <= 51
    ensures var reserve := if isForwardSecure then 0 else NON_FORWARD_SECURE_PACKET_SIZE_REDUCTION;
      Full(p.frames, StopPart(None) + [], MAX_FRAME_AND_PUBLIC_HEADER_SIZE - header - reserve) ==>
        IsFilled(p, header, isForwardSecure)
  {
    hide LastWithoutLength, Typed, FrameBytes;
    StreamsOnly(fs);
  }

  lemma RepeatableParts(p: Packed, sentBy: Perspective, reserved: bool)
    requires Repeatable(p, sentBy, reserved)
    ensures AllReusable(p.frames) && Carried(p) && AllControl([])
    ensures p.level != ForwardSecure && reserved ==> Resendable(p, sentBy)
    ensures p.level == Unencrypted ==> forall f | f in p.frames && f.Stream? :: f.stream.streamID == 1
  {
  }

  /** The frames of the packet but for ACK and STOP_WAITING frames, behind a new STOP_WAITING frame. */
  ghost predicate SentAgain(packet: Packed, again: Packed, leastUnacked: nat) {
    again.frames == StopPart(StopFrame(Some(leastUnacked), again.numberLen, again.number))
      + PacketSizes.Kept(packet.frames)
  }

  /** The packet is sent again with its encryption, and in the name of the same side. */
  ghost predicate IsAgain(packet: Packed, again: Packed, id: Identity, s: Setting, leastUnacked: nat) {
    && again.level == packet.level && SentAgain(packet, again, leastUnacked)
    && exists h :: Bears(again, h, id, s.truncate, NonceOf(id.sentBy, packet.level, s.nonce))
  }

  /** A handshake packet was sent again, unless it was too large or had nothing to be sent again. */
  ghost predicate IsSentAgain(packet: Packed, again: seq<Packed>, tooLarge: bool, id: Identity, s: Setting,
    leastUnacked: nat) {
    if packet.level == ForwardSecure || tooLarge || PacketSizes.Kept(packet.frames) == [] then again == []
    else |again| == 1 && IsAgain(packet, again[0], id, s, leastUnacked)
  }

  /** Each handshake packet was sent again once, in their order, unless it had nothing to be sent again. */
  ghost predicate AreSentAgain(handshakes: seq<Packed>, again: seq<Packed>, id: Identity, s: Setting,
    leastUnacked: nat) {
    if handshakes == [] then again == []
    else
      var n := |handshakes| - 1;
      if PacketSizes.Kept(handshakes[n].frames) == [] then AreSentAgain(handshakes[..n], again, id, s, leastUnacked)
      else
        && again != [] && IsAgain(handshakes[n], again[|again| - 1], id, s, leastUnacked)
        && AreSentAgain(handshakes[..n], again[..|again| - 1], id, s, leastUnacked)
  }

  function HandshakePart(packet: Packed): seq<Packed> {
    if packet.level == ForwardSecure then [] else [packet]
  }

  lemma NoneSentAgain(id: Identity, s: Setting, leastUnacked: nat)
    ensures AreSentAgain([], [], id, s, leastUnacked)
  {
  }

  lemma OneMoreSentAgain(handshakes: seq<Packed>, again: seq<Packed>, packet: Packed, resent: seq<Packed>,
    id: Identity, s: Setting, leastUnacked: nat)
    requires AreSentAgain(handshakes, again, id, s, leastUnacked)
      && IsSentAgain(packet, resent, false, id, s, leastUnacked)
    ensures AreSentAgain(handshakes + HandshakePart(packet), again + resent, id, s, leastUnacked)
  {
    hide IsAgain;
    if packet.level == ForwardSecure {
      assert handshakes + [] == handshakes && again + [] == again;
    } else {
      assert (handshakes + [packet])[..|handshakes|] == handshakes;
      assert (again + resent)[..|again|] == again;
      assert resent == [] ==> again + resent == again;
    }
  }

  lemma AgainRepeatable(p: Packed, again: Packed, h: Headers.PublicHeader, sentBy: Perspective, reserved: bool,
    leastUnacked: nat)
    requires Repeatable(p, sentBy, reserved) && PacketOk(again, h, sentBy) && SentAgain(p, again, leastUnacked)
    requires reserved ==> Resendable(again, sentBy)
    ensures Repeatable(again, sentBy, reserved) && again.payload != []
  {
    hide Resendable, AllSendable, Typed, Control, Good, Headers.Write, Headers.Regular, Payload;
    var stop := StopFrame(Some(leastUnacked), again.numberLen, again.number).value;
    forall f | f in again.frames ensures Reusable(f) {
      assert f == Stop(stop) || f in PacketSizes.Kept(p.frames);
    }
  }

  /** The STREAM frames among the frames. */
  ghost function StreamFramesOf(fs: seq<Frame>): seq<StreamFrame> {
    if fs == [] then []
    else StreamFramesOf(fs[..|fs| - 1]) + if fs[|fs| - 1].Stream? then [fs[|fs| - 1].stream] else []
  }
}
