/** Frames for the next packet (stream_framer.go). */
module StreamFramer {
  import opened Common
  import Streams = StreamFrames
  import opened StreamWriter
  import opened Retransmissions
  import opened FlowLedgers
  import opened FlowControl
  import opened Schedule
  import StreamsMap

  /** The stream has sent what flow control has counted. */
  ghost predicate Counted(s: Stream, flow: FlowControlManager)
    reads s, flow
  {
    s.streamID in flow.streams && var i := flow.streams[s.streamID].slot;
      i < |flow.all| && flow.all[i].bytesSent == s.writeOffset
  }

  /** All streams but the crypto stream and the header stream count for the connection. */
  ghost predicate Contributing(all: seq<Ledger>) {
    forall i | 0 <= i < |all| :: all[i].contributes <==> all[i].streamID != 1 && all[i].streamID != 3
  }

  lemma OneMoreContributes(all: seq<Ledger>, l: Ledger)
    requires Contributing(all) && (l.contributes <==> l.streamID != 1 && l.streamID != 3)
    ensures Contributing(all + [l])
  {
  }

  /** What each stream may send by its own window. */
  ghost function OwnWindows(flow: FlowControlManager): map<nat, nat>
    reads flow
  {
    map id | id in flow.streams && flow.streams[id].slot < |flow.all| ::
      WindowLeft(flow.all[flow.streams[id].slot], flow.sendStreamWindow)
  }

  /** What may be sent on the connection. */
  ghost function ConnectionLeft(flow: FlowControlManager): nat
    reads flow, flow.conn
  {
    WindowLeft(flow.conn.Value(), flow.sendConnectionWindow)
  }

  /** The bytes that count for the connection. */
  ghost function Contributed(fs: seq<StreamFrame>): nat {
    if fs == [] then 0 else Contributed(fs[..|fs| - 1]) + ContributedBy(fs[|fs| - 1])
  }

  ghost function ContributedBy(f: StreamFrame): nat {
    if f.streamID == 1 || f.streamID == 3 then 0 else |f.data|
  }

  /**
   The BLOCKED frame that follows a frame: for the connection if that may send no more, for the stream if that may send
   no more and has not ended.
   */
  ghost function BlockedBy(f: StreamFrame, own: map<nat, nat>, left: nat): seq<nat> {
    if left == 0 then [0]
    else if !f.fin && f.streamID in own && |f.data| == own[f.streamID] then [f.streamID]
    else []
  }

  /** The BLOCKED frames that follow frames, if so much could be sent before. */
  ghost function BlockedByAll(fs: seq<StreamFrame>, own: map<nat, nat>, left: nat): seq<nat> {
    if fs == [] then []
    else
      var n := |fs| - 1;
      BlockedByAll(fs[..n], own, left)
      + BlockedBy(fs[n], own, if left <= Contributed(fs) then 0 else left - Contributed(fs))
  }

  lemma BlockedOneMore(fs: seq<StreamFrame>, f: StreamFrame, own: map<nat, nat>, left: nat)
    requires Contributed(fs) + ContributedBy(f) <= left
    ensures Contributed(fs + [f]) == Contributed(fs) + ContributedBy(f)
    ensures BlockedByAll(fs + [f], own, left)
      == BlockedByAll(fs, own, left) + BlockedBy(f, own, left - Contributed(fs) - ContributedBy(f))
  {
    assert (fs + [f])[..|fs|] == fs;
  }

  lemma SentValue(fc: FlowController)
    ensures fc.Value().bytesSent == fc.bytesSent
  {
  }

  lemma SameBlocked(f: StreamFrame, own: map<nat, nat>, own': map<nat, nat>, left: nat)
    requires f.streamID in own <==> f.streamID in own'
    requires f.streamID in own ==> own[f.streamID] == own'[f.streamID]
    ensures BlockedBy(f, own, left) == BlockedBy(f, own', left)
  {
  }

  lemma NotBefore(order: seq<nat>, i: nat)
    requires Distinct(order) && i < |order|
    ensures order[i] !in order[..i] && forall x :: x in order[..i + 1] <==> x in order[..i] || x == order[i]
  {
    assert order[..i + 1] == order[..i] + [order[i]];
  }

  lemma NothingBlocked(own: map<nat, nat>, left: nat)
    ensures BlockedByAll([], own, left) == [] && Contributed([]) == 0
  {
  }

  /** What each stream may send, what may be sent on the connection, its ledger, and the BLOCKED frames. */
  datatype Account = Account(own: map<nat, nat>, left: nat, ledger: Ledger, blocked: seq<nat>)

  /** What frames of the given streams do to the account. */
  ghost predicate Accounts(fs: seq<StreamFrame>, ids: seq<nat>, a: Account, a': Account) {
    && a'.blocked == a.blocked + BlockedByAll(fs, a.own, a.left) && a'.ledger == AfterSend(a.ledger, Contributed(fs))
    && a.left == a'.left + Contributed(fs)
    && forall x | x in a.own && x !in ids :: x in a'.own && a'.own[x] == a.own[x]
  }

  lemma NoAccounts(a: Account)
    ensures Accounts([], [], a, a)
  {
  }

  /** One frame, or none. */
  lemma OneAccount(id: nat, f: Option<StreamFrame>, a: Account, a': Account)
    requires a'.blocked == a.blocked + if f.Some? then BlockedBy(f.value, a.own, a'.left) else []
    requires a'.ledger == AfterSend(a.ledger, if f.Some? then ContributedBy(f.value) else 0)
    requires a.left == a'.left + if f.Some? then ContributedBy(f.value) else 0
    requires forall x | x in a.own && x != id :: x in a'.own && a'.own[x] == a.own[x]
    ensures Accounts(if f.Some? then [f.value] else [], [id], a, a')
  {
    NothingBlocked(a.own, a.left);
    if f.Some? {
      assert [] + [f.value] == [f.value];
      BlockedOneMore([], f.value, a.own, a.left);
    }
  }

  lemma FirstAccount(f: StreamFrame, ids: seq<nat>, a: Account, a': Account)
    requires Accounts([f], ids, a, a')
    ensures a'.blocked == a.blocked + BlockedBy(f, a.own, a'.left) && a'.ledger == AfterSend(a.ledger, ContributedBy(f))
    ensures a.left == a'.left + ContributedBy(f)
  {
    NothingBlocked(a.own, a.left);
    assert [] + [f] == [f] && [f][..0] == [];
    assert Contributed([f]) == ContributedBy(f);
    BlockedOneMore([], f, a.own, a.left);
  }

  lemma AccountsOneMore(fs: seq<StreamFrame>, order: seq<nat>, i: nat, f: StreamFrame, a: Account, a1: Account,
    a2: Account)
    requires Distinct(order) && i < |order| && order[i] in a.own && f.streamID == order[i]
    requires Accounts(fs, order[..i], a, a1) && Accounts([f], [order[i]], a1, a2)
    ensures Accounts(fs + [f], order[..i + 1], a, a2)
  {
    hide BlockedByAll, BlockedBy, Contributed, ContributedBy, Distinct;
    NotBefore(order, i);
    FirstAccount(f, [order[i]], a1, a2);
    SameBlocked(f, a.own, a1.own, a2.left);
    BlockedOneMore(fs, f, a.own, a.left);
  }

  lemma AccountsSame(fs: seq<StreamFrame>, order: seq<nat>, i: nat, a: Account, a1: Account, a2: Account)
    requires Distinct(order) && i < |order| && Accounts(fs, order[..i], a, a1) && Accounts([], [order[i]], a1, a2)
    ensures Accounts(fs, order[..i + 1], a, a2)
  {
    hide BlockedBy, ContributedBy, Distinct;
    NotBefore(order, i);
    NothingBlocked(a1.own, a1.left);
  }

  lemma AccountsEnd(fs: seq<StreamFrame>, ids: seq<nat>, a: Account, a': Account)
    requires Accounts(fs, ids, a, a')
    ensures a'.blocked == a.blocked + BlockedByAll(fs, a.own, a.left)
      && a'.ledger == AfterSend(a.ledger, Contributed(fs))
    ensures Contributed(fs) <= a.left
  {
  }

  /** A stream that has used up its window is blocked, and so is the connection. */
  lemma {:induction false} UsedUpIsBlocked(fs: seq<StreamFrame>, own: map<nat, nat>, left: nat, i: nat)
    requires i < |fs| && Contributed(fs) <= left
    ensures left == Contributed(fs) ==> 0 in BlockedByAll(fs, own, left)
    ensures left > Contributed(fs) && !fs[i].fin && fs[i].streamID in own && |fs[i].data| == own[fs[i].streamID] ==>
      fs[i].streamID in BlockedByAll(fs, own, left)
    decreases |fs|
  {
    var n := |fs| - 1;
    if i < n { UsedUpIsBlocked(fs[..n], own, left, i); }
  }

  /** Nothing else is blocked. */
  lemma {:induction false} BlockedIsUsedUp(fs: seq<StreamFrame>, own: map<nat, nat>, left: nat, id: nat)
    requires id in BlockedByAll(fs, own, left)
    ensures
      || (id == 0 && left <= Contributed(fs))
      || exists f | f in fs :: f.streamID == id && !f.fin && id in own && |f.data| == own[id]
    decreases |fs|
  {
    var n := |fs| - 1;
    if id in BlockedByAll(fs[..n], own, left) {
      BlockedIsUsedUp(fs[..n], own, left, id);
    } else {
      assert fs[n] in fs;
    }
  }

  /** The ledgers after a frame of a stream: those of the other streams are unchanged. */
  ghost predicate Spent(all: seq<Ledger>, c: Ledger, all': seq<Ledger>, c': Ledger, slot: nat, f: Option<StreamFrame>) {
    && |all'| == |all| && SameBut(all, all', slot) && slot < |all|
    && all'[slot] == AfterSend(all[slot], if f.Some? then |f.value.data| else 0)
    && c' == AfterSend(c, if f.Some? then ContributedBy(f.value) else 0)
  }

  lemma SpentKeeps(all: seq<Ledger>, c: Ledger, all': seq<Ledger>, c': Ledger, slot: nat, f: Option<StreamFrame>)
    requires Spent(all, c, all', c', slot, f) && Contributing(all)
    ensures Contributing(all')
  {
  }

  lemma NothingSpent(all: seq<Ledger>, c: Ledger, slot: nat)
    requires slot < |all|
    ensures Spent(all, c, all, c, slot, None)
  {
  }

  /** What PopFrame finds out about the windows is what is left of them. */
  lemma BlockedIsBlocked(l: Ledger, c: Ledger, f: StreamFrame, own: map<nat, nat>, ofStream: nat, ofConnection: nat)
    requires l.contributes <==> f.streamID != 1 && f.streamID != 3
    requires f.streamID in own && own[f.streamID] == WindowLeft(l, ofStream)
    requires |f.data| <= MaySend(l, c, ofStream, ofConnection)
    ensures ContributedBy(f) <= WindowLeft(c, ofConnection)
    ensures var left := WindowLeft(AfterSend(c, ContributedBy(f)), ofConnection);
      && left == WindowLeft(c, ofConnection) - ContributedBy(f)
      && BlockedBy(f, own, left) ==
        (if left == 0 then [0] else if !f.fin && |f.data| == MaySend(l, c, ofStream, ofConnection) then [f.streamID]
          else [])
  {
  }

  /**
   The next frame of a stream, if there is one and it fits: the bytes after those that were sent, no more than the room
   and the send window allow. The second result says whether to go on with other streams.
   */
  method PopFrame(s: Stream, flow: FlowControlManager, maxBytes: nat, currentLen: nat)
    returns (frame: Option<StreamFrame>, more: bool, blocked: Option<nat>)
    requires s.Valid() && flow.Valid() && flow.Sending() && Counted(s, flow) && Contributing(flow.all)
    modifies s`dataForWriting, s`writeOffset, s`finSent, s`sent, flow`all, flow.conn`bytesSent, flow.made`bytesSent
    ensures s.Valid() && flow.Valid() && flow.Sending() && (old(flow.Receiving()) ==> flow.Receiving())
      && Counted(s, flow)
    ensures
      Spent(old(flow.all), old(flow.conn.Value()), flow.all, flow.conn.Value(), flow.streams[s.streamID].slot, frame)
    ensures (if blocked.Some? then [blocked.value] else [])
      == if frame.Some? then BlockedBy(frame.value, old(OwnWindows(flow)), ConnectionLeft(flow)) else []
    ensures frame.Some? ==>
      ContributedBy(frame.value) <= old(ConnectionLeft(flow)) == ConnectionLeft(flow) + ContributedBy(frame.value)
    ensures frame == None ==> s.writeOffset == old(s.writeOffset) && s.sent == old(s.sent) && blocked == None
    ensures var header := Streams.MinLength(StreamFrame(s.streamID, false, true, old(s.writeOffset), []));
      var room := maxBytes - currentLen - header;
      var len, window := old(s.LenOfDataForWriting()), old(flow.SendWindowSize(s.streamID));
      && (frame == None <==> room <= 0 || (if len == 0 then !old(s.ShouldSendFin()) else window == 0))
      && (frame == None ==> (more <==> room >= 0))
      && (frame.Some? ==> |frame.value.data| == Min(len, Min(room, window)))
    ensures frame.Some? ==>
      && Good(frame.value) && frame.value.dataLenPresent && frame.value.streamID == s.streamID
        && frame.value.offset == old(s.writeOffset) && s.sent == old(s.sent) + [frame.value]
      && currentLen + Streams.MinLength(frame.value) + |frame.value.data| <= maxBytes
      && |frame.value.data| <= old(flow.SendWindowSize(s.streamID))
      && (more <==> currentLen + Streams.MinLength(frame.value) + |frame.value.data| != maxBytes)
      && (blocked == Some(0) <==> flow.RemainingConnectionWindowSize() == 0)
      && (blocked == Some(s.streamID) <==>
          flow.RemainingConnectionWindowSize() != 0 && !frame.value.fin
            && |frame.value.data| == old(flow.SendWindowSize(s.streamID)))
      && (blocked.Some? ==> blocked.value == 0 || blocked.value == s.streamID < 0x1_0000_0000)
  {
    hide SumsOk, ReceiveOk, SendOk, FlowController.Value, Stream.Valid, FlowControlManager.Linked, Spent, BlockedBy,
      OwnWindows, WindowLeft, MaySend;
    frame, blocked := None, None;
    NothingCounted(s, flow);
    ghost var own, l, c := OwnWindows(flow), flow.LedgerOf(s.streamID), flow.conn.Value();
    ghost var slot := flow.streams[s.streamID].slot;
    NothingSpent(flow.all, c, slot);
    var frameHeaderBytes := Streams.MinLength(StreamFrame(s.streamID, false, true, s.writeOffset, []));
    if currentLen + frameHeaderBytes > maxBytes {
      return None, false, None;
    }
    var maxLen := maxBytes - currentLen - frameHeaderBytes;
    var sendWindowSize := 0;
    if s.LenOfDataForWriting() != 0 {
      sendWindowSize := flow.SendWindowSize(s.streamID);
      maxLen := Min(maxLen, sendWindowSize);
    }
    if maxLen == 0 {
      return None, true, None;
    }
    frame := s.NextFrame(maxLen);
    if frame == None {
      return None, true, None;
    }
    var dataLen := |frame.value.data|;
    ghost var all := flow.all;
    BlockedIsBlocked(l, c, frame.value, own, flow.sendStreamWindow, flow.sendConnectionWindow);
    var _ := flow.AddBytesSent(s.streamID, dataLen);
    IsSpent(all, c, flow.all, flow.conn.Value(), slot, frame.value);
    if flow.RemainingConnectionWindowSize() == 0 {
      blocked := Some(0);
    } else if !frame.value.fin && sendWindowSize - dataLen == 0 {
      blocked := Some(s.streamID);
    }
    more := currentLen + frameHeaderBytes + dataLen != maxBytes;
  }

  ghost predicate SameBut(all: seq<Ledger>, all': seq<Ledger>, slot: nat) {
    forall i | 0 <= i < |all| && i < |all'| && i != slot :: all'[i] == all[i]
  }

  lemma NothingCounted(s: Stream, flow: FlowControlManager)
    requires flow.Linked() && Counted(s, flow)
    ensures s.streamID != 0 && flow.streams[s.streamID].slot < |flow.all|
    ensures flow.LedgerOf(s.streamID) == flow.all[flow.streams[s.streamID].slot]
    ensures flow.LedgerOf(s.streamID).streamID == s.streamID
    ensures s.streamID in OwnWindows(flow)
      && OwnWindows(flow)[s.streamID] == WindowLeft(flow.LedgerOf(s.streamID), flow.sendStreamWindow)
  {
  }

  lemma LedgerIsListed(flow: FlowControlManager, id: nat)
    requires flow.Linked() && id in flow.streams
    ensures flow.streams[id].slot < |flow.all| && flow.LedgerOf(id) == flow.all[flow.streams[id].slot]
  {
  }

  lemma IsSpent(all: seq<Ledger>, c: Ledger, all': seq<Ledger>, c': Ledger, slot: nat, f: StreamFrame)
    requires slot < |all| && all' == all[slot := AfterSend(all[slot], |f.data|)]
    requires all[slot].contributes <==> f.streamID != 1 && f.streamID != 3
    requires c' == if all[slot].contributes then AfterSend(c, |f.data|) else c
    ensures Spent(all, c, all', c', slot, Some(f))
  {
  }

  lemma NewWindow(flow: FlowControlManager, before: map<nat, FlowController>, id: nat)
    requires flow.Linked() && id !in before && flow.streams.Keys == before.Keys + {id}
    requires flow.streams[id].slot < |flow.all| && flow.all[flow.streams[id].slot].sendWindow == 0
    requires forall x | x in before :: flow.streams[x] == before[x]
    ensures NewWindows(before, flow.streams)
  {
  }

  lemma SlotsApart(flow: FlowControlManager, a: nat, b: nat)
    requires flow.Linked() && a in flow.streams && b in flow.streams && a != b
    ensures flow.streams[a].slot != flow.streams[b].slot
  {
    assert flow.streams[a].streamID == a && flow.streams[b].streamID == b;
  }

  lemma SpentOthers(flow: FlowControlManager, all: seq<Ledger>, all': seq<Ledger>, slot: nat)
    requires |all'| == |all| && SameBut(all, all', slot)
    ensures forall x | x in flow.streams && flow.streams[x].slot < |all| && flow.streams[x].slot != slot ::
      all'[flow.streams[x].slot] == all[flow.streams[x].slot]
  {
  }

  lemma StillCounted(all: seq<Ledger>, all': seq<Ledger>, slot: nat, other: nat)
    requires |all'| == |all| && SameBut(all, all', slot) && other != slot && other < |all|
    ensures all'[other] == all[other]
  {
  }

  /** The frames of a stream. */
  ghost function FramesOf(fs: seq<StreamFrame>, id: nat): seq<StreamFrame> {
    if fs == [] then []
    else FramesOf(fs[..|fs| - 1], id) + if fs[|fs| - 1].streamID == id then [fs[|fs| - 1]] else []
  }

  /** The frames are of the given streams in the given order, at most one of each. */
  ghost predicate FollowsOrder(fs: seq<StreamFrame>, order: seq<nat>) {
    if order == [] then fs == []
    else
      var n := |order| - 1;
      FollowsOrder(fs, order[..n])
        || (fs != [] && fs[|fs| - 1].streamID == order[n] && FollowsOrder(fs[..|fs| - 1], order[..n]))
  }

  /** The frames are of these streams. */
  ghost predicate AllOf(fs: seq<StreamFrame>, ids: set<nat>) {
    forall f | f in fs :: f.streamID in ids
  }

  lemma {:induction false} FollowersOf(fs: seq<StreamFrame>, order: seq<nat>, ids: set<nat>)
    requires FollowsOrder(fs, order) && forall id | id in order :: id in ids
    ensures AllOf(fs, ids)
    decreases |order|
  {
    if order != [] {
      var n := |order| - 1;
      if FollowsOrder(fs, order[..n]) {
        FollowersOf(fs, order[..n], ids);
      } else {
        FollowersOf(fs[..|fs| - 1], order[..n], ids);
        assert fs == fs[..|fs| - 1] + [fs[|fs| - 1]] && order[n] in order;
      }
    }
  }

  lemma OrderOneMore(fs: seq<StreamFrame>, order: seq<nat>, i: nat, frame: Option<StreamFrame>)
    requires i < |order| && FollowsOrder(fs, order[..i]) && (frame.Some? ==> frame.value.streamID == order[i])
    ensures FollowsOrder(fs + if frame.Some? then [frame.value] else [], order[..i + 1])
    ensures frame == None ==> FollowsOrder(fs, order[..i + 1])
  {
    assert order[..i + 1][..i] == order[..i];
    assert fs + [] == fs;
    if frame.Some? { assert (fs + [frame.value])[..|fs|] == fs; }
  }

  /** The streams as they were, and k new ones of the peer in which nothing has been written. */
  ghost predicate NewStreams(before: map<nat, Stream>, after: map<nat, Stream>, first: nat, k: nat)
    reads after.Values
  {
    && after.Keys == before.Keys + StreamsMap.Ids(StreamsMap.NextIds(first, k))
    && (forall x | x in before :: after[x] == before[x])
    && forall x | x in after && x !in before :: after[x].written == [] && after[x].sent == [] && !after[x].failed
  }

  /** The flow controllers as they were, and new ones whose peer has not granted anything yet. */
  ghost predicate NewWindows(before: map<nat, FlowController>, after: map<nat, FlowController>)
    reads after.Values
  {
    && before.Keys <= after.Keys
    && forall x | x in after :: if x in before then after[x] == before[x] else after[x].sendWindow == 0
  }

  lemma NoWindows(windows: map<nat, FlowController>)
    ensures NewWindows(windows, windows)
  {
  }

  lemma MoreWindows(a: map<nat, FlowController>, b: map<nat, FlowController>, c: map<nat, FlowController>)
    requires NewWindows(a, b) && NewWindows(b, c)
    ensures NewWindows(a, c)
  {
  }

  class Framer {
    const streamsMap: StreamsMap.Map
    const flow: FlowControlManager
    var streams: map<nat, Stream>
    var retransmissionQueue: seq<StreamFrame>
    var blockedFrameQueue: seq<nat>

    /** The frames that were ever to be sent again, and the pieces of each that have left. */
    ghost var queued: seq<StreamFrame>
    ghost var groups: seq<seq<StreamFrame>>
    ghost var repr: set<Stream>

    ghost predicate StreamsOk()
      reads this`streams, this`repr, repr, flow
    {
      && Contributing(flow.all)
      && forall id | id in streams ::
        streams[id] in repr && streams[id].streamID == id && streams[id].Valid() && Counted(streams[id], flow)
    }

    ghost predicate BlockedOk()
      reads this`blockedFrameQueue
    {
      forall id | id in blockedFrameQueue :: id < 0x1_0000_0000
    }

    ghost predicate Valid()
      reads this, repr, flow, flow.conn, flow.made, streamsMap
    {
      && flow.Valid() && flow.Sending() && streamsMap.Valid() && StreamsOk()
      && streamsMap.streams == streams.Keys == flow.streams.Keys
      && QueueOk(queued, groups, retransmissionQueue) && AllGood(retransmissionQueue)
    }

    constructor (m: StreamsMap.Map, f: FlowControlManager)
      requires f.Valid() && f.Sending() && m.Valid() && m.openStreams == [] && f.streams == map[] && f.all == []
      ensures Valid() && BlockedOk() && streamsMap == m && flow == f && streams == map[] && retransmissionQueue == []
        && queued == [] && repr == {}
    {
      streamsMap, flow, streams, retransmissionQueue, blockedFrameQueue := m, f, map[], [], [];
      queued, groups, repr := [], [], {};
    }

    /** The stream has more to send, and may send more, than a packet holds. */
    ghost predicate Ample(id: nat)
      requires flow.Linked()
      reads this`streams, this`repr, repr, flow, flow.conn, flow.made
    {
      && id in streams && streams[id] in repr && streams[id].LenOfDataForWriting() >= MAX_PACKET_SIZE
      && flow.SendWindowSize(id) >= MAX_PACKET_SIZE
    }

    lemma IsLinked()
      requires Valid()
      ensures flow.Linked()
    {
    }

    /** Nothing is to be sent again, and the stream whose turn it is has more to send than a packet holds. */
    ghost predicate Filling()
      requires flow.Linked()
      reads this`streams, this`repr, this`retransmissionQueue, repr, flow, flow.conn, flow.made, streamsMap
    {
      && retransmissionQueue == [] && streamsMap.roundRobinIndex <= |streamsMap.openStreams|
      && var order := Order(streamsMap.openStreams, streamsMap.roundRobinIndex); order != [] && Ample(order[0])
    }

    ghost function AccountNow(): Account
      reads this`blockedFrameQueue, flow, flow.conn
    {
      Account(OwnWindows(flow), ConnectionLeft(flow), flow.conn.Value(), blockedFrameQueue)
    }

    /** The next frame of one stream. */
    method PopNext(id: nat, maxBytes: nat, currentLen: nat)
      returns (frame: Option<StreamFrame>, more: bool, blocked: Option<nat>)
      requires flow.Valid() && flow.Sending() && StreamsOk() && id in streams
      modifies flow`all, flow.conn`bytesSent, flow.made`bytesSent
      modifies repr`dataForWriting, repr`writeOffset, repr`finSent, repr`sent
      ensures flow.Valid() && flow.Sending() && (old(flow.Receiving()) ==> flow.Receiving()) && StreamsOk()
      ensures forall x | x in streams ::
        streams[x].sent == old(streams[x].sent) + if x == id && frame.Some? then [frame.value] else []
      ensures frame.Some? ==>
        && Good(frame.value) && frame.value.dataLenPresent && frame.value.streamID == id
        && currentLen + Streams.MinLength(frame.value) + |frame.value.data| <= maxBytes
      ensures old(Ample(id)) && currentLen + 15 < maxBytes <= MAX_PACKET_SIZE ==>
        frame.Some? && !more && currentLen + Streams.MinLength(frame.value) + |frame.value.data| == maxBytes
      ensures Spent(old(flow.all), old(flow.conn.Value()), flow.all, flow.conn.Value(), flow.streams[id].slot, frame)
      ensures (if blocked.Some? then [blocked.value] else [])
        == if frame.Some? then BlockedBy(frame.value, old(OwnWindows(flow)), ConnectionLeft(flow)) else []
      ensures frame.Some? ==> old(ConnectionLeft(flow)) == ConnectionLeft(flow) + ContributedBy(frame.value)
      ensures blocked.Some? ==> blocked.value < 0x1_0000_0000
    {
      hide FlowController.Value, SumsOk, ReceiveOk, SendOk, Stream.Valid, SameBut, FlowControlManager.Linked, Good,
        FlowControlManager.SendWindowSize, FlowControlManager.RemainingConnectionWindowSize, BlockedBy, WindowLeft,
        Contributing, ContributedBy, OwnWindows, ConnectionLeft, AfterSend;
      var s := streams[id];
      ghost var all0, c0 := flow.all, flow.conn.Value();
      forall x | x in streams && x != id ensures flow.streams[x].slot != flow.streams[id].slot && streams[x] != s {
        SlotsApart(flow, x, id);
      }
      frame, more, blocked := PopFrame(s, flow, maxBytes, currentLen);
      SpentKeeps(all0, c0, flow.all, flow.conn.Value(), flow.streams[id].slot, frame);
      forall x | x in streams && x != id ensures Counted(streams[x], flow) {
        StillCounted(all0, flow.all, flow.streams[id].slot, flow.streams[x].slot);
      }
    }

    /** The next frame of one stream, and the BLOCKED frame that follows it. */
    method ServeStream(id: nat, maxBytes: nat, currentLen: nat) returns (frame: Option<StreamFrame>, more: bool)
      requires flow.Valid() && flow.Sending() && StreamsOk() && id in streams
      modifies this`blockedFrameQueue, flow`all, flow.conn`bytesSent, flow.made`bytesSent
      modifies repr`dataForWriting, repr`writeOffset, repr`finSent, repr`sent
      ensures flow.Valid() && flow.Sending() && (old(flow.Receiving()) ==> flow.Receiving()) && StreamsOk()
      ensures forall x | x in streams ::
        streams[x].sent == old(streams[x].sent) + if x == id && frame.Some? then [frame.value] else []
      ensures frame.Some? ==>
        && Good(frame.value) && frame.value.dataLenPresent && frame.value.streamID == id
        && currentLen + Streams.MinLength(frame.value) + |frame.value.data| <= maxBytes
      ensures old(BlockedOk()) ==> BlockedOk()
      ensures Accounts(if frame.Some? then [frame.value] else [], [id], old(AccountNow()), AccountNow())
      ensures old(Ample(id)) && currentLen + 15 < maxBytes <= MAX_PACKET_SIZE ==>
        frame.Some? && !more && currentLen + Streams.MinLength(frame.value) + |frame.value.data| == maxBytes
    {
      hide FlowController.Value, SumsOk, ReceiveOk, SendOk, StreamsOk, FlowControlManager.Linked, Good, Ample,
        FlowControlManager.Receiving, BlockedBy, WindowLeft, ContributedBy, Accounts;
      ghost var all0, a := flow.all, AccountNow();
      IsCounted(id);
      forall x | x in flow.streams && x != id ensures flow.streams[x].slot != flow.streams[id].slot {
        SlotsApart(flow, x, id);
      }
      var blocked;
      frame, more, blocked := PopNext(id, maxBytes, currentLen);
      SpentOthers(flow, all0, flow.all, flow.streams[id].slot);
      if blocked.Some? {
        blockedFrameQueue := blockedFrameQueue + [blocked.value];
      }
      OneAccount(id, frame, a, AccountNow());
    }

    lemma IsCounted(id: nat)
      requires StreamsOk() && id in streams
      ensures id in flow.streams
    {
    }

    /** Frames of streams in the given order, until there is no room: of the first i streams. */
    method ServeInOrder(order: seq<nat>, maxBytes: nat) returns (res: seq<StreamFrame>, i: nat, more: bool)
      requires flow.Valid() && flow.Sending() && StreamsOk() && Distinct(order)
        && forall id | id in order :: id in streams
      modifies this`blockedFrameQueue, flow`all, flow.conn`bytesSent, flow.made`bytesSent
      modifies repr`dataForWriting, repr`writeOffset, repr`finSent, repr`sent
      ensures flow.Valid() && flow.Sending() && (old(flow.Receiving()) ==> flow.Receiving()) && StreamsOk()
      ensures AllGood(res) && AllWithLength(res) && Size(res) <= maxBytes
      ensures forall x | x in streams :: streams[x].sent == old(streams[x].sent) + FramesOf(res, x)
      ensures i <= |order| && (more ==> i == |order|) && (!more ==> i > 0) && FollowsOrder(res, order[..i])
      ensures order != [] && old(Ample(order[0])) && 15 < maxBytes <= MAX_PACKET_SIZE ==> Size(res) == maxBytes
      ensures old(BlockedOk()) ==> BlockedOk()
      ensures blockedFrameQueue
        == old(blockedFrameQueue) + BlockedByAll(res, old(OwnWindows(flow)), old(ConnectionLeft(flow)))
      ensures flow.conn.Value() == AfterSend(old(flow.conn.Value()), Contributed(res))
      ensures Contributed(res) <= old(ConnectionLeft(flow))
    {
      hide FlowController.Value, SumsOk, ReceiveOk, SendOk, FlowControlManager.Linked, Stream.Valid, Size, AllGood,
        AllWithLength, FramesOf, Good, Counted, StreamsOk, FollowsOrder, Ample, OwnWindows, WindowLeft, BlockedBy,
        BlockedByAll, Contributed, ContributedBy, Accounts, ConnectionLeft, AfterSend, Distinct;
      ghost var a := AccountNow();
      AllListed();
      res := [];
      var currentLen := 0;
      i, more := 0, true;
      Nothing();
      NoAccounts(a);
      assert order[..0] == [];
      while i < |order| && more
        invariant 0 <= i <= |order| && (!more ==> i > 0)
        invariant flow.Valid() && flow.Sending() && (old(flow.Receiving()) ==> flow.Receiving()) && StreamsOk()
        invariant currentLen == Size(res) <= maxBytes && AllGood(res) && AllWithLength(res)
        invariant forall x | x in streams :: streams[x].sent == old(streams[x].sent) + FramesOf(res, x)
        invariant old(BlockedOk()) ==> BlockedOk()
        invariant Accounts(res, order[..i], a, AccountNow())
        invariant FollowsOrder(res, order[..i])
        invariant order != [] && old(Ample(order[0])) && 15 < maxBytes <= MAX_PACKET_SIZE ==>
          if i == 0 then Ample(order[0]) && currentLen == 0 else !more && currentLen == maxBytes
      {
        assert order[i] in order;
        ghost var before := res;
        ghost var a1 := AccountNow();
        var frame;
        frame, more := ServeStream(order[i], maxBytes, currentLen);
        OrderOneMore(res, order, i, frame);
        if frame == None {
          AccountsSame(res, order, i, a, a1, AccountNow());
        } else {
          AccountsOneMore(res, order, i, frame.value, a, a1, AccountNow());
          OneMore([], res, frame.value);
          res := res + [frame.value];
          currentLen := currentLen + Streams.MinLength(frame.value) + |frame.value.data|;
          FramesOneMore(before, frame.value);
        }
        i := i + 1;
      }
      AccountsEnd(res, order[..i], a, AccountNow());
    }

    lemma AllListed()
      requires StreamsOk()
      ensures forall x | x in streams :: x in OwnWindows(flow)
    {
    }

    /** New data of the streams in their order, as much as there is room for. */
    method MaybePopNormalFrames(maxBytes: nat) returns (res: seq<StreamFrame>, ghost visited: seq<nat>)
      requires Valid()
      modifies this`blockedFrameQueue, flow`all, flow.conn`bytesSent, flow.made`bytesSent, streamsMap`roundRobinIndex
      modifies repr`dataForWriting, repr`writeOffset, repr`finSent, repr`sent
      ensures Valid() && (old(flow.Receiving()) ==> flow.Receiving())
      ensures AllGood(res) && AllWithLength(res) && Size(res) <= maxBytes
      ensures forall x | x in streams :: streams[x].sent == old(streams[x].sent) + FramesOf(res, x)
      ensures visited <= old(Order(streamsMap.openStreams, streamsMap.roundRobinIndex)) && FollowsOrder(res, visited)
        && AllOf(res, streams.Keys)
      ensures old(Filling()) && 15 < maxBytes <= MAX_PACKET_SIZE ==> Size(res) == maxBytes
      ensures old(BlockedOk()) ==> BlockedOk()
      ensures blockedFrameQueue
        == old(blockedFrameQueue) + BlockedByAll(res, old(OwnWindows(flow)), old(ConnectionLeft(flow)))
      ensures flow.conn.Value() == AfterSend(old(flow.conn.Value()), Contributed(res))
      ensures Contributed(res) <= old(ConnectionLeft(flow))
    {
      hide FlowController.Value, SumsOk, ReceiveOk, SendOk, FlowControlManager.Linked, Stream.Valid,
        StreamsMap.TableOk, Until, Size, AllGood, AllWithLength, FramesOf, QueueOk, Order, Advance, Special, Served,
        Distinct, Counted, StreamsOk, FollowsOrder, AllOf, Ample, OwnWindows, ConnectionLeft, BlockedByAll,
        Contributed;
      OrderOpen();
      var order := Order(streamsMap.openStreams, streamsMap.roundRobinIndex);
      var i, more;
      res, i, more := ServeInOrder(order, maxBytes);
      var stop := if more then None else Some(order[i - 1]);
      var fn := (id: nat) => if Some(id) == stop then Stop else Continue;
      StoppedAt(order, i, more, fn);
      var served, _ := streamsMap.RoundRobinIterate(fn);
      visited := served;
      FollowersOf(res, order[..i], streams.Keys);
    }

    /** What belongs to a new stream. */
    method StartStream(id: nat)
      requires flow.Valid() && flow.Sending() && StreamsOk() && 0 < id < 0x1_0000_0000 && id !in streams
        && streams.Keys == flow.streams.Keys
      modifies this`streams, this`repr, flow`streams, flow`all, flow`made
      ensures flow.Valid() && flow.Sending() && (old(flow.Receiving()) ==> flow.Receiving()) && StreamsOk()
      ensures id in streams && streams == old(streams)[id := streams[id]] && flow.streams.Keys == streams.Keys
      ensures fresh(streams[id]) && streams[id].written == [] && streams[id].sent == [] && !streams[id].failed
      ensures fresh(repr - old(repr)) && forall c | c in flow.made && c !in old(flow.made) :: fresh(c)
      ensures NewWindows(old(flow.streams), flow.streams)
    {
      hide FlowController.Value, SumsOk, ReceiveOk, SendOk, Stream.Valid, FlowControlManager.Linked, NewWindows,
        Contributing;
      var s := new Stream(id);
      ghost var all := flow.all;
      flow.NewStream(id, id != 1 && id != 3);
      OneMoreContributes(all, flow.all[|all|]);
      NewWindow(flow, old(flow.streams), id);
      assert StreamsOk();
      assert Counted(s, flow);
      AddStream(s);
    }

    /** A stream that flow control knows is added to the others. */
    method AddStream(s: Stream)
      requires StreamsOk() && s.streamID !in streams && s.Valid() && Counted(s, flow)
      modifies this`streams, this`repr
      ensures StreamsOk() && streams == old(streams)[s.streamID := s] && repr == old(repr) + {s}
    {
      hide Stream.Valid, Counted;
      streams := streams[s.streamID := s];
      repr := repr + {s};
    }

    /** A new stream of this side. */
    method OpenStream(maxOutgoing: nat) returns (r: StreamsMap.OpenResult)
      requires Valid() && streamsMap.nextStream < 0x1_0000_0000
      modifies this`streams, this`repr, streamsMap, flow`streams, flow`all, flow`made
      ensures Valid() && (old(flow.Receiving()) ==> flow.Receiving())
      ensures r.Opened? ==> var id := old(streamsMap.nextStream);
        && id !in old(streams) && id in streams && streams == old(streams)[id := streams[id]]
        && fresh(streams[id]) && streams[id].written == [] && streams[id].sent == []
      ensures !r.Opened? ==> streams == old(streams)
      ensures r == StreamsMap.Opened <==> old(streamsMap.numOutgoingStreams) < maxOutgoing
      ensures streamsMap.nextStream == old(streamsMap.nextStream) + (if r.Opened? then 2 else 0)
        && streamsMap.highestStreamOpenedByPeer == old(streamsMap.highestStreamOpenedByPeer)
    {
      hide FlowController.Value, SumsOk, ReceiveOk, SendOk, Stream.Valid, StreamsMap.TableOk, QueueOk, AllGood,
        Rotated, Without, FlowControlManager.Linked, StreamsOk, Counted;
      var id := streamsMap.nextStream;
      r := streamsMap.OpenStream(maxOutgoing, x => true);
      if r.Opened? {
        StartStream(id);
      }
    }

    /** The next stream of the peer. */
    method AcceptStream(maxIncoming: nat) returns (r: StreamsMap.OpenResult)
      requires Valid() && streamsMap.FirstNew() < 0x1_0000_0000
      modifies this`streams, this`repr, streamsMap, flow`streams, flow`all, flow`made
      ensures Valid() && (old(flow.Receiving()) ==> flow.Receiving())
      ensures r in {StreamsMap.Opened, StreamsMap.TooManyOpenStreams}
      ensures streamsMap.nextStream == old(streamsMap.nextStream)
      ensures fresh(repr - old(repr)) && forall c | c in flow.made && c !in old(flow.made) :: fresh(c)
      ensures NewWindows(old(flow.streams), flow.streams)
      ensures r == StreamsMap.TooManyOpenStreams <==> old(streamsMap.numIncomingStreams) >= maxIncoming
      ensures r.Opened? ==> var id := old(streamsMap.FirstNew());
        && id !in old(streams) && id in streams && streams == old(streams)[id := streams[id]]
        && fresh(streams[id]) && streams[id].written == [] && streams[id].sent == [] && !streams[id].failed
        && streamsMap.FirstNew() == id + 2 && streamsMap.highestStreamOpenedByPeer == id
      ensures !r.Opened? ==>
        streams == old(streams) && streamsMap.numIncomingStreams >= maxIncoming
        && streamsMap.highestStreamOpenedByPeer == old(streamsMap.highestStreamOpenedByPeer)
    {
      hide FlowController.Value, SumsOk, ReceiveOk, SendOk, Stream.Valid, StreamsMap.TableOk, QueueOk, AllGood,
        FlowControlManager.Linked, StreamsOk, Counted;
      var id := streamsMap.FirstNew();
      streamsMap.FirstIsPeers();
      r := streamsMap.OpenRemoteStream(id, maxIncoming, x => true);
      if r.Opened? {
        StartStream(id);
      }
    }

    /** A frame arrives for a stream: the stream is opened, with all streams of the peer below it that are new. */
    method GetOrOpenStream(id: nat, maxIncoming: nat) returns (r: StreamsMap.OpenResult, k: nat)
      requires Valid() && id < 0x1_0000_0000
      modifies this`streams, this`repr, streamsMap, flow`streams, flow`all, flow`made
      ensures Valid() && (old(flow.Receiving()) ==> flow.Receiving())
      ensures r == StreamsMap.Existing <==> id in old(streamsMap.streams)
      ensures r == StreamsMap.Closed <==>
        id !in old(streamsMap.streams) && id <= old(streamsMap.highestStreamOpenedByPeer)
      ensures r == StreamsMap.InvalidStreamID <==>
        && id !in old(streamsMap.streams) && id > old(streamsMap.highestStreamOpenedByPeer)
        && !StreamsMap.IsPeers(streamsMap.perspective, id)
      ensures r == StreamsMap.Opened ==> k > 0 && old(streamsMap.FirstNew()) + 2 * k == id + 2
      ensures r == StreamsMap.TooManyOpenStreams ==>
        streamsMap.numIncomingStreams >= maxIncoming && old(streamsMap.FirstNew()) + 2 * k <= id
      ensures r in {StreamsMap.Existing, StreamsMap.Closed, StreamsMap.InvalidStreamID} ==> k == 0
      ensures r != StreamsMap.NotCreated && streamsMap.nextStream == old(streamsMap.nextStream)
      ensures streamsMap.highestStreamOpenedByPeer
        == if k == 0 then old(streamsMap.highestStreamOpenedByPeer) else old(streamsMap.FirstNew()) + 2 * (k - 1)
      ensures NewStreams(old(streams), streams, old(streamsMap.FirstNew()), k)
        && forall x | x in streams && x !in old(streams) :: fresh(streams[x])
      ensures fresh(repr - old(repr)) && forall c | c in flow.made && c !in old(flow.made) :: fresh(c)
      ensures NewWindows(old(flow.streams), flow.streams)
    {
      hide Valid, StreamsMap.TableOk, FlowControlManager.Receiving, NewStreams, NewWindows;
      NoneNew(streams, streamsMap.FirstNew());
      NoWindows(flow.streams);
      if id in streamsMap.streams {
        return StreamsMap.Existing, 0;
      }
      if id <= streamsMap.highestStreamOpenedByPeer {
        return StreamsMap.Closed, 0;
      }
      if !StreamsMap.IsPeers(streamsMap.perspective, id) {
        return StreamsMap.InvalidStreamID, 0;
      }
      r, k := OpenUpTo(id, maxIncoming);
    }

    /** Opens the streams of the peer up to a new number. */
    method OpenUpTo(id: nat, maxIncoming: nat) returns (r: StreamsMap.OpenResult, k: nat)
      requires Valid() && id < 0x1_0000_0000
      requires id > streamsMap.highestStreamOpenedByPeer && StreamsMap.IsPeers(streamsMap.perspective, id)
      modifies this`streams, this`repr, streamsMap, flow`streams, flow`all, flow`made
      ensures Valid() && (old(flow.Receiving()) ==> flow.Receiving())
      ensures r == StreamsMap.Opened || r == StreamsMap.TooManyOpenStreams
      ensures r == StreamsMap.Opened ==> k > 0 && old(streamsMap.FirstNew()) + 2 * k == id + 2
      ensures r == StreamsMap.TooManyOpenStreams ==>
        streamsMap.numIncomingStreams >= maxIncoming && old(streamsMap.FirstNew()) + 2 * k <= id
      ensures streamsMap.nextStream == old(streamsMap.nextStream)
      ensures streamsMap.highestStreamOpenedByPeer
        == if k == 0 then old(streamsMap.highestStreamOpenedByPeer) else old(streamsMap.FirstNew()) + 2 * (k - 1)
      ensures NewStreams(old(streams), streams, old(streamsMap.FirstNew()), k)
        && forall x | x in streams && x !in old(streams) :: fresh(streams[x])
      ensures fresh(repr - old(repr)) && forall c | c in flow.made && c !in old(flow.made) :: fresh(c)
      ensures NewWindows(old(flow.streams), flow.streams)
    {
      hide Valid, StreamsMap.TableOk, FlowControlManager.Receiving, NewStreams, NewWindows;
      k := 0;
      ghost var first := streamsMap.FirstNew();
      NoneNew(streams, first);
      NoWindows(flow.streams);
      TableIsOk();
      streamsMap.NextIsPeers(id);
      while streamsMap.FirstNew() <= id
        invariant Valid() && (old(flow.Receiving()) ==> flow.Receiving())
        invariant streamsMap.FirstNew() == first + 2 * k <= id + 2
        invariant streamsMap.nextStream == old(streamsMap.nextStream)
        invariant streamsMap.highestStreamOpenedByPeer
          == if k == 0 then old(streamsMap.highestStreamOpenedByPeer) else first + 2 * (k - 1)
        invariant NewStreams(old(streams), streams, first, k)
          && forall x | x in streams && x !in old(streams) :: fresh(streams[x])
        invariant fresh(repr - old(repr)) && forall c | c in flow.made && c !in old(flow.made) :: fresh(c)
        invariant NewWindows(old(flow.streams), flow.streams)
        decreases id + 2 - streamsMap.FirstNew()
      {
        ghost var now, windows := streams, flow.streams;
        r := AcceptStream(maxIncoming);
        MoreWindows(old(flow.streams), windows, flow.streams);
        if r != StreamsMap.Opened {
          return;
        }
        OneMoreNew(old(streams), now, streams, first, k);
        k := k + 1;
      }
      return StreamsMap.Opened, k;
    }

    lemma TableIsOk()
      requires Valid()
      ensures streamsMap.Valid()
    {
    }

    lemma NoneNew(streams: map<nat, Stream>, first: nat)
      ensures NewStreams(streams, streams, first, 0)
    {
    }

    lemma OneMoreNew(before: map<nat, Stream>, now: map<nat, Stream>, after: map<nat, Stream>, first: nat, k: nat)
      requires NewStreams(before, now, first, k) && first + 2 * k !in now && first + 2 * k in after
      requires after == now[first + 2 * k := after[first + 2 * k]]
      requires after[first + 2 * k].written == [] && after[first + 2 * k].sent == [] && !after[first + 2 * k].failed
      ensures NewStreams(before, after, first, k + 1)
    {
      StreamsMap.OneMoreId([], first, k, x => true);
      StreamsMap.IdsConcat(StreamsMap.NextIds(first, k), [first + 2 * k]);
      assert StreamsMap.NextIds(first, k + 1) == StreamsMap.NextIds(first, k) + [first + 2 * k];
    }

    /** The application writes. */
    method Write(id: nat, p: seq<byte>) returns (accepted: bool)
      requires id in streams && (streams[id].dataForWriting == None || streams[id].failed)
        && |streams[id].written| + |p| < TWO_64
      requires Valid()
      modifies repr`dataForWriting, repr`written, repr`late
      ensures accepted == !streams[id].failed
      ensures forall x | x in streams ::
        streams[x].written == old(streams[x].written) + if x == id && accepted then p else []
      ensures Valid() && (old(flow.Receiving()) ==> flow.Receiving())
    {
      hide FlowController.Value, SumsOk, ReceiveOk, SendOk, Stream.Valid, StreamsMap.TableOk, QueueOk, AllGood,
        FlowControlManager.Linked;
      accepted := streams[id].Write(p);
    }

    /** The application has written everything. */
    method Close(id: nat)
      requires Valid() && id in streams
      modifies repr`finishedWriting
      ensures Valid() && (old(flow.Receiving()) ==> flow.Receiving())
      ensures forall x | x in streams :: streams[x].finishedWriting == (x == id || old(streams[x].finishedWriting))
    {
      hide FlowController.Value, SumsOk, ReceiveOk, SendOk, Stream.Valid, StreamsMap.TableOk, QueueOk, AllGood,
        FlowControlManager.Linked;
      streams[id].Close();
    }

    /** The peer opens a window. */
    method UpdateWindow(id: nat, offset: nat) returns (e: FlowError)
      requires Valid()
      modifies flow`all, flow.conn`sendWindow, flow.made`sendWindow
      ensures id != 0 && id in flow.streams ==> var l := old(flow.LedgerOf(id));
        flow.LedgerOf(id) == l.(sendWindow := Max(l.sendWindow, offset)) && flow.conn.Value() == old(flow.conn.Value())
      ensures id == 0 ==> var c := old(flow.conn.Value());
        flow.conn.Value() == c.(sendWindow := Max(c.sendWindow, offset)) && flow.all == old(flow.all)
      ensures Valid() && (old(flow.Receiving()) ==> flow.Receiving()) && (e == NoStream <==> id != 0 && id !in streams)
    {
      hide FlowController.Value, SumsOk, ReceiveOk, SendOk, Stream.Valid, StreamsMap.TableOk, QueueOk, AllGood,
        FlowControlManager.Linked, OneSendWindows;
      if id in flow.streams { LedgerIsListed(flow, id); }
      var r, _ := flow.UpdateWindow(id, offset);
      assert StreamsOk();
      e := r;
    }

    method DropStream(id: nat)
      requires flow.Valid() && flow.Sending() && StreamsOk() && streams.Keys == flow.streams.Keys
      modifies this`streams, flow`streams
      ensures flow.Valid() && flow.Sending() && (old(flow.Receiving()) ==> flow.Receiving()) && StreamsOk()
      ensures streams == old(streams) - {id} && flow.streams.Keys == streams.Keys == old(streams.Keys) - {id}
    {
      hide FlowController.Value, SumsOk, ReceiveOk, SendOk, Stream.Valid, FlowControlManager.Linked;
      MinusKeys(streams, id);
      MinusKeys(flow.streams, id);
      streams := streams - {id};
      assert StreamsOk();
      flow.RemoveStream(id);
      assert forall x | x in streams :: flow.streams[x] == old(flow.streams)[x];
    }

    /** A stream is finished. */
    method RemoveStream(id: nat) returns (ok: bool)
      requires Valid()
      modifies this`streams, streamsMap, flow`streams
      ensures Valid() && (old(flow.Receiving()) ==> flow.Receiving()) && streams == old(streams) - {id}
        && (ok <==> id in old(streams))
      ensures streamsMap.nextStream == old(streamsMap.nextStream)
        && streamsMap.highestStreamOpenedByPeer == old(streamsMap.highestStreamOpenedByPeer)
    {
      hide FlowController.Value, SumsOk, ReceiveOk, SendOk, Stream.Valid, StreamsMap.TableOk, QueueOk, AllGood,
        FlowControlManager.Linked, Rotated, Without, StreamsOk, Counted;
      MinusKeys(streams, id);
      ok := streamsMap.RemoveStream(id);
      if ok {
        DropStream(id);
      }
    }

    /** A frame is to be sent again. */
    method AddFrameForRetransmission(frame: StreamFrame)
      requires Valid() && Good(frame)
      modifies this`retransmissionQueue, this`queued, this`groups
      ensures Valid() && retransmissionQueue == old(retransmissionQueue) + [frame] && queued == old(queued) + [frame]
      ensures Flatten(groups) == Flatten(old(groups))
    {
      hide FlowController.Value, SumsOk, SendOk, FlowControlManager.Linked, Stream.Valid, StreamsMap.TableOk, AllGood,
        Flatten, QueueOk, StreamsOk;
      AddOk(queued, groups, retransmissionQueue, frame);
      OneGood(retransmissionQueue, frame);
      retransmissionQueue := retransmissionQueue + [frame];
      queued, groups := queued + [frame], groups + [[]];
    }

    predicate HasFramesForRetransmission()
      reads this
    {
      |retransmissionQueue| > 0
    }

    /**
     The frames for a packet: first what is to be sent again, then new data. The pieces that leave the retransmission
     queue and the new frames of each stream are recorded.
     */
    method PopStreamFrames(maxLen: nat)
      returns (fs: seq<StreamFrame>, ghost again: seq<StreamFrame>, ghost newFrames: seq<StreamFrame>)
      requires Valid()
      modifies this`retransmissionQueue, this`groups, this`blockedFrameQueue
      modifies flow`all, flow.conn`bytesSent, flow.made`bytesSent, streamsMap`roundRobinIndex
      modifies repr`dataForWriting, repr`writeOffset, repr`finSent, repr`sent
      ensures Valid() && (old(flow.Receiving()) ==> flow.Receiving())
      ensures fs == again + newFrames && AllGood(fs) && AllWithLength(fs) && Size(fs) <= maxLen
      ensures Flatten(groups) == Flatten(old(groups)) + again
      ensures retransmissionQueue != [] ==> Size(again) + Streams.MinLength(retransmissionQueue[0]) >= maxLen
      ensures forall x | x in streams :: streams[x].sent == old(streams[x].sent) + FramesOf(newFrames, x)
      ensures AllOf(newFrames, streams.Keys)
      ensures old(Filling()) && 15 < maxLen <= MAX_PACKET_SIZE ==> Size(fs) == maxLen
      ensures old(BlockedOk()) ==> BlockedOk()
      ensures blockedFrameQueue
        == old(blockedFrameQueue) + BlockedByAll(newFrames, old(OwnWindows(flow)), old(ConnectionLeft(flow)))
      ensures flow.conn.Value() == AfterSend(old(flow.conn.Value()), Contributed(newFrames))
      ensures Contributed(newFrames) <= old(ConnectionLeft(flow))
      ensures flow.conn.bytesSent == old(flow.conn.bytesSent) + Contributed(newFrames)
    {
      hide FlowController.Value, SumsOk, ReceiveOk, SendOk, FlowControlManager.Linked, Stream.Valid,
        StreamsMap.TableOk, AllGood, AllWithLength, Size, Flatten, QueueOk, StreamsOk, FramesOf, AllOf, Ample, Order,
        OwnWindows, ConnectionLeft, BlockedByAll, Contributed;
      var popped, currentLen, left, groups' := MaybePopFrames(retransmissionQueue, maxLen, queued, groups);
      retransmissionQueue, groups := left, groups';
      Nothing();
      SentValue(flow.conn);
      var normal, _ := MaybePopNormalFrames(maxLen - currentLen);
      SentValue(flow.conn);
      BothGood(popped, normal);
      fs, again, newFrames := popped + normal, popped, normal;
    }

    method PopBlockedFrame() returns (id: Option<nat>)
      requires Valid() && BlockedOk()
      modifies this`blockedFrameQueue
      ensures Valid() && BlockedOk() && (id.Some? ==> id.value < 0x1_0000_0000)
      ensures id == None <==> old(blockedFrameQueue) == []
      ensures id.Some? ==> [id.value] + blockedFrameQueue == old(blockedFrameQueue)
      ensures id == None ==> blockedFrameQueue == []
    {
      hide QueueOk, AllGood, StreamsOk;
      if |blockedFrameQueue| == 0 {
        return None;
      }
      id := Some(blockedFrameQueue[0]);
      assert blockedFrameQueue[0] in blockedFrameQueue && forall x | x in blockedFrameQueue[1..] ::
        x in blockedFrameQueue;
      blockedFrameQueue := blockedFrameQueue[1..];
    }

    /** Every stream in the order is there. */
    lemma OrderOpen()
      requires streamsMap.Valid() && streamsMap.streams == streams.Keys
      ensures streamsMap.roundRobinIndex <= |streamsMap.openStreams|
      ensures var order := Order(streamsMap.openStreams, streamsMap.roundRobinIndex);
        Distinct(order) && forall id | id in order :: id in streams
    {
      hide Order;
      var order := Order(streamsMap.openStreams, streamsMap.roundRobinIndex);
      OrderDistinct(streamsMap.openStreams, streamsMap.roundRobinIndex);
      forall id | id in order ensures id in streams {
        OrderMembers(streamsMap.openStreams, streamsMap.roundRobinIndex, id);
      }
    }
  }

  lemma MinusKeys<V>(m: map<nat, V>, id: nat)
    ensures (m - {id}).Keys == m.Keys - {id} && (id !in m ==> m - {id} == m)
  {
  }

  lemma Nothing()
    ensures Size([]) == 0 && AllGood([]) && AllWithLength([]) && FollowsOrder([], []) && forall x ::
      FramesOf([], x) == []
  {
  }

  lemma FramesOneMore(fs: seq<StreamFrame>, f: StreamFrame)
    ensures forall id :: FramesOf(fs + [f], id) == FramesOf(fs, id) + if id == f.streamID then [f] else []
  {
    assert (fs + [f])[..|fs|] == fs;
  }

  lemma StoppedAt(order: seq<nat>, i: nat, more: bool, fn: Callback)
    requires i <= |order| && Distinct(order) && (more ==> i == |order|) && (!more ==> i > 0)
    requires forall id :: fn(id) == if !more && id == order[i - 1] then Stop else Continue
    ensures Until(order, fn) == order[..i]
  {
    UntilStopped(order, if more then i else i - 1, fn);
  }
}
