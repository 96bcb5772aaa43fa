/** Whole runs of flow control, over any events. */
module FlowRuns {
  import opened Common
  import opened FlowLedgers
  import opened FlowControl
  import opened FlowReference

  /** For every stream and for the connection, the windows that were advertised only grow. */
  ghost predicate Growing(log: seq<WindowUpdate>) {
    forall i, j | 0 <= i < j < |log| && log[i].streamID == log[j].streamID :: log[i].offset < log[j].offset
  }

  /** The windows advertised so far are not above the present ones. */
  ghost predicate Advertised(log: seq<WindowUpdate>, created: set<nat>, streams: map<nat, FlowController>,
    all: seq<Ledger>, conn: Ledger) {
    && Growing(log) && streams.Keys <= created && 0 !in created
    && forall u | u in log ::
         && (u.streamID == 0 || u.streamID in created)
         && (u.streamID == 0 ==> u.offset <= conn.receiveWindow)
         && (u.streamID in streams && streams[u.streamID].slot < |all| ==>
           u.offset <= all[streams[u.streamID].slot].receiveWindow)
  }

  lemma WindowsKept(log: seq<WindowUpdate>, created: set<nat>, streams: map<nat, FlowController>, all: seq<Ledger>,
    conn: Ledger,
    all': seq<Ledger>, conn': Ledger, id: nat, offset: nat)
    requires Advertised(log, created, streams, all, conn) && OneSendWindows(all, conn, all', conn', id, offset)
    ensures Advertised(log, created, streams, all', conn')
  {
  }

  /** The largest window among the first one and those in the peer's parameters. */
  ghost function LargestParameter(events: seq<Event>, first: nat, ofStream: bool): nat {
    if events == [] then first
    else
      var rest, last := LargestParameter(events[..|events| - 1], first, ofStream), events[|events| - 1];
      if last.Parameters? then Max(rest, if ofStream then last.stream else last.connection) else rest
  }

  /** The largest window in the peer's window updates for a stream, or for the connection if the stream is 0. */
  ghost function LargestUpdate(events: seq<Event>, id: nat): nat {
    if events == [] then 0
    else
      var rest, last := LargestUpdate(events[..|events| - 1], id), events[|events| - 1];
      if last.PeerWindow? && last.id == id then Max(rest, last.offset) else rest
  }

  lemma {:induction false} Snoc(events: seq<Event>, e: Event, id: nat, first: nat, ofStream: bool)
    ensures LargestUpdate(events + [e], id)
      == Max(LargestUpdate(events, id), if e.PeerWindow? && e.id == id then e.offset else 0)
    ensures LargestParameter(events + [e], first, ofStream)
         == Max(LargestParameter(events, first, ofStream),
           if !e.Parameters? then 0 else if ofStream then e.stream else e.connection)
  {
    assert (events + [e])[..|events|] == events;
  }

  /** Send windows come from the peer. */
  ghost predicate Granted(all: seq<Ledger>, conn: Ledger, past: seq<Event>) {
    && (forall i | 0 <= i < |all| :: all[i].sendWindow <= LargestUpdate(past, all[i].streamID))
    && conn.sendWindow <= LargestUpdate(past, 0) && conn.streamID == 0
  }

  lemma GrantedStep(all: seq<Ledger>, conn: Ledger, past: seq<Event>, all': seq<Ledger>, conn': Ledger, e: Event)
    requires Granted(all, conn, past)
    requires OneSendWindows(all, conn, all', conn', if e.PeerWindow? then e.id else 0,
      if e.PeerWindow? then e.offset else 0)
    ensures Granted(all', conn', past + [e])
  {
    Snoc(past, e, 0, 0, true);
    forall i | 0 <= i < |all| ensures all'[i].sendWindow <= LargestUpdate(past + [e], all'[i].streamID) {
      Snoc(past, e, all[i].streamID, 0, true);
    }
  }

  lemma GrantedMore(all: seq<Ledger>, conn: Ledger, past: seq<Event>, all': seq<Ledger>, e: Event)
    requires Granted(all, conn, past) && all <= all' && forall i | |all| <= i < |all'| :: all'[i].sendWindow == 0
    ensures Granted(all', conn, past + [e])
  {
    Snoc(past, e, 0, 0, true);
    forall i | 0 <= i < |all| ensures all'[i].sendWindow <= LargestUpdate(past + [e], all'[i].streamID) {
      Snoc(past, e, all[i].streamID, 0, true);
    }
  }

  lemma GrantedLooked(all: seq<Ledger>, conn: Ledger, past: seq<Event>, done: set<nat>, raised: Ledger, now: int,
    rtt: nat, e: Event)
    requires Granted(all, conn, past) && SameWindow(conn, raised)
    ensures Granted(Looked(all, done, now, rtt), Updated(raised, now, rtt), past + [e])
  {
    Snoc(past, e, 0, 0, true);
    var all' := Looked(all, done, now, rtt);
    forall i | 0 <= i < |all| ensures all'[i].sendWindow <= LargestUpdate(past + [e], all'[i].streamID) {
      Snoc(past, e, all[i].streamID, 0, true);
    }
  }

  /** Between any two events. */
  ghost predicate Ready(m: FlowControlManager, created: set<nat>, log: seq<WindowUpdate>, past: seq<Event>)
    reads m, m.conn, m.made
  {
    m.Valid() && m.Receiving() && m.Sending() && Advertised(log, created, m.streams, m.all, m.conn.Value())
      && Granted(m.all, m.conn.Value(), past)
  }

  /** The updates of one round come after all earlier ones. */
  lemma UpdatesGrow(log: seq<WindowUpdate>, created: set<nat>, streams: map<nat, FlowController>, all: seq<Ledger>,
    conn: Ledger,
    raised: Ledger, ofStreams: seq<WindowUpdate>, conn': Ledger, now: int, rtt: nat)
    requires Advertised(log, created, streams, all, conn) && ReceiveOk(all, conn)
    requires Listed(ofStreams, all, streams, streams.Keys, now, rtt)
    requires SameWindow(conn, raised) && (Necessary(raised) ==> conn'.receiveWindow > raised.receiveWindow)
    requires !Necessary(raised) ==> conn' == raised
    ensures var updates := ofStreams + if Necessary(raised) then [WindowUpdate(0, conn'.receiveWindow)] else [];
      Advertised(log + updates, created, streams, Looked(all, SlotsOf(streams, streams.Keys), now, rtt), conn')
  {
    hide Necessary, Updated, ReceiveOk, Growing, Looked, SlotsOf;
    ListedGrows(ofStreams, all, conn, streams, now, rtt);
    LookedWindows(all, conn, SlotsOf(streams, streams.Keys), now, rtt);
    LookedAt(all, streams, now, rtt);
    var all' := Looked(all, SlotsOf(streams, streams.Keys), now, rtt);
    var more := if Necessary(raised) then [WindowUpdate(0, conn'.receiveWindow)] else [];
    forall u | u in ofStreams + more ensures Raises(u, streams, all, conn, all', conn') {
      assert u in ofStreams || u in more;
    }
    AdvertisedMore(log, created, streams, all, conn, ofStreams + more, all', conn');
  }

  lemma LookedAt(all: seq<Ledger>, streams: map<nat, FlowController>, now: int, rtt: nat)
    ensures forall id | id in streams && streams[id].slot < |all| ::
      Looked(all, SlotsOf(streams, streams.Keys), now, rtt)[streams[id].slot]
        == Updated(all[streams[id].slot], now, rtt)
  {
  }

  /** The update announces a new window, which is larger than the old one. */
  ghost predicate Raises(u: WindowUpdate, streams: map<nat, FlowController>, all: seq<Ledger>, conn: Ledger,
    all': seq<Ledger>, conn': Ledger) {
    if u.streamID == 0 then conn.receiveWindow < u.offset <= conn'.receiveWindow
    else u.streamID in streams && var i := streams[u.streamID].slot;
      i < |all| && i < |all'| && all[i].receiveWindow < u.offset <= all'[i].receiveWindow
  }

  lemma AdvertisedMore(log: seq<WindowUpdate>, created: set<nat>, streams: map<nat, FlowController>, all: seq<Ledger>,
    conn: Ledger,
    updates: seq<WindowUpdate>, all': seq<Ledger>, conn': Ledger)
    requires Advertised(log, created, streams, all, conn) && |all'| == |all|
      && conn.receiveWindow <= conn'.receiveWindow
    requires forall i | 0 <= i < |all| :: all[i].receiveWindow <= all'[i].receiveWindow
    requires forall i, j | 0 <= i < j < |updates| :: updates[i].streamID != updates[j].streamID
    requires forall u | u in updates :: Raises(u, streams, all, conn, all', conn')
    ensures Advertised(log + updates, created, streams, all', conn')
  {
    hide Growing;
    GrowingMore(log, updates);
  }

  /** Updates of different streams that are above all earlier ones. */
  lemma GrowingMore(log: seq<WindowUpdate>, updates: seq<WindowUpdate>)
    requires Growing(log) && forall i, j | 0 <= i < j < |updates| :: updates[i].streamID != updates[j].streamID
    requires forall u, v | u in log && v in updates && u.streamID == v.streamID :: u.offset < v.offset
    ensures Growing(log + updates)
  {
    var all := log + updates;
    forall i, j | 0 <= i < j < |all| && all[i].streamID == all[j].streamID ensures all[i].offset < all[j].offset {
      if i < |log| <= j { assert all[i] in log && all[j] in updates; }
    }
  }

  lemma LookedWindows(all: seq<Ledger>, conn: Ledger, done: set<nat>, now: int, rtt: nat)
    requires ReceiveOk(all, conn)
    ensures forall i | 0 <= i < |all| :: Looked(all, done, now, rtt)[i].receiveWindow >= all[i].receiveWindow
  {
    forall i | 0 <= i < |all| ensures Looked(all, done, now, rtt)[i].receiveWindow >= all[i].receiveWindow {
      WindowGrows(all[i], now, rtt);
    }
  }

  /** A new ledger at the end; removing a stream loses nothing. */
  lemma StreamAdded(log: seq<WindowUpdate>, created: set<nat>, streams: map<nat, FlowController>, all: seq<Ledger>,
    conn: Ledger,
    id: nat, streams': map<nat, FlowController>, all': seq<Ledger>)
    requires Advertised(log, created, streams, all, conn) && all <= all' && id != 0 && id !in created
    requires streams'.Keys == streams.Keys + {id} && forall x | x in streams ::
      streams'[x] == streams[x] && streams[x].slot < |all|
    ensures Advertised(log, created + {id}, streams', all', conn)
  {
  }

  lemma StreamGone(log: seq<WindowUpdate>, created: set<nat>, streams: map<nat, FlowController>, all: seq<Ledger>,
    conn: Ledger, streams': map<nat, FlowController>)
    requires Advertised(log, created, streams, all, conn) && streams'.Keys <= streams.Keys
      && forall x | x in streams' :: streams'[x] == streams[x]
    ensures Advertised(log, created, streams', all, conn)
  {
  }

  /** Flow control is in the state that the reference says. */
  ghost predicate Mirrors(m: FlowControlManager, a: Accounts, s: Setup)
    reads m, m.conn
  {
    && m.all == a.all && m.conn.Value() == a.conn && SameSlots(m.streams, a.open) && !a.failed
    && m.sendStreamWindow == a.ofStream && m.sendConnectionWindow == a.ofConnection
    && m.receiveStreamWindow == s.receiveStream && m.maxReceiveStreamWindow == s.maxReceiveStream
  }

  ghost predicate SameSlots(streams: map<nat, FlowController>, open: map<nat, nat>) {
    streams.Keys == open.Keys && forall id | id in streams :: streams[id].slot == open[id]
  }

  lemma LedgerMirrored(m: FlowControlManager, a: Accounts, s: Setup, id: nat)
    requires m.Linked() && Mirrors(m, a, s)
    ensures Slotted(a) && (id in m.streams <==> id in a.open)
    ensures id in m.streams ==> m.streams[id].slot == a.open[id] && m.LedgerOf(id) == LedgerOf(a, id)
  {
  }

  lemma SlotsMirrored(streams: map<nat, FlowController>, open: map<nat, nat>)
    requires SameSlots(streams, open)
    ensures SlotsOf(streams, streams.Keys) == open.Values
  {
    forall i | i in open.Values ensures i in SlotsOf(streams, streams.Keys) {
      var id :| id in open && open[id] == i;
      assert id in streams.Keys;
    }
  }

  /** Events that open no stream and advertise no window. */
  method Count(m: FlowControlManager, e: Event, ghost created: set<nat>, ghost log: seq<WindowUpdate>,
    ghost past: seq<Event>,
    ghost a: Accounts, ghost s: Setup)
    returns (failed: bool)
    requires Ready(m, created, log, past) && (e.Data? || e.Reset? || e.Read? || e.Send? || e.PeerWindow?)
      && Mirrors(m, a, s) && Slotted(a)
    modifies m`all, m.conn, m.made
    ensures !failed ==> Ready(m, created, log, past + [e]) && Mirrors(m, Apply(a, e, s), s)
    ensures m.streams == old(m.streams) && m.made == old(m.made) && (failed <==> Offends(a, e))
  {
    hide SumsOk, ReceiveOk, SendOk, SameWindows, OneSendWindows, Advertised, Granted, FlowController.Value,
      FlowControlManager.Linked, Apply, Mirrors;
    ghost var all0, c0 := m.all, m.conn.Value();
    failed := false;
    if e.PeerWindow? {
      TakeWindow(m, e, a, s);
    } else {
      failed := CountBytes(m, e, a, s);
      SameIsOne(all0, c0, m.all, m.conn.Value(), 0, 0);
    }
    WindowsKept(log, created, m.streams, all0, c0, m.all, m.conn.Value(), if e.PeerWindow? then e.id else 0,
      if e.PeerWindow? then e.offset else 0);
    GrantedStep(all0, c0, past, m.all, m.conn.Value(), e);
  }

  /** The peer opens a window. */
  method TakeWindow(m: FlowControlManager, e: Event, ghost a: Accounts, ghost s: Setup)
    requires m.Valid() && m.Receiving() && m.Sending() && e.PeerWindow? && Mirrors(m, a, s) && Slotted(a)
    modifies m`all, m.conn`sendWindow, m.made`sendWindow
    ensures m.Valid() && m.Receiving() && m.Sending() && Mirrors(m, Apply(a, e, s), s) && !Offends(a, e)
    ensures OneSendWindows(old(m.all), old(m.conn.Value()), m.all, m.conn.Value(), e.id, e.offset)
  {
    hide SumsOk, ReceiveOk, SendOk, FlowController.Value, FlowControlManager.Linked, OneSendWindows, SameSlots;
    LedgerMirrored(m, a, s, e.id);
    var _, _ := m.UpdateWindow(e.id, e.offset);
  }

  /** Bytes come, go and are read; no window changes. */
  method CountBytes(m: FlowControlManager, e: Event, ghost a: Accounts, ghost s: Setup) returns (failed: bool)
    requires m.Valid() && m.Receiving() && m.Sending() && (e.Data? || e.Reset? || e.Read? || e.Send?)
      && Mirrors(m, a, s) && Slotted(a)
    modifies m`all, m.conn, m.made
    ensures !failed ==> m.Valid() && m.Receiving() && m.Sending() && Mirrors(m, Apply(a, e, s), s)
    ensures failed <==> Offends(a, e)
    ensures SameWindows(old(m.all), old(m.conn.Value()), m.all, m.conn.Value())
  {
    hide SumsOk, ReceiveOk, SendOk, SameWindows, FlowController.Value, FlowControlManager.Linked, TooMuch, MaySend,
      SameSlots;
    LedgerMirrored(m, a, s, e.id);
    var r := Fine;
    match e {
    case Data(id, offset) =>
      r := m.UpdateHighestReceived(id, offset);
    case Reset(id, offset) =>
      r := m.ResetStream(id, offset);
    case Send(id, n) =>
      r := m.AddBytesSent(id, Min(n, m.SendWindowSize(id)));
    case Read(id, n, now) =>
      var size := 0;
      if id in m.streams {
        size := Readable(m, id);
      }
      r := m.AddBytesRead(id, Min(n, size), now);
    }
    failed := r == TooMuchData || r == DataAfterTermination;
  }

  /** What a stream has received and not read. */
  method Readable(m: FlowControlManager, id: nat) returns (n: nat)
    requires m.Valid() && m.Receiving() && id in m.streams
    ensures n == m.LedgerOf(id).highestReceived - m.LedgerOf(id).bytesRead
  {
    StreamOk(m.all, m.conn.Value(), m.streams[id].slot);
    n := m.streams[id].highestReceived - m.streams[id].bytesRead;
  }

  /** The windows that are announced at an event are exactly those that are due, each once. */
  ghost predicate Announces(updates: seq<WindowUpdate>, a: Accounts, e: Event)
    requires Slotted(a)
  {
    && (forall i, j | 0 <= i < j < |updates| :: updates[i].streamID != updates[j].streamID)
    && forall id: nat, offset: nat :: WindowUpdate(id, offset) in updates <==>
      e.Updates? && Due(a, e.now, e.rtt, id, offset)
  }

  lemma AnnouncesDue(streams: map<nat, FlowController>, a: Accounts, e: Event, ofStreams: seq<WindowUpdate>,
    raised: Ledger)
    requires SameSlots(streams, a.open) && 0 !in a.open && Slotted(a) && e.Updates?
      && raised == RaisedConnection(a, e.now, e.rtt)
    requires Listed(ofStreams, a.all, streams, streams.Keys, e.now, e.rtt)
    ensures var last := WindowUpdate(0, Updated(raised, e.now, e.rtt).receiveWindow);
      Announces(ofStreams + if Necessary(raised) then [last] else [], a, e)
  {
    hide Necessary, Updated, RaisedConnection;
    var more := if Necessary(raised) then [WindowUpdate(0, Updated(raised, e.now, e.rtt).receiveWindow)] else [];
    forall id: nat, offset: nat ensures WindowUpdate(id, offset) in ofStreams + more <==>
      Due(a, e.now, e.rtt, id, offset) {
      assert WindowUpdate(id, offset) in ofStreams + more <==>
        WindowUpdate(id, offset) in ofStreams || WindowUpdate(id, offset) in more;
    }
    forall i | 0 <= i < |ofStreams| ensures ofStreams[i].streamID != 0 {
      assert WindowUpdate(ofStreams[i].streamID, ofStreams[i].offset) in ofStreams;
    }
  }

  /** Looks at the windows. */
  method Look(m: FlowControlManager, e: Event, ghost created: set<nat>, ghost log: seq<WindowUpdate>,
    ghost past: seq<Event>,
    ghost a: Accounts, ghost s: Setup)
    returns (updates: seq<WindowUpdate>)
    requires Ready(m, created, log, past) && e.Updates? && Mirrors(m, a, s) && Slotted(a)
    modifies m`all, m.conn, m.made
    ensures Ready(m, created, log + updates, past + [e]) && Mirrors(m, Apply(a, e, s), s) && Announces(updates, a, e)
  {
    hide SumsOk, ReceiveOk, SendOk, Advertised, Granted, SameWindow, FlowController.Value, FlowControlManager.Linked,
      Looked, Listed, Announces, Demands, RaisedTo, SameSlots;
    ghost var streams, all, c := m.streams, m.all, m.conn.Value();
    SlotsMirrored(streams, a.open);
    LedgerMirrored(m, a, s, 0);
    NoStreamZero(m);
    ghost var raised, ofStreams;
    updates, raised, ofStreams := m.GetWindowUpdates(e.now, e.rtt);
    AnnouncesDue(streams, a, e, ofStreams, raised);
    UpdatesGrow(log, created, streams, all, c, raised, ofStreams, m.conn.Value(), e.now, e.rtt);
    GrantedLooked(all, c, past, SlotsOf(streams, streams.Keys), raised, e.now, e.rtt, e);
  }

  /** Streams come and go, and the peer's parameters arrive. */
  method Manage(m: FlowControlManager, e: Event, created: set<nat>, ghost log: seq<WindowUpdate>,
    ghost past: seq<Event>, ghost a: Accounts, ghost s: Setup)
    returns (created': set<nat>)
    requires Ready(m, created, log, past) && Mirrors(m, a, s) && Slotted(a) && (e.Open? || e.Close? || e.Parameters?)
    requires forall id: nat :: id in created <==> id != 0 && Known(a, id)
    modifies m`streams, m`all, m`made, m`sendStreamWindow, m`sendConnectionWindow, m`grantedStream, m`grantedConnection
    ensures Ready(m, created', log, past + [e]) && Mirrors(m, Apply(a, e, s), s)
    ensures created' == created + if e.Open? && !Known(a, e.id) then {e.id} else {}
    ensures old(m.made) <= m.made && forall i | |old(m.made)| <= i < |m.made| :: fresh(m.made[i])
    ensures m.grantedStream == Max(old(m.grantedStream), if e.Parameters? then e.stream else 0)
    ensures m.grantedConnection == Max(old(m.grantedConnection), if e.Parameters? then e.connection else 0)
  {
    hide SumsOk, ReceiveOk, SendOk, Advertised, Granted, FlowController.Value, FlowControlManager.Linked, Known;
    created' := created;
    ghost var streams, all, c := m.streams, m.all, m.conn.Value();
    match e {
    case Open(id, contributes) =>
      if id != 0 && id !in created {
        SlotsInside(m);
        StillUnknown(m, created, log, past, id);
        m.NewStream(id, contributes);
        StreamAdded(log, created, streams, all, c, id, m.streams, m.all);
        created' := created + {id};
      }
      ZeroIsKnown(a);
    case Close(id) =>
      m.RemoveStream(id);
      StreamGone(log, created, streams, all, c, m.streams);
    case Parameters(stream, connection) =>
      m.SetSendWindows(stream, connection);
    }
    GrantedMore(all, c, past, m.all, e);
  }

  lemma StillUnknown(m: FlowControlManager, created: set<nat>, log: seq<WindowUpdate>, past: seq<Event>, id: nat)
    requires Ready(m, created, log, past) && id !in created
    ensures id !in m.streams
  {
  }

  lemma ZeroIsKnown(a: Accounts)
    ensures Known(a, 0)
  {
  }

  method Step(m: FlowControlManager, e: Event, created: set<nat>, ghost log: seq<WindowUpdate>, ghost past: seq<Event>,
    ghost a: Accounts, ghost s: Setup)
    returns (created': set<nat>, updates: seq<WindowUpdate>, failed: bool)
    requires Ready(m, created, log, past) && Mirrors(m, a, s) && Slotted(a) && OneEach(a)
    requires forall id: nat :: id in created <==> id != 0 && Known(a, id)
    modifies m, m.conn, m.made
    ensures !failed ==> Ready(m, created', log + updates, past + [e]) && Mirrors(m, Apply(a, e, s), s)
    ensures !failed ==> forall id: nat :: id in created' <==> id != 0 && Known(Apply(a, e, s), id)
    ensures (failed <==> Offends(a, e)) && Announces(updates, a, e) && (failed ==> updates == [])
    ensures old(m.made) <= m.made && forall i | |old(m.made)| <= i < |m.made| :: fresh(m.made[i])
    ensures m.grantedStream == Max(old(m.grantedStream), if e.Parameters? then e.stream else 0)
    ensures m.grantedConnection == Max(old(m.grantedConnection), if e.Parameters? then e.connection else 0)
  {
    hide SumsOk, ReceiveOk, SendOk, Advertised, Granted, FlowController.Value, FlowControlManager.Linked, Apply,
      SameSlots, Known, OneEach, TooMuch, Due;
    created', updates, failed := created, [], false;
    assert log + [] == log;
    ApplyKeepsStreams(a, e, s);
    forall id: nat ensures Known(Apply(a, e, s), id) <==> Known(a, id) || (e.Open? && e.id == id) {
      KnownStep(a, Apply(a, e, s), e, s, id);
    }
    ZeroIsKnown(a);
    if e.Updates? {
      updates := Look(m, e, created, log, past, a, s);
    } else if e.Open? || e.Close? || e.Parameters? {
      created' := Manage(m, e, created, log, past, a, s);
    } else {
      failed := Count(m, e, created, log, past, a, s);
    }
  }

  lemma NoStreamZero(m: FlowControlManager)
    requires m.Linked()
    ensures 0 !in m.streams
  {
  }

  lemma SlotsInside(m: FlowControlManager)
    requires m.Linked()
    ensures forall x | x in m.streams :: m.streams[x].slot < |m.all|
  {
  }

  /** Nobody has sent more than the largest window that the peer granted, by its parameters or by window updates. */
  ghost predicate SentWhatWasGranted(all: seq<Ledger>, sent: nat, events: seq<Event>, sendStream: nat,
    sendConnection: nat) {
    && (forall l | l in all ::
      l.bytesSent <= Max(LargestUpdate(events, l.streamID), LargestParameter(events, sendStream, true)))
    && sent <= Max(LargestUpdate(events, 0), LargestParameter(events, sendConnection, false))
  }

  ghost function Flatten(rounds: seq<seq<WindowUpdate>>): seq<WindowUpdate> {
    if rounds == [] then [] else Flatten(rounds[..|rounds| - 1]) + rounds[|rounds| - 1]
  }

  /** Each event announces exactly the windows that are due then. */
  ghost predicate AllAnnounce(rounds: seq<seq<WindowUpdate>>, events: seq<Event>, s: Setup) {
    |rounds| <= |events| && forall k | 0 <= k < |rounds| :: Announces(rounds[k], Replay(events[..k], s), events[k])
  }

  /**
   Every run, up to the first error, which occurs exactly when the reference says: the ledgers and the windows that are
   announced are what the reference says. What the connection has sent, read and received is the sum over all streams
   that were ever created and contribute; the windows that are announced only grow; and neither a stream nor the
   connection has sent more than the largest window that the peer has ever granted.
   */
  method Run(events: seq<Event>, s: Setup)
    returns (rounds: seq<seq<WindowUpdate>>, sent: nat, read: nat, received: nat, failed: bool, ghost all: seq<Ledger>)
    requires s.receiveStream <= s.maxReceiveStream && s.receiveConnection <= s.maxReceiveConnection
    ensures failed <==> Replay(events, s).failed
    ensures !failed ==> var a := Replay(events, s);
      all == a.all && sent == a.conn.bytesSent && read == a.conn.bytesRead && received == a.conn.highestReceived
    ensures !failed ==> sent == SumSent(all) && read == SumRead(all) && received == SumReceived(all)
    ensures AllAnnounce(rounds, events, s) && Growing(Flatten(rounds)) && (!failed ==> |rounds| == |events|)
    ensures failed ==> 0 < |rounds| && OffendsAt(events, s, |rounds| - 1)
    ensures !failed ==> SentWhatWasGranted(all, sent, events, s.sendStream, s.sendConnection)
  {
    hide Ready, FlowController.Value, Apply, AllAnnounce, Offends, Growing, Known, OneEach, Flatten,
      SentWhatWasGranted, LargestParameter;
    var m := new FlowControlManager(s.receiveStream, s.maxReceiveStream, s.receiveConnection, s.maxReceiveConnection,
      s.sendStream, s.sendConnection);
    var created: set<nat> := {};
    rounds, failed, sent, read, received, all := [], false, 0, 0, 0, [];
    NothingYet(m, events, s);
    assert events[..0] == [];
    while |rounds| < |events|
      invariant |rounds| <= |events| && fresh(m) && fresh(m.conn) && forall k | 0 <= k < |m.made| :: fresh(m.made[k])
      invariant Ready(m, created, Flatten(rounds), events[..|rounds|]) && Mirrors(m, Replay(events[..|rounds|], s), s)
      invariant forall id: nat :: id in created <==> id != 0 && Known(Replay(events[..|rounds|], s), id)
      invariant AllAnnounce(rounds, events, s)
      invariant m.grantedStream == LargestParameter(events[..|rounds|], s.sendStream, true)
      invariant m.grantedConnection == LargestParameter(events[..|rounds|], s.sendConnection, false)
    {
      var i, updates := |rounds|, [];
      ghost var past := events[..i];
      ReadyGrows(m, created, Flatten(rounds), past, s);
      created, updates, failed := Step(m, events[i], created, Flatten(rounds), past, Replay(past, s), s);
      assert past + [events[i]] == events[..i + 1] && events[..i + 1][..i] == past;
      RoundAdded(rounds, updates, events, s);
      rounds := rounds + [updates];
      FailStep(Replay(past, s), events[i], s);
      Snoc(past, events[i], 0, s.sendStream, true);
      Snoc(past, events[i], 0, s.sendConnection, false);
      if failed {
        StaysFailed(events, s, i + 1);
        return;
      }
    }
    assert events[..|rounds|] == events;
    Outcome(m, created, Flatten(rounds), events, s.sendStream, s.sendConnection);
    sent, read, received, all := m.conn.bytesSent, m.conn.bytesRead, m.conn.highestReceived, m.all;
  }

  lemma ReadyGrows(m: FlowControlManager, created: set<nat>, log: seq<WindowUpdate>, past: seq<Event>, s: Setup)
    requires Ready(m, created, log, past) && !Replay(past, s).failed
    ensures Growing(log) && OneEach(Replay(past, s))
  {
    OneLedgerEach(past, s);
  }

  lemma RoundAdded(rounds: seq<seq<WindowUpdate>>, updates: seq<WindowUpdate>, events: seq<Event>, s: Setup)
    requires |rounds| < |events| && AllAnnounce(rounds, events, s)
      && Announces(updates, Replay(events[..|rounds|], s), events[|rounds|])
    ensures AllAnnounce(rounds + [updates], events, s) && Flatten(rounds + [updates]) == Flatten(rounds) + updates
    ensures updates == [] ==> Flatten(rounds + [updates]) == Flatten(rounds)
  {
    hide Announces, Replay;
    assert (rounds + [updates])[..|rounds|] == rounds;
  }

  /** Nothing happens after the connection is closed. */
  lemma {:induction false} StaysFailed(events: seq<Event>, s: Setup, i: nat)
    requires i <= |events| && Replay(events[..i], s).failed
    ensures Replay(events, s) == Replay(events[..i], s)
    decreases |events| - i
  {
    if i < |events| {
      assert events[..i + 1][..i] == events[..i];
      StaysFailed(events, s, i + 1);
    } else {
      assert events[..i] == events;
    }
  }

  lemma NothingYet(m: FlowControlManager, events: seq<Event>, s: Setup)
    requires m.Valid() && m.Receiving() && m.Sending() && m.streams == map[] && m.all == []
    requires m.conn.Value().sendWindow == 0 && m.conn.Value().streamID == 0
    ensures Ready(m, {}, Flatten([]), []) && AllAnnounce([], events, s)
    ensures (forall id: nat :: Known(Replay([], s), id) <==> id == 0) && forall first, of ::
      LargestParameter([], first, of) == first
  {
  }

  lemma Outcome(m: FlowControlManager, created: set<nat>, log: seq<WindowUpdate>, events: seq<Event>, sendStream: nat,
    sendConnection: nat)
    requires Ready(m, created, log, events)
    requires m.grantedStream == LargestParameter(events, sendStream, true)
      && m.grantedConnection == LargestParameter(events, sendConnection, false)
    ensures var c := m.conn.Value();
      c.bytesSent == m.conn.bytesSent && c.bytesRead == m.conn.bytesRead && c.highestReceived == m.conn.highestReceived
    ensures m.conn.bytesSent == SumSent(m.all) && m.conn.bytesRead == SumRead(m.all)
      && m.conn.highestReceived == SumReceived(m.all)
    ensures Growing(log) && SentWhatWasGranted(m.all, m.conn.bytesSent, events, sendStream, sendConnection)
  {
  }
}
