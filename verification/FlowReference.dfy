/** What flow control counts, as a function of the events: the reference for FlowRuns. */
module FlowReference {
  import opened Common
  import opened FlowLedgers

  datatype Event =
    | Open(id: nat, contributes: bool)
    | Close(id: nat)
    | Data(id: nat, offset: nat)
    | Reset(id: nat, offset: nat)
    | Read(id: nat, n: nat, now: int)
    | Send(id: nat, n: nat)
    | PeerWindow(id: nat, offset: nat)
    | Parameters(stream: nat, connection: nat)
    | Updates(now: int, rtt: nat)

  /** The windows that both sides announce at the beginning. */
  datatype Setup = Setup(
    receiveStream: nat, maxReceiveStream: nat, receiveConnection: nat, maxReceiveConnection: nat, sendStream: nat,
      sendConnection: nat)

  /**
   The ledgers of all streams that were ever opened, where those of the open streams are, and the ledger of the
   connection; the peer's parameters; and whether the connection was closed because of too much data.
   */
  datatype Accounts = Accounts(
    all: seq<Ledger>, open: map<nat, nat>, conn: Ledger, ofStream: nat, ofConnection: nat, failed: bool)

  ghost function Replay(events: seq<Event>, s: Setup): (a: Accounts)
    ensures forall id | id in a.open :: a.open[id] < |a.all|
  {
    if events == [] then Accounts([], map[], NewLedger(0, false, s.receiveConnection, s.maxReceiveConnection),
      s.sendStream, s.sendConnection, false)
    else Apply(Replay(events[..|events| - 1], s), events[|events| - 1], s)
  }

  ghost function NewLedger(id: nat, contributes: bool, window: nat, maxWindow: nat): Ledger {
    Ledger(id, contributes, 0, 0, None, 0, 0, window, window, maxWindow)
  }

  ghost predicate Slotted(a: Accounts) {
    forall id | id in a.open :: a.open[id] < |a.all|
  }

  /** The stream was opened before. */
  ghost predicate Known(a: Accounts, id: nat) {
    id == 0 || exists l | l in a.all :: l.streamID == id
  }

  ghost function LedgerOf(a: Accounts, id: nat): Ledger
    requires Slotted(a) && id in a.open
  {
    a.all[a.open[id]]
  }

  /** The ledger of one open stream changes, and so does that of the connection. */
  ghost function Post(a: Accounts, id: nat, l: Ledger, conn: Ledger): Accounts
    requires Slotted(a) && id in a.open
  {
    a.(all := a.all[a.open[id] := l], conn := conn)
  }

  /** The event closes the connection: too much data, or a reset at an offset below what was received. */
  ghost predicate Offends(a: Accounts, e: Event)
    requires Slotted(a)
  {
    && (e.Data? || e.Reset?) && e.id in a.open
    && var l := LedgerOf(a, e.id); TooMuch(l, a.conn, e.offset) || (e.Reset? && e.offset < l.highestReceived)
  }

  /** A look at the windows of all open streams, and then at that of the connection. */
  ghost function RaisedConnection(a: Accounts, now: int, rtt: nat): Ledger {
    RaisedTo(a.conn, Demands(a.all, a.open.Values, now, rtt))
  }

  /** The windows that are announced then. */
  ghost predicate Due(a: Accounts, now: int, rtt: nat, id: nat, offset: nat)
    requires Slotted(a)
  {
    if id == 0 then var raised := RaisedConnection(a, now, rtt);
      Necessary(raised) && offset == Updated(raised, now, rtt).receiveWindow
    else id in a.open && Necessary(LedgerOf(a, id)) && offset == Updated(LedgerOf(a, id), now, rtt).receiveWindow
  }

  ghost function Apply(a: Accounts, e: Event, s: Setup): (a': Accounts)
    requires Slotted(a)
    ensures Slotted(a')
  {
    if a.failed then a
    else if Offends(a, e) then a.(failed := true)
    else
      match e
      case Open(id, contributes) =>
        if Known(a, id) then a
        else a.(all := a.all + [NewLedger(id, contributes, s.receiveStream, s.maxReceiveStream)], open :=
          a.open[id := |a.all|])
      case Close(id) => a.(open := a.open - {id})
      case Parameters(stream, connection) => a.(ofStream := stream, ofConnection := connection)
      case Updates(now, rtt) =>
        a.(all := Looked(a.all, a.open.Values, now, rtt), conn := Updated(RaisedConnection(a, now, rtt), now, rtt))
      case PeerWindow(id, offset) =>
        if id == 0 then a.(conn := a.conn.(sendWindow := Max(a.conn.sendWindow, offset)))
        else if id !in a.open then a
        else var l := LedgerOf(a, id); Post(a, id, l.(sendWindow := Max(l.sendWindow, offset)), a.conn)
      case _ => if e.id !in a.open then a else Counted(a, e)
  }

  /** Bytes come, go and are read: no more than was received, and no more than the windows allow. */
  ghost function Counted(a: Accounts, e: Event): Accounts
    requires Slotted(a) && (e.Data? || e.Reset? || e.Read? || e.Send?) && e.id in a.open
  {
    var l, c := LedgerOf(a, e.id), a.conn;
    match e
    case Read(id, n, now) =>
      var k: nat := Max(0, Min(n, l.highestReceived - l.bytesRead));
      Post(a, id, AfterRead(l, k, now), if l.contributes then AfterRead(c, k, now) else c)
    case Send(id, n) =>
      var k: nat := Min(n, MaySend(l, c, a.ofStream, a.ofConnection));
      Post(a, id, AfterSend(l, k), if l.contributes then AfterSend(c, k) else c)
    case _ => Post(a, e.id, Received(l, e.offset), ReceivedOn(c, l, e.offset))
  }

  // ---------- what the accounts say about the events ----------

  lemma FailStep(a: Accounts, e: Event, s: Setup)
    requires Slotted(a)
    ensures Apply(a, e, s).failed <==> a.failed || Offends(a, e)
  {
  }

  ghost predicate OffendsAt(events: seq<Event>, s: Setup, i: nat)
    requires i < |events|
  {
    Offends(Replay(events[..i], s), events[i])
  }

  /** The connection is closed if and only if some event offends. */
  lemma {:induction false} FailsAtOffence(events: seq<Event>, s: Setup)
    ensures Replay(events, s).failed <==> exists i | 0 <= i < |events| :: OffendsAt(events, s, i)
  {
    hide Offends, Apply;
    if events != [] {
      var n := |events| - 1;
      var past := events[..n];
      FailsAtOffence(past, s);
      FailStep(Replay(past, s), events[n], s);
      assert OffendsAt(events, s, n) <==> Offends(Replay(past, s), events[n]);
      forall i | 0 <= i < n ensures OffendsAt(events, s, i) <==>
        OffendsAt(past, s, i) { assert events[..i] == past[..i]; }
      if Replay(past, s).failed {
        var i :| 0 <= i < n && OffendsAt(past, s, i);
        assert OffendsAt(events, s, i);
      }
      if exists i | 0 <= i <= n :: OffendsAt(events, s, i) {
        var i :| 0 <= i <= n && OffendsAt(events, s, i);
        assert i < n ==> OffendsAt(past, s, i);
      }
    }
  }

  /** Each stream has one ledger, and open streams know theirs. */
  ghost predicate OneEach(a: Accounts) {
    && (forall i, j | 0 <= i < j < |a.all| :: a.all[i].streamID != a.all[j].streamID)
      && (forall l | l in a.all :: l.streamID != 0)
    && forall id | id in a.open :: a.open[id] < |a.all| && a.all[a.open[id]].streamID == id
  }

  ghost predicate SameStream(l: Ledger, l': Ledger) {
    l'.streamID == l.streamID && l'.contributes == l.contributes
  }

  ghost predicate SameStreams(all: seq<Ledger>, all': seq<Ledger>) {
    |all'| == |all| && forall i | 0 <= i < |all| :: SameStream(all[i], all'[i])
  }

  lemma StreamsStay(a: Accounts, a': Accounts)
    requires OneEach(a) && SameStreams(a.all, a'.all) && a'.open.Keys <= a.open.Keys && forall id | id in a'.open ::
      a'.open[id] == a.open[id]
    ensures OneEach(a')
  {
    forall l | l in a'.all ensures l.streamID != 0 {
      var i :| 0 <= i < |a'.all| && a'.all[i] == l;
      assert a.all[i] in a.all && SameStream(a.all[i], a'.all[i]);
    }
    forall i, j | 0 <= i < j < |a'.all| ensures a'.all[i].streamID != a'.all[j].streamID {
      assert SameStream(a.all[i], a'.all[i]) && SameStream(a.all[j], a'.all[j]);
    }
  }

  lemma StreamAdded(a: Accounts, id: nat, l: Ledger)
    requires OneEach(a) && !Known(a, id) && l.streamID == id
    ensures OneEach(a.(all := a.all + [l], open := a.open[id := |a.all|]))
  {
    forall i | 0 <= i < |a.all| ensures a.all[i].streamID != id { assert a.all[i] in a.all; }
  }

  lemma CountedKeepsStreams(a: Accounts, e: Event)
    requires OneEach(a) && (e.Data? || e.Reset? || e.Read? || e.Send?) && e.id in a.open
    ensures SameStreams(a.all, Counted(a, e).all) && Counted(a, e).open == a.open
  {
    hide MaySend;
  }

  lemma LookedKeepsStreams(all: seq<Ledger>, done: set<nat>, now: int, rtt: nat)
    ensures SameStreams(all, Looked(all, done, now, rtt))
  {
  }

  /** Only Open adds a ledger, and none is ever taken away. */
  lemma ApplyKeepsStreams(a: Accounts, e: Event, s: Setup)
    requires OneEach(a) && Slotted(a)
    ensures OneEach(Apply(a, e, s)) && (a.failed || Extended(a, Apply(a, e, s), e, s))
  {
    hide TooMuch, Updated, Demands, RaisedTo, OneEach, Known, Counted, Looked;
    var a' := Apply(a, e, s);
    if !a.failed && !Offends(a, e) && e.Open? && !Known(a, e.id) {
      StreamAdded(a, e.id, NewLedger(e.id, e.contributes, s.receiveStream, s.maxReceiveStream));
    } else {
      if (e.Data? || e.Reset? || e.Read? || e.Send?) && e.id in a.open { CountedKeepsStreams(a, e); }
      if e.Updates? { LookedKeepsStreams(a.all, a.open.Values, e.now, e.rtt); }
      StreamsStay(a, a');
    }
  }

  /** What an event does to the list of ledgers. */
  ghost predicate Extended(a: Accounts, a': Accounts, e: Event, s: Setup) {
    if e.Open? && !Known(a, e.id) then a'.all
      == a.all + [NewLedger(e.id, e.contributes, s.receiveStream, s.maxReceiveStream)]
    else SameStreams(a.all, a'.all)
  }

  /** The first Open of a stream. */
  ghost predicate FirstOpen(events: seq<Event>, i: nat)
    requires i < |events|
  {
    events[i].Open? && events[i].id != 0 && forall j | 0 <= j < i :: !(events[j].Open? && events[j].id == events[i].id)
  }

  /** The stream was opened by its first Open, which also says whether it contributes. */
  ghost predicate OpenedBy(events: seq<Event>, id: nat, contributes: bool) {
    exists i | 0 <= i < |events| && FirstOpen(events, i) :: events[i] == Open(id, contributes)
  }

  ghost predicate HasLedger(a: Accounts, id: nat, contributes: bool) {
    exists i | 0 <= i < |a.all| :: a.all[i].streamID == id && a.all[i].contributes == contributes
  }

  ghost predicate EverOpened(events: seq<Event>, id: nat) {
    id == 0 || exists i | 0 <= i < |events| && events[i].Open? :: events[i].id == id
  }

  lemma OpenedStep(past: seq<Event>, e: Event, id: nat, contributes: bool)
    ensures OpenedBy(past + [e], id, contributes) <==>
      OpenedBy(past, id, contributes) || (e == Open(id, contributes) && !EverOpened(past, id))
    ensures EverOpened(past + [e], id) <==> EverOpened(past, id) || (e.Open? && e.id == id)
  {
    var all, n := past + [e], |past|;
    forall i | 0 <= i < n ensures all[i] == past[i] && (FirstOpen(all, i) <==> FirstOpen(past, i)) {
      assert forall j | 0 <= j <= i :: all[j] == past[j];
    }
    assert FirstOpen(all, n) <==> e.Open? && !EverOpened(past, e.id);
    if OpenedBy(past, id, contributes) {
      var i :| 0 <= i < n && FirstOpen(past, i) && past[i] == Open(id, contributes);
      assert FirstOpen(all, i) && all[i] == Open(id, contributes);
    }
    if e == Open(id, contributes) && !EverOpened(past, id) { assert FirstOpen(all, n) && all[n] == e; }
    if EverOpened(past, id) && id != 0 {
      var i :| 0 <= i < n && past[i].Open? && past[i].id == id;
      assert all[i].Open? && all[i].id == id;
    }
    if e.Open? && e.id == id { assert all[n].Open? && all[n].id == id; }
  }

  /** There is exactly one ledger for each stream that was ever opened, whether it is open still or not. */
  lemma {:induction false} OneLedgerEach(events: seq<Event>, s: Setup)
    requires !Replay(events, s).failed
    ensures OneEach(Replay(events, s))
    ensures forall id, contributes :: HasLedger(Replay(events, s), id, contributes) <==>
      OpenedBy(events, id, contributes)
    ensures forall id: nat :: Known(Replay(events, s), id) <==> EverOpened(events, id)
  {
    hide Apply, OpenedBy, EverOpened, OneEach;
    if events == [] {
      EmptyAccounts(s);
    } else {
      var n := |events| - 1;
      var past, e := events[..n], events[n];
      var a := Replay(past, s);
      FailStep(a, e, s);
      OneLedgerEach(past, s);
      ApplyKeepsStreams(a, e, s);
      assert past + [e] == events;
      forall id, contributes ensures HasLedger(Replay(events, s), id, contributes) <==>
        OpenedBy(events, id, contributes) {
        OpenedStep(past, e, id, contributes);
        LedgerStep(a, Apply(a, e, s), e, s, id, contributes);
      }
      forall id: nat ensures Known(Replay(events, s), id) <==> EverOpened(events, id) {
        OpenedStep(past, e, id, true);
        KnownStep(a, Apply(a, e, s), e, s, id);
      }
    }
  }

  lemma EmptyAccounts(s: Setup)
    ensures OneEach(Replay([], s))
    ensures forall id, contributes :: !HasLedger(Replay([], s), id, contributes) && !OpenedBy([], id, contributes)
    ensures forall id: nat :: Known(Replay([], s), id) <==> EverOpened([], id)
  {
  }

  lemma LedgerStep(a: Accounts, a': Accounts, e: Event, s: Setup, id: nat, contributes: bool)
    requires Extended(a, a', e, s)
    ensures HasLedger(a', id, contributes) <==>
      HasLedger(a, id, contributes) || (e == Open(id, contributes) && !Known(a, id))
  {
    if HasLedger(a, id, contributes) {
      var i :| 0 <= i < |a.all| && a.all[i].streamID == id && a.all[i].contributes == contributes;
      assert SameStream(a.all[i], a'.all[i]);
    }
    if e == Open(id, contributes) && !Known(a, id) { assert a'.all[|a.all|].streamID == id; }
  }

  lemma KnownStep(a: Accounts, a': Accounts, e: Event, s: Setup, id: nat)
    requires Extended(a, a', e, s)
    ensures Known(a', id) <==> Known(a, id) || (e.Open? && e.id == id)
  {
    if id != 0 && Known(a, id) {
      var l :| l in a.all && l.streamID == id;
      var i :| 0 <= i < |a.all| && a.all[i] == l;
      assert SameStream(a.all[i], a'.all[i]) && a'.all[i] in a'.all;
    }
    if id != 0 && Known(a', id) {
      var l :| l in a'.all && l.streamID == id;
      var i :| 0 <= i < |a'.all| && a'.all[i] == l;
      if i < |a.all| { assert SameStream(a.all[i], a'.all[i]) && a.all[i] in a.all; }
    }
    if e.Open? && !Known(a, e.id) { assert a'.all[|a.all|] in a'.all; }
  }

  /** The largest offset of data or of a reset that came while the stream was open. */
  ghost function HighestOffset(events: seq<Event>, s: Setup, id: nat): nat {
    if events == [] then 0
    else
      var past, e := events[..|events| - 1], events[|events| - 1];
      var highest := HighestOffset(past, s, id);
      if (e.Data? || e.Reset?) && e.id == id && id in Replay(past, s).open then Max(highest, e.offset) else highest
  }

  /** What a stream has received is the largest offset that came while it was open. */
  ghost predicate HighestIs(a: Accounts, highest: nat -> nat) {
    (forall l | l in a.all :: l.highestReceived == highest(l.streamID)) && forall id: nat | !Known(a, id) ::
      highest(id) == 0
  }

  lemma HighestStep(a: Accounts, e: Event, s: Setup, i: nat)
    requires OneEach(a) && !a.failed && !Offends(a, e) && i < |Apply(a, e, s).all|
    ensures var a' := Apply(a, e, s);
      if i == |a.all| then a'.all[i].highestReceived == 0 && !Known(a, a'.all[i].streamID) && e.Open?
      else
        && a'.all[i].streamID == a.all[i].streamID
        && a'.all[i].highestReceived ==
           if (e.Data? || e.Reset?) && e.id == a.all[i].streamID
             && e.id in a.open then Max(a.all[i].highestReceived, e.offset)
           else a.all[i].highestReceived
  {
    hide TooMuch, Demands, RaisedTo, MaySend;
    assert i < |a.all| ==> a.all[i] in a.all;
  }

  lemma {:induction false} ReceivedIsHighest(events: seq<Event>, s: Setup)
    requires !Replay(events, s).failed
    ensures HighestIs(Replay(events, s), id => HighestOffset(events, s, id))
  {
    hide Apply, OneEach, Offends;
    if events != [] {
      var n := |events| - 1;
      var past, e := events[..n], events[n];
      var a := Replay(past, s);
      var a' := Replay(events, s);
      FailStep(a, e, s);
      ReceivedIsHighest(past, s);
      OneLedgerEach(past, s);
      ApplyKeepsStreams(a, e, s);
      forall l | l in a'.all ensures l.highestReceived == HighestOffset(events, s, l.streamID) {
        var i :| 0 <= i < |a'.all| && a'.all[i] == l;
        HighestStep(a, e, s, i);
        assert i < |a.all| ==> a.all[i] in a.all;
      }
      forall id: nat | !Known(a', id) ensures HighestOffset(events, s, id) == 0 {
        KnownStep(a, a', e, s, id);
        OpenIsKnown(a, id);
      }
    }
  }

  lemma OpenIsKnown(a: Accounts, id: nat)
    requires OneEach(a)
    ensures id in a.open ==> Known(a, id)
  {
    if id in a.open { assert a.all[a.open[id]] in a.all; }
  }

  // ---------- windows are opened in time ----------

  /** The ledgers agree, and no increment is smaller than at the beginning. */
  ghost predicate Receiving(a: Accounts, s: Setup) {
    && SumsOk(a.all, a.conn) && ReceiveOk(a.all, a.conn) && a.conn.increment >= s.receiveConnection
    && forall i | 0 <= i < |a.all| :: a.all[i].increment >= s.receiveStream
  }

  /** After a look at the window, half of the increment is left at least. */
  lemma LookLeavesHalf(l: Ledger, now: int, rtt: nat)
    requires LedgerOk(l)
    ensures var l' := Updated(l, now, rtt);
      && LedgerOk(l') && l'.increment >= l.increment && l'.bytesRead == l.bytesRead
      && l'.receiveWindow - l'.bytesRead >= l'.increment / 2
  {
    WindowGrows(l, now, rtt);
  }

  lemma {:induction false} LookedStillOk(all: seq<Ledger>, conn: Ledger, done: set<nat>, now: int, rtt: nat)
    requires SumsOk(all, conn) && ReceiveOk(all, conn) && forall i | i in done :: i < |all|
    ensures SumsOk(Looked(all, done, now, rtt), conn) && ReceiveOk(Looked(all, done, now, rtt), conn)
    decreases |done|
  {
    hide Looked, SumsOk, ReceiveOk, LedgerOk, Updated;
    if done == {} {
      LookNone(all, now, rtt);
    } else {
      var i :| i in done;
      var rest := done - {i};
      LookedStillOk(all, conn, rest, now, rtt);
      LookStep(all, rest, i, now, rtt);
      assert rest + {i} == done;
      OneLookOk(Looked(all, rest, now, rtt), conn, i, now, rtt);
    }
  }

  lemma OneLookOk(all: seq<Ledger>, conn: Ledger, i: nat, now: int, rtt: nat)
    requires SumsOk(all, conn) && ReceiveOk(all, conn) && i < |all|
    ensures SumsOk(all[i := Updated(all[i], now, rtt)], conn) && ReceiveOk(all[i := Updated(all[i], now, rtt)], conn)
  {
    hide SumsOk, ReceiveOk;
    StreamOk(all, conn, i);
    WindowGrows(all[i], now, rtt);
    PostedOk(all, conn, conn, i, Updated(all[i], now, rtt));
    StillReceiving(all, conn, conn, i, Updated(all[i], now, rtt));
  }

  /** The connection after the demands of the streams, before the look at its own window. */
  lemma RaisedStillOk(all: seq<Ledger>, conn: Ledger, demands: set<nat>)
    requires SumsOk(all, conn) && ReceiveOk(all, conn)
    ensures var c := RaisedTo(conn, demands); SumsOk(all, c) && ReceiveOk(all, c) && c.increment >= conn.increment
  {
  }

  lemma UpdatesStillReceiving(a: Accounts, now: int, rtt: nat, s: Setup)
    requires Receiving(a, s) && Slotted(a)
    ensures Receiving(a.(all := Looked(a.all, a.open.Values, now, rtt), conn :=
      Updated(RaisedConnection(a, now, rtt), now, rtt)), s)
  {
    hide SumsOk, ReceiveOk, RaisedTo, Demands, LedgerOk;
    var slots := a.open.Values;
    var all := Looked(a.all, slots, now, rtt);
    LookedStillOk(a.all, a.conn, slots, now, rtt);
    RaisedStillOk(all, a.conn, Demands(a.all, slots, now, rtt));
    LookAtConnection(all, RaisedConnection(a, now, rtt), now, rtt, 0, 0);
    ConnectionOk(all, RaisedConnection(a, now, rtt));
    LookLeavesHalf(RaisedConnection(a, now, rtt), now, rtt);
    forall i | 0 <= i < |all| ensures all[i].increment >= s.receiveStream {
      StreamOk(a.all, a.conn, i);
      LookLeavesHalf(a.all[i], now, rtt);
    }
  }

  lemma PostStillReceiving(a: Accounts, id: nat, l: Ledger, conn: Ledger, s: Setup)
    requires Receiving(a, s) && Slotted(a) && id in a.open && Posted(a.conn, conn, LedgerOf(a, id), l) && LedgerOk(l)
    requires l.increment == LedgerOf(a, id).increment && conn.increment == a.conn.increment
    requires conn.receiveWindow == a.conn.receiveWindow && conn.maxIncrement == a.conn.maxIncrement
      && conn.highestReceived <= conn.receiveWindow
    ensures Receiving(Post(a, id, l, conn), s)
  {
    hide SumsOk, ReceiveOk, LedgerOk;
    PostedOk(a.all, a.conn, conn, a.open[id], l);
    StillReceiving(a.all, a.conn, conn, a.open[id], l);
  }

  lemma CountedStillReceiving(a: Accounts, e: Event, s: Setup)
    requires Receiving(a, s) && Slotted(a) && !Offends(a, e)
    requires (e.Data? || e.Reset? || e.Read? || e.Send?) && e.id in a.open
    ensures Receiving(Counted(a, e), s)
  {
    hide SumsOk, ReceiveOk, MaySend;
    var l, c := LedgerOf(a, e.id), a.conn;
    StreamOk(a.all, a.conn, a.open[e.id]);
    if e.Read? {
      var k: nat := Max(0, Min(e.n, l.highestReceived - l.bytesRead));
      PostStillReceiving(a, e.id, AfterRead(l, k, e.now), if l.contributes then AfterRead(c, k, e.now) else c, s);
    } else if e.Send? {
      var k: nat := Min(e.n, MaySend(l, c, a.ofStream, a.ofConnection));
      PostStillReceiving(a, e.id, AfterSend(l, k), if l.contributes then AfterSend(c, k) else c, s);
    } else {
      PostStillReceiving(a, e.id, Received(l, e.offset), ReceivedOn(c, l, e.offset), s);
    }
  }

  lemma StepStillReceiving(a: Accounts, e: Event, s: Setup)
    requires Receiving(a, s) && Slotted(a) && s.receiveStream <= s.maxReceiveStream && !Apply(a, e, s).failed
    ensures Receiving(Apply(a, e, s), s)
  {
    hide SumsOk, ReceiveOk, Counted, Looked, Updated, RaisedTo, Demands, Offends;
    match e
    case Open(id, contributes) =>
      NewOk(a.all, a.conn, NewLedger(id, contributes, s.receiveStream, s.maxReceiveStream), 0, 0);
    case Close(_) =>
    case Parameters(_, _) =>
    case Updates(now, rtt) =>
      UpdatesStillReceiving(a, now, rtt, s);
    case PeerWindow(id, offset) =>
      OnlySendWindow(a.all, a.conn, a.conn.(sendWindow := Max(a.conn.sendWindow, offset)), 0, 0);
      if id != 0 && id in a.open {
        var l := LedgerOf(a, id);
        StreamOk(a.all, a.conn, a.open[id]);
        PostStillReceiving(a, id, l.(sendWindow := Max(l.sendWindow, offset)), a.conn, s);
      }
    case _ =>
      if e.id in a.open { CountedStillReceiving(a, e, s); }
  }

  lemma NothingReceived(s: Setup)
    requires s.receiveConnection <= s.maxReceiveConnection
    ensures Receiving(Replay([], s), s)
  {
  }

  lemma {:induction false} RunStillReceiving(events: seq<Event>, s: Setup)
    requires s.receiveStream <= s.maxReceiveStream && s.receiveConnection <= s.maxReceiveConnection
    requires !Replay(events, s).failed
    ensures Receiving(Replay(events, s), s)
  {
    hide Apply, Receiving;
    if events == [] {
      NothingReceived(s);
    } else {
      var n := |events| - 1;
      FailStep(Replay(events[..n], s), events[n], s);
      RunStillReceiving(events[..n], s);
      StepStillReceiving(Replay(events[..n], s), events[n], s);
    }
  }

  /**
   After every round of window updates, an open stream may receive at least half of its first window beyond what was
   read, and so may the connection: as long as the application reads everything, the peer is not blocked for good. Where
   less than half an increment was left, an update is due.
   */
  lemma RoundLeavesHalf(events: seq<Event>, s: Setup, now: int, rtt: nat)
    requires s.receiveStream <= s.maxReceiveStream && s.receiveConnection <= s.maxReceiveConnection
    requires !Replay(events, s).failed
    ensures var a, a' := Replay(events, s), Apply(Replay(events, s), Updates(now, rtt), s);
      && (forall id | id in a'.open :: var l' := LedgerOf(a', id);
        l'.receiveWindow >= l'.bytesRead + s.receiveStream / 2)
      && a'.conn.receiveWindow >= a'.conn.bytesRead + s.receiveConnection / 2
      && (forall id | id in a.open && id != 0 :: var l := LedgerOf(a, id);
        l.receiveWindow < l.bytesRead + l.increment / 2 ==> Due(a, now, rtt, id, LedgerOf(a', id).receiveWindow))
      && (a.conn.receiveWindow < a.conn.bytesRead + a.conn.increment / 2 ==>
        Due(a, now, rtt, 0, a'.conn.receiveWindow))
  {
    hide SumsOk, ReceiveOk, RaisedTo, Demands, LedgerOk;
    var a := Replay(events, s);
    RunStillReceiving(events, s);
    forall id | id in a.open
      ensures var l, l' := LedgerOf(a, id), Updated(LedgerOf(a, id), now, rtt);
        && l'.receiveWindow >= l'.bytesRead + s.receiveStream / 2 && Left(l) == l.receiveWindow - l.bytesRead
        && a.open[id] in a.open.Values
    {
      StreamOk(a.all, a.conn, a.open[id]);
      LookLeavesHalf(LedgerOf(a, id), now, rtt);
      WindowGrows(LedgerOf(a, id), now, rtt);
      assert a.open[id] in a.open.Values;
    }
    RaisedStillOk(a.all, a.conn, Demands(a.all, a.open.Values, now, rtt));
    ConnectionOk(a.all, RaisedConnection(a, now, rtt));
    LookLeavesHalf(RaisedConnection(a, now, rtt), now, rtt);
    WindowGrows(RaisedConnection(a, now, rtt), now, rtt);
    SameRaisedWindow(a.conn, Demands(a.all, a.open.Values, now, rtt));
  }

  lemma SameRaisedWindow(c: Ledger, demands: set<nat>)
    ensures RaisedTo(c, demands).receiveWindow == c.receiveWindow && RaisedTo(c, demands).bytesRead == c.bytesRead
  {
  }
}
