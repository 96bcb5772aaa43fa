/**
 What a flow controller counts (flowcontrol/flow_controller.go), and how the counts of streams and connection agree.
 */
module FlowLedgers {
  import opened Common
  import opened Arithmetic

  datatype Ledger = Ledger(
    streamID: nat,
    contributes: bool,
    bytesSent: nat,
    sendWindow: nat,
    lastWindowUpdate: Option<int>,
    bytesRead: nat,
    highestReceived: nat,
    receiveWindow: nat,
    increment: nat,
    maxIncrement: nat)

  /** Nothing was read that was not received, and nothing was received that was not allowed. */
  ghost predicate LedgerOk(l: Ledger) {
    l.bytesRead <= l.highestReceived <= l.receiveWindow && l.increment <= l.maxIncrement
  }

  /** Data up to the offset is too much for the stream, or for the connection. */
  ghost predicate TooMuch(l: Ledger, c: Ledger, byteOffset: nat) {
    || byteOffset > l.receiveWindow
    || (l.contributes && byteOffset > l.highestReceived
      && c.highestReceived + byteOffset - l.highestReceived > c.receiveWindow)
  }

  /** What may still be sent. Before the first window update, the peer's connection parameters decide. */
  ghost function WindowLeft(l: Ledger, parameter: nat): nat {
    var window := if l.sendWindow == 0 then parameter else l.sendWindow;
    if l.bytesSent > window then 0 else window - l.bytesSent
  }

  ghost function MaySend(l: Ledger, c: Ledger, ofStream: nat, ofConnection: nat): nat {
    if l.contributes then Min(WindowLeft(l, ofStream), WindowLeft(c, ofConnection)) else WindowLeft(l, ofStream)
  }

  /** A stream has received data up to an offset, and so has the connection if the stream contributes. */
  ghost function Received(l: Ledger, byteOffset: nat): Ledger {
    l.(highestReceived := Max(l.highestReceived, byteOffset))
  }

  ghost function ReceivedOn(c: Ledger, l: Ledger, byteOffset: nat): Ledger {
    if l.contributes then c.(highestReceived :=
      c.highestReceived + Max(l.highestReceived, byteOffset) - l.highestReceived) else c
  }

  /** Bytes are read; the first read starts the clock. */
  ghost function AfterRead(l: Ledger, n: nat, now: int): Ledger {
    l.(bytesRead := l.bytesRead + n, lastWindowUpdate := if l.bytesRead == 0 then Some(now) else l.lastWindowUpdate)
  }

  ghost function AfterSend(l: Ledger, n: nat): Ledger {
    l.(bytesSent := l.bytesSent + n)
  }

  /** The subtraction is on uint64. */
  function Left(l: Ledger): int {
    if l.bytesRead <= l.receiveWindow then l.receiveWindow - l.bytesRead else TWO_64 + l.receiveWindow - l.bytesRead
  }

  predicate Necessary(l: Ledger) {
    Left(l) < l.increment / 2
  }

  /** The increment doubles, up to its maximum, if the last window update is less than two round trips ago. */
  function Adjusted(l: Ledger, now: int, rtt: nat): nat {
    if l.lastWindowUpdate == None || rtt == 0 || now - l.lastWindowUpdate.value >= 2 * rtt then l.increment
    else Min(2 * l.increment, l.maxIncrement)
  }

  /** The ledger after a look at the receive window. */
  function Updated(l: Ledger, now: int, rtt: nat): Ledger {
    if !Necessary(l) then l
    else
      var inc := Adjusted(l, now, rtt);
      l.(increment := inc, lastWindowUpdate := Some(now), receiveWindow := l.bytesRead + inc)
  }

  /** A window update always raises the window, and the subtraction does not wrap around. */
  lemma WindowGrows(l: Ledger, now: int, rtt: nat)
    requires LedgerOk(l)
    ensures Left(l) == l.receiveWindow - l.bytesRead
    ensures LedgerOk(Updated(l, now, rtt)) && l.increment <= Updated(l, now, rtt).increment
    ensures Necessary(l) ==> Updated(l, now, rtt).receiveWindow > l.receiveWindow
  {
  }

  /** Makes sure that the increment is not smaller than what a stream needs. */
  function Raised(l: Ledger, inc: nat): Ledger {
    if inc > l.increment then l.(increment := Min(inc, l.maxIncrement), lastWindowUpdate := None) else l
  }

  /** What a window update of a stream asks of the connection: one and a half times the new increment. */
  function Demand(l: Ledger, now: int, rtt: nat): nat {
    if l.contributes && Necessary(l) && Adjusted(l, now, rtt) != l.increment then 3 * Adjusted(l, now, rtt) / 2 else 0
  }

  /** Only the largest of all demands decides. */
  ghost predicate RaisedBy(c: Ledger, c': Ledger, demands: set<nat>) {
    if forall x | x in demands :: x <= c.increment then c' == c
    else exists m | m in demands ::
      (forall x | x in demands :: x <= m) && c' == c.(increment := Min(m, c.maxIncrement), lastWindowUpdate := None)
  }

  lemma RaisedByNone(c: Ledger)
    ensures RaisedBy(c, c, {})
  {
  }

  lemma RaisedByOneMore(c: Ledger, c': Ledger, demands: set<nat>, x: nat)
    requires RaisedBy(c, c', demands) && c.increment <= c.maxIncrement
    ensures RaisedBy(c, Raised(c', x), demands + {x})
  {
    var all := demands + {x};
    if forall y | y in all :: y <= c.increment {
      assert forall y | y in demands :: y in all;
      assert x in all;
    } else if forall y | y in demands :: y <= c.increment {
      assert x in all;
    } else {
      var m :| m in demands && (forall y | y in demands :: y <= m)
        && c' == c.(increment := Min(m, c.maxIncrement), lastWindowUpdate := None);
      var top := Max(m, x);
      assert top in all && forall y | y in all :: y <= top;
      assert m > c.increment;
    }
  }

  /** Whatever the order of the demands, the outcome is the same. */
  lemma RaisedByUnique(c: Ledger, c1: Ledger, c2: Ledger, demands: set<nat>)
    requires RaisedBy(c, c1, demands) && RaisedBy(c, c2, demands)
    ensures c1 == c2
  {
  }

  /** The same as a function. */
  ghost function RaisedTo(c: Ledger, demands: set<nat>): Ledger {
    if demands == {} || Largest(demands) <= c.increment then c
    else c.(increment := Min(Largest(demands), c.maxIncrement), lastWindowUpdate := None)
  }

  lemma RaisedByIsRaisedTo(c: Ledger, c': Ledger, demands: set<nat>)
    requires RaisedBy(c, c', demands)
    ensures c' == RaisedTo(c, demands)
  {
  }

  /** The sums over all streams that count for the connection. */
  ghost function SumSent(all: seq<Ledger>): nat {
    if all == [] then 0 else SumSent(all[..|all| - 1]) + if all[|all| - 1].contributes then all[|all| - 1].bytesSent
      else 0
  }

  ghost function SumRead(all: seq<Ledger>): nat {
    if all == [] then 0 else SumRead(all[..|all| - 1]) + if all[|all| - 1].contributes then all[|all| - 1].bytesRead
      else 0
  }

  ghost function SumReceived(all: seq<Ledger>): nat {
    if all == [] then 0
      else SumReceived(all[..|all| - 1]) + if all[|all| - 1].contributes then all[|all| - 1].highestReceived else 0
  }

  lemma {:induction false} SumUpdate(all: seq<Ledger>, i: nat, l: Ledger)
    requires i < |all| && l.contributes == all[i].contributes
    ensures SumSent(all[i := l]) == SumSent(all) + if l.contributes then l.bytesSent - all[i].bytesSent else 0
    ensures SumRead(all[i := l]) == SumRead(all) + if l.contributes then l.bytesRead - all[i].bytesRead else 0
    ensures SumReceived(all[i := l])
      == SumReceived(all) + if l.contributes then l.highestReceived - all[i].highestReceived else 0
  {
    var front := all[..|all| - 1];
    if i == |all| - 1 {
      assert all[i := l][..|all| - 1] == front;
    } else {
      assert all[i := l][..|all| - 1] == front[i := l];
      SumUpdate(front, i, l);
    }
  }

  lemma {:induction false} SumNew(all: seq<Ledger>, l: Ledger)
    requires l.bytesSent == 0 && l.bytesRead == 0 && l.highestReceived == 0
    ensures SumSent(all + [l]) == SumSent(all) && SumRead(all + [l]) == SumRead(all)
      && SumReceived(all + [l]) == SumReceived(all)
  {
    assert (all + [l])[..|all|] == all;
  }

  lemma {:induction false} ReadAtMostReceived(all: seq<Ledger>)
    requires forall l | l in all :: LedgerOk(l)
    ensures SumRead(all) <= SumReceived(all)
  {
    if all != [] {
      assert all[|all| - 1] in all;
      ReadAtMostReceived(all[..|all| - 1]);
    }
  }

  /** The connection counts what all streams that were ever created count together. */
  ghost predicate SumsOk(all: seq<Ledger>, conn: Ledger) {
    conn.bytesSent == SumSent(all) && conn.bytesRead == SumRead(all) && conn.highestReceived == SumReceived(all)
  }

  ghost predicate ReceiveOk(all: seq<Ledger>, conn: Ledger) {
    (forall l | l in all :: LedgerOk(l)) && conn.highestReceived <= conn.receiveWindow
      && conn.increment <= conn.maxIncrement
  }

  lemma ConnectionOk(all: seq<Ledger>, conn: Ledger)
    requires SumsOk(all, conn) && ReceiveOk(all, conn)
    ensures LedgerOk(conn)
  {
    ReadAtMostReceived(all);
  }

  /** Neither a stream nor the connection has sent more than the peer has ever allowed. */
  ghost predicate SendOk(all: seq<Ledger>, conn: Ledger, grantedStream: nat, grantedConnection: nat) {
    && (forall l | l in all :: l.bytesSent <= Max(l.sendWindow, grantedStream))
    && conn.bytesSent <= Max(conn.sendWindow, grantedConnection)
  }

  lemma NewOk(all: seq<Ledger>, conn: Ledger, l: Ledger, grantedStream: nat, grantedConnection: nat)
    requires SumsOk(all, conn) && LedgerOk(l) && l.bytesSent == 0 && l.bytesRead == 0 && l.highestReceived == 0
    ensures SumsOk(all + [l], conn) && (ReceiveOk(all, conn) ==> ReceiveOk(all + [l], conn))
    ensures SendOk(all, conn, grantedStream, grantedConnection) ==>
      SendOk(all + [l], conn, grantedStream, grantedConnection)
  {
    SumNew(all, l);
  }

  /** The ledger of one stream and that of the connection change by the same amounts. */
  ghost predicate Posted(conn: Ledger, conn': Ledger, l: Ledger, l': Ledger) {
    && l'.contributes == l.contributes
    && conn'.bytesSent == conn.bytesSent + (if l.contributes then l'.bytesSent - l.bytesSent else 0)
    && conn'.bytesRead == conn.bytesRead + (if l.contributes then l'.bytesRead - l.bytesRead else 0)
    && conn'.highestReceived
      == conn.highestReceived + (if l.contributes then l'.highestReceived - l.highestReceived else 0)
  }

  lemma PostedOk(all: seq<Ledger>, conn: Ledger, conn': Ledger, i: nat, l: Ledger)
    requires SumsOk(all, conn) && i < |all| && Posted(conn, conn', all[i], l)
    ensures SumsOk(all[i := l], conn')
  {
    SumUpdate(all, i, l);
  }

  /** The stream counts what the connection does not. */
  lemma SumsBroken(all: seq<Ledger>, conn: Ledger, i: nat, l: Ledger)
    requires SumsOk(all, conn) && i < |all| && l == all[i].(highestReceived := l.highestReceived)
    ensures SumsOk(all[i := l], conn) <==> !l.contributes || l.highestReceived == all[i].highestReceived
  {
    SumUpdate(all, i, l);
  }

  lemma StillReceiving(all: seq<Ledger>, conn: Ledger, conn': Ledger, i: nat, l: Ledger)
    requires i < |all| && (LedgerOk(all[i]) ==> LedgerOk(l))
    requires conn'.highestReceived <= Max(conn.highestReceived, conn'.receiveWindow)
    requires conn'.receiveWindow >= conn.receiveWindow && conn'.maxIncrement == conn.maxIncrement
    requires conn'.increment <= Max(conn.increment, conn.maxIncrement)
    ensures ReceiveOk(all, conn) ==> ReceiveOk(all[i := l], conn')
  {
  }

  lemma StillSending(all: seq<Ledger>, conn: Ledger, conn': Ledger, i: nat, l: Ledger, grantedStream: nat,
    grantedConnection: nat)
    requires i < |all|
    requires l.bytesSent <= all[i].bytesSent || l.bytesSent <= Max(l.sendWindow, grantedStream)
    requires conn'.bytesSent <= conn.bytesSent || conn'.bytesSent <= Max(conn'.sendWindow, grantedConnection)
    requires l.sendWindow >= all[i].sendWindow && conn'.sendWindow >= conn.sendWindow
    ensures SendOk(all, conn, grantedStream, grantedConnection) ==>
      SendOk(all[i := l], conn', grantedStream, grantedConnection)
  {
  }

  lemma StreamOk(all: seq<Ledger>, conn: Ledger, i: nat)
    requires ReceiveOk(all, conn) && i < |all|
    ensures LedgerOk(all[i]) && conn.highestReceived <= conn.receiveWindow
  {
  }

  lemma OnlySendWindow(all: seq<Ledger>, conn: Ledger, conn': Ledger, grantedStream: nat, grantedConnection: nat)
    requires conn'.sendWindow >= conn.sendWindow && conn' == conn.(sendWindow := conn'.sendWindow)
    ensures (SumsOk(all, conn) ==> SumsOk(all, conn')) && (ReceiveOk(all, conn) ==> ReceiveOk(all, conn'))
    ensures SendOk(all, conn, grantedStream, grantedConnection) ==> SendOk(all, conn', grantedStream, grantedConnection)
  {
  }

  /** The ledgers after a look at those with the given positions. */
  ghost function Looked(all: seq<Ledger>, done: set<nat>, now: int, rtt: nat): (r: seq<Ledger>)
    ensures |r| == |all|
  {
    seq(|all|, i requires 0 <= i < |all| => if i in done then Updated(all[i], now, rtt) else all[i])
  }

  ghost function Demands(all: seq<Ledger>, done: set<nat>, now: int, rtt: nat): set<nat> {
    set i | i in done && i < |all| :: Demand(all[i], now, rtt)
  }

  lemma LookStep(all: seq<Ledger>, done: set<nat>, i: nat, now: int, rtt: nat)
    requires i < |all| && i !in done
    ensures Looked(all, done, now, rtt)[i] == all[i]
    ensures Looked(all, done, now, rtt)[i := Updated(all[i], now, rtt)] == Looked(all, done + {i}, now, rtt)
    ensures Demands(all, done + {i}, now, rtt) == Demands(all, done, now, rtt) + {Demand(all[i], now, rtt)}
  {
    assert i in done + {i};
  }

  lemma LookNone(all: seq<Ledger>, now: int, rtt: nat)
    ensures Looked(all, {}, now, rtt) == all && Demands(all, {}, now, rtt) == {}
  {
  }

  /** A look at a stream, and what it asks of the connection, change neither the sums nor the safety. */
  lemma LookOk(all: seq<Ledger>, conn: Ledger, i: nat, now: int, rtt: nat, grantedStream: nat, grantedConnection: nat)
    requires i < |all| && SumsOk(all, conn) && ReceiveOk(all, conn)
    ensures var l, conn' := Updated(all[i], now, rtt), Raised(conn, Demand(all[i], now, rtt));
      && SumsOk(all[i := l], conn') && ReceiveOk(all[i := l], conn')
      && (SendOk(all, conn, grantedStream, grantedConnection) ==>
        SendOk(all[i := l], conn', grantedStream, grantedConnection))
  {
    hide SumsOk, ReceiveOk, SendOk;
    var l, conn' := Updated(all[i], now, rtt), Raised(conn, Demand(all[i], now, rtt));
    StreamOk(all, conn, i);
    WindowGrows(all[i], now, rtt);
    PostedOk(all, conn, conn', i, l);
    StillReceiving(all, conn, conn', i, l);
    StillSending(all, conn, conn', i, l, grantedStream, grantedConnection);
  }

  /** A look at the connection. */
  lemma LookAtConnection(all: seq<Ledger>, conn: Ledger, now: int, rtt: nat, grantedStream: nat, grantedConnection: nat)
    requires SumsOk(all, conn) && ReceiveOk(all, conn)
    ensures var conn' := Updated(conn, now, rtt);
      && SumsOk(all, conn') && ReceiveOk(all, conn') && (Necessary(conn) ==> conn'.receiveWindow > conn.receiveWindow)
      && (SendOk(all, conn, grantedStream, grantedConnection) ==> SendOk(all, conn', grantedStream, grantedConnection))
  {
    ConnectionOk(all, conn);
    WindowGrows(conn, now, rtt);
  }

  /** Where a look at some of the streams has led. */
  ghost predicate LookedSoFar(all: seq<Ledger>, conn: Ledger, done: set<nat>, all': seq<Ledger>, conn': Ledger,
    now: int, rtt: nat, grantedStream: nat, grantedConnection: nat) {
    && all' == Looked(all, done, now, rtt) && RaisedBy(conn, conn', Demands(all, done, now, rtt))
    && SumsOk(all', conn') && ReceiveOk(all', conn') && conn.increment <= conn.maxIncrement
    && (SendOk(all, conn, grantedStream, grantedConnection) ==> SendOk(all', conn', grantedStream, grantedConnection))
  }

  lemma LookedAtNone(all: seq<Ledger>, conn: Ledger, now: int, rtt: nat, grantedStream: nat, grantedConnection: nat)
    requires SumsOk(all, conn) && ReceiveOk(all, conn)
    ensures LookedSoFar(all, conn, {}, all, conn, now, rtt, grantedStream, grantedConnection)
  {
    LookNone(all, now, rtt);
    RaisedByNone(conn);
  }

  lemma LookedAtOneMore(all: seq<Ledger>, conn: Ledger, done: set<nat>, all': seq<Ledger>, conn': Ledger, i: nat,
    now: int, rtt: nat, grantedStream: nat, grantedConnection: nat)
    requires LookedSoFar(all, conn, done, all', conn', now, rtt, grantedStream, grantedConnection) && i < |all|
      && i !in done
    ensures all'[i] == all[i]
    ensures LookedSoFar(all, conn, done + {i}, all'[i := Updated(all[i], now, rtt)],
      Raised(conn', Demand(all[i], now, rtt)), now, rtt, grantedStream, grantedConnection)
  {
    hide SumsOk, ReceiveOk, SendOk, Updated, Raised, RaisedBy, Looked, Demands, Demand;
    LookStep(all, done, i, now, rtt);
    LookOk(all', conn', i, now, rtt, grantedStream, grantedConnection);
    RaisedByOneMore(conn, conn', Demands(all, done, now, rtt), Demand(all[i], now, rtt));
  }

  ghost predicate SameWindow(l: Ledger, l': Ledger) {
    l'.receiveWindow == l.receiveWindow && l'.sendWindow == l.sendWindow && l'.streamID == l.streamID
  }

  /** No window changes. */
  ghost predicate SameWindows(all: seq<Ledger>, conn: Ledger, all': seq<Ledger>, conn': Ledger) {
    |all'| == |all| && SameWindow(conn, conn') && forall i | 0 <= i < |all| :: SameWindow(all[i], all'[i])
  }

  /** Only the send window of one stream changes, or that of the connection. */
  ghost predicate OneSendWindow(l: Ledger, l': Ledger, id: nat, offset: nat) {
    && l'.receiveWindow == l.receiveWindow && l'.streamID == l.streamID
    && l'.sendWindow <= Max(l.sendWindow, if l.streamID == id then offset else 0)
  }

  ghost predicate OneSendWindows(all: seq<Ledger>, conn: Ledger, all': seq<Ledger>, conn': Ledger, id: nat,
    offset: nat) {
    |all'| == |all| && OneSendWindow(conn, conn', id, offset) && forall i | 0 <= i < |all| ::
      OneSendWindow(all[i], all'[i], id, offset)
  }

  lemma SameIsOne(all: seq<Ledger>, conn: Ledger, all': seq<Ledger>, conn': Ledger, id: nat, offset: nat)
    requires SameWindows(all, conn, all', conn')
    ensures OneSendWindows(all, conn, all', conn', id, offset)
  {
  }

  ghost predicate SameSent(all: seq<Ledger>, all': seq<Ledger>) {
    |all'| == |all| && forall i | 0 <= i < |all| :: all'[i].bytesSent == all[i].bytesSent
  }
}
