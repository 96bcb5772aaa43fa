/** Flow control for streams and connection (flowcontrol/flow_controller.go, flowcontrol/flow_control_manager.go). */
module FlowControl {
  import opened Common
  import opened FlowLedgers

  class FlowController {
    const streamID: nat
    const contributesToConnection: bool
    const maxReceiveWindowIncrement: nat
    var bytesSent: nat
    var sendWindow: nat
    var lastWindowUpdateTime: Option<int>
    var bytesRead: nat
    var highestReceived: nat
    var receiveWindow: nat
    var receiveWindowIncrement: nat
    ghost const slot: nat

    constructor (streamID: nat, contributes: bool, window: nat, maxWindow: nat, ghost slot: nat)
      ensures Value() == Ledger(streamID, contributes, 0, 0, None, 0, 0, window, window, maxWindow)
      ensures this.streamID == streamID && this.slot == slot
    {
      this.streamID, this.slot := streamID, slot;
      contributesToConnection, maxReceiveWindowIncrement := contributes, maxWindow;
      bytesSent, sendWindow, lastWindowUpdateTime, bytesRead, highestReceived := 0, 0, None, 0, 0;
      receiveWindow, receiveWindowIncrement := window, window;
    }

    ghost function Value(): Ledger
      reads this
    {
      Ledger(streamID, contributesToConnection, bytesSent, sendWindow, lastWindowUpdateTime, bytesRead,
        highestReceived, receiveWindow,
        receiveWindowIncrement, maxReceiveWindowIncrement)
    }

    /** Before the first window update, the peer's connection parameters decide. */
    function GetSendWindow(parameter: nat): nat
      reads this
    {
      if sendWindow == 0 then parameter else sendWindow
    }

    lemma ValueID()
      ensures Value().streamID == streamID
    {
    }

    predicate ContributesToConnection()
      ensures ContributesToConnection() == Value().contributes
      reads this
    {
      contributesToConnection
    }

    method AddBytesSent(n: nat)
      modifies this`bytesSent
      ensures Value() == AfterSend(old(Value()), n)
    {
      bytesSent := bytesSent + n;
    }

    method UpdateSendWindow(newOffset: nat) returns (updated: bool)
      modifies this`sendWindow
      ensures Value() == old(Value()).(sendWindow := Max(old(Value()).sendWindow, newOffset))
        && (updated <==> newOffset > old(Value()).sendWindow)
    {
      if newOffset > sendWindow {
        sendWindow := newOffset;
        return true;
      }
      return false;
    }

    function SendWindowSize(parameter: nat): (n: nat)
      reads this
      ensures n == WindowLeft(Value(), parameter)
      ensures Value().bytesSent + n <= Max(Value().bytesSent, Max(Value().sendWindow, parameter))
      ensures n == 0 <==> bytesSent >= GetSendWindow(parameter)
    {
      if bytesSent > GetSendWindow(parameter) then 0 else GetSendWindow(parameter) - bytesSent
    }

    /** By how much the highest offset grew; None for an offset below the highest. */
    method UpdateHighestReceived(byteOffset: nat) returns (increment: Option<nat>)
      modifies this`highestReceived
      ensures Value() == old(Value()).(highestReceived := Max(old(Value()).highestReceived, byteOffset))
      ensures increment == None <==> byteOffset < old(Value()).highestReceived
      ensures increment.Some? ==> increment.value == byteOffset - old(Value()).highestReceived
    {
      if byteOffset == highestReceived {
        return Some(0);
      }
      if byteOffset > highestReceived {
        increment := Some(byteOffset - highestReceived);
        highestReceived := byteOffset;
        return;
      }
      return None;
    }

    method IncrementHighestReceived(increment: nat)
      modifies this`highestReceived
      ensures Value() == old(Value()).(highestReceived := old(Value()).highestReceived + increment)
    {
      highestReceived := highestReceived + increment;
    }

    method AddBytesRead(n: nat, now: int)
      modifies this`bytesRead, this`lastWindowUpdateTime
      ensures Value() == AfterRead(old(Value()), n, now)
    {
      if bytesRead == 0 {
        lastWindowUpdateTime := Some(now);
      }
      bytesRead := bytesRead + n;
    }

    method MaybeUpdateWindow(now: int, rtt: nat) returns (necessary: bool, newIncrement: nat, offset: nat)
      modifies this`receiveWindow, this`receiveWindowIncrement, this`lastWindowUpdateTime
      ensures necessary == Necessary(old(Value())) && Value() == Updated(old(Value()), now, rtt)
      ensures necessary ==> offset == Value().receiveWindow
      ensures newIncrement == if necessary && Value().increment != old(Value()).increment then Value().increment else 0
    {
      var diff := if bytesRead <= receiveWindow then receiveWindow - bytesRead else TWO_64 + receiveWindow - bytesRead;
      if diff < receiveWindowIncrement / 2 {
        newIncrement := 0;
        var oldWindowIncrement := receiveWindowIncrement;
        MaybeAdjustWindowIncrement(now, rtt);
        if receiveWindowIncrement != oldWindowIncrement {
          newIncrement := receiveWindowIncrement;
        }
        lastWindowUpdateTime := Some(now);
        receiveWindow := bytesRead + receiveWindowIncrement;
        return true, newIncrement, receiveWindow;
      }
      return false, 0, 0;
    }

    method MaybeAdjustWindowIncrement(now: int, rtt: nat)
      modifies this`receiveWindowIncrement
      ensures receiveWindowIncrement == Adjusted(old(Value()), now, rtt)
    {
      if lastWindowUpdateTime == None {
        return;
      }
      if rtt == 0 {
        return;
      }
      if now - lastWindowUpdateTime.value >= 2 * rtt {
        return;
      }
      receiveWindowIncrement := Min(2 * receiveWindowIncrement, maxReceiveWindowIncrement);
    }

    method EnsureMinimumWindowIncrement(inc: nat)
      modifies this`receiveWindowIncrement, this`lastWindowUpdateTime
      ensures Value() == Raised(old(Value()), inc)
    {
      if inc > receiveWindowIncrement {
        receiveWindowIncrement := Min(inc, maxReceiveWindowIncrement);
        lastWindowUpdateTime := None;
      }
    }

    predicate CheckFlowControlViolation()
      reads this
      ensures CheckFlowControlViolation() <==> Value().highestReceived > Value().receiveWindow
    {
      highestReceived > receiveWindow
    }
  }

  lemma FreshOk(l: Ledger)
    requires l.bytesRead == 0 && l.highestReceived == 0 && l.increment <= l.maxIncrement
    ensures LedgerOk(l)
  {
  }

  datatype FlowError = Fine | NoStream | DataAfterTermination | TooMuchData

  class FlowControlManager {
    const receiveStreamWindow: nat
    const maxReceiveStreamWindow: nat
    const conn: FlowController
    var streams: map<nat, FlowController>
    var sendStreamWindow: nat
    var sendConnectionWindow: nat

    /** The controllers of all streams that were ever created, and their ledgers. */
    ghost var made: seq<FlowController>
    ghost var all: seq<Ledger>
    ghost var grantedStream: nat
    ghost var grantedConnection: nat

    ghost predicate Linked()
      reads this, made
    {
      && |made| == |all| && conn !in made && conn.streamID == 0
      && (forall i | 0 <= i < |made| :: made[i].slot == i && made[i].Value() == all[i])
      && 0 !in streams
      && (forall id | id in streams ::
        streams[id].streamID == id && streams[id].slot < |made| && made[streams[id].slot] == streams[id])
      && receiveStreamWindow <= maxReceiveStreamWindow && sendStreamWindow <= grantedStream
        && sendConnectionWindow <= grantedConnection
    }

    /** In every state without an error: what the connection counts is the sum of what the streams count. */
    ghost predicate Valid()
      reads this, conn, made
    {
      Linked() && SumsOk(all, conn.Value())
    }

    ghost predicate Receiving()
      reads this, conn
    {
      ReceiveOk(all, conn.Value())
    }

    ghost predicate Sending()
      reads this, conn
    {
      SendOk(all, conn.Value(), grantedStream, grantedConnection)
    }

    constructor (receiveStream: nat, maxReceiveStream: nat, receiveConnection: nat, maxReceiveConnection: nat,
      sendStream: nat, sendConnection: nat)
      requires receiveStream <= maxReceiveStream && receiveConnection <= maxReceiveConnection
      ensures Valid() && Receiving() && Sending() && fresh(conn) && made == [] && streams == map[] && all == []
      ensures conn.Value() == Ledger(0, false, 0, 0, None, 0, 0, receiveConnection, receiveConnection,
        maxReceiveConnection)
      ensures receiveStreamWindow == receiveStream && maxReceiveStreamWindow == maxReceiveStream
      ensures sendStreamWindow == grantedStream == sendStream
        && sendConnectionWindow == grantedConnection == sendConnection
    {
      receiveStreamWindow, maxReceiveStreamWindow := receiveStream, maxReceiveStream;
      conn := new FlowController(0, false, receiveConnection, maxReceiveConnection, 0);
      streams, all, made := map[], [], [];
      sendStreamWindow, sendConnectionWindow := sendStream, sendConnection;
      grantedStream, grantedConnection := sendStream, sendConnection;
    }

    /** The peer's connection parameters arrive. */
    method SetSendWindows(stream: nat, connection: nat)
      requires Valid()
      modifies this`sendStreamWindow, this`sendConnectionWindow, this`grantedStream, this`grantedConnection
      ensures Valid() && (old(Receiving()) ==> Receiving()) && (old(Sending()) ==> Sending())
      ensures sendStreamWindow == stream && sendConnectionWindow == connection
      ensures grantedStream == Max(old(grantedStream), stream)
        && grantedConnection == Max(old(grantedConnection), connection)
    {
      hide SumsOk, ReceiveOk, FlowController.Value;
      sendStreamWindow, sendConnectionWindow := stream, connection;
      grantedStream, grantedConnection := Max(grantedStream, stream), Max(grantedConnection, connection);
    }

    method NewStream(streamID: nat, contributes: bool)
      requires Valid() && streamID != 0
      modifies this`streams, this`all, this`made
      ensures Valid() && (old(Receiving()) ==> Receiving()) && (old(Sending()) ==> Sending())
      ensures streams.Keys == old(streams.Keys) + {streamID} && old(all) <= all
      ensures streamID !in old(streams) ==>
        && streams[streamID].slot == |old(all)| && fresh(streams[streamID])
        && var window := receiveStreamWindow;
           all == old(all) + [Ledger(streamID, contributes, 0, 0, None, 0, 0, window, window, maxReceiveStreamWindow)]
      ensures streamID in old(streams) ==> all == old(all) && streams == old(streams)
      ensures forall id | id in old(streams) :: streams[id] == old(streams)[id]
      ensures old(made) <= made && forall i | |old(made)| <= i < |made| :: fresh(made[i])
    {
      hide SumsOk, ReceiveOk, SendOk, LedgerOk, FlowController.Value;
      if streamID in streams {
        return;
      }
      var fc := new FlowController(streamID, contributes, receiveStreamWindow, maxReceiveStreamWindow, |made|);
      FreshOk(fc.Value());
      NewOk(all, conn.Value(), fc.Value(), grantedStream, grantedConnection);
      streams := streams[streamID := fc];
      made := made + [fc];
      all := all + [fc.Value()];
    }

    method RemoveStream(streamID: nat)
      requires Valid()
      modifies this`streams
      ensures Valid() && (old(Receiving()) ==> Receiving()) && (old(Sending()) ==> Sending())
      ensures streams == old(streams) - {streamID}
    {
      hide SumsOk, ReceiveOk, SendOk, FlowController.Value;
      streams := streams - {streamID};
    }

    ghost function LedgerOf(id: nat): Ledger
      requires id in streams
      reads this, streams[id]
    {
      streams[id].Value()
    }

    /** The stream's part of the news about an offset. */
    method RaiseStream(fc: FlowController, byteOffset: nat) returns (increment: Option<nat>, violated: bool)
      requires Linked() && fc in made
      modifies this`all, fc`highestReceived
      ensures Linked() && fc != conn && fc.slot < |all| == |old(all)| && old(all)[fc.slot] == old(fc.Value())
      ensures fc.Value() == old(fc.Value()).(highestReceived := Max(old(fc.Value()).highestReceived, byteOffset))
      ensures all == old(all)[fc.slot := fc.Value()] && conn !in made
      ensures increment == None <==> byteOffset < old(fc.Value()).highestReceived
      ensures increment.Some? ==> increment.value == byteOffset - old(fc.Value()).highestReceived
      ensures violated <==> fc.Value().highestReceived > fc.Value().receiveWindow
    {
      hide FlowController.Value;
      increment := fc.UpdateHighestReceived(byteOffset);
      all := all[fc.slot := fc.Value()];
      violated := fc.CheckFlowControlViolation();
    }

    /** The connection's part: what a contributing stream received in addition counts for the connection. */
    method RaiseConnection(fc: FlowController, increment: nat) returns (violated: bool)
      requires fc != conn
      modifies conn`highestReceived
      ensures fc.Value() == old(fc.Value())
      ensures conn.Value() == old(conn.Value()).(highestReceived :=
        old(conn.Value()).highestReceived + if fc.Value().contributes then increment else 0)
      ensures violated <==> fc.Value().contributes && conn.Value().highestReceived > conn.Value().receiveWindow
    {
      hide FlowController.Value;
      if fc.ContributesToConnection() {
        conn.IncrementHighestReceived(increment);
        return conn.CheckFlowControlViolation();
      }
      return false;
    }

    /** Data up to an offset arrives on a stream; a smaller offset than before means that packets were reordered. */
    method UpdateHighestReceived(id: nat, byteOffset: nat) returns (e: FlowError)
      requires Valid() && Receiving()
      modifies this`all, conn`highestReceived, made`highestReceived
      ensures Linked() && e in {Fine, NoStream, TooMuchData} && (e == NoStream <==> id !in streams)
      ensures e != TooMuchData ==> Valid() && Receiving() && (old(Sending()) ==> Sending())
      ensures e == NoStream ==> conn.Value() == old(conn.Value()) && all == old(all)
      ensures e == Fine ==>
        LedgerOf(id) == Received(old(LedgerOf(id)), byteOffset) && all == old(all)[streams[id].slot := LedgerOf(id)]
      ensures e == Fine ==> conn.Value() == ReceivedOn(old(conn.Value()), old(LedgerOf(id)), byteOffset)
      ensures e == TooMuchData <==> id in streams && TooMuch(old(LedgerOf(id)), old(conn.Value()), byteOffset)
      // only a stream's own violation leaves it ahead of the connection
      ensures SumsOk(all, conn.Value()) <==>
        !(id in streams && old(LedgerOf(id)).contributes && byteOffset > old(LedgerOf(id)).receiveWindow)
      ensures SameWindows(old(all), old(conn.Value()), all, conn.Value())
    {
      hide SumsOk, ReceiveOk, SendOk, FlowController.Value;
      if id !in streams {
        return NoStream;
      }
      var fc := streams[id];
      ghost var c, all0 := conn.Value(), all;
      var increment, violated := RaiseStream(fc, byteOffset);
      StreamOk(all0, c, fc.slot);
      if violated {
        SumsBroken(all0, c, fc.slot, fc.Value());
        return TooMuchData;
      }
      violated := RaiseConnection(fc, if increment.Some? then increment.value else 0);
      PostedOk(all0, c, conn.Value(), fc.slot, fc.Value());
      if violated {
        return TooMuchData;
      }
      StillReceiving(all0, c, conn.Value(), fc.slot, fc.Value());
      StillSending(all0, c, conn.Value(), fc.slot, fc.Value(), grantedStream, grantedConnection);
      return Fine;
    }

    /** A stream is reset at a final offset, which must not be below what was received. */
    method ResetStream(id: nat, byteOffset: nat) returns (e: FlowError)
      requires Valid() && Receiving()
      modifies this`all, conn`highestReceived, made`highestReceived
      ensures Linked() && (e == NoStream <==> id !in streams)
      ensures e != TooMuchData ==> Valid() && Receiving() && (old(Sending()) ==> Sending())
      ensures e == NoStream || e == DataAfterTermination ==> conn.Value() == old(conn.Value()) && all == old(all)
      ensures e == DataAfterTermination <==> id in streams && byteOffset < old(LedgerOf(id)).highestReceived
      ensures e == Fine ==>
        LedgerOf(id) == old(LedgerOf(id)).(highestReceived := byteOffset)
        && all == old(all)[streams[id].slot := LedgerOf(id)]
      ensures e == Fine ==> conn.Value() == ReceivedOn(old(conn.Value()), old(LedgerOf(id)), byteOffset)
      // only a stream's own violation leaves it ahead of the connection
      ensures SumsOk(all, conn.Value()) <==>
        !(id in streams && old(LedgerOf(id)).contributes && byteOffset > old(LedgerOf(id)).receiveWindow)
      ensures e == TooMuchData <==>
        id in streams && byteOffset >= old(LedgerOf(id)).highestReceived
          && TooMuch(old(LedgerOf(id)), old(conn.Value()), byteOffset)
      ensures SameWindows(old(all), old(conn.Value()), all, conn.Value())
    {
      hide SumsOk, ReceiveOk, SendOk, FlowController.Value;
      if id !in streams {
        return NoStream;
      }
      var fc := streams[id];
      ghost var c, all0 := conn.Value(), all;
      var increment, violated := RaiseStream(fc, byteOffset);
      StreamOk(all0, c, fc.slot);
      if increment == None {
        assert all == all0;
        return DataAfterTermination;
      }
      if violated {
        SumsBroken(all0, c, fc.slot, fc.Value());
        return TooMuchData;
      }
      violated := RaiseConnection(fc, increment.value);
      PostedOk(all0, c, conn.Value(), fc.slot, fc.Value());
      if violated {
        return TooMuchData;
      }
      StillReceiving(all0, c, conn.Value(), fc.slot, fc.Value());
      StillSending(all0, c, conn.Value(), fc.slot, fc.Value(), grantedStream, grantedConnection);
      return Fine;
    }

    /** The application reads; the window updates stay sound if it reads no more than what was received. */
    method AddBytesRead(id: nat, n: nat, now: int) returns (e: FlowError)
      requires Valid()
      modifies this`all, conn`bytesRead, conn`lastWindowUpdateTime, made`bytesRead, made`lastWindowUpdateTime
      ensures Valid() && (old(Sending()) ==> Sending()) && (e == NoStream <==> id !in streams) && e in {Fine, NoStream}
      ensures old(Receiving()) && (id in streams ==> var l := old(LedgerOf(id)); l.bytesRead + n <= l.highestReceived)
        ==> Receiving()
      ensures e == Fine ==>
        all == old(all)[streams[id].slot := LedgerOf(id)] && LedgerOf(id) == AfterRead(old(LedgerOf(id)), n, now)
      ensures e == Fine ==>
        conn.Value() == if LedgerOf(id).contributes then AfterRead(old(conn.Value()), n, now) else old(conn.Value())
      ensures e == NoStream ==> conn.Value() == old(conn.Value()) && all == old(all)
      ensures SameWindows(old(all), old(conn.Value()), all, conn.Value())
    {
      hide SumsOk, ReceiveOk, SendOk, FlowController.Value;
      if id !in streams {
        return NoStream;
      }
      var fc := streams[id];
      ghost var l, c, all0 := fc.Value(), conn.Value(), all;
      fc.AddBytesRead(n, now);
      all := all[fc.slot := fc.Value()];
      if fc.ContributesToConnection() {
        conn.AddBytesRead(n, now);
      }
      PostedOk(all0, c, conn.Value(), fc.slot, fc.Value());
      if l.bytesRead + n <= l.highestReceived {
        StillReceiving(all0, c, conn.Value(), fc.slot, fc.Value());
      }
      StillSending(all0, c, conn.Value(), fc.slot, fc.Value(), grantedStream, grantedConnection);
      return Fine;
    }

    /** How much a stream may send: what its own window and, if it contributes, the connection's window leave. */
    function SendWindowSize(id: nat): (n: nat)
      reads this, conn, made
      requires Linked()
      ensures id !in streams ==> n == 0
      ensures id in streams ==> n == MaySend(LedgerOf(id), conn.Value(), sendStreamWindow, sendConnectionWindow)
      ensures id in streams ==> n <= streams[id].SendWindowSize(sendStreamWindow)
      ensures id in streams && LedgerOf(id).contributes ==> n <= conn.SendWindowSize(sendConnectionWindow)
    {
      if id !in streams then 0
      else
        var n := streams[id].SendWindowSize(sendStreamWindow);
        if streams[id].ContributesToConnection() then Min(n, conn.SendWindowSize(sendConnectionWindow)) else n
    }

    function RemainingConnectionWindowSize(): nat
      reads this, conn
    {
      conn.SendWindowSize(sendConnectionWindow)
    }

    /** What fits into the send window was granted. */
    lemma WithinGranted(id: nat, n: nat)
      requires Linked() && id in streams && n <= SendWindowSize(id)
      ensures var l, c := LedgerOf(id), conn.Value();
        && l.bytesSent + n <= Max(l.bytesSent, Max(l.sendWindow, grantedStream))
        && (l.contributes ==> c.bytesSent + n <= Max(c.bytesSent, Max(c.sendWindow, grantedConnection)))
    {
    }

    /** Both ledgers count what is sent. */
    method CountSent(fc: FlowController, n: nat)
      requires Linked() && fc in made
      modifies this`all, fc`bytesSent, conn`bytesSent
      ensures Linked() && fc.slot < |all| == |old(all)| && old(all)[fc.slot] == old(fc.Value())
      ensures fc.Value() == AfterSend(old(fc.Value()), n) && all == old(all)[fc.slot := fc.Value()]
      ensures conn.Value() == if fc.Value().contributes then AfterSend(old(conn.Value()), n) else old(conn.Value())
    {
      hide FlowController.Value;
      fc.AddBytesSent(n);
      all := all[fc.slot := fc.Value()];
      if fc.ContributesToConnection() {
        conn.AddBytesSent(n);
      }
    }

    /** Data is sent; nobody goes beyond what was granted if it is no more than the send window. */
    method AddBytesSent(id: nat, n: nat) returns (e: FlowError)
      requires Valid()
      modifies this`all, conn`bytesSent, made`bytesSent
      ensures Valid() && (old(Receiving()) ==> Receiving()) && (e == NoStream <==> id !in streams)
        && e in {Fine, NoStream}
      ensures old(Sending()) && n <= old(SendWindowSize(id)) ==> Sending()
      ensures e == Fine ==>
        LedgerOf(id) == AfterSend(old(LedgerOf(id)), n) && all == old(all)[streams[id].slot := LedgerOf(id)]
      ensures e == Fine ==>
        conn.Value() == if LedgerOf(id).contributes then AfterSend(old(conn.Value()), n) else old(conn.Value())
      ensures e == NoStream ==> conn.Value() == old(conn.Value()) && all == old(all)
      ensures SameWindows(old(all), old(conn.Value()), all, conn.Value())
    {
      hide SumsOk, ReceiveOk, SendOk, FlowController.Value, SendWindowSize, FlowController.SendWindowSize, MaySend;
      if id !in streams {
        return NoStream;
      }
      var fc := streams[id];
      ghost var c, all0, window := conn.Value(), all, SendWindowSize(id);
      if n <= window { WithinGranted(id, n); }
      CountSent(fc, n);
      PostedOk(all0, c, conn.Value(), fc.slot, fc.Value());
      StillReceiving(all0, c, conn.Value(), fc.slot, fc.Value());
      if n <= window {
        StillSending(all0, c, conn.Value(), fc.slot, fc.Value(), grantedStream, grantedConnection);
      }
      return Fine;
    }

    /** A window update of the peer, for the connection if the stream is 0. */
    method UpdateWindow(id: nat, offset: nat) returns (e: FlowError, updated: bool)
      requires Valid()
      modifies this`all, conn`sendWindow, made`sendWindow
      ensures Valid() && (old(Receiving()) ==> Receiving()) && (old(Sending()) ==> Sending())
      ensures e in {Fine, NoStream} && (e == NoStream <==> id != 0 && id !in streams)
      ensures id != 0 && e == Fine ==>
        LedgerOf(id) == old(LedgerOf(id)).(sendWindow := Max(old(LedgerOf(id)).sendWindow, offset))
          && all == old(all)[streams[id].slot := LedgerOf(id)]
      ensures id != 0 ==> conn.Value() == old(conn.Value()) && (e == NoStream ==> all == old(all))
      ensures id == 0 ==>
        conn.Value() == old(conn.Value()).(sendWindow := Max(old(conn.Value()).sendWindow, offset)) && all == old(all)
      ensures OneSendWindows(old(all), old(conn.Value()), all, conn.Value(), id, offset) && SameSent(old(all), all)
      ensures updated <==>
        if id == 0 then offset > old(conn.Value()).sendWindow
        else e == Fine && offset > old(LedgerOf(id)).sendWindow
    {
      hide SumsOk, ReceiveOk, SendOk, FlowController.Value;
      ghost var c, all0 := conn.Value(), all;
      if id == 0 {
        conn.ValueID();
        updated := conn.UpdateSendWindow(offset);
        OnlySendWindow(all, c, conn.Value(), grantedStream, grantedConnection);
        return Fine, updated;
      }
      if id !in streams {
        return NoStream, false;
      }
      var fc := streams[id];
      fc.ValueID();
      updated := fc.UpdateSendWindow(offset);
      all := all[fc.slot := fc.Value()];
      PostedOk(all0, c, conn.Value(), fc.slot, fc.Value());
      StillReceiving(all0, c, conn.Value(), fc.slot, fc.Value());
      StillSending(all0, c, conn.Value(), fc.slot, fc.Value(), grantedStream, grantedConnection);
      return Fine, updated;
    }

    /** Looks at one stream; a larger increment of the stream makes the connection's increment larger, too. */
    method LookAtStream(fc: FlowController, now: int, rtt: nat) returns (update: Option<nat>)
      requires Linked() && fc in made && fc != conn
      modifies this`all, fc`receiveWindow, fc`receiveWindowIncrement, fc`lastWindowUpdateTime,
        conn`receiveWindowIncrement, conn`lastWindowUpdateTime
      ensures Linked() && fc.Value() == Updated(old(fc.Value()), now, rtt)
      ensures all == old(all)[fc.slot := fc.Value()]
        && conn.Value() == Raised(old(conn.Value()), Demand(old(fc.Value()), now, rtt))
      ensures update == if Necessary(old(fc.Value())) then Some(fc.Value().receiveWindow) else None
    {
      hide FlowController.Value, Necessary, Adjusted;
      var necessary, newIncrement, offset := fc.MaybeUpdateWindow(now, rtt);
      all := all[fc.slot := fc.Value()];
      update := None;
      if necessary {
        update := Some(offset);
        if fc.ContributesToConnection() && newIncrement != 0 {
          conn.EnsureMinimumWindowIncrement(3 * newIncrement / 2);
        }
      }
    }

    lemma SlotsDiffer(done: set<nat>, id: nat)
      requires Linked() && id in streams && id !in done && done <= streams.Keys
      ensures streams[id].slot !in SlotsOf(streams, done) && streams[id].slot < |all|
        && streams[id].Value() == all[streams[id].slot]
      ensures streams[id] in made && streams[id] != conn
      ensures SlotsOf(streams, done + {id}) == SlotsOf(streams, done) + {streams[id].slot}
    {
      forall other | other in done ensures streams[other].slot != streams[id].slot {
        assert streams[other].streamID == other;
      }
    }

    /** Looks at all streams, in any order. */
    method LookAtStreams(now: int, rtt: nat) returns (updates: seq<WindowUpdate>)
      requires Valid() && Receiving()
      modifies this`all, conn`receiveWindowIncrement, conn`lastWindowUpdateTime
      modifies made`receiveWindow, made`receiveWindowIncrement, made`lastWindowUpdateTime
      ensures Valid() && Receiving() && (old(Sending()) ==> Sending())
      ensures all == Looked(old(all), SlotsOf(streams, streams.Keys), now, rtt)
      ensures RaisedBy(old(conn.Value()), conn.Value(), Demands(old(all), SlotsOf(streams, streams.Keys), now, rtt))
      ensures Listed(updates, old(all), streams, streams.Keys, now, rtt)
    {
      hide SumsOk, ReceiveOk, SendOk, FlowController.Value, Linked, Updated, Raised, Demand, Listed, SlotsOf,
        Necessary, LookedSoFar;
      ghost var c0, all0, done := conn.Value(), all, {};
      NoneListed(all, streams, now, rtt);
      LookedAtNone(all, c0, now, rtt, grantedStream, grantedConnection);
      updates := [];
      var todo := streams.Keys;
      while todo != {}
        invariant todo <= streams.Keys && done == streams.Keys - todo && Linked() && |all| == |all0|
        invariant LookedSoFar(all0, c0, SlotsOf(streams, done), all, conn.Value(), now, rtt, grantedStream,
          grantedConnection)
        invariant Listed(updates, all0, streams, done, now, rtt)
        decreases |todo|
      {
        var id :| id in todo;
        var fc := streams[id];
        SlotsDiffer(done, id);
        LookedAtOneMore(all0, c0, SlotsOf(streams, done), all, conn.Value(), fc.slot, now, rtt, grantedStream,
          grantedConnection);
        var update := LookAtStream(fc, now, rtt);
        ListStep(updates, all0, streams, done, id, update, now, rtt);
        updates := updates + if update.Some? then [WindowUpdate(id, update.value)] else [];
        todo, done := todo - {id}, done + {id};
      }
      assert done == streams.Keys;
      LookedAtAll(all0, c0, SlotsOf(streams, done), all, conn.Value(), now, rtt, grantedStream, grantedConnection);
    }

    /**
     Window updates for the streams that need one and for the connection. The outcome does not depend on the order in
     which the streams are looked at: each ledger is updated by itself, and for the connection only the largest demand
     counts.
     */
    method GetWindowUpdates(now: int, rtt: nat)
      returns (updates: seq<WindowUpdate>, ghost raised: Ledger, ghost ofStreams: seq<WindowUpdate>)
      requires Valid() && Receiving()
      modifies this`all, conn, made
      ensures Valid() && Receiving() && (old(Sending()) ==> Sending())
      ensures all == Looked(old(all), SlotsOf(streams, streams.Keys), now, rtt)
      ensures raised == RaisedTo(old(conn.Value()), Demands(old(all), SlotsOf(streams, streams.Keys), now, rtt))
        && conn.Value() == Updated(raised, now, rtt)
      ensures updates == ofStreams + if Necessary(raised) then [WindowUpdate(0, conn.Value().receiveWindow)] else []
      ensures Listed(ofStreams, old(all), streams, streams.Keys, now, rtt)
      ensures SameWindow(old(conn.Value()), raised)
        && (Necessary(raised) ==> conn.Value().receiveWindow > raised.receiveWindow)
    {
      hide SumsOk, ReceiveOk, SendOk, FlowController.Value, Linked, Looked, RaisedBy, RaisedTo, Listed, Demands;
      ghost var c0 := conn.Value();
      updates := LookAtStreams(now, rtt);
      ofStreams, raised := updates, conn.Value();
      RaisedByIsRaisedTo(c0, raised, Demands(old(all), SlotsOf(streams, streams.Keys), now, rtt));
      RaisedKeepsWindow(c0, raised, Demands(old(all), SlotsOf(streams, streams.Keys), now, rtt));
      LookAtConnection(all, raised, now, rtt, grantedStream, grantedConnection);
      ConnectionApart();
      var necessary, _, offset := conn.MaybeUpdateWindow(now, rtt);
      if necessary {
        updates := updates + [WindowUpdate(0, offset)];
      }
    }

    lemma ConnectionApart()
      requires Linked()
      ensures conn !in made
    {
    }
  }

  lemma RaisedKeepsWindow(c: Ledger, c': Ledger, demands: set<nat>)
    requires RaisedBy(c, c', demands)
    ensures c'.receiveWindow == c.receiveWindow && c'.sendWindow == c.sendWindow && c'.streamID == c.streamID
  {
  }

  lemma LookedAtAll(all: seq<Ledger>, conn: Ledger, done: set<nat>, all': seq<Ledger>, conn': Ledger, now: int,
    rtt: nat, grantedStream: nat, grantedConnection: nat)
    requires LookedSoFar(all, conn, done, all', conn', now, rtt, grantedStream, grantedConnection)
    ensures all' == Looked(all, done, now, rtt) && RaisedBy(conn, conn', Demands(all, done, now, rtt))
    ensures SumsOk(all', conn') && ReceiveOk(all', conn')
    ensures SendOk(all, conn, grantedStream, grantedConnection) ==>
      SendOk(all', conn', grantedStream, grantedConnection)
  {
  }

  datatype WindowUpdate = WindowUpdate(streamID: nat, offset: nat)

  /** Where the ledgers of some of the present streams are among those of all streams. */
  ghost function SlotsOf(streams: map<nat, FlowController>, ids: set<nat>): set<nat> {
    set id | id in ids && id in streams :: streams[id].slot
  }

  /** The list has exactly the streams that need an update, each with its new offset. */
  ghost predicate Listed(updates: seq<WindowUpdate>, all: seq<Ledger>, streams: map<nat, FlowController>,
    done: set<nat>, now: int, rtt: nat) {
    && (forall i, j | 0 <= i < j < |updates| :: updates[i].streamID != updates[j].streamID)
    && forall id, offset :: WindowUpdate(id, offset) in updates <==>
         id in done && id in streams && streams[id].slot < |all| && Necessary(all[streams[id].slot])
           && offset == Updated(all[streams[id].slot], now, rtt).receiveWindow
  }

  lemma ListStep(updates: seq<WindowUpdate>, all: seq<Ledger>, streams: map<nat, FlowController>, done: set<nat>,
    id: nat, update: Option<nat>, now: int, rtt: nat)
    requires Listed(updates, all, streams, done, now, rtt) && id in streams && streams[id].slot < |all| && id !in done
    requires var l := all[streams[id].slot];
      update == if Necessary(l) then Some(Updated(l, now, rtt).receiveWindow) else None
    ensures Listed(updates + if update.Some? then [WindowUpdate(id, update.value)] else [], all, streams, done + {id},
      now, rtt)
  {
    hide Necessary, Updated;
    forall u | u in updates ensures u.streamID != id {
      assert u == WindowUpdate(u.streamID, u.offset);
    }
  }

  /** Every update is for a larger window than before. */
  lemma ListedGrows(updates: seq<WindowUpdate>, all: seq<Ledger>, conn: Ledger, streams: map<nat, FlowController>,
    now: int, rtt: nat)
    requires Listed(updates, all, streams, streams.Keys, now, rtt) && ReceiveOk(all, conn)
    ensures forall u | u in updates :: u.streamID in streams && var i := streams[u.streamID].slot;
      i < |all| && all[i].receiveWindow < u.offset == Updated(all[i], now, rtt).receiveWindow
  {
    hide Necessary, Updated, ReceiveOk;
    forall u | u in updates
      ensures u.streamID in streams && var i := streams[u.streamID].slot;
        i < |all| && all[i].receiveWindow < u.offset == Updated(all[i], now, rtt).receiveWindow
    {
      assert u == WindowUpdate(u.streamID, u.offset);
      StreamOk(all, conn, streams[u.streamID].slot);
      WindowGrows(all[streams[u.streamID].slot], now, rtt);
    }
  }

  lemma NoneListed(all: seq<Ledger>, streams: map<nat, FlowController>, now: int, rtt: nat)
    ensures SlotsOf(streams, {}) == {} && Listed([], all, streams, {}, now, rtt)
  {
  }
}
