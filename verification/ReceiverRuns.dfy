/** Whole runs of the receiver's acknowledgements, over any packets and any times at which an ACK is asked for. */
module ReceiverRuns {
  import opened Common
  import opened Arithmetic
  import opened AckFrames
  import opened ReceivedHistory
  import opened ReceivedHandler

  /**
   A packet arrives, with a STOP_WAITING frame in it or not, or the sender asks for an ACK. The frames of a packet are
   handled after the packet has been recorded, and not at all if it was rejected (session.go).
   */
  datatype Event = Packet(number: nat, instigatesAck: bool, stopWaiting: Option<nat>, at: int) | Ask(at: int)

  /** A STOP_WAITING frame names at most the packet that carries it. */
  ghost predicate Carried(e: Event) {
    e.Packet? && e.stopWaiting.Some? ==> e.stopWaiting.value <= e.number
  }

  // ---------- the reference ----------

  /**
   The packets that should be acknowledged, the largest number that is ignored, whether an ACK is due, and whether the
   connection was closed because of a packet.
   */
  datatype Record = Record(numbers: set<nat>, ignored: nat, pending: Pending, stopped: bool)

  ghost function Replay(events: seq<Event>): Record {
    if events == [] then Record({}, 0, Pending(false, None, 0, 0, None), false)
    else Apply(Replay(events[..|events| - 1]), events[|events| - 1])
  }

  /** The packet was not received before, and is not ignored. */
  ghost predicate IsNew(r: Record, e: Event) {
    e.Packet? && e.number > r.ignored && e.number !in r.numbers
  }

  /** The packet closes the connection: its number is 0, or there is no room for it. */
  ghost predicate Rejects(r: Record, e: Event) {
    e.Packet? && (e.number == 0 || (IsNew(r, e) && Full(r.numbers)))
  }

  ghost predicate AckDue(r: Record, e: Event) {
    e.Ask? && IsDue(r.pending, e.at)
  }

  ghost function Apply(r: Record, e: Event): Record {
    if r.stopped then r
    else if Rejects(r, e) then r.(stopped := true)
    else if e.Ask? then if AckDue(r, e) then r.(pending := Pending(false, None, 0, 0, LargestOf(r.numbers))) else r
    else if IsNew(r, e) then AfterStopWaiting(AfterPacket(r, e), e.stopWaiting)
    else r
  }

  ghost function LargestOf(numbers: set<nat>): Option<nat> {
    if numbers == {} then None else Some(Largest(numbers))
  }

  ghost function AfterPacket(r: Record, e: Event): Record
    requires e.Packet?
  {
    var numbers := r.numbers + {e.number};
    r.(numbers := numbers, pending := AfterArrival(r.pending, numbers, e.number, e.instigatesAck, e.at))
  }

  ghost function AfterStopWaiting(r: Record, stopWaiting: Option<nat>): Record {
    if stopWaiting == None || stopWaiting.value <= r.ignored then r
    else r.(numbers := (set p | p in r.numbers && stopWaiting.value <= p), ignored := stopWaiting.value - 1)
  }

  // ---------- the handler follows the reference ----------

  /** The ACK acknowledges exactly the packets of the reference. */
  ghost predicate Faithful(ack: AckFrame, r: Record) {
    WellFormed(ack) && 1 <= ack.lowestAcked && forall p: nat :: Acks(ack, p) <==> p in r.numbers
  }

  ghost predicate Mirrors(h: ReceivedPacketHandler, r: Record)
    reads h, h.packetHistory
  {
    && h.Valid() && h.HasLargest() && !r.stopped
    && h.packetHistory.receivedPacketNumbers == r.numbers && h.ignorePacketsBelow == r.ignored
      && h.PendingAck() == r.pending
  }

  lemma LargestObserved(h: ReceivedPacketHandler, r: Record)
    requires Mirrors(h, r)
    ensures h.largestObserved > 0 ==> LargestOf(r.numbers) == Some(h.largestObserved)
  {
  }

  /**
   Handles one event. An ACK is built exactly when one is due, and the connection is closed exactly when it must be.
   */
  method Handle(h: ReceivedPacketHandler, e: Event, ghost r: Record) returns (ack: Option<AckFrame>, ok: bool)
    requires Mirrors(h, r) && Carried(e)
    modifies h, h.packetHistory
    ensures (ok <==> !Rejects(r, e)) && (ok ==> Mirrors(h, Apply(r, e)))
    ensures ack.Some? <==> AckDue(r, e)
    ensures ack.Some? ==> Faithful(ack.value, r)
  {
    hide HistoryOk, WellFormed, Acks, Full, AfterArrival;
    ack, ok := None, true;
    LargestObserved(h, r);
    match e {
      case Ask(now) =>
        ack := h.GetAckFrame(now);
      case Packet(number, instigatesAck, stopWaiting, now) =>
        var outcome := h.ReceivedPacket(number, instigatesAck, now);
        ok := outcome != InvalidNumber && outcome != TooMany;
        if outcome == Accepted && stopWaiting.Some? {
          h.ReceivedStopWaiting(stopWaiting.value);
        }
    }
  }

  /** The i-th event gets an ACK. */
  ghost predicate Answered(events: seq<Event>, i: nat)
    requires i < |events|
  {
    !Replay(events[..i]).stopped && AckDue(Replay(events[..i]), events[i])
  }

  /** Every ACK answers an event at which one was due, and acknowledges exactly the packets of the reference then. */
  ghost predicate AllFaithful(acks: seq<(nat, AckFrame)>, events: seq<Event>, upTo: nat)
    requires upTo <= |events|
  {
    && (forall a | a in acks :: a.0 < upTo && Answered(events, a.0) && Faithful(a.1, Replay(events[..a.0])))
    && (forall i | 0 <= i < upTo && Answered(events, i) :: exists a | a in acks :: a.0 == i)
    && forall i, j | 0 <= i < j < |acks| :: acks[i].0 < acks[j].0
  }

  lemma OneMore(acks: seq<(nat, AckFrame)>, events: seq<Event>, i: nat, ack: Option<AckFrame>)
    requires i < |events| && AllFaithful(acks, events, i) && (ack.Some? <==> Answered(events, i))
    requires ack.Some? ==> Faithful(ack.value, Replay(events[..i]))
    ensures AllFaithful(acks + if ack.Some? then [(i, ack.value)] else [], events, i + 1)
  {
    hide Answered, Faithful;
    var acks' := acks + if ack.Some? then [(i, ack.value)] else [];
    forall k | 0 <= k <= i && Answered(events, k) ensures exists a | a in acks' :: a.0 == k {
      if k == i {
        assert acks'[|acks|].0 == k && acks'[|acks|] in acks';
      } else {
        var a :| a in acks && a.0 == k;
        assert a in acks';
      }
    }
    forall k | 0 <= k < |acks| ensures acks[k].0 < i { assert acks[k] in acks; }
  }

  /**
   Over any run, the connection is closed exactly when a packet must be rejected; until then the history keeps the
   largest packet, so that every ACK that is asked for can be built; there is an ACK exactly when one is due; and each
   ACK is well-formed and acknowledges exactly the packets of the reference at that time.
   */
  method Acknowledge(events: seq<Event>) returns (acks: seq<(nat, AckFrame)>, ok: bool)
    requires forall e | e in events :: Carried(e)
    ensures AllFaithful(acks, events, |events|) && ok == !Replay(events).stopped
  {
    hide HistoryOk, AllFaithful, Rejects, AckDue, Faithful, Carried, Mirrors;
    var h := new ReceivedPacketHandler();
    acks, ok := [], true;
    var i := 0;
    AtFirst(h, events);
    assert events[..0] == [];
    while i < |events| && ok
      invariant 0 <= i <= |events| && fresh(h) && fresh(h.packetHistory)
      invariant ok == !Replay(events[..i]).stopped && (ok ==> Mirrors(h, Replay(events[..i])))
      invariant AllFaithful(acks, events, i)
    {
      var ack;
      ghost var r := Replay(events[..i]);
      ack, ok := Handle(h, events[i], r);
      OneMore(acks, events, i, ack);
      if ack.Some? {
        acks := acks + [(i, ack.value)];
      }
      assert acks + [] == acks && events[..i + 1][..i] == events[..i];
      i := i + 1;
    }
    if i < |events| {
      StaysStopped(events, i, acks);
    } else {
      assert events[..i] == events;
    }
  }

  lemma AtFirst(h: ReceivedPacketHandler, events: seq<Event>)
    requires h.Valid() && h.HasLargest() && h.packetHistory.receivedPacketNumbers == {} && h.ignorePacketsBelow == 0
    requires h.PendingAck() == Pending(false, None, 0, 0, None)
    ensures Mirrors(h, Replay([])) && AllFaithful([], events, 0)
  {
  }

  /** Nothing happens after the connection is closed. */
  lemma {:induction false} StaysStopped(events: seq<Event>, i: nat, acks: seq<(nat, AckFrame)>)
    requires i <= |events| && Replay(events[..i]).stopped && AllFaithful(acks, events, i)
    ensures Replay(events).stopped && AllFaithful(acks, events, |events|)
    decreases |events| - i
  {
    hide Faithful;
    if i < |events| {
      assert events[..i + 1][..i] == events[..i];
      StaysStopped(events, i + 1, acks);
    } else {
      assert events[..i] == events;
    }
  }

  // ---------- no packet waits too long ----------

  /** Time does not go backwards. */
  ghost predicate InTime(events: seq<Event>) {
    forall i, j | 0 <= i < j < |events| :: events[i].at <= events[j].at
  }

  /** An ACK will be due by then. */
  ghost predicate DueBy(d: Pending, latest: int) {
    d.queued || (d.alarm.Some? && d.alarm.value <= latest)
  }

  /** No alarm is set for later than a delay after the last event. */
  lemma {:induction false} AlarmIsSoon(events: seq<Event>, i: nat)
    requires InTime(events) && i < |events|
    ensures var d := Replay(events[..i + 1]).pending; d.alarm.Some? ==> d.alarm.value <= events[i].at + ACK_SEND_DELAY
  {
    hide MissingAbove, Full;
    assert events[..i + 1][..i] == events[..i];
    if i > 0 { AlarmIsSoon(events, i - 1); }
  }

  /** From the arrival of a packet that must be acknowledged on, an ACK is due within the delay, or has been sent. */
  lemma {:induction false} DueSince(events: seq<Event>, i: nat, j: nat)
    requires InTime(events) && i < j <= |events| && IsNew(Replay(events[..i]), events[i]) && events[i].instigatesAck
    requires !Replay(events[..j]).stopped
    ensures DueBy(Replay(events[..j]).pending, events[i].at + ACK_SEND_DELAY) || exists k | i < k < j ::
      Answered(events, k)
    decreases j
  {
    hide MissingAbove, Full;
    assert events[..j][..j - 1] == events[..j - 1];
    if j == i + 1 {
      if i > 0 { AlarmIsSoon(events, i - 1); }
      assert events[..i][..|events[..i]|] == events[..i];
    } else {
      DueSince(events, i, j - 1);
      if Answered(events, j - 1) {
        assert exists k | i < k < j :: Answered(events, k);
      } else if exists k | i < k < j - 1 :: Answered(events, k) {
        var k :| i < k < j - 1 && Answered(events, k);
        assert i < k < j && Answered(events, k);
      }
    }
  }

  /** A packet that was received stays in the record until it is ignored. */
  lemma {:induction false} StaysRecorded(events: seq<Event>, i: nat, k: nat)
    requires i < k <= |events| && IsNew(Replay(events[..i]), events[i]) && !Replay(events[..k]).stopped
    ensures events[i].number in Replay(events[..k]).numbers || events[i].number <= Replay(events[..k]).ignored
    decreases k
  {
    hide AfterArrival, Full;
    assert events[..k][..k - 1] == events[..k - 1];
    if k > i + 1 { StaysRecorded(events, i, k - 1); }
  }

  /**
   A packet that must be acknowledged is acknowledged at the latest when an ACK is asked for a delay after its arrival:
   by then some event is answered with an ACK of it, unless the peer has said that it does not wait for it.
   */
  lemma AcknowledgedInTime(events: seq<Event>, i: nat, j: nat)
    requires InTime(events) && i < j < |events| && IsNew(Replay(events[..i]), events[i]) && events[i].instigatesAck
    requires events[j].Ask? && events[j].at >= events[i].at + ACK_SEND_DELAY && !Replay(events[..j]).stopped
    ensures exists k | i < k <= j && Answered(events, k) ::
      events[i].number in Replay(events[..k]).numbers || events[i].number <= Replay(events[..k]).ignored
  {
    DueSince(events, i, j);
    var k := j;
    if !Answered(events, j) {
      k :| i < k < j && Answered(events, k);
    }
    StaysRecorded(events, i, k);
  }

  // ---------- when an ACK is due ----------

  /** A packet arrives that was not received before. */
  ghost predicate Arrives(events: seq<Event>, k: nat)
    requires k < |events|
  {
    IsNew(Replay(events[..k]), events[k])
  }

  /** How many packets arrive between two events, and how many of them must be acknowledged. */
  ghost function Arrivals(events: seq<Event>, from: nat, upTo: nat): nat
    requires from <= upTo <= |events|
    decreases upTo
  {
    if from == upTo then 0 else Arrivals(events, from, upTo - 1) + if Arrives(events, upTo - 1) then 1 else 0
  }

  ghost function Instigating(events: seq<Event>, from: nat, upTo: nat): nat
    requires from <= upTo <= |events|
    decreases upTo
  {
    if from == upTo then 0
    else
      Instigating(events, from, upTo - 1)
        + if Arrives(events, upTo - 1) && events[upTo - 1].instigatesAck then 1 else 0
  }

  /** From there on no ACK is sent, and there was one just before, or none at all. */
  ghost predicate SinceAck(events: seq<Event>, from: nat, upTo: nat) {
    && from <= upTo <= |events| && (from > 0 ==> Answered(events, from - 1))
    && forall k | from <= k < upTo :: !Answered(events, k)
  }

  /** The largest packet that was acknowledged before. */
  ghost function LastAcked(events: seq<Event>, from: nat): Option<nat>
    requires from <= |events|
  {
    if from == 0 then None else LargestOf(Replay(events[..from - 1]).numbers)
  }

  /**
   The packet must be acknowledged at once: there was no ACK before, or it is the twentieth packet since then, or the
   second of those that must be acknowledged, or it was missing in the last ACK, or another one is missing now.
   */
  ghost predicate AtOnce(events: seq<Event>, from: nat, k: nat)
    requires from <= k < |events|
  {
    && Arrives(events, k)
    && var last := LastAcked(events, from);
      || last == None || Arrivals(events, from, k + 1) >= 20
      || (events[k].instigatesAck && Instigating(events, from, k + 1) >= 2) || events[k].number < last.value
      || MissingAbove(Replay(events[..k]).numbers + {events[k].number}, last.value)
  }

  /** Since the last ACK, one is queued exactly if some packet must be acknowledged at once. */
  ghost predicate QueuedFor(events: seq<Event>, from: nat, upTo: nat)
    requires from <= upTo <= |events|
  {
    exists k | from <= k < upTo :: AtOnce(events, from, k)
  }

  /** What is pending, in terms of the packets that arrived since the last ACK. */
  ghost predicate PendingSince(d: Pending, events: seq<Event>, from: nat, upTo: nat)
    requires from <= upTo <= |events|
  {
    && d.packets == Arrivals(events, from, upTo) && d.retransmittable == Instigating(events, from, upTo)
    && d.last == LastAcked(events, from)
    && (d.queued <==> QueuedFor(events, from, upTo)) && (d.queued ==> d.alarm == None)
    && (forall k | from <= k < upTo && Arrives(events, k) && events[k].instigatesAck ::
      d.queued || d.alarm == Some(events[k].at + ACK_SEND_DELAY))
    && (d.alarm.Some? ==> Instigating(events, from, upTo) > 0)
  }

  lemma {:induction false} SomeInstigates(events: seq<Event>, from: nat, k: nat, upTo: nat)
    requires from <= k < upTo <= |events| && Arrives(events, k) && events[k].instigatesAck
    ensures Instigating(events, from, upTo) > 0
    decreases upTo
  {
    hide Arrives;
    if k < upTo - 1 { SomeInstigates(events, from, k, upTo - 1); }
  }

  lemma NothingPending(events: seq<Event>, from: nat)
    requires SinceAck(events, from, from) && !Replay(events[..from]).stopped
    ensures PendingSince(Replay(events[..from]).pending, events, from, from)
  {
    hide Full, IsNew, AfterArrival;
    if from > 0 { assert events[..from][..from - 1] == events[..from - 1]; }
  }

  /** An event that brings no new packet, and gets no ACK, changes nothing. */
  lemma NothingArrives(events: seq<Event>, from: nat, upTo: nat)
    requires from < upTo <= |events| && !Arrives(events, upTo - 1) && !Answered(events, upTo - 1)
    requires !Replay(events[..upTo]).stopped && !Replay(events[..upTo - 1]).stopped
    requires PendingSince(Replay(events[..upTo - 1]).pending, events, from, upTo - 1)
    ensures PendingSince(Replay(events[..upTo]).pending, events, from, upTo)
  {
    hide Full, IsNew, AfterArrival, MissingAbove, IsDue;
    assert events[..upTo][..upTo - 1] == events[..upTo - 1];
    QueuedForOneMore(events, from, upTo);
  }

  lemma QueuedForOneMore(events: seq<Event>, from: nat, upTo: nat)
    requires from < upTo <= |events|
    ensures QueuedFor(events, from, upTo) <==> QueuedFor(events, from, upTo - 1) || AtOnce(events, from, upTo - 1)
  {
    hide AtOnce;
    if QueuedFor(events, from, upTo - 1) {
      var k :| from <= k < upTo - 1 && AtOnce(events, from, k);
      assert from <= k < upTo;
    }
  }

  lemma OneArrives(events: seq<Event>, from: nat, upTo: nat)
    requires from < upTo <= |events| && Arrives(events, upTo - 1)
    requires !Replay(events[..upTo]).stopped && !Replay(events[..upTo - 1]).stopped
    requires PendingSince(Replay(events[..upTo - 1]).pending, events, from, upTo - 1)
    ensures PendingSince(Replay(events[..upTo]).pending, events, from, upTo)
  {
    hide Full, MissingAbove;
    var d, d' := Replay(events[..upTo - 1]).pending, Replay(events[..upTo]).pending;
    var e, numbers := events[upTo - 1], Replay(events[..upTo - 1]).numbers;
    assert events[..upTo][..upTo - 1] == events[..upTo - 1];
    assert d' == AfterArrival(d, numbers + {e.number}, e.number, e.instigatesAck, e.at);
    QueuedForOneMore(events, from, upTo);
    forall k | from <= k < upTo && Arrives(events, k) && events[k].instigatesAck
      ensures d'.queued || d'.alarm == Some(events[k].at + ACK_SEND_DELAY)
    {
      if k < upTo - 1 { SomeInstigates(events, from, k, upTo - 1); }
    }
  }

  /**
   At every time, an ACK is queued exactly if one of the packets since the last ACK must be acknowledged at once; if
   not, the alarm is set for a delay after the packet that must be acknowledged, if there is one.
   */
  lemma {:induction false} PendingExactly(events: seq<Event>, from: nat, upTo: nat)
    requires SinceAck(events, from, upTo) && !Replay(events[..upTo]).stopped
    ensures PendingSince(Replay(events[..upTo]).pending, events, from, upTo)
    decreases upTo
  {
    hide PendingSince, Rejects, AckDue, Arrives, Answered;
    if from == upTo {
      NothingPending(events, from);
    } else {
      assert events[..upTo][..upTo - 1] == events[..upTo - 1];
      PendingExactly(events, from, upTo - 1);
      if Arrives(events, upTo - 1) {
        OneArrives(events, from, upTo);
      } else {
        NothingArrives(events, from, upTo);
      }
    }
  }
}
