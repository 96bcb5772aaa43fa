/** The table of open streams (streams_map.go). */
module StreamsMap {
  import opened Common
  import opened Arithmetic
  import opened Schedule

  const MAX_NEW_STREAM_ID_DELTA: nat := 400

  /** Streams that the peer opens have odd numbers at the server, and even ones at the client. */
  predicate IsPeers(p: Perspective, id: nat) {
    if p == Server then id % 2 == 1 else id % 2 == 0
  }

  function Ids(q: seq<nat>): set<nat> {
    set id | id in q
  }

  /** The streams with an even number (parity 0), or with an odd one. */
  function CountParity(q: seq<nat>, parity: nat): nat {
    if q == [] then 0 else CountParity(q[..|q| - 1], parity) + if q[|q| - 1] % 2 == parity then 1 else 0
  }

  lemma {:induction false} CountSnoc(q: seq<nat>, id: nat, parity: nat)
    ensures CountParity(q + [id], parity) == CountParity(q, parity) + if id % 2 == parity then 1 else 0
  {
    assert (q + [id])[..|q|] == q;
  }

  lemma {:induction false} CountRemove(q: seq<nat>, i: nat, parity: nat)
    requires i < |q|
    ensures CountParity(q, parity) == CountParity(q[..i] + q[i + 1..], parity) + if q[i] % 2 == parity then 1 else 0
  {
    var front, last := q[..|q| - 1], q[|q| - 1];
    if i == |q| - 1 {
      assert q[..i] + q[i + 1..] == front;
    } else {
      CountRemove(front, i, parity);
      assert q[..i] + q[i + 1..] == (front[..i] + front[i + 1..]) + [last];
      CountSnoc(front[..i] + front[i + 1..], last, parity);
    }
  }

  /** The numbers of the next k streams of the peer. */
  function NextIds(first: nat, k: nat): (ids: seq<nat>)
    ensures |ids| == k
  {
    seq(k, i => first + 2 * i)
  }

  ghost predicate AllCreated(first: nat, k: nat, creates: nat -> bool) {
    forall i | 0 <= i < k :: creates(NextIds(first, k)[i])
  }

  lemma NoIds(first: nat, creates: nat -> bool)
    ensures NextIds(first, 0) == [] && AllCreated(first, 0, creates)
  {
  }

  lemma OneMoreId(open: seq<nat>, first: nat, k: nat, creates: nat -> bool)
    requires AllCreated(first, k, creates) && creates(first + 2 * k)
    ensures open + NextIds(first, k) + [first + 2 * k] == open + NextIds(first, k + 1)
      && AllCreated(first, k + 1, creates)
  {
    assert NextIds(first, k + 1) == NextIds(first, k) + [first + 2 * k];
  }

  datatype OpenResult = Existing | Closed | Opened | InvalidStreamID | TooManyOpenStreams | NotCreated

  /** The next number that a peer uses after the highest one so far. */
  function FirstAfter(p: Perspective, highest: nat): nat {
    if highest == 0 && p == Server then 1 else highest + 2
  }

  /** The open streams, the next number of this side, the highest of the peer, and how many are open on either side. */
  datatype Table = Table(streams: set<nat>, next: nat, highest: nat, outgoing: int, incoming: int)

  ghost function AfterOwn(p: Perspective, t: Table): Table {
    t.(streams := t.streams + {t.next}, next := t.next + 2, outgoing := t.outgoing + (if p == Server then 1 else 0),
      incoming := t.incoming + if p == Server then 0 else 1)
  }

  /** The code counts the streams of the server's peer as incoming, and those of the client's peer as outgoing. */
  ghost function AfterPeer(p: Perspective, t: Table, id: nat): Table {
    t.(streams := t.streams + {id}, highest := id, outgoing := t.outgoing + (if p == Server then 0 else 1), incoming :=
      t.incoming + if p == Server then 1 else 0)
  }

  /** All streams of the peer up to a number, until too many are open or one cannot be created. */
  ghost function AfterPeers(p: Perspective, t: Table, id: nat, maxIncoming: nat, creates: nat -> bool): Table
    decreases id + 2 - Min(t.highest, id + 2)
  {
    var first := FirstAfter(p, t.highest);
    if first > id || t.incoming >= maxIncoming || !creates(first) then t
    else AfterPeers(p, AfterPeer(p, t, first), id, maxIncoming, creates)
  }

  ghost function AfterFrame(p: Perspective, t: Table, id: nat, maxIncoming: nat, creates: nat -> bool): Table {
    if id in t.streams || id <= t.highest || !IsPeers(p, id) then t else AfterPeers(p, t, id, maxIncoming, creates)
  }

  ghost function AfterRemoval(t: Table, id: nat): Table {
    if id !in t.streams then t
    else t.(streams := t.streams - {id}, outgoing := t.outgoing - (if id % 2 == 0 then 1 else 0), incoming :=
      t.incoming - if id % 2 == 0 then 0 else 1)
  }

  /** The table: what is open, listed once, counted, and below what has been opened by either side. */
  ghost predicate TableOk(p: Perspective, streams: set<nat>, open: seq<nat>, index: nat, next: nat, highest: nat,
    outgoing: nat, incoming: nat) {
    && streams == Ids(open) && Distinct(open) && index <= |open|
    && outgoing == CountParity(open, 0) && incoming == CountParity(open, 1)
    && next > 0 && !IsPeers(p, next) && (highest == 0 || IsPeers(p, highest))
    && forall id | id in open :: 0 < id && if IsPeers(p, id) then id <= highest else id < next
  }

  /** A stream is put into the table. */
  lemma PutOk(p: Perspective, streams: set<nat>, open: seq<nat>, index: nat, next: nat, highest: nat, outgoing: nat,
    incoming: nat, id: nat)
    requires TableOk(p, streams, open, index, next, highest, outgoing, incoming)
    requires id > 0 && if IsPeers(p, id) then highest < id else id == next
    ensures id !in streams
    ensures TableOk(p, streams + {id}, open + [id], index, if IsPeers(p, id) then next else next + 2,
      if IsPeers(p, id) then id else highest,
      outgoing + if id % 2 == 0 then 1 else 0, incoming + if id % 2 == 1 then 1 else 0)
  {
    CountSnoc(open, id, 0);
    CountSnoc(open, id, 1);
    assert Ids(open + [id]) == streams + {id};
  }

  /** A stream is taken out of the table. */
  lemma RemoveOk(p: Perspective, streams: set<nat>, open: seq<nat>, index: nat, next: nat, highest: nat, outgoing: nat,
    incoming: nat, i: nat)
    requires TableOk(p, streams, open, index, next, highest, outgoing, incoming) && i < |open|
    ensures open[i] !in open[..i] && open[i] !in open[i + 1..]
    ensures if open[i] % 2 == 0 then outgoing > 0 else incoming > 0
    ensures TableOk(p, streams - {open[i]}, open[..i] + open[i + 1..], if i < index then index - 1 else index, next,
      highest,
      outgoing - if open[i] % 2 == 0 then 1 else 0, incoming - if open[i] % 2 == 1 then 1 else 0)
  {
    var left := open[..i] + open[i + 1..];
    CountRemove(open, i, 0);
    CountRemove(open, i, 1);
    forall id ensures id in left <==> id in open && id != open[i] {
      if id in open && id != open[i] {
        var j :| 0 <= j < |open| && open[j] == id;
        assert left[if j < i then j else j - 1] == id;
      }
    }
    assert Ids(left) == streams - {open[i]};
  }

  lemma {:induction false} CardinalityOfList(q: seq<nat>)
    requires Distinct(q)
    ensures |Ids(q)| == |q|
  {
    if q != [] {
      var front, last := q[..|q| - 1], q[|q| - 1];
      CardinalityOfList(front);
      assert q == front + [last] && last !in front;
      assert Ids(q) == Ids(front) + {last};
    }
  }

  lemma IndexOf(open: seq<nat>, index: nat, i: nat)
    requires index <= |open| && i < |open|
    ensures Rotated(open, index)[i] == open[Mod(i + index, |open|)]
  {
    OneWrap(i + index, |open|);
  }

  lemma OneStep(start: nat, k: nat, n: nat)
    requires start <= n && k < n
    ensures Mod(Mod(start + k, n) + 1, n) == Mod(start + k + 1, n)
  {
    OneWrap(start + k, n);
    OneWrap(start + k + 1, n);
    OneWrap(Mod(start + k, n) + 1, n);
  }

  /** The stream at position i is passed over, or is the next in the order. */
  lemma NextInOrder(q: seq<nat>, i: nat, fn: Callback)
    requires i < |q|
    ensures q[i] in {1, 3} ==> Others(q[i..]) == Others(q[i + 1..])
    ensures q[i] !in {1, 3} ==>
      Until(Others(q[i..]), fn) == [q[i]] + if fn(q[i]) == Continue then Until(Others(q[i + 1..]), fn) else []
  {
    assert q[i..][1..] == q[i + 1..];
  }

  ghost predicate AllContinue(p: seq<nat>, fn: Callback) {
    forall id | id in p :: fn(id) == Continue
  }

  lemma {:induction false} UntilPast(p: seq<nat>, q: seq<nat>, fn: Callback)
    requires AllContinue(p, fn)
    ensures Until(p + q, fn) == p + Until(q, fn)
  {
    if p == [] {
      assert p + q == q;
    } else {
      var tail := p[1..];
      assert p[0] in p && AllContinue(tail, fn);
      UntilPast(tail, q, fn);
      assert (p + q)[0] == p[0] && (p + q)[1..] == tail + q;
      assert p == [p[0]] + tail;
    }
  }

  lemma {:induction false} UntilStops(p: seq<nat>, q: seq<nat>, fn: Callback)
    requires !AllContinue(p, fn)
    ensures Until(p + q, fn) == Until(p, fn)
    ensures Until(p, fn) != [] && fn(Until(p, fn)[|Until(p, fn)| - 1]) != Continue
  {
    var tail := p[1..];
    assert (p + q)[0] == p[0] && (p + q)[1..] == tail + q;
    if fn(p[0]) == Continue {
      assert p == [p[0]] + tail;
      UntilStops(tail, q, fn);
    }
  }

  /** The callback for all streams but the special ones, beginning at the index, which moves on with each of them. */
  method ServeInTurn(openStreams: seq<nat>, numStreams: nat, startIndex: nat, fn: Callback)
    returns (served: seq<nat>, failed: bool, index: nat)
    requires numStreams == |openStreams| && startIndex <= |openStreams|
    ensures served == Served(openStreams, startIndex, fn)
    ensures index == Advance(openStreams, startIndex, fn)
    ensures failed <==> served != [] && fn(served[|served| - 1]) == Fail
  {
    hide Until, Others, Rotated, AllContinue, Served, Advance, Mod, Count;
    ghost var q := Rotated(openStreams, startIndex);
    served, index := [], startIndex;
    NoneServed(q, fn);
    var i := 0;
    while i < numStreams
      invariant 0 <= i <= numStreams && |served| <= i
      invariant served + Until(Others(q[i..]), fn) == Until(Others(q), fn)
      invariant AllContinue(served, fn)
      invariant index == if |served| == 0 then startIndex else Mod(startIndex + |served|, numStreams)
    {
      IndexOf(openStreams, startIndex, i);
      var streamID := openStreams[Mod(i + startIndex, numStreams)];
      NextInOrder(q, i, fn);
      if streamID == 1 || streamID == 3 {
        i := i + 1;
        continue;
      }
      OneMoreServed(served, streamID, Until(Others(q[i + 1..]), fn), fn);
      served := served + [streamID];
      if fn(streamID) == Fail {
        AreServed(openStreams, startIndex, served, fn);
        return served, true, index;
      }
      OneStep(startIndex, |served| - 1, numStreams);
      index := Mod(index + 1, numStreams);
      if fn(streamID) == Stop {
        AreServed(openStreams, startIndex, served, fn);
        return served, false, index;
      }
      i := i + 1;
    }
    AllServed(q, i, served, fn);
    AreServed(openStreams, startIndex, served, fn);
    return served, false, index;
  }

  lemma AreServed(open: seq<nat>, start: nat, served: seq<nat>, fn: Callback)
    requires start <= |open| && served == Until(Others(Rotated(open, start)), fn) && (open == [] ==> served == [])
    ensures served == Served(open, start, fn)
    ensures Advance(open, start, fn) == var k := Count(served, fn); if k == 0 then start else Mod(start + k, |open|)
  {
  }

  lemma NoneServed(q: seq<nat>, fn: Callback)
    ensures [] + Until(Others(q[0..]), fn) == Until(Others(q), fn) && AllContinue([], fn)
  {
    assert q[0..] == q;
  }

  lemma AllServed(q: seq<nat>, i: nat, served: seq<nat>, fn: Callback)
    requires i == |q| && AllContinue(served, fn)
    ensures served + Until(Others(q[i..]), fn) == served && (served != [] ==> fn(served[|served| - 1]) == Continue)
    ensures Count(served, fn) == |served|
  {
  }

  lemma OneMoreServed(served: seq<nat>, id: nat, rest: seq<nat>, fn: Callback)
    requires AllContinue(served, fn)
    ensures served + ([id] + rest) == (served + [id]) + rest && served + ([id] + []) == served + [id]
    ensures fn(id) == Continue ==> AllContinue(served + [id], fn)
    ensures Count(served + [id], fn) == if fn(id) == Fail then |served| else |served| + 1
  {
  }

  lemma OrderKept(open: seq<nat>, more: seq<nat>, index: nat)
    requires Distinct(open + more) && index <= |open|
    ensures Without(Rotated(open + more, index), Ids(more)) == Rotated(open, index)
  {
    forall i, j | 0 <= i < |open| && 0 <= j < |more| ensures open[i] != more[j] {
      assert (open + more)[i] != (open + more)[|open| + j];
    }
    OpeningKeepsOrder(open, more, Ids(more), index);
  }

  lemma NothingOpened(open: seq<nat>, index: nat)
    requires index <= |open|
    ensures open + [] == open && Without(Rotated(open, index), Ids([])) == Rotated(open, index)
  {
    WithoutNone(Rotated(open, index), Ids([]));
  }

  class Map {
    const perspective: Perspective
    var streams: set<nat>
    var openStreams: seq<nat>
    var roundRobinIndex: nat
    var nextStream: nat
    var highestStreamOpenedByPeer: nat
    var numOutgoingStreams: nat
    var numIncomingStreams: nat

    ghost predicate Valid()
      reads this
    {
      TableOk(perspective, streams, openStreams, roundRobinIndex, nextStream, highestStreamOpenedByPeer,
        numOutgoingStreams, numIncomingStreams)
    }

    constructor (p: Perspective)
      ensures Valid() && perspective == p && openStreams == [] && highestStreamOpenedByPeer == 0
    {
      perspective, streams, openStreams, roundRobinIndex := p, {}, [], 0;
      nextStream := if p == Client then 1 else 2;
      highestStreamOpenedByPeer, numOutgoingStreams, numIncomingStreams := 0, 0, 0;
    }

    method PutStream(id: nat) returns (ok: bool)
      modifies this`streams, this`openStreams
      ensures ok <==> id !in old(streams)
      ensures streams == old(streams) + {id} && openStreams == old(openStreams) + if ok then [id] else []
    {
      if id in streams {
        return false;
      }
      streams, openStreams := streams + {id}, openStreams + [id];
      return true;
    }

    /** Opens a stream of the peer. A number above all others is never too far below the highest. */
    method OpenRemoteStream(id: nat, maxIncoming: nat, creates: nat -> bool) returns (r: OpenResult)
      requires Valid() && id > highestStreamOpenedByPeer && IsPeers(perspective, id)
      modifies this
      ensures Valid() && r in {Opened, TooManyOpenStreams, NotCreated}
      ensures r == TooManyOpenStreams <==> old(numIncomingStreams) >= maxIncoming
      ensures r == NotCreated <==> old(numIncomingStreams) < maxIncoming && !creates(id)
      ensures r == Opened ==> openStreams == old(openStreams) + [id] && highestStreamOpenedByPeer == id
      ensures r != Opened ==>
        openStreams == old(openStreams) && highestStreamOpenedByPeer == old(highestStreamOpenedByPeer)
      ensures numIncomingStreams == old(numIncomingStreams) + if r == Opened && perspective == Server then 1 else 0
      ensures id !in old(openStreams) && roundRobinIndex == old(roundRobinIndex) && nextStream == old(nextStream)
      ensures streams == old(streams) + (if r == Opened then {id} else {}) && id !in old(streams)
      ensures GetTable() == if r == Opened then AfterPeer(perspective, old(GetTable()), id) else old(GetTable())
    {
      hide Distinct, CountParity;
      PutOk(perspective, streams, openStreams, roundRobinIndex, nextStream, highestStreamOpenedByPeer,
        numOutgoingStreams, numIncomingStreams, id);
      if numIncomingStreams >= maxIncoming {
        return TooManyOpenStreams;
      }
      if id + MAX_NEW_STREAM_ID_DELTA < highestStreamOpenedByPeer {
        return InvalidStreamID;
      }
      if !creates(id) {
        return NotCreated;
      }
      if perspective == Server {
        numIncomingStreams := numIncomingStreams + 1;
      } else {
        numOutgoingStreams := numOutgoingStreams + 1;
      }
      if id > highestStreamOpenedByPeer {
        highestStreamOpenedByPeer := id;
      }
      var _ := PutStream(id);
      return Opened;
    }

    /** Opens a stream of this side. */
    method OpenStream(maxOutgoing: nat, creates: nat -> bool) returns (r: OpenResult)
      requires Valid()
      modifies this
      ensures Valid() && r in {Opened, TooManyOpenStreams, NotCreated}
      ensures r == TooManyOpenStreams <==> old(numOutgoingStreams) >= maxOutgoing
      ensures r == NotCreated <==> old(numOutgoingStreams) < maxOutgoing && !creates(old(nextStream))
      ensures r == Opened ==> openStreams == old(openStreams) + [old(nextStream)] && nextStream == old(nextStream) + 2
      ensures r != Opened ==> openStreams == old(openStreams) && nextStream == old(nextStream)
      ensures old(nextStream) !in old(openStreams) && roundRobinIndex == old(roundRobinIndex)
      ensures streams == old(streams) + (if r == Opened then {old(nextStream)} else {})
        && old(nextStream) !in old(streams) && old(nextStream) > 0
      ensures highestStreamOpenedByPeer == old(highestStreamOpenedByPeer)
      ensures GetTable() == if r == Opened then AfterOwn(perspective, old(GetTable())) else old(GetTable())
      ensures r == Opened ==>
        Without(Rotated(openStreams, roundRobinIndex), {old(nextStream)}) == old(Rotated(openStreams, roundRobinIndex))
    {
      hide Distinct, CountParity, Without, Rotated;
      var id := nextStream;
      PutOk(perspective, streams, openStreams, roundRobinIndex, nextStream, highestStreamOpenedByPeer,
        numOutgoingStreams, numIncomingStreams, id);
      OpeningKeepsOrder(openStreams, [id], {id}, roundRobinIndex);
      if numOutgoingStreams >= maxOutgoing {
        return TooManyOpenStreams;
      }
      if !creates(id) {
        return NotCreated;
      }
      if perspective == Server {
        numOutgoingStreams := numOutgoingStreams + 1;
      } else {
        numIncomingStreams := numIncomingStreams + 1;
      }
      nextStream := nextStream + 2;
      var _ := PutStream(id);
      return Opened;
    }

    /** The number after the highest that the peer has opened. */
    function FirstNew(): nat
      reads this
    {
      FirstAfter(perspective, highestStreamOpenedByPeer)
    }

    ghost function GetTable(): Table
      reads this
    {
      Table(streams, nextStream, highestStreamOpenedByPeer, numOutgoingStreams, numIncomingStreams)
    }

    lemma FirstIsPeers()
      requires Valid()
      ensures highestStreamOpenedByPeer < FirstNew() && IsPeers(perspective, FirstNew())
    {
    }

    /**
     Finds a stream, or opens it with all streams of the peer below it that were not open yet, in increasing order; when
     one of them cannot be opened, the k streams before it stay open.
     */
    method GetOrOpenStream(id: nat, maxIncoming: nat, creates: nat -> bool) returns (r: OpenResult, k: nat)
      requires Valid()
      modifies this
      ensures Valid() && roundRobinIndex == old(roundRobinIndex) && nextStream == old(nextStream)
      ensures r == Existing <==> id in old(streams)
      ensures r == Closed <==> id !in old(streams) && id <= old(highestStreamOpenedByPeer)
      ensures r == InvalidStreamID <==>
        id !in old(streams) && id > old(highestStreamOpenedByPeer) && !IsPeers(perspective, id)
      ensures r in {Existing, Closed, InvalidStreamID} ==> k == 0
      ensures openStreams == old(openStreams) + NextIds(old(FirstNew()), k) && AllCreated(old(FirstNew()), k, creates)
      ensures r == Opened ==> k > 0 && old(FirstNew()) + 2 * k == id + 2
      ensures r == TooManyOpenStreams ==> numIncomingStreams >= maxIncoming && old(FirstNew()) + 2 * k <= id
      ensures r == NotCreated ==> old(FirstNew()) + 2 * k <= id && !creates(old(FirstNew()) + 2 * k)
      ensures perspective == Server ==> numIncomingStreams <= Max(old(numIncomingStreams), maxIncoming)
      ensures highestStreamOpenedByPeer
        == if k == 0 then old(highestStreamOpenedByPeer) else old(FirstNew()) + 2 * (k - 1)
      ensures Without(Rotated(openStreams, roundRobinIndex), Ids(NextIds(old(FirstNew()), k)))
        == old(Rotated(openStreams, roundRobinIndex))
      ensures GetTable() == AfterFrame(perspective, old(GetTable()), id, maxIncoming, creates)
    {
      hide Without, Rotated, Distinct, CountParity;
      ghost var open, first := openStreams, FirstNew();
      NothingOpened(openStreams, roundRobinIndex);
      NoIds(first, creates);
      if id in streams {
        return Existing, 0;
      }
      if id <= highestStreamOpenedByPeer {
        return Closed, 0;
      }
      if !IsPeers(perspective, id) {
        return InvalidStreamID, 0;
      }
      r, k := OpenUpTo(id, maxIncoming, creates);
      OrderKept(open, NextIds(first, k), roundRobinIndex);
    }

    method OpenUpTo(id: nat, maxIncoming: nat, creates: nat -> bool) returns (r: OpenResult, k: nat)
      requires Valid() && id > highestStreamOpenedByPeer && IsPeers(perspective, id)
      modifies this
      ensures Valid() && roundRobinIndex == old(roundRobinIndex) && nextStream == old(nextStream)
      ensures r in {Opened, TooManyOpenStreams, NotCreated}
      ensures openStreams == old(openStreams) + NextIds(old(FirstNew()), k) && AllCreated(old(FirstNew()), k, creates)
      ensures r == Opened ==> k > 0 && old(FirstNew()) + 2 * k == id + 2
      ensures r == TooManyOpenStreams ==> numIncomingStreams >= maxIncoming && old(FirstNew()) + 2 * k <= id
      ensures r == NotCreated ==> old(FirstNew()) + 2 * k <= id && !creates(old(FirstNew()) + 2 * k)
      ensures perspective == Server ==> numIncomingStreams <= Max(old(numIncomingStreams), maxIncoming)
      ensures highestStreamOpenedByPeer
        == if k == 0 then old(highestStreamOpenedByPeer) else old(FirstNew()) + 2 * (k - 1)
      ensures GetTable() == AfterPeers(perspective, old(GetTable()), id, maxIncoming, creates)
    {
      hide TableOk, NextIds, AllCreated;
      var sid := highestStreamOpenedByPeer + 2;
      if sid == 2 && perspective == Server {
        sid := 1;
      }
      ghost var open, first := openStreams, sid;
      NextIsPeers(id);
      NoIds(first, creates);
      k := 0;
      while sid <= id
        invariant Valid() && IsPeers(perspective, sid) && highestStreamOpenedByPeer < sid == first + 2 * k <= id + 2
        invariant roundRobinIndex == old(roundRobinIndex) && nextStream == old(nextStream)
        invariant openStreams == open + NextIds(first, k) && AllCreated(first, k, creates)
        invariant perspective == Server ==> numIncomingStreams <= Max(old(numIncomingStreams), maxIncoming)
        invariant highestStreamOpenedByPeer
          == if k == 0 then old(highestStreamOpenedByPeer) else first + 2 * (k - 1)
        invariant FirstNew() == sid && AfterPeers(perspective, GetTable(), id, maxIncoming, creates)
          == AfterPeers(perspective, old(GetTable()), id, maxIncoming, creates)
      {
        r := OpenRemoteStream(sid, maxIncoming, creates);
        if r != Opened {
          return;
        }
        OneMoreId(open, first, k, creates);
        k := k + 1;
        sid := sid + 2;
      }
      return Opened, k;
    }

    lemma NextIsPeers(id: nat)
      requires Valid() && id > highestStreamOpenedByPeer && IsPeers(perspective, id)
      ensures IsPeers(perspective, FirstNew()) && highestStreamOpenedByPeer < FirstNew() <= id
    {
    }

    /** Removes a stream; the order in which the others are served stays the same. */
    method RemoveStream(id: nat) returns (ok: bool)
      requires Valid()
      modifies this
      ensures Valid() && (ok <==> id in old(streams)) && streams == old(streams) - {id}
      ensures Rotated(openStreams, roundRobinIndex)
        == if ok then Without(old(Rotated(openStreams, roundRobinIndex)), {id})
        else old(Rotated(openStreams, roundRobinIndex))
      ensures nextStream == old(nextStream) && highestStreamOpenedByPeer == old(highestStreamOpenedByPeer)
      ensures GetTable() == AfterRemoval(old(GetTable()), id)
    {
      hide Distinct, CountParity, Without, Rotated;
      if id !in streams {
        return false;
      }
      var i := 0;
      while openStreams[i] != id
        invariant 0 <= i < |openStreams| && id !in openStreams[..i]
        decreases |openStreams| - i
      {
        i := i + 1;
      }
      RemoveOk(perspective, streams, openStreams, roundRobinIndex, nextStream, highestStreamOpenedByPeer,
        numOutgoingStreams, numIncomingStreams, i);
      RemovingKeepsOrder(openStreams, i, roundRobinIndex);
      if id % 2 == 0 {
        numOutgoingStreams := numOutgoingStreams - 1;
      } else {
        numIncomingStreams := numIncomingStreams - 1;
      }
      openStreams := openStreams[..i] + openStreams[i + 1..];
      if i < roundRobinIndex {
        roundRobinIndex := roundRobinIndex - 1;
      }
      streams := streams - {id};
      return true;
    }

    /** The callback for the crypto stream and the header stream, if they are open. */
    method ServeSpecial(fn: Callback) returns (visited: seq<nat>, past: bool)
      requires Valid()
      ensures visited == Until(Special(openStreams), fn)
      ensures past <==> AllContinue(Special(openStreams), fn)
    {
      visited := [];
      if 1 in streams {
        visited := [1];
        if fn(1) != Continue {
          return visited, false;
        }
      }
      if 3 in streams {
        visited := visited + [3];
        if fn(3) != Continue {
          return visited, false;
        }
      }
      return visited, true;
    }

    /**
     Serves the streams in their order, until the callback says to stop: the crypto stream, the header stream, and then
     the others in turn.
     */
    method RoundRobinIterate(fn: Callback) returns (visited: seq<nat>, failed: bool)
      requires Valid()
      modifies this`roundRobinIndex
      ensures Valid() && visited == Until(Order(openStreams, old(roundRobinIndex)), fn)
      ensures failed <==> visited != [] && fn(visited[|visited| - 1]) == Fail
      ensures AllContinue(Special(openStreams), fn) ==>
        && visited == Special(openStreams) + Served(openStreams, old(roundRobinIndex), fn)
        && roundRobinIndex == Advance(openStreams, old(roundRobinIndex), fn)
      ensures !AllContinue(Special(openStreams), fn) ==> roundRobinIndex == old(roundRobinIndex)
    {
      hide Distinct, CountParity, Until, Special, Others, Advance, AllContinue;
      CardinalityOfList(openStreams);
      var numStreams, startIndex := |streams|, roundRobinIndex;
      var past;
      visited, past := ServeSpecial(fn);
      ghost var special, others := Special(openStreams), Others(Rotated(openStreams, roundRobinIndex));
      if !past {
        UntilStops(special, others, fn);
        return visited, fn(visited[|visited| - 1]) == Fail;
      }
      UntilPast(special, others, fn);
      UntilPast(special, [], fn);
      LastOf(special, fn);
      var served;
      served, failed, roundRobinIndex := ServeInTurn(openStreams, numStreams, startIndex, fn);
      visited := visited + served;
    }
  }

  lemma LastOf(p: seq<nat>, fn: Callback)
    requires AllContinue(p, fn)
    ensures p != [] ==> fn(p[|p| - 1]) == Continue
    ensures p + [] == p && Until([], fn) == []
  {
  }

  /**
   Calls with any callbacks that get past the special streams and never fail: they serve all other streams, if they are
   enough.
   */
  method ServeAll(m: Map, fns: seq<Callback>) returns (visits: seq<seq<nat>>)
    requires m.Valid()
    requires forall fn | fn in fns :: NeverFails(fn) && AllContinue(Special(m.openStreams), fn)
    modifies m`roundRobinIndex
    ensures m.Valid() && |visits| == |fns|
    ensures |fns| >= |m.openStreams| > 0 ==>
      forall id | id in m.openStreams :: exists j | 0 <= j < |visits| :: id in visits[j]
  {
    hide TableOk, Special, Advance, Served, Order, Until, NeverFails, AllContinue, AdvanceAll, Visited, Rotated;
    visits := [];
    ghost var open, index := m.openStreams, m.roundRobinIndex;
    IndexInside(m);
    NoCall(open, index, fns);
    while |visits| < |fns|
      invariant |visits| <= |fns| && m.Valid()
      invariant m.roundRobinIndex == AdvanceAll(open, index, fns, |visits|)
      invariant Visited(open, index, fns, visits)
    {
      IndexInside(m);
      OneMoreCall(open, index, fns, |visits|);
      var visited, _ := m.RoundRobinIterate(fns[|visits|]);
      OneMoreVisit(open, index, fns, visits, visited);
      visits := visits + [visited];
    }
    if |fns| >= |open| > 0 {
      AllInTurn(open, index, fns, visits);
    }
  }

  /** What each call visits. */
  ghost predicate Visited(open: seq<nat>, index: nat, fns: seq<Callback>, visits: seq<seq<nat>>)
    requires index <= |open|
  {
    |visits| <= |fns| && forall j | 0 <= j < |visits| ::
      visits[j] == Special(open) + Served(open, AdvanceAll(open, index, fns, j), fns[j])
  }

  lemma OneMoreVisit(open: seq<nat>, index: nat, fns: seq<Callback>, visits: seq<seq<nat>>, visited: seq<nat>)
    requires index <= |open| && Visited(open, index, fns, visits) && |visits| < |fns|
    requires visited == Special(open) + Served(open, AdvanceAll(open, index, fns, |visits|), fns[|visits|])
    ensures Visited(open, index, fns, visits + [visited])
  {
    hide Special, Served, AdvanceAll;
  }

  lemma AllInTurn(open: seq<nat>, index: nat, fns: seq<Callback>, visits: seq<seq<nat>>)
    requires index <= |open| && |visits| == |fns| >= |open| > 0 && forall fn | fn in fns :: NeverFails(fn)
    requires Visited(open, index, fns, visits)
    ensures forall id | id in open :: exists j | 0 <= j < |visits| :: id in visits[j]
  {
    hide Special, Served, AdvanceAll, NeverFails;
    forall id | id in open ensures exists j | 0 <= j < |visits| :: id in visits[j] {
      if id in {1, 3} {
        SpecialIsServed(open, id);
        assert id in visits[0];
      } else {
        var j := Fair(open, index, fns, id);
        assert id in visits[j];
      }
    }
  }

  lemma NoCall(open: seq<nat>, index: nat, fns: seq<Callback>)
    requires index <= |open|
    ensures AdvanceAll(open, index, fns, 0) == index && Visited(open, index, fns, [])
  {
  }

  lemma OneMoreCall(open: seq<nat>, index: nat, fns: seq<Callback>, j: nat)
    requires index <= |open| && j < |fns|
    ensures AdvanceAll(open, index, fns, j + 1) == Advance(open, AdvanceAll(open, index, fns, j), fns[j])
  {
  }

  lemma IndexInside(m: Map)
    requires m.Valid()
    ensures m.roundRobinIndex <= |m.openStreams|
  {
  }

  lemma SpecialIsServed(open: seq<nat>, id: nat)
    requires id in open && id in {1, 3}
    ensures id in Special(open)
  {
  }

  // ---------- numbers are not used again ----------

  /** This side opens a stream, a frame arrives for a stream, or a stream is removed. */
  datatype TableEvent = OpenOwn(maxOutgoing: nat) | FrameFor(id: nat, maxIncoming: nat) | Remove(id: nat)

  /** The table after the events. */
  ghost function Replay(p: Perspective, t: Table, events: seq<TableEvent>, creates: nat -> bool): Table {
    if events == [] then t
    else
      var n := |events| - 1;
      var before := Replay(p, t, events[..n], creates);
      match events[n]
      case OpenOwn(maxOutgoing) =>
        if before.outgoing < maxOutgoing && creates(before.next) then AfterOwn(p, before) else before
      case FrameFor(id, maxIncoming) => AfterFrame(p, before, id, maxIncoming, creates)
      case Remove(id) => AfterRemoval(before, id)
  }

  /** The number is not above those that its side has opened. */
  ghost predicate Used(p: Perspective, next: nat, highest: nat, id: nat) {
    if IsPeers(p, id) then id <= highest else id < next
  }

  /**
   Streams that were opened since the table was (next0, highest0) are new, and none was opened twice. All numbers that
   are used now and were not then are among them.
   */
  ghost predicate OpenedOnce(p: Perspective, started: seq<nat>, next0: nat, highest0: nat, next: nat, highest: nat) {
    && next0 <= next && highest0 <= highest && Distinct(started)
    && (forall id | id in started :: Used(p, next, highest, id) && !Used(p, next0, highest0, id))
    && forall id: nat | id > 0 && Used(p, next, highest, id) && !Used(p, next0, highest0, id) :: id in started
  }

  lemma OwnIsNew(p: Perspective, started: seq<nat>, next0: nat, highest0: nat, next: nat, highest: nat)
    requires OpenedOnce(p, started, next0, highest0, next, highest) && !IsPeers(p, next)
    ensures OpenedOnce(p, started + [next], next0, highest0, next + 2, highest)
  {
    forall i | 0 <= i < |started| ensures started[i] != next { assert started[i] in started; }
  }

  lemma IdsConcat(a: seq<nat>, b: seq<nat>)
    ensures Ids(a + b) == Ids(a) + Ids(b)
  {
  }

  lemma PeersAreNew(p: Perspective, started: seq<nat>, next0: nat, highest0: nat, next: nat, highest: nat, first: nat,
    k: nat)
    requires OpenedOnce(p, started, next0, highest0, next, highest) && k > 0
    requires first == FirstAfter(p, highest) && (highest == 0 || IsPeers(p, highest))
    ensures OpenedOnce(p, started + NextIds(first, k), next0, highest0, next, first + 2 * (k - 1))
  {
    var more := NextIds(first, k);
    forall i | 0 <= i < k ensures IsPeers(p, more[i]) && highest < more[i] <= first + 2 * (k - 1) {
      assert more[i] == first + 2 * i;
    }
    var all := started + more;
    forall i, j | 0 <= i < j < |all| ensures all[i] != all[j] {
      if j < |started| {
        assert started[i] != started[j];
      } else if i < |started| {
        assert started[i] in started && all[j] == more[j - |started|];
      }
    }
    forall id: nat | IsPeers(p, id) && highest < id <= first + 2 * (k - 1) && id > 0 ensures id in more {
      assert more[(id - first) / 2] == id;
    }
  }

  /** Over any run, a number that a stream had is not given to another one, not even after its removal. */
  method RunTable(m: Map, events: seq<TableEvent>, creates: nat -> bool) returns (started: seq<nat>)
    requires m.Valid()
    modifies m
    ensures m.Valid() && m.streams <= old(m.streams) + Ids(started)
    ensures OpenedOnce(m.perspective, started, old(m.nextStream), old(m.highestStreamOpenedByPeer), m.nextStream,
              m.highestStreamOpenedByPeer)
    ensures m.GetTable() == Replay(m.perspective, old(m.GetTable()), events, creates)
  {
    hide Distinct, CountParity, Without, Rotated, OpenedOnce, AfterFrame, AfterOwn, AfterRemoval;
    started := [];
    assert events[..0] == [];
    ghost var next0, highest0 := m.nextStream, m.highestStreamOpenedByPeer;
    NothingOpenedYet(m.perspective, next0, highest0);
    for i := 0 to |events|
      invariant m.Valid() && m.streams <= old(m.streams) + Ids(started)
      invariant OpenedOnce(m.perspective, started, next0, highest0, m.nextStream, m.highestStreamOpenedByPeer)
      invariant m.GetTable() == Replay(m.perspective, old(m.GetTable()), events[..i], creates)
    {
      assert events[..i + 1][..i] == events[..i];
      match events[i] {
        case OpenOwn(maxOutgoing) =>
          var id := m.nextStream;
          OwnIsNew(m.perspective, started, next0, highest0, id, m.highestStreamOpenedByPeer);
          var r := m.OpenStream(maxOutgoing, creates);
          if r == Opened {
            IdsConcat(started, [id]);
            started := started + [id];
          }
        case FrameFor(id, maxIncoming) =>
          var first := m.FirstNew();
          ghost var highest, open := m.highestStreamOpenedByPeer, m.openStreams;
          m.FirstIsPeers();
          var r, k := m.GetOrOpenStream(id, maxIncoming, creates);
          IdsConcat(open, NextIds(first, k));
          IdsConcat(started, NextIds(first, k));
          if k > 0 {
            PeersAreNew(m.perspective, started, next0, highest0, m.nextStream, highest, first, k);
            started := started + NextIds(first, k);
          } else {
            NoIds(first, creates);
          }
        case Remove(id) =>
          var _ := m.RemoveStream(id);
      }
    }
    assert events[..|events|] == events;
  }

  lemma NothingOpenedYet(p: Perspective, next: nat, highest: nat)
    ensures OpenedOnce(p, [], next, highest, next, highest)
  {
  }
}
