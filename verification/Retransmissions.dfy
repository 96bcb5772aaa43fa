/** The retransmission queue of the stream framer (stream_framer.go). */
module Retransmissions {
  import opened Common
  import Streams = StreamFrames

  /** The bytes that frames take, with the lengths of their data. */
  ghost function Size(fs: seq<StreamFrame>): nat {
    if fs == [] then 0 else Size(fs[..|fs| - 1]) + Streams.MinLength(fs[|fs| - 1]) + |fs[|fs| - 1].data|
  }

  lemma SizeOneMore(fs: seq<StreamFrame>, f: StreamFrame)
    ensures Size(fs + [f]) == Size(fs) + Streams.MinLength(f) + |f.data|
  {
    assert (fs + [f])[..|fs|] == fs;
  }

  ghost function Data(ps: seq<StreamFrame>): seq<byte> {
    if ps == [] then [] else Data(ps[..|ps| - 1]) + ps[|ps| - 1].data
  }

  /** Pieces of a frame from its beginning on: consecutive, not empty, and without FIN. */
  ghost predicate Begun(f: StreamFrame, ps: seq<StreamFrame>) {
    forall i | 0 <= i < |ps| ::
      ps[i].streamID == f.streamID && ps[i].offset == f.offset + |Data(ps[..i])| && ps[i].data != [] && !ps[i].fin
        && ps[i].dataLenPresent
  }

  lemma BegunOneMore(f: StreamFrame, ps: seq<StreamFrame>, p: StreamFrame)
    requires Begun(f, ps) && p.streamID == f.streamID && p.offset == f.offset + |Data(ps)| && p.data != [] && !p.fin
      && p.dataLenPresent
    ensures Begun(f, ps + [p]) && Data(ps + [p]) == Data(ps) + p.data
  {
    hide Data;
    DataOneMore(ps, p);
    var qs := ps + [p];
    forall i | 0 <= i < |qs| ensures qs[i].offset == f.offset + |Data(qs[..i])| {
      if i < |ps| { assert qs[..i] == ps[..i]; } else { assert qs[..i] == ps; }
    }
  }

  lemma DataOneMore(ps: seq<StreamFrame>, p: StreamFrame)
    ensures Data(ps + [p]) == Data(ps) + p.data
  {
    assert (ps + [p])[..|ps|] == ps;
  }

  /** The last piece, with which the frame is complete. */
  ghost predicate Completes(f: StreamFrame, ps: seq<StreamFrame>, last: StreamFrame) {
    && Begun(f, ps) && Data(ps) + last.data == f.data
    && last.streamID == f.streamID && last.offset == f.offset + |Data(ps)| && last.fin == f.fin
      && (last.data == [] ==> ps == [])
  }

  /**
   The pieces of a frame: consecutive, together the frame, FIN on the last one only, and none empty but an empty frame.
   */
  ghost predicate Cut(f: StreamFrame, ps: seq<StreamFrame>) {
    ps != [] && ps[|ps| - 1].dataLenPresent && Completes(f, ps[..|ps| - 1], ps[|ps| - 1])
  }

  /**
   The frames that were ever queued, the pieces of each that have left, and what is in the queue: the first frames have
   left completely, the next one perhaps in part, and the others not at all.
   */
  ghost predicate QueueOk(queued: seq<StreamFrame>, groups: seq<seq<StreamFrame>>, queue: seq<StreamFrame>) {
    && |groups| == |queued| && |queue| <= |queued|
    && (forall i | 0 <= i < |queued| - |queue| :: Cut(queued[i], groups[i]))
    && (forall i | |queued| - |queue| <= i < |queued| :: Completes(queued[i], groups[i], queue[i - |queued| + |queue|]))
    && (forall i | |queued| - |queue| < i < |queued| :: groups[i] == [])
  }

  ghost function Flatten(groups: seq<seq<StreamFrame>>): seq<StreamFrame> {
    if groups == [] then [] else Flatten(groups[..|groups| - 1]) + groups[|groups| - 1]
  }

  lemma {:induction false} FlattenUpdate(groups: seq<seq<StreamFrame>>, i: nat, p: StreamFrame)
    requires i < |groups| && forall j | i < j < |groups| :: groups[j] == []
    ensures Flatten(groups[i := groups[i] + [p]]) == Flatten(groups) + [p]
  {
    var n := |groups| - 1;
    var front := groups[..n];
    if i == n {
      assert groups[i := groups[i] + [p]][..n] == front;
    } else {
      FlattenUpdate(front, i, p);
      assert groups[i := groups[i] + [p]][..n] == front[i := front[i] + [p]];
      assert groups[n] == [];
    }
  }

  /** What maybeSplitOffFrame does: nothing if the data fits, else the first n bytes become a frame of their own. */
  method MaybeSplitOffFrame(frame: StreamFrame, n: nat) returns (split: Option<StreamFrame>, left: StreamFrame)
    ensures split == None <==> n >= |frame.data|
    ensures split == None ==> left == frame
    ensures split.Some? ==>
      && split.value == StreamFrame(frame.streamID, false, frame.dataLenPresent, frame.offset, frame.data[..n])
      && left == frame.(offset := frame.offset + n, data := frame.data[n..])
  {
    if n >= |frame.data| {
      return None, frame;
    }
    split := Some(StreamFrame(frame.streamID, false, frame.dataLenPresent, frame.offset, frame.data[..n]));
    left := frame.(data := frame.data[n..], offset := frame.offset + n);
  }

  lemma LastPiece(f: StreamFrame, ps: seq<StreamFrame>, last: StreamFrame)
    requires Completes(f, ps, last)
    ensures Cut(f, ps + [last.(dataLenPresent := true)])
  {
    var p := last.(dataLenPresent := true);
    assert (ps + [p])[..|ps|] == ps;
  }

  lemma OnePiece(f: StreamFrame, ps: seq<StreamFrame>, last: StreamFrame, n: nat)
    requires Completes(f, ps, last) && 0 < n < |last.data|
    ensures Completes(f, ps + [StreamFrame(last.streamID, false, true, last.offset, last.data[..n])],
      StreamFrame(last.streamID, last.fin, true, last.offset + n, last.data[n..]))
  {
    hide Begun, Data;
    var p := StreamFrame(last.streamID, false, true, last.offset, last.data[..n]);
    BegunOneMore(f, ps, p);
    assert Data(ps) + (p.data + last.data[n..]) == (Data(ps) + p.data) + last.data[n..];
    assert p.data + last.data[n..] == last.data;
  }

  /** The first frame of the queue leaves completely. */
  lemma PopOk(queued: seq<StreamFrame>, groups: seq<seq<StreamFrame>>, queue: seq<StreamFrame>, f: StreamFrame)
    requires QueueOk(queued, groups, queue) && queue != [] && f == queue[0].(dataLenPresent := true)
    ensures var b := |queued| - |queue|;
      QueueOk(queued, groups[b := groups[b] + [f]], queue[1..])
        && Flatten(groups[b := groups[b] + [f]]) == Flatten(groups) + [f]
  {
    hide Cut, Completes, Flatten;
    var b := |queued| - |queue|;
    FlattenUpdate(groups, b, f);
    assert Completes(queued[b], groups[b], queue[0]);
    LastPiece(queued[b], groups[b], queue[0]);
  }

  /** A part of the first frame leaves. */
  lemma SplitOk(queued: seq<StreamFrame>, groups: seq<seq<StreamFrame>>, queue: seq<StreamFrame>, n: nat)
    requires QueueOk(queued, groups, queue) && queue != [] && 0 < n < |queue[0].data|
    ensures var b, f := |queued| - |queue|, queue[0];
      var p := StreamFrame(f.streamID, false, true, f.offset, f.data[..n]);
      && QueueOk(queued, groups[b := groups[b] + [p]],
        queue[0 := StreamFrame(f.streamID, f.fin, true, f.offset + n, f.data[n..])])
      && Flatten(groups[b := groups[b] + [p]]) == Flatten(groups) + [p]
  {
    hide Cut, Completes, Flatten;
    var b, f := |queued| - |queue|, queue[0];
    FlattenUpdate(groups, b, StreamFrame(f.streamID, false, true, f.offset, f.data[..n]));
    assert Completes(queued[b], groups[b], f);
    OnePiece(queued[b], groups[b], f, n);
  }

  lemma AddOk(queued: seq<StreamFrame>, groups: seq<seq<StreamFrame>>, queue: seq<StreamFrame>, f: StreamFrame)
    requires QueueOk(queued, groups, queue)
    ensures QueueOk(queued + [f], groups + [[]], queue + [f]) && Flatten(groups + [[]]) == Flatten(groups)
  {
    hide Cut;
    assert (groups + [[]])[..|groups|] == groups;
    assert Data([]) + f.data == f.data;
  }

  lemma MarkOk(queued: seq<StreamFrame>, groups: seq<seq<StreamFrame>>, queue: seq<StreamFrame>)
    requires QueueOk(queued, groups, queue) && queue != []
    ensures QueueOk(queued, groups, queue[0 := queue[0].(dataLenPresent := true)])
  {
    hide Cut, Begun;
    assert Completes(queued[|queued| - |queue|], groups[|queued| - |queue|], queue[0]);
  }

  /** What a packet can carry. */
  ghost predicate Good(f: StreamFrame) {
    f.streamID < 0x1_0000_0000 && f.offset + |f.data| < TWO_64 && (f.data != [] || f.fin)
  }

  ghost predicate AllGood(fs: seq<StreamFrame>) {
    forall f | f in fs :: Good(f)
  }

  ghost predicate AllWithLength(fs: seq<StreamFrame>) {
    forall f | f in fs :: f.dataLenPresent
  }

  lemma NoneYet(groups: seq<seq<StreamFrame>>)
    ensures Flatten(groups) + [] == Flatten(groups) && Size([]) == 0 && AllGood([]) && AllWithLength([])
  {
  }

  lemma FirstGood(queue: seq<StreamFrame>)
    requires AllGood(queue) && queue != []
    ensures Good(queue[0]) && AllGood(queue[0 := queue[0].(dataLenPresent := true)])
  {
    assert queue[0] in queue;
  }

  lemma RestGood(queue: seq<StreamFrame>, f: StreamFrame)
    requires AllGood(queue) && queue != [] && Good(f)
    ensures AllGood(queue[1..]) && AllGood(queue[0 := f])
  {
  }

  lemma Inside(queued: seq<StreamFrame>, groups: seq<seq<StreamFrame>>, queue: seq<StreamFrame>)
    requires QueueOk(queued, groups, queue)
    ensures |queue| <= |queued| == |groups|
  {
  }

  lemma OneMore(before: seq<StreamFrame>, res: seq<StreamFrame>, f: StreamFrame)
    requires AllGood(res) && AllWithLength(res) && Good(f) && f.dataLenPresent
    ensures AllGood(res + [f]) && AllWithLength(res + [f]) && before + res + [f] == before + (res + [f])
    ensures Size(res + [f]) == Size(res) + Streams.MinLength(f) + |f.data|
  {
    SizeOneMore(res, f);
  }

  /** Frames leave the queue as long as there is room; the last one in part if it does not fit. */
  method MaybePopFrames(queue: seq<StreamFrame>, maxLen: nat, ghost queued: seq<StreamFrame>,
    ghost groups: seq<seq<StreamFrame>>)
    returns (res: seq<StreamFrame>, currentLen: nat, left: seq<StreamFrame>, ghost groups': seq<seq<StreamFrame>>)
    requires QueueOk(queued, groups, queue) && AllGood(queue)
    ensures QueueOk(queued, groups', left) && Flatten(groups') == Flatten(groups) + res
    ensures currentLen == Size(res) <= maxLen && AllGood(res) && AllWithLength(res) && AllGood(left)
    ensures left != [] ==> left[0].dataLenPresent && currentLen + Streams.MinLength(left[0]) >= maxLen
    ensures queue == [] ==> res == [] && left == []
  {
    hide QueueOk, Flatten, AllGood, AllWithLength, Size;
    res, currentLen, left, groups' := [], 0, queue, groups;
    NoneYet(groups);
    while left != []
      invariant QueueOk(queued, groups', left) && Flatten(groups') == Flatten(groups) + res
      invariant currentLen == Size(res) <= maxLen && AllGood(res) && AllWithLength(res) && AllGood(left)
      invariant queue == [] ==> res == [] && left == []
      decreases |left|
    {
      MarkOk(queued, groups', left);
      FirstGood(left);
      var frame := left[0].(dataLenPresent := true);
      left := left[0 := frame];
      var frameHeaderLen := Streams.MinLength(frame);
      if currentLen + frameHeaderLen >= maxLen {
        break;
      }
      Inside(queued, groups', left);
      ghost var b := |queued| - |left|;
      var split, rest := MaybeSplitOffFrame(frame, maxLen - currentLen - frameHeaderLen);
      if split.Some? {
        SplitOk(queued, groups', left, maxLen - currentLen - frameHeaderLen);
        OneMore(Flatten(groups), res, split.value);
        groups' := groups'[b := groups'[b] + [split.value]];
        res := res + [split.value];
        RestGood(left, rest);
        left := left[0 := rest];
        currentLen := currentLen + frameHeaderLen + |split.value.data|;
        break;
      }
      PopOk(queued, groups', left, frame);
      OneMore(Flatten(groups), res, frame);
      groups' := groups'[b := groups'[b] + [frame]];
      RestGood(left, frame);
      left := left[1..];
      res := res + [frame];
      currentLen := currentLen + frameHeaderLen + |frame.data|;
    }
  }

  lemma {:induction false} SizeConcat(a: seq<StreamFrame>, b: seq<StreamFrame>)
    ensures Size(a + b) == Size(a) + Size(b)
  {
    if b == [] {
      assert a + b == a;
    } else {
      assert (a + b)[..|a + b| - 1] == a + b[..|b| - 1];
      SizeConcat(a, b[..|b| - 1]);
    }
  }

  lemma BothGood(a: seq<StreamFrame>, b: seq<StreamFrame>)
    requires AllGood(a) && AllGood(b) && AllWithLength(a) && AllWithLength(b)
    ensures AllGood(a + b) && AllWithLength(a + b) && Size(a + b) == Size(a) + Size(b)
  {
    SizeConcat(a, b);
  }

  lemma OneGood(queue: seq<StreamFrame>, f: StreamFrame)
    requires AllGood(queue) && Good(f)
    ensures AllGood(queue + [f])
  {
  }
}
