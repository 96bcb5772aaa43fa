/** The order in which streams_map.go serves the open streams, and why every stream has its turn. */
module Schedule {
  import opened Common
  import opened Arithmetic
  import opened Sequences

  /** What the callback says about a stream: go on, stop here, or an error. */
  datatype Answer = Continue | Stop | Fail

  /** A callback is asked at most once about a stream in one call, so that it can be taken for a function. */
  type Callback = nat -> Answer

  /** The streams that are open, beginning at the index. */
  function Rotated(open: seq<nat>, index: nat): (r: seq<nat>)
    requires index <= |open|
    ensures |r| == |open|
  {
    open[index..] + open[..index]
  }

  function Without(q: seq<nat>, drop: set<nat>): (r: seq<nat>)
    ensures |r| <= |q|
  {
    if q == [] then [] else if q[0] in drop then Without(q[1..], drop) else [q[0]] + Without(q[1..], drop)
  }

  /** All but the crypto stream and the header stream. */
  function Others(q: seq<nat>): seq<nat> {
    Without(q, {1, 3})
  }

  /** Up to the first stream for which the callback does not say to go on. */
  function Until(q: seq<nat>, fn: Callback): (r: seq<nat>)
    ensures r <= q && (q != [] ==> r != [])
  {
    if q == [] then [] else if fn(q[0]) == Continue then [q[0]] + Until(q[1..], fn) else [q[0]]
  }

  /** The crypto stream and the header stream, as far as they are open. */
  function Special(open: seq<nat>): seq<nat> {
    (if 1 in open then [1] else []) + if 3 in open then [3] else []
  }

  /** The order in which the streams are served. */
  function Order(open: seq<nat>, index: nat): seq<nat>
    requires index <= |open|
  {
    Special(open) + Others(Rotated(open, index))
  }

  lemma {:induction false} WithoutMembers(q: seq<nat>, drop: set<nat>, id: nat)
    ensures id in Without(q, drop) <==> id in q && id !in drop
  {
    if q != [] {
      assert q == [q[0]] + q[1..];
      WithoutMembers(q[1..], drop, id);
    }
  }

  lemma {:induction false} WithoutConcat(p: seq<nat>, q: seq<nat>, drop: set<nat>)
    ensures Without(p + q, drop) == Without(p, drop) + Without(q, drop)
  {
    if p == [] {
      assert p + q == q;
    } else {
      var tail := p[1..];
      assert (p + q)[0] == p[0] && (p + q)[1..] == tail + q;
      WithoutConcat(tail, q, drop);
      ConcatAssoc([p[0]], Without(tail, drop), Without(q, drop));
    }
  }

  lemma {:induction false} WithoutNone(q: seq<nat>, drop: set<nat>)
    requires forall id | id in q :: id !in drop
    ensures Without(q, drop) == q
  {
    if q != [] {
      assert q[0] in q;
      WithoutNone(q[1..], drop);
    }
  }

  lemma {:induction false} WithoutAll(q: seq<nat>, drop: set<nat>)
    requires forall id | id in q :: id in drop
    ensures Without(q, drop) == []
  {
    if q != [] { WithoutAll(q[1..], drop); }
  }

  /** A part of the list that is dropped as a whole. */
  lemma WithoutMiddle(a: seq<nat>, b: seq<nat>, c: seq<nat>, drop: set<nat>)
    requires (forall id | id in a + c :: id !in drop) && forall id | id in b :: id in drop
    ensures Without(a + b + c, drop) == a + c
  {
    hide Without;
    WithoutConcat(a + b, c, drop);
    WithoutConcat(a, b, drop);
    assert forall id | id in a :: id in a + c;
    assert forall id | id in c :: id in a + c;
    WithoutNone(a, drop);
    WithoutNone(c, drop);
    WithoutAll(b, drop);
  }

  /** Opening streams leaves the order of those that are open alone. */
  lemma OpeningKeepsOrder(open: seq<nat>, more: seq<nat>, ids: set<nat>, index: nat)
    requires index <= |open| && (forall id | id in more :: id in ids) && forall id | id in open :: id !in ids
    ensures Without(Rotated(open + more, index), ids) == Rotated(open, index)
  {
    hide Without;
    var before, after := open[..index], open[index..];
    assert (open + more)[index..] == after + more && (open + more)[..index] == before;
    WithoutMiddle(after, more, before, ids);
  }

  /** Removing a stream leaves the order of the others alone. */
  lemma RemovingKeepsOrder(open: seq<nat>, i: nat, index: nat)
    requires i < |open| && index <= |open| && open[i] !in open[..i] && open[i] !in open[i + 1..]
    ensures var left, index' := open[..i] + open[i + 1..], if i < index then index - 1 else index;
      index' <= |left| && Rotated(left, index') == Without(Rotated(open, index), {open[i]})
  {
    hide Without;
    var left := open[..i] + open[i + 1..];
    if i < index {
      var a, c := open[index..] + open[..i], open[i + 1..index];
      assert Rotated(open, index) == a + [open[i]] + c;
      assert Rotated(left, index - 1) == a + c;
      WithoutMiddle(a, [open[i]], c, {open[i]});
    } else {
      var a, c := open[index..i], open[i + 1..] + open[..index];
      assert Rotated(open, index) == a + [open[i]] + c;
      assert Rotated(left, index) == a + c;
      WithoutMiddle(a, [open[i]], c, {open[i]});
    }
  }

  /** The streams that a call serves after the crypto and the header stream. */
  function Served(open: seq<nat>, index: nat, fn: Callback): seq<nat>
    requires index <= |open|
  {
    Until(Others(Rotated(open, index)), fn)
  }

  /** How many of them count: all but one that ends in an error. */
  function Count(served: seq<nat>, fn: Callback): (k: nat)
    ensures k <= |served|
  {
    if served != [] && fn(served[|served| - 1]) == Fail then |served| - 1 else |served|
  }

  /** The index after a call that gets past the crypto and the header stream. */
  function Advance(open: seq<nat>, index: nat, fn: Callback): (r: nat)
    requires index <= |open|
    ensures r <= |open|
  {
    var k := Count(Served(open, index, fn), fn);
    if k == 0 then index else Mod(index + k, |open|)
  }

  /** The index after the first j calls. */
  function AdvanceAll(open: seq<nat>, index: nat, fns: seq<Callback>, j: nat): (r: nat)
    requires index <= |open| && j <= |fns|
    ensures r <= |open|
  {
    if j == 0 then index else Advance(open, AdvanceAll(open, index, fns, j - 1), fns[j - 1])
  }

  /** Every stream among the first positions of the order is served, if as many streams are served. */
  lemma ServedCovers(q: seq<nat>, fn: Callback, i: nat)
    requires i < |Until(Others(q), fn)| && i < |q| && q[i] !in {1, 3}
    ensures q[i] in Until(Others(q), fn)
  {
    hide Until;
    assert q == q[..i] + q[i..];
    WithoutConcat(q[..i], q[i..], {1, 3});
    var m := |Others(q[..i])|;
    assert Others(q)[m] == q[i];
    assert Until(Others(q), fn)[m] == Others(q)[m];
  }

  lemma OneWrap(x: nat, n: nat)
    requires 0 < n && x <= 2 * n
    ensures Mod(x, n) == if x < n then x else if x < 2 * n then x - n else 0
  {
    DivUnique(x, n, if x < n then 0 else if x < 2 * n then 1 else 2,
      if x < n then x else if x < 2 * n then x - n else 0);
  }

  /** What was at distance d is at distance d - k after k steps. */
  lemma StepsAhead(open: seq<nat>, index: nat, k: nat, d: nat)
    requires 0 < |open| && index <= |open| && k <= d < |open|
    ensures Mod(index + k, |open|) <= |open| && Rotated(open, Mod(index + k, |open|))[d - k] == Rotated(open, index)[d]
  {
    OneWrap(index + k, |open|);
  }

  ghost predicate NeverFails(fn: Callback) {
    forall id :: fn(id) != Fail
  }

  /** A stream that a call does not serve is closer to its turn after the call. */
  lemma Closer(open: seq<nat>, index: nat, fn: Callback, d: nat)
    requires index <= |open| && d < |open| && NeverFails(fn)
    requires var id := Rotated(open, index)[d]; id !in {1, 3} && id !in Served(open, index, fn)
    ensures 1 <= |Served(open, index, fn)| <= d
    ensures Rotated(open, Advance(open, index, fn))[d - |Served(open, index, fn)|] == Rotated(open, index)[d]
  {
    hide Until, Others;
    var q := Rotated(open, index);
    Nonempty(q, d, fn);
    if d < |Served(open, index, fn)| { ServedCovers(q, fn, d); }
    StepsAhead(open, index, |Served(open, index, fn)|, d);
  }

  /**
   As many calls as there are open streams, each of which gets past the crypto and the header stream, serve every other
   stream, although the streams that are passed over do not move the index.
   */
  lemma Fair(open: seq<nat>, index: nat, fns: seq<Callback>, id: nat) returns (j: nat)
    requires index <= |open| && id in open && id !in {1, 3}
    requires |fns| >= |open| && forall fn | fn in fns :: NeverFails(fn)
    ensures j < |fns| && id in Served(open, AdvanceAll(open, index, fns, j), fns[j])
  {
    hide Served, Advance, Rotated, NeverFails;
    var now := index;
    var d := Find(open, index, id);
    j := 0;
    while id !in Served(open, now, fns[j])
      invariant 0 <= d && j + d < |open| && 0 <= now <= |open| && now == AdvanceAll(open, index, fns, j)
        && Rotated(open, now)[d] == id
      decreases d
    {
      Closer(open, now, fns[j], d);
      d, now, j := d - |Served(open, now, fns[j])|, Advance(open, now, fns[j]), j + 1;
    }
  }

  lemma Nonempty(q: seq<nat>, d: nat, fn: Callback)
    requires d < |q| && q[d] !in {1, 3}
    ensures Until(Others(q), fn) != []
  {
    WithoutMembers(q, {1, 3}, q[d]);
  }

  lemma Find(open: seq<nat>, index: nat, id: nat) returns (d: nat)
    requires index <= |open| && id in open
    ensures d < |open| && Rotated(open, index)[d] == id
  {
    var p :| 0 <= p < |open| && open[p] == id;
    d := if p >= index then p - index else p + |open| - index;
  }

  ghost predicate Distinct(q: seq<nat>) {
    forall i, j | 0 <= i < j < |q| :: q[i] != q[j]
  }

  lemma {:induction false} WithoutDistinct(q: seq<nat>, drop: set<nat>)
    requires Distinct(q)
    ensures Distinct(Without(q, drop))
  {
    if q != [] {
      WithoutDistinct(q[1..], drop);
      WithoutMembers(q[1..], drop, q[0]);
    }
  }

  lemma RotatedDistinct(open: seq<nat>, index: nat)
    requires Distinct(open) && index <= |open|
    ensures Distinct(Rotated(open, index))
  {
  }

  /** No stream is served twice in one call. */
  lemma OrderDistinct(open: seq<nat>, index: nat)
    requires Distinct(open) && index <= |open|
    ensures Distinct(Order(open, index))
  {
    RotatedDistinct(open, index);
    WithoutDistinct(Rotated(open, index), {1, 3});
    var special, others := Special(open), Others(Rotated(open, index));
    forall i, j | 0 <= i < |special| && 0 <= j < |others| ensures special[i] != others[j] {
      WithoutMembers(Rotated(open, index), {1, 3}, others[j]);
    }
  }

  /** Only open streams are served. */
  lemma OrderMembers(open: seq<nat>, index: nat, id: nat)
    requires index <= |open| && id in Order(open, index)
    ensures id in open
  {
    WithoutMembers(Rotated(open, index), {1, 3}, id);
  }

  /** A callback that stops at one stream of the order, or at none. */
  lemma {:induction false} UntilStopped(q: seq<nat>, i: nat, fn: Callback)
    requires i <= |q| && (forall j | 0 <= j < i :: fn(q[j]) == Continue) && (i < |q| ==> fn(q[i]) == Stop)
    ensures Until(q, fn) == if i < |q| then q[..i + 1] else q
  {
    if i > 0 {
      UntilStopped(q[1..], i - 1, fn);
      if i < |q| { assert q[..i + 1] == [q[0]] + q[1..][..i]; } else { assert q == [q[0]] + q[1..]; }
    } else if q != [] {
      assert q[..1] == [q[0]];
    }
  }
}
