/**
 Doubly linked lists as rings with a sentinel (utils/byteinterval_linkedlist.go); the other lists are the same code.
 */
module RingList {
  import opened Common
  import opened ByteIntervals

  class Element {
    var next: Element?
    var prev: Element?
    var list: List?
    var value: ByteInterval

    constructor (v: ByteInterval)
      ensures next == null && prev == null && list == null && value == v
    {
      next, prev, list, value := null, null, null, v;
    }

    /** The element after this one, which is the k-th, if there is one. */
    method Next(ghost k: nat) returns (e: Element?)
      requires list != null ==> list.Valid() && k < |list.nodes| && list.nodes[k] == this
      ensures list == null ==> e == null
      ensures list != null ==> e == if k + 1 < |list.nodes| then list.nodes[k + 1] else null
    {
      if list != null {
        list.Neighbours(k);
      }
      if list != null && next != list.root {
        return next;
      }
      return null;
    }

    /** The element before this one, which is the k-th, if there is one. */
    method Prev(ghost k: nat) returns (e: Element?)
      requires list != null ==> list.Valid() && k < |list.nodes| && list.nodes[k] == this
      ensures list == null ==> e == null
      ensures list != null ==> e == if k > 0 then list.nodes[k - 1] else null
    {
      if list != null {
        list.Neighbours(k);
      }
      if list != null && prev != list.root {
        return prev;
      }
      return null;
    }
  }

  /** Each element points to the next one and back. */
  ghost predicate Linked(c: seq<Element>)
    reads c
  {
    forall i | 0 <= i < |c| - 1 :: c[i].next == c[i + 1] && c[i + 1].prev == c[i]
  }

  ghost predicate Distinct(c: seq<Element>) {
    forall i, j | 0 <= i < j < |c| :: c[i] != c[j]
  }

  ghost function Values(c: seq<Element>): (r: seq<ByteInterval>)
    reads c`value
    ensures |r| == |c|
  {
    if c == [] then [] else Values(c[..|c| - 1]) + [c[|c| - 1].value]
  }

  lemma {:induction false} ValuesConcat(a: seq<Element>, b: seq<Element>)
    ensures Values(a + b) == Values(a) + Values(b)
  {
    if b == [] {
      assert a + b == a;
    } else {
      assert (a + b)[..|a + b| - 1] == a + b[..|b| - 1];
      ValuesConcat(a, b[..|b| - 1]);
    }
  }

  lemma ValuesSplit(c: seq<Element>, k: nat)
    requires k <= |c|
    ensures Values(c[..k]) == Values(c)[..k] && Values(c[k..]) == Values(c)[k..]
  {
    assert c == c[..k] + c[k..];
    ValuesConcat(c[..k], c[k..]);
  }

  lemma ValuesInsert(c: seq<Element>, k: nat, e: Element)
    requires k <= |c|
    ensures Values(c[..k] + [e] + c[k..]) == Values(c)[..k] + [e.value] + Values(c)[k..]
  {
    ValuesSplit(c, k);
    ValuesConcat(c[..k] + [e], c[k..]);
    ValuesConcat(c[..k], [e]);
    assert Values([e]) == [e.value];
  }

  lemma ValuesRemove(c: seq<Element>, k: nat)
    requires k < |c|
    ensures Values(c[..k] + c[k + 1..]) == Values(c)[..k] + Values(c)[k + 1..]
  {
    ValuesSplit(c, k);
    ValuesSplit(c, k + 1);
    ValuesConcat(c[..k], c[k + 1..]);
  }

  class List {
    const root: Element
    var len: nat
    ghost var nodes: seq<Element>

    /** The elements, between the sentinel and the sentinel. */
    ghost function Chain(): seq<Element>
      reads this
    {
      [root] + nodes + [root]
    }

    ghost predicate Valid()
      reads this, root, nodes
    {
      && len == |nodes| && Distinct([root] + nodes) && (forall e | e in nodes :: e.list == this)
      && if root.next == null then root.prev == null && nodes == [] else Linked(Chain())
    }

    /** The values from front to back. */
    ghost function Contents(): (r: seq<ByteInterval>)
      reads this, nodes`value
      ensures |r| == |nodes|
    {
      Values(nodes)
    }

    /** The zero value: a list that is not initialized. */
    constructor ()
      ensures Valid() && nodes == [] && fresh(root) && root.next == null
    {
      root := new Element(ByteInterval(0, 0));
      len, nodes := 0, [];
    }

    /** The list becomes empty; the elements that were in it are left alone. */
    method Init()
      requires Valid()
      modifies this`len, this`nodes, root`next, root`prev
      ensures Valid() && root.next != null && nodes == []
    {
      root.next := root;
      root.prev := root;
      len, nodes := 0, [];
      assert Chain() == [root, root];
    }

    lemma Neighbours(i: nat)
      requires Valid() && i < |nodes|
      ensures nodes[i].next == (if i + 1 < |nodes| then nodes[i + 1] else root)
      ensures nodes[i].prev == (if i > 0 then nodes[i - 1] else root)
      ensures forall j | 0 <= j < |nodes| :: nodes[j] != root && (j != i ==> nodes[j] != nodes[i])
    {
      var c, r := Chain(), [root] + nodes;
      assert c[i + 1] == nodes[i] && c[i + 2] == if i + 1 < |nodes| then nodes[i + 1] else root;
      assert c[i] == if i > 0 then nodes[i - 1] else root;
      forall j | 0 <= j < |nodes| ensures nodes[j] != root && (j != i ==> nodes[j] != nodes[i]) {
        assert r[0] != r[j + 1];
        if j < i { assert r[j + 1] != r[i + 1]; } else if i < j { assert r[i + 1] != r[j + 1]; }
      }
    }

    method Front() returns (e: Element?)
      requires Valid()
      ensures e == if nodes == [] then null else nodes[0]
    {
      if len == 0 {
        return null;
      }
      assert Chain()[0] == root && Chain()[1] == nodes[0];
      return root.next;
    }

    method Back() returns (e: Element?)
      requires Valid()
      ensures e == if nodes == [] then null else nodes[|nodes| - 1]
    {
      if len == 0 {
        return null;
      }
      assert Chain()[|nodes| + 1] == root && Chain()[|nodes|] == nodes[|nodes| - 1];
      return root.prev;
    }

    /**
     Puts an element of no list after the k-th of the chain. Nothing but the two neighbours and the element changes.
     */
    method Insert(e: Element, at: Element, ghost k: nat, ghost after: Element)
      requires Valid() && root.next != null && k <= |nodes| && at == Chain()[k] && after == Chain()[k + 1] && e != root
        && e !in nodes
      modifies this`len, this`nodes, at`next, after`prev, e`next, e`prev, e`list
      ensures Valid() && root.next != null
      ensures nodes == old(nodes)[..k] + [e] + old(nodes)[k..]
      ensures Contents() == old(Contents())[..k] + [e.value] + old(Contents())[k..]
    {
      hide Values, Distinct;
      ghost var c, old_nodes := Chain(), nodes;
      ChainDistinct(k);
      var n := at.next;
      at.next := e;
      e.prev := at;
      e.next := n;
      n.prev := e;
      e.list := this;
      len := len + 1;
      nodes := nodes[..k] + [e] + nodes[k..];
      ghost var c' := c[..k + 1] + [e] + c[k + 1..];
      assert Chain() == c';
      forall i | 0 <= i < |c'| - 1 ensures c'[i].next == c'[i + 1] && c'[i + 1].prev == c'[i] {
        if i < k {
          assert c[i] != at && c[i + 1] != n;
        } else if i > k + 1 {
          assert c'[i] == c[i - 1] && c'[i + 1] == c[i];
          assert c[i - 1] != at && c[i] != n;
        }
      }
      StillDistinct(old_nodes, k, e);
      ValuesInsert(old_nodes, k, e);
    }

    /** The chain meets an element twice only at its two ends. */
    lemma ChainDistinct(k: nat)
      requires Valid() && k <= |nodes|
      ensures var c := Chain();
        && (forall i | 0 <= i <= |nodes| && i != k :: c[i] != c[k])
        && (forall i | 1 <= i <= |nodes| + 1 && i != k + 1 :: c[i] != c[k + 1])
    {
      var c, r := Chain(), [root] + nodes;
      assert forall i | 0 <= i <= |nodes| :: c[i] == r[i];
      assert c[|nodes| + 1] == r[0];
    }

    lemma StillDistinct(ns: seq<Element>, k: nat, e: Element)
      requires Distinct([root] + ns) && k <= |ns| && e != root && e !in ns
      ensures Distinct([root] + (ns[..k] + [e] + ns[k..]))
    {
      var r, r' := [root] + ns, [root] + (ns[..k] + [e] + ns[k..]);
      forall i, j | 0 <= i < j < |r'| ensures r'[i] != r'[j] {
        assert e !in r;
        assert i <= k ==> r'[i] == r[i];
        assert i > k + 1 ==> r'[i] == r[i - 1];
        assert j <= k ==> r'[j] == r[j];
        assert j > k + 1 ==> r'[j] == r[j - 1];
      }
    }

    /** Takes the k-th element out of the ring. Nothing but its two neighbours and the element changes. */
    method Unlink(e: Element, ghost k: nat, ghost before: Element, ghost after: Element)
      requires Valid() && k < |nodes| && nodes[k] == e && before == Chain()[k] && after == Chain()[k + 2]
      modifies this`len, this`nodes, before`next, after`prev, e`next, e`prev, e`list
      ensures Valid() && root.next != null && e.list == null && e.next == null && e.prev == null
      ensures nodes == old(nodes)[..k] + old(nodes)[k + 1..]
      ensures Contents() == old(Contents())[..k] + old(Contents())[k + 1..]
    {
      hide Values, Distinct;
      ghost var c, ns := Chain(), nodes;
      assert c[k + 1] == e;
      Apart(k, c);
      e.prev.next := e.next;
      e.next.prev := e.prev;
      e.next := null;
      e.prev := null;
      e.list := null;
      len := len - 1;
      nodes := nodes[..k] + nodes[k + 1..];
      ghost var c' := c[..k + 1] + c[k + 2..];
      assert Chain() == c';
      forall i | 0 <= i < |c'| - 1 ensures c'[i].next == c'[i + 1] && c'[i + 1].prev == c'[i] {
        if i < k {
          assert c'[i] == c[i] && c'[i + 1] == c[i + 1];
        } else if i > k {
          assert c'[i] == c[i + 1] && c'[i + 1] == c[i + 2];
        }
      }
      assert c'[0] == root;
      FewerDistinct(ns, k);
      ValuesRemove(ns, k);
    }

    /** The links that do not meet the element are not between its neighbours. */
    lemma Apart(k: nat, c: seq<Element>)
      requires Valid() && k < |nodes| && c == Chain()
      ensures forall i | 0 <= i <= |nodes| && (i < k || i > k + 1) :: c[i] != c[k] && c[i] != c[k + 1]
      ensures forall i | 1 <= i <= |nodes| + 1 && (i < k + 1 || i > k + 2) :: c[i] != c[k + 1] && c[i] != c[k + 2]
      ensures c[k + 1] != c[k] && c[k + 1] != c[k + 2]
    {
      ChainDistinct(k);
      ChainDistinct(k + 1);
    }

    lemma FewerDistinct(ns: seq<Element>, k: nat)
      requires Distinct([root] + ns) && k < |ns|
      ensures Distinct([root] + (ns[..k] + ns[k + 1..])) && ns[k] !in ns[..k] + ns[k + 1..]
    {
      var r, r' := [root] + ns, [root] + (ns[..k] + ns[k + 1..]);
      forall i, j | 0 <= i < j < |r'| ensures r'[i] != r'[j] {
        assert r'[i] == r[if i <= k then i else i + 1] && r'[j] == r[if j <= k then j else j + 1];
      }
      forall j | 0 <= j < |ns| && j != k ensures ns[j] != ns[k] {
        assert r[j + 1] == ns[j] && r[k + 1] == ns[k];
      }
    }

    method LazyInit()
      requires Valid()
      modifies this`len, this`nodes, root`next, root`prev
      ensures Valid() && root.next != null && nodes == old(nodes)
    {
      if root.next == null {
        Init();
      }
    }

    /** The public operations are edits of the sequence of values. */
    method PushFront(v: ByteInterval) returns (e: Element)
      requires Valid()
      modifies this`len, this`nodes, root`next, root`prev, nodes`prev
      ensures Valid() && fresh(e) && nodes == [e] + old(nodes) && Contents() == [v] + old(Contents())
    {
      hide Linked, Distinct, Values;
      LazyInit();
      e := new Element(v);
      ghost var after := Chain()[1];
      assert nodes[..0] + [e] + nodes[0..] == [e] + nodes;
      assert old(Contents())[..0] + [v] + old(Contents())[0..] == [v] + old(Contents());
      Insert(e, root, 0, after);
    }

    method PushBack(v: ByteInterval) returns (e: Element)
      requires Valid()
      modifies this`len, this`nodes, root`next, root`prev, nodes`next
      ensures Valid() && fresh(e) && nodes == old(nodes) + [e] && Contents() == old(Contents()) + [v]
    {
      hide Distinct, Values;
      LazyInit();
      e := new Element(v);
      ghost var n := |nodes|;
      assert Chain()[n + 1] == root && Chain()[n].next == root && root.prev == Chain()[n];
      assert nodes[..n] + [e] + nodes[n..] == nodes + [e];
      assert old(Contents())[..n] + [v] + old(Contents())[n..] == old(Contents()) + [v];
      Insert(e, root.prev, n, root);
    }

    /** Where an element is. */
    ghost function IndexOf(e: Element): (k: nat)
      requires e in nodes
      reads this
      ensures k < |nodes| && nodes[k] == e
    {
      var k :| 0 <= k < |nodes| && nodes[k] == e;
      k
    }

    method InsertAfter(v: ByteInterval, mark: Element) returns (e: Element?)
      requires Valid() && (mark.list == this ==> mark in nodes)
      modifies this`len, this`nodes, root`prev, nodes`next, nodes`prev
      ensures Valid() && (e == null <==> old(mark.list) != this)
      ensures e == null ==> nodes == old(nodes) && Contents() == old(Contents())
      ensures e != null ==> var k := old(IndexOf(mark)) + 1;
        fresh(e) && nodes == old(nodes)[..k] + [e] + old(nodes)[k..]
          && Contents() == old(Contents())[..k] + [v] + old(Contents())[k..]
    {
      hide Distinct, Values;
      if mark.list != this {
        return null;
      }
      ghost var k := IndexOf(mark);
      assert Chain()[k + 1] == mark;
      ghost var after := Chain()[k + 2];
      assert after == root || after in nodes;
      e := new Element(v);
      Insert(e, mark, k + 1, after);
    }

    method InsertBefore(v: ByteInterval, mark: Element) returns (e: Element?)
      requires Valid() && (mark.list == this ==> mark in nodes)
      modifies this`len, this`nodes, root`next, nodes`next, nodes`prev
      ensures Valid() && (e == null <==> old(mark.list) != this)
      ensures e == null ==> nodes == old(nodes) && Contents() == old(Contents())
      ensures e != null ==> var k := old(IndexOf(mark));
        fresh(e) && nodes == old(nodes)[..k] + [e] + old(nodes)[k..]
          && Contents() == old(Contents())[..k] + [v] + old(Contents())[k..]
    {
      hide Distinct, Values;
      if mark.list != this {
        return null;
      }
      ghost var k := IndexOf(mark);
      assert Chain()[k + 1] == mark && Chain()[k + 1].prev == Chain()[k];
      assert Chain()[k] == root || Chain()[k] in nodes;
      e := new Element(v);
      Insert(e, mark.prev, k, mark);
    }

    /** Changes the value of the k-th element in place. */
    method SetValue(e: Element, v: ByteInterval, ghost k: nat)
      requires Valid() && k < |nodes| && nodes[k] == e
      modifies e`value
      ensures Valid() && e.value == v && Contents() == old(Contents())[k := v]
    {
      hide Values, Distinct;
      Neighbours(k);
      forall j | 0 <= j < |nodes| ensures Contents()[j] == nodes[j].value { ValueAt(nodes, j); }
      ghost var c := Contents();
      e.value := v;
      forall j | 0 <= j < |nodes| ensures Contents()[j] == c[k := v][j] { ValueAt(nodes, j); }
    }

    /** Removes an element of this list; an element of another list stays where it is. */
    method Remove(e: Element) returns (v: ByteInterval)
      requires Valid() && (e.list == this ==> e in nodes)
      modifies this`len, this`nodes, root`next, root`prev, nodes`next, nodes`prev, nodes`list
      ensures Valid() && v == e.value
      ensures old(e.list) != this ==> nodes == old(nodes) && Contents() == old(Contents())
      ensures old(e.list) == this ==> var k := old(IndexOf(e));
        && nodes == old(nodes)[..k] + old(nodes)[k + 1..]
          && Contents() == old(Contents())[..k] + old(Contents())[k + 1..]
        && e.list == null && e !in nodes
    {
      hide Distinct, Values;
      if e.list == this {
        ghost var k := IndexOf(e);
        ghost var before, after := Chain()[k], Chain()[k + 2];
        assert (before == root || before in nodes) && (after == root || after in nodes);
        Unlink(e, k, before, after);
      }
      return e.value;
    }
  }

  /** A walk from front to back meets the values in their order. */
  method WalkForward(l: List) returns (vs: seq<ByteInterval>)
    requires l.Valid()
    ensures vs == l.Contents()
  {
    hide Linked, Distinct;
    vs := [];
    var el := l.Front();
    ghost var i := 0;
    assert l.nodes[..0] == [];
    while el != null
      invariant 0 <= i <= |l.nodes| && vs == Values(l.nodes[..i])
      invariant el == if i < |l.nodes| then l.nodes[i] else null
      decreases |l.nodes| - i
    {
      assert l.nodes[..i + 1] == l.nodes[..i] + [l.nodes[i]];
      ValuesConcat(l.nodes[..i], [l.nodes[i]]);
      vs := vs + [el.value];
      var here := el;
      assert here.list == l && l.nodes[i] == here;
      el := here.Next(i);
      i := i + 1;
    }
    assert l.nodes[..i] == l.nodes;
  }

  /** A walk from back to front meets them in the opposite order. */
  method WalkBackward(l: List) returns (vs: seq<ByteInterval>)
    requires l.Valid()
    ensures |vs| == |l.Contents()| && forall i | 0 <= i < |vs| :: vs[i] == l.Contents()[|vs| - 1 - i]
  {
    hide Linked, Distinct;
    vs := [];
    var el := l.Back();
    while el != null
      invariant |vs| <= |l.nodes| && el == if |vs| < |l.nodes| then l.nodes[|l.nodes| - 1 - |vs|] else null
      invariant forall i | 0 <= i < |vs| :: vs[i] == l.Contents()[|l.nodes| - 1 - i]
      decreases |l.nodes| - |vs|
    {
      ValueAt(l.nodes, |l.nodes| - 1 - |vs|);
      var here := el;
      assert here.list == l && l.nodes[|l.nodes| - 1 - |vs|] == here;
      el := here.Prev(|l.nodes| - 1 - |vs|);
      vs := vs + [here.value];
    }
  }

  lemma {:induction false} ValueAt(c: seq<Element>, i: nat)
    requires i < |c|
    ensures Values(c)[i] == c[i].value
  {
    if i < |c| - 1 { ValueAt(c[..|c| - 1], i); }
  }
}
