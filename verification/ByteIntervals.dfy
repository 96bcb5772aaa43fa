/** The gap list of the stream frame sorter, as sorted half-open byte intervals. */
module ByteIntervals {
  import opened Common
  import opened Sequences

  datatype ByteInterval = ByteInterval(start: nat, end: nat)

  /** Every gap is non-empty, and the gaps are sorted, disjoint and separated by at least one byte. */
  ghost predicate Canonical(g: seq<ByteInterval>) {
    && (forall i | 0 <= i < |g| :: g[i].start < g[i].end)
    && (forall i, j | 0 <= i < j < |g| :: g[i].end < g[j].start)
  }

  /** Byte x is in one of the gaps. */
  ghost predicate Covers(g: seq<ByteInterval>, x: nat) {
    exists i | 0 <= i < |g| :: g[i].start <= x < g[i].end
  }

  function Piece(start: nat, end: nat): (p: seq<ByteInterval>)
  {
    if start < end then [ByteInterval(start, end)] else []
  }

  /** What is left of one gap without the bytes [s, e). */
  function Cut(gap: ByteInterval, s: nat, e: nat): (p: seq<ByteInterval>)
  {
    Piece(gap.start, Min(gap.end, s)) + Piece(Max(gap.start, e), gap.end)
  }

  /** The reference for what a received frame [s, e) does to the gaps: cut it out of every one of them. */
  function Subtract(g: seq<ByteInterval>, s: nat, e: nat): (r: seq<ByteInterval>)
  {
    if g == [] then [] else Cut(g[0], s, e) + Subtract(g[1..], s, e)
  }

  lemma {:induction false} SubtractConcat(a: seq<ByteInterval>, b: seq<ByteInterval>, s: nat, e: nat)
    ensures Subtract(a + b, s, e) == Subtract(a, s, e) + Subtract(b, s, e)
  {
    if a == [] {
      assert a + b == b;
    } else {
      SubtractConcat(a[1..], b, s, e);
      var ab := a + b;
      assert ab[0] == a[0] && ab[1..] == a[1..] + b;
      ConcatAssoc(Cut(a[0], s, e), Subtract(a[1..], s, e), Subtract(b, s, e));
    }
  }

  /** Gaps that do not meet [s, e) stay as they are. */
  lemma {:induction false} SubtractApart(g: seq<ByteInterval>, s: nat, e: nat)
    requires s <= e
    requires forall i | 0 <= i < |g| :: g[i].start < g[i].end && (g[i].end <= s || e <= g[i].start)
    ensures Subtract(g, s, e) == g
  {
    if g != [] {
      SubtractApart(g[1..], s, e);
      assert Cut(g[0], s, e) == [g[0]];
    }
  }

  /** Gaps inside [s, e) disappear. */
  lemma {:induction false} SubtractInside(g: seq<ByteInterval>, s: nat, e: nat)
    requires forall i | 0 <= i < |g| :: s <= g[i].start && g[i].end <= e
    ensures Subtract(g, s, e) == []
  {
    if g != [] {
      SubtractInside(g[1..], s, e);
    }
  }

  /** Bytes at the front of the frame that are in no gap need not be cut out. */
  lemma {:induction false} SubtractSkipFront(g: seq<ByteInterval>, s: nat, s': nat, e: nat)
    requires s <= s' <= e
    requires forall i | 0 <= i < |g| :: g[i].start < g[i].end
    requires forall i | 0 <= i < |g| :: g[i].end <= s || s' <= g[i].start
    ensures Subtract(g, s, e) == Subtract(g, s', e)
  {
    if g != [] {
      SubtractSkipFront(g[1..], s, s', e);
    }
  }

  /** The bytes of a canonical list without [s, e) are those of the list that are outside [s, e). */
  lemma {:induction false} SubtractCovers(g: seq<ByteInterval>, s: nat, e: nat, x: nat)
    requires s <= e
    ensures Covers(Subtract(g, s, e), x) <==> Covers(g, x) && !(s <= x < e)
  {
    hide Cut, Covers;
    if g == [] {
      NothingCovered(x);
    } else {
      SubtractCovers(g[1..], s, e, x);
      CoversConcat(Cut(g[0], s, e), Subtract(g[1..], s, e), x);
      CutCovers(g[0], s, e, x);
      assert g == [g[0]] + g[1..];
      CoversConcat([g[0]], g[1..], x);
      OneCovers(g[0], x);
    }
  }

  lemma NothingCovered(x: nat)
    ensures !Covers([], x)
  {
  }

  lemma OneCovers(gap: ByteInterval, x: nat)
    ensures Covers([gap], x) <==> gap.start <= x < gap.end
  {
    if gap.start <= x < gap.end { assert [gap][0].start <= x; }
  }

  lemma CoversConcat(a: seq<ByteInterval>, b: seq<ByteInterval>, x: nat)
    ensures Covers(a + b, x) <==> Covers(a, x) || Covers(b, x)
  {
    var c := a + b;
    if Covers(a, x) {
      var i :| 0 <= i < |a| && a[i].start <= x < a[i].end;
      assert c[i].start <= x < c[i].end;
    }
    if Covers(b, x) {
      var i :| 0 <= i < |b| && b[i].start <= x < b[i].end;
      assert c[|a| + i].start <= x < c[|a| + i].end;
    }
    if Covers(c, x) {
      var i :| 0 <= i < |c| && c[i].start <= x < c[i].end;
      if i < |a| { assert a[i].start <= x < a[i].end; } else { assert b[i - |a|].start <= x < b[i - |a|].end; }
    }
  }

  lemma CutCovers(gap: ByteInterval, s: nat, e: nat, x: nat)
    requires s <= e
    ensures Covers(Cut(gap, s, e), x) <==> gap.start <= x < gap.end && !(s <= x < e)
  {
    var l, r := Piece(gap.start, Min(gap.end, s)), Piece(Max(gap.start, e), gap.end);
    CoversConcat(l, r, x);
    PieceCovers(gap.start, Min(gap.end, s), x);
    PieceCovers(Max(gap.start, e), gap.end, x);
  }

  lemma PieceCovers(a: nat, b: nat, x: nat)
    ensures Covers(Piece(a, b), x) <==> a <= x < b
  {
    if a <= x < b {
      assert Piece(a, b)[0].start <= x < Piece(a, b)[0].end;
    }
  }

  ghost predicate Within(g: seq<ByteInterval>, lo: nat, hi: nat) {
    forall i | 0 <= i < |g| :: lo <= g[i].start && g[i].end <= hi
  }

  lemma CanonicalConcat(a: seq<ByteInterval>, b: seq<ByteInterval>, lo: nat, mid: nat, hi: nat)
    requires Canonical(a) && Canonical(b) && lo <= mid <= hi && Within(a, lo, mid) && Within(b, mid + 1, hi)
    ensures Canonical(a + b) && Within(a + b, lo, hi)
  {
  }

  lemma CutCanonical(gap: ByteInterval, s: nat, e: nat)
    requires gap.start < gap.end && s < e
    ensures Canonical(Cut(gap, s, e)) && Within(Cut(gap, s, e), gap.start, gap.end)
  {
  }

  lemma CanonicalTail(g: seq<ByteInterval>)
    requires Canonical(g) && g != []
    ensures Canonical(g[1..]) && g[0].start < g[0].end <= g[|g| - 1].end
    ensures forall r, hi | g[1..] != [] && Within(r, g[1].start, hi) :: Within(r, g[0].end + 1, hi)
  {
  }

  /** Cutting bytes out keeps the list canonical and inside the bounds it had. */
  lemma {:induction false} SubtractCanonical(g: seq<ByteInterval>, s: nat, e: nat)
    requires Canonical(g) && s < e
    ensures Canonical(Subtract(g, s, e)) && (g != [] ==> Within(Subtract(g, s, e), g[0].start, g[|g| - 1].end))
  {
    if g != [] {
      hide Canonical, Cut, Within;
      CanonicalTail(g);
      CutCanonical(g[0], s, e);
      SubtractCanonical(g[1..], s, e);
      if |g| == 1 {
        NothingWithin(g[0].end + 1, g[0].end);
      }
      CanonicalConcat(Cut(g[0], s, e), Subtract(g[1..], s, e), g[0].start, g[0].end, g[|g| - 1].end);
    }
  }

  lemma NothingWithin(lo: nat, hi: nat)
    ensures Within([], lo, hi)
  {
  }

  /** If the last gap reaches beyond the bytes cut out, the list still ends where it ended. */
  lemma SubtractLast(g: seq<ByteInterval>, s: nat, e: nat)
    requires Canonical(g) && g != [] && s < e < g[|g| - 1].end
    ensures var r := Subtract(g, s, e); r != [] && r[|r| - 1].end == g[|g| - 1].end
  {
    var n := |g| - 1;
    assert g == g[..n] + [g[n]];
    SubtractConcat(g[..n], [g[n]], s, e);
    assert Subtract([g[n]], s, e) == Cut(g[n], s, e) + [];
  }

  /** Two canonical lists with the same bytes are the same list. */
  lemma {:induction false} CanonicalUnique(g: seq<ByteInterval>, h: seq<ByteInterval>)
    requires Canonical(g) && Canonical(h)
    requires forall x: nat :: Covers(g, x) <==> Covers(h, x)
    ensures g == h
  {
    if g == [] {
      if h != [] { assert Covers(h, h[0].start); }
    } else if h == [] {
      assert Covers(g, g[0].start);
    } else {
      FirstByte(g);
      FirstByte(h);
      FirstHole(g);
      FirstHole(h);
      assert g[0] == h[0];
      forall x: nat ensures Covers(g[1..], x) <==> Covers(h[1..], x) {
        CoversTail(g, x);
        CoversTail(h, x);
      }
      CanonicalUnique(g[1..], h[1..]);
      assert g == [g[0]] + g[1..] && h == [h[0]] + h[1..];
    }
  }

  lemma FirstByte(g: seq<ByteInterval>)
    requires Canonical(g) && g != []
    ensures Covers(g, g[0].start) && forall x: nat | Covers(g, x) :: g[0].start <= x
  {
  }

  lemma FirstHole(g: seq<ByteInterval>)
    requires Canonical(g) && g != []
    ensures !Covers(g, g[0].end) && forall x: nat | g[0].start <= x < g[0].end :: Covers(g, x)
  {
  }

  lemma CoversTail(g: seq<ByteInterval>, x: nat)
    requires Canonical(g) && g != []
    ensures Covers(g[1..], x) <==> Covers(g, x) && g[0].end <= x
  {
    assert g == [g[0]] + g[1..];
    CoversConcat([g[0]], g[1..], x);
    assert forall i | 0 <= i < |g[1..]| :: g[0].end < g[1..][i].start;
  }

  /** The gaps i..k are the ones the bytes [s, e) reach. */
  ghost predicate Reaches(g: seq<ByteInterval>, s: nat, e: nat, i: nat, k: nat) {
    && Canonical(g) && i <= k < |g| && s < e
    && (forall j | 0 <= j < i :: g[j].end < s)
    && s <= g[i].end && g[k].start < e
    && (forall j | i <= j < k :: g[j].end <= e)
    && (forall j | k < j < |g| :: e <= g[j].start)
  }

  /** Cutting [s, e) out changes nothing outside the gaps it reaches, and leaves at most two pieces of them. */
  lemma SubtractRun(g: seq<ByteInterval>, s: nat, e: nat, i: nat, k: nat)
    requires Reaches(g, s, e, i, k)
    ensures Subtract(g, s, e)
         == g[..i] + Piece(g[i].start, Max(s, g[i].start)) + Piece(Min(e, g[k].end), g[k].end) + g[k + 1..]
  {
    SubtractOutside(g, s, e, i, k);
    SubtractReached(g, s, e, i, k);
    ThreeParts(g, i, k + 1);
    SubtractThree(g[..i], g[i..k + 1], g[k + 1..], s, e);
    ConcatAssoc(g[..i], Piece(g[i].start, Max(s, g[i].start)), Piece(Min(e, g[k].end), g[k].end));
  }

  /** Of the bytes [s, e), those before gap i and those after gap k are in no gap. */
  lemma ReachesEnds(g: seq<ByteInterval>, s: nat, e: nat, i: nat, k: nat, x: nat)
    requires Reaches(g, s, e, i, k)
    requires s <= x < g[i].start || g[k].end <= x < e
    ensures !Covers(g, x)
  {
    forall j | 0 <= j < |g| ensures !(g[j].start <= x < g[j].end) {
    }
  }

  lemma SubtractThree(a: seq<ByteInterval>, m: seq<ByteInterval>, b: seq<ByteInterval>, s: nat, e: nat)
    ensures Subtract(a + (m + b), s, e) == Subtract(a, s, e) + Subtract(m, s, e) + Subtract(b, s, e)
  {
    SubtractConcat(a, m + b, s, e);
    SubtractConcat(m, b, s, e);
  }

  lemma SubtractOutside(g: seq<ByteInterval>, s: nat, e: nat, i: nat, k: nat)
    requires Reaches(g, s, e, i, k)
    ensures Subtract(g[..i], s, e) == g[..i] && Subtract(g[k + 1..], s, e) == g[k + 1..]
  {
    SubtractApart(g[..i], s, e);
    SubtractApart(g[k + 1..], s, e);
  }

  lemma SubtractReached(g: seq<ByteInterval>, s: nat, e: nat, i: nat, k: nat)
    requires Reaches(g, s, e, i, k)
    ensures Subtract(g[i..k + 1], s, e) == Piece(g[i].start, Max(s, g[i].start)) + Piece(Min(e, g[k].end), g[k].end)
  {
    var m := g[i..k + 1];
    assert m[0] == g[i] && m[|m| - 1] == g[k];
    SubtractMiddle(m, s, e);
  }

  lemma SubtractMiddle(m: seq<ByteInterval>, s: nat, e: nat)
    requires Canonical(m) && m != [] && s < e
    requires s <= m[0].end && m[|m| - 1].start < e
    requires forall j | 0 <= j < |m| - 1 :: m[j].end <= e
    ensures Subtract(m, s, e)
         == Piece(m[0].start, Max(s, m[0].start)) + Piece(Min(e, m[|m| - 1].end), m[|m| - 1].end)
  {
    hide Cut, Piece, Subtract;
    var n := |m| - 1;
    if n == 0 {
      assert m == [m[0]];
      SubtractOne(m[0], s, e);
      CutBoth(m[0], s, e);
    } else {
      var inner := m[1..n];
      assert m == [m[0]] + (inner + [m[n]]);
      SubtractThree([m[0]], inner, [m[n]], s, e);
      SubtractInside(inner, s, e);
      SubtractOne(m[0], s, e);
      SubtractOne(m[n], s, e);
      CutEnds(m[0], m[n], s, e);
    }
  }

  lemma SubtractOne(gap: ByteInterval, s: nat, e: nat)
    ensures Subtract([gap], s, e) == Cut(gap, s, e)
  {
    assert [gap][1..] == [];
  }

  lemma CutBoth(gap: ByteInterval, s: nat, e: nat)
    requires s < e && s <= gap.end && gap.start < e && gap.start < gap.end
    ensures Cut(gap, s, e) == Piece(gap.start, Max(s, gap.start)) + Piece(Min(e, gap.end), gap.end)
  {
  }

  lemma CutEnds(a: ByteInterval, b: ByteInterval, s: nat, e: nat)
    requires s <= a.end <= e && a.start < a.end < b.start < b.end && b.start < e
    ensures Cut(a, s, e) + [] + Cut(b, s, e) == Piece(a.start, Max(s, a.start)) + Piece(Min(e, b.end), b.end)
  {
  }
}
