/** Facts about products, quotients and sets of numbers that the solver does not find by itself. */
module Arithmetic {

  lemma MulMono(a: int, b: int, d: nat)
    ensures a <= b ==> a * d <= b * d
  {
    if a <= b { assert (b - a) * d >= 0; }
  }

  lemma MulAssoc(a: int, b: int, c: int)
    ensures (a * b) * c == a * (b * c)
  {
  }

  lemma MulAdd(a: int, b: int, d: int)
    ensures (a + b) * d == a * d + b * d
  {
  }

  lemma DivMod(v: int, d: nat)
    requires d > 0
    ensures v == (v / d) * d + v % d && 0 <= v % d < d
  {
  }

  lemma DivUnique(v: int, d: nat, q: int, r: int)
    requires d > 0 && v == q * d + r && 0 <= r < d
    ensures v / d == q && v % d == r
  {
    var k := v / d;
    DivMod(v, d);
    MulMono(k + 1, q, d);
    MulMono(q + 1, k, d);
    MulAdd(k, 1, d);
    MulAdd(q, 1, d);
  }

  lemma DivBounds(v: int, d: nat, lo: int, hi: int)
    requires d > 0
    ensures lo * d <= v ==> lo <= v / d
    ensures v < hi * d ==> v / d < hi
  {
    var k := v / d;
    DivMod(v, d);
    MulMono(k + 1, lo, d);
    MulMono(hi, k, d);
    MulAdd(k, 1, d);
  }

  lemma Regroup(a: nat, b: nat, q: int, x: int, y: int)
    requires a > 0 && b > 0 && 0 <= x < b && 0 <= y < a
    ensures (q * b + x) * a + y == q * (a * b) + (x * a + y)
    ensures 0 <= x * a + y < a * b
  {
    MulAdd(q * b, x, a);
    MulAssoc(q, b, a);
    MulMono(x + 1, b, a);
    MulAdd(x, 1, a);
    MulMono(0, x, a);
  }

  lemma DivDiv(v: nat, a: nat, b: nat)
    requires a > 0 && b > 0
    ensures a * b > 0 && v / a / b == v / (a * b)
  {
    var w := v / a;
    DivMod(v, a);
    DivMod(w, b);
    Regroup(a, b, w / b, w % b, v % a);
    DivUnique(v, a * b, w / b, (w % b) * a + v % a);
  }

  function Mod(v: nat, d: nat): (r: nat)
    requires d > 0
    ensures r < d
  {
    v % d
  }

  ghost function Largest(s: set<nat>): (m: nat)
    requires s != {}
    ensures m in s && forall x | x in s :: x <= m
  {
    var x :| x in s;
    if s == {x} then x
    else
      assert s == (s - {x}) + {x};
      var m := Largest(s - {x});
      if m < x then x else m
  }
}
