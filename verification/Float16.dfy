/** The 16-bit floating point format for ACK delays (utils/float16.go). */
module Float16 {
  import opened Common
  import opened Arithmetic

  /** The largest value that can be represented: 12 one bits shifted by 30. */
  const MAX_VALUE: nat := 0x3FF_C000_0000

  function Pow2(n: nat): (p: nat)
    ensures p > 0
  {
    if n == 0 then 1 else 2 * Pow2(n - 1)
  }

  /** The number that the 16 bits denote: exponent in the high 5 bits, 11 bits of mantissa below. */
  function Decode(val: nat): nat
    requires val < 0x1_0000
  {
    if val < 0x1000 then val
    else
      var exponent := val / 0x800 - 1;
      (val - exponent * 0x800) * Pow2(exponent)
  }

  /** How often a value has to be halved until it fits in 12 bits. */
  function Exponent(v: nat): nat {
    if v < 0x1000 then 0 else 1 + Exponent(v / 2)
  }

  /** The reference encoding: round down to 12 significant bits, clamp what is out of range. */
  function Encode(v: nat): nat {
    if v >= MAX_VALUE then 0xFFFF else v / Pow2(Exponent(v)) + Exponent(v) * 0x800
  }

  // ---------- powers of two ----------

  lemma {:induction false} Pow2Sum(a: nat, b: nat)
    ensures Pow2(a + b) == Pow2(a) * Pow2(b)
  {
    if a > 0 {
      Pow2Sum(a - 1, b);
      MulAssoc(2, Pow2(a - 1), Pow2(b));
    }
  }

  lemma {:induction false} Pow2Mono(a: nat, b: nat)
    requires a <= b
    ensures Pow2(a) <= Pow2(b)
  {
    if a < b { Pow2Mono(a, b - 1); }
  }

  lemma Pow2Values()
    ensures Pow2(11) == 0x800 && Pow2(12) == 0x1000 && Pow2(30) == 0x4000_0000 && Pow2(43) == 0x800_0000_0000
  {
    assert Pow2(4) == 16 by { assert Pow2(2) == 4; assert Pow2(3) == 8; }
    Pow2Sum(4, 4);
    Pow2Sum(3, 8);
    Pow2Sum(4, 8);
    Pow2Sum(8, 11);
    Pow2Sum(11, 19);
    Pow2Sum(12, 31);
    assert Pow2(31) == 2 * Pow2(30);
  }

  // ---------- the loop ----------

  lemma HalveOnce(v: nat, e: nat)
    requires e > 0
    ensures v / Pow2(e) == v / 2 / Pow2(e - 1)
  {
    DivDiv(v, 2, Pow2(e - 1));
  }

  /** The exponent is the one shift that brings the highest bit to position 11. */
  lemma {:induction false} ShiftIsExponent(v: nat, e: nat)
    requires 0x1000 <= v
    ensures 0x800 <= v / Pow2(e) < 0x1000 <==> e == Exponent(v)
    decreases v
  {
    if e == 0 {
      assert v / 1 == v;
    } else {
      HalveOnce(v, e);
      if v / 2 < 0x1000 {
        if e > 1 {
          Pow2Mono(1, e - 1);
          DivBounds(v / 2, Pow2(e - 1), 0, 0x800);
        } else {
          assert v / 2 / 1 == v / 2;
        }
      } else {
        ShiftIsExponent(v / 2, e - 1);
      }
    }
  }

  lemma ShiftStep(v: nat, e: nat, value: nat, o: nat)
    requires value == v / Pow2(e) && Pow2(11 + o) <= value < Pow2(11 + 2 * o)
    ensures value / Pow2(o) == v / Pow2(e + o)
    ensures Pow2(11) <= value / Pow2(o) < Pow2(11 + o)
  {
    Pow2Sum(e, o);
    DivDiv(v, Pow2(e), Pow2(o));
    Pow2Sum(11, o);
    Pow2Sum(11 + o, o);
    DivBounds(value, Pow2(o), Pow2(11), Pow2(11 + o));
  }

  /** Finds the exponent by binary search over shifts of 16, 8, 4, 2 and 1. */
  method WriteUfloat16(v: nat) returns (result: nat)
    ensures result == Encode(v)
  {
    if v < 0x1000 {
      return v;
    }
    if v >= MAX_VALUE {
      return 0xFFFF;
    }
    var value, exponent, offset := v, 0, 16;
    Pow2Values();
    while offset > 0
      invariant offset in {16, 8, 4, 2, 1, 0}
      invariant value == v / Pow2(exponent) && Pow2(11) <= value < Pow2(11 + Max(2 * offset, 1))
      decreases offset
    {
      if value >= Pow2(11 + offset) {
        ShiftStep(v, exponent, value, offset);
        exponent, value := exponent + offset, value / Pow2(offset);
      }
      offset := offset / 2;
    }
    ShiftIsExponent(v, exponent);
    result := value + exponent * 0x800;
  }

  // ---------- what encoding and decoding do to a value ----------

  lemma ExponentBound(v: nat)
    requires 0x1000 <= v < MAX_VALUE
    ensures 1 <= Exponent(v) <= 30
    ensures 0x800 <= v / Pow2(Exponent(v)) < 0x1000 && Encode(v) < 0x1_0000
  {
    var e := Exponent(v);
    ShiftIsExponent(v, e);
    Pow2Values();
    if e > 30 {
      Pow2Mono(31, e);
      assert Pow2(31) == 2 * Pow2(30);
      DivBounds(v, Pow2(e), 0, 0x800);
    }
  }

  /**
   A value that is written and read back is rounded down by less than one part in 2^11; what is out of range comes
   back as the largest value.
   */
  lemma DecodeEncode(v: nat)
    ensures Encode(v) < 0x1_0000
    ensures v < 0x1000 ==> Decode(Encode(v)) == v
    ensures 0 < v < MAX_VALUE ==> Decode(Encode(v)) <= v && (v - Decode(Encode(v))) * 0x800 < v
    ensures v >= MAX_VALUE ==> Decode(Encode(v)) == MAX_VALUE
  {
    if v >= MAX_VALUE {
      Pow2Values();
    } else if v >= 0x1000 {
      ExponentBound(v);
      var e := Exponent(v);
      var p, m := Pow2(e), v / Pow2(e);
      assert Encode(v) / 0x800 - 1 == e;
      assert Decode(Encode(v)) == m * p;
      DivMod(v, p);
      MulMono(0x800, m, p);
    }
  }

  lemma {:induction false} ExponentOfShifted(m: nat, e: nat)
    requires 0x800 <= m < 0x1000 && e > 0
    ensures m * Pow2(e) >= 0x1000 && Exponent(m * Pow2(e)) == e && m * Pow2(e) / Pow2(e) == m
  {
    var v := m * Pow2(e);
    Pow2Mono(1, e);
    MulMono(0x800, m, Pow2(e));
    DivUnique(v, Pow2(e), m, 0);
    ShiftIsExponent(v, e);
  }

  lemma BelowMax(m: nat, e: nat)
    requires 0x800 <= m < 0x1000 && e <= 30 && !(m == 0xFFF && e == 30)
    ensures m * Pow2(e) < MAX_VALUE
  {
    Pow2Values();
    if e < 30 {
      Pow2Mono(e, 29);
      assert Pow2(30) == 2 * Pow2(29);
      MulMono(m, 0xFFF, Pow2(e));
    } else {
      MulMono(m, 0xFFE, Pow2(e));
    }
  }

  /** Every 16-bit pattern is the encoding of the number it denotes: the format wastes no pattern. */
  lemma EncodeDecode(x: nat)
    requires x < 0x1_0000
    ensures Encode(Decode(x)) == x
  {
    if x >= 0x1000 {
      hide Pow2, Exponent;
      var e := x / 0x800 - 1;
      var m := x - e * 0x800;
      if x == 0xFFFF {
        assert e == 30 && m == 0xFFF;
        Pow2Values();
      } else {
        assert 0x800 <= m < 0x1000 && 1 <= e <= 30 && !(m == 0xFFF && e == 30);
        ExponentOfShifted(m, e);
        BelowMax(m, e);
      }
    }
  }
}
