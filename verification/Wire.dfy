/** Little-endian integers on the wire (utils/utils.go). */
module Wire {
  import opened Common
  import opened Arithmetic

  function Pow256(n: nat): (p: nat)
    ensures p > 0
  {
    if n == 0 then 1 else 256 * Pow256(n - 1)
  }

  /** The n low bytes of v, lowest first. */
  function ToBytes(v: nat, n: nat): (bs: seq<byte>)
    ensures |bs| == n
  {
    if n == 0 then [] else [v % 256] + ToBytes(v / 256, n - 1)
  }

  function FromBytes(bs: seq<byte>): nat {
    if bs == [] then 0 else bs[0] + 256 * FromBytes(bs[1..])
  }

  /** A number written in n bytes is read back modulo 256^n. */
  lemma {:induction false} FromToBytes(v: nat, n: nat)
    ensures v < Pow256(n) ==> FromBytes(ToBytes(v, n)) == v
  {
    if n > 0 {
      FromToBytes(v / 256, n - 1);
      assert ToBytes(v, n)[1..] == ToBytes(v / 256, n - 1);
    }
  }

  lemma {:induction false} FromBytesBound(bs: seq<byte>)
    ensures FromBytes(bs) < Pow256(|bs|)
  {
    if bs != [] { FromBytesBound(bs[1..]); }
  }

  lemma {:induction false} FromBytesSnoc(bs: seq<byte>, b: byte)
    ensures FromBytes(bs + [b]) == FromBytes(bs) + b * Pow256(|bs|)
  {
    if bs == [] {
      assert [b][1..] == [];
    } else {
      FromBytesSnoc(bs[1..], b);
      assert (bs + [b])[1..] == bs[1..] + [b];
      assert b * Pow256(|bs|) == 256 * (b * Pow256(|bs| - 1));
    }
  }

  /** What is left of the input after reading n bytes as a number. */
  function ReadUint(bs: seq<byte>, n: nat): (r: Result<(nat, seq<byte>)>)
    ensures r.Ok? <==> n <= |bs|
    ensures r.Ok? ==> |r.value.1| == |bs| - n && r.value.0 < Pow256(n)
  {
    if |bs| < n then Err else
      FromBytesBound(bs[..n]);
      Ok((FromBytes(bs[..n]), bs[n..]))
  }

  function ReadByte(bs: seq<byte>): (r: Result<(byte, seq<byte>)>)
    ensures r.Ok? <==> bs != []
    ensures r.Ok? ==> |r.value.1| == |bs| - 1
  {
    if bs == [] then Err else Ok((bs[0], bs[1..]))
  }

  lemma ReadWrittenByte(b: byte, rest: seq<byte>)
    ensures ReadByte([b] + rest) == Ok((b, rest))
  {
    assert ([b] + rest)[1..] == rest;
  }

  /** What was written is read back, whatever follows it. */
  lemma ReadWritten(v: nat, n: nat, rest: seq<byte>)
    requires v < Pow256(n)
    ensures ReadUint(ToBytes(v, n) + rest, n) == Ok((v, rest))
  {
    var bs := ToBytes(v, n) + rest;
    assert bs[..n] == ToBytes(v, n) && bs[n..] == rest;
    FromToBytes(v, n);
  }

  /** A number that does not fit is cut to its low bytes. */
  lemma {:induction false} ToBytesCuts(v: nat, n: nat)
    ensures FromBytes(ToBytes(v, n)) == v % Pow256(n)
  {
    if n > 0 {
      var a, p := v / 256, Pow256(n - 1);
      ToBytesCuts(a, n - 1);
      assert ToBytes(v, n)[1..] == ToBytes(a, n - 1);
      CutOnce(v, p);
    } else {
      DivUnique(v, 1, v, 0);
    }
  }

  lemma CutOnce(v: nat, p: nat)
    requires p > 0
    ensures v % (256 * p) == v % 256 + 256 * (v / 256 % p)
  {
    var a := v / 256;
    DivMod(v, 256);
    DivMod(a, p);
    Regroup(256, p, a / p, a % p, v % 256);
    DivUnique(v, 256 * p, a / p, (a % p) * 256 + v % 256);
  }

  lemma ReadCut(v: nat, n: nat, rest: seq<byte>)
    ensures ReadUint(ToBytes(v, n) + rest, n) == Ok((v % Pow256(n), rest))
  {
    var bs := ToBytes(v, n) + rest;
    assert bs[..n] == ToBytes(v, n) && bs[n..] == rest;
    ToBytesCuts(v, n);
  }

  /** Reads `length` bytes one by one, lowest first. */
  method ReadUintN(input: seq<byte>, length: nat) returns (r: Result<(nat, seq<byte>)>)
    ensures r == ReadUint(input, length)
  {
    var res: nat, i: nat, unit: nat := 0, 0, 1;
    while i < length
      invariant 0 <= i <= length && i <= |input|
      invariant unit == Pow256(i) && res == FromBytes(input[..i])
    {
      if i == |input| {
        return Err;
      }
      FromBytesSnoc(input[..i], input[i]);
      assert input[..i] + [input[i]] == input[..i + 1];
      res := res + input[i] * unit;
      i, unit := i + 1, unit * 256;
    }
    return Ok((res, input[length..]));
  }

  lemma PowValues()
    ensures Pow256(1) == 0x100 && Pow256(2) == 0x1_0000 && Pow256(3) == 0x100_0000 && Pow256(4) == 0x1_0000_0000
    ensures Pow256(5) == 0x100_0000_0000 && Pow256(6) == 0x1_0000_0000_0000
    ensures Pow256(7) == 0x100_0000_0000_0000 && Pow256(8) == TWO_64
  {
    assert Pow256(1) == 256;
    assert Pow256(2) == 256 * Pow256(1);
    assert Pow256(3) == 256 * Pow256(2);
    assert Pow256(4) == 256 * Pow256(3);
    assert Pow256(5) == 256 * Pow256(4);
    assert Pow256(6) == 256 * Pow256(5);
    assert Pow256(7) == 256 * Pow256(6);
    assert Pow256(8) == 256 * Pow256(7);
  }

  /** The two bits that stand for a length of 1, 2, 4 or 6 bytes. */
  function LenBits(l: nat): (b: nat)
    requires l in {1, 2, 4, 6}
    ensures b < 4
  {
    if l == 1 then 0 else l / 2
  }

  function LenFromBits(b: nat): (l: nat)
    requires b < 4
    ensures l in {1, 2, 4, 6}
  {
    if b == 0 then 1 else 2 * b
  }
}
