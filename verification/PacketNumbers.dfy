/** Truncated packet numbers (protocol/packet_number.go). All arithmetic is uint64. */
module PacketNumbers {
  import opened Common
  import opened Arithmetic
  import opened AckFrames
  import opened Wire

  function Delta(a: nat, b: nat): nat {
    if a < b then b - a else a - b
  }

  function ClosestTo(target: nat, a: nat, b: nat): nat {
    if Delta(target, a) < Delta(target, b) then a else b
  }

  /** The packet number that a receiver infers from the low bytes on the wire, if `last` is the largest it has seen. */
  function InferPacketNumber(len: nat, last: nat, wire: nat): nat
    requires len in {1, 2, 4, 6} && last < TWO_64 - 1
  {
    var epochDelta := Pow256(len);
    InferFromEpoch(epochDelta, last - last % epochDelta, last, wire)
  }

  function InferFromEpoch(epochDelta: nat, epoch: nat, last: nat, wire: nat): nat {
    var prevEpochBegin := Wrap(epoch - epochDelta);
    var nextEpochBegin := Wrap(epoch + epochDelta);
    ClosestTo(last + 1, Wrap(epoch + wire),
      ClosestTo(last + 1, Wrap(prevEpochBegin + wire), Wrap(nextEpochBegin + wire)))
  }

  /** The length that the sender chooses; it leaves out 1 byte. */
  function LengthForPublicHeader(packetNumber: nat, leastUnacked: nat): (l: nat)
    ensures l in {2, 4, 6}
  {
    var diff := Wrap(packetNumber - leastUnacked);
    if diff < 0x8000 then 2 else if diff < 0x8000_0000 then 4 else 6
  }

  const TWO_62: nat := 0x4000_0000_0000_0000

  /**
   When a receiver that expects packet e next recovers packet pn from its low part: pn is less than half an epoch of d
   numbers away; or exactly half an epoch away and not in the epoch of the last packet; or ahead in the first epoch,
   before which there is none.
   */
  ghost predicate Recoverable(d: nat, last: nat, pn: nat)
    requires d > 0
  {
    var e := last + 1;
    || 2 * Delta(e, pn) < d
    || (2 * Delta(e, pn) == d && pn / d != last / d)
    || (pn < d && e <= pn && last < d)
  }

  /** The three candidates, for an epoch of d numbers. */
  ghost function Infer(d: nat, epoch: nat, last: nat, wire: nat): nat
    requires 0 < d <= TWO_62 && (epoch == 0 || d <= epoch) && epoch <= TWO_62 && wire < d
  {
    ClosestTo(last + 1, epoch + wire,
      ClosestTo(last + 1, if epoch == 0 then TWO_64 - d + wire else epoch - d + wire, epoch + d + wire))
  }

  /** Which of the three candidates is chosen; `begin` is where the epoch of the candidate begins. */
  lemma InferChooses(half: nat, d: nat, epoch: nat, last: nat, begin: nat, wire: nat)
    requires 1 <= half && d == 2 * half <= TWO_62 / 0x1000 && wire < d
    requires (epoch == 0 || d <= epoch) && epoch <= last < epoch + d && last < TWO_62 && begin + wire < TWO_62
    requires begin == epoch || begin == epoch + d || (d <= epoch && begin == epoch - d)
    ensures Infer(d, epoch, last, wire) == begin + wire <==>
      || 2 * Delta(last + 1, begin + wire) < d
      || (2 * Delta(last + 1, begin + wire) == d && begin != epoch)
      || (epoch == 0 && begin == 0 && last < wire)
  {
  }

  lemma EpochOf(n: nat, d: nat)
    requires d > 0
    ensures var begin := n - n % d; begin == n / d * d && (begin == 0 || d <= begin) && begin <= n < begin + d
    ensures n < d <==> n - n % d == 0
  {
    DivMod(n, d);
    MulMono(1, n / d, d);
  }

  /** Two numbers are in the same, in neighbouring, or in distant epochs. */
  lemma EpochsApart(a: nat, b: nat, d: nat)
    requires d > 0
    ensures var x, y := a - a % d, b - b % d;
      && (a / d == b / d <==> x == y)
      && (x < y ==> x + d <= y)
      && (y < x ==> y + d <= x)
      && (x + d < y ==> x + 2 * d <= y)
      && (y + d < x ==> y + 2 * d <= x)
  {
    EpochOf(a, d);
    EpochOf(b, d);
    var p, q := a / d, b / d;
    MulMono(p, q, d);
    MulMono(q, p, d);
    MulMono(p + 1, q, d);
    MulMono(q + 1, p, d);
    MulMono(p + 2, q, d);
    MulMono(q + 2, p, d);
    MulAdd(p, 1, d);
    MulAdd(q, 1, d);
    MulAdd(p, 2, d);
    MulAdd(q, 2, d);
  }

  /**
   A receiver recovers a packet number from its low bytes exactly when the number is close enough to the one expected
   next, although the subtraction of an epoch wraps around in the first epoch.
   */
  lemma InferExact(len: nat, last: nat, pn: nat)
    requires len in {1, 2, 4, 6} && last < TWO_62 && pn < TWO_62
    ensures InferPacketNumber(len, last, pn % Pow256(len)) == pn <==> Recoverable(Pow256(len), last, pn)
  {
    hide InferFromEpoch, Infer, Delta;
    PowValues();
    var d, half := Pow256(len), 128 * Pow256(len - 1);
    EpochOf(last, d);
    EpochOf(pn, d);
    EpochsApart(last, pn, d);
    InferIsInfer(d, last - last % d, last, pn % d);
    InferDecides(half, d, last - last % d, last, pn - pn % d, pn % d);
  }

  /** The same in terms of the epochs, without division. */
  lemma InferDecides(half: nat, d: nat, epoch: nat, last: nat, begin: nat, wire: nat)
    requires 1 <= half && d == 2 * half <= TWO_62 / 0x1000 && wire < d
    requires (epoch == 0 || d <= epoch) && epoch <= last < epoch + d && last < TWO_62 && begin + wire < TWO_62
    requires begin == epoch || begin == epoch + d || begin + d == epoch || begin >= epoch + 2 * d
      || begin + 2 * d <= epoch
    requires begin == 0 || d <= begin
    ensures Infer(d, epoch, last, wire) == begin + wire <==>
      || 2 * Delta(last + 1, begin + wire) < d
      || (2 * Delta(last + 1, begin + wire) == d && begin != epoch)
      || (epoch == 0 && begin == 0 && last < wire)
  {
    if epoch <= begin + d && begin <= epoch + d {
      InferChooses(half, d, epoch, last, begin, wire);
    } else {
      InferNear(d, epoch, last, wire);
    }
  }

  /** Nothing wraps around but the subtraction in the first epoch. */
  lemma InferIsInfer(d: nat, epoch: nat, last: nat, wire: nat)
    requires wire < d <= TWO_62 / 0x1000 && (epoch == 0 || d <= epoch) && epoch <= TWO_62
    ensures InferFromEpoch(d, epoch, last, wire) == Infer(d, epoch, last, wire)
  {
    hide ClosestTo;
    Candidates(d, epoch, wire);
  }

  lemma Candidates(d: nat, epoch: nat, wire: nat)
    requires wire < d <= TWO_62 / 0x1000 && (epoch == 0 || d <= epoch) && epoch <= TWO_62
    ensures Wrap(epoch + wire) == epoch + wire
    ensures Wrap(Wrap(epoch - d) + wire) == if epoch == 0 then TWO_64 - d + wire else epoch - d + wire
    ensures Wrap(Wrap(epoch + d) + wire) == epoch + d + wire
  {
  }

  lemma InferNear(d: nat, epoch: nat, last: nat, wire: nat)
    requires 2 <= d <= TWO_62 / 0x1000 && wire < d && (epoch == 0 || d <= epoch) && epoch <= last < epoch + d
      && last < TWO_62
    ensures var r := Infer(d, epoch, last, wire);
      r == epoch + wire || r == epoch + d + wire || (d <= epoch && r == epoch - d + wire) || r >= TWO_62
  {
  }

  /**
   The length that the sender chooses is enough for every receiver that has seen a packet at or after the one before
   `leastUnacked`, and none at or after this one. After an alarm the oldest packet in the history of the sender need not
   be the oldest that is not acknowledged, so the first is then not certain.
   */
  lemma ChosenLengthSuffices(pn: nat, leastUnacked: nat, last: nat)
    requires leastUnacked <= last + 1 <= pn < TWO_62 && pn - leastUnacked < 0x8000_0000_0000
    ensures var len := LengthForPublicHeader(pn, leastUnacked); InferPacketNumber(len, last, pn % Pow256(len)) == pn
  {
    PowValues();
    InferExact(LengthForPublicHeader(pn, leastUnacked), last, pn);
  }
}
