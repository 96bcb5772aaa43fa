/** The numbers of the packets to send (packet_number_generator.go). */
module PacketNumberGeneration {
  import opened Common

  class PacketNumberGenerator {
    const averagePeriod: nat
    var next: nat
    var nextToSkip: nat

    constructor (averagePeriod: nat)
      requires averagePeriod >= 1
      ensures next == 1 && nextToSkip == 0 && this.averagePeriod == averagePeriod
    {
      this.averagePeriod, next, nextToSkip := averagePeriod, 1, 0;
    }

    /**
     The next number. At most one number is left out before the one after it, and then the two numbers after the one
     that was left out are used. Once the number to skip lies behind, no number is ever left out: a new generator is
     in this state from the start.
     */
    method Pop(random: Option<nat>) returns (number: nat)
      requires averagePeriod >= 1
      modifies this
      ensures number == old(next) && number < next <= number + 2
      ensures next == number + 2 <==> old(nextToSkip) == number + 1
      ensures nextToSkip == if next == number + 2 && random.Some? then DrawSkip(next, random.value) else old(nextToSkip)
      ensures old(nextToSkip) <= number ==> next == number + 1 && nextToSkip < next
    {
      number := next;
      next := next + 1;
      if next == nextToSkip {
        next := next + 1;
        GenerateNewSkip(random);
      }
    }

    /** Draws the number to skip; without a random number it stays what it is. */
    method GenerateNewSkip(random: Option<nat>)
      requires averagePeriod >= 1
      modifies this`nextToSkip
      ensures nextToSkip == if random.Some? then DrawSkip(next, random.value) else old(nextToSkip)
    {
      if random.Some? {
        nextToSkip := next + 2 + random.value * (averagePeriod - 1) / 32767;
      }
    }

    /** The number that is left out next: never the next one or the one after it. */
    ghost function DrawSkip(next: nat, random: nat): (n: nat)
      requires averagePeriod >= 1
      ensures n >= next + 2
    {
      next + 2 + random * (averagePeriod - 1) / 32767
    }

    /** With 16 random bits, a number is left out after about two periods at most, in the middle after one period. */
    lemma SkipIsNear(next: nat, random: nat)
      requires averagePeriod >= 1 && random < 0x1_0000
      ensures DrawSkip(next, random) <= next + 2 + 65535 * (averagePeriod - 1) / 32767
      ensures DrawSkip(next, 32767) == next + 2 + (averagePeriod - 1)
    {
      var p := averagePeriod - 1;
      assert random * p <= 65535 * p by { MulMono(random, 65535, p); }
      DivMono(random * p, 65535 * p);
    }
  }

  lemma MulMono(a: nat, b: nat, c: nat)
    requires a <= b
    ensures a * c <= b * c
  {
  }

  lemma DivMono(a: nat, b: nat)
    requires a <= b
    ensures a / 32767 <= b / 32767
  {
  }

  /** A generator never leaves out a number, whatever the random numbers are. */
  method Draw(averagePeriod: nat, randoms: seq<Option<nat>>) returns (numbers: seq<nat>)
    requires averagePeriod >= 1
    ensures numbers == seq(|randoms|, i => i + 1)
  {
    var g := new PacketNumberGenerator(averagePeriod);
    numbers := [];
    while |numbers| < |randoms|
      invariant |numbers| <= |randoms| && g.averagePeriod >= 1
      invariant g.next == |numbers| + 1 && g.nextToSkip < g.next
      invariant numbers == seq(|numbers|, i => i + 1)
    {
      var n := g.Pop(randoms[|numbers|]);
      numbers := numbers + [n];
    }
  }
}
