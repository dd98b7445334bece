/** The chromosome of the function-optimisation example: a 64-bit unsigned
    integer decoded to a point of a closed interval, with crossover around a
    locus and per-bit mutation. Random draws are parameters. */
module Chromosomes {
  import opened Bits

  /** A closed interval [l, h] of reals (Ruby Struct ClosedInterval). */
  datatype ClosedInterval = ClosedInterval(l: real, h: real)

  /** A chromosome. `value` and `fitness` are computed once, when it is built. */
  datatype Chromosome = Chromosome(
    bitvector: UInt64,
    objective: real -> real,
    domain: ClosedInterval,
    value: real,
    fitness: real)

  /** The affine decoding minval + scalefactor * bitvector, over exact reals. */
  function Decode(domain: ClosedInterval, bitvector: UInt64): (value: real)
    ensures domain.l <= domain.h ==> domain.l <= value <= domain.h
  {
    var scalefactor := (domain.h - domain.l) / (MaxUint64 as real);
    assert domain.l <= domain.h ==> 0.0 <= scalefactor * (bitvector as real) <= scalefactor * (MaxUint64 as real);
    domain.l + scalefactor * (bitvector as real)
  }

  /** The cached value and fitness are those of the bit vector. */
  predicate Consistent(c: Chromosome)
  {
    c.value == Decode(c.domain, c.bitvector) && c.fitness == c.objective(c.value)
  }

  /** Chromosome.new(objectivefun:, domain:, bitvector:) */
  function NewChromosome(objective: real -> real, domain: ClosedInterval, bitvector: UInt64): (c: Chromosome)
    ensures c.bitvector == bitvector && c.objective == objective && c.domain == domain
    ensures Consistent(c)
    ensures domain.l <= domain.h ==> domain.l <= c.value <= domain.h
  {
    var value := Decode(domain, bitvector);
    Chromosome(bitvector, objective, domain, value, objective(value))
  }

  /** A new chromosome with the objective function and domain of c. */
  function Clone(c: Chromosome, bitvector: UInt64): (r: Chromosome)
    ensures r.objective == c.objective && r.domain == c.domain && r.bitvector == bitvector
    ensures Consistent(r)
  {
    NewChromosome(c.objective, c.domain, bitvector)
  }

  lemma DecodeEnds(domain: ClosedInterval)
    ensures Decode(domain, 0) == domain.l
    ensures Decode(domain, MaxUint64) == domain.h
  {
  }

  lemma DecodeMonotone(domain: ClosedInterval, x: UInt64, y: UInt64)
    requires domain.l <= domain.h && x <= y
    ensures Decode(domain, x) <= Decode(domain, y)
  {
    var scalefactor := (domain.h - domain.l) / (MaxUint64 as real);
    assert scalefactor >= 0.0;
    assert scalefactor * ((y - x) as real) >= 0.0;
    assert scalefactor * (x as real) <= scalefactor * (y as real);
  }

  // ---------------------------------------------------------------------
  // Crossover

  /** rightmask = MAXUINT64 >> locus */
  function RightMask(locus: nat): nat
  {
    ShiftRight(MaxUint64, locus)
  }

  /** leftmask = rightmask << locus */
  function LeftMask(locus: nat): nat
  {
    ShiftLeft(RightMask(locus), locus)
  }

  /** rightmask holds bits 0..63-locus, leftmask bits locus..63, and both
      fit in 64 bits (the shift left loses nothing). */
  lemma MaskBits(locus: nat, i: nat)
    requires locus < 64
    ensures Bit(RightMask(locus), i) <==> i <= 63 - locus
    ensures Bit(LeftMask(locus), i) <==> locus <= i <= 63
  {
    MaxUint64IsAllOnes();
    ShiftRightBit(MaxUint64, locus, i);
    AllOnesBit(64, i + locus);
    ShiftLeftBit(RightMask(locus), locus, i);
    if locus <= i {
      ShiftRightBit(MaxUint64, locus, i - locus);
      AllOnesBit(64, i);
    }
  }

  lemma MasksFit(locus: nat)
    requires locus < 64
    ensures RightMask(locus) <= MaxUint64 && LeftMask(locus) <= MaxUint64
  {
    forall i | 64 <= i
      ensures !Bit(RightMask(locus), i) && !Bit(LeftMask(locus), i)
    {
      MaskBits(locus, i);
    }
    BoundFromBits(RightMask(locus), 64);
    BoundFromBits(LeftMask(locus), 64);
    MaxUint64IsAllOnes();
  }

  /** (left & x) | (right & y) stays within 64 bits. */
  lemma SpliceFits(left: nat, right: nat, x: UInt64, y: UInt64)
    ensures Or(And(left, x), And(right, y)) <= MaxUint64
  {
    MaxUint64IsAllOnes();
    AndBound(x, left, 64);
    AndBound(y, right, 64);
    AndCommutes(left, x);
    AndCommutes(right, y);
    OrBound(And(left, x), And(right, y), 64);
  }

  lemma AndCommutes(x: nat, y: nat)
    ensures And(x, y) == And(y, x)
    decreases x + y
  {
    if x != 0 && y != 0 {
      AndCommutes(x / 2, y / 2);
    }
  }

  /** The two children's bit vectors: c = leftmask & a | rightmask & b and
      d = leftmask & b | rightmask & a. */
  function CrossBits(a: UInt64, b: UInt64, locus: nat): (children: (UInt64, UInt64))
    requires locus < 64
  {
    var right := RightMask(locus);
    var left := LeftMask(locus);
    SpliceFits(left, right, a, b);
    SpliceFits(left, right, b, a);
    (Or(And(left, a), And(right, b)), Or(And(left, b), And(right, a)))
  }

  /** Where each child bit comes from. Bits in both masks are the OR of the
      parents' bits; bits only in leftmask come from a for c and from b for d;
      bits only in rightmask come from b for c and from a for d; bits in
      neither mask are 0. */
  lemma {:induction false} CrossBitsBit(a: UInt64, b: UInt64, locus: nat, i: nat)
    requires locus < 64 && i < 64
    ensures var (c, d) := CrossBits(a, b, locus);
      && (locus <= i <= 63 - locus ==>
            (Bit(c, i) <==> Bit(a, i) || Bit(b, i)) && (Bit(d, i) <==> Bit(a, i) || Bit(b, i)))
      && (63 - locus < i && locus <= i ==>
            (Bit(c, i) <==> Bit(a, i)) && (Bit(d, i) <==> Bit(b, i)))
      && (i < locus && i <= 63 - locus ==>
            (Bit(c, i) <==> Bit(b, i)) && (Bit(d, i) <==> Bit(a, i)))
      && (63 - locus < i < locus ==> !Bit(c, i) && !Bit(d, i))
  {
    var right := RightMask(locus);
    var left := LeftMask(locus);
    MaskBits(locus, i);
    OrBit(And(left, a), And(right, b), i);
    OrBit(And(left, b), And(right, a), i);
    AndBit(left, a, i);
    AndBit(left, b, i);
    AndBit(right, a, i);
    AndBit(right, b, i);
  }

  /** At locus 0 both masks are MAXUINT64 and both children are a | b. */
  lemma CrossAtZero(a: UInt64, b: UInt64)
    ensures CrossBits(a, b, 0) == (Or(a, b), Or(a, b))
  {
    var (c, d) := CrossBits(a, b, 0);
    MaxUint64IsAllOnes();
    OrBound(a, b, 64);
    forall i | 0 <= i < 64
      ensures (Bit(c, i) <==> Bit(Or(a, b), i)) && (Bit(d, i) <==> Bit(Or(a, b), i))
    {
      CrossBitsBit(a, b, 0, i);
      OrBit(a, b, i);
    }
    BitsEqual(c, Or(a, b), 64);
    BitsEqual(d, Or(a, b), 64);
  }

  /** At locus 32 the masks partition the 64 bits: c is the high half of a
      over the low half of b, and d the reverse. */
  lemma CrossAtMiddle(a: UInt64, b: UInt64)
    ensures And(LeftMask(32), RightMask(32)) == 0
    ensures Or(LeftMask(32), RightMask(32)) == MaxUint64
    ensures forall i :: 0 <= i < 64 ==>
      (Bit(CrossBits(a, b, 32).0, i) <==> if i < 32 then Bit(b, i) else Bit(a, i))
    ensures forall i :: 0 <= i < 64 ==>
      (Bit(CrossBits(a, b, 32).1, i) <==> if i < 32 then Bit(a, i) else Bit(b, i))
  {
    var left, right := LeftMask(32), RightMask(32);
    MaxUint64IsAllOnes();
    MasksFit(32);
    AndBound(left, right, 64);
    OrBound(left, right, 64);
    forall i | 0 <= i < 64
      ensures !Bit(And(left, right), i) && Bit(Or(left, right), i)
    {
      MaskBits(32, i);
      AndBit(left, right, i);
      OrBit(left, right, i);
    }
    forall i | 0 <= i < 64
      ensures !Bit(0, i) && Bit(MaxUint64, i)
    {
      ZeroBit(i);
      AllOnesBit(64, i);
    }
    BitsEqual(And(left, right), 0, 64);
    BitsEqual(Or(left, right), MaxUint64, 64);
    forall i | 0 <= i < 64
      ensures (Bit(CrossBits(a, b, 32).0, i) <==> if i < 32 then Bit(b, i) else Bit(a, i))
      ensures (Bit(CrossBits(a, b, 32).1, i) <==> if i < 32 then Bit(a, i) else Bit(b, i))
    {
      CrossBitsBit(a, b, 32, i);
    }
  }

  /** For locus >= 33 the bits 64-locus..locus-1 lie in neither mask and are
      0 in both children. */
  lemma CrossGap(a: UInt64, b: UInt64, locus: nat, i: nat)
    requires 33 <= locus < 64 && 64 - locus <= i < locus
    ensures !Bit(CrossBits(a, b, locus).0, i) && !Bit(CrossBits(a, b, locus).1, i)
  {
    CrossBitsBit(a, b, locus, i);
  }

  /** Swapping the parents swaps the children. */
  lemma CrossSwap(a: UInt64, b: UInt64, locus: nat)
    requires locus < 64
    ensures CrossBits(b, a, locus) == (CrossBits(a, b, locus).1, CrossBits(a, b, locus).0)
  {
  }

  /** self * other: both children are clones of self. */
  function Crossover(self: Chromosome, other: Chromosome, locus: nat): (children: (Chromosome, Chromosome))
    requires locus < 64
    ensures children.0.objective == self.objective && children.0.domain == self.domain
    ensures children.1.objective == self.objective && children.1.domain == self.domain
    ensures Consistent(children.0) && Consistent(children.1)
    ensures (children.0.bitvector, children.1.bitvector) == CrossBits(self.bitvector, other.bitvector, locus)
  {
    var (c, d) := CrossBits(self.bitvector, other.bitvector, locus);
    (Clone(self, c), Clone(self, d))
  }

  // ---------------------------------------------------------------------
  // Mutation

  /** y is x with exactly those bits flipped whose draw fell below the rate;
      the k-th draw belongs to bit 63 - k. */
  predicate MutationOf(x: UInt64, y: nat, draws: seq<real>, rate: real)
    requires |draws| == 64
  {
    y <= MaxUint64 &&
    forall i :: 0 <= i < 64 ==> (Bit(y, i) <==> (Bit(x, i) != (draws[63 - i] < rate)))
  }

  /** mutate(mutationrate): a single-bit mask walks from 2^63 down to 1, and
      x ^= bitmask whenever that iteration's draw is below the rate. */
  method Mutate(c: Chromosome, rate: real, draws: seq<real>) returns (m: Chromosome)
    requires |draws| == 64
    ensures MutationOf(c.bitvector, m.bitvector, draws, rate)
    ensures m == Clone(c, m.bitvector)
  {
    MaxUint64IsAllOnes();
    var x: nat := c.bitvector;
    var bitmask: nat := ShiftLeft(1, 63);
    ShiftLeftOne(63);
    var k: nat := 0;  // draws consumed so far
    while bitmask > 0
      invariant k <= 64
      invariant bitmask == if k < 64 then Pow2(63 - k) else 0
      invariant x < Pow2(64)
      invariant forall i :: 0 <= i < 64 ==>
        (Bit(x, i) <==> (Bit(c.bitvector, i) != (63 - k < i && draws[63 - i] < rate)))
      decreases 64 - k
    {
      if draws[k] < rate {
        Pow2Less(63 - k, 64);
        XorBound(x, bitmask, 64);
        forall i | 0 <= i < 64
          ensures Bit(Xor(x, bitmask), i) <==> (Bit(x, i) != (i == 63 - k))
        {
          XorBit(x, bitmask, i);
          Pow2Bit(63 - k, i);
        }
        x := Xor(x, bitmask);
      }
      assert 63 - k > 0 ==> Pow2(63 - k) / 2 == Pow2(63 - k - 1);
      assert ShiftRight(bitmask, 1) == bitmask / 2;
      bitmask := ShiftRight(bitmask, 1);
      k := k + 1;
    }
    m := Clone(c, x);
  }

  /** The per-bit description determines the mutant. */
  lemma MutationUnique(x: UInt64, y: UInt64, z: UInt64, draws: seq<real>, rate: real)
    requires |draws| == 64
    requires MutationOf(x, y, draws, rate) && MutationOf(x, z, draws, rate)
    ensures y == z
  {
    MaxUint64IsAllOnes();
    BitsEqual(y, z, 64);
  }

  /** With every draw in [0, 1), rate 0 flips nothing. */
  lemma MutationRateZero(x: UInt64, y: UInt64, draws: seq<real>)
    requires |draws| == 64 && forall k :: 0 <= k < 64 ==> 0.0 <= draws[k]
    requires MutationOf(x, y, draws, 0.0)
    ensures y == x
  {
    MaxUint64IsAllOnes();
    forall i | 0 <= i < 64
      ensures Bit(y, i) <==> Bit(x, i)
    {
      assert 0.0 <= draws[63 - i];
    }
    BitsEqual(y, x, 64);
  }

  /** With every draw in [0, 1), rate 1 flips every bit: the result is the
      64-bit complement MAXUINT64 - x. */
  lemma MutationRateOne(x: UInt64, y: UInt64, draws: seq<real>)
    requires |draws| == 64 && forall k :: 0 <= k < 64 ==> draws[k] < 1.0
    requires MutationOf(x, y, draws, 1.0)
    ensures y == MaxUint64 - x
  {
    MaxUint64IsAllOnes();
    forall i | 0 <= i < 64
      ensures Bit(y, i) <==> Bit(MaxUint64 - x, i)
    {
      assert draws[63 - i] < 1.0;
      ComplementBit(x, 64, i);
    }
    BitsEqual(y, MaxUint64 - x, 64);
  }
}
