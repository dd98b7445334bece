/** class GeneticOptimizer: a population of chromosomes advanced one
    generation at a time by weighted selection, crossover and mutation.
    Every random draw of a generation is a parameter of Step. */
module Optimizer {
  import opened Bits
  import opened Chromosomes
  import Stats

  /** The keyword defaults of GeneticOptimizer.new. */
  const DefaultPopsize: nat := 100
  const DefaultCrossoverRate: real := 0.7
  const DefaultMutationRate: real := 0.001

  /** The draws one selectpair call consumes: two unit draws for
      Stats.choose, the crossover coin Random.rand, and the locus
      Random.rand(64) used when the coin is below the crossover rate. */
  datatype PairDraw = PairDraw(units: seq<real>, coin: real, locus: nat)

  predicate ValidPairDraw(d: PairDraw)
  {
    |d.units| == 2 && (forall k :: 0 <= k < 2 ==> 0.0 <= d.units[k] < 1.0) && d.locus < 64
  }

  /** How many selectpair calls step makes for a population of n: pairs are
      pushed until there are at least n, so one too many when n is odd. */
  function SelectPairCalls(n: nat): (k: nat)
    ensures 2 * k == n + n % 2
  {
    (n + 1) / 2
  }

  /** Draws for the pushes of one generation of a population of n. */
  predicate ValidPairDraws(pairs: seq<PairDraw>, n: nat)
  {
    SelectPairCalls(n) <= |pairs| && forall j :: 0 <= j < |pairs| ==> ValidPairDraw(pairs[j])
  }

  /** The index of the first maximum, as Array#max keeps the first of equals. */
  function FirstMax(s: seq<real>): (k: nat)
    requires |s| > 0
    ensures k < |s|
    ensures forall j :: 0 <= j < |s| ==> s[j] <= s[k]
    ensures forall j :: 0 <= j < k ==> s[j] < s[k]
  {
    if |s| == 1 then 0
    else
      var k := FirstMax(s[..|s| - 1]);
      if s[|s| - 1] > s[k] then |s| - 1 else k
  }

  /** The fitness of each chromosome of pop, in order (chromosomes.map(&:fitness)). */
  function FitnessesOf(pop: seq<Chromosome>): (weights: seq<real>)
    ensures |weights| == |pop|
    ensures forall i :: 0 <= i < |pop| ==> weights[i] == pop[i].fitness
  {
    seq(|pop|, i requires 0 <= i < |pop| => pop[i].fitness)
  }

  /** What selectpair needs of the fitnesses: none negative and two
      positive, because it draws two without replacement. */
  predicate Selectable(pop: seq<Chromosome>)
  {
    Stats.CanDraw(FitnessesOf(pop), 2, false)
  }

  /** selectpair on the population pop: two chromosomes chosen by fitness,
      replaced by the two children of their crossover when the coin is below
      the crossover rate. */
  function SelectPair(pop: seq<Chromosome>, crossoverRate: real, d: PairDraw): (pair: (Chromosome, Chromosome))
    requires Selectable(pop) && ValidPairDraw(d)
  {
    var selected := Stats.Draws(pop, FitnessesOf(pop), 2, false, d.units).0;
    if d.coin < crossoverRate then Crossover(selected[0], selected[1], d.locus)
    else (selected[0], selected[1])
  }

  /** selectpair returns two members of the population unchanged when the
      coin is at or above the crossover rate, and otherwise the crossover
      children of two members. */
  lemma SelectPairParents(pop: seq<Chromosome>, crossoverRate: real, d: PairDraw)
    requires Selectable(pop) && ValidPairDraw(d)
    ensures var pair := SelectPair(pop, crossoverRate, d);
      && (d.coin >= crossoverRate ==> pair.0 in pop && pair.1 in pop)
      && (d.coin < crossoverRate ==> exists a, b :: a in pop && b in pop && pair == Crossover(a, b, d.locus))
  {
    var selected := Stats.Draws(pop, FitnessesOf(pop), 2, false, d.units).0;
    assert selected[0] in pop && selected[1] in pop;
  }

  /** The results of the first k selectpair calls of step, in call order. */
  function Selections(pop: seq<Chromosome>, crossoverRate: real, pairs: seq<PairDraw>, k: nat)
    : (selections: seq<(Chromosome, Chromosome)>)
    requires k == 0 || Selectable(pop)
    requires k <= |pairs| && forall j :: 0 <= j < |pairs| ==> ValidPairDraw(pairs[j])
    ensures |selections| == k
    ensures forall j :: 0 <= j < k ==> selections[j] == SelectPair(pop, crossoverRate, pairs[j])
  {
    seq(k, j requires 0 <= j < k => SelectPair(pop, crossoverRate, pairs[j]))
  }

  /** The list newchromosomes after push(*pair) for each pair in order. */
  function Pushed(selections: seq<(Chromosome, Chromosome)>): (newchromosomes: seq<Chromosome>)
    ensures |newchromosomes| == 2 * |selections|
  {
    if selections == [] then []
    else
      var last := selections[|selections| - 1];
      Pushed(selections[..|selections| - 1]) + [last.0, last.1]
  }

  /** Positions 2j and 2j + 1 of the pushed list hold the two chromosomes of
      pair j. */
  lemma {:induction false} PushedPair(selections: seq<(Chromosome, Chromosome)>, j: nat)
    requires j < |selections|
    ensures Pushed(selections)[2 * j] == selections[j].0
    ensures Pushed(selections)[2 * j + 1] == selections[j].1
  {
    var shorter := selections[..|selections| - 1];
    if j < |selections| - 1 {
      PushedPair(shorter, j);
      assert Pushed(selections)[..2 * |shorter|] == Pushed(shorter);
    }
  }

  /** The list of step after the pushes and the deletion: exactly as long
      as the population, the pushed chromosomes in order with the one at
      deleteAt dropped when the population size is odd. */
  function Offspring(pop: seq<Chromosome>, crossoverRate: real, pairs: seq<PairDraw>, deleteAt: nat)
    : (offspring: seq<Chromosome>)
    requires |pop| > 0 ==> Selectable(pop)
    requires ValidPairDraws(pairs, |pop|)
    requires |pop| % 2 == 1 ==> deleteAt <= |pop|
    ensures |offspring| == |pop|
    ensures forall i :: 0 <= i < |offspring| ==>
      offspring[i] == Pushed(Selections(pop, crossoverRate, pairs, SelectPairCalls(|pop|)))[
        if |pop| % 2 == 1 && deleteAt <= i then i + 1 else i]
  {
    var pushed := Pushed(Selections(pop, crossoverRate, pairs, SelectPairCalls(|pop|)));
    if |pushed| > |pop| then Stats.RemoveAt(pushed, deleteAt) else pushed
  }

  /** The push loop of step: selectpair results are appended until the new
      list is at least as long as the population. */
  method Breed(pop: seq<Chromosome>, crossoverRate: real, pairs: seq<PairDraw>)
    returns (newchromosomes: seq<Chromosome>)
    requires |pop| > 0 ==> Selectable(pop)
    requires ValidPairDraws(pairs, |pop|)
    ensures newchromosomes == Pushed(Selections(pop, crossoverRate, pairs, SelectPairCalls(|pop|)))
  {
    newchromosomes := [];
    ghost var selected: seq<(Chromosome, Chromosome)> := [];
    var k := 0;  // selectpair calls so far
    while |newchromosomes| < |pop|
      invariant 2 * k == |newchromosomes| <= |pop| + 1
      invariant k <= SelectPairCalls(|pop|)
      invariant |selected| == k && newchromosomes == Pushed(selected)
      invariant forall j :: 0 <= j < k ==> selected[j] == SelectPair(pop, crossoverRate, pairs[j])
    {
      var pair := SelectPair(pop, crossoverRate, pairs[k]);
      assert (selected + [pair])[..k] == selected;
      newchromosomes := newchromosomes + [pair.0, pair.1];
      selected := selected + [pair];
      k := k + 1;
    }
    assert k == SelectPairCalls(|pop|);
    assert selected == Selections(pop, crossoverRate, pairs, k);
  }

  /** newchromosomes.map { |c| c.mutate(mutationrate) }, member i using the
      64 draws mutations[i]. */
  method MutateAll(offspring: seq<Chromosome>, rate: real, mutations: seq<seq<real>>)
    returns (mutated: seq<Chromosome>)
    requires |mutations| == |offspring| && forall i :: 0 <= i < |mutations| ==> |mutations[i]| == 64
    ensures |mutated| == |offspring|
    ensures forall i :: 0 <= i < |mutated| ==>
      MutationOf(offspring[i].bitvector, mutated[i].bitvector, mutations[i], rate) &&
      mutated[i] == Clone(offspring[i], mutated[i].bitvector)
  {
    mutated := [];
    while |mutated| < |offspring|
      invariant |mutated| <= |offspring|
      invariant forall i :: 0 <= i < |mutated| ==>
        MutationOf(offspring[i].bitvector, mutated[i].bitvector, mutations[i], rate) &&
        mutated[i] == Clone(offspring[i], mutated[i].bitvector)
    {
      var m := Mutate(offspring[|mutated|], rate, mutations[|mutated|]);
      mutated := mutated + [m];
    }
  }

  class GeneticOptimizer {
    var chromosomes: seq<Chromosome>
    const crossoverRate: real
    const mutationRate: real

    /** GeneticOptimizer.new(chromclass: Chromosome, popsize:, crossoverrate:,
        mutationrate:, objectivefun:, domain:), with the popsize random bit
        vectors of the chromosomes given as seeds. The last three parameters
        default to the keyword defaults. */
    constructor (objective: real -> real, domain: ClosedInterval, seeds: seq<UInt64>,
                 popsize: nat := DefaultPopsize, crossoverRate: real := DefaultCrossoverRate,
                 mutationRate: real := DefaultMutationRate)
      requires |seeds| == popsize
      ensures |chromosomes| == popsize
      ensures forall i :: 0 <= i < popsize ==> chromosomes[i] == NewChromosome(objective, domain, seeds[i])
      ensures this.crossoverRate == crossoverRate && this.mutationRate == mutationRate
    {
      chromosomes := seq(popsize, i requires 0 <= i < popsize => NewChromosome(objective, domain, seeds[i]));
      this.crossoverRate := crossoverRate;
      this.mutationRate := mutationRate;
    }

    /** The decoded values, in population order; each lies in its
        chromosome's domain. */
    function Population(): (values: seq<real>)
      reads this
      ensures |values| == |chromosomes|
      ensures forall i :: 0 <= i < |values| ==> values[i] == chromosomes[i].value
      ensures forall i ::
        (0 <= i < |values| && Consistent(chromosomes[i]) && chromosomes[i].domain.l <= chromosomes[i].domain.h) ==>
        chromosomes[i].domain.l <= values[i] <= chromosomes[i].domain.h
    {
      var pop := chromosomes;
      seq(|pop|, i requires 0 <= i < |pop| => pop[i].value)
    }

    /** The fitnesses, in population order. */
    function Fitnesses(): (weights: seq<real>)
      reads this
      ensures |weights| == |chromosomes|
      ensures forall i :: 0 <= i < |weights| ==> weights[i] == chromosomes[i].fitness
    {
      FitnessesOf(chromosomes)
    }

    /** step: push pairs until the new list is as long as the population,
        delete one at random if it overshot, mutate every member, and make
        the result the population. */
    method Step(pairs: seq<PairDraw>, deleteAt: nat, mutations: seq<seq<real>>)
      requires |chromosomes| > 0 ==> Selectable(chromosomes)
      requires ValidPairDraws(pairs, |chromosomes|)
      requires |chromosomes| % 2 == 1 ==> deleteAt <= |chromosomes|
      requires |mutations| == |chromosomes| && forall i :: 0 <= i < |mutations| ==> |mutations[i]| == 64
      modifies this
      ensures |chromosomes| == |old(chromosomes)|
      ensures forall i :: 0 <= i < |chromosomes| ==>
        var parent := Offspring(old(chromosomes), crossoverRate, pairs, deleteAt)[i];
        MutationOf(parent.bitvector, chromosomes[i].bitvector, mutations[i], mutationRate) &&
        chromosomes[i] == Clone(parent, chromosomes[i].bitvector)
    {
      var newchromosomes := Breed(chromosomes, crossoverRate, pairs);
      if |newchromosomes| > |chromosomes| {
        newchromosomes := Stats.RemoveAt(newchromosomes, deleteAt);
      }
      assert newchromosomes == Offspring(chromosomes, crossoverRate, pairs, deleteAt);
      chromosomes := MutateAll(newchromosomes, mutationRate, mutations);
    }

    /** best: the value of a member of highest fitness (the first such). */
    function Best(): (value: real)
      reads this
      requires |chromosomes| > 0
      ensures exists k ::
        && 0 <= k < |chromosomes| && value == chromosomes[k].value
        && (forall j :: 0 <= j < |chromosomes| ==> chromosomes[j].fitness <= chromosomes[k].fitness)
        && (forall j :: 0 <= j < k ==> chromosomes[j].fitness < chromosomes[k].fitness)
    {
      var k := FirstMax(Fitnesses());
      chromosomes[k].value
    }
  }
}
