# libga in Dafny

A verified model of the engine of libga, a small genetic-algorithm library in
Ruby that maximises a real function of one variable over a closed interval.
Candidate solutions are chromosomes: 64-bit unsigned bit vectors decoded
affinely into the interval. The model covers these modules:

- `Stats` (`stats.dfy`). The roulette-wheel selection of `Stats.choose1` and
  `Stats.choose`. Both are imperative loops, proved against the recursive
  specification functions `Pick` and `Draws`.
- `Bits` (`bits.dfy`). Ruby's `&`, `|`, `^`, `<<` and `>>` on non-negative
  integers. They are defined on `nat` through binary digits, with per-bit
  lemmas. Ruby integers are unbounded, and so is the model: nothing wraps
  around.
- `Chromosomes` (`chromosome.dfy`). The `Chromosome` of the
  function-optimisation example:
  - decoding, `clone`, and the mask crossover `*`, all as functions;
  - `mutate`, as a method running the 64-iteration single-bit-mask loop.
  The objective function is an abstract `real -> real`.
- `Optimizer` (`genetic_optimizer.dfy`). `GeneticOptimizer`, a class whose
  `chromosomes` field `Step` replaces with the next generation. The pure
  readers `Population`, `Fitnesses` and `Best` are functions that read the
  object. `selectpair` is the function `SelectPair` of the population it
  reads; the push loop of `step` is the method `Breed` and its per-member
  `mutate` the method `MutateAll`.

Every random draw is a parameter:
- the unit draw behind `Random.rand(weights.sum)`, scaled by the sum in
  `RandBelow`;
- the crossover coin and the locus `Random.rand(64)`, in `PairDraw`;
- the 64 per-bit draws of one mutation;
- the deletion index `Random.rand(newchromosomes.length)`;
- the initial bit vectors, which replace `Random.randuint64`.

Floating-point numbers are modelled as exact reals.

Behaviour of the code that its descriptions state differently:
- `Stats.choose` deletes the chosen weight from its copy `dupweights`, but
  never deletes from `values`.
  - The next index is computed against the shrunken weights and then used on
    the original values. So draws without replacement can repeat a value, and
    later weights no longer line up with their values.
  - The model follows the code. `Stats.ChooseMayRepeat` exhibits a repeat:
    with weights `[1, 1, 1]` and draws 0.5, 0.75, both draws return the
    second value.
  - No property in the model claims the chosen values are distinct.
- The comment before `Stats.choose` (src/stats.rb:27) reads
  "replace => count <= values.len". What draws without replacement actually
  need is at least `count` positive weights. `Stats.CanDraw` states this.
- The source validates none of its inputs.
  - A domain with l > h is accepted by the model as by the code: `Decode`,
    `NewChromosome` and the constructor take any interval. Only the range
    clause of `Decode`, the range clause of `Population` and
    `DecodeMonotone` assume l <= h.
  - `Stats.choose1` runs whenever the weights have a positive sum, negative
    entries included: with weights [-1, 2] and rnum 0.5 it returns index 1.
    Its documented precondition (src/stats.rb:5-6) also asks for
    non-negative weights, which the scan does not need. The model requires
    only the positive sum.
  - `Stats.choose` without replacement raises once `dupweights` has no
    positive weight left: the sum is then 0, and the scan at
    src/stats.rb:18 runs past the end and adds `nil`. The model requires
    enough positive weights for every draw.
- `Stats.choose1` returns an index whose cumulative bounds enclose the
  draw. That index always carries a positive weight.
  For non-negative weights it is the only such index.

## Model

| member | source | states |
|---|---|---|
| Bits.MaxUint64IsAllOnes | examples/function_optimization.rb:18 | MAXUINT64 is 2^64 - 1, so every bit vector lies below 2^64 |
| Bits.AndBit | examples/function_optimization.rb:63-64 | bit i of `x & y` is set exactly when bit i is set in both |
| Bits.OrBit | examples/function_optimization.rb:63-64 | bit i of x OR y is set exactly when bit i is set in either |
| Bits.XorBit | examples/function_optimization.rb:81 | bit i of `x ^ y` is set exactly when the two bits differ |
| Bits.ShiftRightBit | examples/function_optimization.rb:59 | bit i of `x >> n` is bit i + n of x |
| Bits.ShiftLeftBit | examples/function_optimization.rb:60 | bit i of `x << n` is bit i - n of x when i >= n, and clear below n |
| Bits.ShiftLeftOne | examples/function_optimization.rb:76 | `1 << n` is 2^n |
| Bits.BitsEqual | examples/function_optimization.rb:63-64 | two numbers below 2^n with the same n low bits are equal |
| Bits.BoundFromBits | examples/function_optimization.rb:81 | a number with no bit at or above n is below 2^n |
| Bits.ComplementBit | examples/function_optimization.rb:81 | subtracting from 2^n - 1 flips each of the n low bits |
| Stats.RemoveAt | src/stats.rb:38 | `delete_at(idx)`: one shorter, elements before idx kept, later ones shifted down by one |
| Stats.RemovePositive | src/stats.rb:36-38 | deleting a positive weight leaves exactly one fewer positive weight |
| Stats.SumPositive | src/stats.rb:5-6 | non-negative weights with a positive entry have a positive sum |
| Stats.PickInRange | src/stats.rb:13-23 | for 0 <= rnum < sum, with no sign condition on the weights, the roulette index is in range, has positive weight, and its cumulative bounds enclose rnum |
| Stats.PickUnique | src/stats.rb:18-23 | for non-negative weights, any index whose cumulative bounds enclose rnum is the roulette index |
| Stats.RandBelow | src/stats.rb:13-14 | the scaled draw lies in [0, sum(weights)) |
| Stats.NextDraw | src/stats.rb:35-37 | while a positive weight remains, the next draw of `choose` is well defined and lands on a positive weight |
| Stats.Choose1 | src/stats.rb:5-25 | the scan returns an index in range with positive weight, with sum(weights[0, i]) <= rnum < sum(weights[0, i]) + weights[i], and it is the roulette index |
| Stats.Draws | src/stats.rb:29-42 | after count draws: count values, each a member of `values`; with replacement the weights copy equals `weights`; without, it is count shorter and has count fewer positive weights |
| Stats.DrawOne | src/stats.rb:35-39 | one iteration of the `choose` loop extends the first n draws of `Draws` to the first n + 1 |
| Stats.Choose | src/stats.rb:29-42 | the loop returns exactly the draws of `Draws`: count values, each a member of `values` |
| Stats.ChooseMayRepeat | src/stats.rb:36-38 | without replacement, weights [1, 1, 1] and draws 0.5, 0.75 choose the second value twice |
| Chromosomes.Decode | examples/function_optimization.rb:34-36 | for l <= h the decoded value lies in [l, h] |
| Chromosomes.NewChromosome | examples/function_optimization.rb:30-38 | the chromosome keeps its bit vector, objective and domain; its value is the decoding, lies in the domain, and its fitness is the objective of that value |
| Chromosomes.Clone | examples/function_optimization.rb:42-44 | a new consistent chromosome with the given bit vector and the original's objective and domain |
| Chromosomes.DecodeEnds | examples/function_optimization.rb:34-36 | bit vector 0 decodes to l and MAXUINT64 to h |
| Chromosomes.DecodeMonotone | examples/function_optimization.rb:34-36 | for l <= h decoding is non-decreasing in the bit vector |
| Chromosomes.MaskBits | examples/function_optimization.rb:59-60 | rightmask has exactly bits 0..63-locus, leftmask exactly bits locus..63 |
| Chromosomes.MasksFit | examples/function_optimization.rb:59-60 | both masks are at most MAXUINT64 |
| Chromosomes.CrossBitsBit | examples/function_optimization.rb:59-64 | each child bit: OR of the parents in both masks; a for c and b for d in leftmask only; b for c and a for d in rightmask only; 0 in neither |
| Chromosomes.CrossAtZero | examples/function_optimization.rb:59-64 | at locus 0 both children are a OR b |
| Chromosomes.CrossAtMiddle | examples/function_optimization.rb:59-64 | at locus 32 the masks are disjoint and cover all 64 bits; c takes the high half of a and the low half of b, d the reverse |
| Chromosomes.CrossGap | examples/function_optimization.rb:59-64 | for locus >= 33, bits 64-locus..locus-1 are 0 in both children |
| Chromosomes.CrossSwap | examples/function_optimization.rb:63-64 | swapping the parents swaps the children |
| Chromosomes.Crossover | examples/function_optimization.rb:49-68 | two consistent children with the receiver's objective and domain, whose bit vectors are the mask splice of the parents |
| Chromosomes.Mutate | examples/function_optimization.rb:71-89 | the loop walks the mask from 2^63 down to 1. The result flips exactly the bits whose draw is below the rate, keeps every other bit, stays at most MAXUINT64, and is a clone of the input |
| Chromosomes.MutationUnique | examples/function_optimization.rb:76-85 | the draws and the rate determine the mutant |
| Chromosomes.MutationRateZero | examples/function_optimization.rb:81 | with draws in [0, 1), rate 0 leaves the bit vector unchanged |
| Chromosomes.MutationRateOne | examples/function_optimization.rb:81 | with draws in [0, 1), rate 1 yields the bitwise complement MAXUINT64 - x |
| Optimizer.FirstMax | src/genetic_optimizer.rb:68 | an index of a maximum, and no earlier element is as large |
| Optimizer.SelectPairCalls | src/genetic_optimizer.rb:52-53 | two chromosomes per call reach n when n is even and n + 1 when n is odd |
| Optimizer.MutateAll | src/genetic_optimizer.rb:61 | same length and order; member i is the mutation of input i under draws i, cloned from it |
| Optimizer.GeneticOptimizer.constructor | src/genetic_optimizer.rb:29-34 | exactly popsize chromosomes, each built from its seed, objective and domain; the rates are stored; popsize, crossover rate and mutation rate default to 100, 0.7 and 0.001 |
| Optimizer.GeneticOptimizer.Population | src/genetic_optimizer.rb:37-39 | the values in population order; the value of each consistent chromosome whose domain has l <= h lies within that domain |
| Optimizer.GeneticOptimizer.Fitnesses | src/genetic_optimizer.rb:42-44 | the fitnesses in population order |
| Optimizer.SelectPairParents | src/genetic_optimizer.rb:14-20 | at or above the crossover rate, selectpair returns two population members; below it, the crossover children of two population members |
| Optimizer.Pushed | src/genetic_optimizer.rb:49-53 | k pushes of a pair make a list of 2k chromosomes |
| Optimizer.PushedPair | src/genetic_optimizer.rb:52-53 | positions 2j and 2j + 1 of the pushed list hold the pair of push j |
| Optimizer.Breed | src/genetic_optimizer.rb:49-53 | the push loop makes exactly the list of the first SelectPairCalls(n) selectpair results, pushed in call order |
| Optimizer.Offspring | src/genetic_optimizer.rb:49-58 | after the conditional delete the list has exactly n members: the pushed ones in order, without the one at the deletion index when n is odd |
| Optimizer.GeneticOptimizer.Step | src/genetic_optimizer.rb:48-64 | the population keeps its size. Member i is the mutation, under its draws, of member i of the pushed-and-trimmed list, and a clone of it |
| Optimizer.GeneticOptimizer.Best | src/genetic_optimizer.rb:67-69 | the value of a member whose fitness is at least every member's, the first such |

## Left out

- Floating point: decoding, the cumulative sums and all draws use exact reals.
  - Rounding is not modelled.
  - Neither is the conversion of MAXUINT64 to a float in the division at
    examples/function_optimization.rb:35.
  - Nor is a scan that runs past the end of the weights under rounding.
- Random number generation: every `Random.rand` and `Random.randuint64`
  result is a parameter. Consequently there are no statistical claims, such
  as flip frequency, uniformity or convergence.
- The driver script and the `Random.randuint64` extension
  (examples/function_optimization.rb:8-12, 92-99). They are I/O around the
  engine. The objective `x + |sin(32x)|` stays an abstract function.
- The unused readers `objectivefun`, `minval` and `scalefactor`
  (src/genetic_optimizer.rb:9-10).
- The duck-typed `chromclass:` and `**chromargs`: the optimizer is built
  over the example's `Chromosome`.
- Stats.Choose1: requires a positive sum of the weights. With a sum of 0
  or less, `Random.rand` is not given a positive float bound, and that case
  is not modelled.
- Stats.Choose: requires `|weights| <= |values|`, non-negative weights (the
  precondition documented at src/stats.rb:5) and a positive weight for
  every draw. Ruby returns `nil` for an index past `values`; the
  optimizer always passes equal lengths. Without replacement, negative
  weights can leave a later `dupweights` with a sum of 0 or less even
  while positive weights remain. Draws over negative weights are
  therefore not modelled, even where Ruby would complete them.
- Optimizer.GeneticOptimizer.Step: requires no negative fitness and at
  least two positive ones, so that both draws of selectpair are defined
  as `Stats.Choose` models them. The source checks neither; populations
  with negative fitnesses are not modelled.
- Optimizer.GeneticOptimizer.Best: requires a non-empty population. Ruby
  would call `value` on `nil`.
