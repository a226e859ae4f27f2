# Heuristic genetic algorithm for the travelling salesman problem — verified model of the driver

The Java program evolves permutation-encoded tours with the JGAP library. The
class `TravelingSalesman` contains three pieces of logic of its own, and this
project models and verifies them:

1. **Distance model** (`distance.dfy`, module `Distance`). It computes the edge
   weight between two cities for the TSPLIB edge-weight types ATT
   (pseudo-Euclidean) and EUC_2D (Euclidean, rounded to the nearest integer).
   The metric is chosen by the problem's edge-weight-type tag. The same city
   gives 0 before any coordinate is read. An unknown tag gives -1. There are
   two overloads, one on city indices and one on integer genes, and the model
   proves they agree.
2. **Tour blueprint** (`genes.dfy`, module `Genes`). The sample chromosome
   holds gene `i` = city `i` (the identity permutation). The initial city
   work-list is `1..CITIES-1` in increasing order.
3. **Evolution loop with stagnation exit** (`evolution.dfy`, module
   `Evolution`). This is the generation loop of `findOptimalPath`, with its
   `counter`, `previousBest`, `best` and the static `bestChromosome`. The
   static becomes a field of the class `EvolutionDriver`. The genetic
   library's `evolve()` and `getFittestChromosome()` are replaced by an input
   sequence `gens`: `gens[i]` is the fittest chromosome after the `(i+1)`-th
   generation.

Modelling choices:

- Coordinates and distances are exact reals.
- The square root is a parameter `sqrt: real -> real`. The only fact assumed
  about it is that it is non-negative (`NonNegativeRoot`), and only where
  non-negativity is claimed.
- `Math.round(x)` is `Floor(x + 0.5)`.
- Fitness values are integers, because a fitness is a sum of rounded
  distances.
- The cast `(int)` of a fitness saturates at the Java `int` range
  (`IntCast`). `previousBest` starts at `Integer.MAX_VALUE`.
- The stagnation threshold `maxEvolution * .3` is a real parameter
  `threshold`. `SourceThreshold(m)` is the source's expression, computed in
  exact reals.
- The maximum number of generations is a parameter. Population size and
  start offset do not appear in the model: only the initialisation loop
  (`TravelingSalesman.java:557`) and the genetic operators use them, and
  neither is modelled. The source's default start offset is 0
  (`TravelingSalesman.java:83`), although the doc comments say 1. The doc
  comments also say "default 512" for the population size and the maximum
  number of generations, but both are set by a formula.

What the code does, where its own comments say otherwise:

- **Stagnation threshold.** The comment at `TravelingSalesman.java:652` says
  the loop exits once fitness has been stuck for 30% of the iterations in a
  row. The counter is compared with the threshold before it is incremented,
  so the loop exits on the `(t+1)`-th consecutive repeat
  (`ExitIsRepeatAfterThreshold`). The
  comparison is an exact equality between an `int` and `maxEvolution * .3`.
  Even in exact arithmetic it can only hold when that product is a whole
  number, that is, when `maxEvolution` is a multiple of 10
  (`SourceThresholdWhole`). For every other `maxEvolution`, all generations
  are evolved (`SourceThresholdRunsToLimit`). The double product is whole
  exactly for the same values, the multiples of 10, for every `maxEvolution`
  up to 2,000,000. So the exact-real idealisation does not change when the
  early exit can fire.
- **"Best" bookkeeping.** The comments at `TravelingSalesman.java:660` and
  `:677` speak of keeping "the best so far" and returning "the best solution
  found". In the code, a repeat means "equal to the immediately preceding
  generation", not "equal to the best so far". `previousBest` is overwritten
  after every generation, including a worse one. `bestChromosome` is replaced
  only when a generation is strictly better than its predecessor, so it need
  not be the best chromosome seen. The method returns the last generation's
  fittest chromosome, not `bestChromosome`.
- **ATT symmetry.** In exact arithmetic ATT is symmetric, as EUC_2D is
  (`DistanceSymmetric`). The sign convention `yd = y2 - y1` does not matter, because only
  `yd * yd` enters the formula.
- **Distance zero.** A distance of 0 is guaranteed for the same city. Two
  different cities at the same coordinates also get 0. The code does not
  promise "zero only for the same city".

## Model

| member | source | states |
|---|---|---|
| Distance.Round | src/TravelingSalesman/TravelingSalesman.java:385 | `Math.round` gives the nearest integer, with halves rounded up: `x - 0.5 < n <= x + 0.5` |
| Distance.AttCorrection | src/TravelingSalesman/TravelingSalesman.java:384-391 | "round `rij`, then add 1 if the rounded value fell below `rij`" equals the ceiling of `rij`: the least integer `>= rij`; it is `< rij + 1` |
| Distance.CityDistance | src/TravelingSalesman/TravelingSalesman.java:442-507 | unknown tag gives -1; known tag and same city gives 0, and no coordinate is needed then (indices must be valid only when a lookup happens); known tag gives an integer value, non-negative when sqrt is; ATT is the ceiling of `sqrt(squared distance / 10)`; EUC_2D is the rounded `sqrt(squared distance)` |
| Distance.GeneDistance | src/TravelingSalesman/TravelingSalesman.java:356-427 | the `Gene` overload returns exactly what the `int` overload returns for the genes' city indices |
| Distance.DistanceSymmetric | src/TravelingSalesman/TravelingSalesman.java:464-500 | for every tag, `distance(a, b) == distance(b, a)`; the sign convention of `yd` in ATT does not matter |
| Distance.AttCorrectionExamples | src/TravelingSalesman/TravelingSalesman.java:384-391 | 7.4 rounds to 7 and is corrected to 8; 7.6 rounds to 8 and stays 8; 7.0 stays 7 |
| Genes.CreateSampleChromosome | src/TravelingSalesman/TravelingSalesman.java:325-341 | returns a fresh array of `CITIES` genes; gene `i` has bounds `0..CITIES-1` and allele `i`; the alleles are a permutation of `0..CITIES-1` |
| Genes.InitialCityList | src/TravelingSalesman/TravelingSalesman.java:566-569 | the list has length `CITIES-1` (0 if there are no cities); entry `k` is `k+1`; it is strictly increasing; `c` is in it iff `1 <= c < CITIES`; each such `c` occurs exactly once; so city 0 is excluded |
| Genes.StrictlyIncreasingOccursOnce | src/TravelingSalesman/TravelingSalesman.java:566-569 | in a strictly increasing list every element occurs exactly once |
| Evolution.IntCast | src/TravelingSalesman/TravelingSalesman.java:662 | `(int)` of a fitness lies in the Java int range and is the identity inside that range |
| Evolution.GenerationsFrom | src/TravelingSalesman/TravelingSalesman.java:612-658 | the number of generations evolved is at most the iteration limit; the exit did not fire at any earlier generation; if it is below the limit the exit fired at the last generation evolved |
| Evolution.LastDropIndex | src/TravelingSalesman/TravelingSalesman.java:661-664 | the generation that last set `bestChromosome` was a strict drop against its predecessor, and no later generation was; -1 if there was no drop |
| Evolution.EvolutionDriver.FindOptimalPath | src/TravelingSalesman/TravelingSalesman.java:599-678 | evolves `Evolved(...)` generations, at most `maxEvolution`; returns the last evolved generation's fittest chromosome (none if no generation ran); `bestChromosome` becomes the last strict drop, or stays unchanged; the loop invariant keeps `counter` equal to the current run of repeats and `previousBest` equal to the previous generation's cast fitness |
| Evolution.CounterIsRunLength | src/TravelingSalesman/TravelingSalesman.java:650-671 | the counter is `k` iff the last `k` generations each repeated their predecessor's fitness and the generation before them did not; so it resets on any change and increments on equality |
| Evolution.ExitIsRepeatAfterThreshold | src/TravelingSalesman/TravelingSalesman.java:650-658 | an early exit needs a whole threshold `t`; it happens at the `(t+1)`-th consecutive repeat, and the run of repeats starts right after a non-repeat or at the first generation |
| Evolution.FractionalThresholdNeverExits | src/TravelingSalesman/TravelingSalesman.java:655 | if the threshold is not a non-negative whole number, all `maxEvolution` generations are evolved |
| Evolution.SourceThresholdWhole | src/TravelingSalesman/TravelingSalesman.java:655 | `maxEvolution * .3` is a non-negative whole number iff `maxEvolution` is a non-negative multiple of 10 |
| Evolution.SourceThresholdRunsToLimit | src/TravelingSalesman/TravelingSalesman.java:612-658 | with the source's threshold and a `maxEvolution` that is not a multiple of 10, the loop never exits early |
| Evolution.StagnationForcesExit | src/TravelingSalesman/TravelingSalesman.java:649-658 | with a whole threshold `t`, if generations `s..s+t` all repeat their predecessor's fitness (and `s+t` is within the limit), at most `s+t+1` generations are evolved |
| Evolution.BookkeepingExamples | src/TravelingSalesman/TravelingSalesman.java:661-673 | fitness 10, 5, 7, 6 leaves `bestChromosome` at fitness 6 although 5 was seen; fitness 5, 9, 9 counts the second 9 as a repeat although 9 is worse than the best |

## Left out

- `main`: console prompts, reading the problem file, writing the report file, wall-clock timing and statistics across runs. All of this is I/O.
- `createConfiguration` and `createFitnessFunction`: they wire the genetic library's selector, random generator, chromosome pool, event manager and fitness evaluator. These are foreign objects whose code is not part of this model.
- `population.evolve()` and `getFittestChromosome()`: they are replaced by the input sequence of per-generation fittest chromosomes. The model requires that sequence to cover `maxEvolution` generations.
- The initialisation loop of `findOptimalPath` (one shuffled work-list per individual, then `StochasticInitialization.operate`): it uses randomness, and the initialiser class is not part of this model. So are the heuristic crossover, the segment-swapping mutation, the fitness function and the opposite fitness evaluator. Only the work-list they start from is modelled.
- The formula for the population size and the maximum number of generations (`Math.log`, `Math.pow` on doubles). Both are parameters.
- IEEE-754 behaviour: `Math.sqrt` is a parameter (only its non-negativity is assumed), `Math.round` is exact `Floor(x + 0.5)`, and `counter == maxEvolution * .3` is compared in exact reals. In doubles, `maxEvolution * .3` can differ from the exact product (`3 * .3` is 0.8999999999999999, not 0.9). That difference is not modelled. It does not change which values of `maxEvolution` give a whole threshold.
- A null edge-weight tag (`NullPointerException`) and out-of-range city indices (`ArrayIndexOutOfBoundsException`). The latter are excluded by the distance precondition, and only where the source actually reads the coordinate table.
- Genes.CreateSampleChromosome: takes the city count as a `nat`. A negative `CITIES` (a Java `int`) would throw `NegativeArraySizeException` when the gene array is allocated (`TravelingSalesman.java:328`). That error path is not modelled, because the count is the length of the coordinate table, which is never negative.
- `IntegerGene` and `Chromosome` construction errors (`InvalidConfigurationException`): they come from library code.
- `Serializable` and the static globals `CITIES`, `CITYARRAY`, `EdgeWeightType`, `m_config`. They are passed explicitly, except that `bestChromosome` is a field of `EvolutionDriver`.
- The trivial getters and setters. Their fields are parameters.
