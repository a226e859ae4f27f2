/**
 * The evolution loop of `findOptimalPath` with its stagnation-based early
 * exit. The genetic library's `evolve()` followed by `getFittestChromosome()`
 * is abstracted as a sequence `gens`: `gens[i]` is the fittest chromosome
 * after the `(i+1)`-th call of `evolve()`. Fitness values are integers
 * (sums of rounded edge weights); lower is better.
 */
module Evolution {
  import opened Genes

  const IntMax: int := 2147483647
  const IntMin: int := -2147483648

  datatype Option<T> = None | Some(value: T)

  /** A chromosome as reported by the library: its genes and its fitness value. */
  datatype Chromosome = Chromosome(genes: seq<Gene>, fitness: int)

  /** Java's `(int)` narrowing of a (whole-valued) double, which saturates at the int range. */
  function IntCast(f: int): (n: int)
    ensures IntMin <= n <= IntMax
    ensures IntMin <= f <= IntMax ==> n == f
  {
    if f > IntMax then IntMax else if f < IntMin then IntMin else f
  }

  /** The threshold `maxEvolution * .3` the source compares the counter with. */
  function SourceThreshold(maxEvolution: int): real
  {
    maxEvolution as real * 0.3
  }

  /** A threshold the integer counter can be equal to. */
  predicate Whole(threshold: real)
  {
    0.0 <= threshold && threshold.Floor as real == threshold
  }

  /** The number of loop iterations `for (i = 0; i < maxEvolution; i++)` allows. */
  function Limit(maxEvolution: int): nat
  {
    if maxEvolution < 0 then 0 else maxEvolution
  }

  /** `previousBest` at the start of generation `i`: MAX_VALUE, then the cast fitness of generation `i-1`. */
  function PreviousBest(gens: seq<Chromosome>, i: nat): int
    requires i <= |gens|
  {
    if i == 0 then IntMax else IntCast(gens[i - 1].fitness)
  }

  /** Generation `i` reports the same fitness as the one before it. */
  predicate Repeats(gens: seq<Chromosome>, i: nat)
    requires i < |gens|
  {
    gens[i].fitness == PreviousBest(gens, i)
  }

  /** Generation `i` reports a strictly smaller fitness than the one before it. */
  predicate Drops(gens: seq<Chromosome>, i: nat)
    requires i < |gens|
  {
    gens[i].fitness < PreviousBest(gens, i)
  }

  /** `counter` at the start of generation `i` when the loop has not exited before. */
  function Counter(gens: seq<Chromosome>, i: nat): nat
    requires i <= |gens|
  {
    if i == 0 then 0
    else if Repeats(gens, i - 1) then Counter(gens, i - 1) + 1
    else 0
  }

  /** `counter++ == threshold` fires at generation `i`. */
  predicate ExitsAt(gens: seq<Chromosome>, threshold: real, i: nat)
    requires i < |gens|
  {
    Repeats(gens, i) && Counter(gens, i) as real == threshold
  }

  /**
   * The number of generations evolved when the loop is at iteration `i` of
   * `limit`: it stops after the first generation at which the exit fires,
   * or after `limit`.
   */
  function GenerationsFrom(gens: seq<Chromosome>, threshold: real, limit: nat, i: nat): (n: nat)
    requires i <= limit <= |gens|
    decreases limit - i
    ensures i <= n <= limit
    ensures n == i ==> i == limit
    ensures forall j :: i <= j < n - 1 ==> !ExitsAt(gens, threshold, j)
    ensures i < n < limit ==> ExitsAt(gens, threshold, n - 1)
  {
    if i == limit then limit
    else if ExitsAt(gens, threshold, i) then i + 1
    else GenerationsFrom(gens, threshold, limit, i + 1)
  }

  /** How many times `evolve()` runs in `findOptimalPath`. */
  function Evolved(gens: seq<Chromosome>, threshold: real, maxEvolution: int): nat
    requires maxEvolution <= |gens|
  {
    GenerationsFrom(gens, threshold, Limit(maxEvolution), 0)
  }

  /** The last generation before `n` whose fitness dropped, or -1 if none did. */
  function LastDropIndex(gens: seq<Chromosome>, n: nat): (k: int)
    requires n <= |gens|
    ensures -1 <= k < n
    ensures 0 <= k ==> Drops(gens, k)
    ensures forall j :: k < j < n ==> !Drops(gens, j)
  {
    if n == 0 then -1
    else if Drops(gens, n - 1) then n - 1
    else LastDropIndex(gens, n - 1)
  }

  /** `bestChromosome` after `n` generations, starting from `initial`. */
  function BestAfter(gens: seq<Chromosome>, n: nat, initial: Option<Chromosome>): Option<Chromosome>
    requires n <= |gens|
  {
    var k := LastDropIndex(gens, n);
    if k < 0 then initial else Some(gens[k])
  }

  /** Skipping generations at which the exit does not fire leaves the count unchanged. */
  lemma {:induction false} GenerationsSkip(gens: seq<Chromosome>, threshold: real, limit: nat, k: nat, i: nat)
    requires k <= i <= limit <= |gens|
    requires forall j :: k <= j < i ==> !ExitsAt(gens, threshold, j)
    ensures GenerationsFrom(gens, threshold, limit, k) == GenerationsFrom(gens, threshold, limit, i)
    decreases i - k
  {
    if k < i {
      GenerationsSkip(gens, threshold, limit, k + 1, i);
    }
  }

  /**
   * The state `findOptimalPath` keeps across runs: the static
   * `bestChromosome`, scoped here to one driver object.
   */
  class EvolutionDriver {
    var bestChromosome: Option<Chromosome>

    constructor ()
      ensures bestChromosome == None
    {
      bestChromosome := None;
    }

    /**
     * The evolution loop. Returns the fittest chromosome of the last
     * generation evolved (None when no generation ran) and how many
     * generations were evolved.
     */
    method FindOptimalPath(gens: seq<Chromosome>, maxEvolution: int, threshold: real)
      returns (best: Option<Chromosome>, evolved: nat)
      requires maxEvolution <= |gens|
      modifies this
      ensures evolved == Evolved(gens, threshold, maxEvolution)
      ensures evolved <= Limit(maxEvolution)
      ensures best == if evolved == 0 then None else Some(gens[evolved - 1])
      ensures bestChromosome == BestAfter(gens, evolved, old(bestChromosome))
    {
      best := None;
      var counter: int := 0;
      var previousBest: int := IntMax;
      var i := 0;
      while i < maxEvolution
        invariant 0 <= i <= Limit(maxEvolution)
        invariant counter == Counter(gens, i)
        invariant previousBest == PreviousBest(gens, i)
        invariant best == if i == 0 then None else Some(gens[i - 1])
        invariant bestChromosome == BestAfter(gens, i, old(bestChromosome))
        invariant forall j :: 0 <= j < i ==> !ExitsAt(gens, threshold, j)
      {
        // One generation: the library evolves the population; gens[i] is its fittest chromosome.
        best := Some(gens[i]);
        var fitness := gens[i].fitness;
        if fitness == previousBest {
          var tested := counter;
          counter := counter + 1;
          if tested as real == threshold {
            GenerationsSkip(gens, threshold, Limit(maxEvolution), 0, i);
            evolved := i + 1;
            return;
          }
        } else if fitness < previousBest {
          previousBest := IntCast(fitness);
          bestChromosome := best;
          counter := 0;
        } else if fitness > previousBest {
          counter := 0;
        }
        previousBest := IntCast(fitness);
        i := i + 1;
      }
      GenerationsSkip(gens, threshold, Limit(maxEvolution), 0, i);
      evolved := i;
    }
  }

  /**
   * The counter is the length of the current run of repeats: it is `k`
   * exactly when the last `k` generations each repeated their predecessor's
   * fitness and the one before them (if any) did not.
   */
  lemma {:induction false} CounterIsRunLength(gens: seq<Chromosome>, i: nat, k: nat)
    requires i <= |gens|
    ensures Counter(gens, i) == k <==>
      k <= i
      && (forall j :: i - k <= j < i ==> Repeats(gens, j))
      && (k < i ==> !Repeats(gens, i - k - 1))
  {
    if i > 0 && k > 0 {
      CounterIsRunLength(gens, i - 1, k - 1);
      if Counter(gens, i) == k {
        assert Repeats(gens, i - 1);
      }
    } else if i > 0 && k == 0 && Counter(gens, i) != 0 {
      assert Repeats(gens, i - 1);
    }
  }

  /**
   * An early exit happens only with a whole threshold `t`, at a generation
   * that is the `(t+1)`-th consecutive repeat.
   */
  lemma ExitIsRepeatAfterThreshold(gens: seq<Chromosome>, threshold: real, i: nat)
    requires i < |gens|
    requires ExitsAt(gens, threshold, i)
    ensures Whole(threshold)
    ensures threshold.Floor <= i
    ensures forall j :: i - threshold.Floor <= j <= i ==> Repeats(gens, j)
    ensures threshold.Floor < i ==> !Repeats(gens, i - threshold.Floor - 1)
  {
    var t := Counter(gens, i);
    assert threshold.Floor == t;
    CounterIsRunLength(gens, i, t);
  }

  /** With a threshold the counter can never equal, every one of the `maxEvolution` generations is evolved. */
  lemma FractionalThresholdNeverExits(gens: seq<Chromosome>, threshold: real, maxEvolution: int)
    requires maxEvolution <= |gens|
    requires !Whole(threshold)
    ensures Evolved(gens, threshold, maxEvolution) == Limit(maxEvolution)
  {
  }

  /** `maxEvolution * .3` is a whole number exactly when `maxEvolution` is a non-negative multiple of 10. */
  lemma SourceThresholdWhole(maxEvolution: int)
    ensures Whole(SourceThreshold(maxEvolution)) <==> 0 <= maxEvolution && maxEvolution % 10 == 0
  {
    var m := maxEvolution;
    var x := SourceThreshold(m);
    assert x * 10.0 == (3 * m) as real;
    if Whole(x) {
      var k := x.Floor;
      assert (10 * k) as real == (3 * m) as real;
      assert 10 * k == 3 * m;
      assert m == 10 * (7 * k - 2 * m);
    }
    if 0 <= m && m % 10 == 0 {
      var q := m / 10;
      assert x == (3 * q) as real;
    }
  }

  /** Under the source's threshold, a `maxEvolution` that is not a multiple of 10 never exits early. */
  lemma SourceThresholdRunsToLimit(gens: seq<Chromosome>, maxEvolution: int)
    requires maxEvolution <= |gens|
    requires maxEvolution % 10 != 0
    ensures Evolved(gens, SourceThreshold(maxEvolution), maxEvolution) == Limit(maxEvolution)
  {
    SourceThresholdWhole(maxEvolution);
    FractionalThresholdNeverExits(gens, SourceThreshold(maxEvolution), maxEvolution);
  }

  /**
   * Stagnation forces termination: with a whole threshold `t`, if the
   * generations `s .. s+t` all repeat their predecessor's fitness, the loop
   * evolves at most `s + t + 1` generations.
   */
  lemma StagnationForcesExit(gens: seq<Chromosome>, t: nat, maxEvolution: int, s: nat)
    requires maxEvolution <= |gens|
    requires s + t < maxEvolution
    requires forall j :: s <= j <= s + t ==> Repeats(gens, j)
    ensures Evolved(gens, t as real, maxEvolution) <= s + t + 1
  {
    var c := Counter(gens, s);
    // The run of repeats in progress at s started at s - c.
    CounterIsRunLength(gens, s, c);
    // Along that run the counter meets t at e: inside the window if c <= t, before s otherwise.
    var e: nat := s - c + t;
    forall j | e - t <= j < e ensures Repeats(gens, j) {
    }
    CounterIsRunLength(gens, e, t);
    assert ExitsAt(gens, t as real, e);
    var n := Evolved(gens, t as real, maxEvolution);
    assert n <= e + 1;
  }

  /**
   * The bookkeeping rules on a concrete trace. Fitness 10, 5, 7, 6: each of
   * 10, 5 and 6 is a drop against its predecessor, so bestChromosome ends
   * on the fitness-6 chromosome though 5 was seen. Fitness 5, 9, 9: the
   * second 9 counts as a repeat although 9 is worse than 5.
   */
  lemma BookkeepingExamples(genes: seq<Gene>)
    ensures var gens := [Chromosome(genes, 10), Chromosome(genes, 5), Chromosome(genes, 7), Chromosome(genes, 6)];
      BestAfter(gens, 4, None) == Some(Chromosome(genes, 6))
    ensures var gens := [Chromosome(genes, 5), Chromosome(genes, 9), Chromosome(genes, 9)];
      Counter(gens, 3) == 1 && BestAfter(gens, 3, None) == Some(Chromosome(genes, 5))
  {
    var gens := [Chromosome(genes, 5), Chromosome(genes, 9), Chromosome(genes, 9)];
    assert !Drops(gens, 2) && !Drops(gens, 1) && Drops(gens, 0);
    assert LastDropIndex(gens, 3) == 0;
  }
}
