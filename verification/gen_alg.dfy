/** The genetic algorithm: roulette-wheel selection, single-point crossover,
    bounded mutation and elitism, run once per generation by `Epoch`.

    Genomes are reference objects in the program: elitism copies a reference
    into several slots, and crossover tests its parents for reference
    equality. The model therefore keeps every genome in a store (a
    `seq<Genome>` that only ever grows) and lets a population hold indices
    into it, `None` standing for a `null` slot. */
module GeneticAlgorithm {
  import opened Wrappers
  import opened Utils
  import opened Genomes

  /** A genome reference: an index into the store. */
  type Ref = nat

  /** The fields of a `GenAlg` instance, together with the three `Params`
      statics it reads (`iNumElite`, `iNumCopiesElite`, `dMaxPerturbation`). */
  datatype GenAlg = GenAlg(
    popSize: nat,
    mutationRate: real,
    crossoverRate: real,
    chromoLength: nat,
    numElite: nat,
    numCopiesElite: nat,
    maxPerturbation: real,
    totalFitness: real,
    bestFitness: real)

  /** Every reference in `refs` points into `store`. */
  predicate RefsIn(store: seq<Genome>, refs: seq<Ref>) {
    forall i :: 0 <= i < |refs| ==> refs[i] < |store|
  }

  /** The genomes a sequence of references points to. */
  function Deref(store: seq<Genome>, refs: seq<Ref>): (gs: seq<Genome>)
    requires RefsIn(store, refs)
    ensures |gs| == |refs|
    ensures forall i :: 0 <= i < |refs| ==> gs[i] == store[refs[i]]
  {
    seq(|refs|, i requires 0 <= i < |refs| => store[refs[i]])
  }

  /** The fitness of each referenced genome, in order. */
  function Fitnesses(store: seq<Genome>, refs: seq<Ref>): (fs: seq<real>)
    requires RefsIn(store, refs)
    ensures |fs| == |refs|
    ensures forall i :: 0 <= i < |refs| ==> fs[i] == store[refs[i]].fitness
  {
    seq(|refs|, i requires 0 <= i < |refs| => store[refs[i]].fitness)
  }

  // ----------------------------------------------------------------------
  // Crossover
  // ----------------------------------------------------------------------

  /** Crossover copies the parents unless they are the same array or the
      `RandFloat()` draw exceeds the crossover rate. */
  predicate Recombines(sameParents: bool, crossoverRate: real, draw: real) {
    !sameParents && draw <= crossoverRate
  }

  /** `Crossover(mum, dad)`. The crossover point is drawn with
      `RandInt(0, chromoLength - 1)`, which throws for an empty chromosome;
      the model takes the chromosome length to be the parents' length. */
  function Crossover(mum: seq<real>, dad: seq<real>, sameParents: bool,
                     crossoverRate: real, draw: real, crossPoint: int)
    : (babies: Result<(seq<real>, seq<real>)>)
    requires |mum| == |dad|
    requires |mum| >= 1 ==> IsRandInt(crossPoint, 0, |mum| - 1)
    ensures !Recombines(sameParents, crossoverRate, draw) ==> babies == Success((mum, dad))
    ensures Recombines(sameParents, crossoverRate, draw) && |mum| == 0 ==>
      babies == Failure(ArgumentOutOfRange)
    ensures Recombines(sameParents, crossoverRate, draw) && |mum| >= 1 ==>
      0 <= crossPoint < |mum| &&
      babies == Success((mum[..crossPoint] + dad[crossPoint..], dad[..crossPoint] + mum[crossPoint..]))
    ensures babies.Success? ==>
      |babies.value.0| == |mum| && |babies.value.1| == |mum| &&
      forall i :: 0 <= i < |mum| ==>
        (babies.value.0[i] == mum[i] && babies.value.1[i] == dad[i]) ||
        (babies.value.0[i] == dad[i] && babies.value.1[i] == mum[i])
  {
    if !Recombines(sameParents, crossoverRate, draw) then Success((mum, dad))
    else if |mum| == 0 then Failure(ArgumentOutOfRange)
    else
      var len := |mum|;
      var baby1 := seq(len, i requires 0 <= i < len => if i < crossPoint then mum[i] else dad[i]);
      var baby2 := seq(len, i requires 0 <= i < len => if i < crossPoint then dad[i] else mum[i]);
      assert baby1 == mum[..crossPoint] + dad[crossPoint..];
      assert baby2 == dad[..crossPoint] + mum[crossPoint..];
      Success((baby1, baby2))
  }

  // ----------------------------------------------------------------------
  // Mutation
  // ----------------------------------------------------------------------

  /** The two draws `Mutate` may consume for one weight: the `RandFloat()`
      test against the rate and the `RandomClamped()` perturbation (drawn
      only when the test passes). */
  datatype MutationDraw = MutationDraw(test: real, perturbation: real)

  predicate MutationDrawsOk(draws: seq<MutationDraw>, n: nat) {
    |draws| == n &&
    forall i :: 0 <= i < |draws| ==>
      IsRandFloat(draws[i].test) && IsRandFloat(draws[i].perturbation)
  }

  /** `Mutate(chromo)`: each weight whose test draw is below the mutation
      rate moves by `RandomClamped() * dMaxPerturbation`. */
  function Mutate(chromo: seq<real>, mutationRate: real, maxPerturbation: real,
                  draws: seq<MutationDraw>): (r: seq<real>)
    requires MutationDrawsOk(draws, |chromo|)
    ensures |r| == |chromo|
    ensures forall i :: 0 <= i < |chromo| && draws[i].test >= mutationRate ==> r[i] == chromo[i]
    ensures mutationRate <= 0.0 ==> r == chromo
  {
    seq(|chromo|, i requires 0 <= i < |chromo| =>
      if draws[i].test < mutationRate
      then chromo[i] + RandomClamped(draws[i].perturbation) * maxPerturbation
      else chromo[i])
  }

  /** `x` lies within `h` of `y`. */
  predicate Near(x: real, y: real, h: real) {
    y - h <= x <= y + h
  }

  lemma ClampedProduct(c: real, m: real)
    requires -0.5 <= c < 0.5 && m >= 0.0
    ensures -0.5 * m <= c * m <= 0.5 * m
  {
    assert (c + 0.5) * m >= 0.0;
    assert (0.5 - c) * m >= 0.0;
  }

  /** No weight moves by more than half of `dMaxPerturbation`. */
  lemma {:induction false} MutateBounded(chromo: seq<real>, mutationRate: real, maxPerturbation: real,
                      draws: seq<MutationDraw>)
    requires MutationDrawsOk(draws, |chromo|) && maxPerturbation >= 0.0
    ensures forall i :: 0 <= i < |chromo| ==>
      Near(Mutate(chromo, mutationRate, maxPerturbation, draws)[i], chromo[i], 0.5 * maxPerturbation)
  {
    var r := Mutate(chromo, mutationRate, maxPerturbation, draws);
    forall i | 0 <= i < |chromo|
      ensures Near(r[i], chromo[i], 0.5 * maxPerturbation)
    {
      if draws[i].test < mutationRate {
        var c := RandomClamped(draws[i].perturbation);
        ClampedProduct(c, maxPerturbation);
        assert r[i] == chromo[i] + c * maxPerturbation;
      }
    }
  }

  // ----------------------------------------------------------------------
  // Roulette-wheel selection
  // ----------------------------------------------------------------------

  /** The sum of the first `n` fitness values. */
  function PrefixSum(fits: seq<real>, n: nat): real
    requires n <= |fits|
  {
    if n == 0 then 0.0 else PrefixSum(fits, n - 1) + fits[n - 1]
  }

  function Sum(fits: seq<real>): real {
    PrefixSum(fits, |fits|)
  }

  /** The fitness accumulated up to and including index `j`: the value of
      `FitnessSoFar` when the roulette loop tests index `j`. */
  function SoFar(fits: seq<real>, j: nat): real
    requires j < |fits|
  {
    PrefixSum(fits, j + 1)
  }

  /** The loop of `GetChromoRoulette` from index `i`, with `soFar` the
      fitness accumulated over the indices before it. */
  function RouletteScan(fits: seq<real>, slice: real, i: nat, soFar: real): (r: Option<nat>)
    requires i <= |fits|
    requires soFar == PrefixSum(fits, i)
    requires forall j :: 0 <= j < i ==> SoFar(fits, j) < slice
    ensures r.Some? ==>
      i <= r.value < |fits| && SoFar(fits, r.value) >= slice &&
      forall j :: 0 <= j < r.value ==> SoFar(fits, j) < slice
    ensures r.None? <==> forall j :: 0 <= j < |fits| ==> SoFar(fits, j) < slice
    decreases |fits| - i
  {
    if i == |fits| then None
    else
      var s := soFar + fits[i];
      if s >= slice then Some(i)
      else RouletteScan(fits, slice, i + 1, s)
  }

  /** `GetChromoRoulette`, answering the index of the chosen genome in the
      population, or `None` for the `null` it returns when no prefix sum
      reaches the slice. */
  function Roulette(fits: seq<real>, totalFitness: real, spin: real): (r: Option<nat>)
    ensures r.Some? ==>
      r.value < |fits| && SoFar(fits, r.value) >= spin * totalFitness &&
      forall j :: 0 <= j < r.value ==> SoFar(fits, j) < spin * totalFitness
    ensures r.None? <==> forall j :: 0 <= j < |fits| ==> SoFar(fits, j) < spin * totalFitness
  {
    RouletteScan(fits, spin * totalFitness, 0, 0.0)
  }

  predicate NonNegative(fits: seq<real>) {
    forall i :: 0 <= i < |fits| ==> fits[i] >= 0.0
  }

  lemma {:induction false} PrefixSumMonotone(fits: seq<real>, m: nat, n: nat)
    requires NonNegative(fits) && m <= n <= |fits|
    ensures 0.0 <= PrefixSum(fits, m) <= PrefixSum(fits, n)
    decreases n
  {
    if n > m {
      PrefixSumMonotone(fits, m, n - 1);
    } else if m > 0 {
      PrefixSumMonotone(fits, m - 1, m - 1);
    }
  }

  /** With non-negative fitnesses and a spin in [0, 1), the wheel never
      comes back empty. */
  lemma {:induction false} RouletteNeverNull(fits: seq<real>, spin: real)
    requires |fits| >= 1 && NonNegative(fits) && IsRandFloat(spin)
    ensures Roulette(fits, Sum(fits), spin).Some?
  {
    var total := Sum(fits);
    PrefixSumMonotone(fits, 0, |fits|);
    SpinBelowTotal(spin, total);
    ScanReaches(fits, spin * total);
  }

  /** A slice no larger than the total fitness is reached by the scan. */
  lemma {:induction false} ScanReaches(fits: seq<real>, slice: real)
    requires |fits| >= 1 && slice <= Sum(fits)
    ensures RouletteScan(fits, slice, 0, 0.0).Some?
  {
    assert SoFar(fits, |fits| - 1) == Sum(fits);
  }

  lemma SpinBelowTotal(spin: real, total: real)
    requires IsRandFloat(spin) && total >= 0.0
    ensures spin * total <= total
  {
    if total > 0.0 {
      assert (1.0 - spin) * total > 0.0;
    }
  }

  /** With zero total fitness the slice is 0, so the first genome is chosen
      (not the last one). */
  lemma {:induction false} RouletteZeroTotal(fits: seq<real>, spin: real)
    requires |fits| >= 1 && fits[0] >= 0.0
    ensures Roulette(fits, 0.0, spin) == Some(0)
  {
    assert PrefixSum(fits, 1) == fits[0];
  }

  /** A population whose fittest genome holds all the fitness: every spin
      picks it. */
  lemma RouletteSingleScorer(spin: real)
    requires IsRandFloat(spin)
    ensures Roulette([10.0, 0.0, 0.0], 10.0, spin) == Some(0)
  {
    assert PrefixSum([10.0, 0.0, 0.0], 1) == 10.0;
  }

  // ----------------------------------------------------------------------
  // Elitism
  // ----------------------------------------------------------------------

  lemma MulMonotone(a: int, b: int, k: int)
    requires a < b && k > 0
    ensures a * k + k <= b * k
  {
    assert b * k - a * k == (b - a) * k;
    assert (b - a) * k >= 1 * k by { assert (b - a - 1) * k >= 0; }
  }

  /** Slot `g * k + c` of a block layout belongs to block `g`. */
  lemma SlotBlock(g: nat, c: nat, k: nat)
    requires c < k
    ensures (g * k + c) / k == g
  {
    var n := g * k + c;
    var q := n / k;
    assert n == q * k + n % k;
    if q < g { MulMonotone(q, g, k); assert false; }
    if q > g { MulMonotone(g, q, k); assert false; }
  }

  lemma BlockBelow(n: nat, e: nat, k: nat)
    requires k > 0 && n < e * k
    ensures n / k < e
  {
    var q := n / k;
    if q >= e {
      MulMonotone(e - 1, q, k);
    }
  }

  /** Every slot below `e * k` lies in one of the `e` blocks of `k`. */
  lemma BlocksBelow(e: nat, k: nat)
    ensures forall n :: 0 <= n < e * k ==> k > 0 && n / k < e
  {
    if k > 0 {
      forall n | 0 <= n < e * k
        ensures n / k < e
      {
        BlockBelow(n, e, k);
      }
    }
  }

  /** Slots [0, nBest * numCopies) of `r` hold `numCopies` consecutive
      copies of each of the `nBest` first references of `pop`. */
  predicate ElitesPlaced(r: seq<Option<Ref>>, pop: seq<Ref>, nBest: nat, numCopies: nat) {
    nBest * numCopies <= |r| &&
    forall k :: 0 <= k < nBest * numCopies ==>
      numCopies > 0 && k / numCopies < |pop| && r[k] == Some(pop[k / numCopies])
  }

  /** `GrabNBest(nBest, numCopies, elitPop)` over the sorted population
      `pop`: slots [0, nBest * numCopies) receive `numCopies` copies of
      each of the `nBest` first references, in order. */
  function GrabNBest(nBest: nat, numCopies: nat, elitPop: seq<Option<Ref>>, pop: seq<Ref>)
    : (r: seq<Option<Ref>>)
    requires nBest * numCopies <= |elitPop|
    requires numCopies > 0 ==> nBest <= |pop|
    ensures |r| == |elitPop|
    ensures forall k :: nBest * numCopies <= k < |r| ==> r[k] == elitPop[k]
    ensures ElitesPlaced(r, pop, nBest, numCopies)
  {
    BlocksBelow(nBest, numCopies);
    seq(|elitPop|, k requires 0 <= k < |elitPop| =>
      if k < nBest * numCopies then Some(pop[k / numCopies]) else elitPop[k])
  }

  /** Copy `c` of elite `g` sits in slot `g * numCopies + c`. */
  lemma {:induction false} GrabNBestSlots(nBest: nat, numCopies: nat, elitPop: seq<Option<Ref>>, pop: seq<Ref>,
                       g: nat, c: nat)
    requires nBest * numCopies <= |elitPop|
    requires numCopies > 0 ==> nBest <= |pop|
    requires g < nBest && c < numCopies
    ensures g * numCopies + c < |elitPop|
    ensures GrabNBest(nBest, numCopies, elitPop, pop)[g * numCopies + c] == Some(pop[g])
  {
    MulMonotone(g, nBest, numCopies);
    SlotBlock(g, c, numCopies);
  }

  // ----------------------------------------------------------------------
  // Statistics
  // ----------------------------------------------------------------------

  /** `CalculateBestWorstAvTot` on a sorted population: the best fitness is
      that of slot 0 and the total is the sum. Slot 0 of an empty population
      is out of range. */
  function CalculateStats(ga: GenAlg, fits: seq<real>): (r: Result<GenAlg>)
    ensures |fits| == 0 <==> r == Failure(IndexOutOfRange)
    ensures r.Success? ==>
      r.value == ga.(totalFitness := Sum(fits), bestFitness := fits[0])
  {
    if |fits| == 0 then Failure(IndexOutOfRange)
    else Success(ga.(totalFitness := Sum(fits), bestFitness := fits[0]))
  }

  /** In a population sorted by `CompareTo` the recorded best fitness is
      the maximum. */
  lemma {:induction false} StatsBestIsMax(ga: GenAlg, store: seq<Genome>, sorted: seq<Ref>)
    requires RefsIn(store, sorted) && |sorted| > 0
    requires SortedByCompare(Deref(store, sorted))
    ensures CalculateStats(ga, Fitnesses(store, sorted)).Success?
    ensures forall i :: 0 <= i < |sorted| ==>
      store[sorted[i]].fitness <= CalculateStats(ga, Fitnesses(store, sorted)).value.bestFitness
  {
    SortedHeadIsFittest(Deref(store, sorted));
  }

  /** `AverageFitness()`. In C# a zero population gives NaN; the model
      requires a non-empty population. */
  function AverageFitness(ga: GenAlg): (r: real)
    requires ga.popSize > 0
    ensures r * (ga.popSize as real) == ga.totalFitness
  {
    ga.totalFitness / (ga.popSize as real)
  }

  /** `BestFitness()`. */
  function BestFitness(ga: GenAlg): real {
    ga.bestFitness
  }

  // ----------------------------------------------------------------------
  // Construction
  // ----------------------------------------------------------------------

  /** `new GenAlg(popsize, MutRat, CrossRat, numweights)`: `popsize` random
      genomes, appended to the store, and zeroed statistics. */
  function NewGenAlg(popSize: nat, mutationRate: real, crossoverRate: real, numWeights: nat,
                     numElite: nat, numCopiesElite: nat, maxPerturbation: real,
                     store: seq<Genome>, draws: seq<seq<real>>)
    : (r: (GenAlg, seq<Genome>, seq<Ref>))
    requires |draws| == popSize
    requires forall i :: 0 <= i < popSize ==>
      |draws[i]| == numWeights && forall j :: 0 <= j < numWeights ==> IsRandFloat(draws[i][j])
    ensures r.0.popSize == popSize && r.0.chromoLength == numWeights
    ensures r.0.totalFitness == 0.0 && r.0.bestFitness == 0.0
    ensures r.0.mutationRate == mutationRate && r.0.crossoverRate == crossoverRate
    ensures |r.1| == |store| + popSize && r.1[..|store|] == store
    ensures |r.2| == popSize && RefsIn(r.1, r.2)
    ensures forall j :: |store| <= j < |r.1| ==> |r.1[j].weights| == numWeights
    ensures forall i :: 0 <= i < popSize ==>
      r.2[i] == |store| + i &&
      |r.1[r.2[i]].weights| == numWeights && r.1[r.2[i]].fitness == 0.0 &&
      forall j :: 0 <= j < numWeights ==> -0.5 <= r.1[r.2[i]].weights[j] < 0.5
  {
    var born := seq(popSize, i requires 0 <= i < popSize => NewRandom(numWeights, draws[i]));
    (GenAlg(popSize, mutationRate, crossoverRate, numWeights, numElite, numCopiesElite,
            maxPerturbation, 0.0, 0.0),
     store + born,
     seq(popSize, i => |store| + i))
  }

  // ----------------------------------------------------------------------
  // Epoch
  // ----------------------------------------------------------------------

  /** The random draws one iteration of the breeding loop consumes. */
  datatype PairDraws = PairDraws(
    mumSpin: real,
    dadSpin: real,
    crossDraw: real,
    crossPoint: int,
    mutation1: seq<MutationDraw>,
    mutation2: seq<MutationDraw>)

  predicate PairDrawsOk(chromoLength: nat, d: PairDraws) {
    IsRandFloat(d.mumSpin) && IsRandFloat(d.dadSpin) && IsRandFloat(d.crossDraw) &&
    (chromoLength >= 1 ==> IsRandInt(d.crossPoint, 0, chromoLength - 1)) &&
    MutationDrawsOk(d.mutation1, chromoLength) && MutationDrawsOk(d.mutation2, chromoLength)
  }

  /** The slots `Epoch` reserves for elites. */
  function EliteSlots(ga: GenAlg): nat {
    ga.numElite * ga.numCopiesElite
  }

  /** How many genomes the breeding loop creates. */
  function BredCount(ga: GenAlg): nat {
    if EliteSlots(ga) < ga.popSize then ga.popSize - EliteSlots(ga) else 0
  }

  /** How many iterations the breeding loop runs. */
  function NumPairs(ga: GenAlg): nat {
    (BredCount(ga) + 1) / 2
  }

  /** The population handed to `Epoch` after `Array.Sort`: one genome
      reference per slot, each chromosome of the configured length, in
      `CompareTo` order. */
  predicate SortedPopulation(ga: GenAlg, store: seq<Genome>, sorted: seq<Ref>) {
    |sorted| == ga.popSize && RefsIn(store, sorted) &&
    (forall i :: 0 <= i < |sorted| ==> |store[sorted[i]].weights| == ga.chromoLength) &&
    SortedByCompare(Deref(store, sorted))
  }

  /** One iteration of the breeding loop: two roulette spins, crossover of
      the chosen parents and mutation of both babies. A spin that comes back
      `null` makes the crossover dereference `null`. */
  function Offspring(ga: GenAlg, store: seq<Genome>, sorted: seq<Ref>, d: PairDraws)
    : (r: Result<(seq<real>, seq<real>)>)
    requires SortedPopulation(ga, store, sorted) && PairDrawsOk(ga.chromoLength, d)
    ensures r.Success? ==>
      |r.value.0| == ga.chromoLength && |r.value.1| == ga.chromoLength
    ensures Roulette(Fitnesses(store, sorted), ga.totalFitness, d.mumSpin).None? ||
            Roulette(Fitnesses(store, sorted), ga.totalFitness, d.dadSpin).None? ==>
            r == Failure(NullReference)
  {
    var fits := Fitnesses(store, sorted);
    var m := Roulette(fits, ga.totalFitness, d.mumSpin);
    var f := Roulette(fits, ga.totalFitness, d.dadSpin);
    if m.None? || f.None? then Failure(NullReference)
    else
      var mum := sorted[m.value];
      var dad := sorted[f.value];
      match Crossover(store[mum].weights, store[dad].weights, mum == dad,
                      ga.crossoverRate, d.crossDraw, d.crossPoint)
      case Failure(e) => Failure(e)
      case Success(babies) =>
        Success((Mutate(babies.0, ga.mutationRate, ga.maxPerturbation, d.mutation1),
                 Mutate(babies.1, ga.mutationRate, ga.maxPerturbation, d.mutation2)))
  }

  /** The breeding loop for `remaining` slots, given what each of its
      iterations produces: pair `p` fills the slots `2p` and `2p + 1`, and
      the second baby of the last pair is dropped when `remaining` is odd.
      The loop stops at the first failing pair. */
  function Breed(pairs: seq<Result<(seq<real>, seq<real>)>>, remaining: nat, chromoLength: nat)
    : (r: Result<seq<Genome>>)
    requires remaining <= 2 * |pairs| <= remaining + 1
    requires forall p :: 0 <= p < |pairs| && pairs[p].Success? ==>
      |pairs[p].value.0| == chromoLength && |pairs[p].value.1| == chromoLength
    ensures r.Success? <==> forall p :: 0 <= p < |pairs| ==> pairs[p].Success?
    ensures r.Success? ==> |r.value| == remaining
    ensures r.Success? ==> forall k :: 0 <= k < remaining ==>
      r.value[k].fitness == 0.0 && |r.value[k].weights| == chromoLength
    decreases remaining
  {
    if remaining == 0 then Success([])
    else
      match pairs[0]
      case Failure(e) => Failure(e)
      case Success(babies) =>
        if remaining == 1 then Success([FromWeights(babies.0)])
        else
          match Breed(pairs[1..], remaining - 2, chromoLength)
          case Failure(e) => Failure(e)
          case Success(rest) => Success([FromWeights(babies.0), FromWeights(babies.1)] + rest)
  }

  /** Slot `2p` of the bred genomes holds the first baby of pair `p`, and
      slot `2p + 1`, when it exists, the second. */
  lemma {:induction false} BreedSlots(pairs: seq<Result<(seq<real>, seq<real>)>>, remaining: nat,
                                      chromoLength: nat, p: nat)
    requires remaining <= 2 * |pairs| <= remaining + 1
    requires forall q :: 0 <= q < |pairs| && pairs[q].Success? ==>
      |pairs[q].value.0| == chromoLength && |pairs[q].value.1| == chromoLength
    requires Breed(pairs, remaining, chromoLength).Success? && p < |pairs|
    ensures pairs[p].Success? && 2 * p < remaining
    ensures Breed(pairs, remaining, chromoLength).value[2 * p] == FromWeights(pairs[p].value.0)
    ensures 2 * p + 1 < remaining ==>
            Breed(pairs, remaining, chromoLength).value[2 * p + 1] == FromWeights(pairs[p].value.1)
    decreases remaining
  {
    if p > 0 {
      BreedSlots(pairs[1..], remaining - 2, chromoLength, p - 1);
    }
  }

  /** The outcome of every iteration of the breeding loop. */
  function BreedingPairs(ga: GenAlg, store: seq<Genome>, sorted: seq<Ref>, draws: seq<PairDraws>)
    : (r: seq<Result<(seq<real>, seq<real>)>>)
    requires SortedPopulation(ga, store, sorted)
    requires forall p :: 0 <= p < |draws| ==> PairDrawsOk(ga.chromoLength, draws[p])
    ensures |r| == |draws|
    ensures forall p :: 0 <= p < |draws| ==> r[p] == Offspring(ga, store, sorted, draws[p])
  {
    seq(|draws|, p requires 0 <= p < |draws| => Offspring(ga, store, sorted, draws[p]))
  }

  lemma HalfRoundedUp(n: nat)
    ensures n <= 2 * ((n + 1) / 2) <= n + 1
  {
  }

  /** What `Epoch` leaves behind: the updated statistics, the store with the
      bred genomes appended, and the new population. */
  datatype EpochResult = EpochResult(ga: GenAlg, store: seq<Genome>, population: seq<Option<Ref>>)

  /** Elites go in only when their slot count is even. */
  predicate TakesElites(ga: GenAlg) {
    EliteSlots(ga) % 2 == 0
  }

  lemma ElitesFit(e: nat, k: nat, n: nat)
    requires e * k <= n
    ensures k > 0 ==> e <= n
  {
    if k > 0 {
      assert e * (k - 1) >= 0;
    }
  }

  /** `vecNewPop` after the elitism step: `null` everywhere except the elite
      slots, which are filled only when their count is even. */
  function ElitePopulation(ga: GenAlg, sorted: seq<Ref>): (r: seq<Option<Ref>>)
    requires |sorted| == ga.popSize
    requires TakesElites(ga) ==> EliteSlots(ga) <= ga.popSize
    ensures |r| == ga.popSize
    ensures !TakesElites(ga) ==> forall k :: 0 <= k < |r| ==> r[k] == None
    ensures TakesElites(ga) ==> forall k :: EliteSlots(ga) <= k < |r| ==> r[k] == None
    ensures TakesElites(ga) ==> ElitesPlaced(r, sorted, ga.numElite, ga.numCopiesElite)
    ensures forall k :: 0 <= k < |r| && r[k].Some? ==> r[k].value in sorted
  {
    var empty := Nulls(ga.popSize);
    if !TakesElites(ga) then empty
    else
      var e := ga.numElite;
      var c := ga.numCopiesElite;
      assert e * c == EliteSlots(ga);
      ElitesFit(e, c, ga.popSize);
      var r := GrabNBest(e, c, empty, sorted);
      ElitesFrom(r, sorted, e, c);
      r
  }

  /** An elite layout with `null` after the elite slots holds only
      references taken from `pop`. */
  lemma {:induction false} ElitesFrom(r: seq<Option<Ref>>, pop: seq<Ref>, nBest: nat, numCopies: nat)
    requires ElitesPlaced(r, pop, nBest, numCopies)
    requires forall k :: nBest * numCopies <= k < |r| ==> r[k] == None
    ensures forall k :: 0 <= k < |r| && r[k].Some? ==> r[k].value in pop
  {
    forall k | 0 <= k < |r| && r[k].Some?
      ensures r[k].value in pop
    {
      if k < nBest * numCopies {
        var g := k / numCopies;
        assert r[k] == Some(pop[g]);
      }
    }
  }

  /** A fresh array of `n` references: all `null`. */
  function Nulls(n: nat): (r: seq<Option<Ref>>)
    ensures |r| == n && forall k :: 0 <= k < n ==> r[k] == None
  {
    seq(n, _ => None)
  }

  /** `Epoch(old_pop)` on the population `sorted` that `Array.Sort` made of
      it. The new population keeps the elite slots of `ElitePopulation` and
      refers to the bred genomes, appended to the store, in the others. */
  function Epoch(ga: GenAlg, store: seq<Genome>, sorted: seq<Ref>, draws: seq<PairDraws>)
    : (r: Result<EpochResult>)
    requires SortedPopulation(ga, store, sorted)
    requires |draws| == NumPairs(ga)
    requires forall p :: 0 <= p < |draws| ==> PairDrawsOk(ga.chromoLength, draws[p])
    ensures ga.popSize == 0 ==> r == Failure(IndexOutOfRange)
    ensures TakesElites(ga) && EliteSlots(ga) > ga.popSize ==> r == Failure(IndexOutOfRange)
    ensures r.Success? ==>
      ga.popSize > 0 && (TakesElites(ga) ==> EliteSlots(ga) <= ga.popSize) &&
      r.value.ga == ga.(totalFitness := Sum(Fitnesses(store, sorted)),
                        bestFitness := store[sorted[0]].fitness) &&
      |r.value.store| == |store| + BredCount(ga) && r.value.store[..|store|] == store &&
      |r.value.population| == ga.popSize
    ensures r.Success? ==> forall k :: 0 <= k < |r.value.population| && r.value.population[k].Some? ==>
      r.value.population[k].value < |r.value.store|
    ensures r.Success? ==> forall j :: |store| <= j < |r.value.store| ==>
      |r.value.store[j].weights| == ga.chromoLength
  {
    match CalculateStats(ga, Fitnesses(store, sorted))
    case Failure(e) => Failure(e)
    case Success(ga') =>
      if TakesElites(ga) && EliteSlots(ga) > ga.popSize then Failure(IndexOutOfRange)
      else
        HalfRoundedUp(BredCount(ga));
        match Breed(BreedingPairs(ga', store, sorted, draws), BredCount(ga), ga.chromoLength)
        case Failure(e) => Failure(e)
        case Success(bred) =>
          Success(EpochResult(ga', store + bred,
            NewPopulation(ElitePopulation(ga, sorted), EliteSlots(ga), |store|)))
  }

  /** The slots from `firstBred` on refer to consecutive new genomes. */
  function NewPopulation(elite: seq<Option<Ref>>, firstBred: nat, firstRef: nat)
    : (r: seq<Option<Ref>>)
    ensures |r| == |elite|
    ensures forall k :: 0 <= k < |r| && k < firstBred ==> r[k] == elite[k]
    ensures forall k :: firstBred <= k < |r| ==> r[k] == Some(firstRef + (k - firstBred))
  {
    seq(|elite|, k requires 0 <= k < |elite| =>
      if k < firstBred then elite[k] else Some(firstRef + (k - firstBred)))
  }

  // ----------------------------------------------------------------------
  // Properties of Epoch
  // ----------------------------------------------------------------------

  /** The slot layout of a successful `Epoch`: elite references (or `null`
      when the elite count is odd) in the leading slots, and fresh genomes
      of fitness zero and full length, appended to the store in slot order,
      in the rest. The old genomes, elites included, are left as they were. */
  lemma {:induction false} EpochLayout(ga: GenAlg, store: seq<Genome>, sorted: seq<Ref>, draws: seq<PairDraws>)
    requires SortedPopulation(ga, store, sorted)
    requires |draws| == NumPairs(ga)
    requires forall p :: 0 <= p < |draws| ==> PairDrawsOk(ga.chromoLength, draws[p])
    requires Epoch(ga, store, sorted, draws).Success?
    ensures var r := Epoch(ga, store, sorted, draws).value;
      (forall k :: EliteSlots(ga) <= k < ga.popSize ==>
        r.population[k] == Some(|store| + (k - EliteSlots(ga))) &&
        |store| + (k - EliteSlots(ga)) < |r.store| &&
        r.store[|store| + (k - EliteSlots(ga))].fitness == 0.0 &&
        |r.store[|store| + (k - EliteSlots(ga))].weights| == ga.chromoLength) &&
      (TakesElites(ga) ==> ElitesPlaced(r.population, sorted, ga.numElite, ga.numCopiesElite)) &&
      (!TakesElites(ga) ==> forall k :: 0 <= k < ga.popSize && k < EliteSlots(ga) ==>
        r.population[k] == None)
  {
    var ga' := CalculateStats(ga, Fitnesses(store, sorted)).value;
    HalfRoundedUp(BredCount(ga));
    var pairs := BreedingPairs(ga', store, sorted, draws);
    var bred := Breed(pairs, BredCount(ga), ga.chromoLength).value;
    var r := Epoch(ga, store, sorted, draws).value;
    assert r.store == store + bred;
    assert r.population == NewPopulation(ElitePopulation(ga, sorted), EliteSlots(ga), |store|);
    LayoutOf(ga, store, sorted, bred, r);
  }

  /** What a bred slot holds: slot `EliteSlots + j` refers to a new genome
      whose chromosome is one baby of iteration `j / 2` of the breeding
      loop (the first baby for even `j`, the second for odd `j`), that is,
      the mutated crossover of two roulette-chosen parents. The roulette
      spins over the statistics `Epoch` has just computed. */
  lemma {:induction false} EpochBreeds(ga: GenAlg, store: seq<Genome>, sorted: seq<Ref>,
                                       draws: seq<PairDraws>, j: nat)
    requires SortedPopulation(ga, store, sorted)
    requires |draws| == NumPairs(ga)
    requires forall p :: 0 <= p < |draws| ==> PairDrawsOk(ga.chromoLength, draws[p])
    requires Epoch(ga, store, sorted, draws).Success? && j < BredCount(ga)
    ensures var r := Epoch(ga, store, sorted, draws).value;
      var babies := Offspring(r.ga, store, sorted, draws[j / 2]);
      && EliteSlots(ga) + j < |r.population|
      && r.population[EliteSlots(ga) + j] == Some(|store| + j)
      && |store| + j < |r.store|
      && babies.Success?
      && r.store[|store| + j] == FromWeights(if j % 2 == 0 then babies.value.0 else babies.value.1)
  {
    var ga' := CalculateStats(ga, Fitnesses(store, sorted)).value;
    HalfRoundedUp(BredCount(ga));
    var pairs := BreedingPairs(ga', store, sorted, draws);
    var bred := Breed(pairs, BredCount(ga), ga.chromoLength).value;
    var r := Epoch(ga, store, sorted, draws).value;
    assert r == EpochResult(ga', store + bred,
                            NewPopulation(ElitePopulation(ga, sorted), EliteSlots(ga), |store|));
    BredSlot(pairs, BredCount(ga), ga.chromoLength, j);
    assert pairs[j / 2] == Offspring(ga', store, sorted, draws[j / 2]);
    assert r.store[|store| + j] == bred[j];
  }

  /** Genome `j` of the breeding loop is a baby of pair `j / 2`. */
  lemma {:induction false} BredSlot(pairs: seq<Result<(seq<real>, seq<real>)>>, remaining: nat,
                                    chromoLength: nat, j: nat)
    requires remaining <= 2 * |pairs| <= remaining + 1
    requires forall q :: 0 <= q < |pairs| && pairs[q].Success? ==>
      |pairs[q].value.0| == chromoLength && |pairs[q].value.1| == chromoLength
    requires Breed(pairs, remaining, chromoLength).Success? && j < remaining
    ensures j / 2 < |pairs| && pairs[j / 2].Success?
    ensures Breed(pairs, remaining, chromoLength).value[j] ==
      FromWeights(if j % 2 == 0 then pairs[j / 2].value.0 else pairs[j / 2].value.1)
  {
    BreedSlots(pairs, remaining, chromoLength, j / 2);
    if j % 2 == 0 {
      assert j == 2 * (j / 2);
    } else {
      assert j == 2 * (j / 2) + 1;
    }
  }

  /** The layout facts of `EpochLayout`, for any result assembled the way
      `Epoch` assembles its own. */
  lemma {:induction false} LayoutOf(ga: GenAlg, store: seq<Genome>, sorted: seq<Ref>, bred: seq<Genome>, r: EpochResult)
    requires |sorted| == ga.popSize && (TakesElites(ga) ==> EliteSlots(ga) <= ga.popSize)
    requires |bred| == BredCount(ga)
    requires forall i :: 0 <= i < |bred| ==>
      bred[i].fitness == 0.0 && |bred[i].weights| == ga.chromoLength
    requires r.store == store + bred
    requires r.population == NewPopulation(ElitePopulation(ga, sorted), EliteSlots(ga), |store|)
    ensures forall k :: EliteSlots(ga) <= k < ga.popSize ==>
        r.population[k] == Some(|store| + (k - EliteSlots(ga))) &&
        |store| + (k - EliteSlots(ga)) < |r.store| &&
        r.store[|store| + (k - EliteSlots(ga))].fitness == 0.0 &&
        |r.store[|store| + (k - EliteSlots(ga))].weights| == ga.chromoLength
    ensures TakesElites(ga) ==> ElitesPlaced(r.population, sorted, ga.numElite, ga.numCopiesElite)
    ensures !TakesElites(ga) ==> forall k :: 0 <= k < ga.popSize && k < EliteSlots(ga) ==>
        r.population[k] == None
  {
    var elite := ElitePopulation(ga, sorted);
    var e := EliteSlots(ga);
    AppendedSlots(store, bred, r.population, e, ga.popSize, ga.chromoLength);
    if TakesElites(ga) {
      PlacedKept(elite, r.population, sorted, ga.numElite, ga.numCopiesElite);
    }
  }

  /** Slots from `e` on refer, in order, to the genomes appended after the
      old store. */
  lemma {:induction false} AppendedSlots(store: seq<Genome>, bred: seq<Genome>, pop: seq<Option<Ref>>, e: nat, n: nat,
                      len: nat)
    requires |pop| == n && |bred| == (if e < n then n - e else 0)
    requires forall k :: e <= k < n ==> pop[k] == Some(|store| + (k - e))
    requires forall i :: 0 <= i < |bred| ==> bred[i].fitness == 0.0 && |bred[i].weights| == len
    ensures forall k :: e <= k < n ==>
      pop[k] == Some(|store| + (k - e)) && |store| + (k - e) < |store + bred| &&
      (store + bred)[|store| + (k - e)].fitness == 0.0 &&
      |(store + bred)[|store| + (k - e)].weights| == len
  {
    forall i | 0 <= i < |bred|
      ensures (store + bred)[|store| + i] == bred[i]
    {
    }
  }

  /** Slots copied unchanged from an elite layout keep it. */
  lemma {:induction false} PlacedKept(elite: seq<Option<Ref>>, pop: seq<Option<Ref>>, sorted: seq<Ref>, nBest: nat,
                   numCopies: nat)
    requires |pop| == |elite| && ElitesPlaced(elite, sorted, nBest, numCopies)
    requires forall k :: 0 <= k < |pop| && k < nBest * numCopies ==> pop[k] == elite[k]
    ensures ElitesPlaced(pop, sorted, nBest, numCopies)
  {
  }

  /** Block form of `ElitesPlaced`: copy `c` of elite `g` sits in slot
      `g * numCopies + c`, and is the very reference of slot `g`. */
  lemma {:induction false} PlacedSlot(r: seq<Option<Ref>>, pop: seq<Ref>, nBest: nat, numCopies: nat, g: nat, c: nat)
    requires ElitesPlaced(r, pop, nBest, numCopies) && g < nBest && c < numCopies
    ensures g * numCopies + c < |r| && g < |pop|
    ensures r[g * numCopies + c] == Some(pop[g])
  {
    MulMonotone(g, nBest, numCopies);
    SlotBlock(g, c, numCopies);
    var k := g * numCopies + c;
    assert k / numCopies == g;
    assert 0 <= k < nBest * numCopies;
  }

  /** `Epoch` fails only where the program throws: with non-negative
      fitnesses and non-empty chromosomes, a non-empty population whose
      elites fit always breeds a new one. */
  lemma {:induction false} EpochSucceeds(ga: GenAlg, store: seq<Genome>, sorted: seq<Ref>, draws: seq<PairDraws>)
    requires SortedPopulation(ga, store, sorted)
    requires |draws| == NumPairs(ga)
    requires forall p :: 0 <= p < |draws| ==> PairDrawsOk(ga.chromoLength, draws[p])
    requires NonNegative(Fitnesses(store, sorted)) && ga.chromoLength >= 1
    ensures Epoch(ga, store, sorted, draws).Success? <==>
      ga.popSize > 0 && !(TakesElites(ga) && EliteSlots(ga) > ga.popSize)
  {
    if ga.popSize > 0 && !(TakesElites(ga) && EliteSlots(ga) > ga.popSize) {
      var fits := Fitnesses(store, sorted);
      var ga' := CalculateStats(ga, fits).value;
      forall p | 0 <= p < |draws|
        ensures Offspring(ga', store, sorted, draws[p]).Success?
      {
        RouletteNeverNull(fits, draws[p].mumSpin);
        RouletteNeverNull(fits, draws[p].dadSpin);
      }
      HalfRoundedUp(BredCount(ga));
    }
  }

  /** Each baby of a breeding pair is, weight by weight, within half of
      `dMaxPerturbation` of one roulette-chosen parent, the other baby
      taking the other parent's weight at that index. */
  lemma {:induction false} OffspringNearParents(ga: GenAlg, store: seq<Genome>, sorted: seq<Ref>, d: PairDraws)
    requires SortedPopulation(ga, store, sorted) && PairDrawsOk(ga.chromoLength, d)
    requires Offspring(ga, store, sorted, d).Success? && ga.maxPerturbation >= 0.0
    ensures var fits := Fitnesses(store, sorted);
      var m := Roulette(fits, ga.totalFitness, d.mumSpin);
      var f := Roulette(fits, ga.totalFitness, d.dadSpin);
      var babies := Offspring(ga, store, sorted, d).value;
      var h := 0.5 * ga.maxPerturbation;
      m.Some? && f.Some? && m.value < |sorted| && f.value < |sorted| &&
      forall i :: 0 <= i < ga.chromoLength ==>
        (Near(babies.0[i], store[sorted[m.value]].weights[i], h) &&
         Near(babies.1[i], store[sorted[f.value]].weights[i], h)) ||
        (Near(babies.0[i], store[sorted[f.value]].weights[i], h) &&
         Near(babies.1[i], store[sorted[m.value]].weights[i], h))
  {
    var fits := Fitnesses(store, sorted);
    var m := Roulette(fits, ga.totalFitness, d.mumSpin).value;
    var f := Roulette(fits, ga.totalFitness, d.dadSpin).value;
    var mum := store[sorted[m]].weights;
    var dad := store[sorted[f]].weights;
    var cross := Crossover(mum, dad, sorted[m] == sorted[f], ga.crossoverRate, d.crossDraw, d.crossPoint).value;
    MutateBounded(cross.0, ga.mutationRate, ga.maxPerturbation, d.mutation1);
    MutateBounded(cross.1, ga.mutationRate, ga.maxPerturbation, d.mutation2);
  }
}
