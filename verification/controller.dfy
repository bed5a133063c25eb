/** The simulation controller: a population of minesweepers, their
    genomes, the mines and the genetic algorithm, advanced one call of
    `Update` at a time.

    A call either runs one round, in which every sweeper takes a step, or,
    once `iNumTicks` rounds have run, closes the generation: the statistics
    of the previous epoch go to the history lists, the genetic algorithm
    breeds a new population and every sweeper receives a new brain. Random
    draws, the outcome of `Array.Sort` and `Math` come in as parameters. */
module Controller {
  import opened Wrappers
  import opened Utils
  import opened Vector2D
  import opened Genomes
  import opened Params
  import GA = GeneticAlgorithm
  import MS = Minesweeper
  import NN = NeuralNet

  /** The controller's fields. The genome objects live in `store`;
      `population` holds the reference each `m_ThePopulation` slot has.
      `settings` stands for the static `Params` the program reads, whose
      window size `ControlChangedSize` overwrites. */
  datatype World = World(
    settings: Settings,
    store: seq<Genome>,
    population: seq<GA.Ref>,
    sweepers: seq<MS.Sweeper>,
    mines: seq<Vec>,
    ga: GA.GenAlg,
    ticks: int,
    generations: nat,
    avFitness: seq<real>,
    bestFitness: seq<real>,
    cx: int,
    cy: int)

  /** The state every call of `Update` starts from and leaves behind: one
      genome reference per sweeper, all chromosomes as long as the
      networks' weight lists, and networks that can be stepped. */
  predicate Running(w: World) {
    var n := |w.sweepers|;
    n > 0 && |w.population| == n && w.ga.popSize == n &&
    GA.RefsIn(w.store, w.population) &&
    (forall j :: 0 <= j < |w.store| ==> |w.store[j].weights| == w.ga.chromoLength) &&
    (forall i :: 0 <= i < n ==>
      MS.Steppable(w.sweepers[i]) &&
      NN.GetNumberOfWeights(w.sweepers[i].brain) == w.ga.chromoLength)
  }

  // ----------------------------------------------------------------------
  // Tick and generation counters
  // ----------------------------------------------------------------------

  datatype Counters = Counters(ticks: int, generations: nat)

  function Count(w: World): Counters {
    Counters(w.ticks, w.generations)
  }

  /** `if (m_iTicks++ < iNumTicks)`: a round, or a new generation that
      resets the tick count. */
  function Advance(c: Counters, numTicks: int): Counters {
    if c.ticks < numTicks then Counters(c.ticks + 1, c.generations)
    else Counters(0, c.generations + 1)
  }

  /** The counters after `n` calls. */
  function AdvanceBy(c: Counters, numTicks: int, n: nat): Counters
    decreases n
  {
    if n == 0 then c else Advance(AdvanceBy(c, numTicks, n - 1), numTicks)
  }

  /** Within a generation every call adds one tick. */
  lemma {:induction false} TicksWithinGeneration(t: nat, g: nat, numTicks: int, n: nat)
    requires t + n <= numTicks
    ensures AdvanceBy(Counters(t, g), numTicks, n) == Counters(t + n, g)
    decreases n
  {
    if n > 0 {
      TicksWithinGeneration(t, g, numTicks, n - 1);
    }
  }

  /** From a fresh generation, `iNumTicks` calls run rounds and the next
      call starts a new generation: a generation spans `iNumTicks + 1`
      calls. */
  lemma GenerationLength(g: nat, numTicks: nat)
    ensures AdvanceBy(Counters(0, g), numTicks, numTicks) == Counters(numTicks, g)
    ensures AdvanceBy(Counters(0, g), numTicks, numTicks + 1) == Counters(0, g + 1)
  {
    TicksWithinGeneration(0, g, numTicks, numTicks);
  }

  // ----------------------------------------------------------------------
  // A round
  // ----------------------------------------------------------------------

  /** The draws of `Vector2D.GetRandom(cxClient, cyClient)`. */
  datatype Relocation = Relocation(ux: real, uy: real)

  predicate RelocationOk(d: Relocation) {
    IsRandFloat(d.ux) && IsRandFloat(d.uy)
  }

  /** Everything but the sweepers, the mines and the genomes' contents is
      left as it was. */
  predicate SameFrame(w: World, w': World) {
    w'.settings == w.settings && w'.population == w.population && w'.ga == w.ga &&
    w'.ticks == w.ticks && w'.generations == w.generations &&
    w'.avFitness == w.avFitness && w'.bestFitness == w.bestFitness &&
    w'.cx == w.cx && w'.cy == w.cy &&
    |w'.sweepers| == |w.sweepers| && |w'.mines| == |w.mines| && |w'.store| == |w.store|
  }

  /** The sweeper after its own `Update`, whether or not it moved. */
  function Moved(w: World, i: nat, math: MathFns): (s: MS.Sweeper)
    requires Running(w) && i < |w.sweepers| && PositiveExp(math.exp)
    requires MS.Update(w.sweepers[i], w.mines, w.settings, math).Success?
    ensures s.brain == w.sweepers[i].brain && s.fitness == w.sweepers[i].fitness
  {
    MS.Update(w.sweepers[i], w.mines, w.settings, math).value.0
  }

  /** Sweeper `i`'s turn in a round: move it, and when it has reached its
      nearest mine, raise its fitness and put that mine somewhere new. The
      sweeper's genome is then given its fitness. A network answering with
      too few outputs ends the round with `false`. */
  function Step(w: World, i: nat, reloc: Relocation, math: MathFns): (r: Result<(World, bool)>)
    requires Running(w) && i < |w.sweepers| && PositiveExp(math.exp)
    ensures r.Success? ==> MS.Update(w.sweepers[i], w.mines, w.settings, math).Success?
    ensures r.Success? ==> Running(r.value.0) && SameFrame(w, r.value.0)
    ensures r.Success? ==>
      forall k :: 0 <= k < |w.sweepers| && k != i ==> r.value.0.sweepers[k] == w.sweepers[k]
    ensures r.Success? ==>
      forall x :: 0 <= x < |w.store| && x != w.population[i] ==> r.value.0.store[x] == w.store[x]
    ensures r.Success? && !r.value.1 ==>
      r.value.0 == w.(sweepers := w.sweepers[i := Moved(w, i, math)])
    ensures r.Success? && r.value.1 ==> Scored(w, i, Moved(w, i, math), reloc, r.value.0)
  {
    match MS.Update(w.sweepers[i], w.mines, w.settings, math)
    case Failure(e) => Failure(e)
    case Success(u) =>
      var s := u.0;
      if !u.1 then
        Success((Settle(w, i, s), false))
      else
        match MS.CheckForMine(s, w.mines, w.settings.mineScale)
        case Failure(e) => Failure(e)
        case Success(hit) =>
          if hit >= 0 then
            var mines := w.mines[hit := GetRandom(w.cx as real, w.cy as real, reloc.ux, reloc.uy)];
            Success((Record(w, i, MS.IncrementFitness(s), mines), true))
          else
            Success((Record(w, i, s, w.mines), true))
  }

  /** The step of sweeper `i` as it shows in the world: it moved to
      `s`, it scored exactly when it came within reach of its nearest
      mine, in which case that mine, and no other, was replaced, and its
      genome carries its fitness. */
  predicate Scored(w: World, i: nat, s: MS.Sweeper, reloc: Relocation, w': World)
    requires i < |w.sweepers| && i < |w.population| && w.population[i] < |w.store|
    requires |w'.sweepers| == |w.sweepers| && |w'.store| == |w.store|
  {
    var caught := Caught(s, w.mines, w.settings.mineScale);
    w'.store[w.population[i]].fitness == w'.sweepers[i].fitness &&
    w'.store[w.population[i]].weights == w.store[w.population[i]].weights &&
    w'.sweepers[i] == s.(fitness := w'.sweepers[i].fitness) &&
    (caught ==> w'.sweepers[i].fitness == s.fitness + 1.0 &&
                w'.mines == w.mines[s.closestMine := GetRandom(w.cx as real, w.cy as real, reloc.ux, reloc.uy)]) &&
    (!caught ==> w'.sweepers[i].fitness == s.fitness && w'.mines == w.mines)
  }

  /** Sweeper `i` replaced by `s`; the mines and genomes are left alone. */
  function Settle(w: World, i: nat, s: MS.Sweeper): (w': World)
    requires Running(w) && i < |w.sweepers| && s.brain == w.sweepers[i].brain
    ensures Running(w') && SameFrame(w, w') && w'.store == w.store && w'.mines == w.mines
    ensures w'.sweepers == w.sweepers[i := s]
  {
    w.(sweepers := w.sweepers[i := s])
  }

  /** Sweeper `i` replaced by `s`, with the given mines, and its genome
      given its fitness (`m_ThePopulation[i].dFitness = m_Sweepers[i].Fitness()`). */
  function Record(w: World, i: nat, s: MS.Sweeper, mines: seq<Vec>): (w': World)
    requires Running(w) && i < |w.sweepers| && s.brain == w.sweepers[i].brain && |mines| == |w.mines|
    ensures Running(w') && SameFrame(w, w')
    ensures w'.sweepers == w.sweepers[i := s] && w'.mines == mines
    ensures w'.store == w.store[w.population[i] := w.store[w.population[i]].(fitness := s.fitness)]
  {
    var g := w.population[i];
    w.(sweepers := w.sweepers[i := s], mines := mines,
       store := w.store[g := w.store[g].(fitness := s.fitness)])
  }

  /** The sweeper has come closer than `mineScale + 5` to its nearest mine. */
  predicate Caught(s: MS.Sweeper, mines: seq<Vec>, mineScale: real) {
    s.closestMine < |mines| &&
    MS.Within(LengthSq(Sub(s.position, mines[s.closestMine])), mineScale + 5.0)
  }

  /** No sweeper from `from` on refers to genome `x`. */
  predicate Untouched(population: seq<GA.Ref>, from: nat, x: GA.Ref) {
    forall k :: from <= k < |population| ==> population[k] != x
  }

  /** The sweepers from `i` on take their steps in index order. */
  function Round(w: World, i: nat, relocs: seq<Relocation>, math: MathFns): (r: Result<(World, bool)>)
    requires Running(w) && i <= |w.sweepers| && |relocs| == |w.sweepers| && PositiveExp(math.exp)
    ensures r.Success? ==> Running(r.value.0) && SameFrame(w, r.value.0)
    ensures r.Success? ==> forall k :: 0 <= k < i ==> r.value.0.sweepers[k] == w.sweepers[k]
    ensures r.Success? ==> forall x :: 0 <= x < |w.store| && Untouched(w.population, i, x) ==>
      r.value.0.store[x] == w.store[x]
    decreases |w.sweepers| - i
  {
    if i == |w.sweepers| then Success((w, true))
    else
      match Step(w, i, relocs[i], math)
      case Failure(e) => Failure(e)
      case Success(st) =>
        if !st.1 then Success(st)
        else Round(st.0, i + 1, relocs, math)
  }

  /** The genome of sweeper `j` is not shared with any later sweeper. */
  predicate LastHolder(population: seq<GA.Ref>, j: nat) {
    j < |population| && Untouched(population, j + 1, population[j])
  }

  /** After a complete round every genome holds the fitness of the last
      sweeper referring to it: of its only sweeper, unless elitism made
      several slots share it. */
  lemma {:induction false} RoundRecordsFitness(w: World, i: nat, relocs: seq<Relocation>, math: MathFns)
    requires Running(w) && i <= |w.sweepers| && |relocs| == |w.sweepers| && PositiveExp(math.exp)
    requires Round(w, i, relocs, math).Success? && Round(w, i, relocs, math).value.1
    ensures var w' := Round(w, i, relocs, math).value.0;
      forall j :: i <= j < |w.sweepers| && LastHolder(w.population, j) ==>
        w'.store[w.population[j]].fitness == w'.sweepers[j].fitness
    decreases |w.sweepers| - i
  {
    if i < |w.sweepers| {
      var st := Step(w, i, relocs[i], math).value;
      assert st.1 && Round(w, i, relocs, math) == Round(st.0, i + 1, relocs, math);
      RoundRecordsFitness(st.0, i + 1, relocs, math);
      var w' := Round(st.0, i + 1, relocs, math).value.0;
      if LastHolder(w.population, i) {
        var g := w.population[i];
        assert Scored(w, i, Moved(w, i, math), relocs[i], st.0);
        assert Untouched(st.0.population, i + 1, g);
        assert w'.store[g] == st.0.store[g] && w'.sweepers[i] == st.0.sweepers[i];
      }
    }
  }

  /** One scoring step adds one point of fitness to the stepping sweeper,
      or none. */
  lemma {:induction false} StepScoresAtMostOne(w: World, i: nat, reloc: Relocation, math: MathFns)
    requires Running(w) && i < |w.sweepers| && PositiveExp(math.exp)
    requires Step(w, i, reloc, math).Success? && Step(w, i, reloc, math).value.1
    ensures var f := Step(w, i, reloc, math).value.0.sweepers[i].fitness;
      f == w.sweepers[i].fitness || f == w.sweepers[i].fitness + 1.0
  {
    var s := Moved(w, i, math);
    assert Scored(w, i, s, reloc, Step(w, i, reloc, math).value.0);
  }

  /** A network answering with too few outputs ends the round at once:
      the later sweepers do not move, and only the failing sweeper's
      cached nearest mine has changed. */
  lemma {:induction false} RoundStopsAtFailure(w: World, i: nat, relocs: seq<Relocation>, math: MathFns)
    requires Running(w) && i < |w.sweepers| && |relocs| == |w.sweepers| && PositiveExp(math.exp)
    requires Step(w, i, relocs[i], math).Success? && !Step(w, i, relocs[i], math).value.1
    ensures Round(w, i, relocs, math) == Success((w.(sweepers := w.sweepers[i := Moved(w, i, math)]), false))
    ensures Moved(w, i, math) ==
      w.sweepers[i].(closestMine := MS.GetClosestMine(w.sweepers[i], w.mines).1)
  {
  }

  // ----------------------------------------------------------------------
  // A new generation
  // ----------------------------------------------------------------------

  /** The draws of a sweeper's `Reset`. */
  datatype ResetDraws = ResetDraws(ux: real, uy: real, rotation: real)

  predicate ResetDrawsOk(d: ResetDraws) {
    IsRandFloat(d.ux) && IsRandFloat(d.uy) && IsRandFloat(d.rotation)
  }

  /** The weights of genome slot `k` fit the network of sweeper `k`. */
  predicate Fits(sweepers: seq<MS.Sweeper>, pop: seq<Option<GA.Ref>>, store: seq<Genome>, k: nat)
    requires k < |sweepers| && k < |pop|
    requires pop[k].Some? ==> pop[k].value < |store|
  {
    pop[k].Some? ==> |store[pop[k].value].weights| >= NN.GetNumberOfWeights(sweepers[k].brain)
  }

  /** `PutWeights(ref vecWeights)` followed by `Reset()`, for one sweeper. */
  function Renew(s: MS.Sweeper, weights: seq<real>, p: Settings, d: ResetDraws): (r: Result<MS.Sweeper>)
    requires NN.Valid(s.brain)
    ensures r.Success? <==> |weights| >= NN.GetNumberOfWeights(s.brain)
    ensures r.Success? ==>
      r.value.fitness == 0.0 && NN.Valid(r.value.brain) && r.value.brain.config == s.brain.config &&
      NN.LayersWeights(r.value.brain.layers) == weights[..NN.GetNumberOfWeights(s.brain)]
    ensures r.Success? && ResetDrawsOk(d) && p.windowWidth > 0 && p.windowHeight > 0 ==>
      0.0 <= r.value.position.x < p.windowWidth as real &&
      0.0 <= r.value.position.y < p.windowHeight as real
  {
    match MS.PutWeights(s, weights)
    case Failure(e) => Failure(e)
    case Success(s') => Success(MS.Reset(s', p, d.ux, d.uy, d.rotation))
  }

  /** The loop that hands the new population's weights to the sweepers
      and resets them, slot by slot. A `null` slot is dereferenced. */
  function Rebrain(sweepers: seq<MS.Sweeper>, pop: seq<Option<GA.Ref>>, store: seq<Genome>,
                   p: Settings, resets: seq<ResetDraws>)
    : (r: Result<(seq<MS.Sweeper>, seq<GA.Ref>)>)
    requires |pop| == |sweepers| && |resets| == |sweepers|
    requires forall k :: 0 <= k < |pop| && pop[k].Some? ==> pop[k].value < |store|
    requires forall k :: 0 <= k < |sweepers| ==> NN.Valid(sweepers[k].brain)
    ensures r.Success? ==> |r.value.0| == |sweepers| && |r.value.1| == |sweepers|
    decreases |sweepers|
  {
    if |sweepers| == 0 then Success(([], []))
    else
      match pop[0]
      case None => Failure(NullReference)
      case Some(g) =>
        match Renew(sweepers[0], store[g].weights, p, resets[0])
        case Failure(e) => Failure(e)
        case Success(s) =>
          match Rebrain(sweepers[1..], pop[1..], store, p, resets[1..])
          case Failure(e) => Failure(e)
          case Success(rest) => Success(([s] + rest.0, [g] + rest.1))
  }

  /** No slot is `null` and every genome's weights fit its sweeper's
      network. */
  predicate AllFit(sweepers: seq<MS.Sweeper>, pop: seq<Option<GA.Ref>>, store: seq<Genome>)
    requires |pop| == |sweepers|
    requires forall j :: 0 <= j < |pop| && pop[j].Some? ==> pop[j].value < |store|
  {
    forall k :: 0 <= k < |pop| ==> pop[k].Some? && Fits(sweepers, pop, store, k)
  }

  /** The loop succeeds exactly when no slot is `null` and every genome's
      weights fit its sweeper's network. */
  lemma {:induction false} RebrainSucceeds(sweepers: seq<MS.Sweeper>, pop: seq<Option<GA.Ref>>,
                                           store: seq<Genome>, p: Settings, resets: seq<ResetDraws>)
    requires |pop| == |sweepers| && |resets| == |sweepers|
    requires forall j :: 0 <= j < |pop| && pop[j].Some? ==> pop[j].value < |store|
    requires forall j :: 0 <= j < |sweepers| ==> NN.Valid(sweepers[j].brain)
    ensures Rebrain(sweepers, pop, store, p, resets).Success? <==> AllFit(sweepers, pop, store)
    decreases |sweepers|
  {
    if |sweepers| > 0 && pop[0].Some? {
      var tail := pop[1..];
      var first := Renew(sweepers[0], store[pop[0].value].weights, p, resets[0]);
      var later := Rebrain(sweepers[1..], tail, store, p, resets[1..]);
      assert Rebrain(sweepers, pop, store, p, resets).Success? <==> first.Success? && later.Success?;
      assert first.Success? <==> Fits(sweepers, pop, store, 0);
      RebrainSucceeds(sweepers[1..], tail, store, p, resets[1..]);
      AllFitSplits(sweepers, pop, store);
    }
  }

  /** `AllFit` holds of the slots exactly when it holds of the first one
      and of the rest. */
  lemma {:induction false} AllFitSplits(sweepers: seq<MS.Sweeper>, pop: seq<Option<GA.Ref>>, store: seq<Genome>)
    requires |pop| == |sweepers| > 0
    requires forall j :: 0 <= j < |pop| && pop[j].Some? ==> pop[j].value < |store|
    ensures AllFit(sweepers, pop, store) <==>
      pop[0].Some? && Fits(sweepers, pop, store, 0) && AllFit(sweepers[1..], pop[1..], store)
  {
    var tail := pop[1..];
    forall k | 0 <= k < |tail|
      ensures tail[k] == pop[k + 1]
      ensures Fits(sweepers[1..], tail, store, k) == Fits(sweepers, pop, store, k + 1)
    {
    }
    if AllFit(sweepers, pop, store) {
      forall k | 0 <= k < |tail|
        ensures tail[k].Some? && Fits(sweepers[1..], tail, store, k)
      {
        assert Fits(sweepers, pop, store, k + 1);
      }
    }
    if pop[0].Some? && Fits(sweepers, pop, store, 0) && AllFit(sweepers[1..], tail, store) {
      forall k | 0 <= k < |pop|
        ensures pop[k].Some? && Fits(sweepers, pop, store, k)
      {
        if k > 0 {
          assert Fits(sweepers[1..], tail, store, k - 1);
        }
      }
    }
  }

  /** A successful loop put the first sweeper's renewal in front of
      what the loop made of the other slots. */
  lemma {:induction false} RebrainCons(sweepers: seq<MS.Sweeper>, pop: seq<Option<GA.Ref>>,
                                       store: seq<Genome>, p: Settings, resets: seq<ResetDraws>)
    requires |pop| == |sweepers| && |resets| == |sweepers|
    requires forall j :: 0 <= j < |pop| && pop[j].Some? ==> pop[j].value < |store|
    requires forall j :: 0 <= j < |sweepers| ==> NN.Valid(sweepers[j].brain)
    requires Rebrain(sweepers, pop, store, p, resets).Success? && |sweepers| > 0
    ensures pop[0].Some? && pop[0].value < |store|
    ensures var r := Rebrain(sweepers, pop, store, p, resets).value;
      var rest := Rebrain(sweepers[1..], pop[1..], store, p, resets[1..]);
      rest.Success? && r.1 == [pop[0].value] + rest.value.1 &&
      Renew(sweepers[0], store[pop[0].value].weights, p, resets[0]) == Success(r.0[0]) &&
      r.0[1..] == rest.value.0
  {
    var g := pop[0].value;
    var s := Renew(sweepers[0], store[g].weights, p, resets[0]).value;
    var rest := Rebrain(sweepers[1..], pop[1..], store, p, resets[1..]).value;
    assert Rebrain(sweepers, pop, store, p, resets).value == ([s] + rest.0, [g] + rest.1);
  }

  /** Slot `k` of a successful loop holds the genome reference of slot
      `k` and the sweeper `Renew` made of sweeper `k` with its weights. */
  lemma {:induction false} RebrainSlot(sweepers: seq<MS.Sweeper>, pop: seq<Option<GA.Ref>>,
                                       store: seq<Genome>, p: Settings, resets: seq<ResetDraws>, k: nat)
    requires |pop| == |sweepers| && |resets| == |sweepers|
    requires forall j :: 0 <= j < |pop| && pop[j].Some? ==> pop[j].value < |store|
    requires forall j :: 0 <= j < |sweepers| ==> NN.Valid(sweepers[j].brain)
    requires Rebrain(sweepers, pop, store, p, resets).Success? && k < |sweepers|
    ensures var r := Rebrain(sweepers, pop, store, p, resets).value;
      pop[k] == Some(r.1[k]) &&
      Renew(sweepers[k], store[r.1[k]].weights, p, resets[k]) == Success(r.0[k])
    decreases k
  {
    RebrainCons(sweepers, pop, store, p, resets);
    if k > 0 {
      var r := Rebrain(sweepers, pop, store, p, resets).value;
      var rest := Rebrain(sweepers[1..], pop[1..], store, p, resets[1..]).value;
      RebrainSlot(sweepers[1..], pop[1..], store, p, resets[1..], k - 1);
      assert pop[1..][k - 1] == pop[k] && sweepers[1..][k - 1] == sweepers[k] && resets[1..][k - 1] == resets[k];
      assert r.0[k] == r.0[1..][k - 1] == rest.0[k - 1] && r.1[k] == rest.1[k - 1];
    }
  }

  /** With weights that fit, the first `null` slot makes the loop throw
      `NullReferenceException`. */
  lemma {:induction false} RebrainNull(sweepers: seq<MS.Sweeper>, pop: seq<Option<GA.Ref>>,
                                       store: seq<Genome>, p: Settings, resets: seq<ResetDraws>, j: nat)
    requires |pop| == |sweepers| && |resets| == |sweepers|
    requires forall k :: 0 <= k < |pop| && pop[k].Some? ==> pop[k].value < |store|
    requires forall k :: 0 <= k < |sweepers| ==> NN.Valid(sweepers[k].brain)
    requires forall k :: 0 <= k < |pop| ==> Fits(sweepers, pop, store, k)
    requires j < |pop| && pop[j].None?
    ensures Rebrain(sweepers, pop, store, p, resets) == Failure(NullReference)
    decreases j
  {
    if pop[0].Some? {
      assert Fits(sweepers, pop, store, 0);
      var tail := pop[1..];
      forall k | 0 <= k < |tail|
        ensures Fits(sweepers[1..], tail, store, k)
      {
        assert Fits(sweepers, pop, store, k + 1);
      }
      RebrainNull(sweepers[1..], tail, store, p, resets[1..], j - 1);
    }
  }

  /** What `Array.Sort` made of the population: the same references,
      ordered by `CompareTo`. */
  predicate IsSortOf(store: seq<Genome>, population: seq<GA.Ref>, sorted: seq<GA.Ref>) {
    multiset(sorted) == multiset(population) && GA.RefsIn(store, sorted) &&
    SortedByCompare(GA.Deref(store, sorted))
  }

  /** A sorted running population is what `Epoch` expects. */
  lemma {:induction false} SortIsSortedPopulation(w: World, sorted: seq<GA.Ref>)
    requires Running(w) && IsSortOf(w.store, w.population, sorted)
    ensures GA.SortedPopulation(w.ga, w.store, sorted)
  {
    assert |sorted| == |multiset(sorted)| == |multiset(w.population)| == |w.population|;
  }

  /** The draws of one call of `Update`: relocations for a round, and the
      sort outcome, breeding draws and reset draws for a generation. */
  datatype UpdateDraws = UpdateDraws(
    relocations: seq<Relocation>,
    sorted: seq<GA.Ref>,
    pairs: seq<GA.PairDraws>,
    resets: seq<ResetDraws>)

  predicate DrawsFor(w: World, d: UpdateDraws) {
    |d.relocations| == |w.sweepers| && |d.resets| == |w.sweepers| &&
    IsSortOf(w.store, w.population, d.sorted) &&
    |d.pairs| == GA.NumPairs(w.ga) &&
    forall p :: 0 <= p < |d.pairs| ==> GA.PairDrawsOk(w.ga.chromoLength, d.pairs[p])
  }

  /** The generation branch of `Update`: record the statistics of the last
      epoch, count the generation, breed, and give every sweeper its new
      genome's weights and a fresh start. */
  function Generation(w: World, d: UpdateDraws): (r: Result<World>)
    requires Running(w) && DrawsFor(w, d)
    ensures r.Success? ==> Running(r.value)
    ensures r.Success? ==>
      r.value.avFitness == w.avFitness + [GA.AverageFitness(w.ga)] &&
      r.value.bestFitness == w.bestFitness + [GA.BestFitness(w.ga)]
    ensures r.Success? ==>
      r.value.ticks == 0 && r.value.generations == w.generations + 1 &&
      r.value.settings == w.settings && r.value.mines == w.mines &&
      r.value.cx == w.cx && r.value.cy == w.cy
    ensures r.Success? ==> |r.value.store| >= |w.store| && r.value.store[..|w.store|] == w.store
    ensures r.Success? ==> Renewed(r.value)
  {
    SortIsSortedPopulation(w, d.sorted);
    match GA.Epoch(w.ga, w.store, d.sorted, d.pairs)
    case Failure(e) => Failure(e)
    case Success(next) =>
      match Rebrain(w.sweepers, next.population, next.store, w.settings, d.resets)
      case Failure(e) => Failure(e)
      case Success(rebrained) =>
        Installed(w, d.resets, next, rebrained.0, rebrained.1);
        Success(Install(w, next, rebrained.0, rebrained.1))
  }

  /** Every sweeper starts the generation with no fitness and its genome's
      weights in its network. */
  predicate Renewed(w: World)
    requires |w.population| == |w.sweepers| && GA.RefsIn(w.store, w.population)
  {
    forall i :: 0 <= i < |w.sweepers| ==>
      w.sweepers[i].fitness == 0.0 &&
      NN.LayersWeights(w.sweepers[i].brain.layers) == w.store[w.population[i]].weights
  }

  /** The world after the generation branch. */
  function Install(w: World, next: GA.EpochResult, sweepers: seq<MS.Sweeper>,
                   population: seq<GA.Ref>): World
    requires w.ga.popSize > 0
  {
    w.(avFitness := w.avFitness + [GA.AverageFitness(w.ga)],
       bestFitness := w.bestFitness + [GA.BestFitness(w.ga)],
       generations := w.generations + 1, ticks := 0,
       ga := next.ga, store := next.store, sweepers := sweepers, population := population)
  }

  /** What the generation branch leaves behind is running again, and every
      sweeper holds its new genome's weights. `next` stands for what
      `Epoch` returned: the same sizes, the old genomes kept at the front. */
  lemma {:induction false} Installed(w: World, resets: seq<ResetDraws>, next: GA.EpochResult,
                  sweepers: seq<MS.Sweeper>, population: seq<GA.Ref>)
    requires Running(w) && |resets| == |w.sweepers|
    requires next.ga.popSize == w.ga.popSize && next.ga.chromoLength == w.ga.chromoLength
    requires |next.store| >= |w.store| && next.store[..|w.store|] == w.store
    requires forall k :: 0 <= k < |next.population| && next.population[k].Some? ==>
      next.population[k].value < |next.store|
    requires forall j :: |w.store| <= j < |next.store| ==> |next.store[j].weights| == w.ga.chromoLength
    requires |next.population| == |w.sweepers|
    requires Rebrain(w.sweepers, next.population, next.store, w.settings, resets) ==
      Success((sweepers, population))
    ensures Running(Install(w, next, sweepers, population))
    ensures Renewed(Install(w, next, sweepers, population))
  {
    forall j | 0 <= j < |next.store|
      ensures |next.store[j].weights| == w.ga.chromoLength
    {
      if j < |w.store| {
        assert next.store[j] == next.store[..|w.store|][j];
      }
    }
    forall k | 0 <= k < |w.sweepers|
      ensures population[k] < |next.store|
      ensures NN.Valid(sweepers[k].brain) && sweepers[k].brain.config == w.sweepers[k].brain.config
      ensures sweepers[k].fitness == 0.0
      ensures NN.LayersWeights(sweepers[k].brain.layers) == next.store[population[k]].weights
    {
      RebrainedSweeper(w, resets, next, sweepers, population, k);
    }
    NewBrainsRun(w, next.ga, next.store, sweepers, population);
  }

  /** Slot `k` after `Rebrain`: a fresh sweeper whose network holds all of
      its genome's weights, when every genome is as long as the networks. */
  lemma {:induction false} RebrainedSweeper(w: World, resets: seq<ResetDraws>, next: GA.EpochResult,
                                            sweepers: seq<MS.Sweeper>, population: seq<GA.Ref>, k: nat)
    requires Running(w) && |resets| == |w.sweepers| && k < |w.sweepers|
    requires forall k :: 0 <= k < |next.population| && next.population[k].Some? ==>
      next.population[k].value < |next.store|
    requires forall j :: 0 <= j < |next.store| ==> |next.store[j].weights| == w.ga.chromoLength
    requires |next.population| == |w.sweepers|
    requires Rebrain(w.sweepers, next.population, next.store, w.settings, resets) ==
      Success((sweepers, population))
    ensures k < |population| && population[k] < |next.store| && k < |sweepers|
    ensures NN.Valid(sweepers[k].brain) && sweepers[k].brain.config == w.sweepers[k].brain.config
    ensures sweepers[k].fitness == 0.0
    ensures NN.LayersWeights(sweepers[k].brain.layers) == next.store[population[k]].weights
  {
    RebrainSlot(w.sweepers, next.population, next.store, w.settings, resets, k);
    var ws := next.store[population[k]].weights;
    assert |ws| == NN.GetNumberOfWeights(w.sweepers[k].brain);
    assert ws[..|ws|] == ws;
  }

  /** The sweepers leaving `Rebrain` with the new population make a running
      world again. */
  lemma {:induction false} NewBrainsRun(w: World, ga: GA.GenAlg, store: seq<Genome>,
                     sweepers: seq<MS.Sweeper>, population: seq<GA.Ref>)
    requires Running(w)
    requires ga.popSize == w.ga.popSize && ga.chromoLength == w.ga.chromoLength
    requires |sweepers| == |w.sweepers| && |population| == |w.sweepers|
    requires GA.RefsIn(store, population)
    requires forall j :: 0 <= j < |store| ==> |store[j].weights| == ga.chromoLength
    requires forall k :: 0 <= k < |sweepers| ==>
      NN.Valid(sweepers[k].brain) && sweepers[k].brain.config == w.sweepers[k].brain.config
    ensures Running(w.(ga := ga, store := store, sweepers := sweepers, population := population))
  {
    forall k | 0 <= k < |sweepers|
      ensures NN.GetNumberOfWeights(sweepers[k].brain) == ga.chromoLength
    {
      NN.WeightCountFormula(sweepers[k].brain);
      NN.WeightCountFormula(w.sweepers[k].brain);
    }
  }

  /** `Update()`. The tick counter moves first, so a round that ends
      early still counts; a round returns `false` when a network answers
      with too few outputs, a generation always returns `true`. */
  function Update(w: World, d: UpdateDraws, math: MathFns): (r: Result<(World, bool)>)
    requires Running(w) && DrawsFor(w, d) && PositiveExp(math.exp)
    ensures r.Success? ==> Running(r.value.0)
    ensures r.Success? ==> Count(r.value.0) == Advance(Count(w), w.settings.numTicks)
    ensures w.ticks < w.settings.numTicks && r.Success? ==>
      r.value.0.population == w.population && r.value.0.ga == w.ga &&
      r.value.0.avFitness == w.avFitness && r.value.0.bestFitness == w.bestFitness &&
      |r.value.0.store| == |w.store| && |r.value.0.mines| == |w.mines|
    ensures w.ticks >= w.settings.numTicks && r.Success? ==>
      r.value.1 && Renewed(r.value.0) && r.value.0.mines == w.mines &&
      r.value.0.avFitness == w.avFitness + [GA.AverageFitness(w.ga)] &&
      r.value.0.bestFitness == w.bestFitness + [GA.BestFitness(w.ga)]
  {
    if w.ticks < w.settings.numTicks then
      Round(w.(ticks := w.ticks + 1), 0, d.relocations, math)
    else
      match Generation(w, d)
      case Failure(e) => Failure(e)
      case Success(w') => Success((w', true))
  }

  // ----------------------------------------------------------------------
  // Construction
  // ----------------------------------------------------------------------

  /** The draws of one `new Minesweeper()`. */
  datatype SweeperDraws = SweeperDraws(rotation: real, brain: seq<seq<seq<real>>>, ux: real, uy: real)

  /** `iNumSweepers` new sweepers, all with the configured network. */
  function NewSweepers(p: Settings, draws: seq<SweeperDraws>): (r: seq<MS.Sweeper>)
    requires forall i :: 0 <= i < |draws| ==> NN.DrawsFit(MS.BrainConfig(p), draws[i].brain)
    ensures |r| == |draws|
    ensures forall i :: 0 <= i < |r| ==>
      NN.Valid(r[i].brain) && r[i].brain.config == MS.BrainConfig(p) && r[i].fitness == 0.0
  {
    seq(|draws|, i requires 0 <= i < |draws| =>
      MS.NewSweeper(p, draws[i].rotation, draws[i].brain, draws[i].ux, draws[i].uy))
  }

  /** Mines at `GetRandom(cxClient, cyClient)`. */
  function NewMines(cx: int, cy: int, draws: seq<Relocation>): (r: seq<Vec>)
    ensures |r| == |draws|
    ensures cx > 0 && cy > 0 ==> forall i :: 0 <= i < |r| && RelocationOk(draws[i]) ==>
      0.0 <= r[i].x < cx as real && 0.0 <= r[i].y < cy as real
  {
    PlacedAll(cx, cy, draws);
    seq(|draws|, i requires 0 <= i < |draws| =>
      GetRandom(cx as real, cy as real, draws[i].ux, draws[i].uy))
  }

  lemma {:induction false} PlacedAll(cx: int, cy: int, draws: seq<Relocation>)
    ensures cx > 0 && cy > 0 ==> forall i :: 0 <= i < |draws| && RelocationOk(draws[i]) ==>
      var v := GetRandom(cx as real, cy as real, draws[i].ux, draws[i].uy);
      0.0 <= v.x < cx as real && 0.0 <= v.y < cy as real
  {
    forall i | 0 <= i < |draws| {
      PlacedInWindow(cx, cy, draws[i]);
    }
  }

  lemma {:induction false} PlacedInWindow(cx: int, cy: int, d: Relocation)
    ensures cx > 0 && cy > 0 && RelocationOk(d) ==>
      var v := GetRandom(cx as real, cy as real, d.ux, d.uy);
      0.0 <= v.x < cx as real && 0.0 <= v.y < cy as real
  {
    if cx > 0 && cy > 0 && RelocationOk(d) {
      GetRandomInRange(cx as real, cy as real, d.ux, d.uy);
    }
  }

  /** The constructor's `PutWeights` loop: sweeper `i` takes the weights of
      genome `refs[i]`, which are long enough. */
  function LoadBrains(sweepers: seq<MS.Sweeper>, store: seq<Genome>, refs: seq<GA.Ref>)
    : (r: seq<MS.Sweeper>)
    requires |refs| == |sweepers| && GA.RefsIn(store, refs)
    requires forall i :: 0 <= i < |sweepers| ==>
      NN.Valid(sweepers[i].brain) &&
      |store[refs[i]].weights| >= NN.GetNumberOfWeights(sweepers[i].brain)
    ensures |r| == |sweepers|
    ensures forall i :: 0 <= i < |r| ==>
      r[i] == sweepers[i].(brain := r[i].brain) &&
      NN.Valid(r[i].brain) && r[i].brain.config == sweepers[i].brain.config &&
      NN.LayersWeights(r[i].brain.layers) ==
        store[refs[i]].weights[..NN.GetNumberOfWeights(sweepers[i].brain)]
  {
    seq(|sweepers|, i requires 0 <= i < |sweepers| =>
      MS.PutWeights(sweepers[i], store[refs[i]].weights).value)
  }

  /** `new Controller(frmMain)` with a client area of `cx` by `cy`: the
      sweepers, a genetic algorithm with one genome per sweeper and as many
      weights as a sweeper's network, each sweeper given its genome's
      weights, and the mines. Reading the weight count from sweeper 0 fails
      when there are no sweepers. */
  function NewController(p: Settings, cx: int, cy: int, sweeperDraws: seq<SweeperDraws>,
                         genomeDraws: seq<seq<real>>, mineDraws: seq<Relocation>): (r: Result<World>)
    requires |sweeperDraws| == p.numSweepers && |genomeDraws| == p.numSweepers
    requires |mineDraws| == p.numMines
    requires forall i :: 0 <= i < |sweeperDraws| ==> NN.DrawsFit(MS.BrainConfig(p), sweeperDraws[i].brain)
    requires forall i :: 0 <= i < |genomeDraws| ==>
      |genomeDraws[i]| == NN.ExpectedWeightCount(MS.BrainConfig(p)) &&
      forall j :: 0 <= j < |genomeDraws[i]| ==> IsRandFloat(genomeDraws[i][j])
    ensures p.numSweepers == 0 <==> r == Failure(IndexOutOfRange)
    ensures r.Success? ==>
      var w := r.value;
      |w.sweepers| == p.numSweepers && |w.population| == p.numSweepers &&
      w.ga.popSize == p.numSweepers && |w.mines| == p.numMines &&
      w.ga.chromoLength == NN.GetNumberOfWeights(w.sweepers[0].brain) &&
      w.ga.mutationRate == p.mutationRate && w.ga.crossoverRate == p.crossoverRate &&
      w.settings == p && w.cx == cx && w.cy == cy &&
      w.ticks == 0 && w.generations == 0 && w.avFitness == [] && w.bestFitness == []
    ensures r.Success? ==>
      GA.AverageFitness(r.value.ga) == 0.0 && GA.BestFitness(r.value.ga) == 0.0
    ensures r.Success? ==>
      GA.RefsIn(r.value.store, r.value.population) &&
      forall i, j :: 0 <= i < j < p.numSweepers ==> r.value.population[i] != r.value.population[j]
    ensures r.Success? && cx > 0 && cy > 0 ==> forall i :: 0 <= i < p.numMines && RelocationOk(mineDraws[i]) ==>
      0.0 <= r.value.mines[i].x < cx as real && 0.0 <= r.value.mines[i].y < cy as real
  {
    var sweepers := NewSweepers(p, sweeperDraws);
    if |sweepers| == 0 then Failure(IndexOutOfRange)
    else Success(Assemble(p, cx, cy, sweepers, genomeDraws, mineDraws))
  }

  /** The constructor once the sweepers exist: the genetic algorithm sized
      by sweeper 0's network, the brains loaded, the mines placed. */
  function Assemble(p: Settings, cx: int, cy: int, sweepers: seq<MS.Sweeper>,
                    genomeDraws: seq<seq<real>>, mineDraws: seq<Relocation>): (w: World)
    requires |sweepers| == p.numSweepers > 0 && |genomeDraws| == p.numSweepers
    requires |mineDraws| == p.numMines
    requires forall i :: 0 <= i < |sweepers| ==>
      NN.Valid(sweepers[i].brain) && sweepers[i].brain.config == MS.BrainConfig(p) && sweepers[i].fitness == 0.0
    requires forall i :: 0 <= i < |genomeDraws| ==>
      |genomeDraws[i]| == NN.ExpectedWeightCount(MS.BrainConfig(p)) &&
      forall j :: 0 <= j < |genomeDraws[i]| ==> IsRandFloat(genomeDraws[i][j])
    ensures |w.sweepers| == p.numSweepers && |w.population| == p.numSweepers &&
      w.ga.popSize == p.numSweepers && |w.mines| == p.numMines &&
      w.ga.chromoLength == NN.GetNumberOfWeights(w.sweepers[0].brain) &&
      w.ga.mutationRate == p.mutationRate && w.ga.crossoverRate == p.crossoverRate &&
      w.settings == p && w.cx == cx && w.cy == cy &&
      w.ticks == 0 && w.generations == 0 && w.avFitness == [] && w.bestFitness == []
    ensures GA.AverageFitness(w.ga) == 0.0 && GA.BestFitness(w.ga) == 0.0
    ensures GA.RefsIn(w.store, w.population) &&
      forall i, j :: 0 <= i < j < p.numSweepers ==> w.population[i] != w.population[j]
    ensures cx > 0 && cy > 0 ==> forall i :: 0 <= i < p.numMines && RelocationOk(mineDraws[i]) ==>
      0.0 <= w.mines[i].x < cx as real && 0.0 <= w.mines[i].y < cy as real
  {
    var numWeights := NN.GetNumberOfWeights(sweepers[0].brain);
    NN.WeightCountFormula(sweepers[0].brain);
    var (ga, store, refs) := GA.NewGenAlg(p.numSweepers, p.mutationRate, p.crossoverRate, numWeights,
                                          p.numElite, p.numCopiesElite, p.maxPerturbation,
                                          [], genomeDraws);
    SameCount(sweepers, numWeights);
    var w := World(p, store, refs, LoadBrains(sweepers, store, refs), NewMines(cx, cy, mineDraws),
                   ga, 0, 0, [], [], cx, cy);
    NoFitnessYet(ga);
    w
  }

  /** The world `Assemble` builds has every sweeper holding its genome's
      weights, and runs once the activation response is usable. */
  lemma {:induction false} AssembleReady(p: Settings, cx: int, cy: int, sweepers: seq<MS.Sweeper>,
                                         genomeDraws: seq<seq<real>>, mineDraws: seq<Relocation>)
    requires |sweepers| == p.numSweepers > 0 && |genomeDraws| == p.numSweepers
    requires |mineDraws| == p.numMines
    requires forall i :: 0 <= i < |sweepers| ==>
      NN.Valid(sweepers[i].brain) && sweepers[i].brain.config == MS.BrainConfig(p) && sweepers[i].fitness == 0.0
    requires forall i :: 0 <= i < |genomeDraws| ==>
      |genomeDraws[i]| == NN.ExpectedWeightCount(MS.BrainConfig(p)) &&
      forall j :: 0 <= j < |genomeDraws[i]| ==> IsRandFloat(genomeDraws[i][j])
    ensures var w := Assemble(p, cx, cy, sweepers, genomeDraws, mineDraws);
      Renewed(w) && (p.activationResponse != 0.0 ==> Running(w))
  {
    var numWeights := NN.GetNumberOfWeights(sweepers[0].brain);
    NN.WeightCountFormula(sweepers[0].brain);
    var (ga, store, refs) := GA.NewGenAlg(p.numSweepers, p.mutationRate, p.crossoverRate, numWeights,
                                          p.numElite, p.numCopiesElite, p.maxPerturbation,
                                          [], genomeDraws);
    SameCount(sweepers, numWeights);
    var w := World(p, store, refs, LoadBrains(sweepers, store, refs), NewMines(cx, cy, mineDraws),
                   ga, 0, 0, [], [], cx, cy);
    assert Assemble(p, cx, cy, sweepers, genomeDraws, mineDraws) == w;
    FreshWorld(w, sweepers);
  }

  /** Every sweeper of a new controller holds its genome's weights, and the
      controller runs once the activation response is usable. */
  lemma {:induction false} NewControllerReady(p: Settings, cx: int, cy: int, sweeperDraws: seq<SweeperDraws>,
                                              genomeDraws: seq<seq<real>>, mineDraws: seq<Relocation>)
    requires |sweeperDraws| == p.numSweepers && |genomeDraws| == p.numSweepers
    requires |mineDraws| == p.numMines
    requires forall i :: 0 <= i < |sweeperDraws| ==> NN.DrawsFit(MS.BrainConfig(p), sweeperDraws[i].brain)
    requires forall i :: 0 <= i < |genomeDraws| ==>
      |genomeDraws[i]| == NN.ExpectedWeightCount(MS.BrainConfig(p)) &&
      forall j :: 0 <= j < |genomeDraws[i]| ==> IsRandFloat(genomeDraws[i][j])
    requires NewController(p, cx, cy, sweeperDraws, genomeDraws, mineDraws).Success?
    ensures var w := NewController(p, cx, cy, sweeperDraws, genomeDraws, mineDraws).value;
      Renewed(w) && (p.activationResponse != 0.0 ==> Running(w))
  {
    var sweepers := NewSweepers(p, sweeperDraws);
    assert NewController(p, cx, cy, sweeperDraws, genomeDraws, mineDraws) ==
      Success(Assemble(p, cx, cy, sweepers, genomeDraws, mineDraws));
    AssembleReady(p, cx, cy, sweepers, genomeDraws, mineDraws);
  }

  /** Before the first epoch the statistics are zero. */
  lemma {:induction false} NoFitnessYet(ga: GA.GenAlg)
    requires ga.popSize > 0 && ga.totalFitness == 0.0 && ga.bestFitness == 0.0
    ensures GA.AverageFitness(ga) == 0.0 && GA.BestFitness(ga) == 0.0
  {
  }

  /** Sweepers built with one configuration have networks of one size. */
  lemma {:induction false} SameCount(sweepers: seq<MS.Sweeper>, n: nat)
    requires |sweepers| > 0 && n == NN.GetNumberOfWeights(sweepers[0].brain)
    requires forall i :: 0 <= i < |sweepers| ==>
      NN.Valid(sweepers[i].brain) && sweepers[i].brain.config == sweepers[0].brain.config
    ensures forall i :: 0 <= i < |sweepers| ==> NN.GetNumberOfWeights(sweepers[i].brain) == n
  {
    forall i | 0 <= i < |sweepers|
      ensures NN.GetNumberOfWeights(sweepers[i].brain) == n
    {
      NN.WeightCountFormula(sweepers[i].brain);
      NN.WeightCountFormula(sweepers[0].brain);
    }
  }

  /** The world the constructor builds has every sweeper holding its
      genome's weights, and runs once the activation response is usable. */
  lemma {:induction false} FreshWorld(w: World, sweepers: seq<MS.Sweeper>)
    requires |w.sweepers| == |sweepers| > 0 && |w.population| == |sweepers|
    requires w.ga.popSize == |sweepers| && GA.RefsIn(w.store, w.population)
    requires forall j :: 0 <= j < |w.store| ==> |w.store[j].weights| == w.ga.chromoLength
    requires forall i :: 0 <= i < |sweepers| ==>
      sweepers[i].fitness == 0.0 && NN.Valid(sweepers[i].brain) &&
      sweepers[i].brain.config == MS.BrainConfig(w.settings) &&
      NN.GetNumberOfWeights(sweepers[i].brain) == w.ga.chromoLength
    requires forall i :: 0 <= i < |sweepers| ==>
      w.sweepers[i] == sweepers[i].(brain := w.sweepers[i].brain) &&
      NN.Valid(w.sweepers[i].brain) && w.sweepers[i].brain.config == sweepers[i].brain.config &&
      NN.LayersWeights(w.sweepers[i].brain.layers) ==
        w.store[w.population[i]].weights[..NN.GetNumberOfWeights(sweepers[i].brain)]
    ensures Renewed(w)
    ensures w.settings.activationResponse != 0.0 ==> Running(w)
  {
    forall i | 0 <= i < |sweepers|
      ensures NN.GetNumberOfWeights(w.sweepers[i].brain) == w.ga.chromoLength
      ensures NN.LayersWeights(w.sweepers[i].brain.layers) == w.store[w.population[i]].weights
    {
      NN.WeightCountFormula(w.sweepers[i].brain);
      NN.WeightCountFormula(sweepers[i].brain);
      var ws := w.store[w.population[i]].weights;
      assert ws[..|ws|] == ws;
    }
  }

  // ----------------------------------------------------------------------
  // Resizing the window
  // ----------------------------------------------------------------------

  /** Where `while (x >= c) x -= c;` leaves `x`: unchanged below `c`,
      otherwise reduced again after one subtraction of `c`. */
  function Reduce(x: real, c: int): (r: real)
    requires c > 0
    decreases x.Floor
  {
    if x < c as real then x else Reduce(x - c as real, c)
  }

  /** The reduced value is below `c` and reducing it again changes nothing;
      a non-negative value stays non-negative, so a mine inside the old
      window lands inside the new one; adding a whole `c` to a non-negative
      value does not change where it lands. */
  lemma {:induction false} ReduceRange(x: real, c: int)
    requires c > 0
    ensures Reduce(x, c) < c as real
    ensures Reduce(Reduce(x, c), c) == Reduce(x, c)
    ensures x >= 0.0 ==> 0.0 <= Reduce(x, c)
    ensures x < c as real ==> Reduce(x, c) == x
    ensures x >= 0.0 ==> Reduce(x + c as real, c) == Reduce(x, c)
    decreases x.Floor
  {
    if x >= c as real {
      ReduceRange(x - c as real, c);
    }
  }

  /** `while (x >= c) x -= c;` */
  method WrapBelow(x: real, c: int) returns (r: real)
    requires c > 0
    ensures r == Reduce(x, c)
  {
    r := x;
    while r >= c as real
      invariant Reduce(r, c) == Reduce(x, c)
      decreases r.Floor
    {
      r := r - c as real;
    }
  }

  /** `Array.Resize(ref m_Mines, newCount)` followed by a random position
      for every slot the array gained. */
  function Resize(mines: seq<Vec>, n: nat, cx: int, cy: int, draws: seq<Relocation>): (r: seq<Vec>)
    requires |draws| == (if n > |mines| then n - |mines| else 0)
    ensures |r| == n
    ensures forall i :: 0 <= i < n && i < |mines| ==> r[i] == mines[i]
    ensures forall i :: |mines| <= i < n ==>
      r[i] == GetRandom(cx as real, cy as real, draws[i - |mines|].ux, draws[i - |mines|].uy)
  {
    if n <= |mines| then
      mines[..n]
    else
      var added := seq(n - |mines|, j requires 0 <= j < n - |mines| =>
        GetRandom(cx as real, cy as real, draws[j].ux, draws[j].uy));
      mines + added
  }

  /** `ControlChangedSize(frmMain)` for a client area of `cx` by `cy`; the
      form's resize handler calls it only for a non-empty area. The mines
      are pulled back into the new area, then the mine array takes
      `newCount` slots, the count the program derives from the area. */
  method ControlChangedSize(w: World, cx: int, cy: int, newCount: nat, draws: seq<Relocation>)
    returns (w': World)
    requires cx > 0 && cy > 0
    requires |draws| == (if newCount > |w.mines| then newCount - |w.mines| else 0)
    ensures w' == w.(settings := w.settings.(windowWidth := cx, windowHeight := cy),
                     cx := cx, cy := cy, mines := w'.mines)
    ensures Running(w) ==> Running(w')
    ensures |w'.mines| == newCount
    ensures forall i :: 0 <= i < newCount && i < |w.mines| ==>
      w'.mines[i] == Vec(Reduce(w.mines[i].x, cx), Reduce(w.mines[i].y, cy))
    ensures forall i :: |w.mines| <= i < newCount ==>
      w'.mines[i] == GetRandom(cx as real, cy as real, draws[i - |w.mines|].ux, draws[i - |w.mines|].uy)
  {
    var mines := w.mines;
    var i := 0;
    while i < |mines|
      invariant 0 <= i <= |mines| == |w.mines|
      invariant forall k :: 0 <= k < i ==>
        mines[k] == Vec(Reduce(w.mines[k].x, cx), Reduce(w.mines[k].y, cy))
      invariant forall k :: i <= k < |mines| ==> mines[k] == w.mines[k]
    {
      var x := WrapBelow(mines[i].x, cx);
      var y := WrapBelow(mines[i].y, cy);
      mines := mines[i := Vec(x, y)];
      i := i + 1;
    }
    w' := w.(settings := w.settings.(windowWidth := cx, windowHeight := cy),
             cx := cx, cy := cy, mines := Resize(mines, newCount, cx, cy, draws));
  }

  /** After a resize every mine that was in the old area, and every new
      mine with its draws in [0, 1), lies inside the new area. */
  lemma {:induction false} ResizeKeepsMinesInside(w: World, cx: int, cy: int, newCount: nat, draws: seq<Relocation>,
                               w': World)
    requires cx > 0 && cy > 0
    requires |draws| == (if newCount > |w.mines| then newCount - |w.mines| else 0)
    requires |w'.mines| == newCount
    requires forall i :: 0 <= i < newCount && i < |w.mines| ==>
      w'.mines[i] == Vec(Reduce(w.mines[i].x, cx), Reduce(w.mines[i].y, cy))
    requires forall i :: |w.mines| <= i < newCount ==>
      w'.mines[i] == GetRandom(cx as real, cy as real, draws[i - |w.mines|].ux, draws[i - |w.mines|].uy)
    requires forall i :: 0 <= i < |w.mines| ==> 0.0 <= w.mines[i].x && 0.0 <= w.mines[i].y
    requires forall j :: 0 <= j < |draws| ==> RelocationOk(draws[j])
    ensures forall i :: 0 <= i < newCount ==>
      0.0 <= w'.mines[i].x < cx as real && 0.0 <= w'.mines[i].y < cy as real
  {
    forall i | 0 <= i < newCount
      ensures 0.0 <= w'.mines[i].x < cx as real && 0.0 <= w'.mines[i].y < cy as real
    {
      if i < |w.mines| {
        ReduceRange(w.mines[i].x, cx);
        ReduceRange(w.mines[i].y, cy);
      } else {
        PlacedInWindow(cx, cy, draws[i - |w.mines|]);
      }
    }
  }
}
