/** A genome: one chromosome of network weights and the fitness it earned.

    In the program a genome is a class instance, so several population slots
    can hold the same genome; that sharing is modelled in `GeneticAlgorithm`
    by keeping genomes in a store and handing out indices into it. */
module Genomes {
  import opened Utils

  datatype Genome = Genome(weights: seq<real>, fitness: real)

  /** `new Genome(chromoLength)`: one `RandomClamped()` weight per draw and
      a fitness of zero. */
  function NewRandom(chromoLength: nat, draws: seq<real>): (g: Genome)
    requires |draws| == chromoLength
    requires forall j :: 0 <= j < |draws| ==> IsRandFloat(draws[j])
    ensures |g.weights| == chromoLength && g.fitness == 0.0
    ensures forall j :: 0 <= j < chromoLength ==> -0.5 <= g.weights[j] < 0.5
    ensures forall j :: 0 <= j < chromoLength ==> g.weights[j] + 0.5 == draws[j]
  {
    Genome(seq(chromoLength, j requires 0 <= j < chromoLength => RandomClamped(draws[j])), 0.0)
  }

  /** `new Genome(w)`: a copy of the weights and a fitness of zero. */
  function FromWeights(w: seq<real>): (g: Genome)
    ensures |g.weights| == |w|
    ensures forall j :: 0 <= j < |w| ==> g.weights[j] == w[j]
    ensures g.fitness == 0.0
  {
    Genome(w, 0.0)
  }

  /** `IComparable.CompareTo`: a fitter genome compares as smaller, so an
      ascending `Array.Sort` puts the fittest genome first. */
  function CompareTo(self: Genome, other: Genome): (r: int)
    ensures r == -1 <==> other.fitness < self.fitness
    ensures r == 1 <==> self.fitness < other.fitness
    ensures r == 0 <==> self.fitness == other.fitness
  {
    if other.fitness < self.fitness then -1
    else if other.fitness > self.fitness then 1
    else 0
  }

  /** `a` may come before `b` in a sequence sorted with `CompareTo`. */
  predicate NotAfter(a: Genome, b: Genome) {
    CompareTo(a, b) <= 0
  }

  /** A sequence in the order `Array.Sort` leaves it with `CompareTo`. */
  predicate SortedByCompare(s: seq<Genome>) {
    forall i, j :: 0 <= i < j < |s| ==> NotAfter(s[i], s[j])
  }

  /** Fitness never increases along the sequence. */
  predicate FitnessNonIncreasing(s: seq<Genome>) {
    forall i, j :: 0 <= i < j < |s| ==> s[i].fitness >= s[j].fitness
  }

  // ----------------------------------------------------------------------
  // Properties
  // ----------------------------------------------------------------------

  /** `CompareTo` is antisymmetric, and a genome compares equal to itself
      and to any genome of the same fitness. */
  lemma CompareAntisymmetric(a: Genome, b: Genome)
    ensures CompareTo(a, b) == -CompareTo(b, a)
    ensures CompareTo(a, a) == 0
    ensures a.fitness == b.fitness ==> CompareTo(a, b) == 0
  {
  }

  /** `NotAfter` is a total preorder, which is what `Array.Sort` needs from
      an `IComparable`. */
  lemma NotAfterTotalPreorder(a: Genome, b: Genome, c: Genome)
    ensures NotAfter(a, a)
    ensures NotAfter(a, b) || NotAfter(b, a)
    ensures NotAfter(a, b) && NotAfter(b, c) ==> NotAfter(a, c)
    ensures NotAfter(a, b) <==> a.fitness >= b.fitness
  {
  }

  /** Sorting with `CompareTo` orders genomes by non-increasing fitness,
      and conversely. */
  lemma SortedIffNonIncreasing(s: seq<Genome>)
    ensures SortedByCompare(s) <==> FitnessNonIncreasing(s)
  {
    if SortedByCompare(s) {
      forall i, j | 0 <= i < j < |s| ensures s[i].fitness >= s[j].fitness {
        NotAfterTotalPreorder(s[i], s[j], s[j]);
      }
    }
    if FitnessNonIncreasing(s) {
      forall i, j | 0 <= i < j < |s| ensures NotAfter(s[i], s[j]) {
        NotAfterTotalPreorder(s[i], s[j], s[j]);
      }
    }
  }

  /** The first genome of a sorted sequence is at least as fit as all. */
  lemma SortedHeadIsFittest(s: seq<Genome>)
    requires SortedByCompare(s) && |s| > 0
    ensures forall i :: 0 <= i < |s| ==> s[0].fitness >= s[i].fitness
  {
    SortedIffNonIncreasing(s);
  }
}
