/**
 * The tour blueprint of the salesman problem: integer genes, the sample
 * chromosome every individual is built from, and the work-list of cities
 * the initialisation draws from.
 */
module Genes {

  /** A JGAP integer gene: an allele (a city index) with the bounds it was created with. */
  datatype Gene = IntegerGene(lowerBound: int, upperBound: int, allele: int)

  /** The city indices carried by a sequence of genes. */
  function Alleles(genes: seq<Gene>): (s: seq<int>)
    ensures |s| == |genes|
    ensures forall i :: 0 <= i < |genes| ==> s[i] == genes[i].allele
  {
    seq(|genes|, i requires 0 <= i < |genes| => genes[i].allele)
  }

  /** `s` visits every city of `0..n-1` exactly once. */
  predicate IsPermutation(s: seq<int>, n: nat)
  {
    && |s| == n
    && (forall i :: 0 <= i < |s| ==> 0 <= s[i] < n)
    && (forall i, j :: 0 <= i < j < |s| ==> s[i] != s[j])
    && (forall v :: 0 <= v < n ==> v in s)
  }

  predicate StrictlyIncreasing(s: seq<int>)
  {
    forall i, j :: 0 <= i < j < |s| ==> s[i] < s[j]
  }

  /** In a strictly increasing sequence every element occurs exactly once. */
  lemma {:induction false} StrictlyIncreasingOccursOnce(s: seq<int>, c: int)
    requires StrictlyIncreasing(s)
    requires c in s
    ensures multiset(s)[c] == 1
  {
    assert s == [s[0]] + s[1..];
    var rest := s[1..];
    assert StrictlyIncreasing(rest) by {
      forall i, j | 0 <= i < j < |rest| ensures rest[i] < rest[j] {
        assert rest[i] == s[i + 1] && rest[j] == s[j + 1];
      }
    }
    if c == s[0] {
      assert c !in rest by {
        forall k | 0 <= k < |rest| ensures rest[k] != c {
          assert rest[k] == s[k + 1];
        }
      }
      assert multiset(rest)[c] == 0;
    } else {
      assert c in rest;
      StrictlyIncreasingOccursOnce(rest, c);
    }
  }

  /**
   * The sample chromosome: gene `i` carries city `i`, with bounds
   * `0..cities-1`. Its alleles are the identity permutation.
   */
  method CreateSampleChromosome(cities: nat) returns (genes: array<Gene>)
    ensures fresh(genes) && genes.Length == cities
    ensures forall i :: 0 <= i < cities ==> genes[i] == IntegerGene(0, cities - 1, i)
    ensures IsPermutation(Alleles(genes[..]), cities)
  {
    genes := new Gene[cities](_ => IntegerGene(0, cities - 1, 0));
    for i := 0 to genes.Length
      invariant forall k :: 0 <= k < i ==> genes[k] == IntegerGene(0, cities - 1, k)
    {
      genes[i] := IntegerGene(0, cities - 1, i);
    }
    ghost var s := Alleles(genes[..]);
    assert forall k :: 0 <= k < cities ==> s[k] == k;
    assert forall v :: 0 <= v < cities ==> v in s by {
      forall v | 0 <= v < cities ensures v in s {
        assert s[v] == v;
      }
    }
  }

  /**
   * The initial work-list of cities for the stochastic initialisation:
   * cities `1..geneCount-1` appended in increasing order, each once; the
   * start city 0 is not in it.
   */
  method InitialCityList(geneCount: nat) returns (cityList: seq<int>)
    ensures |cityList| == if geneCount == 0 then 0 else geneCount - 1
    ensures forall k :: 0 <= k < |cityList| ==> cityList[k] == k + 1
    ensures StrictlyIncreasing(cityList)
    ensures forall c :: c in cityList <==> 1 <= c < geneCount
    ensures forall c :: 1 <= c < geneCount ==> multiset(cityList)[c] == 1
  {
    cityList := [];
    var j := 1;
    while j < geneCount
      invariant 1 <= j <= if geneCount == 0 then 1 else geneCount
      invariant |cityList| == j - 1
      invariant forall k :: 0 <= k < |cityList| ==> cityList[k] == k + 1
    {
      cityList := cityList + [j];
      j := j + 1;
    }
    forall c | 1 <= c < geneCount ensures c in cityList && multiset(cityList)[c] == 1 {
      assert cityList[c - 1] == c;
      StrictlyIncreasingOccursOnce(cityList, c);
    }
  }
}
