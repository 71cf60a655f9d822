/** `_generate_random_relevance_list` of recommendation/task/ifood.py: shuffle the candidate list
    in place, then label it. The shuffle is numpy's Fisher-Yates pass; its random draws are a
    parameter, so the random source is seedable and every permutation stays reachable. */
module RandomRelevance {
  import opened Ranking

  /** Draws of one Fisher-Yates pass over n elements: step i swaps position i with draws[i] <= i. */
  predicate ValidDraws(draws: seq<nat>, n: nat)
  {
    |draws| == n && forall i :: 0 <= i < n ==> draws[i] <= i
  }

  function Swap(s: seq<int>, i: nat, j: nat): (r: seq<int>)
    requires i < |s| && j < |s|
    ensures |r| == |s| && multiset(r) == multiset(s)
    ensures r[i] == s[j] && r[j] == s[i]
    ensures forall k :: 0 <= k < |s| && k != i && k != j ==> r[k] == s[k]
  {
    s[i := s[j]][j := s[i]]
  }

  /** The swaps for steps hi - 1 down to 1, applied in that order. */
  function Shuffled(s: seq<int>, draws: seq<nat>, hi: nat): (r: seq<int>)
    requires hi <= |s| && ValidDraws(draws, |s|)
    ensures |r| == |s|
    ensures multiset(r) == multiset(s)
    decreases hi
  {
    if hi <= 1 then s
    else Shuffled(Swap(s, hi - 1, draws[hi - 1]), draws, hi - 1)
  }

  /** The shuffle's output is a permutation, so the random list has the deterministic lists'
      length and number of 1s. */
  lemma RandomRelevanceCount(merchants: seq<int>, draws: seq<nat>, ordered: int)
    requires ValidDraws(draws, |merchants|)
    ensures |Labels(Shuffled(merchants, draws, |merchants|), ordered)| == |merchants|
    ensures multiset(Labels(Shuffled(merchants, draws, |merchants|), ordered))[1] == multiset(merchants)[ordered]
  {
    LabelsCount(Shuffled(merchants, draws, |merchants|), ordered);
  }

  /** `np.random.shuffle(merchant_idx_list)` followed by the labelling comprehension. */
  method GenerateRandomRelevanceList(ordered: int, merchants: array<int>, draws: seq<nat>) returns (r: seq<int>)
    requires ValidDraws(draws, merchants.Length)
    modifies merchants
    ensures merchants[..] == Shuffled(old(merchants[..]), draws, merchants.Length)
    ensures multiset(merchants[..]) == old(multiset(merchants[..]))
    ensures r == Labels(merchants[..], ordered)
    ensures |r| == merchants.Length && multiset(r)[1] == old(multiset(merchants[..]))[ordered]
  {
    var i := merchants.Length;
    while i > 1
      invariant 0 <= i <= merchants.Length
      invariant Shuffled(merchants[..], draws, i) == Shuffled(old(merchants[..]), draws, merchants.Length)
    {
      var j := draws[i - 1];
      ghost var before := merchants[..];
      merchants[i - 1], merchants[j] := merchants[j], merchants[i - 1];
      assert merchants[..] == Swap(before, i - 1, j);
      i := i - 1;
    }
    r := Labels(merchants[..], ordered);
    LabelsCount(merchants[..], ordered);
  }
}
