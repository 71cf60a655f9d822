/** Relevance-list construction of recommendation/task/ifood.py: score every candidate merchant,
    rank the candidates by descending (score, merchant index), and mark with 1 every ranked
    position that holds the merchant the customer actually ordered from. */
module Ranking {
  import opened Wrappers
  import opened Seqs

  /** An (account, merchant) key of the per-tuple score dictionary. */
  type AccountMerchant = (int, int)

  /** One entry of `zip(scores, merchant_idx_list)`. */
  datatype Candidate = Candidate(score: int, merchant: int)

  /** The `KeyError` raised when a score lookup misses. */
  datatype LookupError =
    | MissingTuple(account: int, merchant: int)
    | MissingMerchant(merchant: int)

  /** Python's tuple comparison `a > b` on (score, merchant). */
  predicate Above(a: Candidate, b: Candidate)
  {
    a.score > b.score || (a.score == b.score && a.merchant > b.merchant)
  }

  /** Python's tuple comparison `a >= b` on (score, merchant). */
  predicate AtLeast(a: Candidate, b: Candidate)
  {
    Above(a, b) || a == b
  }

  /** `AtLeast` is a total order, so the descending sort has exactly one possible output. */
  lemma AtLeastIsTotalOrder()
    ensures forall a :: AtLeast(a, a)
    ensures Antisymmetric(AtLeast)
    ensures forall a, b, c :: AtLeast(a, b) && AtLeast(b, c) ==> AtLeast(a, c)
    ensures forall a, b :: AtLeast(a, b) || AtLeast(b, a)
    ensures forall a, b :: Above(a, b) <==> AtLeast(a, b) && a != b
  {
  }

  /** Every candidate ranks at least as high as every later one. */
  ghost predicate Descending(s: seq<Candidate>)
  {
    forall i, j :: 0 <= i < j < |s| ==> AtLeast(s[i], s[j])
  }

  lemma DescendingIsSorted(s: seq<Candidate>)
    requires Descending(s)
    ensures SortedBy(AtLeast, s)
  {
  }

  /** A candidate ranking at least as high as every element of a descending list can head it. */
  lemma DescendingCons(x: Candidate, s: seq<Candidate>)
    requires Descending(s)
    requires forall j :: 0 <= j < |s| ==> AtLeast(x, s[j])
    ensures Descending([x] + s)
  {
    var r := [x] + s;
    forall i, j | 0 <= i < j < |r| ensures AtLeast(r[i], r[j]) {
      if i == 0 {
        assert r[j] == s[j - 1];
      } else {
        assert r[i] == s[i - 1] && r[j] == s[j - 1];
      }
    }
  }

  /** Inserting a candidate that does not reach the head of a descending list into its tail leaves
      every element ranked at most as high as the head. */
  lemma HeadBoundsInsert(c: Candidate, s: seq<Candidate>, rest: seq<Candidate>)
    requires s != [] && Descending(s) && !AtLeast(c, s[0])
    requires multiset(rest) == multiset(s[1..]) + multiset{c}
    ensures forall j :: 0 <= j < |rest| ==> AtLeast(s[0], rest[j])
  {
    forall j | 0 <= j < |rest| ensures AtLeast(s[0], rest[j]) {
      assert rest[j] in multiset(rest);
      if rest[j] != c {
        assert rest[j] in multiset(s[1..]);
        var h :| 0 <= h < |s[1..]| && s[1..][h] == rest[j];
        assert s[h + 1] == rest[j];
      }
    }
  }

  function Insert(c: Candidate, s: seq<Candidate>): (r: seq<Candidate>)
    requires Descending(s)
    ensures |r| == |s| + 1
    ensures Descending(r)
    ensures multiset(r) == multiset(s) + multiset{c}
  {
    if s == [] || AtLeast(c, s[0]) then
      assert forall j :: 0 <= j < |s| ==> AtLeast(c, s[j]) by {
        AtLeastIsTotalOrder();
      }
      DescendingCons(c, s);
      [c] + s
    else
      assert multiset(s) == multiset{s[0]} + multiset(s[1..]) by { assert s == [s[0]] + s[1..]; }
      var rest := Insert(c, s[1..]);
      HeadBoundsInsert(c, s, rest);
      assert Descending(s[1..]);
      DescendingCons(s[0], rest);
      [s[0]] + rest
  }

  /** `sorted(candidates, reverse=True)`: the candidates in descending (score, merchant) order. */
  function SortDescending(s: seq<Candidate>): (r: seq<Candidate>)
    ensures |r| == |s|
    ensures Descending(r)
    ensures multiset(r) == multiset(s)
  {
    if s == [] then []
    else
      assert multiset(s) == multiset{s[0]} + multiset(s[1..]) by { assert s == [s[0]] + s[1..]; }
      Insert(s[0], SortDescending(s[1..]))
  }

  /** `zip(scores, merchant_idx_list)`. */
  function Zip(scores: seq<int>, merchants: seq<int>): (r: seq<Candidate>)
    requires |scores| == |merchants|
    ensures |r| == |merchants|
    ensures forall i :: 0 <= i < |r| ==> r[i] == Candidate(scores[i], merchants[i])
  {
    seq(|merchants|, i requires 0 <= i < |merchants| => Candidate(scores[i], merchants[i]))
  }

  function MerchantOf(c: Candidate): int { c.merchant }

  /** The 0/1 image of a merchant list: 1 exactly where the ordered merchant stands. */
  function Labels(merchants: seq<int>, ordered: int): (r: seq<int>)
    ensures |r| == |merchants|
    ensures forall i :: 0 <= i < |r| ==> r[i] == (if merchants[i] == ordered then 1 else 0)
  {
    if merchants == [] then []
    else [if merchants[0] == ordered then 1 else 0] + Labels(merchants[1..], ordered)
  }

  /** A list of 0s and 1s holds as many of them together as it has elements. */
  lemma {:induction false} ZeroOneCount(labels: seq<int>)
    requires forall i :: 0 <= i < |labels| ==> labels[i] == 0 || labels[i] == 1
    ensures multiset(labels)[0] + multiset(labels)[1] == |labels|
  {
    if labels != [] {
      var tail := labels[1..];
      ZeroOneCount(tail);
      assert labels == [labels[0]] + tail;
      assert multiset(labels) == multiset{labels[0]} + multiset(tail);
    }
  }

  /** The number of 1s in a label list is the number of occurrences of the ordered merchant, and
      every other label is a 0. */
  lemma LabelsCount(merchants: seq<int>, ordered: int)
    ensures multiset(Labels(merchants, ordered))[1] == multiset(merchants)[ordered]
    ensures multiset(Labels(merchants, ordered))[0] + multiset(Labels(merchants, ordered))[1] == |merchants|
  {
    IndicatorOnes(merchants, ordered, Labels(merchants, ordered));
    ZeroOneCount(Labels(merchants, ordered));
  }

  /** The candidates in ranked order. */
  function Ranked(merchants: seq<int>, scores: seq<int>): (r: seq<Candidate>)
    requires |scores| == |merchants|
    ensures |r| == |merchants|
    ensures Descending(r)
    ensures multiset(r) == multiset(Zip(scores, merchants))
  {
    SortDescending(Zip(scores, merchants))
  }

  /** Lines 30-32 (and 43-45) once the scores are known: rank, then label. */
  function RelevanceFromScores(ordered: int, merchants: seq<int>, scores: seq<int>): (r: seq<int>)
    requires |scores| == |merchants|
    ensures |r| == |merchants|
    ensures forall i :: 0 <= i < |r| ==> (r[i] == 1 <==> Ranked(merchants, scores)[i].merchant == ordered)
    ensures forall i :: 0 <= i < |r| ==> r[i] == 0 || r[i] == 1
    ensures multiset(r)[1] == multiset(merchants)[ordered]
  {
    var ranked := Ranked(merchants, scores);
    var rankedMerchants := MapSeq(MerchantOf, ranked);
    assert MapSeq(MerchantOf, Zip(scores, merchants)) == merchants;
    MapMultiset(MerchantOf, ranked, Zip(scores, merchants));
    LabelsCount(rankedMerchants, ordered);
    Labels(rankedMerchants, ordered)
  }

  /** The ranked list depends only on the multiset of (score, merchant) pairs, not on the order of
      the candidate list. */
  lemma RelevanceOrderInvariant(ordered: int, m1: seq<int>, s1: seq<int>, m2: seq<int>, s2: seq<int>)
    requires |s1| == |m1| && |s2| == |m2|
    requires multiset(Zip(s1, m1)) == multiset(Zip(s2, m2))
    ensures RelevanceFromScores(ordered, m1, s1) == RelevanceFromScores(ordered, m2, s2)
  {
    AtLeastIsTotalOrder();
    DescendingIsSorted(Ranked(m1, s1));
    DescendingIsSorted(Ranked(m2, s2));
    SortedUnique(AtLeast, Ranked(m1, s1), Ranked(m2, s2));
  }

  /** In a descending ranking where `target` stands only at q, exactly q entries are above it. */
  lemma CountAboveRanked(ranked: seq<Candidate>, target: Candidate, q: int)
    requires Descending(ranked)
    requires 0 <= q < |ranked| && ranked[q] == target
    requires forall i :: 0 <= i < |ranked| && i != q ==> ranked[i] != target
    ensures Count(c => Above(c, target), ranked) == q
  {
    var above := c => Above(c, target);
    var before, after := ranked[..q], ranked[q..];
    assert ranked == before + after;
    forall i | 0 <= i < |before| ensures above(before[i]) {
      assert AtLeast(ranked[i], ranked[q]) && ranked[i] != target;
    }
    forall i | 0 <= i < |after| ensures !above(after[i]) {
      if i > 0 {
        assert AtLeast(ranked[q], ranked[q + i]) && ranked[q + i] != target;
      }
    }
    CountConcat(above, before, after);
    CountAll(above, before);
    CountNone(above, after);
  }

  /** The ordered merchant, listed once among the candidates, is ranked at exactly one position. */
  lemma UniqueInRanking(ordered: int, merchants: seq<int>, scores: seq<int>, q: int)
    requires |scores| == |merchants|
    requires multiset(merchants)[ordered] == 1
    requires 0 <= q < |merchants| && Ranked(merchants, scores)[q].merchant == ordered
    ensures forall i :: 0 <= i < |merchants| && i != q ==> Ranked(merchants, scores)[i].merchant != ordered
  {
    var ranked := Ranked(merchants, scores);
    assert MapSeq(MerchantOf, Zip(scores, merchants)) == merchants;
    MapMultiset(MerchantOf, ranked, Zip(scores, merchants));
    var rm := MapSeq(MerchantOf, ranked);
    forall i | 0 <= i < |ranked| && i != q
      ensures ranked[i].merchant != ordered
    {
      if ranked[i].merchant == ordered {
        if i < q { TwoPositions(rm, i, q); } else { TwoPositions(rm, q, i); }
      }
    }
  }

  /** When the ordered merchant occurs once, its single 1 sits at the number of candidates whose
      (score, merchant) is greater than its own. */
  lemma RelevancePosition(ordered: int, merchants: seq<int>, scores: seq<int>, k: int)
    requires |scores| == |merchants|
    requires 0 <= k < |merchants| && merchants[k] == ordered
    requires multiset(merchants)[ordered] == 1
    ensures
      var r := RelevanceFromScores(ordered, merchants, scores);
      var p := Count(c => Above(c, Candidate(scores[k], ordered)), Zip(scores, merchants));
      p < |r| && r[p] == 1 && forall i :: 0 <= i < |r| && i != p ==> r[i] == 0
  {
    var target := Candidate(scores[k], ordered);
    var ranked := Ranked(merchants, scores);
    assert Zip(scores, merchants)[k] == target;
    assert target in multiset(ranked);
    var q :| 0 <= q < |ranked| && ranked[q] == target;
    UniqueInRanking(ordered, merchants, scores, q);
    CountAboveRanked(ranked, target, q);
    CountMultiset(c => Above(c, target), ranked, Zip(scores, merchants));
  }

  /** `list(map(lambda m: scores_per_tuple[(account_idx, m)], merchant_idx_list))`: fails with the
      first missing key in list order. */
  function TupleScores(account: int, merchants: seq<int>, scoresPerTuple: map<AccountMerchant, int>)
    : (r: Result<seq<int>, LookupError>)
    ensures r.Success? <==> forall m :: m in merchants ==> (account, m) in scoresPerTuple
    ensures r.Success? ==> (
      && |r.value| == |merchants|
      && forall i :: 0 <= i < |merchants| ==>
           (account, merchants[i]) in scoresPerTuple && r.value[i] == scoresPerTuple[(account, merchants[i])])
    ensures r.Failure? ==> (
      exists k :: (
        && 0 <= k < |merchants|
        && r.error == MissingTuple(account, merchants[k])
        && (account, merchants[k]) !in scoresPerTuple
        && forall j :: 0 <= j < k ==> (account, merchants[j]) in scoresPerTuple))
  {
    if merchants == [] then Success([])
    else if (account, merchants[0]) !in scoresPerTuple then Failure(MissingTuple(account, merchants[0]))
    else
      match TupleScores(account, merchants[1..], scoresPerTuple)
      case Success(rest) => Success([scoresPerTuple[(account, merchants[0])]] + rest)
      case Failure(e) =>
        assert forall m :: m in merchants[1..] ==> m in merchants;
        Failure(e)
  }

  /** `list(map(lambda m: scores_per_merchant[m], merchant_idx_list))`. */
  function MerchantScores(merchants: seq<int>, scoresPerMerchant: map<int, int>): (r: Result<seq<int>, LookupError>)
    ensures r.Success? <==> forall m :: m in merchants ==> m in scoresPerMerchant
    ensures r.Success? ==> (
      && |r.value| == |merchants|
      && forall i :: 0 <= i < |merchants| ==>
           merchants[i] in scoresPerMerchant && r.value[i] == scoresPerMerchant[merchants[i]])
    ensures r.Failure? ==> (
      exists k :: (
        && 0 <= k < |merchants|
        && r.error == MissingMerchant(merchants[k])
        && merchants[k] !in scoresPerMerchant
        && forall j :: 0 <= j < k ==> merchants[j] in scoresPerMerchant))
  {
    if merchants == [] then Success([])
    else if merchants[0] !in scoresPerMerchant then Failure(MissingMerchant(merchants[0]))
    else
      match MerchantScores(merchants[1..], scoresPerMerchant)
      case Success(rest) => Success([scoresPerMerchant[merchants[0]]] + rest)
      case Failure(e) =>
        assert forall m :: m in merchants[1..] ==> m in merchants;
        Failure(e)
  }

  /** `_generate_relevance_list`: per-(account, merchant) scores. */
  function GenerateRelevanceList(account: int, ordered: int, merchants: seq<int>,
                                 scoresPerTuple: map<AccountMerchant, int>): (r: Result<seq<int>, LookupError>)
    ensures r.Success? <==> forall m :: m in merchants ==> (account, m) in scoresPerTuple
    ensures r.Failure? ==> r == Failure(TupleScores(account, merchants, scoresPerTuple).error)
    ensures r.Success? ==> |r.value| == |merchants| && multiset(r.value)[1] == multiset(merchants)[ordered]
    ensures r.Success? ==> forall i :: 0 <= i < |r.value| ==> r.value[i] == 0 || r.value[i] == 1
  {
    match TupleScores(account, merchants, scoresPerTuple)
    case Success(scores) => Success(RelevanceFromScores(ordered, merchants, scores))
    case Failure(e) => Failure(e)
  }

  /** `_generate_relevance_list_from_merchant_scores`: one score per merchant, whoever the account. */
  function GenerateRelevanceListFromMerchantScores(ordered: int, merchants: seq<int>,
                                                   scoresPerMerchant: map<int, int>): (r: Result<seq<int>, LookupError>)
    ensures r.Success? <==> forall m :: m in merchants ==> m in scoresPerMerchant
    ensures r.Failure? ==> r == Failure(MerchantScores(merchants, scoresPerMerchant).error)
    ensures r.Success? ==> |r.value| == |merchants| && multiset(r.value)[1] == multiset(merchants)[ordered]
    ensures r.Success? ==> forall i :: 0 <= i < |r.value| ==> r.value[i] == 0 || r.value[i] == 1
  {
    match MerchantScores(merchants, scoresPerMerchant)
    case Success(scores) => Success(RelevanceFromScores(ordered, merchants, scores))
    case Failure(e) => Failure(e)
  }

  /** The candidate a merchant becomes under a fixed account's scores (0 where no score exists). */
  function TupleCandidate(account: int, scoresPerTuple: map<AccountMerchant, int>): int -> Candidate
  {
    m => Candidate(if (account, m) in scoresPerTuple then scoresPerTuple[(account, m)] else 0, m)
  }

  lemma TupleZip(account: int, merchants: seq<int>, scoresPerTuple: map<AccountMerchant, int>)
    requires TupleScores(account, merchants, scoresPerTuple).Success?
    ensures Zip(TupleScores(account, merchants, scoresPerTuple).value, merchants)
         == MapSeq(TupleCandidate(account, scoresPerTuple), merchants)
  {
  }

  /** Reordering the candidate list changes neither whether the lookup succeeds nor the list built. */
  lemma GenerateRelevanceListOrderInvariant(account: int, ordered: int, m1: seq<int>, m2: seq<int>,
                                            scoresPerTuple: map<AccountMerchant, int>)
    requires multiset(m1) == multiset(m2)
    ensures GenerateRelevanceList(account, ordered, m1, scoresPerTuple).Success?
        <==> GenerateRelevanceList(account, ordered, m2, scoresPerTuple).Success?
    ensures GenerateRelevanceList(account, ordered, m1, scoresPerTuple).Success? ==>
      GenerateRelevanceList(account, ordered, m1, scoresPerTuple) == GenerateRelevanceList(account, ordered, m2, scoresPerTuple)
  {
    forall m ensures m in m1 <==> m in m2 {
      assert m in m1 <==> m in multiset(m1);
      assert m in m2 <==> m in multiset(m2);
    }
    if GenerateRelevanceList(account, ordered, m1, scoresPerTuple).Success? {
      var f := TupleCandidate(account, scoresPerTuple);
      TupleZip(account, m1, scoresPerTuple);
      TupleZip(account, m2, scoresPerTuple);
      MapMultiset(f, m1, m2);
      RelevanceOrderInvariant(ordered, m1, TupleScores(account, m1, scoresPerTuple).value,
                              m2, TupleScores(account, m2, scoresPerTuple).value);
    }
  }

  /** With every candidate scored and the ordered merchant listed once, the single 1 sits at the
      number of candidates m with (score(account, m), m) > (score(account, ordered), ordered). */
  lemma GenerateRelevanceListPosition(account: int, ordered: int, merchants: seq<int>,
                                      scoresPerTuple: map<AccountMerchant, int>)
    requires forall m :: m in merchants ==> (account, m) in scoresPerTuple
    requires multiset(merchants)[ordered] == 1
    ensures
      var r := GenerateRelevanceList(account, ordered, merchants, scoresPerTuple).value;
      var target := Candidate(scoresPerTuple[(account, ordered)], ordered);
      var p := Count(m => (account, m) in scoresPerTuple && Above(Candidate(scoresPerTuple[(account, m)], m), target),
                     merchants);
      p < |r| && r[p] == 1 && forall i :: 0 <= i < |r| && i != p ==> r[i] == 0
  {
    assert ordered in multiset(merchants);
    var k :| 0 <= k < |merchants| && merchants[k] == ordered;
    var scores := TupleScores(account, merchants, scoresPerTuple).value;
    var target := Candidate(scoresPerTuple[(account, ordered)], ordered);
    var above := c => Above(c, target);
    var aboveM := m => (account, m) in scoresPerTuple && Above(Candidate(scoresPerTuple[(account, m)], m), target);
    RelevancePosition(ordered, merchants, scores, k);
    CountMapped(above, aboveM, Zip(scores, merchants), merchants);
  }

  /** Counting over the zipped candidates equals counting over the merchants when the predicates
      agree position by position. */
  lemma {:induction false} CountMapped<A, B>(p: A -> bool, q: B -> bool, a: seq<A>, b: seq<B>)
    requires |a| == |b|
    requires forall i :: 0 <= i < |a| ==> p(a[i]) == q(b[i])
    ensures Count(p, a) == Count(q, b)
  {
    if a != [] {
      CountMapped(p, q, a[1..], b[1..]);
    }
  }

  /** The popularity variant is the tuple variant under a score table that gives every account
      the merchant's own score. */
  lemma MerchantScoresAsTupleScores(account: int, ordered: int, merchants: seq<int>,
                                    scoresPerMerchant: map<int, int>, scoresPerTuple: map<AccountMerchant, int>)
    requires forall m :: m in merchants ==> ((account, m) in scoresPerTuple <==> m in scoresPerMerchant)
    requires forall m :: m in merchants && m in scoresPerMerchant ==> scoresPerTuple[(account, m)] == scoresPerMerchant[m]
    ensures GenerateRelevanceListFromMerchantScores(ordered, merchants, scoresPerMerchant).Success?
        <==> GenerateRelevanceList(account, ordered, merchants, scoresPerTuple).Success?
    ensures GenerateRelevanceList(account, ordered, merchants, scoresPerTuple).Success? ==>
      GenerateRelevanceListFromMerchantScores(ordered, merchants, scoresPerMerchant)
        == GenerateRelevanceList(account, ordered, merchants, scoresPerTuple)
  {
    if GenerateRelevanceList(account, ordered, merchants, scoresPerTuple).Success? {
      var s1 := TupleScores(account, merchants, scoresPerTuple).value;
      var s2 := MerchantScores(merchants, scoresPerMerchant).value;
      assert s1 == s2;
    }
  }
}
