/** The stages of recommendation/task/ifood.py around the relevance builders: the order filter,
    the three relevance-list tasks (model scores, most popular, random) and the `count` of the
    evaluation summary. Ranking metrics are uninterpreted function parameters. */
module Evaluation {
  import opened Wrappers
  import opened Seqs
  import opened Ranking
  import opened RandomRelevance
  import opened ScoreTables

  /** A row of the indexed orders table. */
  datatype Order = Order(orderId: string, account: int, merchant: int, candidates: seq<int>)

  /** A row of `orders_with_relevance_lists.csv`. */
  datatype RelevanceRow = RelevanceRow(orderId: string, relevanceList: seq<int>)

  /** Lines 93, 228 and 279: the ordered merchant is among the candidates. */
  predicate Listed(o: Order)
  {
    o.merchant in o.candidates
  }

  predicate Unlisted(o: Order)
  {
    !Listed(o)
  }

  /** `orders_df[orders_df.apply(lambda row: row["merchant_idx"] in row["merchant_idx_list"], axis=1)]`. */
  function FilterOrders(orders: seq<Order>): (kept: seq<Order>)
    ensures forall i :: 0 <= i < |kept| ==> Listed(kept[i])
    ensures forall o :: multiset(kept)[o] == if Listed(o) then multiset(orders)[o] else 0
    ensures |kept| == Count(Listed, orders)
  {
    if orders == [] then []
    else
      assert orders == [orders[0]] + orders[1..];
      (if Listed(orders[0]) then [orders[0]] else []) + FilterOrders(orders[1..])
  }

  /** The filter keeps the listed orders in their input order: filtering a concatenation
      filters each part. */
  lemma {:induction false} FilterOrdersConcat(a: seq<Order>, b: seq<Order>)
    ensures FilterOrders(a + b) == FilterOrders(a) + FilterOrders(b)
  {
    if a != [] {
      assert (a + b)[1..] == a[1..] + b;
      FilterOrdersConcat(a[1..], b);
    } else {
      assert a + b == b;
    }
  }

  /** The filter drops exactly the orders whose merchant is not listed. */
  lemma {:induction false} FilterDropsUnlisted(orders: seq<Order>)
    ensures |FilterOrders(orders)| == |orders| - Count(Unlisted, orders)
  {
    if orders != [] {
      FilterDropsUnlisted(orders[1..]);
    }
  }

  /** After the filter every relevance list holds at least one 1. */
  lemma ListedOrderHasRelevantItem(o: Order, scoresPerTuple: map<AccountMerchant, int>)
    requires Listed(o)
    requires GenerateRelevanceList(o.account, o.merchant, o.candidates, scoresPerTuple).Success?
    ensures multiset(GenerateRelevanceList(o.account, o.merchant, o.candidates, scoresPerTuple).value)[1] >= 1
  {
    assert o.merchant in multiset(o.candidates);
  }

  /** The `starmap` over the filtered orders: one row per order with the list `build` makes,
      stopping at the first order whose build raises. */
  function BuildRows(orders: seq<Order>, build: Order -> Result<seq<int>, LookupError>): (r: Result<seq<RelevanceRow>, LookupError>)
    ensures r.Success? <==> forall i :: 0 <= i < |orders| ==> build(orders[i]).Success?
    ensures r.Success? ==> (
      && |r.value| == |orders|
      && forall i :: 0 <= i < |orders| ==> r.value[i] == RelevanceRow(orders[i].orderId, build(orders[i]).value))
  {
    if orders == [] then Success([])
    else
      match build(orders[0])
      case Failure(e) => Failure(e)
      case Success(list) =>
        match BuildRows(orders[1..], build)
        case Failure(e) => Failure(e)
        case Success(rest) => Success([RelevanceRow(orders[0].orderId, list)] + rest)
  }

  function TupleBuilder(scoresPerTuple: map<AccountMerchant, int>): Order -> Result<seq<int>, LookupError>
  {
    (o: Order) => GenerateRelevanceList(o.account, o.merchant, o.candidates, scoresPerTuple)
  }

  function PopularityBuilder(scoresPerMerchant: map<int, int>): Order -> Result<seq<int>, LookupError>
  {
    (o: Order) => GenerateRelevanceListFromMerchantScores(o.merchant, o.candidates, scoresPerMerchant)
  }

  /** What every output row promises about its order: same id, one label per candidate, and as
      many 1s as the ordered merchant occurs among the candidates, hence at least one. */
  predicate RowFor(row: RelevanceRow, o: Order)
  {
    && row.orderId == o.orderId
    && |row.relevanceList| == |o.candidates|
    && multiset(row.relevanceList)[1] == multiset(o.candidates)[o.merchant] >= 1
  }

  /** Every candidate of the order has a score for the order's account. */
  predicate TupleScored(o: Order, scoresPerTuple: map<AccountMerchant, int>)
  {
    forall m :: m in o.candidates ==> (o.account, m) in scoresPerTuple
  }

  /** Every candidate of the order has a popularity score. */
  predicate MerchantScored(o: Order, scoresPerMerchant: map<int, int>)
  {
    forall m :: m in o.candidates ==> m in scoresPerMerchant
  }

  /** Every order of the list has all its candidates scored for its account. */
  predicate AllTupleScored(orders: seq<Order>, scoresPerTuple: map<AccountMerchant, int>)
  {
    forall i :: 0 <= i < |orders| ==> TupleScored(orders[i], scoresPerTuple)
  }

  /** Every order of the list has all its candidates in the popularity table. */
  predicate AllMerchantScored(orders: seq<Order>, scoresPerMerchant: map<int, int>)
  {
    forall i :: 0 <= i < |orders| ==> MerchantScored(orders[i], scoresPerMerchant)
  }

  lemma ListedRow(o: Order, list: seq<int>)
    requires Listed(o)
    requires |list| == |o.candidates| && multiset(list)[1] == multiset(o.candidates)[o.merchant]
    ensures RowFor(RelevanceRow(o.orderId, list), o)
  {
    assert o.merchant in multiset(o.candidates);
  }

  /** The starmap of lines 96-99 over already filtered orders. */
  function TupleRows(kept: seq<Order>, scoresPerTuple: map<AccountMerchant, int>)
    : (r: Result<seq<RelevanceRow>, LookupError>)
    requires forall i :: 0 <= i < |kept| ==> Listed(kept[i])
    ensures r.Success? <==> AllTupleScored(kept, scoresPerTuple)
    ensures r.Success? ==> |r.value| == |kept| && forall i :: 0 <= i < |kept| ==> RowFor(r.value[i], kept[i])
    ensures r.Success? ==> forall i :: 0 <= i < |kept| ==>
      r.value[i].relevanceList == GenerateRelevanceList(kept[i].account, kept[i].merchant, kept[i].candidates, scoresPerTuple).value
  {
    var rows := BuildRows(kept, TupleBuilder(scoresPerTuple));
    assert rows.Success? ==> forall i :: 0 <= i < |kept| ==> RowFor(rows.value[i], kept[i]) by {
      if rows.Success? {
        forall i | 0 <= i < |kept| ensures RowFor(rows.value[i], kept[i]) {
          var o := kept[i];
          ListedRow(o, GenerateRelevanceList(o.account, o.merchant, o.candidates, scoresPerTuple).value);
        }
      }
    }
    rows
  }

  /** `GenerateRelevanceListsForIfoodModel.run` (lines 84-110), given the score dictionary: one row
      per listed order, in order. */
  function RelevanceListsForModel(orders: seq<Order>, scoresPerTuple: map<AccountMerchant, int>)
    : (r: Result<seq<RelevanceRow>, LookupError>)
    ensures r.Success? <==> AllTupleScored(FilterOrders(orders), scoresPerTuple)
    ensures r.Success? ==> |r.value| == |FilterOrders(orders)|
    ensures r.Success? ==> forall i :: 0 <= i < |r.value| ==> RowFor(r.value[i], FilterOrders(orders)[i])
    ensures r.Success? ==> forall i :: 0 <= i < |r.value| ==>
      var o := FilterOrders(orders)[i];
      r.value[i].relevanceList == GenerateRelevanceList(o.account, o.merchant, o.candidates, scoresPerTuple).value
  {
    TupleRows(FilterOrders(orders), scoresPerTuple)
  }

  /** The starmap of lines 282-285 over already filtered orders. */
  function PopularityRows(kept: seq<Order>, scoresPerMerchant: map<int, int>)
    : (r: Result<seq<RelevanceRow>, LookupError>)
    requires forall i :: 0 <= i < |kept| ==> Listed(kept[i])
    ensures r.Success? <==> AllMerchantScored(kept, scoresPerMerchant)
    ensures r.Success? ==> |r.value| == |kept| && forall i :: 0 <= i < |kept| ==> RowFor(r.value[i], kept[i])
    ensures r.Success? ==> forall i :: 0 <= i < |kept| ==>
      r.value[i].relevanceList == GenerateRelevanceListFromMerchantScores(kept[i].merchant, kept[i].candidates, scoresPerMerchant).value
  {
    var rows := BuildRows(kept, PopularityBuilder(scoresPerMerchant));
    assert rows.Success? ==> forall i :: 0 <= i < |kept| ==> RowFor(rows.value[i], kept[i]) by {
      if rows.Success? {
        forall i | 0 <= i < |kept| ensures RowFor(rows.value[i], kept[i]) {
          var o := kept[i];
          ListedRow(o, GenerateRelevanceListFromMerchantScores(o.merchant, o.candidates, scoresPerMerchant).value);
        }
      }
    }
    rows
  }

  /** `GenerateMostPopularRelevanceLists.run` (lines 264-288): the popularity table of the
      interactions, then one row per listed order. */
  function MostPopularRelevanceLists(interactions: seq<Interaction>, orders: seq<Order>)
    : (r: Result<seq<RelevanceRow>, LookupError>)
    ensures r.Success? <==> AllMerchantScored(FilterOrders(orders), PopularityScores(interactions))
    ensures r.Success? ==> |r.value| == |FilterOrders(orders)|
    ensures r.Success? ==> forall i :: 0 <= i < |r.value| ==> RowFor(r.value[i], FilterOrders(orders)[i])
    ensures r.Success? ==> forall i :: 0 <= i < |r.value| ==>
      var o := FilterOrders(orders)[i];
      r.value[i].relevanceList == GenerateRelevanceListFromMerchantScores(o.merchant, o.candidates, PopularityScores(interactions)).value
  {
    PopularityRows(FilterOrders(orders), PopularityScores(interactions))
  }

  /** The row the random task writes for a listed order under the given shuffle draws: the
      labels of the shuffled candidates, which have the order's length and count of 1s. */
  function RandomRowOf(o: Order, draws: seq<nat>): (row: RelevanceRow)
    requires ValidDraws(draws, |o.candidates|)
  {
    RelevanceRow(o.orderId, Labels(Shuffled(o.candidates, draws, |o.candidates|), o.merchant))
  }

  lemma RandomRowOfFor(o: Order, draws: seq<nat>)
    requires Listed(o) && ValidDraws(draws, |o.candidates|)
    ensures RowFor(RandomRowOf(o, draws), o)
  {
    RandomRelevanceCount(o.candidates, draws, o.merchant);
    ListedRow(o, RandomRowOf(o, draws).relevanceList);
  }

  /** Lines 228-233 for one listed order: a fresh copy of its candidate list is shuffled in place
      and labelled. */
  method RandomRow(o: Order, draws: seq<nat>) returns (row: RelevanceRow)
    requires Listed(o) && ValidDraws(draws, |o.candidates|)
    ensures row == RandomRowOf(o, draws)
  {
    var merchants := new int[|o.candidates|](k requires 0 <= k < |o.candidates| => o.candidates[k]);
    assert merchants[..] == o.candidates;
    var list := GenerateRandomRelevanceList(o.merchant, merchants, draws);
    row := RelevanceRow(o.orderId, list);
  }

  /** The loop of `GenerateRandomRelevanceLists.run` over already filtered orders. */
  method RandomRowsOf(kept: seq<Order>, draws: seq<seq<nat>>) returns (rows: seq<RelevanceRow>)
    requires |draws| == |kept|
    requires forall i :: 0 <= i < |kept| ==> Listed(kept[i]) && ValidDraws(draws[i], |kept[i].candidates|)
    ensures |rows| == |kept|
    ensures forall i :: 0 <= i < |rows| ==> rows[i] == RandomRowOf(kept[i], draws[i])
    ensures forall i :: 0 <= i < |rows| ==> RowFor(rows[i], kept[i])
  {
    rows := [];
    for i := 0 to |kept|
      invariant |rows| == i
      invariant forall h :: 0 <= h < i ==> rows[h] == RandomRowOf(kept[h], draws[h])
    {
      var row := RandomRow(kept[i], draws[i]);
      ghost var prev := rows;
      rows := rows + [row];
      forall h | 0 <= h < i + 1 ensures rows[h] == RandomRowOf(kept[h], draws[h]) {
        if h < i {
          assert rows[h] == prev[h];
        }
      }
    }
    forall i | 0 <= i < |rows|
      ensures RowFor(rows[i], kept[i])
    {
      RandomRowOfFor(kept[i], draws[i]);
    }
  }

  /** `GenerateRandomRelevanceLists.run` (lines 221-237): one row per listed order, `draws[i]`
      being the random draws of the shuffle for the i-th listed order. */
  method RandomRelevanceLists(orders: seq<Order>, draws: seq<seq<nat>>) returns (rows: seq<RelevanceRow>)
    requires |draws| == |FilterOrders(orders)|
    requires forall i :: 0 <= i < |draws| ==> ValidDraws(draws[i], |FilterOrders(orders)[i].candidates|)
    ensures |rows| == |FilterOrders(orders)|
    ensures forall i :: 0 <= i < |rows| ==> rows[i] == RandomRowOf(FilterOrders(orders)[i], draws[i])
    ensures forall i :: 0 <= i < |rows| ==> RowFor(rows[i], FilterOrders(orders)[i])
  {
    rows := RandomRowsOf(FilterOrders(orders), draws);
  }

  // ---- EvaluateIfoodModel.run ----

  /** A row of `orders_with_metrics.csv`: the relevance list replaced by its metrics. */
  datatype MetricsRow = MetricsRow(orderId: string, averagePrecision: real,
                                   ndcgAt5: real, ndcgAt10: real, ndcgAt15: real, ndcgAt20: real, ndcgAt50: real)

  /** The part of `metrics.json` this model states: the number of evaluated orders. */
  datatype Summary = Summary(count: nat)

  function RowMetrics(row: RelevanceRow, averagePrecision: seq<int> -> real, ndcgAtK: (seq<int>, nat) -> real): MetricsRow
  {
    var rel := row.relevanceList;
    MetricsRow(row.orderId, averagePrecision(rel),
               ndcgAtK(rel, 5), ndcgAtK(rel, 10), ndcgAtK(rel, 15), ndcgAtK(rel, 20), ndcgAtK(rel, 50))
  }

  /** Lines 161-203: every relevance list gets its average precision and NDCG at 5, 10, 15, 20 and
      50; the summary counts the rows. */
  function EvaluateRelevanceLists(rows: seq<RelevanceRow>, averagePrecision: seq<int> -> real,
                                  ndcgAtK: (seq<int>, nat) -> real): (r: (seq<MetricsRow>, Summary))
    ensures |r.0| == |rows| && r.1.count == |rows|
    ensures forall i :: 0 <= i < |rows| ==>
      && r.0[i].orderId == rows[i].orderId
      && r.0[i].averagePrecision == averagePrecision(rows[i].relevanceList)
      && r.0[i].ndcgAt5 == ndcgAtK(rows[i].relevanceList, 5)
      && r.0[i].ndcgAt10 == ndcgAtK(rows[i].relevanceList, 10)
      && r.0[i].ndcgAt15 == ndcgAtK(rows[i].relevanceList, 15)
      && r.0[i].ndcgAt20 == ndcgAtK(rows[i].relevanceList, 20)
      && r.0[i].ndcgAt50 == ndcgAtK(rows[i].relevanceList, 50)
  {
    (MapSeq((row: RelevanceRow) => RowMetrics(row, averagePrecision, ndcgAtK), rows), Summary(|rows|))
  }

  /** End to end: the summary count is the number of input orders minus the excluded ones. */
  lemma SummaryCountIsListedOrders(orders: seq<Order>, scoresPerTuple: map<AccountMerchant, int>,
                                   averagePrecision: seq<int> -> real, ndcgAtK: (seq<int>, nat) -> real)
    requires RelevanceListsForModel(orders, scoresPerTuple).Success?
    ensures EvaluateRelevanceLists(RelevanceListsForModel(orders, scoresPerTuple).value, averagePrecision, ndcgAtK).1.count
         == |orders| - Count(Unlisted, orders)
  {
    FilterDropsUnlisted(orders);
  }
}
