# Relevance lists of the iFood evaluation, in Dafny

This project models how the iFood evaluation pipeline builds relevance lists and their inputs, and proves properties of each step.

- **Relevance lists.** Each test order has an account, the merchant ordered from, and a list of candidate merchants. The candidates are scored and ranked by descending (score, merchant index). The relevance list has a 1 at every ranked position holding the ordered merchant and 0 elsewhere. There are three variants: per-(account, merchant) model scores, per-merchant popularity, and a random shuffle.
- **Around the builders.** The model covers the order filter, the three ways the score dictionaries are built, and the `count` of the evaluation summary.
- **Data module.** It also covers the part of the data module these tasks rely on:
  - the contiguity check and per-column arrays of the metadata frame;
  - the in-place preprocessing of the interactions frame;
  - the column selection, length and item assembly of `InteractionsDataset`.

Modules:

- `Wrappers`: `Option` and `Result`. `Seqs`: sequence helpers, namely map, count, sortedness and uniqueness of sorted sequences.
- `Ranking`: the tuple order, the descending sort, the label lists, and the two score-driven builders.
- `RandomRelevance`: the in-place Fisher-Yates shuffle on an `array`, plus labelling.
- `ScoreTables`: the batched tuple table, the grouped and gathered reconstructed-matrix table, and the popularity sums.
- `Evaluation`: the order filter, the three relevance-list tasks and the summary count.
- `Config`: the column types and project configuration that the data module reads.
- `Metadata`: `preprocess_metadata_data_frame`.
- `Interactions`: a `DataFrame` class whose columns are updated in place by `literal_eval_array_columns` and `preprocess_interactions_data_frame`.
- `Dataset`: `InteractionsDataset`.

Scores are integers and the trained network is a function parameter. A Python `KeyError`, `IndexError` or `ValueError` becomes a `Failure` carrying the key or index at fault. Where several could be raised, it is the first one Python's evaluation order reaches.

A stable sort by score alone would keep tied candidates in list order. The code instead sorts (score, merchant index) tuples in reverse (`recommendation/task/ifood.py:30-31`), so a tie on score goes to the larger merchant index. The model follows the code: see `Ranking.Above`.

## Model

| member | source | states |
|---|---|---|
| Ranking.AtLeastIsTotalOrder | recommendation/task/ifood.py:30-31 | the reverse tuple comparison on (score, merchant) is reflexive, antisymmetric, transitive and total; ">" is ">=" without equality |
| Ranking.Insert | recommendation/task/ifood.py:30-31 | inserting into a descending ranking keeps it descending and adds exactly that candidate |
| Ranking.SortDescending | recommendation/task/ifood.py:30-31 | `sorted(..., reverse=True)`: the output is descending in (score, merchant) and a permutation of the input |
| Ranking.Labels | recommendation/task/ifood.py:32 | one label per merchant: 1 exactly where it equals the ordered merchant, otherwise 0 |
| Ranking.LabelsCount | recommendation/task/ifood.py:32 | the number of 1s is the number of occurrences of the ordered merchant, and 0s and 1s together make up the list |
| Ranking.ZeroOneCount | recommendation/task/ifood.py:32 | a list of 0s and 1s has as many 0s and 1s together as it has entries |
| Ranking.Ranked | recommendation/task/ifood.py:29-31 | the zipped candidates in descending order; a permutation of `zip(scores, merchants)` |
| Ranking.RelevanceFromScores | recommendation/task/ifood.py:30-32 | same length as the candidate list; entry i is 1 iff the i-th ranked candidate is the ordered merchant; all entries are 0/1; the 1s count the ordered merchant's occurrences |
| Ranking.RelevanceOrderInvariant | recommendation/task/ifood.py:29-32 | the list depends only on the multiset of (score, merchant) pairs |
| Ranking.CountAboveRanked | recommendation/task/ifood.py:30-31 | in a descending ranking, a candidate standing only at q has exactly q candidates above it |
| Ranking.UniqueInRanking | recommendation/task/ifood.py:30-31 | a merchant listed once occupies exactly one ranked position |
| Ranking.RelevancePosition | recommendation/task/ifood.py:30-32 | for an ordered merchant listed once, the single 1 sits at the number of candidates whose (score, merchant) is greater |
| Ranking.TupleScores | recommendation/task/ifood.py:29 | succeeds iff every (account, candidate) key is in the table; the values are the table's, in list order; a failure names the first missing key |
| Ranking.MerchantScores | recommendation/task/ifood.py:42 | the same for the per-merchant table |
| Ranking.GenerateRelevanceList | recommendation/task/ifood.py:27-32 | succeeds iff every candidate has a score for the account, else raises the lookup's `KeyError`; same length as the candidates; the 1s count the ordered merchant; entries are 0/1 |
| Ranking.GenerateRelevanceListFromMerchantScores | recommendation/task/ifood.py:40-45 | the same with one score per merchant |
| Ranking.TupleZip | recommendation/task/ifood.py:29-31 | the zipped candidates are the candidates mapped through the account's score table |
| Ranking.GenerateRelevanceListOrderInvariant | recommendation/task/ifood.py:27-32 | reordering the candidate list changes neither whether the build succeeds nor the list it builds |
| Ranking.GenerateRelevanceListPosition | recommendation/task/ifood.py:27-32 | with every candidate scored and the ordered merchant listed once, the single 1 is at the count of candidates m with (score(account, m), m) above the ordered merchant's |
| Ranking.CountMapped | recommendation/task/ifood.py:29-31 | counting over the zipped candidates equals counting over the merchants when the predicates agree position by position |
| Ranking.MerchantScoresAsTupleScores | recommendation/task/ifood.py:40-45 | the popularity variant equals the tuple variant under a tuple table that gives the account each merchant's own score |
| RandomRelevance.Swap | recommendation/task/ifood.py:36 | one exchange of the shuffle: only positions i and j change, and they trade values |
| RandomRelevance.Shuffled | recommendation/task/ifood.py:36 | the Fisher-Yates shuffle under the given draws keeps the length and the multiset of merchants |
| RandomRelevance.RandomRelevanceCount | recommendation/task/ifood.py:35-37 | the random list has the candidate list's length and the ordered merchant's count of 1s, as the deterministic lists do |
| RandomRelevance.GenerateRandomRelevanceList | recommendation/task/ifood.py:35-37 | the array is shuffled in place into `Shuffled` of its old contents (a permutation of them), and the result labels the shuffled array |
| ScoreTables.ZipToMap | recommendation/task/ifood.py:81-82 | the dictionary comprehension over zip has exactly the listed keys |
| ScoreTables.ZipToMapLast | recommendation/task/ifood.py:81-82 | a duplicate key holds the value of its last occurrence |
| ScoreTables.ZipToMapValue | recommendation/task/ifood.py:81-82 | when each value is a function of its key, the dictionary agrees with that function |
| ScoreTables.BatchEnd | recommendation/task/ifood.py:72-73 | a batch of `chunks` is non-empty, in range, never longer than `batch_size`, and full except possibly the last |
| ScoreTables.EvaluateAccountMerchantTuples | recommendation/task/ifood.py:61-82 | running the model batch by batch and extending `scores` gives the dictionary of zip(tuples, model(tuples)), whatever the batch size: exactly the tuples as keys, each holding the model's score |
| ScoreTables.MerchantsOf | recommendation/task/ifood.py:120 | a merchant is among the account's merchants exactly when the table has that (account, merchant) row |
| ScoreTables.AccountIn | recommendation/task/ifood.py:120 | every group's account is among the accounts of the groups |
| ScoreTables.AccountsFrom | recommendation/task/ifood.py:120 | in ascending groups every account present is at least the first group's |
| ScoreTables.PairsOfConcat | recommendation/task/ifood.py:132-144 | the pairs of consecutive batches are the union of each batch's pairs |
| ScoreTables.AddRow | recommendation/task/ifood.py:120 | adding one row to the groupby keeps the accounts ascending and adds exactly that pair |
| ScoreTables.GroupByAccount | recommendation/task/ifood.py:120 | `groupby('account_idx')['merchant_idx'].apply(list)`: ascending distinct accounts, each with its merchants in row order, and exactly the table's pairs |
| ScoreTables.GroupEntries | recommendation/task/ifood.py:137-139 | one entry per merchant of a group, carrying the group's output row and account, and exactly the group's pairs |
| ScoreTables.Flatten | recommendation/task/ifood.py:137-139 | the flattened batch: one entry per requested pair, with its output row |
| ScoreTables.FirstOutOfRange | recommendation/task/ifood.py:141 | the first entry whose merchant column is outside its output row (every earlier entry is inside), or none when all are inside |
| ScoreTables.KeysOfEntries | recommendation/task/ifood.py:143-144 | the keys of the batch's dictionary are exactly the batch's pairs |
| ScoreTables.BatchInRange | recommendation/task/ifood.py:141 | all entries are in range iff every pair of the batch is |
| ScoreTables.BatchOutputs | recommendation/task/ifood.py:132-133 | one dense output row per group of the batch, the model applied to that group's account |
| ScoreTables.OutOfRangeInBatch | recommendation/task/ifood.py:141 | the entry the gather stops at is a pair of the batch whose merchant lies outside its account's dense row |
| ScoreTables.GatheredBatch | recommendation/task/ifood.py:141-144 | with no entry out of range, the batch's dictionary has exactly the batch's pairs, each holding its account's dense row at its merchant |
| ScoreTables.GatherBatch | recommendation/task/ifood.py:134-144 | one batch succeeds iff every requested merchant is within its account's output row; its dictionary has exactly the batch's pairs, each holding the gathered score; a failure names an out-of-range pair |
| ScoreTables.BatchWithin | recommendation/task/ifood.py:131-132 | a batch of consecutive groups asks only for pairs of the grouped tuples, and the groups up to its end are those before it followed by it |
| ScoreTables.GatheredMerge | recommendation/task/ifood.py:143-144 | `rel_dict.update` with a further batch's table gives the table of all batches so far |
| ScoreTables.ReconstructedScoreTable | recommendation/task/ifood.py:115-146 | succeeds iff every tuple's merchant is within its account's reconstructed row; then `rel_dict` has exactly the tuples as keys, each holding `row(account)[merchant]`; a failure names an out-of-range tuple |
| ScoreTables.PopularityScores | recommendation/task/ifood.py:270-273 | keys are exactly the merchants with an interaction row; each holds the sum of its rows' buys |
| ScoreTables.SumBuysAbsent | recommendation/task/ifood.py:270 | a merchant without rows sums to zero |
| ScoreTables.SumBuysConcat | recommendation/task/ifood.py:270 | the buys sum splits over concatenated rows |
| ScoreTables.SumBuysOrderInvariant | recommendation/task/ifood.py:270 | the buys sum does not depend on row order |
| ScoreTables.PopularityScoresOrderInvariant | recommendation/task/ifood.py:270-273 | the popularity table does not depend on row order |
| Evaluation.FilterOrders | recommendation/task/ifood.py:93 | every kept order lists its merchant; each listed order is kept as often as it occurs and unlisted ones never; the kept count is the number of listed orders |
| Evaluation.FilterOrdersConcat | recommendation/task/ifood.py:93 | the filter keeps input order: filtering a concatenation is the concatenation of the filtered parts |
| Evaluation.FilterDropsUnlisted | recommendation/task/ifood.py:93 | the filter removes exactly the unlisted orders |
| Evaluation.ListedOrderHasRelevantItem | recommendation/task/ifood.py:93-99 | after the filter every relevance list has at least one 1 |
| Evaluation.BuildRows | recommendation/task/ifood.py:96-99 | the starmap succeeds iff every order's build does; row i carries order i's id and list |
| Evaluation.TupleRows | recommendation/task/ifood.py:93-99 | over listed orders: succeeds iff every candidate of every order is scored for its account; one row per order with its id, length and count of 1s, holding exactly the list `generate_relevance_list` builds for that order |
| Evaluation.PopularityRows | recommendation/task/ifood.py:279-285 | over listed orders: succeeds iff every candidate has a popularity score; one row per order with its id, length and count of 1s, holding exactly the list `generate_relevance_list_from_merchant_scores` builds for that order |
| Evaluation.ListedRow | recommendation/task/ifood.py:93-99 | a list with the candidates' length and the merchant's count of 1s, for a listed order, is a row with at least one 1 |
| Evaluation.RelevanceListsForModel | recommendation/task/ifood.py:84-110 | succeeds iff every filtered order's candidates are scored for its account; one row per filtered order, in order, same id, candidate-list length, the ordered merchant's count of 1s (at least one), and the ranked list `generate_relevance_list` builds for that order |
| Evaluation.MostPopularRelevanceLists | recommendation/task/ifood.py:264-288 | the same for the popularity table of the interactions: each row holds the popularity builder's list for its filtered order |
| Evaluation.RandomRowOfFor | recommendation/task/ifood.py:228-234 | the random row of a listed order has its id, the length of its candidate list and its merchant's count of 1s, hence at least one 1 |
| Evaluation.RandomRow | recommendation/task/ifood.py:231-234 | a fresh copy of the candidates, shuffled in place and labelled, is the labels of `Shuffled` of the candidates under the draws, with the order's id |
| Evaluation.RandomRowsOf | recommendation/task/ifood.py:231-234 | one row per filtered order, in order, each the labels of that order's shuffled candidates, with its id, length and count of 1s |
| Evaluation.RandomRelevanceLists | recommendation/task/ifood.py:221-237 | one row per listed order, in order, each the labels of its shuffled candidates with the order's id, length and count of 1s |
| Evaluation.EvaluateRelevanceLists | recommendation/task/ifood.py:161-196 | one metrics row per relevance row with the same id and AP and NDCG at 5/10/15/20/50 of its list; `count` is the number of rows |
| Evaluation.SummaryCountIsListedOrders | recommendation/task/ifood.py:196 | end to end, `count` is the number of orders minus the unlisted ones the filter of line 93 drops |
| Config.Names | recommendation/data.py:56-58 | the column names in order |
| Metadata.InsertByKey | recommendation/data.py:34 | inserting a row position keeps the positions ordered by item and adds exactly that position |
| Metadata.SortByKey | recommendation/data.py:34 | the positions ordered by item, a permutation of the input positions |
| Metadata.SortIndex | recommendation/data.py:34 | `sort_index()`: a permutation of the row positions with items ascending |
| Metadata.SortedItems | recommendation/data.py:34-36 | the sorted index, entry i being the item of the i-th sorted row |
| Metadata.SortedItemsMultiset | recommendation/data.py:34 | sorting keeps the frame's items |
| Metadata.ContiguousIffPermutation | recommendation/data.py:34-37 | the check passes iff the items are a permutation of 0..n-1 |
| Metadata.RowOfItem | recommendation/data.py:34-37 | under the check, row p is the one sorted to position `items[p]` and the only row with that item |
| Metadata.ColumnOf | recommendation/data.py:34-41 | a column lookup finds the item column itself (`drop=False`) or a frame column |
| Metadata.Reorder | recommendation/data.py:41 | a column's values in sorted row order |
| Metadata.ReorderByItem | recommendation/data.py:34-42 | under the check, the sorted column holds at position `items[p]` the value of row p |
| Metadata.CollectedStep | recommendation/data.py:39-42 | one more metadata column found and stored in sorted row order keeps the table built so far exactly the columns seen, each reordered |
| Metadata.SortedColumns | recommendation/data.py:39-42 | the loop succeeds iff every metadata column exists; a failure names a missing listed column; on success the keys are the metadata columns' names and each array is its column in sorted row order |
| Metadata.PreprocessMetadata | recommendation/data.py:32-44 | fails with `NotContiguous` whenever the check fails; succeeds iff the check passes and every metadata column exists; one array per metadata column whose entry `items[p]` is row p's value |
| Interactions.DataFrame.constructor | recommendation/data.py:17 | a frame with the given columns and height |
| Seqs.MapSeq | recommendation/data.py:14 | `parallel_literal_eval` of a column, and `astype(int)`: one function applied to every cell, same length |
| Interactions.ArrayNames | recommendation/data.py:13 | the names of the array-typed columns of the list |
| Interactions.EvalColumns | recommendation/data.py:11-14 | the frame's columns after the loop: same column names and lengths; columns of no array-typed listed column unchanged |
| Interactions.EvalColumnsParsesListed | recommendation/data.py:11-14 | each frame column is parsed once per array-typed listing of it |
| Interactions.LiteralEvalArrayColumns | recommendation/data.py:11-14 | in place: the frame's columns become `EvalColumns` of the old ones; height and validity are kept |
| Interactions.ParseArms | recommendation/data.py:26-29 | the arms column, when configured, is parsed iff its first cell is still text; the new arms column is its cells parsed when the first is text and is unchanged otherwise; a configured column the frame lacks is the error; other columns, names and lengths are kept |
| Interactions.Preprocessed | recommendation/data.py:17-29 | an empty frame comes back unchanged with no error; no error iff the user and item columns and a configured arms column exist; column names and lengths are kept; on a non-empty frame the user column becomes its cells cast by `astype(int)` and the item column the cast of its (possibly just cast) cells, unless a later parse rewrites them; columns outside those roles are unchanged |
| Interactions.PreprocessInteractions | recommendation/data.py:17-29 | in place: the new columns and the `KeyError` raised, if any, are `Preprocessed` of the old frame |
| Dataset.IndexOf | recommendation/data.py:54 | `list.index`: the first position of the column |
| Dataset.NewDataset | recommendation/data.py:48-62 | raises `ValueError` iff the item is an input but not among the input columns; keeps exactly the frame's columns among the input, output and auxiliary names, unchanged, and every row |
| Dataset.LenIsFrameHeight | recommendation/data.py:59-65 | `len` is the number of rows of the frame the dataset was built from, and every kept column has that length |
| Seqs.Wrap | recommendation/data.py:82 | a negative row index counts from the end, within range |
| Dataset.RowPositions | recommendation/data.py:82 | `iloc` succeeds iff every index is within range; the positions wrap negative indices; a failure names an out-of-range index |
| Dataset.ColumnValues | recommendation/data.py:84-90 | `rows[name].values`: raises iff the column is missing; otherwise its cells at the selected rows |
| Dataset.ColumnsValues | recommendation/data.py:84-94 | one array per column in declared order; fails iff a column is missing, naming a missing listed column |
| Dataset.Gather | recommendation/data.py:87 | fancy indexing by the item values: succeeds iff every item is an integer in range; entry k is the embedding at item k, negative counting from the end |
| Dataset.MetadataInputs | recommendation/data.py:87-88 | one gathered input per metadata column, in order; succeeds iff every column's embedding exists and accepts every item |
| Dataset.MetadataInputAt | recommendation/data.py:87-88 | on success, metadata input c at row k is column c's embedding at the item of row k, negative items counting from the end |
| Dataset.Inputs | recommendation/data.py:84-88 | the declared inputs come first, and are followed by the metadata inputs gathered at the item input exactly when the item is an input and metadata was given; fails when a declared input column is missing |
| Dataset.Outputs | recommendation/data.py:90-94 | succeeds iff the output and auxiliary columns exist; a failure is the `KeyError` of a missing one of them, the output column's when it is missing; the main output alone without auxiliary columns, else the tuple of the main output then the auxiliary outputs in declared order |
| Dataset.GetItem | recommendation/data.py:78-95 | an out-of-range index raises first; otherwise the item is (inputs, output) at the wrapped positions, failing iff either part does |
| Dataset.SingleIsSingletonList | recommendation/data.py:80-81 | an int index gives the same item as the singleton list |
| Dataset.GetItemInput | recommendation/data.py:82-84 | on success, declared input c at row k is column c's cell at position k of the selection, negative indices counting from the end |
| Dataset.GetItemMetadataInput | recommendation/data.py:85-88 | on success with item input and metadata, there is one extra input per metadata column, and its entry k is that column's embedding at the item of row k |
| Dataset.InputsMetadataAt | recommendation/data.py:84-88 | with item input and metadata, the inputs are the declared ones followed by one per metadata column, metadata input c at row k being that column's embedding at row k's item |

## Left out

- Scores are integers, while the source uses floats. The descending sort and the 0/1 labels only use comparisons, so ordering is kept. NaN scores and float rounding of the `buys` sums are not modelled.
- The network is a function parameter: pair to score in tuple mode, account to dense score row in reconstructed mode. Not modelled: torch tensors, devices, `get_trained_module`, and the `int_matrix` lookup of the account's interaction row.
- `np.random.shuffle` is numpy's Fisher-Yates loop with its random draws as a parameter. The generator itself is not modelled.
- Evaluation.RandomRow: each order's candidate list is copied into a fresh array before the in-place shuffle. The aliasing of the source, where the shuffle reorders the list stored in the orders frame, is not modelled, because nothing reads that list afterwards.
- ScoreTables.GatherBatch: `batch_np_tensors[[merchants_tensor_ids, merchants_lists]]` at ifood.py line 141 is read as a paired two-dimensional gather, taking the row from the first list and the column from the second. NumPy before 1.23 indexed a list of sequences this way. NumPy 1.23 and later treat the same list as one index array on axis 0; that reading is not modelled.
- `chunks` is not part of this model. It is taken to yield consecutive, in-order batches of `batch_size` positions, with `batch_size > 0`.
- The metrics are function parameters: `average_precision`, `ndcg_at_k` and everything in `recommendation/metrics.py`. Their formulas are not part of this model.
- Evaluation.EvaluateRelevanceLists: of the summary, only `count` is kept. The corpus means of the metrics are float averages.
- The configuration asserts at ifood.py lines 65-66 and 124 only check input column names. They are not modelled.
- File I/O is not modelled: parquet, CSV and JSON reads and writes, `os.makedirs`, luigi `requires`/`output`, tqdm and the multiprocessing pool.
- The CSV round trip of the relevance lists and their `ast.literal_eval` at ifood.py line 167 are treated as the identity.
- `ast.literal_eval` / `parallel_literal_eval` of one cell and `astype(int)` of one cell are function parameters of `Interactions`. `_convert_dtype` and `IOType.dtype` casts are the identity in `Dataset` and `Metadata`.
- recommendation/task/meta_config.py is not part of this model. `ProjectConfig` holds only the fields the data module reads, and `item_is_input` and `input_columns` are plain fields.
- Metadata.PreprocessMetadata: the item column is given as the frame's integer index. A missing or non-integer item column, which pandas rejects in `set_index`, is not modelled.
- Dataset: the order of the kept columns after `data_frame[set(...)]` is not modelled, because every later access is by name. Only row selection by `iloc` with integer indices is modelled.
- Metadata.SortedColumns, Dataset.ColumnsValues: a failure is shown to name a missing listed column, not necessarily the first one in list order. Metadata.PreprocessMetadata, Dataset.Inputs, Dataset.Outputs and Dataset.GetItem report their missing-column failures through these two and promise no more about which column is named.
