/** The score dictionaries of recommendation/task/ifood.py: the per-tuple table built by running
    the model in batches (lines 61-82), the reconstructed-matrix table that gathers entries of a
    dense score row per account (lines 115-146), and the popularity table that sums `buys` per
    merchant (lines 270-273). The model is an uninterpreted function parameter. */
module ScoreTables {
  import opened Wrappers
  import opened Seqs
  import opened Ranking

  /** Python's `{k: v for k, v in zip(keys, values)}`: later duplicate keys overwrite earlier ones. */
  function ZipToMap(keys: seq<AccountMerchant>, values: seq<int>): (m: map<AccountMerchant, int>)
    requires |keys| == |values|
    ensures m.Keys == set k | k in keys
  {
    if keys == [] then map[]
    else ZipToMap(keys[..|keys| - 1], values[..|values| - 1])[keys[|keys| - 1] := values[|values| - 1]]
  }

  /** Each key holds the value paired with its LAST occurrence. */
  lemma {:induction false} ZipToMapLast(keys: seq<AccountMerchant>, values: seq<int>, j: int)
    requires |keys| == |values|
    requires 0 <= j < |keys|
    requires forall i :: j < i < |keys| ==> keys[i] != keys[j]
    ensures ZipToMap(keys, values)[keys[j]] == values[j]
  {
    var n := |keys|;
    if j < n - 1 {
      ZipToMapLast(keys[..n - 1], values[..n - 1], j);
    }
  }

  /** When every value is `f` of its key, the dictionary agrees with `f` on all its keys. */
  lemma {:induction false} ZipToMapValue(keys: seq<AccountMerchant>, values: seq<int>, f: AccountMerchant -> int)
    requires |keys| == |values|
    requires forall i :: 0 <= i < |keys| ==> values[i] == f(keys[i])
    ensures forall k :: k in ZipToMap(keys, values) ==> ZipToMap(keys, values)[k] == f(k)
  {
    if keys != [] {
      ZipToMapValue(keys[..|keys| - 1], values[..|values| - 1], f);
    }
  }

  /** The batch of `chunks` starting at `start`. */
  function BatchEnd(start: nat, batchSize: nat, n: nat): (end: nat)
    requires start < n && batchSize > 0
    ensures start < end <= n && end - start <= batchSize
    ensures end - start == batchSize || end == n
  {
    if start + batchSize < n then start + batchSize else n
  }

  /** `GenerateRelevanceListsForIfoodModel._evaluate_account_merchant_tuples`: run `model` on
      consecutive batches of the tuples, concatenate the batch outputs, then build the dictionary.
      The table does not depend on the batch size. */
  method EvaluateAccountMerchantTuples(tuples: seq<AccountMerchant>, batchSize: nat,
                                       model: AccountMerchant -> int) returns (table: map<AccountMerchant, int>)
    requires batchSize > 0
    ensures table == ZipToMap(tuples, MapSeq(model, tuples))
    ensures table.Keys == set t | t in tuples
    ensures forall t :: t in table ==> table[t] == model(t)
  {
    var scores: seq<int> := [];
    var start := 0;
    while start < |tuples|
      invariant 0 <= start <= |tuples|
      invariant scores == MapSeq(model, tuples[..start])
    {
      var end := BatchEnd(start, batchSize, |tuples|);
      var batchScores := MapSeq(model, tuples[start..end]);
      TakeSplit(tuples, start, end);
      MapSeqConcat(model, tuples[..start], tuples[start..end]);
      scores := scores + batchScores;
      start := end;
    }
    TakeAll(tuples);
    table := map[];
    var j := 0;
    while j < |tuples|
      invariant 0 <= j <= |tuples|
      invariant table == ZipToMap(tuples[..j], scores[..j])
      invariant forall t :: t in table ==> table[t] == model(t)
    {
      TakeSnoc(tuples, j);
      TakeSnoc(scores, j);
      table := table[tuples[j] := scores[j]];
      j := j + 1;
    }
    TakeAll(tuples);
    TakeAll(scores);
  }

  // ---- Reconstructed interaction matrix ----

  /** `tuples_df.groupby('account_idx')['merchant_idx'].apply(list)`: one entry per account, in
      ascending account order, holding that account's merchants in row order. */
  datatype Group = Group(account: int, merchants: seq<int>)

  /** The merchants of `account`, in row order. */
  function MerchantsOf(tuples: seq<AccountMerchant>, account: int): (ms: seq<int>)
    ensures forall m :: m in ms <==> (account, m) in tuples
  {
    if tuples == [] then []
    else
      var last := tuples[|tuples| - 1];
      assert tuples == tuples[..|tuples| - 1] + [last];
      MerchantsOf(tuples[..|tuples| - 1], account) + (if last.0 == account then [last.1] else [])
  }

  predicate AscendingAccounts(groups: seq<Group>)
  {
    forall i, j :: 0 <= i < j < |groups| ==> groups[i].account < groups[j].account
  }

  /** The accounts that have a group. */
  function Accounts(groups: seq<Group>): set<int>
  {
    if groups == [] then {} else {groups[0].account} + Accounts(groups[1..])
  }

  lemma {:induction false} AccountIn(groups: seq<Group>, j: int)
    requires 0 <= j < |groups|
    ensures groups[j].account in Accounts(groups)
  {
    if j > 0 {
      AccountIn(groups[1..], j - 1);
    }
  }

  lemma {:induction false} AccountsFrom(groups: seq<Group>, a: int)
    requires AscendingAccounts(groups) && a in Accounts(groups)
    ensures groups != [] && groups[0].account <= a
  {
    if groups[0].account != a {
      AccountsFrom(groups[1..], a);
    }
  }

  /** The merchants grouped under `account`, or [] when there is no such group. */
  function GroupOf(groups: seq<Group>, account: int): seq<int>
  {
    if groups == [] then []
    else if groups[0].account == account then groups[0].merchants
    else GroupOf(groups[1..], account)
  }

  lemma {:induction false} GroupOfBelow(groups: seq<Group>, a: int)
    requires AscendingAccounts(groups)
    requires groups != [] ==> a < groups[0].account
    ensures GroupOf(groups, a) == []
  {
    if groups != [] {
      GroupOfBelow(groups[1..], a);
    }
  }

  /** The (account, merchant) pairs of one group. */
  function GroupPairs(account: int, merchants: seq<int>): set<AccountMerchant>
  {
    if merchants == [] then {} else {(account, merchants[0])} + GroupPairs(account, merchants[1..])
  }

  lemma {:induction false} GroupPairsAppend(account: int, merchants: seq<int>, m: int)
    ensures GroupPairs(account, merchants + [m]) == GroupPairs(account, merchants) + {(account, m)}
  {
    if merchants != [] {
      assert (merchants + [m])[1..] == merchants[1..] + [m];
      GroupPairsAppend(account, merchants[1..], m);
    }
  }

  /** The pairs a list of groups stands for. */
  function PairsOf(groups: seq<Group>): set<AccountMerchant>
  {
    if groups == [] then {} else GroupPairs(groups[0].account, groups[0].merchants) + PairsOf(groups[1..])
  }

  lemma {:induction false} PairsOfConcat(a: seq<Group>, b: seq<Group>)
    ensures PairsOf(a + b) == PairsOf(a) + PairsOf(b)
  {
    if a == [] {
      assert a + b == b;
    } else {
      assert (a + b)[1..] == a[1..] + b;
      PairsOfConcat(a[1..], b);
    }
  }

  /** A group whose account is below every account of an ascending list can head it. */
  lemma AscendingCons(g: Group, rest: seq<Group>)
    requires AscendingAccounts(rest)
    requires forall j :: 0 <= j < |rest| ==> g.account < rest[j].account
    ensures AscendingAccounts([g] + rest)
  {
    var r := [g] + rest;
    forall i, j | 0 <= i < j < |r| ensures r[i].account < r[j].account {
      assert r[j] == rest[j - 1];
      if i > 0 {
        assert r[i] == rest[i - 1];
      }
    }
  }

  /** Adding a row of a later account to the tail keeps every account above the head's. */
  lemma AddRowAbove(groups: seq<Group>, t: AccountMerchant, rest: seq<Group>)
    requires groups != [] && AscendingAccounts(groups) && groups[0].account < t.0
    requires Accounts(rest) == Accounts(groups[1..]) + {t.0}
    ensures forall j :: 0 <= j < |rest| ==> groups[0].account < rest[j].account
  {
    forall j | 0 <= j < |rest| ensures groups[0].account < rest[j].account {
      AccountIn(rest, j);
      if rest[j].account != t.0 {
        AccountsFrom(groups[1..], rest[j].account);
      }
    }
  }

  /** Adds one row to the groups. */
  function AddRow(groups: seq<Group>, t: AccountMerchant): (r: seq<Group>)
    requires AscendingAccounts(groups)
    ensures AscendingAccounts(r)
    ensures Accounts(r) == Accounts(groups) + {t.0}
    ensures PairsOf(r) == PairsOf(groups) + {t}
  {
    if groups == [] then
      assert GroupPairs(t.0, [t.1]) == {t} by { assert [t.1][1..] == []; }
      assert [Group(t.0, [t.1])][1..] == [];
      [Group(t.0, [t.1])]
    else if groups[0].account == t.0 then
      var g := Group(t.0, groups[0].merchants + [t.1]);
      GroupPairsAppend(t.0, groups[0].merchants, t.1);
      assert ([g] + groups[1..])[1..] == groups[1..];
      [g] + groups[1..]
    else if t.0 < groups[0].account then
      assert ([Group(t.0, [t.1])] + groups)[1..] == groups;
      assert GroupPairs(t.0, [t.1]) == {t} by { assert [t.1][1..] == []; }
      [Group(t.0, [t.1])] + groups
    else
      var rest := AddRow(groups[1..], t);
      assert ([groups[0]] + rest)[1..] == rest;
      AddRowAbove(groups, t, rest);
      AscendingCons(groups[0], rest);
      [groups[0]] + rest
  }

  /** Adding a row appends its merchant to its account's group and leaves the other groups alone. */
  lemma {:induction false} AddRowGroupOf(groups: seq<Group>, t: AccountMerchant, a: int)
    requires AscendingAccounts(groups)
    ensures GroupOf(AddRow(groups, t), a) == GroupOf(groups, a) + (if a == t.0 then [t.1] else [])
  {
    if groups == [] {
    } else if groups[0].account == t.0 {
    } else if t.0 < groups[0].account {
      assert ([Group(t.0, [t.1])] + groups)[1..] == groups;
      GroupOfBelow(groups, t.0);
    } else {
      assert ([groups[0]] + AddRow(groups[1..], t))[1..] == AddRow(groups[1..], t);
      AddRowGroupOf(groups[1..], t, a);
    }
  }

  /** The groupby: ascending distinct accounts, each with its merchants in row order, and exactly
      the pairs of the tuples table. */
  function GroupByAccount(tuples: seq<AccountMerchant>): (groups: seq<Group>)
    ensures AscendingAccounts(groups)
    ensures forall a :: GroupOf(groups, a) == MerchantsOf(tuples, a)
    ensures PairsOf(groups) == set t | t in tuples
  {
    if tuples == [] then []
    else
      var last := tuples[|tuples| - 1];
      var before := tuples[..|tuples| - 1];
      var prefix := GroupByAccount(before);
      assert tuples == before + [last];
      assert (set t | t in tuples) == (set t | t in before) + {last};
      assert forall a :: GroupOf(AddRow(prefix, last), a) == MerchantsOf(tuples, a) by {
        forall a ensures GroupOf(AddRow(prefix, last), a) == MerchantsOf(tuples, a) {
          AddRowGroupOf(prefix, last, a);
        }
      }
      AddRow(prefix, last)
  }

  /** numpy's `row[m]`: negative indices count from the end; outside [-|row|, |row|) it raises. */
  function Gather(row: seq<int>, m: int): int
    requires InRange(m, |row|)
  {
    row[Wrap(m, |row|)]
  }

  /** The `IndexError` of the fancy-indexing gather. */
  datatype GatherError = IndexError(account: int, merchant: int)

  /** One entry of the flattened batch: the row of the batch output (`merchants_tensor_ids`), the
      account (`account_ids`) and the merchant column (`merchants_lists`). */
  datatype Entry = Entry(row: nat, account: int, merchant: int)

  function EntryKey(e: Entry): AccountMerchant { (e.account, e.merchant) }

  function EntryPairs(es: seq<Entry>): set<AccountMerchant>
  {
    if es == [] then {} else {EntryKey(es[0])} + EntryPairs(es[1..])
  }

  lemma {:induction false} EntryPairsConcat(a: seq<Entry>, b: seq<Entry>)
    ensures EntryPairs(a + b) == EntryPairs(a) + EntryPairs(b)
  {
    if a == [] {
      assert a + b == b;
    } else {
      assert (a + b)[1..] == a[1..] + b;
      EntryPairsConcat(a[1..], b);
    }
  }

  lemma {:induction false} EntryPairsMember(es: seq<Entry>, t: AccountMerchant)
    requires t in EntryPairs(es)
    ensures exists i :: 0 <= i < |es| && EntryKey(es[i]) == t
  {
    if EntryKey(es[0]) != t {
      EntryPairsMember(es[1..], t);
      var i :| 0 <= i < |es[1..]| && EntryKey(es[1..][i]) == t;
      assert EntryKey(es[i + 1]) == t;
    }
  }

  lemma {:induction false} EntryPairsHas(es: seq<Entry>, i: int)
    requires 0 <= i < |es|
    ensures EntryKey(es[i]) in EntryPairs(es)
  {
    if i > 0 {
      EntryPairsHas(es[1..], i - 1);
    }
  }

  /** Lines 137-139 for one group: its row of the batch output, its account, its merchants. */
  function GroupEntries(row: nat, account: int, merchants: seq<int>): (es: seq<Entry>)
    ensures |es| == |merchants|
    ensures forall i :: 0 <= i < |es| ==> es[i] == Entry(row, account, merchants[i])
    ensures EntryPairs(es) == GroupPairs(account, merchants)
  {
    if merchants == [] then []
    else [Entry(row, account, merchants[0])] + GroupEntries(row, account, merchants[1..])
  }

  /** Each entry points at a group of the batch (its row, counted from `offset`) and carries that
      group's account. */
  predicate EntriesOfBatch(es: seq<Entry>, batch: seq<Group>, offset: nat)
  {
    forall i :: 0 <= i < |es| ==> offset <= es[i].row < offset + |batch| && batch[es[i].row - offset].account == es[i].account
  }

  /** The entries of the first group followed by entries of the remaining groups, one row further
      on, are entries of the whole batch. */
  lemma EntriesOfBatchCons(head: seq<Entry>, tail: seq<Entry>, batch: seq<Group>, offset: nat)
    requires batch != []
    requires forall i :: 0 <= i < |head| ==> head[i].row == offset && head[i].account == batch[0].account
    requires EntriesOfBatch(tail, batch[1..], offset + 1)
    ensures EntriesOfBatch(head + tail, batch, offset)
  {
    var es := head + tail;
    forall i | 0 <= i < |es|
      ensures offset <= es[i].row < offset + |batch| && batch[es[i].row - offset].account == es[i].account
    {
      if i < |head| {
        assert es[i] == head[i];
      } else {
        var e := tail[i - |head|];
        assert es[i] == e;
        assert batch[e.row - offset] == batch[1..][e.row - (offset + 1)];
      }
    }
  }

  /** The three parallel tuples of lines 136-139, as one sequence of entries. */
  function Flatten(batch: seq<Group>, offset: nat): (es: seq<Entry>)
    ensures EntriesOfBatch(es, batch, offset)
    ensures EntryPairs(es) == PairsOf(batch)
  {
    if batch == [] then []
    else
      var head := GroupEntries(offset, batch[0].account, batch[0].merchants);
      var tail := Flatten(batch[1..], offset + 1);
      EntryPairsConcat(head, tail);
      EntriesOfBatchCons(head, tail, batch, offset);
      head + tail
  }

  /** The first entry whose merchant column lies outside its dense row, if any. */
  function FirstOutOfRange(entries: seq<Entry>, outputs: seq<seq<int>>): (r: Option<Entry>)
    requires forall i :: 0 <= i < |entries| ==> entries[i].row < |outputs|
    ensures r.None? <==> forall i :: 0 <= i < |entries| ==> InRange(entries[i].merchant, |outputs[entries[i].row]|)
    ensures r.Some? ==> exists i :: (0 <= i < |entries| && r.value == entries[i] &&
                                     !InRange(entries[i].merchant, |outputs[entries[i].row]|) &&
                                     forall j :: 0 <= j < i ==> InRange(entries[j].merchant, |outputs[entries[j].row]|))
  {
    if entries == [] then None
    else if !InRange(entries[0].merchant, |outputs[entries[0].row]|) then Some(entries[0])
    else
      match FirstOutOfRange(entries[1..], outputs)
      case None => None
      case Some(e) =>
        assert exists i :: (0 <= i < |entries| && e == entries[i] &&
                            !InRange(entries[i].merchant, |outputs[entries[i].row]|) &&
                            forall j :: 0 <= j < i ==> InRange(entries[j].merchant, |outputs[entries[j].row]|)) by {
          var i :| 0 <= i < |entries[1..]| && e == entries[1..][i] &&
            !InRange(entries[1..][i].merchant, |outputs[entries[1..][i].row]|) &&
            forall j :: 0 <= j < i ==> InRange(entries[1..][j].merchant, |outputs[entries[1..][j].row]|);
          assert entries[i + 1] == entries[1..][i];
          forall j | 0 <= j < i + 1 ensures InRange(entries[j].merchant, |outputs[entries[j].row]|) {
            if j > 0 {
              assert entries[j] == entries[1..][j - 1];
            }
          }
        }
        Some(e)
  }

  /** The score an in-range pair must get: its merchant column of the account's dense row. */
  function Expected(reconstruct: int -> seq<int>): AccountMerchant -> int
  {
    (t: AccountMerchant) => if InRange(t.1, |reconstruct(t.0)|) then Gather(reconstruct(t.0), t.1) else 0
  }

  /** The dictionary every reconstructed-mode table must equal on success. */
  ghost predicate GatheredTable(table: map<AccountMerchant, int>, pairs: set<AccountMerchant>,
                                reconstruct: int -> seq<int>)
  {
    && table.Keys == pairs
    && forall t :: t in table ==> InRange(t.1, |reconstruct(t.0)|) && table[t] == Gather(reconstruct(t.0), t.1)
  }

  lemma {:induction false} KeysOfEntries(es: seq<Entry>)
    ensures (set k | k in MapSeq(EntryKey, es)) == EntryPairs(es)
  {
    var keys := MapSeq(EntryKey, es);
    forall k | k in keys ensures k in EntryPairs(es) {
      var i :| 0 <= i < |keys| && keys[i] == k;
      EntryPairsHas(es, i);
    }
    forall k | k in EntryPairs(es) ensures k in keys {
      EntryPairsMember(es, k);
      var i :| 0 <= i < |es| && EntryKey(es[i]) == k;
      assert keys[i] == k;
    }
  }

  /** One dense output row per group of the batch: `reconstruct` of its account. */
  function BatchOutputs(batch: seq<Group>, reconstruct: int -> seq<int>): (outputs: seq<seq<int>>)
    ensures |outputs| == |batch|
    ensures forall i :: 0 <= i < |batch| ==> outputs[i] == reconstruct(batch[i].account)
  {
    MapSeq((g: Group) => reconstruct(g.account), batch)
  }

  /** No entry's merchant column lies outside its dense row. */
  predicate EntriesInRange(entries: seq<Entry>, outputs: seq<seq<int>>)
    requires forall i :: 0 <= i < |entries| ==> entries[i].row < |outputs|
  {
    forall i :: 0 <= i < |entries| ==> InRange(entries[i].merchant, |outputs[entries[i].row]|)
  }

  /** Every pair's merchant column lies inside its account's dense row. */
  predicate PairsInRange(pairs: set<AccountMerchant>, reconstruct: int -> seq<int>)
  {
    forall t :: t in pairs ==> InRange(t.1, |reconstruct(t.0)|)
  }

  /** Every pair of the batch is in range exactly when no entry of the gather is out of range. */
  lemma BatchInRange(batch: seq<Group>, reconstruct: int -> seq<int>)
    ensures EntriesInRange(Flatten(batch, 0), BatchOutputs(batch, reconstruct)) <==> PairsInRange(PairsOf(batch), reconstruct)
  {
    var outputs := BatchOutputs(batch, reconstruct);
    var entries := Flatten(batch, 0);
    if EntriesInRange(entries, outputs) {
      forall t | t in PairsOf(batch) ensures InRange(t.1, |reconstruct(t.0)|) {
        EntryPairsMember(entries, t);
        var i :| 0 <= i < |entries| && EntryKey(entries[i]) == t;
        assert outputs[entries[i].row] == reconstruct(entries[i].account);
      }
    } else {
      var i :| 0 <= i < |entries| && !InRange(entries[i].merchant, |outputs[entries[i].row]|);
      EntryPairsHas(entries, i);
      assert outputs[entries[i].row] == reconstruct(entries[i].account);
      assert !InRange(EntryKey(entries[i]).1, |reconstruct(EntryKey(entries[i]).0)|);
    }
  }

  /** The entry the gather stops at is a pair of the batch outside its account's dense row. */
  lemma OutOfRangeInBatch(batch: seq<Group>, reconstruct: int -> seq<int>, e: Entry)
    requires FirstOutOfRange(Flatten(batch, 0), BatchOutputs(batch, reconstruct)) == Some(e)
    ensures EntryKey(e) in PairsOf(batch) && !InRange(e.merchant, |reconstruct(e.account)|)
  {
    var outputs := BatchOutputs(batch, reconstruct);
    var entries := Flatten(batch, 0);
    var i :| 0 <= i < |entries| && e == entries[i] && !InRange(entries[i].merchant, |outputs[entries[i].row]|);
    EntryPairsHas(entries, i);
  }

  /** The gathered score of each entry: its merchant column of its dense row. */
  function EntryScores(entries: seq<Entry>, outputs: seq<seq<int>>): (scores: seq<int>)
    requires forall i :: 0 <= i < |entries| ==> entries[i].row < |outputs| && InRange(entries[i].merchant, |outputs[entries[i].row]|)
    ensures |scores| == |entries|
  {
    seq(|entries|, k requires 0 <= k < |entries| => Gather(outputs[entries[k].row], entries[k].merchant))
  }

  /** With no entry out of range, the dictionary of the gathered scores is the batch's table. */
  lemma GatheredBatch(batch: seq<Group>, reconstruct: int -> seq<int>)
    requires FirstOutOfRange(Flatten(batch, 0), BatchOutputs(batch, reconstruct)).None?
    ensures
      var entries := Flatten(batch, 0);
      GatheredTable(ZipToMap(MapSeq(EntryKey, entries), EntryScores(entries, BatchOutputs(batch, reconstruct))),
                    PairsOf(batch), reconstruct)
  {
    var outputs := BatchOutputs(batch, reconstruct);
    var entries := Flatten(batch, 0);
    var keys := MapSeq(EntryKey, entries);
    var scores := EntryScores(entries, outputs);
    KeysOfEntries(entries);
    BatchInRange(batch, reconstruct);
    ZipToMapValue(keys, scores, Expected(reconstruct));
  }

  /** Lines 134-144 for one batch of groups: one dense output row per account of the batch, the
      fancy-indexing gather `batch_np_tensors[[merchants_tensor_ids, merchants_lists]]`, and the
      dictionary of the batch's pairs. */
  function GatherBatch(batch: seq<Group>, reconstruct: int -> seq<int>): (r: Result<map<AccountMerchant, int>, GatherError>)
    ensures r.Success? <==> forall t :: t in PairsOf(batch) ==> InRange(t.1, |reconstruct(t.0)|)
    ensures r.Success? ==> GatheredTable(r.value, PairsOf(batch), reconstruct)
    ensures r.Failure? ==> (r.error.account, r.error.merchant) in PairsOf(batch) &&
                           !InRange(r.error.merchant, |reconstruct(r.error.account)|)
  {
    var outputs := BatchOutputs(batch, reconstruct);
    var entries := Flatten(batch, 0);
    BatchInRange(batch, reconstruct);
    match FirstOutOfRange(entries, outputs)
    case Some(e) =>
      assert EntryKey(e) in PairsOf(batch) by { OutOfRangeInBatch(batch, reconstruct, e); }
      Failure(IndexError(e.account, e.merchant))
    case None =>
      assert GatheredTable(ZipToMap(MapSeq(EntryKey, entries), EntryScores(entries, outputs)), PairsOf(batch), reconstruct) by {
        GatheredBatch(batch, reconstruct);
      }
      Success(ZipToMap(MapSeq(EntryKey, entries), EntryScores(entries, outputs)))
  }

  /** A batch of consecutive groups: its pairs are pairs of all groups, and the groups before
      its end are those before its start followed by the batch. */
  lemma BatchWithin(groups: seq<Group>, start: int, end: int)
    requires 0 <= start <= end <= |groups|
    ensures PairsOf(groups[start..end]) <= PairsOf(groups)
    ensures groups[..end] == groups[..start] + groups[start..end]
  {
    TakeSplit(groups, start, end);
    SliceSplit(groups, start, end);
    PairsOfConcat(groups[..start] + groups[start..end], groups[end..]);
    PairsOfConcat(groups[..start], groups[start..end]);
  }

  /** Merging the table of a further batch into the tables of the earlier ones gives the table
      of all of them. */
  lemma GatheredMerge(relDict: map<AccountMerchant, int>, done: seq<Group>, batch: seq<Group>,
                      table: map<AccountMerchant, int>, reconstruct: int -> seq<int>)
    requires GatheredTable(relDict, PairsOf(done), reconstruct)
    requires GatheredTable(table, PairsOf(batch), reconstruct)
    ensures GatheredTable(relDict + table, PairsOf(done + batch), reconstruct)
  {
    PairsOfConcat(done, batch);
  }

  /** `GenerateReconstructedInteractionMatrix._evaluate_account_merchant_tuples`: group the tuples
      by account, run `reconstruct` (the model applied to the account's interaction row) on
      consecutive batches of accounts, gather each batch's requested entries and merge them into
      `rel_dict`. A batch whose gather raises aborts the whole build. */
  method ReconstructedScoreTable(tuples: seq<AccountMerchant>, batchSize: nat,
                                 reconstruct: int -> seq<int>) returns (r: Result<map<AccountMerchant, int>, GatherError>)
    requires batchSize > 0
    ensures r.Success? <==> forall t :: t in tuples ==> InRange(t.1, |reconstruct(t.0)|)
    ensures r.Success? ==> r.value.Keys == set t | t in tuples
    ensures r.Success? ==> forall t :: t in r.value ==> InRange(t.1, |reconstruct(t.0)|) && r.value[t] == Gather(reconstruct(t.0), t.1)
    ensures r.Failure? ==> (r.error.account, r.error.merchant) in tuples &&
                           !InRange(r.error.merchant, |reconstruct(r.error.account)|)
  {
    var groups := GroupByAccount(tuples);
    var relDict: map<AccountMerchant, int> := map[];
    var start := 0;
    while start < |groups|
      invariant 0 <= start <= |groups|
      invariant GatheredTable(relDict, PairsOf(groups[..start]), reconstruct)
    {
      var end := BatchEnd(start, batchSize, |groups|);
      var batch := groups[start..end];
      BatchWithin(groups, start, end);
      var batchTable := GatherBatch(batch, reconstruct);
      if batchTable.Failure? {
        return Failure(batchTable.error);
      }
      GatheredMerge(relDict, groups[..start], batch, batchTable.value, reconstruct);
      relDict := relDict + batchTable.value;
      start := end;
    }
    TakeAll(groups);
    r := Success(relDict);
  }

  // ---- Popularity scores ----

  /** A row of the interactions table: how many times `account` bought from `merchant`. */
  datatype Interaction = Interaction(account: int, merchant: int, buys: int)

  /** The sum of `buys` over the rows of `merchant`. */
  function SumBuys(rows: seq<Interaction>, merchant: int): int
  {
    if rows == [] then 0
    else (if rows[0].merchant == merchant then rows[0].buys else 0) + SumBuys(rows[1..], merchant)
  }

  /** `interactions_df.groupby("merchant_idx")["buys"].sum()` as a dictionary: a key for every
      merchant that has a row and no other, holding the sum of its `buys`. */
  function PopularityScores(rows: seq<Interaction>): (scores: map<int, int>)
    ensures scores.Keys == set r | r in rows :: r.merchant
    ensures forall m :: m in scores ==> scores[m] == SumBuys(rows, m)
  {
    if rows == [] then map[]
    else
      var rest := PopularityScores(rows[1..]);
      var m := rows[0].merchant;
      assert (set r | r in rows :: r.merchant) == (set r | r in rows[1..] :: r.merchant) + {m} by {
        assert rows == [rows[0]] + rows[1..];
      }
      if m in rest then rest[m := rows[0].buys + rest[m]]
      else
        SumBuysAbsent(rows[1..], m);
        rest[m := rows[0].buys]
  }

  lemma {:induction false} SumBuysAbsent(rows: seq<Interaction>, merchant: int)
    requires forall r :: r in rows ==> r.merchant != merchant
    ensures SumBuys(rows, merchant) == 0
  {
    if rows != [] {
      SumBuysAbsent(rows[1..], merchant);
    }
  }

  /** Taking one row out of the sum and adding it back changes nothing. */
  lemma SumBuysPick(b: seq<Interaction>, k: int, merchant: int)
    requires 0 <= k < |b|
    ensures SumBuys(b, merchant) == (if b[k].merchant == merchant then b[k].buys else 0) + SumBuys(b[..k] + b[k + 1..], merchant)
  {
    assert b == (b[..k] + [b[k]]) + b[k + 1..];
    SumBuysConcat(b[..k] + [b[k]], b[k + 1..], merchant);
    SumBuysConcat(b[..k], [b[k]], merchant);
    SumBuysConcat(b[..k], b[k + 1..], merchant);
  }

  lemma {:induction false} SumBuysConcat(a: seq<Interaction>, b: seq<Interaction>, merchant: int)
    ensures SumBuys(a + b, merchant) == SumBuys(a, merchant) + SumBuys(b, merchant)
  {
    if a == [] {
      assert a + b == b;
    } else {
      assert (a + b)[1..] == a[1..] + b;
      SumBuysConcat(a[1..], b, merchant);
    }
  }

  /** The sum is a groupby aggregate: it does not depend on the order of the interaction rows. */
  lemma {:induction false} SumBuysOrderInvariant(a: seq<Interaction>, b: seq<Interaction>, merchant: int)
    requires multiset(a) == multiset(b)
    ensures SumBuys(a, merchant) == SumBuys(b, merchant)
  {
    if a == [] {
      assert |multiset(b)| == 0;
      assert b == [];
    } else {
      var x := a[0];
      assert x in multiset(b);
      var k :| 0 <= k < |b| && b[k] == x;
      RemoveMatching(a, b, k);
      SumBuysOrderInvariant(a[1..], b[..k] + b[k + 1..], merchant);
      SumBuysPick(b, k, merchant);
    }
  }

  /** Two runs over the same interaction rows, in any order, give the same popularity table. */
  lemma PopularityScoresOrderInvariant(a: seq<Interaction>, b: seq<Interaction>)
    requires multiset(a) == multiset(b)
    ensures PopularityScores(a) == PopularityScores(b)
  {
    var pa, pb := PopularityScores(a), PopularityScores(b);
    forall r ensures r in a <==> r in b {
      assert r in a <==> r in multiset(a);
      assert r in b <==> r in multiset(b);
    }
    assert pa.Keys == pb.Keys;
    forall m | m in pa ensures pa[m] == pb[m] {
      SumBuysOrderInvariant(a, b, m);
    }
  }
}
