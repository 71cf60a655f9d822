/** `preprocess_metadata_data_frame` of recommendation/data.py: the metadata frame is indexed by
    its item column and sorted by it, the sorted index must be exactly 0, 1, ..., n - 1, and every
    metadata column becomes one array whose entry i belongs to the item with index i. */
module Metadata {
  import opened Wrappers
  import opened Seqs
  import opened Config

  /** A metadata frame: `items` is its item column (row p holds item `items[p]`), `columns` its
      other columns by name, one cell per row. */
  datatype MetadataFrame = MetadataFrame(items: seq<int>, columns: map<string, seq<Cell>>)

  predicate WellFormed(frame: MetadataFrame)
  {
    forall name :: name in frame.columns ==> |frame.columns[name]| == |frame.items|
  }

  datatype MetadataError = NotContiguous | MissingColumn(name: string)

  // ---- sort_index: row positions ordered by item ----

  /** The index value of row `p` (0 outside the frame, where it is never used). */
  function Key(items: seq<int>, p: int): int
  {
    if 0 <= p < |items| then items[p] else 0
  }

  ghost predicate SortedByKey(items: seq<int>, ps: seq<int>)
  {
    forall i, j :: 0 <= i < j < |ps| ==> Key(items, ps[i]) <= Key(items, ps[j])
  }

  /** A position whose item is at most every item of a sorted list can head it. */
  lemma SortedByKeyCons(items: seq<int>, x: int, ps: seq<int>)
    requires SortedByKey(items, ps)
    requires forall j :: 0 <= j < |ps| ==> Key(items, x) <= Key(items, ps[j])
    ensures SortedByKey(items, [x] + ps)
  {
    var r := [x] + ps;
    forall i, j | 0 <= i < j < |r| ensures Key(items, r[i]) <= Key(items, r[j]) {
      if i == 0 {
        assert r[j] == ps[j - 1];
      } else {
        assert r[i] == ps[i - 1] && r[j] == ps[j - 1];
      }
    }
  }

  /** A position whose item is at most the head's can head a sorted list. */
  lemma SortedByKeyPrepend(items: seq<int>, x: int, ps: seq<int>)
    requires SortedByKey(items, ps)
    requires ps == [] || Key(items, x) <= Key(items, ps[0])
    ensures SortedByKey(items, [x] + ps)
  {
    forall j | 0 <= j < |ps| ensures Key(items, x) <= Key(items, ps[j]) {
      if j > 0 {
        assert Key(items, ps[0]) <= Key(items, ps[j]);
      }
    }
    SortedByKeyCons(items, x, ps);
  }

  /** Inserting a position whose item exceeds the head's into the tail of a sorted list leaves
      every item at least the head's. */
  lemma HeadBoundsInsertByKey(items: seq<int>, p: int, ps: seq<int>, rest: seq<int>)
    requires ps != [] && SortedByKey(items, ps) && Key(items, ps[0]) < Key(items, p)
    requires multiset(rest) == multiset(ps[1..]) + multiset{p}
    ensures forall j :: 0 <= j < |rest| ==> Key(items, ps[0]) <= Key(items, rest[j])
  {
    forall j | 0 <= j < |rest| ensures Key(items, ps[0]) <= Key(items, rest[j]) {
      assert rest[j] in multiset(rest);
      if rest[j] != p {
        assert rest[j] in multiset(ps[1..]);
        var h :| 0 <= h < |ps[1..]| && ps[1..][h] == rest[j];
        assert ps[h + 1] == rest[j];
      }
    }
  }

  function InsertByKey(items: seq<int>, p: int, ps: seq<int>): (r: seq<int>)
    requires SortedByKey(items, ps)
    ensures |r| == |ps| + 1
    ensures multiset(r) == multiset(ps) + multiset{p}
    ensures SortedByKey(items, r)
  {
    if ps == [] || Key(items, p) <= Key(items, ps[0]) then
      SortedByKeyPrepend(items, p, ps);
      [p] + ps
    else
      assert multiset(ps) == multiset{ps[0]} + multiset(ps[1..]) by { assert ps == [ps[0]] + ps[1..]; }
      var rest := InsertByKey(items, p, ps[1..]);
      HeadBoundsInsertByKey(items, p, ps, rest);
      SortedByKeyCons(items, ps[0], rest);
      [ps[0]] + rest
  }

  /** The row positions `ps` ordered by their item (ties in any order). */
  function SortByKey(items: seq<int>, ps: seq<int>): (r: seq<int>)
    ensures |r| == |ps| && multiset(r) == multiset(ps)
    ensures SortedByKey(items, r)
  {
    if ps == [] then []
    else
      assert ps == [ps[0]] + ps[1..];
      InsertByKey(items, ps[0], SortByKey(items, ps[1..]))
  }

  /** The row order after `sort_index()`: a permutation of the row positions, items ascending. */
  function SortIndex(items: seq<int>): (perm: seq<int>)
    ensures |perm| == |items| && multiset(perm) == multiset(Range(|items|))
    ensures forall i :: 0 <= i < |perm| ==> 0 <= perm[i] < |items|
    ensures SortedByKey(items, perm)
  {
    var perm := SortByKey(items, Range(|items|));
    assert forall i :: 0 <= i < |perm| ==> 0 <= perm[i] < |items| by {
      forall i | 0 <= i < |perm| ensures 0 <= perm[i] < |items| {
        assert perm[i] in multiset(Range(|items|));
        RangeMultiplicity(|items|, perm[i]);
      }
    }
    perm
  }

  /** The sorted item index. */
  function SortedItems(items: seq<int>): (r: seq<int>)
    ensures |r| == |items|
    ensures forall i :: 0 <= i < |r| ==> r[i] == items[SortIndex(items)[i]]
  {
    MapSeq((p: int) => Key(items, p), SortIndex(items))
  }

  /** Line 36: the sorted index equals `np.arange(0, n)` element by element. */
  predicate Contiguous(items: seq<int>)
  {
    SortedItems(items) == Range(|items|)
  }

  /** The sorted index holds the same items as the frame. */
  lemma SortedItemsMultiset(items: seq<int>)
    ensures multiset(SortedItems(items)) == multiset(items)
  {
    var key := (p: int) => Key(items, p);
    MapMultiset(key, SortIndex(items), Range(|items|));
    assert MapSeq(key, Range(|items|)) == items;
  }

  /** The check passes exactly when the items are a permutation of 0, 1, ..., n - 1. */
  lemma ContiguousIffPermutation(items: seq<int>)
    ensures Contiguous(items) <==> multiset(items) == multiset(Range(|items|))
  {
    SortedItemsMultiset(items);
    if multiset(items) == multiset(Range(|items|)) {
      var le := (x: int, y: int) => x <= y;
      assert SortedBy(le, SortedItems(items)) by {
        forall i, j | 0 <= i < j < |items| ensures le(SortedItems(items)[i], SortedItems(items)[j]) {
          assert Key(items, SortIndex(items)[i]) <= Key(items, SortIndex(items)[j]);
        }
      }
      assert SortedBy(le, Range(|items|));
      SortedUnique(le, SortedItems(items), Range(|items|));
    }
  }

  /** Under the check, row `p` is the row that sorts to position `items[p]`, and no other row
      holds that item. */
  lemma RowOfItem(items: seq<int>, p: int)
    requires Contiguous(items)
    requires 0 <= p < |items|
    ensures 0 <= items[p] < |items| && SortIndex(items)[items[p]] == p
    ensures forall q :: 0 <= q < |items| && items[q] == items[p] ==> q == p
  {
    var n := |items|;
    ContiguousIffPermutation(items);
    assert items[p] in multiset(Range(n));
    RangeMultiplicity(n, items[p]);
    forall q | 0 <= q < n && items[q] == items[p] ensures q == p {
      if q < p {
        TwoPositions(items, q, p);
      } else if p < q {
        TwoPositions(items, p, q);
      }
    }
    var q := SortIndex(items)[items[p]];
    assert SortedItems(items)[items[p]] == items[p];
    assert items[q] == items[p];
  }

  // ---- the per-column arrays ----

  /** `metadata_data_frame[name]`: the item column is still a column (`drop=False`). */
  function ColumnOf(frame: MetadataFrame, itemColumn: string, name: string): (r: Option<seq<Cell>>)
    ensures r.Some? <==> name == itemColumn || name in frame.columns
    ensures r.Some? && WellFormed(frame) ==> |r.value| == |frame.items|
  {
    if name == itemColumn then Some(MapSeq((i: int) => Int(i), frame.items))
    else if name in frame.columns then Some(frame.columns[name])
    else None
  }

  /** The values of a column in sorted row order. */
  function Reorder(values: seq<Cell>, perm: seq<int>): (r: seq<Cell>)
    requires forall i :: 0 <= i < |perm| ==> 0 <= perm[i] < |values|
    ensures |r| == |perm| && forall i :: 0 <= i < |r| ==> r[i] == values[perm[i]]
  {
    seq(|perm|, i requires 0 <= i < |perm| => values[perm[i]])
  }

  /** `arr` holds, at position `items[p]`, the value `values[p]` of row `p`. */
  predicate ByItem(items: seq<int>, values: seq<Cell>, arr: seq<Cell>)
    requires |values| == |items|
  {
    && |arr| == |items|
    && forall p :: 0 <= p < |items| ==> 0 <= items[p] < |items| && arr[items[p]] == values[p]
  }

  /** Under the check, the sorted column is indexed by item. */
  lemma ReorderByItem(items: seq<int>, values: seq<Cell>)
    requires Contiguous(items) && |values| == |items|
    ensures ByItem(items, values, Reorder(values, SortIndex(items)))
  {
    forall p | 0 <= p < |items|
      ensures 0 <= items[p] < |items| && Reorder(values, SortIndex(items))[items[p]] == values[p]
    {
      RowOfItem(items, p);
    }
  }

  /** Every one of `columns` is a column of the frame. */
  predicate AllFound(frame: MetadataFrame, itemColumn: string, columns: seq<Column>)
  {
    forall h :: 0 <= h < |columns| ==> ColumnOf(frame, itemColumn, columns[h].name).Some?
  }

  /** Every entry of the table is its column of the frame in sorted row order. */
  ghost predicate AllStored(frame: MetadataFrame, itemColumn: string, perm: seq<int>, table: map<string, seq<Cell>>)
    requires WellFormed(frame)
    requires forall i :: 0 <= i < |perm| ==> 0 <= perm[i] < |frame.items|
  {
    forall name :: name in table ==>
      ColumnOf(frame, itemColumn, name).Some? && table[name] == Reorder(ColumnOf(frame, itemColumn, name).value, perm)
  }

  /** What the loop of lines 39-42 has built after the metadata columns `columns`: every one was
      found, and the table holds exactly their names, each column in sorted row order. */
  ghost predicate Collected(frame: MetadataFrame, itemColumn: string, columns: seq<Column>, perm: seq<int>,
                            table: map<string, seq<Cell>>)
    requires WellFormed(frame)
    requires forall i :: 0 <= i < |perm| ==> 0 <= perm[i] < |frame.items|
  {
    && AllFound(frame, itemColumn, columns)
    && (forall name :: name in table <==> name in Names(columns))
    && AllStored(frame, itemColumn, perm, table)
  }

  lemma AllFoundStep(frame: MetadataFrame, itemColumn: string, columns: seq<Column>, c: Column)
    requires AllFound(frame, itemColumn, columns) && ColumnOf(frame, itemColumn, c.name).Some?
    ensures AllFound(frame, itemColumn, columns + [c])
  {
    var more := columns + [c];
    forall h | 0 <= h < |more| ensures ColumnOf(frame, itemColumn, more[h].name).Some? {
      if h < |columns| {
        assert more[h] == columns[h];
      }
    }
  }

  lemma AllStoredStep(frame: MetadataFrame, itemColumn: string, perm: seq<int>, table: map<string, seq<Cell>>, name: string)
    requires WellFormed(frame)
    requires forall i :: 0 <= i < |perm| ==> 0 <= perm[i] < |frame.items|
    requires AllStored(frame, itemColumn, perm, table) && ColumnOf(frame, itemColumn, name).Some?
    ensures AllStored(frame, itemColumn, perm, table[name := Reorder(ColumnOf(frame, itemColumn, name).value, perm)])
  {
  }

  /** One more column found and stored keeps the table collected. */
  lemma CollectedStep(frame: MetadataFrame, itemColumn: string, columns: seq<Column>, perm: seq<int>,
                      table: map<string, seq<Cell>>, c: Column)
    requires WellFormed(frame)
    requires forall i :: 0 <= i < |perm| ==> 0 <= perm[i] < |frame.items|
    requires Collected(frame, itemColumn, columns, perm, table)
    requires ColumnOf(frame, itemColumn, c.name).Some?
    ensures Collected(frame, itemColumn, columns + [c], perm,
                      table[c.name := Reorder(ColumnOf(frame, itemColumn, c.name).value, perm)])
  {
    AllFoundStep(frame, itemColumn, columns, c);
    AllStoredStep(frame, itemColumn, perm, table, c.name);
    NamesConcat(columns, [c]);
  }

  /** The loop of lines 39-42: each metadata column in sorted row order, failing on the first
      column the frame lacks. */
  method SortedColumns(frame: MetadataFrame, itemColumn: string, metadataColumns: seq<Column>, perm: seq<int>)
    returns (r: Result<map<string, seq<Cell>>, MetadataError>)
    requires WellFormed(frame)
    requires forall i :: 0 <= i < |perm| ==> 0 <= perm[i] < |frame.items|
    ensures r.Success? <==> forall k :: 0 <= k < |metadataColumns| ==> ColumnOf(frame, itemColumn, metadataColumns[k].name).Some?
    ensures r.Failure? ==> r.error.MissingColumn? && r.error.name in Names(metadataColumns) && ColumnOf(frame, itemColumn, r.error.name).None?
    ensures r.Success? ==> forall name :: name in r.value <==> name in Names(metadataColumns)
    ensures r.Success? ==> forall name :: name in r.value ==>
      ColumnOf(frame, itemColumn, name).Some? && r.value[name] == Reorder(ColumnOf(frame, itemColumn, name).value, perm)
  {
    var embeddings: map<string, seq<Cell>> := map[];
    for k := 0 to |metadataColumns|
      invariant Collected(frame, itemColumn, metadataColumns[..k], perm, embeddings)
    {
      var name := metadataColumns[k].name;
      var values := ColumnOf(frame, itemColumn, name);
      if values.None? {
        NameListed(metadataColumns, k);
        return Failure(MissingColumn(name));
      }
      CollectedStep(frame, itemColumn, metadataColumns[..k], perm, embeddings, metadataColumns[k]);
      TakeSnoc(metadataColumns, k);
      embeddings := embeddings[name := Reorder(values.value, perm)];
    }
    assert metadataColumns[..|metadataColumns|] == metadataColumns;
    return Success(embeddings);
  }

  /** Lines 32-44. Raises (a `Failure`) when the index is not contiguous, before any column is
      read, and on the first metadata column the frame lacks; otherwise one array per metadata
      column whose entry `items[p]` is the value in row `p`. */
  method PreprocessMetadata(frame: MetadataFrame, itemColumn: string, metadataColumns: seq<Column>)
    returns (r: Result<map<string, seq<Cell>>, MetadataError>)
    requires WellFormed(frame)
    ensures r.Success? <==>
      Contiguous(frame.items) && forall k :: 0 <= k < |metadataColumns| ==> ColumnOf(frame, itemColumn, metadataColumns[k].name).Some?
    ensures !Contiguous(frame.items) ==> r == Failure(NotContiguous)
    ensures r.Failure? && r.error.MissingColumn? ==>
      r.error.name in Names(metadataColumns) && ColumnOf(frame, itemColumn, r.error.name).None?
    ensures r.Success? ==> forall name :: name in r.value <==> name in Names(metadataColumns)
    ensures r.Success? ==> forall name :: name in r.value ==>
      ColumnOf(frame, itemColumn, name).Some? && ByItem(frame.items, ColumnOf(frame, itemColumn, name).value, r.value[name])
  {
    var perm := SortIndex(frame.items);
    if !Contiguous(frame.items) {
      return Failure(NotContiguous);
    }
    r := SortedColumns(frame, itemColumn, metadataColumns, perm);
    if r.Success? {
      forall name | name in r.value
        ensures ByItem(frame.items, ColumnOf(frame, itemColumn, name).value, r.value[name])
      {
        ReorderByItem(frame.items, ColumnOf(frame, itemColumn, name).value);
      }
    }
  }
}
