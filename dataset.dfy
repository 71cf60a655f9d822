/** `InteractionsDataset` of recommendation/data.py: the column selection of its constructor,
    `__len__`, and the assembly of inputs and outputs in `__getitem__`. The numpy casts of
    `_convert_dtype` are the identity here. */
module Dataset {
  import opened Wrappers
  import opened Seqs
  import opened Config

  datatype DatasetError =
    | ItemNotAnInput                    // `list.index` raises `ValueError`
    | RowOutOfRange(index: int)         // `iloc` raises `IndexError`
    | MissingColumn(name: string)       // a column or metadata lookup raises `KeyError`
    | BadItemIndex(item: Cell)          // the metadata gather raises `IndexError`

  datatype InteractionsDataset = InteractionsDataset(
    config: ProjectConfig,
    frame: map<string, seq<Cell>>,
    height: nat,
    embeddings: Option<map<string, seq<Cell>>>,
    itemInputIndex: nat)

  /** The argument of `__getitem__`: one row position or a list of them. */
  datatype Indices = Single(index: int) | Many(indices: seq<int>)

  /** The output of `__getitem__`: the main output column alone, or the tuple of it and the
      auxiliary output columns. */
  datatype Output = MainOnly(main: seq<Cell>) | WithAuxiliary(outputs: seq<seq<Cell>>)

  predicate Valid(ds: InteractionsDataset)
  {
    && (forall name :: name in ds.frame ==> |ds.frame[name]| == ds.height)
    && (ds.config.itemIsInput ==> ds.itemInputIndex < |ds.config.inputColumns|)
  }

  /** The position of the first occurrence of `c` in `columns`. */
  function IndexOf(columns: seq<Column>, c: Column): (k: nat)
    requires c in columns
    ensures k < |columns| && columns[k] == c
    ensures forall h :: 0 <= h < k ==> columns[h] != c
  {
    if columns[0] == c then 0 else 1 + IndexOf(columns[1..], c)
  }

  /** The names the constructor keeps: inputs, the output and the auxiliary outputs. */
  function WantedNames(config: ProjectConfig): seq<string>
  {
    Names(config.inputColumns) + [config.outputColumn.name] + Names(config.auxiliarOutputColumns)
  }

  /** Lines 48-62. */
  function NewDataset(frame: map<string, seq<Cell>>, height: nat, embeddings: Option<map<string, seq<Cell>>>,
                      config: ProjectConfig): (r: Result<InteractionsDataset, DatasetError>)
    requires forall name :: name in frame ==> |frame[name]| == height
    ensures r.Success? <==> (config.itemIsInput ==> config.itemColumn in config.inputColumns)
    ensures r.Failure? ==> r.error == ItemNotAnInput
    ensures r.Success? ==> (
      && Valid(r.value)
      && r.value.config == config && r.value.embeddings == embeddings && r.value.height == height
      && (forall name :: name in r.value.frame <==> name in frame && name in WantedNames(config))
      && (forall name :: name in r.value.frame ==> r.value.frame[name] == frame[name])
      && (config.itemIsInput ==> (
           && config.inputColumns[r.value.itemInputIndex] == config.itemColumn
           && forall h :: 0 <= h < r.value.itemInputIndex ==> config.inputColumns[h] != config.itemColumn)))
  {
    if config.itemIsInput && config.itemColumn !in config.inputColumns then Failure(ItemNotAnInput)
    else
      var index := if config.itemIsInput then IndexOf(config.inputColumns, config.itemColumn) else 0;
      var kept := map name | name in frame && name in WantedNames(config) :: frame[name];
      Success(InteractionsDataset(config, kept, height, embeddings, index))
  }

  /** Lines 64-65. */
  function Len(ds: InteractionsDataset): nat
  {
    ds.height
  }

  /** The selection keeps every row: the dataset is as long as the frame it was built from. */
  lemma LenIsFrameHeight(frame: map<string, seq<Cell>>, height: nat, embeddings: Option<map<string, seq<Cell>>>,
                         config: ProjectConfig)
    requires forall name :: name in frame ==> |frame[name]| == height
    requires NewDataset(frame, height, embeddings, config).Success?
    ensures Len(NewDataset(frame, height, embeddings, config).value) == height
    ensures forall name :: name in NewDataset(frame, height, embeddings, config).value.frame ==>
      |NewDataset(frame, height, embeddings, config).value.frame[name]| == Len(NewDataset(frame, height, embeddings, config).value)
  {
  }

  /** Lines 80-81: an int is promoted to the singleton list. */
  function Promote(indices: Indices): seq<int>
  {
    match indices
    case Single(i) => [i]
    case Many(rows) => rows
  }

  /** The row positions `iloc` selects, each index in `-n <= j < n` with a negative one counting
      from the end, or the first index out of range. */
  function RowPositions(rows: seq<int>, n: nat): (r: Result<seq<nat>, DatasetError>)
    ensures r.Success? <==> forall k :: 0 <= k < |rows| ==> InRange(rows[k], n)
    ensures r.Success? ==> |r.value| == |rows| && forall k :: 0 <= k < |rows| ==> r.value[k] == Wrap(rows[k], n)
    ensures r.Failure? ==> r.error.RowOutOfRange? && r.error.index in rows && !InRange(r.error.index, n)
  {
    if rows == [] then Success([])
    else if !InRange(rows[0], n) then Failure(RowOutOfRange(rows[0]))
    else
      match RowPositions(rows[1..], n)
      case Failure(e) => Failure(e)
      case Success(rest) =>
        assert forall k :: 1 <= k < |rows| ==> rows[k] == rows[1..][k - 1];
        Success([Wrap(rows[0], n)] + rest)
  }

  /** `rows[name].values`: the column's cells at the selected positions. */
  function ColumnValues(frame: map<string, seq<Cell>>, height: nat, name: string, positions: seq<nat>)
    : (r: Result<seq<Cell>, DatasetError>)
    requires forall n :: n in frame ==> |frame[n]| == height
    requires forall k :: 0 <= k < |positions| ==> positions[k] < height
    ensures r.Success? <==> name in frame
    ensures r.Failure? ==> r.error == MissingColumn(name)
    ensures r.Success? ==> |r.value| == |positions| && forall k :: 0 <= k < |positions| ==> r.value[k] == frame[name][positions[k]]
  {
    if name !in frame then Failure(MissingColumn(name))
    else Success(seq(|positions|, k requires 0 <= k < |positions| => frame[name][positions[k]]))
  }

  /** One array per column, in column order, failing on the first column the frame lacks. */
  function ColumnsValues(frame: map<string, seq<Cell>>, height: nat, columns: seq<Column>, positions: seq<nat>)
    : (r: Result<seq<seq<Cell>>, DatasetError>)
    requires forall n :: n in frame ==> |frame[n]| == height
    requires forall k :: 0 <= k < |positions| ==> positions[k] < height
    ensures r.Success? <==> forall c :: 0 <= c < |columns| ==> columns[c].name in frame
    ensures r.Failure? ==> r.error.MissingColumn? && r.error.name in Names(columns) && r.error.name !in frame
    ensures r.Success? ==> |r.value| == |columns| && forall c :: 0 <= c < |columns| ==>
      r.value[c] == ColumnValues(frame, height, columns[c].name, positions).value
  {
    if columns == [] then Success([])
    else
      match ColumnValues(frame, height, columns[0].name, positions)
      case Failure(e) => Failure(e)
      case Success(first) =>
        match ColumnsValues(frame, height, columns[1..], positions)
        case Failure(e) => Failure(e)
        case Success(rest) =>
          assert forall c :: 1 <= c < |columns| ==> columns[c] == columns[1..][c - 1];
          Success([first] + rest)
  }

  /** A metadata gather accepts an integer cell within `-n <= v < n`. */
  predicate ItemInRange(item: Cell, n: nat)
  {
    item.Int? && InRange(item.i, n)
  }

  /** `embedding[item_indices]`: numpy fancy indexing by the item column's values. */
  function Gather(embedding: seq<Cell>, items: seq<Cell>): (r: Result<seq<Cell>, DatasetError>)
    ensures r.Success? <==> forall k :: 0 <= k < |items| ==> ItemInRange(items[k], |embedding|)
    ensures r.Failure? ==> r.error.BadItemIndex? && r.error.item in items && !ItemInRange(r.error.item, |embedding|)
    ensures r.Success? ==> |r.value| == |items| && forall k :: 0 <= k < |items| ==>
      r.value[k] == embedding[Wrap(items[k].i, |embedding|)]
  {
    if items == [] then Success([])
    else if !ItemInRange(items[0], |embedding|) then Failure(BadItemIndex(items[0]))
    else
      match Gather(embedding, items[1..])
      case Failure(e) => Failure(e)
      case Success(rest) =>
        assert forall k :: 1 <= k < |items| ==> items[k] == items[1..][k - 1];
        Success([embedding[Wrap(items[0].i, |embedding|)]] + rest)
  }

  /** Lines 87-88: one extra input per metadata column. */
  function MetadataInputs(embeddings: map<string, seq<Cell>>, columns: seq<Column>, items: seq<Cell>)
    : (r: Result<seq<seq<Cell>>, DatasetError>)
    ensures r.Success? <==> forall c :: 0 <= c < |columns| ==>
      columns[c].name in embeddings && Gather(embeddings[columns[c].name], items).Success?
    ensures r.Success? ==> |r.value| == |columns| && forall c :: 0 <= c < |columns| ==>
      r.value[c] == Gather(embeddings[columns[c].name], items).value
  {
    if columns == [] then Success([])
    else if columns[0].name !in embeddings then Failure(MissingColumn(columns[0].name))
    else
      match Gather(embeddings[columns[0].name], items)
      case Failure(e) => Failure(e)
      case Success(first) =>
        match MetadataInputs(embeddings, columns[1..], items)
        case Failure(e) => Failure(e)
        case Success(rest) =>
          assert forall c :: 1 <= c < |columns| ==> columns[c] == columns[1..][c - 1];
          Success([first] + rest)
  }
  /** Metadata input `c` at row `k` is column `c`'s embedding at the item of row `k`. */
  lemma MetadataInputAt(embeddings: map<string, seq<Cell>>, columns: seq<Column>, items: seq<Cell>, c: int, k: int)
    requires MetadataInputs(embeddings, columns, items).Success?
    requires 0 <= c < |columns| && 0 <= k < |items|
    ensures var name := columns[c].name;
      var r := MetadataInputs(embeddings, columns, items).value;
      && name in embeddings
      && ItemInRange(items[k], |embeddings[name]|)
      && |r[c]| == |items|
      && r[c][k] == embeddings[name][Wrap(items[k].i, |embeddings[name]|)]
  {
  }


  /** Lines 84-88: the declared inputs, then the metadata gathered at the item input when the
      item is an input and metadata was given. */
  function Inputs(ds: InteractionsDataset, positions: seq<nat>): (r: Result<seq<seq<Cell>>, DatasetError>)
    requires Valid(ds)
    requires forall k :: 0 <= k < |positions| ==> positions[k] < ds.height
    ensures r.Success? ==> (
      var declared := ColumnsValues(ds.frame, ds.height, ds.config.inputColumns, positions);
      && declared.Success?
      && |r.value| >= |ds.config.inputColumns| && r.value[..|ds.config.inputColumns|] == declared.value
      && if ds.config.itemIsInput && ds.embeddings.Some? then
           var metadata := MetadataInputs(ds.embeddings.value, ds.config.metadataColumns, declared.value[ds.itemInputIndex]);
           metadata.Success? && r.value == declared.value + metadata.value
         else r.value == declared.value)
    ensures (forall c :: 0 <= c < |ds.config.inputColumns| ==> ds.config.inputColumns[c].name in ds.frame) ==> (
      r.Success? <==> (ds.config.itemIsInput && ds.embeddings.Some? ==>
        MetadataInputs(ds.embeddings.value, ds.config.metadataColumns,
                       ColumnsValues(ds.frame, ds.height, ds.config.inputColumns, positions).value[ds.itemInputIndex]).Success?))
    ensures !(forall c :: 0 <= c < |ds.config.inputColumns| ==> ds.config.inputColumns[c].name in ds.frame) ==> r.Failure?
  {
    match ColumnsValues(ds.frame, ds.height, ds.config.inputColumns, positions)
    case Failure(e) => Failure(e)
    case Success(declared) =>
      if ds.config.itemIsInput && ds.embeddings.Some? then
        match MetadataInputs(ds.embeddings.value, ds.config.metadataColumns, declared[ds.itemInputIndex])
        case Failure(e) => Failure(e)
        case Success(metadata) =>
          assert (declared + metadata)[..|declared|] == declared;
          Success(declared + metadata)
      else
        assert declared[..|declared|] == declared;
        Success(declared)
  }

  /** Lines 90-94: the main output, followed by the auxiliary outputs when any are declared. */
  function Outputs(ds: InteractionsDataset, positions: seq<nat>): (r: Result<Output, DatasetError>)
    requires Valid(ds)
    requires forall k :: 0 <= k < |positions| ==> positions[k] < ds.height
    ensures r.Success? <==>
      && ds.config.outputColumn.name in ds.frame
      && forall c :: 0 <= c < |ds.config.auxiliarOutputColumns| ==> ds.config.auxiliarOutputColumns[c].name in ds.frame
    ensures r.Failure? ==>
      && r.error.MissingColumn? && r.error.name !in ds.frame
      && (r.error.name == ds.config.outputColumn.name || r.error.name in Names(ds.config.auxiliarOutputColumns))
    ensures r.Failure? && ds.config.outputColumn.name !in ds.frame ==> r.error == MissingColumn(ds.config.outputColumn.name)
    ensures r.Success? ==>
      var main := ColumnValues(ds.frame, ds.height, ds.config.outputColumn.name, positions).value;
      if ds.config.auxiliarOutputColumns == [] then r.value == MainOnly(main)
      else r.value == WithAuxiliary([main] +
                        ColumnsValues(ds.frame, ds.height, ds.config.auxiliarOutputColumns, positions).value)
  {
    match ColumnValues(ds.frame, ds.height, ds.config.outputColumn.name, positions)
    case Failure(e) => Failure(e)
    case Success(main) =>
      if ds.config.auxiliarOutputColumns == [] then Success(MainOnly(main))
      else
        match ColumnsValues(ds.frame, ds.height, ds.config.auxiliarOutputColumns, positions)
        case Failure(e) => Failure(e)
        case Success(auxiliary) => Success(WithAuxiliary([main] + auxiliary))
  }

  /** Lines 78-95. */
  function GetItem(ds: InteractionsDataset, indices: Indices): (r: Result<(seq<seq<Cell>>, Output), DatasetError>)
    requires Valid(ds)
    ensures !RowPositions(Promote(indices), ds.height).Success? ==> r == Failure(RowPositions(Promote(indices), ds.height).error)
    ensures RowPositions(Promote(indices), ds.height).Success? ==> (
      var positions := RowPositions(Promote(indices), ds.height).value;
      && (r.Success? <==> Inputs(ds, positions).Success? && Outputs(ds, positions).Success?)
      && (r.Success? ==> r.value == (Inputs(ds, positions).value, Outputs(ds, positions).value)))
  {
    match RowPositions(Promote(indices), ds.height)
    case Failure(e) => Failure(e)
    case Success(positions) =>
      match Inputs(ds, positions)
      case Failure(e) => Failure(e)
      case Success(inputs) =>
        match Outputs(ds, positions)
        case Failure(e) => Failure(e)
        case Success(output) => Success((inputs, output))
  }

  /** An int index behaves as the singleton list. */
  lemma SingleIsSingletonList(ds: InteractionsDataset, i: int)
    requires Valid(ds)
    ensures GetItem(ds, Single(i)) == GetItem(ds, Many([i]))
  {
  }

  /** On success input `c` of the declared ones is column `c` at the selected rows, counted from
      the end for a negative index. */
  lemma GetItemInput(ds: InteractionsDataset, indices: Indices, c: int, k: int)
    requires Valid(ds)
    requires GetItem(ds, indices).Success?
    requires 0 <= c < |ds.config.inputColumns| && 0 <= k < |Promote(indices)|
    ensures var rows := Promote(indices);
      && InRange(rows[k], ds.height)
      && ds.config.inputColumns[c].name in ds.frame
      && |GetItem(ds, indices).value.0| > c
      && |GetItem(ds, indices).value.0[c]| == |rows|
      && GetItem(ds, indices).value.0[c][k] == ds.frame[ds.config.inputColumns[c].name][Wrap(rows[k], ds.height)]
  {
    var positions := RowPositions(Promote(indices), ds.height).value;
    var declared := ColumnsValues(ds.frame, ds.height, ds.config.inputColumns, positions);
    var inputs := GetItem(ds, indices).value.0;
    assert inputs[..|ds.config.inputColumns|] == declared.value;
    assert inputs[c] == inputs[..|ds.config.inputColumns|][c];
  }

  /** On success, when the item is an input and metadata exists, the inputs are the declared ones
      followed by one per metadata column; metadata input `c` at row `k` is that column's
      embedding at the item of row `k`. */
  lemma GetItemMetadataInput(ds: InteractionsDataset, indices: Indices, c: int, k: int)
    requires Valid(ds)
    requires GetItem(ds, indices).Success?
    requires ds.config.itemIsInput && ds.embeddings.Some?
    requires 0 <= c < |ds.config.metadataColumns| && 0 <= k < |Promote(indices)|
    ensures var inputs := GetItem(ds, indices).value.0;
      var n := |ds.config.inputColumns|;
      var name := ds.config.metadataColumns[c].name;
      var item := inputs[ds.itemInputIndex][k];
      && |inputs| == n + |ds.config.metadataColumns|
      && |inputs[ds.itemInputIndex]| == |Promote(indices)|
      && name in ds.embeddings.value
      && ItemInRange(item, |ds.embeddings.value[name]|)
      && |inputs[n + c]| == |Promote(indices)|
      && inputs[n + c][k] == ds.embeddings.value[name][Wrap(item.i, |ds.embeddings.value[name]|)]
  {
    var positions := RowPositions(Promote(indices), ds.height).value;
    InputsMetadataAt(ds, positions, c, k);
  }

  /** `Inputs` with metadata: the declared inputs followed by one per metadata column, metadata
      input `c` at row `k` being that column's embedding at the item of row `k`. */
  lemma InputsMetadataAt(ds: InteractionsDataset, positions: seq<nat>, c: int, k: int)
    requires Valid(ds)
    requires forall k :: 0 <= k < |positions| ==> positions[k] < ds.height
    requires Inputs(ds, positions).Success?
    requires ds.config.itemIsInput && ds.embeddings.Some?
    requires 0 <= c < |ds.config.metadataColumns| && 0 <= k < |positions|
    ensures var inputs := Inputs(ds, positions).value;
      var n := |ds.config.inputColumns|;
      var name := ds.config.metadataColumns[c].name;
      var item := inputs[ds.itemInputIndex][k];
      && |inputs| == n + |ds.config.metadataColumns|
      && |inputs[ds.itemInputIndex]| == |positions|
      && name in ds.embeddings.value
      && ItemInRange(item, |ds.embeddings.value[name]|)
      && |inputs[n + c]| == |positions|
      && inputs[n + c][k] == ds.embeddings.value[name][Wrap(item.i, |ds.embeddings.value[name]|)]
  {
    var declared := ColumnsValues(ds.frame, ds.height, ds.config.inputColumns, positions).value;
    var items := declared[ds.itemInputIndex];
    var metadata := MetadataInputs(ds.embeddings.value, ds.config.metadataColumns, items).value;
    var inputs := Inputs(ds, positions).value;
    assert inputs == declared + metadata;
    assert |items| == |positions|;
    MetadataInputAt(ds.embeddings.value, ds.config.metadataColumns, items, c, k);
    assert inputs[|declared| + c] == metadata[c];
    assert inputs[ds.itemInputIndex] == items;
  }

}
