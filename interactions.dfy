/** `literal_eval_array_columns` and `preprocess_interactions_data_frame` of
    recommendation/data.py, which overwrite columns of an interactions frame in place. The parse
    of one cell (`ast.literal_eval`) and the integer cast of one cell (`astype(int)`) are
    parameters. */
module Interactions {
  import opened Wrappers
  import opened Seqs
  import opened Config

  /** A pandas frame: columns by name, each holding one cell per row. */
  class DataFrame {
    var columns: map<string, seq<Cell>>
    var height: nat

    ghost predicate Valid()
      reads this
    {
      forall name :: name in columns ==> |columns[name]| == height
    }

    constructor (columns: map<string, seq<Cell>>, height: nat)
      requires forall name :: name in columns ==> |columns[name]| == height
      ensures this.columns == columns && this.height == height && Valid()
    {
      this.columns := columns;
      this.height := height;
    }
  }

  /** The names of the array-typed columns of a list, in order. */
  function ArrayNames(columns: seq<Column>): (r: seq<string>)
    ensures forall name :: name in r <==> exists k :: 0 <= k < |columns| && IsArray(columns[k].ioType) && columns[k].name == name
  {
    if columns == [] then []
    else
      var init := columns[..|columns| - 1];
      var last := columns[|columns| - 1];
      assert forall k :: 0 <= k < |init| ==> init[k] == columns[k];
      ArrayNames(init) + (if IsArray(last.ioType) then [last.name] else [])
  }

  /** One iteration of the loop of lines 12-14. */
  function EvalColumn(cols: map<string, seq<Cell>>, column: Column, eval: Cell -> Cell): map<string, seq<Cell>>
  {
    if IsArray(column.ioType) && column.name in cols then cols[column.name := MapSeq(eval, cols[column.name])]
    else cols
  }

  /** The columns after `literal_eval_array_columns(data_frame, columns)`. */
  function EvalColumns(cols: map<string, seq<Cell>>, columns: seq<Column>, eval: Cell -> Cell): (r: map<string, seq<Cell>>)
    ensures r.Keys == cols.Keys
    ensures forall name :: name in r ==> |r[name]| == |cols[name]|
    ensures forall name :: name in cols && name !in ArrayNames(columns) ==> r[name] == cols[name]
  {
    if columns == [] then cols
    else EvalColumn(EvalColumns(cols, columns[..|columns| - 1], eval), columns[|columns| - 1], eval)
  }

  /** `eval` applied `k` times to every cell. */
  function EvalTimes(eval: Cell -> Cell, k: nat, s: seq<Cell>): (r: seq<Cell>)
  {
    if k == 0 then s else MapSeq(eval, EvalTimes(eval, k - 1, s))
  }

  /** Each column of the frame is parsed once per time it is listed with an array type; in
      particular a column listed once is parsed once, and a listed column the frame lacks is
      skipped. */
  lemma {:induction false} EvalColumnsParsesListed(cols: map<string, seq<Cell>>, columns: seq<Column>, eval: Cell -> Cell, name: string)
    requires name in cols
    ensures EvalColumns(cols, columns, eval)[name] == EvalTimes(eval, multiset(ArrayNames(columns))[name], cols[name])
  {
    if columns != [] {
      var init := columns[..|columns| - 1];
      var last := columns[|columns| - 1];
      EvalColumnsParsesListed(cols, init, eval, name);
      var before := EvalColumns(cols, init, eval);
      var m := multiset(ArrayNames(init))[name];
      assert ArrayNames(columns) == ArrayNames(init) + (if IsArray(last.ioType) then [last.name] else []);
      if IsArray(last.ioType) && last.name == name {
        assert multiset(ArrayNames(columns))[name] == m + 1;
        assert EvalColumns(cols, columns, eval)[name] == MapSeq(eval, before[name]);
      } else {
        assert multiset(ArrayNames(columns))[name] == m;
        assert EvalColumns(cols, columns, eval)[name] == before[name];
      }
    }
  }

  /** Lines 11-14: every array-typed column the frame has is parsed in place, in list order. */
  method LiteralEvalArrayColumns(frame: DataFrame, columns: seq<Column>, eval: Cell -> Cell)
    requires frame.Valid()
    modifies frame
    ensures frame.Valid() && frame.height == old(frame.height)
    ensures frame.columns == EvalColumns(old(frame.columns), columns, eval)
  {
    for k := 0 to |columns|
      invariant frame.Valid() && frame.height == old(frame.height)
      invariant frame.columns == EvalColumns(old(frame.columns), columns[..k], eval)
    {
      var column := columns[k];
      if IsArray(column.ioType) && column.name in frame.columns {
        frame.columns := frame.columns[column.name := MapSeq(eval, frame.columns[column.name])];
      }
      assert columns[..k + 1][..k] == columns[..k];
    }
    assert columns[..|columns|] == columns;
  }

  /** The available-arms column when one is configured (an empty name counts as none). */
  function ArmsColumn(config: ProjectConfig): Option<string>
  {
    match config.availableArmsColumnName
    case Some(name) => if name != "" then Some(name) else None
    case None => None
  }

  /** The columns `literal_eval_array_columns` is given at lines 22-24. */
  function ParsedColumns(config: ProjectConfig): seq<Column>
  {
    [config.userColumn, config.itemColumn, config.outputColumn] + config.otherInputColumns
  }

  /** Lines 26-29 applied to already cast and parsed columns of a non-empty frame: the
      available-arms column, when one is configured, is parsed when its first cell is still text;
      a configured column the frame lacks is reported. */
  function ParseArms(parsed: map<string, seq<Cell>>, height: nat, arms: Option<string>, eval: Cell -> Cell)
    : (r: (map<string, seq<Cell>>, Option<string>))
    requires height > 0 && forall name :: name in parsed ==> |parsed[name]| == height
    ensures r.0.Keys == parsed.Keys
    ensures forall name :: name in r.0 ==> |r.0[name]| == height
    ensures r.1.None? <==> (arms.Some? ==> arms.value in parsed)
    ensures r.1.Some? ==> r.1 == arms && arms.value !in parsed
    ensures forall name :: name in parsed && arms != Some(name) ==> r.0[name] == parsed[name]
    ensures arms.Some? && arms.value in parsed ==>
      r.0[arms.value] == if parsed[arms.value][0].Text? then MapSeq(eval, parsed[arms.value]) else parsed[arms.value]
  {
    match arms
    case None => (parsed, None)
    case Some(name) =>
      if name !in parsed then (parsed, Some(name))
      else if parsed[name][0].Text? then (parsed[name := MapSeq(eval, parsed[name])], None)
      else (parsed, None)
  }

  /** A column that neither the array parse of lines 22-24 nor the arms parse of lines 26-29
      touches. */
  predicate NotParsed(config: ProjectConfig, name: string)
  {
    name !in ArrayNames(ParsedColumns(config)) && ArmsColumn(config) != Some(name)
  }

  /** The frame's columns after `preprocess_interactions_data_frame` and the column whose lookup
      raised `KeyError`, if any (the columns written before the raise stay written). */
  function Preprocessed(cols: map<string, seq<Cell>>, height: nat, config: ProjectConfig,
                        asInt: Cell -> Cell, eval: Cell -> Cell): (r: (map<string, seq<Cell>>, Option<string>))
    requires forall name :: name in cols ==> |cols[name]| == height
    ensures height == 0 ==> r == (cols, None)
    ensures r.0.Keys == cols.Keys
    ensures forall name :: name in r.0 ==> |r.0[name]| == height
    ensures r.1.None? <==> (
      || height == 0
      || (&& config.userColumn.name in cols && config.itemColumn.name in cols
          && (ArmsColumn(config).Some? ==> ArmsColumn(config).value in cols)))
    ensures r.1.Some? ==> r.1.value !in cols
    ensures forall name ::
      (&& name in cols && name != config.userColumn.name && name != config.itemColumn.name
       && name !in ArrayNames(ParsedColumns(config)) && ArmsColumn(config) != Some(name))
      ==> r.0[name] == cols[name]
    ensures
      var user := config.userColumn.name;
      var item := config.itemColumn.name;
      height > 0 && user in cols && item in cols ==>
        && (user != item && NotParsed(config, user) ==> r.0[user] == MapSeq(asInt, cols[user]))
        && (NotParsed(config, item) ==>
              r.0[item] == MapSeq(asInt, if item == user then MapSeq(asInt, cols[user]) else cols[item]))
  {
    var user := config.userColumn.name;
    var item := config.itemColumn.name;
    if height == 0 then (cols, None)
    else if user !in cols then (cols, Some(user))
    else
      var withUser := cols[user := MapSeq(asInt, cols[user])];
      if item !in withUser then (withUser, Some(item))
      else
        var withItem := withUser[item := MapSeq(asInt, withUser[item])];
        ParseArms(EvalColumns(withItem, ParsedColumns(config), eval), height, ArmsColumn(config), eval)
  }

  /** Lines 17-29: an empty frame is returned untouched; otherwise the user and item columns are
      cast to integers, the array columns parsed, and the available-arms column parsed when its
      first cell is still text. A missing column raises `KeyError`, returned as `Failure`. */
  method PreprocessInteractions(frame: DataFrame, config: ProjectConfig, asInt: Cell -> Cell, eval: Cell -> Cell)
    returns (r: Result<(), string>)
    requires frame.Valid()
    modifies frame
    ensures frame.Valid() && frame.height == old(frame.height)
    ensures (frame.columns, if r.Success? then None else Some(r.error))
         == Preprocessed(old(frame.columns), old(frame.height), config, asInt, eval)
  {
    if frame.height == 0 {
      return Success(());
    }
    var user := config.userColumn.name;
    var item := config.itemColumn.name;
    if user !in frame.columns {
      return Failure(user);
    }
    frame.columns := frame.columns[user := MapSeq(asInt, frame.columns[user])];
    if item !in frame.columns {
      return Failure(item);
    }
    frame.columns := frame.columns[item := MapSeq(asInt, frame.columns[item])];
    LiteralEvalArrayColumns(frame, ParsedColumns(config), eval);
    match ArmsColumn(config)
    case None =>
      return Success(());
    case Some(arms) =>
      if arms !in frame.columns {
        return Failure(arms);
      }
      if frame.columns[arms][0].Text? {
        frame.columns := frame.columns[arms := MapSeq(eval, frame.columns[arms])];
      }
      return Success(());
  }
}
