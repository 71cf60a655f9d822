/** The parts of the project configuration that recommendation/data.py reads: typed columns and
    the column roles of a project. recommendation/task/meta_config.py is not part of this model;
    its classes appear here only through the fields data.py uses. */
module Config {
  import opened Wrappers

  /** The column kinds of `IOType`. */
  datatype IOType = Index | Number | IntArray | FloatArray | IndexArray

  /** The kinds whose cells hold lists (written to CSV as text and parsed back). */
  predicate IsArray(t: IOType)
  {
    t == IntArray || t == FloatArray || t == IndexArray
  }

  datatype Column = Column(name: string, ioType: IOType)

  /** One cell of a data frame: a number, a list, or the text a list was written as. */
  datatype Cell = Int(i: int) | Num(x: real) | Ints(xs: seq<int>) | Nums(ys: seq<real>) | Text(s: string)

  datatype ProjectConfig = ProjectConfig(
    userColumn: Column,
    itemColumn: Column,
    outputColumn: Column,
    inputColumns: seq<Column>,
    otherInputColumns: seq<Column>,
    auxiliarOutputColumns: seq<Column>,
    metadataColumns: seq<Column>,
    availableArmsColumnName: Option<string>,
    itemIsInput: bool)

  /** The column names of a column list, in order. */
  function Names(columns: seq<Column>): (r: seq<string>)
    ensures |r| == |columns| && forall k :: 0 <= k < |r| ==> r[k] == columns[k].name
  {
    if columns == [] then [] else [columns[0].name] + Names(columns[1..])
  }

  lemma NamesConcat(a: seq<Column>, b: seq<Column>)
    ensures Names(a + b) == Names(a) + Names(b)
  {
  }

  /** A column (named `name` at position `k`) is listed. */
  lemma NameListed(columns: seq<Column>, k: int)
    requires 0 <= k < |columns|
    ensures columns[k].name in Names(columns)
  {
    assert Names(columns)[k] == columns[k].name;
  }
}
