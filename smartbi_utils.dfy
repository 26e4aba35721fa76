/**
 * Turning a cellset returned by the BI server into table parts (smartbi_utils.py):
 * the column headers with the data grid, and the row headers with the row members.
 * The pandas DataFrame wrapping and the concatenation of the two parts are not modelled.
 */
module SmartbiUtils {
  import opened Wrappers
  import opened Text

  /** A cell value: None, a float NaN, a string, or a number. */
  datatype Cell = Null | NaN | Str(text: string) | Num(value: real)

  /** One member or field of a cellset axis; only its `name` is read. */
  datatype Member = Member(name: string)

  /** One entry of `data`: a value addressed by row and column index. */
  datatype DataItem = DataItem(row: int, column: int, value: Cell)

  /** The parts of a cellset that the conversion reads. */
  datatype CellSet = CellSet(
    columns: seq<seq<Member>>,
    rows: seq<seq<Member>>,
    rowFields: seq<Member>,
    data: seq<DataItem>)

  function Names(items: seq<Member>): seq<string>
  {
    seq(|items|, i requires 0 <= i < |items| => items[i].name)
  }

  /** Python list indexing: a negative index counts from the end; None is an IndexError. */
  function PyIndex(i: int, n: nat): (r: Option<nat>)
    ensures r.Some? <==> 0 <= i + n && i < n
    ensures r.Some? ==> r.value < n && (r.value == i || r.value == i + n)
  {
    if 0 <= i < n then Some(i)
    else if 0 <= i + n && i < 0 then Some(i + n)
    else None
  }

  /** The grid has one row per cellset row, and a single row when there are none. */
  function GridRows(cs: CellSet): nat
  {
    if |cs.rows| == 0 then 1 else |cs.rows|
  }

  /** Whether every data item addresses a cell of an n-by-m grid. */
  predicate AllAddressable(data: seq<DataItem>, n: nat, m: nat)
  {
    forall k :: 0 <= k < |data| ==> PyIndex(data[k].row, n).Some? && PyIndex(data[k].column, m).Some?
  }

  /** Whether item d writes cell (i, j) of an n-by-m grid. */
  predicate Writes(d: DataItem, n: nat, m: nat, i: nat, j: nat)
  {
    PyIndex(d.row, n) == Some(i) && PyIndex(d.column, m) == Some(j)
  }

  /** The value of cell (i, j) after writing the data items in order onto a grid of None. */
  function CellAt(data: seq<DataItem>, n: nat, m: nat, i: nat, j: nat): Cell
  {
    if data == [] then Null
    else if Writes(data[|data| - 1], n, m, i, j) then data[|data| - 1].value
    else CellAt(data[..|data| - 1], n, m, i, j)
  }

  /** A cell holds the value of the last item that addresses it. */
  lemma {:induction false} CellAtLastWriter(data: seq<DataItem>, n: nat, m: nat, i: nat, j: nat, k: nat)
    requires k < |data| && Writes(data[k], n, m, i, j)
    requires forall l :: k < l < |data| ==> !Writes(data[l], n, m, i, j)
    ensures CellAt(data, n, m, i, j) == data[k].value
  {
    if k < |data| - 1 {
      CellAtLastWriter(data[..|data| - 1], n, m, i, j, k);
    }
  }

  /** A cell that no item addresses stays None. */
  lemma {:induction false} CellAtUnwritten(data: seq<DataItem>, n: nat, m: nat, i: nat, j: nat)
    requires forall l :: 0 <= l < |data| ==> !Writes(data[l], n, m, i, j)
    ensures CellAt(data, n, m, i, j) == Null
  {
    if data != [] {
      CellAtUnwritten(data[..|data| - 1], n, m, i, j);
    }
  }

  /** One column header: the names of a column row joined with "|"; an empty row raises IndexError. */
  method ColumnName(columnRow: seq<Member>) returns (r: Result<string, Failure>)
    ensures r == if columnRow == [] then Err(IndexError) else Ok(Join("|", Names(columnRow)))
  {
    if columnRow == [] {
      return Err(IndexError);
    }
    var name := columnRow[0].name;
    for k := 1 to |columnRow|
      invariant name == Join("|", Names(columnRow[..k]))
    {
      assert Names(columnRow[..k + 1]) == Names(columnRow[..k]) + [columnRow[k].name];
      JoinSnoc("|", Names(columnRow[..k]), columnRow[k].name);
      name := name + "|" + columnRow[k].name;
    }
    assert columnRow[..|columnRow|] == columnRow;
    return Ok(name);
  }

  /** The column headers and the value grid (the DataFrame's data and columns). */
  datatype ColumnFrame = ColumnFrame(headers: seq<string>, cells: array2<Cell>)

  /** `__get_column_dataframe`: one header per column row, then a grid of None filled from `data`. */
  method GetColumnFrame(cs: CellSet) returns (r: Result<ColumnFrame, Failure>)
    ensures r.Err? ==> r.error == IndexError
    ensures r.Err? <==>
      (exists i :: 0 <= i < |cs.columns| && cs.columns[i] == [])
      || !AllAddressable(cs.data, GridRows(cs), |cs.columns|)
    ensures r.Ok? ==> fresh(r.value.cells)
    ensures r.Ok? ==> |r.value.headers| == |cs.columns|
    ensures r.Ok? ==> forall i :: 0 <= i < |cs.columns| ==> r.value.headers[i] == Join("|", Names(cs.columns[i]))
    ensures r.Ok? ==> r.value.cells.Length0 == GridRows(cs) && r.value.cells.Length1 == |cs.columns|
    ensures r.Ok? ==> forall i, j :: 0 <= i < r.value.cells.Length0 && 0 <= j < r.value.cells.Length1 ==>
      r.value.cells[i, j] == CellAt(cs.data, GridRows(cs), |cs.columns|, i, j)
  {
    var headers: seq<string> := [];
    for i := 0 to |cs.columns|
      invariant |headers| == i
      invariant forall k :: 0 <= k < i ==> cs.columns[k] != [] && headers[k] == Join("|", Names(cs.columns[k]))
    {
      var name := ColumnName(cs.columns[i]);
      if name.Err? {
        return Err(name.error);
      }
      headers := headers + [name.value];
    }
    var colLen := |headers|;
    var rowLen := |cs.rows|;
    if rowLen == 0 {
      rowLen := 1;
    }
    var cells := new Cell[rowLen, colLen]((i, j) => Null);
    for k := 0 to |cs.data|
      invariant AllAddressable(cs.data[..k], rowLen, colLen)
      invariant forall i, j :: 0 <= i < rowLen && 0 <= j < colLen ==>
        cells[i, j] == CellAt(cs.data[..k], rowLen, colLen, i, j)
    {
      var item := cs.data[k];
      var ri := PyIndex(item.row, rowLen);
      if ri.None? {
        return Err(IndexError);
      }
      var ci := PyIndex(item.column, colLen);
      if ci.None? {
        return Err(IndexError);
      }
      assert cs.data[..k + 1][..k] == cs.data[..k];
      cells[ri.value, ci.value] := item.value;
    }
    assert cs.data[..|cs.data|] == cs.data;
    return Ok(ColumnFrame(headers, cells));
  }

  /** The row headers and the row members (the DataFrame's columns and data). */
  datatype RowTable = RowTable(headers: seq<string>, rows: seq<seq<string>>)

  /** `__get_row_dataframe`: None without row fields, else field names and member names per row. */
  function RowFrame(cs: CellSet): (r: Option<RowTable>)
    ensures r.None? <==> cs.rowFields == []
    ensures r.Some? ==> |r.value.headers| == |cs.rowFields|
    ensures r.Some? ==> forall i :: 0 <= i < |cs.rowFields| ==> r.value.headers[i] == cs.rowFields[i].name
    ensures r.Some? ==> |r.value.rows| == |cs.rows|
    ensures r.Some? ==> forall i :: 0 <= i < |cs.rows| ==> |r.value.rows[i]| == |cs.rows[i]|
    ensures r.Some? ==> forall i, j :: 0 <= i < |cs.rows| && 0 <= j < |cs.rows[i]| ==>
      r.value.rows[i][j] == cs.rows[i][j].name
  {
    if |cs.rowFields| == 0 then None
    else Some(RowTable(Names(cs.rowFields), seq(|cs.rows|, i requires 0 <= i < |cs.rows| => Names(cs.rows[i]))))
  }
}
