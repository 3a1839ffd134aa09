/** The browser component that holds the spreadsheet grid (ExcelDataGrid.jsx):
    it turns the first sheet of an uploaded file into columns and rows, sends
    the rows with the user's inputs to the transformation service, and merges the
    service's reply back into the grid. */
module ExcelDataGrid {
  import opened Values
  import opened Protocol

  const ColumnWidth: int := 150

  /** A grid column definition. */
  datatype Column = Column(field: string, headerName: string, width: int, editable: bool)

  /** The columns and rows the grid shows. */
  datatype Snapshot = Snapshot(columns: seq<Column>, rows: seq<Row>)

  // ---------------------------------------------------------------------------
  // Column definitions

  /** `Column${i + 1}`, the key of an unnamed column at position i. */
  function FallbackField(i: nat): string
  {
    "Column" + Digits(i + 1)
  }

  /** `Column ${i + 1}`, the name of an unnamed column at position i. */
  function FallbackHeaderName(i: nat): string
  {
    "Column " + Digits(i + 1)
  }

  /** `name || `Column${i + 1}``, as a property key. */
  function FieldFor(name: Cell, i: nat): string
  {
    if Truthy(name) then KeyOf(name) else FallbackField(i)
  }

  /** `name || `Column ${i + 1}``, as display text. */
  function HeaderNameFor(name: Cell, i: nat): string
  {
    if Truthy(name) then KeyOf(name) else FallbackHeaderName(i)
  }

  /** The column built at position i from a field name and a header name,
      with the fixed width and editable flag. */
  function GridColumn(field: Cell, headerName: Cell, i: nat): Column
  {
    Column(FieldFor(field, i), HeaderNameFor(headerName, i), ColumnWidth, true)
  }

  /** `headers.map(...)` in the upload handler. */
  function HeaderColumns(headers: seq<Cell>): seq<Column>
  {
    seq(|headers|, i requires 0 <= i < |headers| => GridColumn(headers[i], headers[i], i))
  }

  /** The keys the parser gives a row's cells. */
  function FieldSet(headers: seq<Cell>): set<string>
  {
    set i | 0 <= i < |headers| :: FieldFor(headers[i], i)
  }

  // ---------------------------------------------------------------------------
  // Rows

  /** `row[index] || ""`: a missing or falsy cell (0 and false included) is "". */
  function CellOrBlank(row: seq<Cell>, i: nat): Cell
  {
    if i < |row| && Truthy(row[i]) then row[i] else Str("")
  }

  /** `rowData` after the `forEach` over the first n headers. */
  function RowDataUpTo(headers: seq<Cell>, row: seq<Cell>, n: nat): Row
    requires n <= |headers|
  {
    if n == 0 then map[]
    else RowDataUpTo(headers, row, n - 1)[FieldFor(headers[n - 1], n - 1) := CellOrBlank(row, n - 1)]
  }

  function RowData(headers: seq<Cell>, row: seq<Cell>): Row
  {
    RowDataUpTo(headers, row, |headers|)
  }

  /** `{ id, ...data }`: the object's own "id" key, if any, overrides `id`. */
  function WithId(id: Cell, data: Row): Row
  {
    map["id" := id] + data
  }

  /** The snapshot the upload handler builds from the sheet's rows of cells. */
  function ParseSheet(sheet: seq<seq<Cell>>): (snap: Snapshot)
    requires |sheet| >= 1
    ensures |snap.columns| == |sheet[0]|
    ensures forall i :: 0 <= i < |sheet[0]| ==>
      && snap.columns[i].field == (if Truthy(sheet[0][i]) then KeyOf(sheet[0][i]) else "Column" + Digits(i + 1))
      && snap.columns[i].headerName == (if Truthy(sheet[0][i]) then KeyOf(sheet[0][i]) else "Column " + Digits(i + 1))
      && snap.columns[i].width == 150
      && snap.columns[i].editable
    ensures |snap.rows| == |sheet| - 1
  {
    Snapshot(HeaderColumns(sheet[0]), seq(|sheet| - 1, id requires 0 <= id < |sheet| - 1 => ParsedRow(sheet, id)))
  }

  /** The row built from sheet row id + 1, with `id` as its position. */
  function ParsedRow(sheet: seq<seq<Cell>>, id: nat): Row
    requires id + 1 < |sheet|
  {
    WithId(Num(id), RowData(sheet[0], sheet[id + 1]))
  }

  /** The `forEach` of the upload handler, filling `rowData` in place. */
  method FillRowData(headers: seq<Cell>, row: seq<Cell>) returns (rowData: Row)
    ensures rowData == RowData(headers, row)
  {
    rowData := map[];
    var index := 0;
    while index < |headers|
      invariant 0 <= index <= |headers|
      invariant rowData == RowDataUpTo(headers, row, index)
    {
      var header := headers[index];
      rowData := rowData[FieldFor(header, index) := CellOrBlank(row, index)];
      index := index + 1;
    }
  }

  lemma {:induction false} RowDataKeys(headers: seq<Cell>, row: seq<Cell>, n: nat)
    requires n <= |headers|
    ensures RowDataUpTo(headers, row, n).Keys == set i | 0 <= i < n :: FieldFor(headers[i], i)
  {
    if n > 0 {
      RowDataKeys(headers, row, n - 1);
      var before := set i | 0 <= i < n - 1 :: FieldFor(headers[i], i);
      var after := set i | 0 <= i < n :: FieldFor(headers[i], i);
      assert after == before + {FieldFor(headers[n - 1], n - 1)} by {
        forall k | k in after ensures k in before + {FieldFor(headers[n - 1], n - 1)} {
          var i :| 0 <= i < n && k == FieldFor(headers[i], i);
          if i < n - 1 { assert k in before; }
        }
      }
    }
  }

  /** A key gets the cell of the last header position that produces it: a later
      header with the same key overwrites an earlier one. */
  lemma {:induction false} RowDataLastWins(headers: seq<Cell>, row: seq<Cell>, n: nat, i: nat)
    requires i < n <= |headers|
    requires forall j :: i < j < n ==> FieldFor(headers[j], j) != FieldFor(headers[i], i)
    ensures FieldFor(headers[i], i) in RowDataUpTo(headers, row, n)
    ensures RowDataUpTo(headers, row, n)[FieldFor(headers[i], i)] == CellOrBlank(row, i)
  {
    if i < n - 1 {
      RowDataLastWins(headers, row, n - 1, i);
    }
  }

  /** No later header position produces the same key as position i. */
  predicate LastWithField(headers: seq<Cell>, i: nat)
    requires i < |headers|
  {
    forall j :: i < j < |headers| ==> FieldFor(headers[j], j) != FieldFor(headers[i], i)
  }

  /** `{ id, ...data }` keeps every key of `data` with its value and adds "id",
      which keeps `id` only when `data` has no "id" of its own. */
  lemma WithIdKeeps(id: Cell, data: Row)
    ensures WithId(id, data).Keys == {"id"} + data.Keys
    ensures forall k :: k in data ==> WithId(id, data)[k] == data[k]
    ensures "id" !in data ==> WithId(id, data)["id"] == id
  {
  }

  /** The parsed row at data index r: its keys are exactly "id" and the column
      fields (cells beyond the header row are dropped); a field takes the cell of
      the last header position that produces it, or "" when that cell is missing
      or falsy; "id" is r unless some header produces the key "id", whose cell
      then overrides it. */
  lemma ParsedRowShape(sheet: seq<seq<Cell>>, r: nat)
    requires |sheet| >= 1 && r < |sheet| - 1
    ensures var headers, row := sheet[0], ParseSheet(sheet).rows[r];
      && row.Keys == {"id"} + FieldSet(headers)
      && (forall i :: 0 <= i < |headers| && LastWithField(headers, i) ==>
            row[FieldFor(headers[i], i)] == CellOrBlank(sheet[r + 1], i))
      && ("id" !in FieldSet(headers) ==> row["id"] == Num(r))
  {
    var headers := sheet[0];
    var data := RowData(headers, sheet[r + 1]);
    ParsedRowIs(sheet, r);
    RowDataKeys(headers, sheet[r + 1], |headers|);
    WithIdKeeps(Num(r), data);
    RowDataValues(headers, sheet[r + 1]);
  }

  lemma ParsedRowIs(sheet: seq<seq<Cell>>, r: nat)
    requires |sheet| >= 1 && r < |sheet| - 1
    ensures ParseSheet(sheet).rows[r] == WithId(Num(r), RowData(sheet[0], sheet[r + 1]))
  {
  }

  /** Each field holds the cell of the last header position producing it. */
  lemma RowDataValues(headers: seq<Cell>, row: seq<Cell>)
    ensures forall i :: 0 <= i < |headers| && LastWithField(headers, i) ==>
      && FieldFor(headers[i], i) in RowData(headers, row)
      && RowData(headers, row)[FieldFor(headers[i], i)] == CellOrBlank(row, i)
  {
    forall i | 0 <= i < |headers| && LastWithField(headers, i)
      ensures FieldFor(headers[i], i) in RowData(headers, row)
      ensures RowData(headers, row)[FieldFor(headers[i], i)] == CellOrBlank(row, i)
    {
      RowDataLastWins(headers, row, |headers|, i);
    }
  }

  lemma FallbackFieldsDistinct(i: nat, j: nat)
    requires i != j
    ensures FallbackField(i) != FallbackField(j)
  {
    DigitsInjective(i + 1, j + 1);
    var a, b := FallbackField(i), FallbackField(j);
    assert a[6..] == Digits(i + 1) && b[6..] == Digits(j + 1);
  }

  /** Field keys are unique when the named headers have distinct keys and none
      of them spells the fallback key of an unnamed position; unnamed positions
      never collide with each other. */
  lemma FieldsDistinct(headers: seq<Cell>)
    requires forall i, j :: 0 <= i < j < |headers| && Truthy(headers[i]) && Truthy(headers[j]) ==>
               KeyOf(headers[i]) != KeyOf(headers[j])
    requires forall i, j :: 0 <= i < |headers| && 0 <= j < |headers| && Truthy(headers[i]) && !Truthy(headers[j]) ==>
               KeyOf(headers[i]) != FallbackField(j)
    ensures forall i, j :: 0 <= i < j < |headers| ==> HeaderColumns(headers)[i].field != HeaderColumns(headers)[j].field
  {
    forall i, j | 0 <= i < j < |headers| && !Truthy(headers[i]) && !Truthy(headers[j])
      ensures FallbackField(i) != FallbackField(j)
    {
      FallbackFieldsDistinct(i, j);
    }
  }

  /** Two headers with the same text give two columns with the same field, and
      the row keeps only the later cell. */
  lemma DuplicateHeaderExample()
    ensures var snap := ParseSheet([[Str("A"), Str("A")], [Num(1), Num(2)]]);
      snap.columns[0].field == snap.columns[1].field == "A" &&
      snap.rows == [map["id" := Num(0), "A" := Num(2)]]
  {
    var headers := [Str("A"), Str("A")];
    assert RowDataUpTo(headers, [Num(1), Num(2)], 1) == map["A" := Num(1)];
    assert RowData(headers, [Num(1), Num(2)]) == map["A" := Num(2)];
    assert WithId(Num(0), map["A" := Num(2)]) == map["id" := Num(0), "A" := Num(2)];
  }

  /** Upload of a two-column, two-row sheet; the blank cell becomes "" and a 0 or
      false cell would too. */
  lemma UploadExample()
    ensures ParseSheet([[Str("Income"), Str("Tax")], [Num(100), Num(10)], [Num(200), Num(0)]]) ==
      Snapshot([Column("Income", "Income", 150, true), Column("Tax", "Tax", 150, true)],
               [map["id" := Num(0), "Income" := Num(100), "Tax" := Num(10)],
                map["id" := Num(1), "Income" := Num(200), "Tax" := Str("")]])
  {
    var headers := [Str("Income"), Str("Tax")];
    assert RowDataUpTo(headers, [Num(100), Num(10)], 1) == map["Income" := Num(100)];
    assert RowData(headers, [Num(100), Num(10)]) == map["Income" := Num(100), "Tax" := Num(10)];
    assert RowDataUpTo(headers, [Num(200), Num(0)], 1) == map["Income" := Num(200)];
    assert RowData(headers, [Num(200), Num(0)]) == map["Income" := Num(200), "Tax" := Str("")];
    assert WithId(Num(0), map["Income" := Num(100), "Tax" := Num(10)]) ==
      map["id" := Num(0), "Income" := Num(100), "Tax" := Num(10)];
    assert WithId(Num(1), map["Income" := Num(200), "Tax" := Str("")]) ==
      map["id" := Num(1), "Income" := Num(200), "Tax" := Str("")];
    assert HeaderColumns(headers) == [Column("Income", "Income", 150, true), Column("Tax", "Tax", 150, true)];
  }

  /** The fields of a grid's columns. */
  function Fields(columns: seq<Column>): set<string>
  {
    set i | 0 <= i < |columns| :: columns[i].field
  }

  /** The field-completeness invariant: no column field is empty, and each
      row's keys are exactly "id" and the column fields. */
  predicate Complete(snap: Snapshot)
  {
    && (forall i :: 0 <= i < |snap.columns| ==> snap.columns[i].field != "")
    && forall r :: 0 <= r < |snap.rows| ==> snap.rows[r].Keys == {"id"} + Fields(snap.columns)
  }

  /** A truthy header spells a non-empty key. */
  lemma TruthyKeyNonEmpty(c: Cell)
    requires Truthy(c)
    ensures KeyOf(c) != ""
  {
  }

  /** The parser establishes the field-completeness invariant. */
  lemma ParsedRowsComplete(sheet: seq<seq<Cell>>)
    requires |sheet| >= 1
    ensures Complete(ParseSheet(sheet))
  {
    var snap := ParseSheet(sheet);
    var fields := Fields(snap.columns);
    assert fields == FieldSet(sheet[0]) by {
      forall k | k in FieldSet(sheet[0]) ensures k in fields {
        var i :| 0 <= i < |sheet[0]| && k == FieldFor(sheet[0][i], i);
        assert snap.columns[i].field == k;
      }
    }
    forall r | 0 <= r < |snap.rows| ensures snap.rows[r].Keys == {"id"} + fields {
      ParsedRowShape(sheet, r);
    }
    forall i | 0 <= i < |snap.columns| ensures snap.columns[i].field != "" {
      if Truthy(sheet[0][i]) {
        TruthyKeyNonEmpty(sheet[0][i]);
      }
    }
  }

  // ---------------------------------------------------------------------------
  // Reconciler

  /** `data.rows.map((row, index) => ({ id: index, ...row }))`: reply order and
      length are kept; a row gains "id" = its position only when it has no "id"
      of its own, and every other key keeps the service's value. */
  function ReconcileRows(rows: seq<Row>): (r: seq<Row>)
    ensures |r| == |rows|
    ensures forall i :: 0 <= i < |rows| ==>
      && r[i].Keys == rows[i].Keys + {"id"}
      && (forall k :: k in rows[i] ==> r[i][k] == rows[i][k])
      && ("id" !in rows[i] ==> r[i]["id"] == Num(i))
  {
    seq(|rows|, i requires 0 <= i < |rows| => WithId(Num(i), rows[i]))
  }

  /** `data.columns.map(...)`: one column per descriptor, in order, with the
      parser's positional fallback and the width and editable flag reset. */
  function ReconcileColumns(descriptors: seq<ColumnLabels>): (r: seq<Column>)
    ensures |r| == |descriptors|
    ensures forall i :: 0 <= i < |descriptors| ==>
      && r[i].field == (if Truthy(descriptors[i].field) then KeyOf(descriptors[i].field) else "Column" + Digits(i + 1))
      && r[i].headerName == (if Truthy(descriptors[i].headerName) then KeyOf(descriptors[i].headerName) else "Column " + Digits(i + 1))
      && r[i].width == 150
      && r[i].editable
  {
    seq(|descriptors|, i requires 0 <= i < |descriptors| => GridColumn(descriptors[i].field, descriptors[i].headerName, i))
  }

  /** Row ids are 0..n-1, each once, exactly when the reply's rows bring no id. */
  lemma ReconciledIdsPositional(rows: seq<Row>)
    requires forall i :: 0 <= i < |rows| ==> "id" !in rows[i]
    ensures var r := ReconcileRows(rows);
      (set i | 0 <= i < |r| :: r[i]["id"]) == (set i | 0 <= i < |rows| :: Num(i))
  {
    var r := ReconcileRows(rows);
    var ids := set i | 0 <= i < |r| :: r[i]["id"];
    var expected := set i | 0 <= i < |rows| :: Num(i);
    forall c | c in expected ensures c in ids {
      var i :| 0 <= i < |rows| && c == Num(i);
      assert r[i]["id"] == c;
    }
  }

  /** A reply row's own "id" wins over its position. */
  lemma ReconciledIdsEchoed(rows: seq<Row>)
    requires forall i :: 0 <= i < |rows| ==> "id" in rows[i]
    ensures ReconcileRows(rows) == rows
  {
    var r := ReconcileRows(rows);
    forall i | 0 <= i < |rows| ensures r[i] == rows[i] {
      assert r[i].Keys == rows[i].Keys;
    }
  }

  /** What the grid shows after a request settles, and whether an alert was raised. */
  datatype Outcome = Outcome(snapshot: Snapshot, alerted: bool)

  /** The success callback of each handler inside `handleAPIRequest`'s
      try/catch: a rejected request, or a reply whose `rows` is missing, changes
      nothing and alerts; filter-rows replaces only the rows; add-column and
      combine-columns replace the rows and then the columns, so a reply without
      `columns` throws after the rows were already replaced. */
  function Resolve(request: Request, reply: Reply, before: Snapshot): Outcome
  {
    match reply
    case Failed => Outcome(before, true)
    case Delivered(body) =>
      match body.rows
      case None => Outcome(before, true)
      case Some(replyRows) =>
        var rows := ReconcileRows(replyRows);
        if request.FilterRowsRequest? then Outcome(Snapshot(before.columns, rows), false)
        else
          match body.columns
          case None => Outcome(Snapshot(before.columns, rows), true)
          case Some(descriptors) => Outcome(Snapshot(ReconcileColumns(descriptors), rows), false)
  }

  /** The outcomes of a settled request, case by case. */
  lemma ResolveCases(request: Request, reply: Reply, before: Snapshot)
    ensures var o := Resolve(request, reply, before);
      && (reply.Failed? ==> o == Outcome(before, true))
      && (reply.Delivered? && reply.body.rows.None? ==> o == Outcome(before, true))
      && (reply.Delivered? && reply.body.rows.Some? ==>
            o.snapshot.rows == ReconcileRows(reply.body.rows.value))
      && (reply.Delivered? && reply.body.rows.Some? && request.FilterRowsRequest? ==>
            o.snapshot.columns == before.columns && !o.alerted)
      && (reply.Delivered? && reply.body.rows.Some? && !request.FilterRowsRequest? ==>
            && (reply.body.columns.None? ==> o.snapshot.columns == before.columns && o.alerted)
            && (reply.body.columns.Some? ==>
                  o.snapshot.columns == ReconcileColumns(reply.body.columns.value) && !o.alerted))
  {
  }

  // ---------------------------------------------------------------------------
  // The component's state

  datatype CombineInputs = CombineInputs(column1: string, column2: string, newColumnName: string)

  /** The operation inputs the user types or selects. */
  datatype Inputs = Inputs(newColumnName: string, formula: string, filterValue: string, combine: CombineInputs)

  class Grid {
    var columns: seq<Column>
    var rows: seq<Row>
    var newColumnName: string
    var formula: string
    var filterValue: string
    var combineColumns: CombineInputs
    var loading: bool
    /** The request whose reply is awaited, if any. */
    var pending: Option<Request>

    /** The busy flag is set exactly while a request is outstanding. */
    ghost predicate Valid()
      reads this
    {
      loading <==> pending.Some?
    }

    function Current(): Snapshot
      reads this
    {
      Snapshot(columns, rows)
    }

    function CurrentInputs(): Inputs
      reads this
    {
      Inputs(newColumnName, formula, filterValue, combineColumns)
    }

    constructor ()
      ensures Valid() && !loading
      ensures Current() == Snapshot([], [])
      ensures CurrentInputs() == Inputs("", "", "", CombineInputs("", "", ""))
    {
      columns, rows := [], [];
      newColumnName, formula, filterValue := "", "", "";
      combineColumns := CombineInputs("", "", "");
      loading, pending := false, None;
    }

    method SetNewColumnName(value: string)
      modifies this
      ensures newColumnName == value
      ensures Current() == old(Current()) && loading == old(loading) && pending == old(pending)
      ensures formula == old(formula) && filterValue == old(filterValue) && combineColumns == old(combineColumns)
    {
      newColumnName := value;
    }

    method SetFormula(value: string)
      modifies this
      ensures formula == value
      ensures Current() == old(Current()) && loading == old(loading) && pending == old(pending)
      ensures newColumnName == old(newColumnName) && filterValue == old(filterValue) && combineColumns == old(combineColumns)
    {
      formula := value;
    }

    method SetFilterValue(value: string)
      modifies this
      ensures filterValue == value
      ensures Current() == old(Current()) && loading == old(loading) && pending == old(pending)
      ensures newColumnName == old(newColumnName) && formula == old(formula) && combineColumns == old(combineColumns)
    {
      filterValue := value;
    }

    /** `setCombineColumns({ ...combineColumns, column1: value })` */
    method SetCombineColumn1(value: string)
      modifies this
      ensures combineColumns == old(combineColumns).(column1 := value)
      ensures Current() == old(Current()) && loading == old(loading) && pending == old(pending)
      ensures newColumnName == old(newColumnName) && formula == old(formula) && filterValue == old(filterValue)
    {
      combineColumns := combineColumns.(column1 := value);
    }

    /** `setCombineColumns({ ...combineColumns, column2: value })` */
    method SetCombineColumn2(value: string)
      modifies this
      ensures combineColumns == old(combineColumns).(column2 := value)
      ensures Current() == old(Current()) && loading == old(loading) && pending == old(pending)
      ensures newColumnName == old(newColumnName) && formula == old(formula) && filterValue == old(filterValue)
    {
      combineColumns := combineColumns.(column2 := value);
    }

    /** `setCombineColumns({ ...combineColumns, newColumnName: value })` */
    method SetCombineNewColumnName(value: string)
      modifies this
      ensures combineColumns == old(combineColumns).(newColumnName := value)
      ensures Current() == old(Current()) && loading == old(loading) && pending == old(pending)
      ensures newColumnName == old(newColumnName) && formula == old(formula) && filterValue == old(filterValue)
    {
      combineColumns := combineColumns.(newColumnName := value);
    }

    /** The file reader's `onload`: the grid is replaced by the parsed sheet. */
    method Upload(sheet: seq<seq<Cell>>)
      requires |sheet| >= 1
      modifies this
      ensures Current() == ParseSheet(sheet)
      ensures CurrentInputs() == old(CurrentInputs()) && loading == old(loading) && pending == old(pending)
    {
      var headers := sheet[0];
      var dataRows := sheet[1..];
      var gridColumns := HeaderColumns(headers);
      var gridRows: seq<Row> := [];
      var id := 0;
      while id < |dataRows|
        modifies {}
        invariant 0 <= id <= |dataRows|
        invariant |gridRows| == id
        invariant forall k :: 0 <= k < id ==> gridRows[k] == WithId(Num(k), RowData(headers, sheet[k + 1]))
      {
        var rowData := FillRowData(headers, dataRows[id]);
        gridRows := gridRows + [WithId(Num(id), rowData)];
        id := id + 1;
      }
      columns := gridColumns;
      rows := gridRows;
    }

    /** `handleAddColumn` up to the awaited request: with no new column name or
        no rows it alerts and sends nothing; otherwise it sets the busy flag and
        posts the rows, the name and the formula. */
    method AddColumn() returns (sent: Option<Request>)
      requires Valid() && !loading
      modifies this
      ensures Valid()
      ensures Current() == old(Current()) && CurrentInputs() == old(CurrentInputs())
      ensures sent.None? <==> newColumnName == "" || rows == []
      ensures sent.Some? ==> sent.value == AddColumnRequest(rows, newColumnName, formula)
      ensures loading == sent.Some? && pending == sent
    {
      if newColumnName == "" || |rows| == 0 {
        sent := None;
        return;
      }
      sent := Some(AddColumnRequest(rows, newColumnName, formula));
      loading := true;
      pending := sent;
    }

    /** `handleFilterRows` up to the awaited request. */
    method FilterRows() returns (sent: Option<Request>)
      requires Valid() && !loading
      modifies this
      ensures Valid()
      ensures Current() == old(Current()) && CurrentInputs() == old(CurrentInputs())
      ensures sent.None? <==> filterValue == "" || rows == []
      ensures sent.Some? ==> sent.value == FilterRowsRequest(rows, filterValue)
      ensures loading == sent.Some? && pending == sent
    {
      if filterValue == "" || |rows| == 0 {
        sent := None;
        return;
      }
      sent := Some(FilterRowsRequest(rows, filterValue));
      loading := true;
      pending := sent;
    }

    /** `handleCombineColumns` up to the awaited request. */
    method CombineColumns() returns (sent: Option<Request>)
      requires Valid() && !loading
      modifies this
      ensures Valid()
      ensures Current() == old(Current()) && CurrentInputs() == old(CurrentInputs())
      ensures sent.None? <==>
        combineColumns.column1 == "" || combineColumns.column2 == "" || combineColumns.newColumnName == "" || rows == []
      ensures sent.Some? ==>
        sent.value == CombineColumnsRequest(rows, combineColumns.column1, combineColumns.column2, combineColumns.newColumnName)
      ensures loading == sent.Some? && pending == sent
    {
      var CombineInputs(column1, column2, name) := combineColumns;
      if column1 == "" || column2 == "" || name == "" || |rows| == 0 {
        sent := None;
        return;
      }
      sent := Some(CombineColumnsRequest(rows, column1, column2, name));
      loading := true;
      pending := sent;
    }

    /** The rest of `handleAPIRequest` once the awaited request settles: the
        success callback runs inside the try, a failure alerts, and the
        `finally` clears the busy flag on every path. */
    method Settle(reply: Reply) returns (alerted: bool)
      requires Valid() && loading
      modifies this
      ensures Valid() && !loading && pending.None?
      ensures CurrentInputs() == old(CurrentInputs())
      ensures Outcome(Current(), alerted) == Resolve(old(pending.value), reply, old(Current()))
    {
      var request := pending.value;
      alerted := false;
      match reply {
        case Failed =>
          alerted := true;
        case Delivered(body) =>
          if body.rows.None? {
            alerted := true;
          } else {
            rows := ReconcileRows(body.rows.value);
            if !request.FilterRowsRequest? {
              if body.columns.None? {
                alerted := true;
              } else {
                columns := ReconcileColumns(body.columns.value);
              }
            }
          }
      }
      loading := false;
      pending := None;
    }
  }
}
