/** The transformation service (main.py): three endpoints that load the posted
    rows into a data frame, check their inputs, transform the frame and answer
    with its records and column descriptors. The formula evaluator, the query
    engine and the string conversion of the data-frame library are parameters. */
module Service {
  import opened Values
  import opened Condition

  const BadRequest: int := 400
  const DescriptorWidth: int := 150

  /** Why an endpoint answered 400. */
  datatype Failure =
    | TooFewColumns
    | FormulaFailed
    | InvalidFilterCondition
    | ColumnsNotFound(column1: string, column2: string)

  /** A columns-metadata entry; add-column's entries carry a width and an
      editable flag, the other endpoints' entries leave them out. */
  datatype Descriptor = Descriptor(field: string, headerName: string, width: Option<int>, editable: Option<bool>)

  datatype Response =
    | Ok(rows: seq<Row>, columns: seq<Descriptor>)
    | Error(status: int, failure: Failure)

  /** `df.eval(expression)` on a frame with these columns and records: the
      values of the new column, or `None` when evaluation raises. */
  type Evaluator = (seq<string>, seq<Row>, string) -> Option<seq<Cell>>

  /** `df.query(condition)` on a frame with these columns: the row predicate the
      condition denotes, or `None` when the condition is rejected. */
  type QueryEngine = (seq<string>, string) -> Option<Row -> bool>

  // ---------------------------------------------------------------------------
  // Data frames

  predicate Distinct(xs: seq<string>)
  {
    forall i, j :: 0 <= i < j < |xs| ==> xs[i] != xs[j]
  }

  function Elements(xs: seq<string>): set<string>
  {
    set i | 0 <= i < |xs| :: xs[i]
  }

  /** Every key some record has. */
  function KeyUnion(records: seq<Row>): set<string>
  {
    if records == [] then {} else records[0].Keys + KeyUnion(records[1..])
  }

  /** `keyOrder` lists each key of the records once: the columns of
      `pd.DataFrame(records)`, whose order the library chooses. */
  predicate ColumnOrder(records: seq<Row>, keyOrder: seq<string>)
  {
    Distinct(keyOrder) && Elements(keyOrder) == KeyUnion(records)
  }

  /** A record's value in a column; records lacking the key hold NaN in the frame. */
  function Lookup(record: Row, column: string): Cell
  {
    if column in record then record[column] else NaN
  }

  /** The frame's records, `df.to_dict(orient="records")`: every record has
      exactly the frame's columns, and keeps the value it was given. */
  function Frame(records: seq<Row>, columns: seq<string>): (r: seq<Row>)
    ensures |r| == |records|
    ensures forall i :: 0 <= i < |records| ==>
      && r[i].Keys == Elements(columns)
      && (forall k :: k in records[i] && k in Elements(columns) ==> r[i][k] == records[i][k])
  {
    seq(|records|, i requires 0 <= i < |records| => map c | c in Elements(columns) :: Lookup(records[i], c))
  }

  /** The columns after `df[name] = ...`: an existing column keeps its place, a
      new one is appended. */
  function WithColumn(columns: seq<string>, name: string): (r: seq<string>)
    ensures Elements(r) == Elements(columns) + {name}
    ensures |columns| <= |r| && r[..|columns|] == columns
    ensures Distinct(columns) ==> Distinct(r)
  {
    if name in columns then columns
    else
      var r := columns + [name];
      assert Elements(r) == Elements(columns) + {name} by {
        assert r[|columns|] == name;
        forall x | x in Elements(r) ensures x in Elements(columns) + {name} {
          var i :| 0 <= i < |r| && r[i] == x;
          if i < |columns| { assert columns[i] == x; }
        }
        forall x | x in Elements(columns) ensures x in Elements(r) {
          var i :| 0 <= i < |columns| && columns[i] == x;
          assert r[i] == x;
        }
      }
      r
  }

  /** The records after `df[name] = values`. */
  function Assigned(records: seq<Row>, name: string, values: seq<Cell>): seq<Row>
    requires |values| == |records|
  {
    seq(|records|, i requires 0 <= i < |records| => records[i][name := values[i]])
  }

  /** One descriptor per column, in column order, naming the column twice. */
  function ColumnDescriptors(columns: seq<string>, width: Option<int>, editable: Option<bool>): seq<Descriptor>
  {
    seq(|columns|, i requires 0 <= i < |columns| => Descriptor(columns[i], columns[i], width, editable))
  }

  /** The records `df.query` keeps, in their original order. */
  function Filter(records: seq<Row>, keep: Row -> bool): (r: seq<Row>)
    ensures |r| <= |records|
    ensures forall x :: x in r ==> x in records && keep(x)
  {
    if records == [] then []
    else (if keep(records[0]) then [records[0]] else []) + Filter(records[1..], keep)
  }

  lemma {:induction false} FilterComplete(records: seq<Row>, keep: Row -> bool, x: Row)
    requires x in records && keep(x)
    ensures x in Filter(records, keep)
  {
    if records[0] != x {
      FilterComplete(records[1..], keep, x);
    }
  }

  /** Filtering commutes with concatenation, so kept records stay in order. */
  lemma {:induction false} FilterAppend(a: seq<Row>, b: seq<Row>, keep: Row -> bool)
    ensures Filter(a + b, keep) == Filter(a, keep) + Filter(b, keep)
  {
    if a == [] {
      assert a + b == b;
    } else {
      var head := if keep(a[0]) then [a[0]] else [];
      assert (a + b)[0] == a[0] && (a + b)[1..] == a[1..] + b;
      FilterAppend(a[1..], b, keep);
      calc {
        Filter(a + b, keep);
        head + Filter(a[1..] + b, keep);
        head + (Filter(a[1..], keep) + Filter(b, keep));
        (head + Filter(a[1..], keep)) + Filter(b, keep);
        Filter(a, keep) + Filter(b, keep);
      }
    }
  }

  /** A condition every record satisfies keeps the whole frame. */
  lemma {:induction false} FilterKeepsAll(records: seq<Row>, keep: Row -> bool)
    requires forall i :: 0 <= i < |records| ==> keep(records[i])
    ensures Filter(records, keep) == records
  {
    if records != [] {
      FilterKeepsAll(records[1..], keep);
    }
  }

  /** A frame that `df[name] = ...` updates in place. */
  class DataFrame {
    var columns: seq<string>
    var records: seq<Row>

    /** Column names are unique and every record has exactly those keys. */
    ghost predicate Valid()
      reads this
    {
      Distinct(columns) && forall i :: 0 <= i < |records| ==> records[i].Keys == Elements(columns)
    }

    /** `pd.DataFrame(rows)` with the column order the library picked. */
    constructor (rows: seq<Row>, keyOrder: seq<string>)
      requires ColumnOrder(rows, keyOrder)
      ensures Valid()
      ensures columns == keyOrder && records == Frame(rows, keyOrder)
    {
      columns := keyOrder;
      records := Frame(rows, keyOrder);
    }

    /** `df[name] = values`. */
    method Assign(name: string, values: seq<Cell>)
      requires Valid() && |values| == |records|
      modifies this
      ensures Valid()
      ensures columns == WithColumn(old(columns), name)
      ensures records == Assigned(old(records), name, values)
    {
      columns := WithColumn(columns, name);
      records := Assigned(records, name, values);
    }
  }

  // ---------------------------------------------------------------------------
  // Endpoint results

  /** The answer of /process/add-column. */
  function AddColumnResponse(rows: seq<Row>, keyOrder: seq<string>, newColumnName: string, formula: string,
                             eval: Evaluator, isWord: char -> bool): Response
  {
    if |keyOrder| < 2 then Error(BadRequest, TooFewColumns)
    else
      var records := Frame(rows, keyOrder);
      var values := eval(keyOrder, records, Preprocess(formula, keyOrder, isWord));
      if values.None? || |values.value| != |records| then Error(BadRequest, FormulaFailed)
      else Ok(Assigned(records, newColumnName, values.value),
              ColumnDescriptors(WithColumn(keyOrder, newColumnName), Some(DescriptorWidth), Some(true)))
  }

  /** The answer of /process/filter-rows. */
  function FilterRowsResponse(rows: seq<Row>, keyOrder: seq<string>, filterCondition: string,
                              query: QueryEngine, isWord: char -> bool): Response
  {
    var keep := query(keyOrder, Preprocess(filterCondition, keyOrder, isWord));
    if keep.None? then Error(BadRequest, InvalidFilterCondition)
    else Ok(Filter(Frame(rows, keyOrder), keep.value), ColumnDescriptors(keyOrder, None, None))
  }

  /** `df[column1].astype(str) + ' ' + df[column2].astype(str)` over the records. */
  function Combined(records: seq<Row>, column1: string, column2: string, str: Cell -> string): seq<Cell>
  {
    seq(|records|, i requires 0 <= i < |records| => Str(str(Lookup(records[i], column1)) + " " + str(Lookup(records[i], column2))))
  }

  /** The answer of /process/combine-columns. */
  function CombineColumnsResponse(rows: seq<Row>, keyOrder: seq<string>, column1: string, column2: string,
                                  newColumnName: string, str: Cell -> string): Response
  {
    if column1 !in keyOrder || column2 !in keyOrder then Error(BadRequest, ColumnsNotFound(column1, column2))
    else
      var records := Frame(rows, keyOrder);
      Ok(Assigned(records, newColumnName, Combined(records, column1, column2, str)),
         ColumnDescriptors(WithColumn(keyOrder, newColumnName), None, None))
  }

  // ---------------------------------------------------------------------------
  // Endpoints

  method AddColumn(rows: seq<Row>, keyOrder: seq<string>, newColumnName: string, formula: string,
                   eval: Evaluator, isWord: char -> bool) returns (response: Response)
    requires ColumnOrder(rows, keyOrder)
    ensures response == AddColumnResponse(rows, keyOrder, newColumnName, formula, eval, isWord)
  {
    var df := new DataFrame(rows, keyOrder);
    if |df.columns| < 2 {
      return Error(BadRequest, TooFewColumns);
    }
    var values := eval(df.columns, df.records, Preprocess(formula, df.columns, isWord));
    if values.None? || |values.value| != |df.records| {
      return Error(BadRequest, FormulaFailed);
    }
    df.Assign(newColumnName, values.value);
    response := Ok(df.records, ColumnDescriptors(df.columns, Some(DescriptorWidth), Some(true)));
  }

  method FilterRows(rows: seq<Row>, keyOrder: seq<string>, filterCondition: string,
                    query: QueryEngine, isWord: char -> bool) returns (response: Response)
    requires ColumnOrder(rows, keyOrder)
    ensures response == FilterRowsResponse(rows, keyOrder, filterCondition, query, isWord)
  {
    var df := new DataFrame(rows, keyOrder);
    var processedCondition := Preprocess(filterCondition, df.columns, isWord);
    var keep := query(df.columns, processedCondition);
    if keep.None? {
      return Error(BadRequest, InvalidFilterCondition);
    }
    var filtered := Filter(df.records, keep.value);
    response := Ok(filtered, ColumnDescriptors(df.columns, None, None));
  }

  method CombineColumns(rows: seq<Row>, keyOrder: seq<string>, column1: string, column2: string,
                        newColumnName: string, str: Cell -> string) returns (response: Response)
    requires ColumnOrder(rows, keyOrder)
    ensures response == CombineColumnsResponse(rows, keyOrder, column1, column2, newColumnName, str)
  {
    var df := new DataFrame(rows, keyOrder);
    if column1 !in df.columns || column2 !in df.columns {
      return Error(BadRequest, ColumnsNotFound(column1, column2));
    }
    df.Assign(newColumnName, Combined(df.records, column1, column2, str));
    response := Ok(df.records, ColumnDescriptors(df.columns, None, None));
  }

  // ---------------------------------------------------------------------------
  // Properties

  /** Descriptors name each column twice, in column order. */
  lemma DescriptorsFollowColumns(columns: seq<string>, width: Option<int>, editable: Option<bool>)
    ensures var d := ColumnDescriptors(columns, width, editable);
      |d| == |columns| &&
      forall i :: 0 <= i < |columns| ==>
        d[i].field == columns[i] && d[i].headerName == columns[i] && d[i].width == width && d[i].editable == editable
  {
  }

  /** Fewer than two columns is answered with 400 before the formula is looked
      at: the answer is the same for every evaluator. */
  lemma AddColumnGuard(rows: seq<Row>, keyOrder: seq<string>, newColumnName: string, formula: string,
                       eval1: Evaluator, eval2: Evaluator, isWord: char -> bool)
    requires |keyOrder| < 2
    ensures AddColumnResponse(rows, keyOrder, newColumnName, formula, eval1, isWord) == Error(400, TooFewColumns)
    ensures AddColumnResponse(rows, keyOrder, newColumnName, formula, eval1, isWord) ==
            AddColumnResponse(rows, keyOrder, newColumnName, formula, eval2, isWord)
  {
  }

  /** With two or more columns, add-column fails exactly when the formula fails,
      and otherwise keeps every row, gives each its value of the new column,
      keeps each other column's value and describes the columns with width 150
      and editable on. */
  lemma AddColumnSucceeds(rows: seq<Row>, keyOrder: seq<string>, newColumnName: string, formula: string,
                          eval: Evaluator, isWord: char -> bool)
    requires ColumnOrder(rows, keyOrder) && |keyOrder| >= 2
    ensures var values := eval(keyOrder, Frame(rows, keyOrder), Preprocess(formula, keyOrder, isWord));
      var r := AddColumnResponse(rows, keyOrder, newColumnName, formula, eval, isWord);
      && (r.Error? <==> values.None? || |values.value| != |rows|)
      && (r.Error? ==> r == Error(400, FormulaFailed))
      && (r.Ok? ==>
            && |r.rows| == |rows|
            && (forall i :: 0 <= i < |rows| ==>
                  && r.rows[i].Keys == Elements(keyOrder) + {newColumnName}
                  && r.rows[i][newColumnName] == values.value[i]
                  && (forall k :: k in keyOrder && k != newColumnName ==> r.rows[i][k] == Lookup(rows[i], k)))
            && r.columns == ColumnDescriptors(WithColumn(keyOrder, newColumnName), Some(150), Some(true)))
  {
  }

  /** Combine-columns fails exactly when a source column is missing. */
  lemma CombineColumnsFails(rows: seq<Row>, keyOrder: seq<string>, column1: string, column2: string,
                            newColumnName: string, str: Cell -> string)
    ensures var r := CombineColumnsResponse(rows, keyOrder, column1, column2, newColumnName, str);
      (r.Error? <==> column1 !in keyOrder || column2 !in keyOrder) &&
      (r.Error? ==> r == Error(400, ColumnsNotFound(column1, column2)))
  {
  }

  /** A successful combine keeps the row count and order, gives each row the
      two values joined by a space under the new name, leaves every other key
      as it was and describes the frame's columns in order. */
  lemma CombineColumnsSucceeds(rows: seq<Row>, keyOrder: seq<string>, column1: string, column2: string,
                               newColumnName: string, str: Cell -> string)
    requires ColumnOrder(rows, keyOrder) && column1 in keyOrder && column2 in keyOrder
    ensures var r := CombineColumnsResponse(rows, keyOrder, column1, column2, newColumnName, str);
      && r.Ok?
      && |r.rows| == |rows|
      && (forall i :: 0 <= i < |rows| ==>
            && r.rows[i].Keys == Elements(keyOrder) + {newColumnName}
            && r.rows[i][newColumnName] == Str(str(Lookup(rows[i], column1)) + " " + str(Lookup(rows[i], column2)))
            && (forall k :: k in keyOrder && k != newColumnName ==> r.rows[i][k] == Lookup(rows[i], k)))
      && r.columns == ColumnDescriptors(WithColumn(keyOrder, newColumnName), None, None)
  {
    var records := Frame(rows, keyOrder);
    forall i | 0 <= i < |rows|
      ensures Lookup(records[i], column1) == Lookup(rows[i], column1)
      ensures Lookup(records[i], column2) == Lookup(rows[i], column2)
    {
    }
  }

  /** Filter-rows answers with the frame's records that satisfy the condition,
      in their original order, and describes the unchanged columns. */
  lemma FilterRowsSucceeds(rows: seq<Row>, keyOrder: seq<string>, filterCondition: string,
                           query: QueryEngine, isWord: char -> bool)
    ensures var keep := query(keyOrder, Preprocess(filterCondition, keyOrder, isWord));
      var r := FilterRowsResponse(rows, keyOrder, filterCondition, query, isWord);
      && (r.Error? <==> keep.None?)
      && (r.Error? ==> r == Error(400, InvalidFilterCondition))
      && (r.Ok? ==>
            && (forall x :: x in r.rows <==> x in Frame(rows, keyOrder) && keep.value(x))
            && r.columns == ColumnDescriptors(keyOrder, None, None))
  {
    var keep := query(keyOrder, Preprocess(filterCondition, keyOrder, isWord));
    if keep.Some? {
      forall x | x in Frame(rows, keyOrder) && keep.value(x) ensures x in Filter(Frame(rows, keyOrder), keep.value) {
        FilterComplete(Frame(rows, keyOrder), keep.value, x);
      }
    }
  }
}
