/** The two components together: how a service answer reaches the grid, and
    what the grid then shows. */
module Exchange {
  import opened Values
  import opened Protocol
  import Condition
  import Service
  import ExcelDataGrid

  /** Every cell of the records is one JSON can carry. The service's JSON
      rendering refuses NaN, so an answer holding one becomes a server error. */
  predicate Renderable(rows: seq<Row>)
  {
    forall i, k :: 0 <= i < |rows| && k in rows[i] ==> !rows[i][k].NaN?
  }

  /** The reply the client sees: a 200 carries its body, with the descriptors'
      names as string labels; a 400, or a server error because a record holds
      NaN, makes `axios.post` reject. */
  function ToReply(response: Service.Response): (reply: Reply)
    ensures reply.Failed? <==> response.Error? || !Renderable(response.rows)
    ensures reply.Delivered? ==>
      && reply.body.rows == Some(response.rows)
      && reply.body.columns.Some?
      && |reply.body.columns.value| == |response.columns|
      && forall i :: 0 <= i < |response.columns| ==>
           reply.body.columns.value[i] == ColumnLabels(Str(response.columns[i].field), Str(response.columns[i].headerName))
  {
    match response
    case Error(_, _) => Failed
    case Ok(rows, columns) =>
      if !Renderable(rows) then Failed
      else
        Delivered(Body(Some(rows), Some(seq(|columns|, i requires 0 <= i < |columns| =>
          ColumnLabels(Str(columns[i].field), Str(columns[i].headerName))))))
  }

  lemma {:induction false} KeyUnionHas(records: seq<Row>, i: nat, key: string)
    requires i < |records| && key in records[i]
    ensures key in Service.KeyUnion(records)
  {
    if i > 0 {
      KeyUnionHas(records[1..], i - 1, key);
    }
  }

  /** Rows the grid sends all carry "id", so the service's frame has an "id"
      column and every record it answers with carries the sent id. */
  lemma FrameKeepsIds(rows: seq<Row>, keyOrder: seq<string>)
    requires Service.ColumnOrder(rows, keyOrder)
    requires forall i :: 0 <= i < |rows| ==> "id" in rows[i]
    ensures var records := Service.Frame(rows, keyOrder);
      forall i :: 0 <= i < |records| ==> "id" in records[i] && records[i]["id"] == rows[i]["id"]
  {
    if rows != [] {
      KeyUnionHas(rows, 0, "id");
    }
  }

  /** Filtering rows that carry ids: the grid shows exactly the records the
      service kept, with the ids they were sent with rather than new positions. */
  lemma FilterRoundTripKeepsIds(rows: seq<Row>, keyOrder: seq<string>, filterCondition: string,
                                query: Service.QueryEngine, isWord: char -> bool, before: ExcelDataGrid.Snapshot)
    requires Service.ColumnOrder(rows, keyOrder)
    requires forall i :: 0 <= i < |rows| ==> "id" in rows[i]
    ensures var response := Service.FilterRowsResponse(rows, keyOrder, filterCondition, query, isWord);
      var outcome := ExcelDataGrid.Resolve(FilterRowsRequest(rows, filterCondition), ToReply(response), before);
      && ((response.Error? || !Renderable(response.rows)) ==> outcome == ExcelDataGrid.Outcome(before, true))
      && ((response.Ok? && Renderable(response.rows)) ==>
            && !outcome.alerted
            && outcome.snapshot == ExcelDataGrid.Snapshot(before.columns, response.rows)
            && forall k :: 0 <= k < |response.rows| ==> "id" in response.rows[k])
  {
    var response := Service.FilterRowsResponse(rows, keyOrder, filterCondition, query, isWord);
    if response.Ok? && Renderable(response.rows) {
      var records := Service.Frame(rows, keyOrder);
      FrameKeepsIds(rows, keyOrder);
      forall k | 0 <= k < |response.rows| ensures "id" in response.rows[k] {
        assert response.rows[k] in records;
      }
      ExcelDataGrid.ReconciledIdsEchoed(response.rows);
    }
  }

  /** After a delivered add-column or combine-columns, the grid's columns are
      the service's columns in order, each named by its column name (when that
      name is not empty), 150 wide and editable. */
  lemma ColumnsRoundTrip(response: Service.Response, request: Request, before: ExcelDataGrid.Snapshot)
    requires response.Ok? && Renderable(response.rows) && !request.FilterRowsRequest?
    requires forall i :: 0 <= i < |response.columns| ==>
      response.columns[i].field != "" && response.columns[i].headerName != ""
    ensures var shown := ExcelDataGrid.Resolve(request, ToReply(response), before).snapshot.columns;
      && |shown| == |response.columns|
      && forall i :: 0 <= i < |shown| ==>
           shown[i] == ExcelDataGrid.Column(response.columns[i].field, response.columns[i].headerName, 150, true)
  {
  }

  /** The rows the grid sends carry "id", so the service's frame has an "id"
      column and, after a delivered add-column, the grid shows a column whose
      field is "id" although the uploaded sheet's columns had none. */
  lemma AddColumnShowsIdColumn(rows: seq<Row>, keyOrder: seq<string>, newColumnName: string, formula: string,
                               eval: Service.Evaluator, isWord: char -> bool, before: ExcelDataGrid.Snapshot)
    requires Service.ColumnOrder(rows, keyOrder) && rows != []
    requires forall i :: 0 <= i < |rows| ==> "id" in rows[i]
    ensures var response := Service.AddColumnResponse(rows, keyOrder, newColumnName, formula, eval, isWord);
      var request := AddColumnRequest(rows, newColumnName, formula);
      var shown := ExcelDataGrid.Resolve(request, ToReply(response), before).snapshot.columns;
      (response.Ok? && Renderable(response.rows)) ==> exists j :: 0 <= j < |shown| && shown[j].field == "id"
  {
    var response := Service.AddColumnResponse(rows, keyOrder, newColumnName, formula, eval, isWord);
    if response.Ok? && Renderable(response.rows) {
      KeyUnionHas(rows, 0, "id");
      assert "id" in Service.Elements(keyOrder);
      var j :| 0 <= j < |keyOrder| && keyOrder[j] == "id";
      var columns := Service.WithColumn(keyOrder, newColumnName);
      assert columns[..|keyOrder|] == keyOrder;
      assert columns[j] == "id";
      Service.AddColumnSucceeds(rows, keyOrder, newColumnName, formula, eval, isWord);
      assert response.columns[j].field == "id";
      var request := AddColumnRequest(rows, newColumnName, formula);
      var reply := ToReply(response);
      var labels := reply.body.columns.value;
      assert labels[j] == ColumnLabels(Str("id"), Str("id"));
      ExcelDataGrid.ResolveCases(request, reply, before);
      var shown := ExcelDataGrid.Resolve(request, reply, before).snapshot.columns;
      assert shown == ExcelDataGrid.ReconcileColumns(labels);
      assert shown[j].field == "id";
    }
  }

  /** Any service error, and any answer holding NaN, leaves the grid as it was
      and raises an alert. */
  lemma ErrorLeavesGrid(response: Service.Response, request: Request, before: ExcelDataGrid.Snapshot)
    requires response.Error? || !Renderable(response.rows)
    ensures ExcelDataGrid.Resolve(request, ToReply(response), before) == ExcelDataGrid.Outcome(before, true)
  {
  }

  /** Of two uploaded rows with ids 0 and 1, a filter that keeps only the second
      shows it with id 1: the id is the one the service echoed, not the position
      0 the reconciler would otherwise give it. */
  lemma EchoedIdExample(before: ExcelDataGrid.Snapshot)
    ensures var rows := [map["id" := Num(0), "A" := Num(1)], map["id" := Num(1), "A" := Num(5)]];
      var query := (columns: seq<string>, condition: string) =>
        Some((r: Row) => "A" in r && r["A"].Num? && r["A"].n > 2);
      var response := Service.FilterRowsResponse(rows, ["id", "A"], "A > 2", query, Condition.AsciiWord);
      ExcelDataGrid.Resolve(FilterRowsRequest(rows, "A > 2"), ToReply(response), before).snapshot.rows
        == [map["id" := Num(1), "A" := Num(5)]]
  {
    var rows := [map["id" := Num(0), "A" := Num(1)], map["id" := Num(1), "A" := Num(5)]];
    EchoedIdFrame();
    EchoedIdFilter();
    EchoedIdRenderable();
    ExcelDataGrid.ReconciledIdsEchoed([rows[1]]);
  }

  lemma EchoedIdFrame()
    ensures var rows := [map["id" := Num(0), "A" := Num(1)], map["id" := Num(1), "A" := Num(5)]];
      Service.Frame(rows, ["id", "A"]) == rows
  {
    var rows := [map["id" := Num(0), "A" := Num(1)], map["id" := Num(1), "A" := Num(5)]];
    var order := ["id", "A"];
    assert Service.Elements(order) == {"id", "A"} by {
      assert order[0] == "id" && order[1] == "A";
      forall x | x in Service.Elements(order) ensures x in {"id", "A"} {
        var i :| 0 <= i < |order| && order[i] == x;
      }
    }
    var records := Service.Frame(rows, order);
    assert records[0] == rows[0];
    assert records[1] == rows[1];
  }

  lemma EchoedIdRenderable()
    ensures Renderable([map["id" := Num(1), "A" := Num(5)]])
  {
    var rows: seq<Row> := [map["id" := Num(1), "A" := Num(5)]];
    forall i, k | 0 <= i < |rows| && k in rows[i] ensures !rows[i][k].NaN? {
      assert k == "id" || k == "A";
    }
  }

  lemma EchoedIdFilter()
    ensures var rows := [map["id" := Num(0), "A" := Num(1)], map["id" := Num(1), "A" := Num(5)]];
      Service.Filter(rows, (r: Row) => "A" in r && r["A"].Num? && r["A"].n > 2) == [rows[1]]
  {
    var rows := [map["id" := Num(0), "A" := Num(1)], map["id" := Num(1), "A" := Num(5)]];
    assert rows[1..][1..] == [];
  }

  // ---------------------------------------------------------------------------
  // Rows that lack a column

  /** A key of the frame is a key of its records. */
  lemma InElements(xs: seq<string>, x: string)
    requires x in xs
    ensures x in Service.Elements(xs)
  {
    var i :| 0 <= i < |xs| && xs[i] == x;
  }

  /** The frame fills a key that a posted row lacks with NaN. A filter that keeps
      that row therefore answers with a record the JSON rendering refuses: the
      request fails, the grid stays as it was and the user is alerted. */
  lemma RaggedFilterFails(rows: seq<Row>, keyOrder: seq<string>, filterCondition: string,
                          query: Service.QueryEngine, isWord: char -> bool, before: ExcelDataGrid.Snapshot,
                          i: nat, key: string)
    requires Service.ColumnOrder(rows, keyOrder)
    requires i < |rows| && key in keyOrder && key !in rows[i]
    requires var keep := query(keyOrder, Condition.Preprocess(filterCondition, keyOrder, isWord));
      keep.Some? && keep.value(Service.Frame(rows, keyOrder)[i])
    ensures var response := Service.FilterRowsResponse(rows, keyOrder, filterCondition, query, isWord);
      && ToReply(response).Failed?
      && ExcelDataGrid.Resolve(FilterRowsRequest(rows, filterCondition), ToReply(response), before)
           == ExcelDataGrid.Outcome(before, true)
  {
    var response := Service.FilterRowsResponse(rows, keyOrder, filterCondition, query, isWord);
    var keep := query(keyOrder, Condition.Preprocess(filterCondition, keyOrder, isWord)).value;
    var records := Service.Frame(rows, keyOrder);
    InElements(keyOrder, key);
    assert records[i][key] == NaN;
    Service.FilterComplete(records, keep, records[i]);
    var j :| 0 <= j < |response.rows| && response.rows[j] == records[i];
    assert !Renderable(response.rows);
  }

  /** Add-column over a posted row that lacks one of the frame's other columns
      never reaches the grid: the answer is a 400 or holds NaN. */
  lemma RaggedAddColumnFails(rows: seq<Row>, keyOrder: seq<string>, newColumnName: string, formula: string,
                             eval: Service.Evaluator, isWord: char -> bool, before: ExcelDataGrid.Snapshot,
                             i: nat, key: string)
    requires Service.ColumnOrder(rows, keyOrder)
    requires i < |rows| && key in keyOrder && key != newColumnName && key !in rows[i]
    ensures var response := Service.AddColumnResponse(rows, keyOrder, newColumnName, formula, eval, isWord);
      && ToReply(response).Failed?
      && ExcelDataGrid.Resolve(AddColumnRequest(rows, newColumnName, formula), ToReply(response), before)
           == ExcelDataGrid.Outcome(before, true)
  {
    var response := Service.AddColumnResponse(rows, keyOrder, newColumnName, formula, eval, isWord);
    if response.Ok? {
      Service.AddColumnSucceeds(rows, keyOrder, newColumnName, formula, eval, isWord);
      InElements(keyOrder, key);
      assert response.rows[i][key] == NaN;
    }
  }

  /** Combine-columns over a posted row that lacks one of the frame's other
      columns never reaches the grid: the answer is a 400 or holds NaN. */
  lemma RaggedCombineFails(rows: seq<Row>, keyOrder: seq<string>, column1: string, column2: string,
                           newColumnName: string, str: Cell -> string, before: ExcelDataGrid.Snapshot,
                           i: nat, key: string)
    requires Service.ColumnOrder(rows, keyOrder)
    requires i < |rows| && key in keyOrder && key != newColumnName && key !in rows[i]
    ensures var response := Service.CombineColumnsResponse(rows, keyOrder, column1, column2, newColumnName, str);
      && ToReply(response).Failed?
      && ExcelDataGrid.Resolve(CombineColumnsRequest(rows, column1, column2, newColumnName), ToReply(response), before)
           == ExcelDataGrid.Outcome(before, true)
  {
    var response := Service.CombineColumnsResponse(rows, keyOrder, column1, column2, newColumnName, str);
    if response.Ok? {
      Service.CombineColumnsSucceeds(rows, keyOrder, column1, column2, newColumnName, str);
      InElements(keyOrder, key);
      assert response.rows[i][key] == NaN;
    }
  }

  // ---------------------------------------------------------------------------
  // The field-completeness invariant across a round trip

  /** Records that all have the same keys give the frame exactly those columns. */
  lemma {:induction false} KeyUnionUniform(records: seq<Row>, keys: set<string>)
    requires records != [] && forall i :: 0 <= i < |records| ==> records[i].Keys == keys
    ensures Service.KeyUnion(records) == keys
  {
    if |records| > 1 {
      assert forall i :: 0 <= i < |records| - 1 ==> records[1..][i] == records[i + 1];
      KeyUnionUniform(records[1..], keys);
    } else {
      assert records[1..] == [];
    }
  }

  /** A filter round trip keeps a complete grid complete, whatever the service
      answers. */
  lemma FilterKeepsComplete(before: ExcelDataGrid.Snapshot, keyOrder: seq<string>, filterCondition: string,
                            query: Service.QueryEngine, isWord: char -> bool)
    requires ExcelDataGrid.Complete(before) && before.rows != []
    requires Service.ColumnOrder(before.rows, keyOrder)
    ensures var response := Service.FilterRowsResponse(before.rows, keyOrder, filterCondition, query, isWord);
      ExcelDataGrid.Complete(
        ExcelDataGrid.Resolve(FilterRowsRequest(before.rows, filterCondition), ToReply(response), before).snapshot)
  {
    var response := Service.FilterRowsResponse(before.rows, keyOrder, filterCondition, query, isWord);
    var request := FilterRowsRequest(before.rows, filterCondition);
    ExcelDataGrid.ResolveCases(request, ToReply(response), before);
    if ToReply(response).Delivered? {
      var keys := {"id"} + ExcelDataGrid.Fields(before.columns);
      KeyUnionUniform(before.rows, keys);
      var records := Service.Frame(before.rows, keyOrder);
      forall k | 0 <= k < |response.rows| ensures response.rows[k].Keys == keys {
        assert response.rows[k] in records;
      }
      var shown := ExcelDataGrid.ReconcileRows(response.rows);
      assert forall k :: 0 <= k < |shown| ==> shown[k].Keys == keys;
    }
  }

  /** A delivered add-column or combine-columns answer whose records all have
      exactly the descriptors' columns, "id" among them and none empty, leaves
      the grid complete. */
  lemma DeliveredColumnsComplete(response: Service.Response, request: Request, before: ExcelDataGrid.Snapshot,
                                 columns: seq<string>, width: Option<int>, editable: Option<bool>)
    requires response.Ok? && Renderable(response.rows) && !request.FilterRowsRequest?
    requires response.columns == Service.ColumnDescriptors(columns, width, editable)
    requires "id" in Service.Elements(columns) && forall i :: 0 <= i < |columns| ==> columns[i] != ""
    requires forall i :: 0 <= i < |response.rows| ==> response.rows[i].Keys == Service.Elements(columns)
    ensures ExcelDataGrid.Complete(ExcelDataGrid.Resolve(request, ToReply(response), before).snapshot)
  {
    var reply := ToReply(response);
    ExcelDataGrid.ResolveCases(request, reply, before);
    var snap := ExcelDataGrid.Resolve(request, reply, before).snapshot;
    var labels := reply.body.columns.value;
    assert snap.columns == ExcelDataGrid.ReconcileColumns(labels);
    forall i | 0 <= i < |columns| ensures snap.columns[i].field == columns[i] {
      assert labels[i] == ColumnLabels(Str(columns[i]), Str(columns[i]));
    }
    assert ExcelDataGrid.Fields(snap.columns) == Service.Elements(columns) by {
      forall x | x in Service.Elements(columns) ensures x in ExcelDataGrid.Fields(snap.columns) {
        var i :| 0 <= i < |columns| && columns[i] == x;
        assert snap.columns[i].field == x;
      }
      forall x | x in ExcelDataGrid.Fields(snap.columns) ensures x in Service.Elements(columns) {
        var i :| 0 <= i < |snap.columns| && snap.columns[i].field == x;
        assert columns[i] == x;
      }
    }
  }

  /** The frame's columns after `df[name] = ...` on rows of a complete grid:
      "id" among them and none empty. */
  lemma AssignedColumnsNamed(before: ExcelDataGrid.Snapshot, keyOrder: seq<string>, name: string)
    requires ExcelDataGrid.Complete(before) && before.rows != [] && name != ""
    requires Service.ColumnOrder(before.rows, keyOrder)
    ensures var columns := Service.WithColumn(keyOrder, name);
      && Service.Elements(keyOrder) == {"id"} + ExcelDataGrid.Fields(before.columns)
      && "id" in Service.Elements(columns)
      && forall i :: 0 <= i < |columns| ==> columns[i] != ""
  {
    KeyUnionUniform(before.rows, {"id"} + ExcelDataGrid.Fields(before.columns));
    var columns := Service.WithColumn(keyOrder, name);
    forall i | 0 <= i < |columns| ensures columns[i] != "" {
      assert columns[i] in Service.Elements(columns);
    }
  }

  /** An add-column round trip keeps a complete grid complete, whatever the
      service answers; the grid only sends a non-empty column name. */
  lemma AddColumnKeepsComplete(before: ExcelDataGrid.Snapshot, keyOrder: seq<string>, newColumnName: string,
                               formula: string, eval: Service.Evaluator, isWord: char -> bool)
    requires ExcelDataGrid.Complete(before) && before.rows != [] && newColumnName != ""
    requires Service.ColumnOrder(before.rows, keyOrder)
    ensures var response := Service.AddColumnResponse(before.rows, keyOrder, newColumnName, formula, eval, isWord);
      ExcelDataGrid.Complete(
        ExcelDataGrid.Resolve(AddColumnRequest(before.rows, newColumnName, formula), ToReply(response), before).snapshot)
  {
    var response := Service.AddColumnResponse(before.rows, keyOrder, newColumnName, formula, eval, isWord);
    var request := AddColumnRequest(before.rows, newColumnName, formula);
    ExcelDataGrid.ResolveCases(request, ToReply(response), before);
    if ToReply(response).Delivered? {
      Service.AddColumnSucceeds(before.rows, keyOrder, newColumnName, formula, eval, isWord);
      AssignedColumnsNamed(before, keyOrder, newColumnName);
      DeliveredColumnsComplete(response, request, before, Service.WithColumn(keyOrder, newColumnName),
                               Some(150), Some(true));
    }
  }

  /** A combine-columns round trip keeps a complete grid complete, whatever the
      service answers; the grid only sends a non-empty target name. */
  lemma CombineKeepsComplete(before: ExcelDataGrid.Snapshot, keyOrder: seq<string>, column1: string,
                             column2: string, newColumnName: string, str: Cell -> string)
    requires ExcelDataGrid.Complete(before) && before.rows != [] && newColumnName != ""
    requires Service.ColumnOrder(before.rows, keyOrder)
    ensures var response := Service.CombineColumnsResponse(before.rows, keyOrder, column1, column2, newColumnName, str);
      ExcelDataGrid.Complete(
        ExcelDataGrid.Resolve(CombineColumnsRequest(before.rows, column1, column2, newColumnName),
                              ToReply(response), before).snapshot)
  {
    var response := Service.CombineColumnsResponse(before.rows, keyOrder, column1, column2, newColumnName, str);
    var request := CombineColumnsRequest(before.rows, column1, column2, newColumnName);
    ExcelDataGrid.ResolveCases(request, ToReply(response), before);
    if ToReply(response).Delivered? {
      Service.CombineColumnsSucceeds(before.rows, keyOrder, column1, column2, newColumnName, str);
      AssignedColumnsNamed(before, keyOrder, newColumnName);
      DeliveredColumnsComplete(response, request, before, Service.WithColumn(keyOrder, newColumnName), None, None);
    }
  }
}
