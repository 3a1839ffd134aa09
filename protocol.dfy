/** What the browser grid and the transformation service exchange: the three
    request payloads and the reply the client sees once the HTTP exchange is over. */
module Protocol {
  import opened Values

  /** The JSON bodies posted to /process/add-column, /process/filter-rows and
      /process/combine-columns. */
  datatype Request =
    | AddColumnRequest(rows: seq<Row>, newColumnName: string, formula: string)
    | FilterRowsRequest(rows: seq<Row>, filterCondition: string)
    | CombineColumnsRequest(rows: seq<Row>, column1: string, column2: string, newColumnName: string)

  /** A column descriptor as the client reads it from `data.columns`. */
  datatype ColumnLabels = ColumnLabels(field: Cell, headerName: Cell)

  /** `response.data`; a member the service left out is `None`. */
  datatype Body = Body(rows: Option<seq<Row>>, columns: Option<seq<ColumnLabels>>)

  /** How the awaited `axios.post` ends: a 2xx response with its body, or a
      rejection (transport failure or non-2xx status). */
  datatype Reply = Delivered(body: Body) | Failed
}
