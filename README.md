# excel-ai grid and transformation service, modelled in Dafny

excel-ai is a browser spreadsheet grid backed by a small transformation
service. The grid (`ExcelDataGrid.jsx`) reads the first sheet of an uploaded
workbook and turns it into grid columns and rows. It then sends those rows to
the service with one of three operations:

- add a column computed by a formula;
- filter rows by a condition;
- combine two columns into a new one.

It merges the service's answer back into the grid. The service (`main.py`)
loads the posted rows into a data frame, checks its inputs, rewrites the
formula or condition so that column names are quoted in backticks
(`preprocess_condition`), transforms the frame and answers with its records and
column descriptors.

The model has five modules:

- `Values` (`values.dfy`): cells as JSON values, JavaScript truthiness, the
  string a value becomes as an object key, and decimal spelling of positions.
- `Condition` (`condition.dfy`): `preprocess_condition`, a left-to-right scan
  that copies characters and wraps qualifying column names. It follows the
  rules of Python's `re.sub`: alternatives are tried in column order, matches
  do not overlap, and an empty match cannot repeat at the same position. It
  is specified by what each piece is and where it may stand.
- `Protocol` (`protocol.dfy`): the request payloads and the reply as the
  client sees it.
- `ExcelDataGrid` (`grid.dfy`):
  - the parser as functions, with the in-place `forEach` fill as a method
    with a loop;
  - the reconciler as functions;
  - the component's state as the class `Grid`. Each handler is split into
    the part before the awaited request and `Settle`, which runs the success
    callback, the `catch` and the `finally`.
- `Service` (`service.dfy`):
  - the data frame as a class that `df[name] = ...` updates in place;
  - each endpoint as a method, proved equal to a response function;
  - lemmas that state what each endpoint promises.
- `Exchange` (`exchange.dfy`) joins the two sides. It turns a service answer
  into the client's reply and proves end-to-end facts about ids and columns.
  It also proves that every round trip keeps the grid's field-completeness
  invariant (`ExcelDataGrid.Complete`): each row's keys are exactly "id" and
  the column fields. What is proved is that every answer the service can
  give keeps it (`Exchange.FilterKeepsComplete`,
  `Exchange.AddColumnKeepsComplete`, `Exchange.CombineKeepsComplete`). A
  delivered body in general need not: rows that lack one of the grid's
  fields break it, and so does a 200 body without `columns` after add or
  combine, where the new rows are set, `data.columns.map` then throws and the
  old columns stay (`ExcelDataGrid.ResolveCases`). The service sends neither.

The reconciler's `{ id: index, ...row }` spreads the reply row after
the positional id, so a row that already has an `id` keeps it. The rows the
grid sends always carry `id`, and the service's frame echoes that column back,
so after a round trip the grid shows the ids it sent rather than fresh
positions `0..n-1`, unless add-column or combine-columns names its new
column `id`: `df["id"] = ...` then overwrites the echoed column, and the grid
shows the formula's values, or the joined strings, as ids. `ExcelDataGrid.ReconciledIdsEchoed`,
`Exchange.FilterRoundTripKeepsIds` and `Exchange.EchoedIdExample` prove this;
in the example the one row a filter keeps shows id 1, not 0. Positional ids
`0..n-1` are guaranteed only when the reply rows have no `id`
(`ExcelDataGrid.ReconciledIdsPositional`). For the same reason, the service's
columns after add-column include `id`, so the grid then shows an `id` column
(`Exchange.AddColumnShowsIdColumn`).

## Model

| member | source | states |
|---|---|---|
| Values.Digits | excel-ai-fe/src/components/ExcelDataGrid.jsx:33-34 | the decimal spelling of a position is non-empty, all digits, with no leading zero |
| Values.DigitsRoundTrip | excel-ai-fe/src/components/ExcelDataGrid.jsx:33-34 | reading the spelling back gives the number |
| Values.DigitsInjective | excel-ai-fe/src/components/ExcelDataGrid.jsx:33-34 | distinct positions are spelled differently |
| ExcelDataGrid.ParseSheet | excel-ai-fe/src/components/ExcelDataGrid.jsx:29-39 | one column per header cell: field is the header if truthy else `Column<i+1>`, headerName the header else `Column <i+1>`, width 150, editable; one row per sheet row after the first |
| ExcelDataGrid.FillRowData | excel-ai-fe/src/components/ExcelDataGrid.jsx:40-43 | the `forEach` loop fills `rowData` with exactly the parser's row data |
| ExcelDataGrid.RowDataKeys | excel-ai-fe/src/components/ExcelDataGrid.jsx:41-43 | the filled keys are exactly the field keys of the headers seen |
| ExcelDataGrid.RowDataLastWins | excel-ai-fe/src/components/ExcelDataGrid.jsx:41-43 | a key holds the cell, or "" for a missing or falsy cell, of the last header position that produces it |
| ExcelDataGrid.WithIdKeeps | excel-ai-fe/src/components/ExcelDataGrid.jsx:44 | `{ id, ...data }` keeps all of data's keys and values and adds "id", which is `id` only when data has none |
| ExcelDataGrid.ParsedRowShape | excel-ai-fe/src/components/ExcelDataGrid.jsx:39-45 | a parsed row's keys are {"id"} plus the fields; cells past the headers are dropped; each field's value is the cell if truthy else ""; the id is the data index unless a header spells "id" |
| ExcelDataGrid.ParsedRowsComplete | excel-ai-fe/src/components/ExcelDataGrid.jsx:32-45 | the parsed grid is complete: no field is empty and every row has exactly "id" and the fields of the parsed columns |
| ExcelDataGrid.FallbackFieldsDistinct | excel-ai-fe/src/components/ExcelDataGrid.jsx:33 | fallback field names of distinct positions differ |
| ExcelDataGrid.FieldsDistinct | excel-ai-fe/src/components/ExcelDataGrid.jsx:32-37 | fields are unique when named headers have distinct keys that spell no fallback name |
| ExcelDataGrid.DuplicateHeaderExample | excel-ai-fe/src/components/ExcelDataGrid.jsx:32-45 | two equal headers give two columns with one field, and the row keeps only the later cell |
| ExcelDataGrid.UploadExample | excel-ai-fe/src/components/ExcelDataGrid.jsx:29-48 | a sheet with headers Income and Tax and rows [100,10] and [200,0] parses to the expected columns and rows, with 0 collapsed to "" |
| ExcelDataGrid.ReconcileRows | excel-ai-fe/src/components/ExcelDataGrid.jsx:82-85 | reply order and length are kept; each row's keys are the reply's plus "id"; reply values win; the position is the id only when the reply row has none |
| ExcelDataGrid.ReconcileColumns | excel-ai-fe/src/components/ExcelDataGrid.jsx:88-93 | one column per descriptor in order, with the positional fallback for falsy labels, width 150 and editable |
| ExcelDataGrid.ReconciledIdsPositional | excel-ai-fe/src/components/ExcelDataGrid.jsx:82-85 | when no reply row has an id, the ids are exactly 0..n-1 |
| ExcelDataGrid.ReconciledIdsEchoed | excel-ai-fe/src/components/ExcelDataGrid.jsx:110-113 | when every reply row has an id, reconciliation changes nothing |
| ExcelDataGrid.ResolveCases | excel-ai-fe/src/components/ExcelDataGrid.jsx:54-67 | failure or missing rows: grid unchanged and alert; filter replaces only rows; add/combine replace rows, then columns, and missing columns leave new rows with old columns and alert |
| ExcelDataGrid.Grid.constructor | excel-ai-fe/src/components/ExcelDataGrid.jsx:11-17 | empty grid, empty inputs, not loading |
| ExcelDataGrid.Grid.SetNewColumnName | excel-ai-fe/src/components/ExcelDataGrid.jsx:160 | sets the new column name and nothing else |
| ExcelDataGrid.Grid.SetFormula | excel-ai-fe/src/components/ExcelDataGrid.jsx:166 | sets the formula and nothing else |
| ExcelDataGrid.Grid.SetFilterValue | excel-ai-fe/src/components/ExcelDataGrid.jsx:178 | sets the filter condition and nothing else |
| ExcelDataGrid.Grid.SetCombineColumn1 | excel-ai-fe/src/components/ExcelDataGrid.jsx:191 | replaces column1 of the combine inputs and nothing else |
| ExcelDataGrid.Grid.SetCombineColumn2 | excel-ai-fe/src/components/ExcelDataGrid.jsx:204 | replaces column2 of the combine inputs and nothing else |
| ExcelDataGrid.Grid.SetCombineNewColumnName | excel-ai-fe/src/components/ExcelDataGrid.jsx:216 | replaces the combine target name and nothing else |
| ExcelDataGrid.Grid.Upload | excel-ai-fe/src/components/ExcelDataGrid.jsx:29-48 | the grid becomes the parsed sheet; inputs and busy state stay |
| ExcelDataGrid.Grid.AddColumn | excel-ai-fe/src/components/ExcelDataGrid.jsx:69-81 | sends nothing (the alert) exactly when the name is empty or there are no rows; otherwise posts rows, name and formula and is busy; the grid is unchanged |
| ExcelDataGrid.Grid.FilterRows | excel-ai-fe/src/components/ExcelDataGrid.jsx:98-109 | sends nothing exactly when the condition is empty or there are no rows; otherwise posts rows and condition and is busy |
| ExcelDataGrid.Grid.CombineColumns | excel-ai-fe/src/components/ExcelDataGrid.jsx:118-132 | sends nothing exactly when a column, the target name or the rows are missing; otherwise posts them and is busy |
| ExcelDataGrid.Grid.Settle | excel-ai-fe/src/components/ExcelDataGrid.jsx:54-67 | not busy afterwards on every path; the grid and the alert are what the reply resolves to |
| Condition.Pick | excel-ai-be/main.py:49 | a matched alternative fits in the rest of the condition, and is non-empty right after an empty match |
| Condition.PickSpec | excel-ai-be/main.py:49 | the matched alternative at a position is the first eligible one in column order, or none is eligible |
| Condition.Next | excel-ai-be/main.py:49 | one step of the substitution: it stops only at the end with nothing matched, the piece starts at the position, and the scan moves forward unless the match was empty and did not follow an empty match |
| Condition.NextText | excel-ai-be/main.py:49 | a step's piece stands for exactly the text it covers |
| Condition.NextPlaced | excel-ai-be/main.py:48-49 | a step wraps a qualifying alternative, or copies a character where no non-empty alternative qualifies |
| Condition.NextFirstQualifying | excel-ai-be/main.py:48-49 | with non-empty names, a step wraps the first qualifying name in column order |
| Condition.ScanSource | excel-ai-be/main.py:49 | the text of the pieces is exactly the scanned condition |
| Condition.ScanPlaced | excel-ai-be/main.py:49 | a wrapped name qualifies where it stands; a copied character is the condition's and no non-empty name qualifies there |
| Condition.ScanContiguous | excel-ai-be/main.py:49 | pieces follow each other left to right without gap or overlap |
| Condition.ScanWrapsFirstQualifying | excel-ai-be/main.py:48-49 | with non-empty names, each wrapped name is the first in column order that qualifies at its offset |
| Condition.RenderWithoutWraps | excel-ai-be/main.py:49 | with nothing wrapped the rendering is the original text |
| Condition.PreprocessUnchanged | excel-ai-be/main.py:35-50 | a condition where no column name qualifies comes back unchanged |
| Condition.PreprocessSpec | excel-ai-be/main.py:35-50 | the rewrite renders the pieces with backticks around the wrapped names, and the pieces have all the properties above |
| Condition.OverlappingNamesExample | excel-ai-be/main.py:48-49 | with columns A and AB, "AB>A" becomes "\`AB\`>\`A\`" |
| Condition.QuotedNameExample | excel-ai-be/main.py:49 | a name already in backticks is left alone |
| Condition.EmptyGroupScan | excel-ai-be/main.py:48-49 | with the single empty alternative, the scan from any offset renders exactly the reference rewrite `EmptyGroupRewrite` |
| Condition.NoColumnsRewrite | excel-ai-be/main.py:48-49 | with no columns the rewrite puts an empty backtick pair at exactly the gaps that no word character or backtick touches, and keeps every character in order |
| Condition.NoColumnsExample | excel-ai-be/main.py:48-49 | with no columns "x >1" becomes "x \`\`>1" |
| Service.Frame | excel-ai-be/main.py:57 | records keep their count; each has exactly the frame's columns and keeps its own values |
| Service.WithColumn | excel-ai-be/main.py:69 | assigning a column adds its name once and keeps the existing columns in place and distinct |
| Service.Filter | excel-ai-be/main.py:94 | the kept records are records of the frame that satisfy the condition, no more of them than the frame has |
| Service.FilterComplete | excel-ai-be/main.py:94 | every record that satisfies the condition is kept |
| Service.FilterAppend | excel-ai-be/main.py:94 | filtering commutes with concatenation, so the original order is kept |
| Service.FilterKeepsAll | excel-ai-be/main.py:94 | a condition all records satisfy keeps the frame |
| Service.DataFrame.constructor | excel-ai-be/main.py:57 | the frame has the listed columns and the NaN-filled records, each with exactly those keys |
| Service.DataFrame.Assign | excel-ai-be/main.py:69 | `df[name] = values` sets the name on every record and keeps the frame well formed |
| Service.AddColumn | excel-ai-be/main.py:52-81 | the endpoint's answer is the add-column response |
| Service.FilterRows | excel-ai-be/main.py:83-101 | the endpoint's answer is the filter-rows response |
| Service.CombineColumns | excel-ai-be/main.py:103-122 | the endpoint's answer is the combine-columns response |
| Service.DescriptorsFollowColumns | excel-ai-be/main.py:75 | one descriptor per column in order, with field and headerName both the column name |
| Service.AddColumnGuard | excel-ai-be/main.py:63-64 | fewer than two columns is a 400 before the formula is evaluated, the same for every evaluator |
| Service.AddColumnSucceeds | excel-ai-be/main.py:66-81 | add-column fails with 400 exactly when the formula fails; on success rows keep count, gain the new values, keep other values, and descriptors carry width 150 and editable |
| Service.CombineColumnsFails | excel-ai-be/main.py:112-116 | a 400 naming both columns exactly when one of them is missing |
| Service.CombineColumnsSucceeds | excel-ai-be/main.py:118-122 | row count and order kept; the new column is str(column1) + " " + str(column2); other keys unchanged; descriptors in frame order |
| Service.FilterRowsSucceeds | excel-ai-be/main.py:91-101 | a 400 exactly when the condition is rejected; otherwise the records kept are exactly those satisfying it, with the columns unchanged |
| Exchange.ToReply | excel-ai-fe/src/components/ExcelDataGrid.jsx:57-63 | the request fails exactly when the service answers 400 or its records hold NaN (which JSON rendering refuses); otherwise the rows and the descriptors' names as labels are delivered |
| Exchange.KeyUnionHas | excel-ai-be/main.py:57 | a key of any posted row is a column of the frame |
| Exchange.FrameKeepsIds | excel-ai-be/main.py:57 | rows that carry ids come back from the frame with the same ids |
| Exchange.FilterRoundTripKeepsIds | excel-ai-fe/src/components/ExcelDataGrid.jsx:109-115 | after a filter of id-carrying rows, a 400 or a NaN-holding answer alerts and changes nothing; otherwise the grid shows exactly the kept records with their sent ids, and keeps its columns |
| Exchange.AddColumnShowsIdColumn | excel-ai-fe/src/components/ExcelDataGrid.jsx:88-94 | after a delivered add-column the grid has a column whose field is "id" |
| Exchange.ColumnsRoundTrip | excel-ai-fe/src/components/ExcelDataGrid.jsx:88-94 | after a delivered add or combine, the grid's columns are the service's columns in order, 150 wide and editable |
| Exchange.ErrorLeavesGrid | excel-ai-fe/src/components/ExcelDataGrid.jsx:61-63 | a service error, or an answer holding NaN, leaves the grid unchanged and alerts |
| Exchange.RaggedFilterFails | excel-ai-be/main.py:98-101 | a filter that keeps a posted row lacking one of the frame's columns answers with NaN, so the request fails and the grid alerts unchanged |
| Exchange.RaggedAddColumnFails | excel-ai-be/main.py:78-81 | add-column over a posted row lacking another frame column never reaches the grid: it alerts and nothing changes |
| Exchange.RaggedCombineFails | excel-ai-be/main.py:118-122 | combine-columns over a posted row lacking another frame column never reaches the grid: it alerts and nothing changes |
| Exchange.KeyUnionUniform | excel-ai-be/main.py:57 | records that all have the same keys give the frame exactly those columns |
| Exchange.FilterKeepsComplete | excel-ai-fe/src/components/ExcelDataGrid.jsx:109-115 | whatever the service answers, a filter round trip keeps a complete grid complete |
| Exchange.DeliveredColumnsComplete | excel-ai-fe/src/components/ExcelDataGrid.jsx:82-94 | a delivered answer whose records have exactly its non-empty columns, "id" among them, leaves the grid complete |
| Exchange.AssignedColumnsNamed | excel-ai-be/main.py:69 | after `df[name] = ...` on a complete grid's rows the frame's columns include "id" and none is empty |
| Exchange.AddColumnKeepsComplete | excel-ai-fe/src/components/ExcelDataGrid.jsx:81-95 | whatever the service answers, an add-column round trip keeps a complete grid complete |
| Exchange.CombineKeepsComplete | excel-ai-fe/src/components/ExcelDataGrid.jsx:132-146 | whatever the service answers, a combine-columns round trip keeps a complete grid complete |
| Exchange.EchoedIdExample | excel-ai-fe/src/components/ExcelDataGrid.jsx:110-113 | a filter that keeps the second of two rows shows it with id 1, not 0 |

## Left out

- Workbook decoding (`FileReader`, `XLSX.read`, `sheet_to_json`): the
  upload takes the resulting array of rows of cells. An empty sheet leaves
  `headers` undefined and `headers.map` at line 32 throws, so `Upload`
  requires at least one row. Holes in sparse
  arrays are not modelled.
- Transport (axios, FastAPI routing, CORS): a reply is delivered with its
  body or fails. Of the web framework's JSON rendering, only its refusal of
  NaN is modelled (`Exchange.Renderable`): an answer holding NaN is a server
  error, which the client sees as a failure. Request-body validation by the web framework (422) is not
  modelled.
- Formula and query semantics: `df.eval` and `df.query` are parameters.
  `eval` yields the new column's values (a scalar stands for its broadcast).
  `query` yields a per-row predicate, so conditions that use whole columns
  (such as a mean) are not modelled.
- Service.FilterRowsSucceeds: membership and order of the kept records are
  stated through `Filter` lemmas, not as an index-by-index subsequence map.
- Frame construction: the data-frame library's choice of column order is the
  parameter `keyOrder`, constrained to list each key of the rows once. The
  library's "Invalid data format" failure cannot arise for a list of
  records, so it is not modelled.
- Value formatting: `astype(str)` is the parameter `str`. Cells hold
  integers only; floats, float formatting and NaN arithmetic are not
  modelled.
- ExcelDataGrid.ParseSheet: a column's `field` and `headerName` are
  modelled as the header's string key (`KeyOf`). The code keeps the header's
  own value in both, so a numeric header stays a number there; only the row
  key, at line 42, is its string. Column fields are compared with row keys
  as strings throughout.
- Character classes: Unicode `\w` is the parameter `isWord`. The examples
  use ASCII letters, digits and `_`.
- Exception detail texts are not modelled; a 400 carries a tag for its
  cause.
- `alert` and `console.error`: an alert is a boolean outcome. A gated
  handler's alert is its empty result.
- Concurrency: the handlers require that no request is outstanding, as the
  disabled buttons ensure. The file input is not disabled, so `Grid.Upload`
  may run while a request is in flight; the later `Grid.Settle` then applies
  the reply to the uploaded grid, as the callbacks do. Only one request is
  outstanding at a time, and the order in which replies land is not
  modelled beyond that.
- Rendering: JSX, widgets, pagination and `theme.js` are not part of this
  model.
