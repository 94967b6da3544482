/** The batching store: rows are rendered column by column into one flat argument list
    (storage/sqlstorage/sqlstorage.go; Context.Output of spider/request.go). */
module SqlStorage {
  import opened Spider
  import opened SqlText
  import opened Sums

  /** A value of a cell's data map, as the type switch in Flush sees it: nil, a string, or something
      with a JSON form or none. */
  datatype Value = Nil | Str(s: string) | Other(json: Option<string>)

  /** An entry of DataCell.Data. */
  datatype Entry = Plain(s: string) | Columns(data: map<string, Value>) | Opaque

  type DataCell = map<string, Entry>

  /** ItemFields by task name and rule name (engine.Store.Hash). */
  type Rules = map<string, map<string, seq<string>>>

  /** A missing task or rule is a nil dereference in Go. */
  function ItemFields(rules: Rules, task: string, rule: string): Option<seq<string>> {
    if task in rules && rule in rules[task] then Some(rules[task][rule]) else None
  }

  function PlainAt(cell: DataCell, key: string): Option<string> {
    if key in cell && cell[key].Plain? then Some(cell[key].s) else None
  }

  /** Context.Output: `time` is the formatted clock. */
  function Output(task: string, rule: string, url: string, data: Entry, time: string): DataCell {
    map["Task" := Plain(task), "Rule" := Plain(rule), "Data" := data, "URL" := Plain(url), "Time" := Plain(time)]
  }

  function RenderValue(v: Value): string {
    match v
    case Nil => ""
    case Str(s) => s
    case Other(Some(j)) => j
    case Other(None) => ""
  }

  /** A key absent from a Go map yields nil. */
  function RenderField(data: map<string, Value>, field: string): string {
    if field in data then RenderValue(data[field]) else ""
  }

  function RenderFields(data: map<string, Value>, fields: seq<string>): seq<string> {
    seq(|fields|, i requires 0 <= i < |fields| => RenderField(data, fields[i]))
  }

  function Extra(cell: DataCell, key: string): seq<string> {
    if PlainAt(cell, key).Some? then [PlainAt(cell, key).value] else []
  }

  datatype Row = NoRule | NoTask | Crash | Values(values: seq<string>)

  /** One turn of the outer loop of Flush. */
  function RowOf(rules: Rules, cell: DataCell): Row {
    if PlainAt(cell, "Rule").None? then NoRule
    else if PlainAt(cell, "Task").None? then NoTask
    else
      var fields := ItemFields(rules, PlainAt(cell, "Task").value, PlainAt(cell, "Rule").value);
      if fields.None? || "Data" !in cell || !cell["Data"].Columns? then Crash
      else Values(RenderFields(cell["Data"].data, fields.value) + Extra(cell, "URL") + Extra(cell, "Time"))
  }

  /** getFields: the item fields, then URL and Time. */
  function ColumnsOf(fields: seq<string>): seq<Field> {
    seq(|fields|, i requires 0 <= i < |fields| => Field(fields[i], "MEDIUMTEXT"))
    + [Field("URL", "VARCHAR(255)"), Field("Time", "VARCHAR(255)")]
  }

  function CellColumns(rules: Rules, cell: DataCell): Option<seq<Field>> {
    if PlainAt(cell, "Task").None? || PlainAt(cell, "Rule").None? then None
    else
      match ItemFields(rules, PlainAt(cell, "Task").value, PlainAt(cell, "Rule").value)
      case None => None
      case Some(fields) => Some(ColumnsOf(fields))
  }

  method GetFields(rules: Rules, cell: DataCell) returns (columns: Option<seq<Field>>)
    ensures columns == CellColumns(rules, cell)
    ensures columns.Some? <==>
              && "Task" in cell && cell["Task"].Plain? && cell["Task"].s in rules
              && "Rule" in cell && cell["Rule"].Plain? && cell["Rule"].s in rules[cell["Task"].s]
    ensures columns.Some? ==>
              var fields, c := rules[cell["Task"].s][cell["Rule"].s], columns.value;
              && |c| == |fields| + 2
              && (forall j | 0 <= j < |fields| :: c[j] == Field(fields[j], "MEDIUMTEXT"))
              && c[|fields|] == Field("URL", "VARCHAR(255)") && c[|fields| + 1] == Field("Time", "VARCHAR(255)")
  {
    if PlainAt(cell, "Task").None? || PlainAt(cell, "Rule").None? {
      return None;
    }
    var fields := ItemFields(rules, PlainAt(cell, "Task").value, PlainAt(cell, "Rule").value);
    if fields.None? {
      return None;
    }
    var names: seq<Field> := [];
    for i := 0 to |fields.value|
      invariant names == ColumnsOf(fields.value)[..i]
    {
      names := names + [Field(fields.value[i], "MEDIUMTEXT")];
    }
    return Some(names + [Field("URL", "VARCHAR(255)"), Field("Time", "VARCHAR(255)")]);
  }

  /** Rows one after the other. */
  function Flatten(rows: seq<seq<string>>): seq<string> {
    if |rows| == 0 then [] else Flatten(rows[..|rows| - 1]) + rows[|rows| - 1]
  }

  predicate Renders(rules: Rules, cells: seq<DataCell>) {
    forall c | c in cells :: RowOf(rules, c).Values?
  }

  function RowsOf(rules: Rules, cells: seq<DataCell>): seq<seq<string>>
    requires Renders(rules, cells)
  {
    seq(|cells|, i requires 0 <= i < |cells| => RowOf(rules, cells[i]).values)
  }

  function FirstBad(rules: Rules, cells: seq<DataCell>): (i: nat)
    ensures i <= |cells| && (forall k | 0 <= k < i :: RowOf(rules, cells[k]).Values?)
    ensures i < |cells| ==> !RowOf(rules, cells[i]).Values?
  {
    if |cells| == 0 || !RowOf(rules, cells[0]).Values? then 0 else 1 + FirstBad(rules, cells[1..])
  }

  /** What Flush makes of any cell: which error comes first, when it panics, and otherwise the text of every
      argument of the row. */
  lemma {:induction false} RowSpelledOut(rules: Rules, cell: DataCell)
    ensures RowOf(rules, cell) == NoRule <==> "Rule" !in cell || !cell["Rule"].Plain?
    ensures RowOf(rules, cell) == NoTask <==>
              && "Rule" in cell && cell["Rule"].Plain? && ("Task" !in cell || !cell["Task"].Plain?)
    ensures RowOf(rules, cell) == Crash <==>
              && "Rule" in cell && cell["Rule"].Plain? && "Task" in cell && cell["Task"].Plain?
              && (cell["Task"].s !in rules || cell["Rule"].s !in rules[cell["Task"].s]
                  || "Data" !in cell || !cell["Data"].Columns?)
    ensures RowOf(rules, cell).Values? ==>
              var fields, data := rules[cell["Task"].s][cell["Rule"].s], cell["Data"].data;
              var v := RowOf(rules, cell).values;
              && |v| >= |fields|
              && (forall j | 0 <= j < |fields| :: v[j] ==
                    if fields[j] !in data then ""
                    else match data[fields[j]]
                         case Nil => ""
                         case Str(text) => text
                         case Other(json) => if json.Some? then json.value else "")
              && v[|fields|..] == (if "URL" in cell && cell["URL"].Plain? then [cell["URL"].s] else [])
                                  + (if "Time" in cell && cell["Time"].Plain? then [cell["Time"].s] else [])
  {
    if RowOf(rules, cell).Values? {
      var fields, data := rules[cell["Task"].s][cell["Rule"].s], cell["Data"].data;
      var tail := Extra(cell, "URL") + Extra(cell, "Time");
      assert RowOf(rules, cell).values == RenderFields(data, fields) + tail;
    }
  }

  lemma {:induction false} BadHere(rules: Rules, cells: seq<DataCell>, i: nat)
    requires i < |cells| && i <= FirstBad(rules, cells) && !RowOf(rules, cells[i]).Values?
    ensures FirstBad(rules, cells) == i
  {
  }

  /** What Flush does to a buffer: nothing, the error of the first bad cell, or one insert. */
  datatype Flushed = Nothing | Failed(row: Row) | Insert(table: TableData)

  function FlushOf(rules: Rules, cells: seq<DataCell>): Flushed {
    var bad := FirstBad(rules, cells);
    if |cells| == 0 then Nothing
    else if bad < |cells| then Failed(RowOf(rules, cells[bad]))
    else Insert(TableData(PlainAt(cells[0], "Task").value, CellColumns(rules, cells[0]).value,
                          Flatten(RowsOf(rules, cells)), |cells|, false))
  }

  // ---------------------------------------------------------------- layout of the arguments

  lemma {:induction false} FlattenSnoc(rows: seq<seq<string>>, row: seq<string>)
    ensures Flatten(rows + [row]) == Flatten(rows) + row
  {
    assert (rows + [row])[..|rows|] == rows;
  }

  /** The arguments of one more cell follow those of the cells before it. */
  lemma {:induction false} FlattenNext(rules: Rules, cells: seq<DataCell>, i: nat)
    requires i < |cells| && i <= FirstBad(rules, cells) && RowOf(rules, cells[i]).Values?
    ensures i < FirstBad(rules, cells)
    ensures Flatten(RowsOf(rules, cells[..i + 1])) == Flatten(RowsOf(rules, cells[..i])) + RowOf(rules, cells[i]).values
  {
    var rows, value := RowsOf(rules, cells[..i]), RowOf(rules, cells[i]).values;
    assert RowsOf(rules, cells[..i + 1]) == rows + [value];
    FlattenSnoc(rows, value);
  }

  /** Rows of one width lie at multiples of it. */
  lemma {:induction false} FlattenAt(rows: seq<seq<string>>, width: nat, i: nat, j: nat)
    requires forall k :: 0 <= k < |rows| ==> |rows[k]| == width
    requires i < |rows| && j < width
    ensures |Flatten(rows)| == |rows| * width
    ensures i * width + j < |rows| * width && Flatten(rows)[i * width + j] == rows[i][j]
  {
    FlattenLength(rows, width);
    var n := |rows| - 1;
    FlattenLength(rows[..n], width);
    Below(i, n, width, j);
    if i < n {
      FlattenAt(rows[..n], width, i, j);
    }
  }

  lemma {:induction false} Below(i: nat, n: nat, width: nat, j: nat)
    requires i <= n && j < width
    ensures i * width + j < (n + 1) * width && (i < n ==> i * width + j < n * width)
  {
    assert (i + 1) * width == i * width + width;
    assert (i + 1) * width <= (n + 1) * width;
    assert i < n ==> (i + 1) * width <= n * width;
  }

  lemma {:induction false} FlattenLength(rows: seq<seq<string>>, width: nat)
    ensures (forall k :: 0 <= k < |rows| ==> |rows[k]| <= width) ==> |Flatten(rows)| <= |rows| * width
    ensures (forall k :: 0 <= k < |rows| ==> |rows[k]| == width) ==> |Flatten(rows)| == |rows| * width
    ensures (forall k :: 0 <= k < |rows| ==> |rows[k]| <= width) && |Flatten(rows)| == |rows| * width ==>
              forall k :: 0 <= k < |rows| ==> |rows[k]| == width
  {
    if |rows| == 0 {
    } else {
      var n := |rows| - 1;
      FlattenLength(rows[..n], width);
      assert |rows| * width == n * width + width;
      assert forall k :: 0 <= k < n ==> rows[..n][k] == rows[k];
    }
  }

  /** Cells of one task and rule whose rows render. */
  ghost predicate SameRule(rules: Rules, cells: seq<DataCell>, fields: seq<string>) {
    forall c | c in cells ::
      && RowOf(rules, c).Values?
      && ItemFields(rules, PlainAt(c, "Task").value, PlainAt(c, "Rule").value) == Some(fields)
  }

  predicate Complete(cell: DataCell) {
    PlainAt(cell, "URL").Some? && PlainAt(cell, "Time").Some?
  }

  /** How many placeholders the statement for a flushed buffer prints. */
  function Placeholders(t: TableData): nat
    requires t.dataCount > 0
  {
    Count(InsertText(t.tableName, Titles(t.columnNames), t.dataCount), '?')
  }

  lemma {:induction false} RowWidths(rules: Rules, cells: seq<DataCell>, fields: seq<string>)
    requires SameRule(rules, cells, fields)
    ensures var rows := RowsOf(rules, cells);
            forall k | 0 <= k < |rows| ::
              |rows[k]| <= |fields| + 2 && (|rows[k]| == |fields| + 2 <==> Complete(cells[k]))
  {
    assert forall k | 0 <= k < |cells| :: cells[k] in cells;
  }

  lemma {:induction false} FlushShape(rules: Rules, cells: seq<DataCell>, fields: seq<string>)
    requires |cells| > 0 && SameRule(rules, cells, fields)
    ensures FlushOf(rules, cells) ==
            Insert(TableData(PlainAt(cells[0], "Task").value, ColumnsOf(fields),
                             Flatten(RowsOf(rules, cells)), |cells|, false))
  {
    assert cells[0] in cells;
  }

  /** For a buffer of one rule, Flush passes as many arguments as its statement prints placeholders
      exactly when every cell carries its URL and its time. */
  lemma {:induction false} ArityIffComplete(rules: Rules, cells: seq<DataCell>, fields: seq<string>)
    requires |cells| > 0 && SameRule(rules, cells, fields)
    requires '?' !in PlainAt(cells[0], "Task").value && forall k :: 0 <= k < |fields| ==> '?' !in fields[k]
    ensures FlushOf(rules, cells).Insert?
    ensures var t := FlushOf(rules, cells).table;
            |t.args| == Placeholders(t) <==> forall c | c in cells :: Complete(c)
  {
    var width := |fields| + 2;
    FlushShape(rules, cells, fields);
    RowWidths(rules, cells, fields);
    FlattenLength(RowsOf(rules, cells), width);
    TitlesClean(fields);
    InsertPlaceholders(PlainAt(cells[0], "Task").value, Titles(ColumnsOf(fields)), |cells|);
    assert forall c | c in cells :: exists k :: 0 <= k < |cells| && cells[k] == c;
  }

  lemma {:induction false} TitlesClean(fields: seq<string>)
    requires forall k :: 0 <= k < |fields| ==> '?' !in fields[k]
    ensures var titles := Titles(ColumnsOf(fields));
            |titles| == |fields| + 2 && forall k :: 0 <= k < |titles| ==> '?' !in titles[k]
  {
    assert '?' !in "URL" && '?' !in "Time";
  }

  /** Cells made by Context.Output with map data: argument i * w + j is column j of cell i. In the columns of
      the item fields it is the text of a text value, the JSON of another value that has one, and nothing
      for nil, an absent key or a value without JSON; the last two columns are the URL and the time. */
  lemma {:induction false} RowMajor(
    rules: Rules, cells: seq<DataCell>, task: string, rule: string, fields: seq<string>,
    urls: seq<string>, datas: seq<map<string, Value>>, times: seq<string>, i: nat, j: nat)
    requires ItemFields(rules, task, rule) == Some(fields)
    requires |cells| == |urls| == |datas| == |times|
    requires forall k | 0 <= k < |cells| :: cells[k] == Output(task, rule, urls[k], Columns(datas[k]), times[k])
    requires i < |cells| && j < |fields| + 2
    ensures FlushOf(rules, cells).Insert?
    ensures var t, w := FlushOf(rules, cells).table, |fields| + 2;
            && t.tableName == task && |t.columnNames| == w && t.dataCount == |cells| && !t.autoKey
            && |t.args| == |cells| * w && i * w + j < |t.args|
            && t.columnNames[j] == (if j < |fields| then Field(fields[j], "MEDIUMTEXT")
                                    else Field(if j == |fields| then "URL" else "Time", "VARCHAR(255)"))
            && t.args[i * w + j] ==
               if j == |fields| then urls[i]
               else if j == |fields| + 1 then times[i]
               else if fields[j] !in datas[i] then ""
               else match datas[i][fields[j]]
                    case Nil => ""
                    case Str(text) => text
                    case Other(json) => if json.Some? then json.value else ""
  {
    OutputRows(rules, cells, task, rule, fields, urls, datas, times);
    FlattenAt(RowsOf(rules, cells), |fields| + 2, i, j);
    OutputRow(rules, task, rule, fields, urls[i], datas[i], times[i]);
  }

  lemma {:induction false} OutputRows(
    rules: Rules, cells: seq<DataCell>, task: string, rule: string, fields: seq<string>,
    urls: seq<string>, datas: seq<map<string, Value>>, times: seq<string>)
    requires ItemFields(rules, task, rule) == Some(fields)
    requires |cells| == |urls| == |datas| == |times|
    requires forall k | 0 <= k < |cells| :: cells[k] == Output(task, rule, urls[k], Columns(datas[k]), times[k])
    ensures FirstBad(rules, cells) == |cells|
    ensures forall k | 0 <= k < |cells| ::
              && RowOf(rules, cells[k]) == Values(RenderFields(datas[k], fields) + [urls[k]] + [times[k]])
              && PlainAt(cells[k], "Task") == Some(task) && CellColumns(rules, cells[k]) == Some(ColumnsOf(fields))
  {
    forall k | 0 <= k < |cells|
      ensures RowOf(rules, cells[k]) == Values(RenderFields(datas[k], fields) + [urls[k]] + [times[k]])
      ensures PlainAt(cells[k], "Task") == Some(task) && PlainAt(cells[k], "Rule") == Some(rule)
    {
      OutputRow(rules, task, rule, fields, urls[k], datas[k], times[k]);
    }
  }

  lemma {:induction false} OutputRow(rules: Rules, task: string, rule: string, fields: seq<string>,
                                     url: string, data: map<string, Value>, time: string)
    requires ItemFields(rules, task, rule) == Some(fields)
    ensures var cell := Output(task, rule, url, Columns(data), time);
            && RowOf(rules, cell) == Values(RenderFields(data, fields) + [url] + [time])
            && PlainAt(cell, "Task") == Some(task) && PlainAt(cell, "Rule") == Some(rule)
    ensures var cell := Output(task, rule, url, Columns(data), time);
            var v := RowOf(rules, cell).values;
            && |v| == |fields| + 2 && v[|fields|] == url && v[|fields| + 1] == time
            && forall j | 0 <= j < |fields| :: v[j] ==
                 if fields[j] !in data then ""
                 else match data[fields[j]]
                      case Nil => ""
                      case Str(text) => text
                      case Other(json) => if json.Some? then json.value else ""
  {
  }

  // ---------------------------------------------------------------- saving

  /** A call the store made to the database, with what a table creation answered. */
  datatype Call = Created(table: TableData, ok: bool) | Inserted(table: TableData)

  /** Everything Save reads besides the cells; `createOk` answers the n-th database call. */
  datatype Setting = Setting(rules: Rules, batchCount: int, createOk: nat -> bool)

  datatype Shelf = Shelf(docker: seq<DataCell>, tables: set<string>, calls: seq<Call>)

  const EMPTY_SHELF := Shelf([], {}, [])

  /** Go on, or a panic that leaves the store as it was at that point. */
  datatype Progress = Going(shelf: Shelf) | Panicked(shelf: Shelf)

  /** The table part of one turn of the loop in Save: None when creating the table failed. */
  function EnsureTable(g: Setting, s: Shelf, cell: DataCell): (Progress, bool) {
    var name := PlainAt(cell, "Task");
    if name.None? then (Panicked(s), false)
    else if name.value in s.tables then (Going(s), true)
    else
      var columns := CellColumns(g.rules, cell);
      if columns.None? then (Panicked(s), false)
      else
        var ok := g.createOk(|s.calls|);
        var t := s.(calls := s.calls + [Created(TableData(name.value, columns.value, [], 0, true), ok)]);
        if ok then (Going(t.(tables := t.tables + {name.value})), true) else (Going(t), false)
  }

  /** The buffer part: flush when full, ignore its error, append. */
  function Buffer(g: Setting, s: Shelf, cell: DataCell): Progress {
    var flushed := if |s.docker| >= g.batchCount then FlushOf(g.rules, s.docker) else Nothing;
    match flushed
    case Failed(Crash) => Panicked(s)
    case Insert(t) => Going(s.(calls := s.calls + [Inserted(t)], docker := s.docker + [cell]))
    case _ => Going(s.(docker := s.docker + [cell]))
  }

  function SaveOne(g: Setting, s: Shelf, cell: DataCell): Progress {
    var (p, ready) := EnsureTable(g, s, cell);
    if p.Going? && ready then Buffer(g, p.shelf, cell) else p
  }

  function SaveAll(g: Setting, s: Shelf, cells: seq<DataCell>): Progress {
    if |cells| == 0 then Going(s)
    else
      var before := SaveAll(g, s, cells[..|cells| - 1]);
      if before.Going? then SaveOne(g, before.shelf, cells[|cells| - 1]) else before
  }

  class SQLStore {
    const setting: Setting
    var dataDocker: seq<DataCell>
    var tables: set<string>
    var calls: seq<Call>

    function State(): Shelf
      reads this
    {
      Shelf(dataDocker, tables, calls)
    }

    constructor (setting: Setting)
      ensures this.setting == setting && State() == EMPTY_SHELF
    {
      this.setting, dataDocker, tables, calls := setting, [], {}, [];
    }

    /** The last inner loop of Flush, which copies a row into the arguments. */
    method AppendAll(args: seq<string>, value: seq<string>) returns (all: seq<string>)
      ensures all == args + value
    {
      all := args;
      for k := 0 to |value|
        invariant all == args + value[..k]
      {
        all := all + [value[k]];
        assert value[..k + 1] == value[..k] + [value[k]];
      }
      assert value[..|value|] == value;
    }

    /** The outer loop of Flush: the flat argument list, or the first bad cell. */
    method Gather() returns (args: seq<string>, failed: Option<Row>)
      ensures var rules, bad := setting.rules, FirstBad(setting.rules, dataDocker);
              if bad < |dataDocker| then failed == Some(RowOf(rules, dataDocker[bad]))
              else failed == None && args == Flatten(RowsOf(rules, dataDocker))
    {
      args := [];
      ghost var rules, bad := setting.rules, FirstBad(setting.rules, dataDocker);
      for i := 0 to |dataDocker|
        invariant i <= bad && args == Flatten(RowsOf(rules, dataDocker[..i]))
      {
        var row := Turn(dataDocker[i]);
        if !row.Values? {
          BadHere(rules, dataDocker, i);
          return args, Some(row);
        }
        FlattenNext(rules, dataDocker, i);
        args := AppendAll(args, row.values);
      }
      assert dataDocker[..|dataDocker|] == dataDocker;
      failed := None;
    }

    /** Builds the flat argument list and inserts it. The buffer is not cleared. */
    method Flush() returns (flushed: Flushed)
      modifies this`calls
      ensures flushed == FlushOf(setting.rules, dataDocker)
      ensures flushed == Nothing <==> |dataDocker| == 0
      ensures flushed.Failed? ==>
                var bad := FirstBad(setting.rules, dataDocker);
                bad < |dataDocker| && flushed.row == RowOf(setting.rules, dataDocker[bad])
      ensures flushed.Insert? ==>
                && Renders(setting.rules, dataDocker)
                && flushed.table.args == Flatten(RowsOf(setting.rules, dataDocker))
                && dataDocker[0]["Task"] == Plain(flushed.table.tableName)
                && CellColumns(setting.rules, dataDocker[0]) == Some(flushed.table.columnNames)
                && flushed.table.dataCount == |dataDocker| && !flushed.table.autoKey
      ensures calls == if flushed.Insert? then old(calls) + [Inserted(flushed.table)] else old(calls)
    {
      if |dataDocker| == 0 {
        return Nothing;
      }
      var args, failed := Gather();
      if failed.Some? {
        return Failed(failed.value);
      }
      var columns := GetFields(setting.rules, dataDocker[0]);
      var t := TableData(PlainAt(dataDocker[0], "Task").value, columns.value, args, |dataDocker|, false);
      calls := calls + [Inserted(t)];
      flushed := Insert(t);
    }

    /** The checks and the row of one turn of the outer loop of Flush. */
    method Turn(cell: DataCell) returns (row: Row)
      ensures row == RowOf(setting.rules, cell)
    {
      if PlainAt(cell, "Rule").None? {
        return NoRule;
      }
      if PlainAt(cell, "Task").None? {
        return NoTask;
      }
      var fields := ItemFields(setting.rules, PlainAt(cell, "Task").value, PlainAt(cell, "Rule").value);
      if fields.None? || "Data" !in cell || !cell["Data"].Columns? {
        return Crash;
      }
      var value := RowValues(cell, fields.value, cell["Data"].data);
      row := Values(value);
    }

    /** The inner loops of Flush: the fields in column order, then URL and Time when they are text. */
    method RowValues(cell: DataCell, fields: seq<string>, data: map<string, Value>) returns (value: seq<string>)
      ensures value == RenderFields(data, fields) + Extra(cell, "URL") + Extra(cell, "Time")
      ensures |value| >= |fields|
      ensures forall j | 0 <= j < |fields| :: value[j] ==
                if fields[j] !in data then ""
                else match data[fields[j]]
                     case Nil => ""
                     case Str(text) => text
                     case Other(json) => if json.Some? then json.value else ""
      ensures value[|fields|..] == (if "URL" in cell && cell["URL"].Plain? then [cell["URL"].s] else [])
                                   + (if "Time" in cell && cell["Time"].Plain? then [cell["Time"].s] else [])
    {
      value := [];
      for j := 0 to |fields|
        invariant value == RenderFields(data, fields)[..j]
      {
        if fields[j] !in data {
          value := value + [""];
        } else {
          match data[fields[j]] {
            case Nil => value := value + [""];
            case Str(s) => value := value + [s];
            case Other(json) => value := value + [if json.Some? then json.value else ""];
          }
        }
      }
      if PlainAt(cell, "URL").Some? {
        value := value + [PlainAt(cell, "URL").value];
      }
      if PlainAt(cell, "Time").Some? {
        value := value + [PlainAt(cell, "Time").value];
      }
    }

    method Save(cells: seq<DataCell>) returns (panicked: bool)
      modifies this
      ensures var p := SaveAll(setting, old(State()), cells);
              State() == p.shelf && panicked == p.Panicked?
    {
      panicked := false;
      var i := 0;
      while i < |cells| && !panicked
        invariant 0 <= i <= |cells|
        invariant var p := SaveAll(setting, old(State()), cells[..i]);
                  State() == p.shelf && panicked == p.Panicked?
      {
        assert cells[..i + 1][..i] == cells[..i];
        panicked := SaveCell(cells[i]);
        i := i + 1;
      }
      assert cells[..|cells|] == cells;
      if panicked {
        PanicStays(setting, old(State()), cells, i);
      }
    }

    /** One turn of the loop in Save. */
    method SaveCell(cell: DataCell) returns (panicked: bool)
      modifies this
      ensures var p := SaveOne(setting, old(State()), cell);
              State() == p.shelf && panicked == p.Panicked?
    {
      var ready;
      ready, panicked := MakeTable(cell);
      if ready {
        panicked := BufferCell(cell);
      }
    }

    /** Its first half: the cell's table is known, or created. */
    method MakeTable(cell: DataCell) returns (ready: bool, panicked: bool)
      modifies this`tables, this`calls
      ensures var (p, ok) := EnsureTable(setting, old(State()), cell);
              State() == p.shelf && panicked == p.Panicked? && ready == (p.Going? && ok)
    {
      var name := PlainAt(cell, "Task");
      if name.None? {
        return false, true;
      }
      if name.value in tables {
        return true, false;
      }
      var columns := GetFields(setting.rules, cell);
      if columns.None? {
        return false, true;
      }
      ready := setting.createOk(|calls|);
      calls := calls + [Created(TableData(name.value, columns.value, [], 0, true), ready)];
      if ready {
        tables := tables + {name.value};
      }
      panicked := false;
    }

    /** Its second half: a full buffer is flushed, whatever comes of it, and the cell appended. */
    method BufferCell(cell: DataCell) returns (panicked: bool)
      modifies this`dataDocker, this`calls
      ensures var p := Buffer(setting, old(State()), cell);
              State() == p.shelf && panicked == p.Panicked?
    {
      if |dataDocker| >= setting.batchCount {
        var flushed := Flush();
        if flushed == Failed(Crash) {
          return true;
        }
      }
      dataDocker := dataDocker + [cell];
      panicked := false;
    }
  }

  /** A panic ends the save: the cells after it change nothing. */
  lemma {:induction false} PanicStays(g: Setting, s: Shelf, cells: seq<DataCell>, i: nat)
    requires i <= |cells| && SaveAll(g, s, cells[..i]).Panicked?
    ensures SaveAll(g, s, cells) == SaveAll(g, s, cells[..i])
  {
    if i < |cells| {
      assert cells[..|cells| - 1][..i] == cells[..i];
      PanicStays(g, s, cells[..|cells| - 1], i);
    } else {
      assert cells[..i] == cells;
    }
  }

  /** What saving one cell does: a cell without a task, or of an unknown rule when its table is still to be
      created, is a panic; a failed creation skips the cell; otherwise a full buffer is flushed, whose errors
      are ignored and whose panics are not, and the cell is appended. */
  lemma {:induction false} SaveSpelledOut(g: Setting, s: Shelf, cell: DataCell)
    ensures var after := SaveOne(g, s, cell);
            if "Task" !in cell || !cell["Task"].Plain? then after == Panicked(s)
            else
              var name, columns := cell["Task"].s, CellColumns(g.rules, cell);
              if name !in s.tables && columns.None? then after == Panicked(s)
              else if name !in s.tables && !g.createOk(|s.calls|) then
                var call := Created(TableData(name, columns.value, [], 0, true), false);
                after == Going(Shelf(s.docker, s.tables, s.calls + [call]))
              else
                var made := if name in s.tables then []
                            else [Created(TableData(name, columns.value, [], 0, true), true)];
                var flushed := if |s.docker| >= g.batchCount then FlushOf(g.rules, s.docker) else Nothing;
                var sent := if flushed.Insert? then [Inserted(flushed.table)] else [];
                if flushed == Failed(Crash) then after == Panicked(Shelf(s.docker, s.tables + {name}, s.calls + made))
                else after == Going(Shelf(s.docker + [cell], s.tables + {name}, s.calls + made + sent))
  {
    var name := PlainAt(cell, "Task");
    if name.Some? && name.value in s.tables {
      assert s.tables + {name.value} == s.tables && s.calls + [] == s.calls;
    }
    var (p, ready) := EnsureTable(g, s, cell);
    assert p.shelf.calls + [] == p.shelf.calls;
  }

  // ---------------------------------------------------------------- tables before rows

  /** The table of this name was created, successfully, before call n. */
  ghost predicate CreatedBefore(calls: seq<Call>, n: nat, name: string) {
    exists i :: 0 <= i < n && i < |calls| && calls[i].Created? && calls[i].ok && calls[i].table.tableName == name
  }

  /** Rows only go to tables created before, and everything buffered belongs to a created table. */
  ghost predicate TablesFirst(s: Shelf) {
    && (forall n | 0 <= n < |s.calls| && s.calls[n].Inserted? :: CreatedBefore(s.calls, n, s.calls[n].table.tableName))
    && (forall name | name in s.tables :: CreatedBefore(s.calls, |s.calls|, name))
    && (forall c | c in s.docker :: PlainAt(c, "Task").Some? && PlainAt(c, "Task").value in s.tables)
  }

  lemma {:induction false} CallKeeps(calls: seq<Call>, n: nat, name: string, call: Call)
    requires CreatedBefore(calls, n, name)
    ensures CreatedBefore(calls + [call], n, name)
    ensures CreatedBefore(calls + [call], |calls| + 1, name)
  {
    var i :| 0 <= i < n && i < |calls| && calls[i].Created? && calls[i].ok && calls[i].table.tableName == name;
    assert (calls + [call])[i] == calls[i];
  }

  /** One more call that is a creation, or an insert into a created table. */
  lemma {:induction false} CallKeepsTablesFirst(s: Shelf, call: Call)
    requires TablesFirst(s)
    requires call.Inserted? ==> call.table.tableName in s.tables
    ensures TablesFirst(s.(calls := s.calls + [call]))
  {
    forall n | 0 <= n <= |s.calls| && (s.calls + [call])[n].Inserted?
      ensures CreatedBefore(s.calls + [call], n, (s.calls + [call])[n].table.tableName)
    {
      if n < |s.calls| {
        CallKeeps(s.calls, n, s.calls[n].table.tableName, call);
      } else {
        CallKeeps(s.calls, n, call.table.tableName, call);
      }
    }
    forall name | name in s.tables
      ensures CreatedBefore(s.calls + [call], |s.calls| + 1, name)
    {
      CallKeeps(s.calls, |s.calls|, name, call);
    }
  }

  lemma {:induction false} EnsureKeepsTablesFirst(g: Setting, s: Shelf, cell: DataCell)
    requires TablesFirst(s)
    ensures var (p, ready) := EnsureTable(g, s, cell);
            && TablesFirst(p.shelf)
            && (ready ==> PlainAt(cell, "Task").Some? && PlainAt(cell, "Task").value in p.shelf.tables)
  {
    var name := PlainAt(cell, "Task");
    if name.Some? && name.value !in s.tables && CellColumns(g.rules, cell).Some? {
      var ok := g.createOk(|s.calls|);
      var call := Created(TableData(name.value, CellColumns(g.rules, cell).value, [], 0, true), ok);
      CallKeepsTablesFirst(s, call);
      assert (s.calls + [call])[|s.calls|] == call;
    }
  }

  lemma {:induction false} BufferKeepsTablesFirst(g: Setting, s: Shelf, cell: DataCell)
    requires TablesFirst(s) && PlainAt(cell, "Task").Some? && PlainAt(cell, "Task").value in s.tables
    ensures TablesFirst(Buffer(g, s, cell).shelf)
  {
    var flushed := FlushOf(g.rules, s.docker);
    if flushed.Insert? {
      assert s.docker[0] in s.docker;
      CallKeepsTablesFirst(s, Inserted(flushed.table));
    }
  }

  /** However the saves, the failed creations, the failed flushes and the panics fall, rows are only ever
      sent to a table created before. */
  lemma {:induction false} SavesKeepTablesFirst(g: Setting, s: Shelf, cells: seq<DataCell>)
    requires TablesFirst(s)
    ensures TablesFirst(SaveAll(g, s, cells).shelf)
  {
    if |cells| == 0 {
    } else {
      SavesKeepTablesFirst(g, s, cells[..|cells| - 1]);
      var before := SaveAll(g, s, cells[..|cells| - 1]);
      if before.Going? {
        var cell := cells[|cells| - 1];
        EnsureKeepsTablesFirst(g, before.shelf, cell);
        var (p, ready) := EnsureTable(g, before.shelf, cell);
        if p.Going? && ready {
          BufferKeepsTablesFirst(g, p.shelf, cell);
        }
      }
    }
  }

  // ---------------------------------------------------------------- each table once

  /** The tables known are those created, and none is asked for again after it was created. */
  ghost predicate CreatesOnce(s: Shelf) {
    && (forall name :: name in s.tables <==> CreatedBefore(s.calls, |s.calls|, name))
    && (forall i, j | 0 <= i < j < |s.calls| && s.calls[i].Created? && s.calls[i].ok && s.calls[j].Created? ::
          s.calls[i].table.tableName != s.calls[j].table.tableName)
  }

  lemma {:induction false} CreatedSnoc(calls: seq<Call>, call: Call, name: string)
    ensures CreatedBefore(calls + [call], |calls| + 1, name) <==>
            CreatedBefore(calls, |calls|, name) || (call.Created? && call.ok && call.table.tableName == name)
  {
    if CreatedBefore(calls, |calls|, name) {
      CallKeeps(calls, |calls|, name, call);
    }
    if CreatedBefore(calls + [call], |calls| + 1, name) {
      var i :| 0 <= i < |calls| + 1 && (calls + [call])[i].Created? && (calls + [call])[i].ok
               && (calls + [call])[i].table.tableName == name;
      if i < |calls| {
        assert calls[i] == (calls + [call])[i];
      }
    }
    if call.Created? && call.ok && call.table.tableName == name {
      assert (calls + [call])[|calls|] == call;
    }
  }

  lemma {:induction false} CallKeepsCreatesOnce(s: Shelf, call: Call)
    requires CreatesOnce(s) && (call.Created? ==> call.table.tableName !in s.tables)
    ensures CreatesOnce(Shelf(s.docker, s.tables + (if call.Created? && call.ok then {call.table.tableName} else {}),
                              s.calls + [call]))
  {
    forall name
      ensures CreatedBefore(s.calls + [call], |s.calls| + 1, name) <==>
              CreatedBefore(s.calls, |s.calls|, name) || (call.Created? && call.ok && call.table.tableName == name)
    {
      CreatedSnoc(s.calls, call, name);
    }
    forall i, j | 0 <= i < j < |s.calls| + 1 && (s.calls + [call])[i].Created? && (s.calls + [call])[i].ok
                  && (s.calls + [call])[j].Created?
      ensures (s.calls + [call])[i].table.tableName != (s.calls + [call])[j].table.tableName
    {
      if j == |s.calls| {
        assert CreatedBefore(s.calls, |s.calls|, s.calls[i].table.tableName);
      }
    }
  }

  lemma {:induction false} SaveKeepsCreatesOnce(g: Setting, s: Shelf, cell: DataCell)
    requires CreatesOnce(s)
    ensures CreatesOnce(SaveOne(g, s, cell).shelf)
  {
    var name := PlainAt(cell, "Task");
    var (p, ready) := EnsureTable(g, s, cell);
    if name.Some? && name.value !in s.tables && CellColumns(g.rules, cell).Some? {
      var table := TableData(name.value, CellColumns(g.rules, cell).value, [], 0, true);
      CallKeepsCreatesOnce(s, Created(table, g.createOk(|s.calls|)));
      assert s.tables + {} == s.tables;
    }
    if p.Going? && ready && FlushOf(g.rules, s.docker).Insert? {
      CallKeepsCreatesOnce(p.shelf, Inserted(FlushOf(g.rules, s.docker).table));
      assert p.shelf.tables + {} == p.shelf.tables;
    }
  }

  /** Over any sequence of saves, whatever fails, no table is created again after it was created. */
  lemma {:induction false} SavesCreateOnce(g: Setting, cells: seq<DataCell>)
    ensures CreatesOnce(SaveAll(g, EMPTY_SHELF, cells).shelf)
  {
    if |cells| == 0 {
    } else {
      SavesCreateOnce(g, cells[..|cells| - 1]);
      SaveKeepsCreatesOnce(g, SaveAll(g, EMPTY_SHELF, cells[..|cells| - 1]).shelf, cells[|cells| - 1]);
    }
  }

  // ---------------------------------------------------------------- how often a row is sent

  /** Sizes of the inserted batches, in order. */
  function Batches(calls: seq<Call>): seq<int> {
    if |calls| == 0 then []
    else
      var last := calls[|calls| - 1];
      Batches(calls[..|calls| - 1]) + if last.Inserted? then [last.table.dataCount] else []
  }

  /** Batches that contain the i-th saved cell; a batch is always a prefix of what was saved. */
  function TimesSent(batches: seq<int>, i: nat): nat {
    if |batches| == 0 then 0
    else TimesSent(batches[..|batches| - 1], i) + if batches[|batches| - 1] > i then 1 else 0
  }

  /** Every insert so far sent a prefix of the saved cells. */
  ghost predicate SendsPrefixes(rules: Rules, calls: seq<Call>, cells: seq<DataCell>) {
    forall n | 0 <= n < |calls| && calls[n].Inserted? ::
      exists k: nat :: 0 < k <= |cells| && FlushOf(rules, cells[..k]) == Insert(calls[n].table)
  }

  /** Each save from the first that found the buffer full on has sent what was in it, up to the save that
      found a cell in it that does not render. `saved` cells are in the buffer, and `good` of them render
      before the first that does not. */
  ghost predicate SentSinceFull(batchCount: int, calls: seq<Call>, saved: nat, good: nat) {
    forall i: nat :: TimesSent(Batches(calls), i) == Max(0, Min(saved, good + 1) - Max(batchCount, i + 1))
  }

  /** What a store that started empty has sent of the cells in its buffer. */
  ghost predicate Grown(g: Setting, s: Shelf) {
    && SendsPrefixes(g.rules, s.calls, s.docker)
    && SentSinceFull(g.batchCount, s.calls, |s.docker|, FirstBad(g.rules, s.docker))
  }

  lemma {:induction false} SendOnceMore(batchCount: int, calls: seq<Call>, sent: Call, saved: nat, good: nat)
    requires SentSinceFull(batchCount, calls, saved, saved) && saved >= batchCount && saved <= good <= saved + 1
    requires sent.Inserted? && sent.table.dataCount == saved
    ensures SentSinceFull(batchCount, calls + [sent], saved + 1, good)
  {
    BatchesSnoc(calls, sent);
  }

  lemma {:induction false} NothingToSend(batchCount: int, calls: seq<Call>, saved: nat, good: nat, good': nat)
    requires SentSinceFull(batchCount, calls, saved, good) && good <= saved
    requires if good < saved then good' == good else (saved < batchCount || saved == 0) && saved <= good' <= saved + 1
    ensures SentSinceFull(batchCount, calls, saved + 1, good')
  {
  }

  lemma {:induction false} BatchesSnoc(calls: seq<Call>, call: Call)
    ensures Batches(calls + [call]) == Batches(calls) + if call.Inserted? then [call.table.dataCount] else []
    ensures forall i: nat :: TimesSent(Batches(calls + [call]), i) ==
              TimesSent(Batches(calls), i) + if call.Inserted? && call.table.dataCount > i then 1 else 0
  {
    assert (calls + [call])[..|calls|] == calls;
    var b := Batches(calls);
    if call.Inserted? {
      assert (b + [call.table.dataCount])[..|b|] == b;
    } else {
      assert b + [] == b;
    }
  }

  lemma {:induction false} PrefixesGrow(
    rules: Rules, calls: seq<Call>, cells: seq<DataCell>, call: Call, cell: DataCell)
    requires SendsPrefixes(rules, calls, cells)
    requires call.Inserted? ==> |cells| > 0 && FlushOf(rules, cells) == Insert(call.table)
    ensures SendsPrefixes(rules, calls + [call], cells) && SendsPrefixes(rules, calls + [call], cells + [cell])
  {
    forall n | 0 <= n < |calls + [call]| && (calls + [call])[n].Inserted?
      ensures exists k: nat :: 0 < k <= |cells| && FlushOf(rules, cells[..k]) == Insert((calls + [call])[n].table)
    {
      if n < |calls| {
        var k: nat :| 0 < k <= |cells| && FlushOf(rules, cells[..k]) == Insert(calls[n].table);
      } else {
        assert cells[..|cells|] == cells;
      }
    }
    PrefixesKeep(rules, calls + [call], cells, cell);
  }

  lemma {:induction false} PrefixesKeep(rules: Rules, calls: seq<Call>, cells: seq<DataCell>, cell: DataCell)
    requires SendsPrefixes(rules, calls, cells)
    ensures SendsPrefixes(rules, calls, cells + [cell])
  {
    forall n | 0 <= n < |calls| && calls[n].Inserted?
      ensures exists k: nat :: 0 < k <= |cells + [cell]|
                && FlushOf(rules, (cells + [cell])[..k]) == Insert(calls[n].table)
    {
      var k: nat :| 0 < k <= |cells| && FlushOf(rules, cells[..k]) == Insert(calls[n].table);
      assert (cells + [cell])[..k] == cells[..k];
    }
  }

  lemma {:induction false} FirstBadSnoc(rules: Rules, cells: seq<DataCell>, cell: DataCell)
    ensures FirstBad(rules, cells + [cell]) ==
            if FirstBad(rules, cells) < |cells| then FirstBad(rules, cells)
            else if RowOf(rules, cell).Values? then |cells| + 1 else |cells|
  {
    if |cells| == 0 {
      assert cells + [cell] == [cell];
    } else {
      assert (cells + [cell])[1..] == cells[1..] + [cell];
      FirstBadSnoc(rules, cells[1..], cell);
    }
  }

  lemma {:induction false} EnsureKeepsGrown(g: Setting, s: Shelf, cell: DataCell)
    requires Grown(g, s)
    ensures Grown(g, EnsureTable(g, s, cell).0.shelf) && EnsureTable(g, s, cell).0.shelf.docker == s.docker
  {
    var name := PlainAt(cell, "Task");
    if name.Some? && name.value !in s.tables && CellColumns(g.rules, cell).Some? {
      var table := TableData(name.value, CellColumns(g.rules, cell).value, [], 0, true);
      var made := Created(table, g.createOk(|s.calls|));
      BatchesSnoc(s.calls, made);
      PrefixesGrow(g.rules, s.calls, s.docker, made, cell);
    }
  }

  lemma {:induction false} BufferKeepsGrown(g: Setting, s: Shelf, cell: DataCell)
    requires Grown(g, s)
    ensures Grown(g, Buffer(g, s, cell).shelf)
    ensures Buffer(g, s, cell).shelf.docker == if Buffer(g, s, cell).Going? then s.docker + [cell] else s.docker
  {
    var n, good := |s.docker|, FirstBad(g.rules, s.docker);
    FirstBadSnoc(g.rules, s.docker, cell);
    if n >= g.batchCount && n > 0 && good == n {
      var sent := Inserted(FlushOf(g.rules, s.docker).table);
      SendOnceMore(g.batchCount, s.calls, sent, n, FirstBad(g.rules, s.docker + [cell]));
      PrefixesGrow(g.rules, s.calls, s.docker, sent, cell);
    } else {
      NothingToSend(g.batchCount, s.calls, n, good, FirstBad(g.rules, s.docker + [cell]));
      PrefixesKeep(g.rules, s.calls, s.docker, cell);
    }
  }

  lemma {:induction false} SaveKeepsGrown(g: Setting, s: Shelf, cell: DataCell)
    requires Grown(g, s)
    ensures var after := SaveOne(g, s, cell).shelf;
            Grown(g, after) && (after.docker == s.docker || after.docker == s.docker + [cell])
  {
    EnsureKeepsGrown(g, s, cell);
    var (p, ready) := EnsureTable(g, s, cell);
    if p.Going? && ready {
      BufferKeepsGrown(g, p.shelf, cell);
    }
  }

  /** Whatever creations and flushes fail, every save that finds the buffer full sends the whole of it
      again, until a cell in it does not render. */
  lemma {:induction false} BufferOnlyGrows(g: Setting, cells: seq<DataCell>)
    ensures Grown(g, SaveAll(g, EMPTY_SHELF, cells).shelf)
  {
    if |cells| == 0 {
    } else {
      var front, cell := cells[..|cells| - 1], cells[|cells| - 1];
      BufferOnlyGrows(g, front);
      SaveKeepsGrown(g, SaveAll(g, EMPTY_SHELF, front).shelf, cell);
    }
  }

  /** And saving never takes a cell out of the buffer. */
  lemma {:induction false} BufferKeepsCells(g: Setting, cells: seq<DataCell>, earlier: nat)
    requires earlier <= |cells|
    ensures SaveAll(g, EMPTY_SHELF, cells[..earlier]).shelf.docker <= SaveAll(g, EMPTY_SHELF, cells).shelf.docker
  {
    if earlier == |cells| {
      assert cells[..earlier] == cells;
    } else {
      var front, cell := cells[..|cells| - 1], cells[|cells| - 1];
      BufferKeepsCells(g, front, earlier);
      assert front[..earlier] == cells[..earlier];
      BufferOnlyGrows(g, front);
      SaveKeepsGrown(g, SaveAll(g, EMPTY_SHELF, front).shelf, cell);
    }
  }

  lemma {:induction false} RenderedIsAppended(g: Setting, s: Shelf, cell: DataCell)
    requires (forall n :: g.createOk(n)) && RowOf(g.rules, cell).Values? && Renders(g.rules, s.docker)
    ensures var p := SaveOne(g, s, cell);
            p.Going? && p.shelf.docker == s.docker + [cell]
  {
    assert g.createOk(|s.calls|);
    var (p, ready) := EnsureTable(g, s, cell);
    assert p.Going? && ready && p.shelf.docker == s.docker;
    AllRender(g.rules, s.docker);
  }

  /** With a database that always creates and cells that render, every cell saved is in the buffer. */
  lemma {:induction false} NothingSkipped(g: Setting, cells: seq<DataCell>)
    requires (forall n :: g.createOk(n)) && Renders(g.rules, cells)
    ensures var p := SaveAll(g, EMPTY_SHELF, cells);
            p.Going? && p.shelf.docker == cells && FirstBad(g.rules, cells) == |cells|
  {
    if |cells| == 0 {
    } else {
      var front, cell := cells[..|cells| - 1], cells[|cells| - 1];
      NothingSkipped(g, front);
      FirstBadSnoc(g.rules, front, cell);
      assert front + [cell] == cells && cell in cells;
      RenderedIsAppended(g, SaveAll(g, EMPTY_SHELF, front).shelf, cell);
    }
  }

  lemma {:induction false} AllRender(rules: Rules, cells: seq<DataCell>)
    requires Renders(rules, cells)
    ensures !FlushOf(rules, cells).Failed?
  {
    assert forall k | 0 <= k < |cells| :: cells[k] in cells;
  }

  /** So each row in the buffer is sent at most once exactly when no more than one cell was appended beyond
      a full buffer of cells that render. */
  lemma {:induction false} SentOnceIffFewCells(g: Setting, cells: seq<DataCell>)
    ensures var s := SaveAll(g, EMPTY_SHELF, cells).shelf;
            (forall i | 0 <= i < |s.docker| :: TimesSent(Batches(s.calls), i) <= 1) <==>
            Min(|s.docker|, FirstBad(g.rules, s.docker) + 1) <= Max(g.batchCount, 1) + 1
  {
    BufferOnlyGrows(g, cells);
    var s := SaveAll(g, EMPTY_SHELF, cells).shelf;
    var sent := Min(|s.docker|, FirstBad(g.rules, s.docker) + 1);
    assert TimesSent(Batches(s.calls), 0) == Max(0, sent - Max(g.batchCount, 1));
  }
}
