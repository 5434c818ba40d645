/** Turbo sync: rows are bound straight from the sync JSON into one reused insert statement, instead
    of being sanitized in JavaScript and sent over in a batch. */
module TurboSync {
  import opened Sequences
  import opened Results
  import opened RawRecords
  import opened BatchEncoding

  datatype Json = JsonNull | JsonBool(b: bool) | JsonNumber(n: real) | JsonText(s: string) | JsonComposite

  /** A JSON object: its fields in document order. */
  type JsonRecord = seq<(string, Json)>

  datatype SqlItem = Placeholder | Literal(text: string)

  datatype InsertStatement = InsertStatement(table: string, columns: seq<string>, values: seq<SqlItem>)

  // ---- The statement ----

  /** `insertSqlFor` */
  method InsertSqlFor(table: string, columns: seq<Column>) returns (sql: InsertStatement)
    ensures sql == InsertSql(table, columns)
  {
    sql := InsertStatement(table, ["id", "_status", "_changed"], [Placeholder, Literal("synced"), Literal("")]);
    for i := 0 to |columns|
      invariant sql.table == table && sql.values == [Placeholder, Literal("synced"), Literal("")]
      invariant sql.columns == ["id", "_status", "_changed"] + Names(columns[..i])
    {
      sql := sql.(columns := sql.columns + [columns[i].name]);
    }
    assert columns[..|columns|] == columns;
    for i := 0 to |columns|
      invariant sql == InsertSql(table, columns).(
                         values := [Placeholder, Literal("synced"), Literal("")] + seq(i, _ => Placeholder))
    {
      sql := sql.(values := sql.values + [Placeholder]);
    }
  }

  function Names(columns: seq<Column>): seq<string> {
    seq(|columns|, i requires 0 <= i < |columns| => columns[i].name)
  }

  function InsertSql(table: string, columns: seq<Column>): InsertStatement {
    InsertStatement(
      table,
      ["id", "_status", "_changed"] + Names(columns),
      [Placeholder, Literal("synced"), Literal("")] + seq(|columns|, _ => Placeholder))
  }

  /** How many parameters stand before item `k`: SQLite numbers the placeholders in order. */
  function ParametersBefore(values: seq<SqlItem>, k: nat): nat
    requires k <= |values|
  {
    if k == 0 then 0 else ParametersBefore(values, k - 1) + if values[k - 1].Placeholder? then 1 else 0
  }

  /** A row as SQLite stores it, by the names of its columns. */
  type NamedRow = map<string, SqliteValue>

  predicate NamesOnce(sql: InsertStatement) {
    |sql.columns| == |sql.values| && forall i, j :: 0 <= i < j < |sql.columns| ==> sql.columns[i] != sql.columns[j]
  }

  function ValueAt(sql: InsertStatement, slots: seq<SqliteValue>, k: nat): SqliteValue
    requires k < |sql.values| && ParametersBefore(sql.values, |sql.values|) == |slots|
  {
    match sql.values[k]
    case Literal(text) => SqlText(text)
    case Placeholder => ParametersGrow(sql.values, k); slots[ParametersBefore(sql.values, k)]
  }

  /** The row that the statement inserts: each value goes to the column that stands at its place in the list. */
  function InsertedRow(sql: InsertStatement, slots: seq<SqliteValue>): NamedRow
    requires NamesOnce(sql) && ParametersBefore(sql.values, |sql.values|) == |slots|
  {
    RowOf(sql.columns, seq(|sql.values|, k requires 0 <= k < |sql.values| => ValueAt(sql, slots, k)))
  }

  function RowOf(names: seq<string>, values: seq<SqliteValue>): NamedRow
    requires |names| == |values|
  {
    if names == [] then map[] else RowOf(names[1..], values[1..])[names[0] := values[0]]
  }

  lemma {:induction false} RowOfNames(names: seq<string>, values: seq<SqliteValue>, name: string)
    requires |names| == |values|
    ensures name in RowOf(names, values) <==> name in names
  {
    if names == [] {
    } else {
      RowOfNames(names[1..], values[1..], name);
    }
  }

  lemma {:induction false} RowOfValue(names: seq<string>, values: seq<SqliteValue>, k: nat)
    requires |names| == |values| && forall i, j :: 0 <= i < j < |names| ==> names[i] != names[j]
    requires k < |names|
    ensures names[k] in RowOf(names, values) && RowOf(names, values)[names[k]] == values[k]
  {
    if k == 0 {
    } else {
      RowOfValue(names[1..], values[1..], k - 1);
    }
  }

  lemma {:induction false} ParametersGrow(values: seq<SqlItem>, k: nat)
    requires k < |values|
    ensures ParametersBefore(values, k) <= ParametersBefore(values, |values|)
    ensures values[k].Placeholder? ==> ParametersBefore(values, k) < ParametersBefore(values, |values|)
    decreases |values| - k
  {
    if k + 1 < |values| {
      ParametersGrow(values, k + 1);
    }
  }

  lemma {:induction false} ParameterNumbers(table: string, columns: seq<Column>, k: nat)
    requires k <= |columns| + 3
    ensures ParametersBefore(InsertSql(table, columns).values, k) == if k == 0 then 0 else if k <= 3 then 1 else k - 2
  {
    if k == 0 {
    } else {
      ParameterNumbers(table, columns, k - 1);
    }
  }

  lemma StatementIsFit(table: string, columns: seq<Column>)
    requires DistinctNames(columns) && NoReservedNames(columns)
    ensures var sql := InsertSql(table, columns);
            NamesOnce(sql) && ParametersBefore(sql.values, |sql.values|) == |columns| + 1
  {
    ParameterNumbers(table, columns, |columns| + 3);
    assert forall j :: 0 <= j < |columns| ==> columns[j] in columns;
  }

  /** The value that the statement gives for the column at each place of its list. */
  lemma StatementValue(table: string, columns: seq<Column>, slots: seq<SqliteValue>, k: nat)
    requires DistinctNames(columns) && NoReservedNames(columns) && |slots| == |columns| + 1 && k < |columns| + 3
    ensures var sql := InsertSql(table, columns);
            && NamesOnce(sql) && ParametersBefore(sql.values, |sql.values|) == |slots| && |sql.columns| == |columns| + 3
            && sql.columns[k] in InsertedRow(sql, slots)
            && InsertedRow(sql, slots)[sql.columns[k]] ==
               if k == 0 then slots[0] else if k == 1 then SqlText("synced") else if k == 2 then SqlText("")
               else slots[k - 2]
  {
    var sql := InsertSql(table, columns);
    StatementIsFit(table, columns);
    ParameterNumbers(table, columns, k);
    RowOfValue(sql.columns, seq(|sql.values|, i requires 0 <= i < |sql.values| => ValueAt(sql, slots, i)), k);
  }

  /** What the statement stores under each name: parameter 1 as the id, parameter `j + 2` in column `j`, and
      every row is a synced one without changes. */
  lemma InsertedColumns(table: string, columns: seq<Column>, slots: seq<SqliteValue>)
    requires DistinctNames(columns) && NoReservedNames(columns) && |slots| == |columns| + 1
    ensures StoresAs(columns, RowFor(table, columns, slots), slots)
  {
    var sql, row := InsertSql(table, columns), RowFor(table, columns, slots);
    StatementValue(table, columns, slots, 0);
    StatementValue(table, columns, slots, 1);
    StatementValue(table, columns, slots, 2);
    forall j | 0 <= j < |columns|
      ensures columns[j].name in row && row[columns[j].name] == slots[j + 1]
    {
      StatementValue(table, columns, slots, j + 3);
    }
    forall name | name in row
      ensures name in ["id", "_status", "_changed"] || exists j :: 0 <= j < |columns| && columns[j].name == name
    {
      RowOfNames(sql.columns, seq(|sql.values|, i requires 0 <= i < |sql.values| => ValueAt(sql, slots, i)), name);
      var k :| 0 <= k < |sql.columns| && sql.columns[k] == name;
      assert k >= 3 ==> columns[k - 3].name == name;
    }
  }

  /** The row that the statement of the table inserts with these parameters. */
  function RowFor(table: string, columns: seq<Column>, slots: seq<SqliteValue>): NamedRow
    requires DistinctNames(columns) && NoReservedNames(columns) && |slots| == |columns| + 1
  {
    StatementIsFit(table, columns);
    InsertedRow(InsertSql(table, columns), slots)
  }

  /** A synced row without changes, whose id and columns are the parameters. */
  ghost predicate StoresAs(columns: seq<Column>, row: NamedRow, slots: seq<SqliteValue>)
    requires |slots| == |columns| + 1
  {
    && "id" in row && row["id"] == slots[0]
    && "_status" in row && row["_status"] == SqlText("synced")
    && "_changed" in row && row["_changed"] == SqlText("")
    && (forall j :: 0 <= j < |columns| ==> columns[j].name in row && row[columns[j].name] == slots[j + 1])
    && forall name :: name in row ==>
         name in ["id", "_status", "_changed"] || exists j :: 0 <= j < |columns| && columns[j].name == name
  }

  // ---- Binding ----

  /** What is bound for a field of the JSON record, if its type is acceptable for the column. */
  function Accepted(value: Json, column: Column): Option<SqliteValue> {
    match (column.kind, value)
    case (StringColumn, JsonText(s)) => Some(SqlText(s))
    case (BooleanColumn, JsonBool(b)) => Some(SqlNumber(if b then 1.0 else 0.0))
    case (BooleanColumn, JsonNumber(n)) => if n == 0.0 || n == 1.0 then Some(SqlNumber(n)) else None
    case (NumberColumn, JsonNumber(n)) => Some(SqlNumber(n))
    case _ => None
  }

  function DefaultSlot(column: Column): SqliteValue {
    if column.isOptional then SqlNull
    else match column.kind
      case StringColumn => SqlText("")
      case BooleanColumn => SqlNumber(0.0)
      case NumberColumn => SqlNumber(0.0)
  }

  /** The value bound for a column after all fields: the last acceptable one, or the default. */
  function BoundColumn(fields: JsonRecord, column: Column): SqliteValue {
    if fields == [] then DefaultSlot(column)
    else
      var (key, value) := Last(fields);
      if key == column.name && Accepted(value, column).Some? then Accepted(value, column).value
      else BoundColumn(fields[..|fields| - 1], column)
  }

  /** The id parameter after all fields; a record without an id leaves the previous one bound. */
  function BoundId(fields: JsonRecord, carried: SqliteValue): SqliteValue {
    if fields == [] then carried
    else
      var (key, value) := Last(fields);
      if key == "id" && value.JsonText? then SqlText(value.s) else BoundId(fields[..|fields| - 1], carried)
  }

  predicate IdsAreText(fields: JsonRecord) {
    forall i :: 0 <= i < |fields| && fields[i].0 == "id" ==> fields[i].1.JsonText?
  }

  predicate HasId(fields: JsonRecord) {
    exists i :: 0 <= i < |fields| && fields[i].0 == "id"
  }

  function Slots(columns: seq<Column>, fields: JsonRecord, carried: SqliteValue): seq<SqliteValue> {
    [BoundId(fields, carried)] + seq(|columns|, j requires 0 <= j < |columns| => BoundColumn(fields, columns[j]))
  }

  /** All rows inserted for a list of records, by a statement whose id parameter starts as `carried`. */
  function Rows(table: string, columns: seq<Column>, records: seq<JsonRecord>, carried: SqliteValue): seq<NamedRow>
    requires DistinctNames(columns) && NoReservedNames(columns)
  {
    if records == [] then []
    else
      var n := |records| - 1;
      var slots := Slots(columns, records[n], CarriedId(records[..n], carried));
      Rows(table, columns, records[..n], carried) + [RowFor(table, columns, slots)]
  }

  function CarriedId(records: seq<JsonRecord>, carried: SqliteValue): SqliteValue {
    if records == [] then carried
    else BoundId(Last(records), CarriedId(records[..|records| - 1], carried))
  }

  /** `tableSchema.at(key)`: the index of the column with this name, or `None` when `at` throws. */
  method ColumnIndex(columns: seq<Column>, key: string) returns (index: Option<nat>)
    requires DistinctNames(columns)
    ensures index.Some? ==> index.value < |columns| && columns[index.value].name == key
    ensures index.None? ==> forall j :: 0 <= j < |columns| ==> columns[j].name != key
  {
    for j := 0 to |columns|
      invariant forall k :: 0 <= k < j ==> columns[k].name != key
    {
      if columns[j].name == key {
        return Some(j);
      }
    }
    return None;
  }

  method BindDefaults(columns: seq<Column>, slots: array<SqliteValue>)
    requires slots.Length == |columns| + 1
    modifies slots
    ensures slots[0] == old(slots[0])
    ensures forall j :: 0 <= j < |columns| ==> slots[j + 1] == DefaultSlot(columns[j])
  {
    for i := 0 to |columns|
      invariant slots[0] == old(slots[0])
      invariant forall j :: 0 <= j < i ==> slots[j + 1] == DefaultSlot(columns[j])
    {
      slots[i + 1] := DefaultSlot(columns[i]);
    }
  }

  /** Binds one field of a record; `ok` is false when reading the id as a string throws. */
  method BindField(columns: seq<Column>, key: string, value: Json, slots: array<SqliteValue>) returns (ok: bool)
    requires DistinctNames(columns) && NoReservedNames(columns) && slots.Length == |columns| + 1
    modifies slots
    ensures ok <==> (key == "id" ==> value.JsonText?)
    ensures ok ==> slots[0] == if key == "id" then SqlText(value.s) else old(slots[0])
    ensures ok ==> forall j :: 0 <= j < |columns| ==>
              slots[j + 1] == (if key == columns[j].name && Accepted(value, columns[j]).Some?
                               then Accepted(value, columns[j]).value
                               else old(slots[j + 1]))
  {
    if key == "id" {
      if !value.JsonText? {
        return false;
      }
      slots[0] := SqlText(value.s);
      assert forall j :: 0 <= j < |columns| ==> columns[j] in columns;
      return true;
    }
    var index := ColumnIndex(columns, key);
    if index.Some? {
      var bound := Accepted(value, columns[index.value]);
      if bound.Some? {
        slots[index.value + 1] := bound.value;
      }
    }
    return true;
  }

  /** The binding of one record: defaults first, then its fields in order. */
  method BindRecord(columns: seq<Column>, fields: JsonRecord, slots: array<SqliteValue>) returns (ok: bool)
    requires DistinctNames(columns) && NoReservedNames(columns) && slots.Length == |columns| + 1
    modifies slots
    ensures ok <==> IdsAreText(fields)
    ensures ok ==> slots[..] == Slots(columns, fields, old(slots[0]))
  {
    BindDefaults(columns, slots);
    for i := 0 to |fields|
      invariant IdsAreText(fields[..i])
      invariant slots[0] == BoundId(fields[..i], old(slots[0]))
      invariant forall j :: 0 <= j < |columns| ==> slots[j + 1] == BoundColumn(fields[..i], columns[j])
    {
      assert fields[..i + 1][..i] == fields[..i] && Last(fields[..i + 1]) == fields[i];
      var bound := BindField(columns, fields[i].0, fields[i].1, slots);
      if !bound {
        return false;
      }
    }
    assert fields[..|fields|] == fields;
    return true;
  }

  /** The id under which record `i` is inserted. */
  function IdAt(records: seq<JsonRecord>, i: nat): SqliteValue
    requires i < |records|
  {
    CarriedId(records[..i + 1], SqlNull)
  }

  /** The primary key: an id is inserted only if it is not in the table, where all before it are by then.
      SQLite does not count nulls. */
  predicate KeyIsFree(stored: set<SqliteValue>, records: seq<JsonRecord>, i: nat)
    requires i < |records|
  {
    IdAt(records, i) != SqlNull ==>
      IdAt(records, i) !in stored && forall j :: 0 <= j < i ==> IdAt(records, j) != IdAt(records, i)
  }

  function IdsBefore(records: seq<JsonRecord>, i: nat): set<SqliteValue>
    requires i <= |records|
  {
    set j | 0 <= j < i :: IdAt(records, j)
  }

  lemma KeyIsFreeIff(stored: set<SqliteValue>, records: seq<JsonRecord>, i: nat)
    requires i < |records|
    ensures KeyIsFree(stored, records, i)
            <==> IdAt(records, i) == SqlNull || IdAt(records, i) !in stored + IdsBefore(records, i)
    ensures IdsBefore(records, i + 1) == IdsBefore(records, i) + {IdAt(records, i)}
  {
  }

  /** Reading the id of the record as a string does not throw, and neither does its insert. */
  predicate IsInserted(stored: set<SqliteValue>, records: seq<JsonRecord>, i: nat)
    requires i < |records|
  {
    IdsAreText(records[i]) && KeyIsFree(stored, records, i)
  }

  /** Binds and inserts one record, unless that throws. */
  method LoadNext(sql: InsertStatement, table: string, columns: seq<Column>, fields: JsonRecord,
                  keys: set<SqliteValue>, slots: array<SqliteValue>)
    returns (r: Result<NamedRow>)
    requires DistinctNames(columns) && NoReservedNames(columns) && slots.Length == |columns| + 1
    requires sql == InsertSql(table, columns)
    modifies slots
    ensures var bound := Slots(columns, fields, old(slots[0]));
            && (r.Ok? <==> IdsAreText(fields) && (bound[0] == SqlNull || bound[0] !in keys))
            && (r.Ok? ==> slots[0] == bound[0] && r.value == RowFor(table, columns, bound))
  {
    var ok := BindRecord(columns, fields, slots);
    if !ok || (slots[0] != SqlNull && slots[0] in keys) {
      return Thrown;
    }
    StatementIsFit(table, columns);
    r := Ok(InsertedRow(sql, slots[..]));
  }

  lemma OneMoreRow(table: string, columns: seq<Column>, records: seq<JsonRecord>, i: nat)
    requires DistinctNames(columns) && NoReservedNames(columns) && i < |records|
    ensures var slots := Slots(columns, records[i], CarriedId(records[..i], SqlNull));
            && slots[0] == IdAt(records, i) == CarriedId(records[..i + 1], SqlNull) && |slots| == |columns| + 1
            && Rows(table, columns, records[..i + 1], SqlNull) ==
               Rows(table, columns, records[..i], SqlNull) + [RowFor(table, columns, slots)]
  {
    assert records[..i + 1][..i] == records[..i] && Last(records[..i + 1]) == records[i];
  }

  /** The loop over one array of records, into a table that holds some ids already. The statement's parameters
      are never cleared in between. A throw rolls everything back. */
  method LoadRecords(table: string, columns: seq<Column>, records: seq<JsonRecord>, stored: set<SqliteValue>)
    returns (r: Result<seq<NamedRow>>)
    requires DistinctNames(columns) && NoReservedNames(columns)
    ensures r.Ok? <==> forall i :: 0 <= i < |records| ==> IsInserted(stored, records, i)
    ensures r.Ok? ==> r.value == Rows(table, columns, records, SqlNull)
  {
    var sql := InsertSqlFor(table, columns);
    var slots := new SqliteValue[|columns| + 1](_ => SqlNull);
    var rows, keys := [], stored;
    for i := 0 to |records|
      invariant slots[0] == CarriedId(records[..i], SqlNull)
      invariant rows == Rows(table, columns, records[..i], SqlNull)
      invariant forall k :: 0 <= k < i ==> IsInserted(stored, records, k)
      invariant keys == stored + IdsBefore(records, i)
    {
      OneMoreRow(table, columns, records, i);
      KeyIsFreeIff(stored, records, i);
      var row := LoadNext(sql, table, columns, records[i], keys, slots);
      if row.Thrown? {
        assert !IsInserted(stored, records, i);
        return Thrown;
      }
      keys, rows := keys + {slots[0]}, rows + [row.value];
    }
    assert records[..|records|] == records;
    r := Ok(rows);
  }

  /** A load goes through if and only if every id that is given is a text, and no row would get an id that is in
      the table already or that an earlier row of the load has. */
  lemma LoadsIff(records: seq<JsonRecord>, stored: set<SqliteValue>)
    ensures (forall i :: 0 <= i < |records| ==> IsInserted(stored, records, i)) <==>
              && (forall i :: 0 <= i < |records| ==> IdsAreText(records[i]))
              && (forall i :: 0 <= i < |records| && IdAt(records, i) in stored ==> IdAt(records, i) == SqlNull)
              && (forall i, j :: 0 <= j < i < |records| && IdAt(records, j) == IdAt(records, i) ==>
                    IdAt(records, i) == SqlNull)
  {
    forall i | 0 <= i < |records|
      ensures IsInserted(stored, records, i) <==>
                IdsAreText(records[i]) && (IdAt(records, i) in stored ==> IdAt(records, i) == SqlNull)
                && forall j :: 0 <= j < i && IdAt(records, j) == IdAt(records, i) ==> IdAt(records, i) == SqlNull
    {
    }
  }

  /** A record without an id is inserted under the id of the one before, so that it can only be inserted while
      no record had an id: of a load that succeeds, each row depends on its own record alone. */
  lemma LoadedRowsAreOwn(columns: seq<Column>, records: seq<JsonRecord>, stored: set<SqliteValue>, i: nat)
    requires i < |records| && IsInserted(stored, records, i)
    ensures Slots(columns, records[i], CarriedId(records[..i], SqlNull)) == Slots(columns, records[i], SqlNull)
    ensures !HasId(records[i]) ==> IdAt(records, i) == SqlNull
  {
    DependsOnlyOnItsRecord(columns, records[i]);
    BoundIdIsParsed(records[i], CarriedId(records[..i], SqlNull));
    assert records[..i + 1][..i] == records[..i] && Last(records[..i + 1]) == records[i];
    if !HasId(records[i]) && i > 0 {
      assert IdAt(records, i - 1) == CarriedId(records[..i], SqlNull);
    }
  }

  // ---- It refines sanitizing ----

  function ToValue(json: Json): Value {
    match json
    case JsonNull => Null
    case JsonBool(b) => Boolean(b)
    case JsonNumber(n) => Num(Finite(n))
    case JsonText(s) => Text(s)
    case JsonComposite => Object
  }

  /** `JSON.parse`: of fields with the same key the last one counts. */
  function Parsed(fields: JsonRecord): DirtyRaw {
    if fields == [] then map[]
    else Parsed(fields[..|fields| - 1])[Last(fields).0 := ToValue(Last(fields).1)]
  }

  /** The record that the ordinary path would insert: sanitized, and marked as synced. */
  function Sanitizing(fields: JsonRecord, columns: seq<Column>): RawRecord {
    SanitizedRaw(Parsed(fields)["_status" := Text("synced")]["_changed" := Text("")], columns, "")
  }

  predicate DistinctKeys(fields: JsonRecord) {
    forall i, j :: 0 <= i < j < |fields| ==> fields[i].0 != fields[j].0
  }

  /** Of the fields before `i`, field `m` is the last one that has an acceptable value for the column. */
  ghost predicate LastAccepted(fields: JsonRecord, column: Column, m: int, i: nat)
    requires i <= |fields|
  {
    && 0 <= m < i && fields[m].0 == column.name && Accepted(fields[m].1, column).Some?
    && forall k :: m < k < i && fields[k].0 == column.name ==> Accepted(fields[k].1, column).None?
  }

  /** Among the fields before `i`, the last acceptable value for the column is not its default. */
  ghost predicate SetBefore(fields: JsonRecord, column: Column, i: nat)
    requires i <= |fields|
  {
    exists m :: LastAccepted(fields, column, m, i) && Accepted(fields[m].1, column) != Some(DefaultSlot(column))
  }

  /** A key is shadowed when its last value is unacceptable for the column, and the last acceptable one
      before is not the default. */
  ghost predicate Shadowed(fields: JsonRecord, column: Column) {
    exists i :: 0 <= i < |fields| && fields[i].0 == column.name && Accepted(fields[i].1, column).None? &&
      (forall k :: i < k < |fields| ==> fields[k].0 != column.name) && SetBefore(fields, column, i)
  }

  /** What is bound after the first `i` fields. */
  lemma {:induction false} BoundIsLastAccepted(fields: JsonRecord, column: Column, i: nat)
    requires i <= |fields|
    ensures BoundColumn(fields[..i], column) != DefaultSlot(column) <==> SetBefore(fields, column, i)
  {
    if i == 0 {
    } else {
      BoundIsLastAccepted(fields, column, i - 1);
      assert fields[..i][..i - 1] == fields[..i - 1] && Last(fields[..i]) == fields[i - 1];
      if fields[i - 1].0 == column.name && Accepted(fields[i - 1].1, column).Some? {
        assert LastAccepted(fields, column, i - 1, i);
      } else {
        assert forall m :: LastAccepted(fields, column, m, i) <==> LastAccepted(fields, column, m, i - 1);
      }
    }
  }

  lemma SetBeforeInFront(fields: JsonRecord, column: Column, i: nat)
    requires i < |fields|
    ensures SetBefore(fields, column, i) <==> SetBefore(fields[..|fields| - 1], column, i)
  {
    var front := fields[..|fields| - 1];
    assert forall m :: LastAccepted(fields, column, m, i) <==> LastAccepted(front, column, m, i);
  }

  lemma AcceptedIsSanitized(json: Json, column: Column)
    ensures ToSqlite(Sanitize(ToValue(json), column)) ==
            match Accepted(json, column) case Some(v) => v case None => DefaultSlot(column)
  {
  }

  /** A column gets what sanitizing gives it if and only if its key is not shadowed. */
  lemma {:induction false} BoundIsSanitized(fields: JsonRecord, column: Column)
    ensures BoundColumn(fields, column) == ToSqlite(Sanitize(ValueOf(Parsed(fields), column.name), column))
            <==> !Shadowed(fields, column)
  {
    if fields == [] {
    } else {
      var n := |fields| - 1;
      var front, key, value := fields[..n], fields[n].0, fields[n].1;
      BoundIsLastAccepted(fields, column, n);
      if key == column.name {
        AcceptedIsSanitized(value, column);
        assert Accepted(value, column).None? && SetBefore(fields, column, n) ==> fields[n].0 == column.name;
      } else {
        BoundIsSanitized(front, column);
        ShadowedInFront(fields, column);
      }
    }
  }

  lemma ShadowedInFront(fields: JsonRecord, column: Column)
    requires fields != [] && Last(fields).0 != column.name
    ensures Shadowed(fields, column) <==> Shadowed(fields[..|fields| - 1], column)
  {
    var front := fields[..|fields| - 1];
    forall i | 0 <= i < |front|
      ensures front[i] == fields[i] && (SetBefore(fields, column, i) <==> SetBefore(front, column, i))
    {
      SetBeforeInFront(fields, column, i);
    }
  }

  lemma DistinctKeysAreNotShadowed(fields: JsonRecord, column: Column)
    requires DistinctKeys(fields)
    ensures !Shadowed(fields, column)
  {
  }

  lemma {:induction false} BoundIdIsParsed(fields: JsonRecord, carried: SqliteValue)
    requires IdsAreText(fields)
    ensures BoundId(fields, carried) == if HasId(fields) then ToSqlite(ValueOf(Parsed(fields), "id")) else carried
    ensures HasId(fields) ==> ValueOf(Parsed(fields), "id").Text?
  {
    if fields == [] {
    } else {
      var front := fields[..|fields| - 1];
      BoundIdIsParsed(front, carried);
      assert HasId(front) ==> HasId(fields) by {
        if HasId(front) {
          var i :| 0 <= i < |front| && front[i].0 == "id";
          assert fields[i].0 == "id";
        }
      }
      if Last(fields).0 == "id" {
        assert fields[|fields| - 1].0 == "id";
      } else if HasId(fields) {
        var i :| 0 <= i < |fields| && fields[i].0 == "id";
        assert front[i].0 == "id";
      }
    }
  }

  /** What is bound for a record depends on the earlier ones if and only if it has no id. */
  lemma DependsOnlyOnItsRecord(columns: seq<Column>, fields: JsonRecord)
    requires IdsAreText(fields)
    ensures HasId(fields) <==> forall a, b :: Slots(columns, fields, a) == Slots(columns, fields, b)
  {
    forall carried
      ensures BoundId(fields, carried) == if HasId(fields) then ToSqlite(ValueOf(Parsed(fields), "id")) else carried
    {
      BoundIdIsParsed(fields, carried);
    }
    if !HasId(fields) {
      assert Slots(columns, fields, SqlNull)[0] != Slots(columns, fields, SqlText(""))[0];
    }
  }

  ghost predicate NoneShadowed(columns: seq<Column>, fields: JsonRecord) {
    forall j :: 0 <= j < |columns| ==> !Shadowed(fields, columns[j])
  }

  lemma SlotRefinesSanitizing(columns: seq<Column>, fields: JsonRecord, carried: SqliteValue, j: nat)
    requires DistinctNames(columns) && NoReservedNames(columns) && j < |columns|
    ensures |Slots(columns, fields, carried)| == |columns| + 1
    ensures Slots(columns, fields, carried)[j + 1] == FieldArg(Sanitizing(fields, columns), columns[j])
            <==> !Shadowed(fields, columns[j])
  {
    assert columns[j] in columns;
    BoundIsSanitized(fields, columns[j]);
    SanitizedField(Parsed(fields)["_status" := Text("synced")]["_changed" := Text("")], columns, j);
  }

  /** A row of `select *`, as a dictionary. */
  function Selected(row: NamedRow): DirtyRaw {
    map name | name in row :: FromSqlite(row[name])
  }

  /** Selecting the row gives what selecting the ordinary insert of the sanitized record would give if and only
      if no key of the record is shadowed; then it is that record, synced and without changes. */
  ghost predicate Refines(columns: seq<Column>, row: NamedRow, fields: JsonRecord) {
    var raw := Sanitizing(fields, columns);
    && (Selected(row) == LoadRow(columns, raw.id, Stored(columns, raw)) <==> NoneShadowed(columns, fields))
    && (NoneShadowed(columns, fields) ==>
          SanitizedRaw(Selected(row), columns, "") == raw && raw.status == Synced && raw.changed == "")
  }

  lemma {:induction false} LoadedNames(columns: seq<Column>, values: seq<SqliteValue>, name: string)
    requires |values| == |columns|
    ensures name in LoadColumns(columns, values) <==> exists j :: 0 <= j < |columns| && columns[j].name == name
  {
    if columns == [] {
    } else {
      var n := |columns| - 1;
      LoadedNames(columns[..n], values[..n], name);
      if name in LoadColumns(columns[..n], values[..n]) {
        var j :| 0 <= j < n && columns[..n][j].name == name;
        assert columns[j].name == name;
      } else if name == columns[n].name {
      } else {
        assert forall j :: 0 <= j < n ==> columns[..n][j] == columns[j];
      }
    }
  }

  /** The named row that holds the given values in its columns is selected as the stored row with those values. */
  lemma SelectedIsLoaded(columns: seq<Column>, row: NamedRow, id: string, slots: seq<SqliteValue>,
                         values: seq<SqliteValue>)
    requires DistinctNames(columns) && NoReservedNames(columns) && |values| == |columns|
    requires |slots| == |columns| + 1 && slots[0] == SqlText(id) && StoresAs(columns, row, slots)
    ensures Selected(row) == LoadRow(columns, id, StoredRow(SqlText("synced"), SqlText(""), values))
            <==> forall j :: 0 <= j < |columns| ==> slots[j + 1] == values[j]
  {
    var loaded := LoadRow(columns, id, StoredRow(SqlText("synced"), SqlText(""), values));
    forall j | 0 <= j < |columns|
      ensures columns[j].name in loaded && loaded[columns[j].name] == FromSqlite(values[j])
    {
      assert columns[j] in columns;
      LoadedColumn(columns, values, j);
    }
    forall name
      ensures name in loaded <==> name in row
    {
      LoadedNames(columns, values, name);
    }
    if Selected(row) == loaded {
      forall j | 0 <= j < |columns|
        ensures slots[j + 1] == values[j]
      {
        assert Selected(row)[columns[j].name] == FromSqlite(row[columns[j].name]);
      }
    } else if forall j :: 0 <= j < |columns| ==> slots[j + 1] == values[j] {
      forall name | name in row
        ensures Selected(row)[name] == loaded[name]
      {
      }
    }
  }

  lemma SanitizingIs(fields: JsonRecord, columns: seq<Column>)
    requires DistinctNames(columns) && IdsAreText(fields) && HasId(fields)
    ensures var raw := Sanitizing(fields, columns);
            && Sanitized(raw, columns) && raw.status == Synced && raw.changed == ""
            && forall carried :: BoundId(fields, carried) == SqlText(raw.id)
  {
    SanitizedRawIsSanitized(Parsed(fields)["_status" := Text("synced")]["_changed" := Text("")], columns, "");
    BoundIdIsParsed(fields, SqlNull);
    forall carried
      ensures BoundId(fields, carried) == SqlText(Sanitizing(fields, columns).id)
    {
      BoundIdIsParsed(fields, carried);
    }
  }

  /** A row with the values bound for a record. */
  lemma BoundRowRefines(columns: seq<Column>, fields: JsonRecord, row: NamedRow, slots: seq<SqliteValue>)
    requires DistinctNames(columns) && NoReservedNames(columns) && IdsAreText(fields) && HasId(fields)
    requires |slots| == |columns| + 1
    requires forall j :: 0 <= j < |columns| ==>
               (slots[j + 1] == FieldArg(Sanitizing(fields, columns), columns[j]) <==> !Shadowed(fields, columns[j]))
    requires slots[0] == SqlText(Sanitizing(fields, columns).id) && StoresAs(columns, row, slots)
    ensures Refines(columns, row, fields)
  {
    var raw := Sanitizing(fields, columns);
    var values := ColumnArgs(columns, raw);
    SanitizingIs(fields, columns);
    SelectedIsLoaded(columns, row, raw.id, slots, values);
    assert Stored(columns, raw) == StoredRow(SqlText("synced"), SqlText(""), values);
    assert NoneShadowed(columns, fields) <==> forall j :: 0 <= j < |columns| ==> slots[j + 1] == values[j] by {
      assert forall j :: 0 <= j < |columns| ==> (slots[j + 1] == values[j] <==> !Shadowed(fields, columns[j]));
    }
    if NoneShadowed(columns, fields) {
      StoredRoundTrip(columns, raw, "");
    }
  }

  /** One record, inserted by the statement. */
  lemma RecordRefinesSanitizing(table: string, columns: seq<Column>, fields: JsonRecord, carried: SqliteValue)
    requires DistinctNames(columns) && NoReservedNames(columns)
    requires IdsAreText(fields) && HasId(fields)
    ensures Refines(columns, RowFor(table, columns, Slots(columns, fields, carried)), fields)
  {
    var slots := Slots(columns, fields, carried);
    SanitizingIs(fields, columns);
    InsertedColumns(table, columns, slots);
    forall j | 0 <= j < |columns|
      ensures slots[j + 1] == FieldArg(Sanitizing(fields, columns), columns[j]) <==> !Shadowed(fields, columns[j])
    {
      SlotRefinesSanitizing(columns, fields, carried, j);
    }
    BoundRowRefines(columns, fields, RowFor(table, columns, slots), slots);
  }

  lemma LastRowRefinesSanitizing(table: string, columns: seq<Column>, records: seq<JsonRecord>, carried: SqliteValue)
    requires DistinctNames(columns) && NoReservedNames(columns) && records != []
    requires IdsAreText(Last(records)) && HasId(Last(records))
    ensures Rows(table, columns, records, carried) != []
    ensures Refines(columns, Last(Rows(table, columns, records, carried)), Last(records))
  {
    RecordRefinesSanitizing(table, columns, Last(records), CarriedId(records[..|records| - 1], carried));
  }

  lemma {:induction false} RowsPerRecord(table: string, columns: seq<Column>, records: seq<JsonRecord>,
                                         carried: SqliteValue)
    requires DistinctNames(columns) && NoReservedNames(columns)
    ensures |Rows(table, columns, records, carried)| == |records|
  {
    if records == [] {
    } else {
      RowsPerRecord(table, columns, records[..|records| - 1], carried);
    }
  }

  lemma EarlierRow(table: string, columns: seq<Column>, records: seq<JsonRecord>, carried: SqliteValue, i: nat)
    requires DistinctNames(columns) && NoReservedNames(columns) && i < |records| - 1
    ensures var front := records[..|records| - 1];
            |Rows(table, columns, records, carried)| == |records| && |Rows(table, columns, front, carried)| == |front|
            && Rows(table, columns, records, carried)[i] == Rows(table, columns, front, carried)[i]
  {
    RowsPerRecord(table, columns, records, carried);
    RowsPerRecord(table, columns, records[..|records| - 1], carried);
  }

  lemma {:induction false} RowRefinesSanitizing(table: string, columns: seq<Column>, records: seq<JsonRecord>,
                                                carried: SqliteValue, i: nat)
    requires DistinctNames(columns) && NoReservedNames(columns) && i < |records|
    requires forall j :: 0 <= j < |records| ==> IdsAreText(records[j]) && HasId(records[j])
    ensures |Rows(table, columns, records, carried)| == |records|
    ensures Refines(columns, Rows(table, columns, records, carried)[i], records[i])
  {
    RowsPerRecord(table, columns, records, carried);
    if i == |records| - 1 {
      LastRowRefinesSanitizing(table, columns, records, carried);
    } else {
      EarlierRow(table, columns, records, carried, i);
      RowRefinesSanitizing(table, columns, records[..|records| - 1], carried, i);
    }
  }

  /** Every record list whose records have a string id: row `i` is the insert of `sanitizedRaw` of record `i`,
      synced and without changes, although the statement is reused, if and only if no key of it is shadowed,
      as when its keys are distinct. */
  lemma TurboSyncRefinesSanitizing(table: string, columns: seq<Column>, records: seq<JsonRecord>, carried: SqliteValue)
    requires DistinctNames(columns) && NoReservedNames(columns)
    requires forall i :: 0 <= i < |records| ==> IdsAreText(records[i]) && HasId(records[i])
    ensures |Rows(table, columns, records, carried)| == |records|
    ensures forall i :: 0 <= i < |records| ==>
              Refines(columns, Rows(table, columns, records, carried)[i], records[i])
    ensures forall i :: 0 <= i < |records| && DistinctKeys(records[i]) ==> NoneShadowed(columns, records[i])
  {
    RowsPerRecord(table, columns, records, carried);
    forall i | 0 <= i < |records|
      ensures Refines(columns, Rows(table, columns, records, carried)[i], records[i])
      ensures DistinctKeys(records[i]) ==> NoneShadowed(columns, records[i])
    {
      RowRefinesSanitizing(table, columns, records, carried, i);
      if DistinctKeys(records[i]) {
        forall j | 0 <= j < |columns|
          ensures !Shadowed(records[i], columns[j])
        {
          DistinctKeysAreNotShadowed(records[i], columns[j]);
        }
      }
    }
  }
}
