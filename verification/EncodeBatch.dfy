/** How a batch of operations is encoded for the native side, and what SQLite then does with it. */
module BatchEncoding {
  import opened Sequences
  import opened Results
  import opened RawRecords

  type Schema = map<string, seq<Column>>

  datatype Operation =
    | Create(table: string, raw: RawRecord)
    | Update(table: string, raw: RawRecord)
    | MarkAsDeleted(table: string, id: string)
    | DestroyPermanently(table: string, id: string)
  {
    function Kind(): int {
      match this
      case Create(_, _) => 0
      case Update(_, _) => 1
      case MarkAsDeleted(_, _) => 2
      case DestroyPermanently(_, _) => 3
    }
  }

  /** The statements that the encoder generates; each takes its arguments in a fixed order. */
  datatype Sql =
    | InsertInto(table: string)
    | UpdateById(table: string)
    | MarkDeletedById(table: string)
    | DeleteById(table: string)

  const REMOVE_FROM_CACHE := -1
  const IGNORE_CACHE := 0
  const ADD_TO_CACHE := 1

  datatype NativeOperation = NativeOperation(cacheBehavior: int, table: string, sql: Sql,
                                             argBatches: seq<seq<SqliteValue>>)

  // ---- Encoding ----

  predicate SameGroup(a: Operation, b: Operation) {
    a.Kind() == b.Kind() && a.table == b.table
  }

  predicate Group(g: seq<Operation>) {
    g != [] && forall i :: 0 <= i < |g| ==> SameGroup(g[i], g[0])
  }

  /** Every group is uniform, and no two neighbouring groups could have been one. */
  predicate Grouped(groups: seq<seq<Operation>>) {
    && (forall i :: 0 <= i < |groups| ==> Group(groups[i]))
    && (forall i :: 0 < i < |groups| ==> !SameGroup(groups[i - 1][0], groups[i][0]))
  }

  lemma StartGroup(groups: seq<seq<Operation>>, current: seq<Operation>, op: Operation)
    requires Grouped(groups + [current]) && current != [] && !SameGroup(current[0], op)
    ensures Grouped(groups + [current] + [[op]])
  {
    var all := groups + [current];
    assert Last(all) == current;
    assert forall i :: 0 < i < |all| ==> !SameGroup(all[i - 1][0], all[i][0]);
  }

  lemma GrowGroup(groups: seq<seq<Operation>>, current: seq<Operation>, op: Operation)
    requires Grouped(groups + [current]) && current != [] && SameGroup(current[0], op)
    ensures Grouped(groups + [current + [op]])
  {
    var all, next := groups + [current], groups + [current + [op]];
    assert Last(all) == current && Group(current);
    forall i | 0 <= i < |next|
      ensures Group(next[i]) && next[i][0] == all[i][0]
    {
      assert i < |groups| ==> next[i] == all[i];
    }
    assert forall i :: 0 < i < |all| ==> !SameGroup(all[i - 1][0], all[i][0]);
  }

  /** `groupOperations`: merges neighbours of the same kind on the same table. */
  method GroupOperations(operations: seq<Operation>) returns (groups: seq<seq<Operation>>)
    ensures Concat(groups) == operations
    ensures Grouped(groups)
  {
    groups := [];
    var current: seq<Operation> := [];
    for i := 0 to |operations|
      invariant Concat(groups) + current == operations[..i]
      invariant if current == [] then groups == [] else Grouped(groups + [current])
    {
      var op := operations[i];
      if current == [] {
        current := [op];
      } else if !SameGroup(current[0], op) {
        StartGroup(groups, current, op);
        ConcatSnoc(groups, current);
        groups := groups + [current];
        current := [op];
      } else {
        GrowGroup(groups, current, op);
        current := current + [op];
      }
    }
    if current != [] {
      ConcatSnoc(groups, current);
      groups := groups + [current];
    }
  }

  function FieldArg(raw: RawRecord, column: Column): SqliteValue {
    if column.name in raw.fields then ToSqlite(raw.fields[column.name]) else SqlNull
  }

  function ColumnArgs(columns: seq<Column>, raw: RawRecord): seq<SqliteValue> {
    seq(|columns|, i requires 0 <= i < |columns| => FieldArg(raw, columns[i]))
  }

  function EncodeInsertArgs(columns: seq<Column>, raw: RawRecord): seq<SqliteValue> {
    [SqlText(raw.id), SqlText(StatusText(raw.status)), SqlText(raw.changed)] + ColumnArgs(columns, raw)
  }

  function EncodeUpdateArgs(columns: seq<Column>, raw: RawRecord): seq<SqliteValue> {
    [SqlText(StatusText(raw.status)), SqlText(raw.changed)] + ColumnArgs(columns, raw) + [SqlText(raw.id)]
  }

  function EncodeSql(op: Operation): Sql {
    match op
    case Create(table, _) => InsertInto(table)
    case Update(table, _) => UpdateById(table)
    case MarkAsDeleted(table, _) => MarkDeletedById(table)
    case DestroyPermanently(table, _) => DeleteById(table)
  }

  function EncodeArgs(schema: Schema, op: Operation): seq<SqliteValue>
    requires op.table in schema
  {
    match op
    case Create(table, raw) => EncodeInsertArgs(schema[table], raw)
    case Update(table, raw) => EncodeUpdateArgs(schema[table], raw)
    case MarkAsDeleted(_, id) => [SqlText(id)]
    case DestroyPermanently(_, id) => [SqlText(id)]
  }

  function CacheBehavior(op: Operation): int {
    match op
    case Create(_, _) => ADD_TO_CACHE
    case Update(_, _) => IGNORE_CACHE
    case _ => REMOVE_FROM_CACHE
  }

  /** `table` is null in an encoded update; it is never read there. */
  function EncodeGroup(schema: Schema, group: seq<Operation>): NativeOperation
    requires Group(group) && group[0].table in schema
  {
    NativeOperation(
      CacheBehavior(group[0]),
      if group[0].Update? then "" else group[0].table,
      EncodeSql(group[0]),
      seq(|group|, i requires 0 <= i < |group| => EncodeArgs(schema, group[i])))
  }

  // ---- What SQLite does ----

  datatype StoredRow = StoredRow(status: SqliteValue, changed: SqliteValue, columns: seq<SqliteValue>)

  type Store = map<string, map<string, StoredRow>>

  /** One statement run with its arguments. Inserting an id that the table already has violates the
      primary key; updating or deleting an absent one changes nothing. */
  function Execute(store: Store, sql: Sql, args: seq<SqliteValue>): Result<Store> {
    if sql.table !in store then Thrown
    else
      var rows := store[sql.table];
      match sql
      case InsertInto(t) =>
        if |args| < 3 || !args[0].SqlText? || args[0].s in rows then Thrown
        else Ok(store[t := rows[args[0].s := StoredRow(args[1], args[2], args[3..])]])
      case UpdateById(t) =>
        var n := |args| - 1;
        if n < 2 then Thrown
        else if !args[n].SqlText? || args[n].s !in rows then Ok(store)
        else Ok(store[t := rows[args[n].s := StoredRow(args[0], args[1], args[2..n])]])
      case MarkDeletedById(t) =>
        if |args| != 1 then Thrown
        else if !args[0].SqlText? || args[0].s !in rows then Ok(store)
        else Ok(store[t := rows[args[0].s := rows[args[0].s].(status := SqlText("deleted"))]])
      case DeleteById(t) =>
        if |args| != 1 then Thrown
        else if !args[0].SqlText? then Ok(store)
        else Ok(store[t := rows - {args[0].s}])
  }

  function ExecuteAll(store: Store, sql: Sql, argBatches: seq<seq<SqliteValue>>): Result<Store> {
    if argBatches == [] then Ok(store)
    else
      match Execute(store, sql, argBatches[0])
      case Ok(next) => ExecuteAll(next, sql, argBatches[1..])
      case Thrown => Thrown
  }

  // ---- What the operations mean ----

  function Stored(columns: seq<Column>, raw: RawRecord): StoredRow {
    StoredRow(SqlText(StatusText(raw.status)), SqlText(raw.changed), ColumnArgs(columns, raw))
  }

  function Apply(schema: Schema, store: Store, op: Operation): Result<Store> {
    if op.table !in store || op.table !in schema then Thrown
    else
      var rows := store[op.table];
      match op
      case Create(t, raw) =>
        if raw.id in rows then Thrown else Ok(store[t := rows[raw.id := Stored(schema[t], raw)]])
      case Update(t, raw) =>
        if raw.id in rows then Ok(store[t := rows[raw.id := Stored(schema[t], raw)]]) else Ok(store)
      case MarkAsDeleted(t, id) =>
        if id in rows then Ok(store[t := rows[id := rows[id].(status := SqlText("deleted"))]]) else Ok(store)
      case DestroyPermanently(t, id) => Ok(store[t := rows - {id}])
  }

  function ApplyAll(schema: Schema, store: Store, operations: seq<Operation>): Result<Store> {
    if operations == [] then Ok(store)
    else
      match Apply(schema, store, operations[0])
      case Ok(next) => ApplyAll(schema, next, operations[1..])
      case Thrown => Thrown
  }

  function ExecuteNative(store: Store, batch: seq<NativeOperation>): Result<Store>
    decreases |batch|
  {
    if batch == [] then Ok(store)
    else
      match ExecuteAll(store, batch[0].sql, batch[0].argBatches)
      case Ok(next) => ExecuteNative(next, batch[1..])
      case Thrown => Thrown
  }

  function EncodeGroups(schema: Schema, groups: seq<seq<Operation>>): seq<NativeOperation>
    requires forall i :: 0 <= i < |groups| ==> Group(groups[i]) && groups[i][0].table in schema
  {
    seq(|groups|, i requires 0 <= i < |groups| => EncodeGroup(schema, groups[i]))
  }

  lemma EncodedOperationMeansIt(schema: Schema, store: Store, op: Operation)
    requires op.table in schema
    ensures Execute(store, EncodeSql(op), EncodeArgs(schema, op)) == Apply(schema, store, op)
  {
    if op.Update? {
      var columns := schema[op.table];
      var args := EncodeUpdateArgs(columns, op.raw);
      assert args[2..|args| - 1] == ColumnArgs(columns, op.raw);
    } else if op.Create? {
      var columns := schema[op.table];
      assert EncodeInsertArgs(columns, op.raw)[3..] == ColumnArgs(columns, op.raw);
    }
  }

  lemma {:induction false} ApplyAllConcat(schema: Schema, store: Store, a: seq<Operation>, b: seq<Operation>)
    ensures ApplyAll(schema, store, a + b) ==
            match ApplyAll(schema, store, a) case Ok(next) => ApplyAll(schema, next, b) case Thrown => Thrown
  {
    if a == [] {
      assert a + b == b;
    } else {
      assert (a + b)[1..] == a[1..] + b;
      match Apply(schema, store, a[0])
      case Ok(next) => ApplyAllConcat(schema, next, a[1..], b);
      case Thrown =>
    }
  }

  lemma {:induction false} EncodedGroupMeansIt(schema: Schema, store: Store, group: seq<Operation>, sql: Sql,
                                               argBatches: seq<seq<SqliteValue>>)
    requires forall i :: 0 <= i < |group| ==> group[i].table in schema && EncodeSql(group[i]) == sql
    requires |argBatches| == |group| && forall i :: 0 <= i < |group| ==> argBatches[i] == EncodeArgs(schema, group[i])
    ensures ExecuteAll(store, sql, argBatches) == ApplyAll(schema, store, group)
  {
    if group == [] {
    } else {
      EncodedOperationMeansIt(schema, store, group[0]);
      match Apply(schema, store, group[0])
      case Ok(next) => EncodedGroupMeansIt(schema, next, group[1..], sql, argBatches[1..]);
      case Thrown =>
    }
  }

  /** Running the grouped, encoded batch does exactly what the operations mean one by one. */
  lemma {:induction false} EncodedBatchMeansIt(schema: Schema, store: Store, groups: seq<seq<Operation>>)
    requires forall i :: 0 <= i < |groups| ==> Group(groups[i]) && groups[i][0].table in schema
    ensures ExecuteNative(store, EncodeGroups(schema, groups)) == ApplyAll(schema, store, Concat(groups))
    decreases |groups|
  {
    if groups == [] {
    } else {
      var g, rest := groups[0], groups[1..];
      var native := EncodeGroups(schema, groups);
      assert native[1..] == EncodeGroups(schema, rest);
      EncodedGroupMeansIt(schema, store, g, native[0].sql, native[0].argBatches);
      ApplyAllConcat(schema, store, g, Concat(rest));
      match ApplyAll(schema, store, g)
      case Ok(next) => EncodedBatchMeansIt(schema, next, rest);
      case Thrown =>
    }
  }

  // ---- Reading back ----

  /** A row of `select *`, as the native side sends it. */
  function LoadRow(columns: seq<Column>, id: string, row: StoredRow): DirtyRaw
    requires |row.columns| == |columns|
  {
    var fields := LoadColumns(columns, row.columns);
    fields["id" := Text(id)]["_status" := FromSqlite(row.status)]["_changed" := FromSqlite(row.changed)]
  }

  function LoadColumns(columns: seq<Column>, values: seq<SqliteValue>): DirtyRaw
    requires |values| == |columns|
  {
    if columns == [] then map[]
    else
      var n := |columns| - 1;
      LoadColumns(columns[..n], values[..n])[columns[n].name := FromSqlite(values[n])]
  }

  lemma {:induction false} LoadedColumn(columns: seq<Column>, values: seq<SqliteValue>, i: nat)
    requires |values| == |columns| && DistinctNames(columns) && i < |columns|
    ensures columns[i].name in LoadColumns(columns, values)
    ensures LoadColumns(columns, values)[columns[i].name] == FromSqlite(values[i])
  {
    var n := |columns| - 1;
    if i < n {
      LoadedColumn(columns[..n], values[..n], i);
    }
  }

  /** Storing a sanitized record, selecting the row and sanitizing it again gives the record back. */
  lemma StoredRoundTrip(columns: seq<Column>, raw: RawRecord, randomId: string)
    requires DistinctNames(columns) && NoReservedNames(columns)
    requires Sanitized(raw, columns) && raw.status != Disposable
    ensures SanitizedRaw(LoadRow(columns, raw.id, Stored(columns, raw)), columns, randomId) == raw
  {
    var dirty := LoadRow(columns, raw.id, Stored(columns, raw));
    FieldsRoundTrip(columns, raw, dirty);
  }

  lemma FieldsRoundTrip(columns: seq<Column>, raw: RawRecord, dirty: DirtyRaw)
    requires DistinctNames(columns) && NoReservedNames(columns) && Sanitized(raw, columns)
    requires dirty == LoadRow(columns, raw.id, Stored(columns, raw))
    ensures SanitizedFields(dirty, columns) == raw.fields
  {
    var again := SanitizedRaw(dirty, columns, "");
    SanitizedRawIsSanitized(dirty, columns, "");
    SameKeys(again, raw, columns);
    forall key | key in raw.fields
      ensures again.fields[key] == raw.fields[key]
    {
      var i :| 0 <= i < |columns| && columns[i].name == key;
      FieldRoundTrip(columns, raw, dirty, i);
    }
  }

  lemma FieldRoundTrip(columns: seq<Column>, raw: RawRecord, dirty: DirtyRaw, i: nat)
    requires DistinctNames(columns) && NoReservedNames(columns) && Sanitized(raw, columns)
    requires dirty == LoadRow(columns, raw.id, Stored(columns, raw)) && i < |columns|
    ensures columns[i].name in SanitizedFields(dirty, columns)
    ensures SanitizedFields(dirty, columns)[columns[i].name] == raw.fields[columns[i].name]
  {
    var column := columns[i];
    LoadedColumn(columns, ColumnArgs(columns, raw), i);
    assert column in columns;
    SanitizedField(dirty, columns, i);
    ColumnRoundTrip(raw.fields[column.name], column);
  }

  lemma SameKeys(a: RawRecord, b: RawRecord, columns: seq<Column>)
    requires Sanitized(a, columns) && Sanitized(b, columns)
    ensures a.fields.Keys == b.fields.Keys
  {
    forall key
      ensures key in a.fields <==> key in b.fields
    {
      if key in a.fields {
        var i :| 0 <= i < |columns| && columns[i].name == key;
      }
      if key in b.fields {
        var i :| 0 <= i < |columns| && columns[i].name == key;
      }
    }
  }
}
