/** Raw records: the values JavaScript hands over, and their sanitizing against a table schema. */
module RawRecords {

  /** JavaScript numbers: a finite double is modelled by the real it stands for. */
  datatype Number = Finite(value: real) | NaN | PositiveInfinity | NegativeInfinity

  datatype Value =
    | Undefined
    | Null
    | Boolean(b: bool)
    | Num(n: Number)
    | Text(s: string)
    | Object

  datatype ColumnType = StringColumn | NumberColumn | BooleanColumn

  datatype Column = Column(name: string, kind: ColumnType, isOptional: bool)

  datatype Status = Synced | Created | Updated | Deleted | Disposable

  type DirtyRaw = map<string, Value>

  /** The three standard fields, and the value of each column. */
  datatype RawRecord = RawRecord(id: string, status: Status, changed: string, fields: map<string, Value>)

  const ZERO := Num(Finite(0.0))
  const ONE := Num(Finite(1.0))

  predicate IsValidNumber(v: Value) {
    v.Num? && v.n.Finite?
  }

  function NullValue(column: Column): Value {
    if column.isOptional then Null
    else match column.kind
      case StringColumn => Text("")
      case NumberColumn => ZERO
      case BooleanColumn => Boolean(false)
  }

  /** The value that `_setRaw` stores for a column when given `v`. */
  function Sanitize(v: Value, column: Column): Value {
    match column.kind
    case StringColumn => if v.Text? then v else NullValue(column)
    case BooleanColumn =>
      if v.Boolean? then v
      else if v == ONE || v == ZERO then Boolean(v == ONE)
      else NullValue(column)
    case NumberColumn => if IsValidNumber(v) then v else NullValue(column)
  }

  /** What the type system promises of a field of a sanitized record. */
  predicate FitsColumn(v: Value, column: Column) {
    || (v == Null && column.isOptional)
    || (column.kind == StringColumn && v.Text?)
    || (column.kind == NumberColumn && IsValidNumber(v))
    || (column.kind == BooleanColumn && v.Boolean?)
  }

  /** Sanitizing always yields a value that fits, and leaves a value that fits alone. */
  lemma SanitizeFits(v: Value, column: Column)
    ensures FitsColumn(Sanitize(v, column), column)
    ensures FitsColumn(v, column) <==> Sanitize(v, column) == v
  {
  }

  /** What becomes of a value that does not fit: a boolean column takes 1 and 0 for true and false; everything
      else, undefined, objects, NaN, the infinities and values of another type alike, gives null if the column is
      optional, and otherwise the empty text, zero or false. */
  lemma UnfitIsReplaced(v: Value, column: Column)
    requires !FitsColumn(v, column)
    ensures column.kind == BooleanColumn && v == Num(Finite(1.0)) ==> Sanitize(v, column) == Boolean(true)
    ensures column.kind == BooleanColumn && v == Num(Finite(0.0)) ==> Sanitize(v, column) == Boolean(false)
    ensures column.kind == BooleanColumn && v != Num(Finite(1.0)) && v != Num(Finite(0.0)) ==>
              Sanitize(v, column) == if column.isOptional then Null else Boolean(false)
    ensures column.kind == StringColumn ==> Sanitize(v, column) == if column.isOptional then Null else Text("")
    ensures column.kind == NumberColumn ==> Sanitize(v, column) == if column.isOptional then Null else Num(Finite(0.0))
  {
  }

  /** NaN and the infinities, undefined and objects fit no column. */
  lemma NothingButValuesFits(v: Value, column: Column)
    requires v == Undefined || v == Object || v == Num(NaN) || v == Num(PositiveInfinity) || v == Num(NegativeInfinity)
    ensures !FitsColumn(v, column)
  {
  }

  function ValueOf(dirty: DirtyRaw, key: string): Value {
    if key in dirty then dirty[key] else Null
  }

  function SanitizedStatus(v: Value): Status {
    if v == Text("synced") then Synced
    else if v == Text("updated") then Updated
    else if v == Text("deleted") then Deleted
    else Created
  }

  ghost predicate DistinctNames(columns: seq<Column>) {
    forall i, j :: 0 <= i < j < |columns| ==> columns[i].name != columns[j].name
  }

  /** `Schema.validateName` reserves the standard fields' names. */
  ghost predicate NoReservedNames(columns: seq<Column>) {
    forall c :: c in columns ==> c.name != "id" && c.name != "_status" && c.name != "_changed"
  }

  /** `raw` has exactly the columns of the schema, each with a value of the column's type. */
  ghost predicate Sanitized(raw: RawRecord, columns: seq<Column>) {
    FieldsFit(raw.fields, columns)
  }

  ghost predicate FieldsFit(fields: map<string, Value>, columns: seq<Column>) {
    && (forall key :: key in fields <==> exists i :: 0 <= i < |columns| && columns[i].name == key)
    && (forall i :: 0 <= i < |columns| ==> columns[i].name in fields && FitsColumn(fields[columns[i].name], columns[i]))
  }

  function SanitizedFields(dirty: DirtyRaw, columns: seq<Column>): map<string, Value> {
    if columns == [] then map[]
    else
      var n := |columns| - 1;
      SanitizedFields(dirty, columns[..n])[columns[n].name := Sanitize(ValueOf(dirty, columns[n].name), columns[n])]
  }

  function SanitizedRaw(dirty: DirtyRaw, columns: seq<Column>, randomId: string): RawRecord {
    var fields := SanitizedFields(dirty, columns);
    var id := ValueOf(dirty, "id");
    if id.Text? then
      var changed := ValueOf(dirty, "_changed");
      RawRecord(id.s, SanitizedStatus(ValueOf(dirty, "_status")), if changed.Text? then changed.s else "", fields)
    else
      RawRecord(randomId, Created, "", fields)
  }

  /** `sanitizedRaw`; `randomId` is the id that `randomId()` would generate. */
  method SanitizeRaw(dirty: DirtyRaw, columns: seq<Column>, randomId: string) returns (raw: RawRecord)
    ensures raw == SanitizedRaw(dirty, columns, randomId)
  {
    var id, status, changed := ValueOf(dirty, "id"), ValueOf(dirty, "_status"), ValueOf(dirty, "_changed");
    if id.Text? {
      raw := RawRecord(id.s, SanitizedStatus(status), if changed.Text? then changed.s else "", map[]);
    } else {
      raw := RawRecord(randomId, Created, "", map[]);
    }
    for i := 0 to |columns|
      invariant raw == SanitizedRaw(dirty, columns, randomId).(fields := SanitizedFields(dirty, columns[..i]))
    {
      var value := if columns[i].name in dirty then dirty[columns[i].name] else Null;
      assert columns[..i + 1][..i] == columns[..i];
      raw := raw.(fields := raw.fields[columns[i].name := Sanitize(value, columns[i])]);
    }
    assert columns[..|columns|] == columns;
  }

  lemma {:induction false} SanitizedField(dirty: DirtyRaw, columns: seq<Column>, i: nat)
    requires DistinctNames(columns) && i < |columns|
    ensures columns[i].name in SanitizedFields(dirty, columns)
    ensures SanitizedFields(dirty, columns)[columns[i].name] == Sanitize(ValueOf(dirty, columns[i].name), columns[i])
  {
    var n := |columns| - 1;
    if i < n {
      SanitizedField(dirty, columns[..n], i);
    }
  }

  lemma {:induction false} SanitizedKeys(dirty: DirtyRaw, columns: seq<Column>, key: string)
    ensures key in SanitizedFields(dirty, columns) <==> exists i :: 0 <= i < |columns| && columns[i].name == key
  {
    if columns == [] {
    } else {
      var n := |columns| - 1;
      SanitizedKeys(dirty, columns[..n], key);
      if key in SanitizedFields(dirty, columns[..n]) {
        var i :| 0 <= i < n && columns[..n][i].name == key;
        assert columns[i].name == key;
      } else if key == columns[n].name {
      } else {
        forall i | 0 <= i < |columns|
          ensures columns[i].name != key
        {
          assert i < n ==> columns[..n][i] == columns[i];
        }
      }
    }
  }

  /** A dirty record of any content becomes one with exactly the schema's columns, each of its type. */
  lemma SanitizedRawIsSanitized(dirty: DirtyRaw, columns: seq<Column>, randomId: string)
    requires DistinctNames(columns)
    ensures Sanitized(SanitizedRaw(dirty, columns, randomId), columns)
  {
    var raw := SanitizedRaw(dirty, columns, randomId);
    forall key
      ensures key in raw.fields <==> exists i :: 0 <= i < |columns| && columns[i].name == key
    {
      SanitizedKeys(dirty, columns, key);
    }
    forall i | 0 <= i < |columns|
      ensures columns[i].name in raw.fields && FitsColumn(raw.fields[columns[i].name], columns[i])
    {
      SanitizedField(dirty, columns, i);
      SanitizeFits(ValueOf(dirty, columns[i].name), columns[i]);
    }
  }

  /** Sanitizing gives a record the id, the status and the list of changes that it comes with, a record that comes
      with no status of the three below counting as created; one without an id is a new one. Each column gets
      what sanitizing its value gives, and the value of a missing column is null. */
  lemma SanitizedRawIs(dirty: DirtyRaw, columns: seq<Column>, randomId: string)
    requires DistinctNames(columns)
    ensures var raw, id := SanitizedRaw(dirty, columns, randomId), ValueOf(dirty, "id");
            && (if id.Text? then
                  var status, changed := ValueOf(dirty, "_status"), ValueOf(dirty, "_changed");
                  && raw.id == id.s && raw.changed == (if changed.Text? then changed.s else "")
                  && (raw.status == Synced <==> status == Text("synced"))
                  && (raw.status == Updated <==> status == Text("updated"))
                  && (raw.status == Deleted <==> status == Text("deleted"))
                  && (raw.status == Created <==> status !in {Text("synced"), Text("updated"), Text("deleted")})
                else raw.id == randomId && raw.status == Created && raw.changed == "")
            && (forall key :: key in raw.fields <==> exists i :: 0 <= i < |columns| && columns[i].name == key)
            && forall i :: 0 <= i < |columns| ==>
                 && columns[i].name in raw.fields
                 && raw.fields[columns[i].name] ==
                    Sanitize(if columns[i].name in dirty then dirty[columns[i].name] else Null, columns[i])
  {
    SanitizedRawIsSanitized(dirty, columns, randomId);
    forall i | 0 <= i < |columns|
      ensures columns[i].name in SanitizedFields(dirty, columns)
              && SanitizedFields(dirty, columns)[columns[i].name]
                 == Sanitize(ValueOf(dirty, columns[i].name), columns[i])
    {
      SanitizedField(dirty, columns, i);
    }
  }

  function StatusText(status: Status): string {
    match status
    case Synced => "synced"
    case Created => "created"
    case Updated => "updated"
    case Deleted => "deleted"
    case Disposable => "disposable"
  }

  // ---- Persisting ----

  /** What SQLite holds in a column, and returns for it. */
  datatype SqliteValue = SqlNull | SqlNumber(n: real) | SqlText(s: string)

  /** `bindArgs`: booleans are stored as 1 and 0, anything without a value as null. */
  function ToSqlite(v: Value): SqliteValue {
    match v
    case Boolean(b) => SqlNumber(if b then 1.0 else 0.0)
    case Num(Finite(r)) => SqlNumber(r)
    case Text(s) => SqlText(s)
    case _ => SqlNull
  }

  /** `columnValue`, as JavaScript then sees it: a stored boolean comes back as a number. */
  function FromSqlite(v: SqliteValue): Value {
    match v
    case SqlNull => Null
    case SqlNumber(r) => Num(Finite(r))
    case SqlText(s) => Text(s)
  }

  /** Storing a value that fits its column, reading it back and sanitizing it again restores it. */
  lemma ColumnRoundTrip(v: Value, column: Column)
    requires FitsColumn(v, column)
    ensures Sanitize(FromSqlite(ToSqlite(v)), column) == v
  {
  }
}
