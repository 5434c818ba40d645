/** Queries that leave out deleted records, by a condition added to every table that they look at. */
module DeletedRows {
  import opened RawRecords
  import opened QueryDescriptions

  type Row = map<string, Value>

  type Tables = map<string, seq<Row>>

  datatype Association = BelongsTo(key: string) | HasMany(foreignKey: string)

  /** What the model does not fix: which tables are associated, what a raw expression, or a comparison other
      than with a single value for equality, says of the current row, and what rows a raw query gives. */
  datatype Meaning = Meaning(
    associations: map<(string, string), Association>,
    holds: (Where, Row) -> bool,
    rawRows: (SqlQuery, Tables) -> seq<Row>)

  function Cell(row: Row, column: string): Value {
    if column in row then row[column] else Null
  }

  predicate Associated(m: Meaning, from: string, row: Row, to: string, other: Row) {
    (from, to) in m.associations &&
    match m.associations[(from, to)]
    case BelongsTo(key) => Cell(row, key) != Null && Cell(row, key) == Cell(other, "id")
    case HasMany(foreignKey) => Cell(row, "id") != Null && Cell(other, foreignKey) == Cell(row, "id")
  }

  function RowsOf(db: Tables, table: string): seq<Row> {
    if table in db then db[table] else []
  }

  /** Whether the row of the table meets the condition. `on` asks for an associated row of the other table
      that meets all of its conditions. */
  ghost predicate Meets(m: Meaning, db: Tables, table: string, row: Row, w: Where)
    decreases w
  {
    match w
    case Compare(column, comparison) =>
      if !comparison.right.RightValue? || comparison.operator !in ["eq", "notEq"] then m.holds(w, row)
      else (comparison.operator == "eq") == (Cell(row, column) == comparison.right.value)
    case And(conditions) => forall i :: 0 <= i < |conditions| ==> Meets(m, db, table, row, conditions[i])
    case Or(conditions) => exists i :: 0 <= i < |conditions| && Meets(m, db, table, row, conditions[i])
    case On(to, conditions) =>
      exists other :: other in RowsOf(db, to) && Associated(m, table, row, to, other)
                      && forall i :: 0 <= i < |conditions| ==> Meets(m, db, to, other, conditions[i])
    case SqlExpr(_) => m.holds(w, row)
    case LokiExpr(_) => m.holds(w, row)
  }

  ghost predicate MeetsAll(m: Meaning, db: Tables, table: string, row: Row, conditions: seq<Where>) {
    forall i :: 0 <= i < |conditions| ==> Meets(m, db, table, row, conditions[i])
  }

  ghost function Selected(m: Meaning, db: Tables, table: string, rows: seq<Row>, conditions: seq<Where>): seq<Row> {
    if rows == [] then []
    else
      (if MeetsAll(m, db, table, rows[0], conditions) then [rows[0]] else [])
      + Selected(m, db, table, rows[1..], conditions)
  }

  /** The result of a query. A raw query is run as it is, whatever else the description says; otherwise
      `arrange` sorts and pages the selected rows as the description says. */
  ghost function ResultOf(m: Meaning, db: Tables, table: string, q: QueryDescription,
                          arrange: (QueryDescription, seq<Row>) -> seq<Row>): seq<Row> {
    if q.sql.Some? then m.rawRows(q.sql.value, db)
    else arrange(q.(where := []), Selected(m, db, table, RowsOf(db, table), q.where))
  }

  // ---- The transformation ----

  const DELETED := Text("deleted")

  const WHERE_NOT_DELETED := Compare("_status", Comparison("notEq", RightValue(DELETED)))

  function ConditionsWithoutDeleted(conditions: seq<Where>): seq<Where> {
    seq(|conditions|, i requires 0 <= i < |conditions| => ClauseWithoutDeleted(conditions[i]))
  }

  /** `queryWithoutDeletedImpl` */
  function ClauseWithoutDeleted(clause: Where): Where
  {
    match clause
    case And(conditions) =>
      And(seq(|conditions|, i requires 0 <= i < |conditions| => ClauseWithoutDeleted(conditions[i])))
    case Or(conditions) =>
      Or(seq(|conditions|, i requires 0 <= i < |conditions| => ClauseWithoutDeleted(conditions[i])))
    case On(table, conditions) =>
      On(table, seq(|conditions|, i requires 0 <= i < |conditions| => ClauseWithoutDeleted(conditions[i]))
         + [WHERE_NOT_DELETED])
    case _ => clause
  }

  function QueryWithoutDeleted(q: QueryDescription): QueryDescription {
    q.(where := ConditionsWithoutDeleted(q.where) + [WHERE_NOT_DELETED])
  }

  // ---- Its meaning ----

  predicate IsDeleted(row: Row) {
    Cell(row, "_status") == Text("deleted")
  }

  function WithoutDeleted(rows: seq<Row>): seq<Row> {
    if rows == [] then [] else (if IsDeleted(rows[0]) then [] else [rows[0]]) + WithoutDeleted(rows[1..])
  }

  /** The database with the deleted rows of every table removed. */
  function Purged(db: Tables): Tables {
    map t | t in db :: WithoutDeleted(db[t])
  }

  lemma {:induction false} WithoutDeletedContains(rows: seq<Row>, row: Row)
    ensures row in WithoutDeleted(rows) <==> row in rows && !IsDeleted(row)
  {
    if rows == [] {
    } else {
      WithoutDeletedContains(rows[1..], row);
      assert row in rows <==> row == rows[0] || row in rows[1..];
    }
  }

  lemma PurgedRows(db: Tables, table: string)
    ensures RowsOf(Purged(db), table) == WithoutDeleted(RowsOf(db, table))
    ensures forall row :: row in RowsOf(Purged(db), table) <==> row in RowsOf(db, table) && !IsDeleted(row)
  {
    forall row
      ensures row in WithoutDeleted(RowsOf(db, table)) <==> row in RowsOf(db, table) && !IsDeleted(row)
    {
      WithoutDeletedContains(RowsOf(db, table), row);
    }
  }

  /** For conditions nested to any depth: the rewritten condition on the whole database is the original one
      on the database without deleted rows. */
  lemma {:induction false} ClauseKeepsMeaning(m: Meaning, db: Tables, table: string, row: Row, w: Where)
    ensures Meets(m, db, table, row, ClauseWithoutDeleted(w)) <==> Meets(m, Purged(db), table, row, w)
    decreases w
  {
    match w
    case And(conditions) =>
      var rewritten := ClauseWithoutDeleted(w).conditions;
      forall i | 0 <= i < |conditions|
        ensures Meets(m, db, table, row, rewritten[i]) <==> Meets(m, Purged(db), table, row, conditions[i])
      {
        ClauseKeepsMeaning(m, db, table, row, conditions[i]);
      }
    case Or(conditions) =>
      var rewritten := ClauseWithoutDeleted(w).conditions;
      forall i | 0 <= i < |conditions|
        ensures Meets(m, db, table, row, rewritten[i]) <==> Meets(m, Purged(db), table, row, conditions[i])
      {
        ClauseKeepsMeaning(m, db, table, row, conditions[i]);
      }
    case On(to, conditions) =>
      var rewritten := ClauseWithoutDeleted(w).conditions;
      PurgedRows(db, to);
      forall other
        ensures (forall i :: 0 <= i < |rewritten| ==> Meets(m, db, to, other, rewritten[i]))
                <==> !IsDeleted(other) && forall i :: 0 <= i < |conditions| ==>
                    Meets(m, Purged(db), to, other, conditions[i])
      {
        assert rewritten[|conditions|] == WHERE_NOT_DELETED;
        forall i | 0 <= i < |conditions|
          ensures Meets(m, db, to, other, rewritten[i]) <==> Meets(m, Purged(db), to, other, conditions[i])
        {
          ClauseKeepsMeaning(m, db, to, other, conditions[i]);
        }
      }
    case _ =>
  }

  lemma {:induction false} SelectedKeepsMeaning(m: Meaning, db: Tables, table: string, rows: seq<Row>,
                                                conditions: seq<Where>)
    ensures Selected(m, db, table, rows, ConditionsWithoutDeleted(conditions) + [WHERE_NOT_DELETED])
            == Selected(m, Purged(db), table, WithoutDeleted(rows), conditions)
  {
    if rows == [] {
    } else {
      SelectedKeepsMeaning(m, db, table, rows[1..], conditions);
      MeetsAllWithoutDeleted(m, db, table, rows[0], conditions);
      if IsDeleted(rows[0]) {
        assert WithoutDeleted(rows) == WithoutDeleted(rows[1..]);
      } else {
        assert WithoutDeleted(rows)[1..] == WithoutDeleted(rows[1..]);
      }
    }
  }

  lemma MeetsAllWithoutDeleted(m: Meaning, db: Tables, table: string, row: Row, conditions: seq<Where>)
    ensures MeetsAll(m, db, table, row, ConditionsWithoutDeleted(conditions) + [WHERE_NOT_DELETED])
            <==> !IsDeleted(row) && MeetsAll(m, Purged(db), table, row, conditions)
  {
    var rewritten := ConditionsWithoutDeleted(conditions) + [WHERE_NOT_DELETED];
    assert rewritten[|conditions|] == WHERE_NOT_DELETED;
    forall i | 0 <= i < |conditions|
      ensures Meets(m, db, table, row, rewritten[i]) <==> Meets(m, Purged(db), table, row, conditions[i])
    {
      ClauseKeepsMeaning(m, db, table, row, conditions[i]);
    }
  }

  /** `queryWithoutDeleted`: the same rows in the same order as the query itself on the database from which
      the deleted rows are gone. A raw query is not rewritten, so that it has to leave them out itself. */
  lemma QueryKeepsMeaning(m: Meaning, db: Tables, table: string, q: QueryDescription,
                          arrange: (QueryDescription, seq<Row>) -> seq<Row>)
    ensures ResultOf(m, db, table, QueryWithoutDeleted(q), arrange) == ResultOf(m, Purged(db), table, q, arrange)
            <==> (q.sql.Some? ==> m.rawRows(q.sql.value, db) == m.rawRows(q.sql.value, Purged(db)))
  {
    PurgedRows(db, table);
    SelectedKeepsMeaning(m, db, table, RowsOf(db, table), q.where);
  }

  /** What a query hands on is never without a condition. */
  lemma NeverUnconditional(q: QueryDescription)
    ensures QueryWithoutDeleted(q).where != []
  {
  }

  // ---- Raw queries ----

  function Filter(rows: seq<Row>, p: Row -> bool): seq<Row> {
    if rows == [] then [] else (if p(rows[0]) then [rows[0]] else []) + Filter(rows[1..], p)
  }

  /** The raw query is a select of the rows of a table for which the condition holds. */
  ghost predicate SelectsWhere(m: Meaning, sql: SqlQuery, table: string, p: Row -> bool) {
    forall db: Tables :: m.rawRows(sql, db) == Filter(RowsOf(db, table), p)
  }

  lemma {:induction false} FilterWithoutDeleted(rows: seq<Row>, p: Row -> bool)
    ensures |Filter(WithoutDeleted(rows), p)| <= |Filter(rows, p)|
    ensures |Filter(WithoutDeleted(rows), p)| == |Filter(rows, p)| ==>
              (forall row :: row in rows && IsDeleted(row) ==> !p(row))
    ensures (forall row :: row in rows && IsDeleted(row) ==> !p(row)) ==>
              Filter(WithoutDeleted(rows), p) == Filter(rows, p)
  {
    if rows == [] {
    } else {
      FilterWithoutDeleted(rows[1..], p);
      assert forall row :: row in rows <==> row == rows[0] || row in rows[1..];
      if IsDeleted(rows[0]) {
        assert WithoutDeleted(rows) == WithoutDeleted(rows[1..]);
      } else {
        assert WithoutDeleted(rows)[1..] == WithoutDeleted(rows[1..]);
      }
    }
  }

  /** Such a raw query leaves deleted records out if and only if its condition does. */
  lemma RawSelectKeepsMeaning(m: Meaning, db: Tables, table: string, q: QueryDescription,
                              arrange: (QueryDescription, seq<Row>) -> seq<Row>, from: string, p: Row -> bool)
    requires q.sql.Some? && SelectsWhere(m, q.sql.value, from, p)
    ensures ResultOf(m, db, table, QueryWithoutDeleted(q), arrange) == ResultOf(m, Purged(db), table, q, arrange)
            <==> forall row :: row in RowsOf(db, from) && IsDeleted(row) ==> !p(row)
  {
    PurgedRows(db, from);
    FilterWithoutDeleted(RowsOf(db, from), p);
  }
}
