/** One input for each way in which the code does less than it says. */
module FailingInputs {
  import opened Results
  import opened RawRecords
  import opened BatchEncoding
  import opened ChangeTracking
  import opened BridgeTheory
  import opened Models
  import opened RecordCaches
  import opened BridgeSnapshots
  import opened RecordBridge
  import opened WorkQueueTheory
  import opened QueryDescriptions
  import DeletedRows
  import TurboSync
  import Descendants

  const NAME := Column("name", StringColumn, false)

  const SCHEMA: Schema := map["tasks" := [NAME]]

  const ROW := StoredRow(SqlText("synced"), SqlText(""), [SqlText("old")])

  /** Two rows of an earlier launch. */
  const ROWS: Store := map["tasks" := map["a" := ROW, "b" := ROW]]

  // ---- Records over the bridge ----

  /** A query that throws after one of two rows: its id is believed to be sent, but no model is cached. */
  method HalfwayQuery() returns (db: Database)
    ensures db.Shape() && db.Kept() && !db.Agreement()
  {
    db := new Database(SCHEMA, ROWS);
    var r := db.FetchQuery("tasks", ["a", "b"], 1, true);
    assert r.Thrown?;
    assert ["a", "b"][0] !in db.collections["tasks"].records;
  }

  lemma RenamingEdits()
    ensures ColumnMap([NAME]) == map["name" := NAME] && ValidColumns(ColumnMap([NAME]))
    ensures var raw := Loaded([NAME], "a", ROW);
            && raw.status == Synced && "name" in raw.fields && raw.fields["name"] == Text("old")
            && Edited(raw, ColumnMap([NAME]), [("name", Text("new"))]).fields != raw.fields
  {
    var raw, edits := Loaded([NAME], "a", ROW), [("name", Text("new"))];
    assert ColumnMap([NAME]) == map["name" := NAME];
    assert LoadColumns([NAME], [SqlText("old")])["name"] == Text("old");
    assert edits[..0] == [] && EditAll(raw, ColumnMap([NAME]), []) == raw;
  }

  /** An updater that throws after an assignment: the cached record is not what its row loads as, and no
      change of it is prepared. */
  method ThrowingUpdater() returns (db: Database, m: Model)
    ensures db.Agrees() && db.IsCached(m) && m in db.Stale() && m.preparedState == Unprepared
  {
    RenamingEdits();
    db, m := FetchedRow();
    var ok := db.PrepareUpdate(m, [("name", Text("new"))], true);
  }

  /** The row of `a`, fetched. */
  method FetchedRow() returns (db: Database, m: Model)
    ensures fresh(db) && fresh(db.native) && fresh(db.collections.Values) && fresh(m)
    ensures db.schema == SCHEMA && db.native.store == ROWS && db.Agrees() && db.Stale() == {}
    ensures db.IsModel(m) && db.IsCached(m) && m.raw.id == "a" && m.table == "tasks" && m.columns == ColumnMap([NAME])
    ensures m.preparedState == Unprepared && m.raw == Loaded([NAME], "a", ROW)
    ensures db.collections["tasks"].records == map["a" := m]
  {
    db := new Database(SCHEMA, ROWS);
    var r := db.FetchRecord("tasks", "a");
    m := r.value;
    assert db.TableFits("tasks");
    db.InStepIsLoaded("tasks", "a");
  }

  lemma OneIsTaken(db: Database, m: Model)
    requires m.preparedState == PreparedUpdate
    ensures db.Submittable([m]) && db.TakenRecords([m]) == [m] && m in [m]
  {
    assert [m][0] == m;
  }

  /** The row of `a`, fetched and renamed, with the change prepared. */
  method RenamedRow() returns (db: Database, m: Model)
    ensures fresh(db) && fresh(db.native) && fresh(db.collections.Values) && fresh(m)
    ensures db.Agrees() && db.Stale() == {} && db.IsModel(m) && db.IsCached(m) && m.preparedState == PreparedUpdate
    ensures !db.HoldsRow(m)
  {
    RenamingEdits();
    db, m := FetchedRow();
    var ok := db.PrepareUpdate(m, [("name", Text("new"))], false);
  }

  method SubmitAndFail(db: Database, m: Model)
    requires db.Agrees() && db.Stale() == {} && db.IsModel(m) && db.IsCached(m) && m.preparedState == PreparedUpdate
    requires !db.HoldsRow(m)
    modifies db.native`store, db.native`cachedRecords, db.collections.Values, m`preparedState
    ensures db.IsCached(m) && m in db.Stale() && m.preparedState == Unprepared
  {
    OneIsTaken(db, m);
    var ok := db.PerformBatch([m], false, false);
  }

  /** A batch that fails: the record that it took up has new values, and no prepared change any more. */
  method FailedBatch() returns (db: Database, m: Model)
    ensures db.IsCached(m) && m in db.Stale() && m.preparedState == Unprepared
  {
    db, m := RenamedRow();
    SubmitAndFail(db, m);
  }

  method FetchedRows() returns (db: Database, m: Model, other: Model)
    ensures fresh(db) && fresh(db.native) && fresh(db.collections.Values) && fresh(m) && fresh(other)
    ensures db.native.store == ROWS && db.Agrees() && db.Stale() == {}
    ensures db.IsCached(m) && m.raw.id == "a" && m.table == "tasks" && m.preparedState == Unprepared
    ensures db.IsModel(other) && db.IsCached(other) && other.raw.id == "b" && other.table == "tasks"
    ensures other.preparedState == Unprepared && db.collections["tasks"].records == map["a" := m, "b" := other]
  {
    db, m := FetchedRow();
    var r := db.FetchRecord("tasks", "b");
    other := r.value;
    assert db.TableFits("tasks");
  }

  /** Both rows, fetched; the record of `b` has a prepared change. */
  method PendingRow() returns (db: Database, m: Model, ghost touched: set<Model>)
    ensures fresh(db) && fresh(db.native) && fresh(db.collections.Values) && fresh(touched)
    ensures db.Agrees() && db.Stale() == {} && db.native.Selects("tasks", ["b", "a"])
    ensures db.IsCached(m) && m.raw.id == "a" && m.table == "tasks" && m.preparedState == Unprepared
    ensures touched == db.SelectedModels("tasks", ["b", "a"]) && m in touched && !db.AllCanPrepare(touched)
  {
    var pending: Model;
    db, m, pending := FetchedRows();
    var ok := db.PrepareMarkAsDeleted(pending);
    touched := db.SelectedModels("tasks", ["b", "a"]);
    SecondIsBehind(db, m, pending);
  }

  /** A mass destroy that stops at the first of two records, whose change is prepared: the row of the other one
      is gone, and its model is as it was. */
  method HalfwayDestroy() returns (db: Database, m: Model)
    ensures db.IsCached(m) && m in db.Stale() && m.preparedState == Unprepared
  {
    ghost var touched: set<Model>;
    db, m, touched := PendingRow();
    assert "a" in ["b", "a"] by {
      assert ["b", "a"][1] == "a";
    }
    var ok := db.PerformMassDestroy("tasks", ["b", "a"], true, false, true);
  }

  lemma SecondIsBehind(db: Database, m: Model, pending: Model)
    requires db.native.store == ROWS && db.IsCached(m) && m.raw.id == "a" && m.table == "tasks"
    requires db.IsCached(pending) && pending.raw.id == "b" && pending.table == "tasks"
             && pending.preparedState != Unprepared
    ensures var touched := db.SelectedModels("tasks", ["b", "a"]);
            m in touched && !db.AllCanPrepare(touched) && "a" in ["b", "a"] && db.native.Selects("tasks", ["b", "a"])
  {
    var ids := ["b", "a"];
    assert ids[0] == "b" && ids[1] == "a";
    assert pending in db.SelectedModels("tasks", ids);
  }

  // One record is submitted: what the batch comes down to.

  lemma OneEntry(db: Database, r: Model)
    requires r.preparedState != Unprepared
    ensures db.Submittable([r])
    ensures db.EntriesOf([r]) == [Entry(r, OperationFor(r.table, r.raw, r.preparedState))]
  {
  }

  lemma OneOperation<M>(schema: Schema, store: Store, e: Entry<M>, cache: map<string, M>, t: string, id: string)
    ensures Operations([e]) == [e.op] && ApplyAll(schema, store, [e.op]) == Apply(schema, store, e.op)
    ensures Changes(cache, [e], t) == Change(cache, e, t)
    ensures LastWrite([e], t, id) == if OnRecord(e, t, id) && !IsDestroy(e.op) then Some(e) else None
  {
    assert [e][1..] == [] && [e.op][1..] == [];
  }

  lemma OneSubmitted(db: Database, r: Model)
    requires db.Shape() && db.schema == SCHEMA && r.table == "tasks" && db.collections.Keys == SCHEMA.Keys
    requires r.preparedState == PreparedUpdate
             || (r.preparedState == PreparedCreate && r.raw.id !in db.native.store["tasks"])
    ensures db.Submittable([r]) && r in [r]
    ensures var entries := db.EntriesOf([r]);
            && ApplyAll(SCHEMA, db.native.store, Operations(entries)).Ok?
            && Changes(db.collections["tasks"].records, entries, "tasks") ==
               (if r.preparedState == PreparedCreate then db.collections["tasks"].records[r.raw.id := r]
                else db.collections["tasks"].records)
            && LastWrite(entries, "tasks", r.raw.id).Some?
            && !IsDestroy(LastWrite(entries, "tasks", r.raw.id).value.op)
            && LastWrite(entries, "tasks", r.raw.id).value.op.raw == r.raw
  {
    var e := Entry(r, OperationFor(r.table, r.raw, r.preparedState));
    OneEntry(db, r);
    assert [r][0] == r;
    OneOperation(SCHEMA, db.native.store, e, db.collections["tasks"].records, "tasks", r.raw.id);
  }

  method SubmitOne(db: Database, r: Model)
    requires db.Agrees() && db.schema == SCHEMA && db.IsModel(r) && r.table == "tasks"
    requires r.preparedState == PreparedUpdate
             || (r.preparedState == PreparedCreate && r.raw.id !in db.native.store["tasks"])
    modifies db.native`store, db.native`cachedRecords, db.collections.Values, r`preparedState
    ensures db.Agrees() && r.preparedState == Unprepared
    ensures db.collections["tasks"].records ==
            if old(r.preparedState) == PreparedCreate then old(db.collections["tasks"].records)[r.raw.id := r]
            else old(db.collections["tasks"].records)
    ensures forall m :: db.IsCached(m) && m !in old(db.Stale()) && m.table == "tasks" && m.raw.id == r.raw.id ==>
              (m in db.Stale() <==> m.preparedState == Unprepared && m.raw != r.raw)
  {
    OneSubmitted(db, r);
    var ok := db.PerformBatch([r], false, true);
  }

  /** A record that is held over a reset, after which a record of the same id is created. */
  method HeldOverReset() returns (db: Database, held: Model, m: Model)
    ensures fresh(db) && fresh(db.native) && fresh(db.collections.Values) && fresh(held) && fresh(m) && held != m
    ensures db.schema == SCHEMA && db.Agrees() && db.Stale() == {} && db.collections["tasks"].records == map[]
    ensures db.native.store["tasks"] == map[]
    ensures db.IsModel(held) && held.raw == Loaded([NAME], "a", ROW) && held.columns == ColumnMap([NAME])
    ensures held.table == "tasks" && held.preparedState == Unprepared
    ensures db.IsModel(m) && m.preparedState == PreparedCreate && m.table == "tasks" && m.raw.id == "a"
    ensures m.raw.fields == held.raw.fields
  {
    db, held := FetchedRow();
    db.UnsafeReset();
    m := db.PrepareCreateFromDirtyRaw("tasks", LoadRow([NAME], "a", ROW), "");
  }

  /** The new record is created: it is the cached instance now. */
  method Recreated() returns (db: Database, held: Model, m: Model)
    ensures fresh(db) && fresh(db.native) && fresh(db.collections.Values) && fresh(held) && fresh(m) && held != m
    ensures db.schema == SCHEMA && db.Agrees() && m !in db.Stale()
    ensures db.IsModel(held) && held.raw == Loaded([NAME], "a", ROW) && held.columns == ColumnMap([NAME])
    ensures held.table == "tasks" && held.preparedState == Unprepared
    ensures db.IsCached(m) && m.preparedState == Unprepared && m.table == "tasks" && m.raw.id == "a"
    ensures m.raw.fields == held.raw.fields
  {
    db, held, m := HeldOverReset();
    SubmitOne(db, m);
    assert db.IsCached(m);
  }

  /** An update through the instance from before: the cached one has the old values. */
  method AnotherInstance() returns (db: Database, m: Model)
    ensures db.IsCached(m) && m in db.Stale()
  {
    var held: Model;
    db, held, m := RenamedElsewhere();
    SubmitOther(db, held, m);
  }

  method SubmitOther(db: Database, r: Model, m: Model)
    requires db.Agrees() && db.schema == SCHEMA && db.IsModel(r) && r.table == "tasks"
             && r.preparedState == PreparedUpdate
    requires db.IsCached(m) && m !in db.Stale() && m.table == "tasks" && m.raw.id == r.raw.id && m.raw != r.raw
    requires m != r && m.preparedState == Unprepared
    modifies db.native`store, db.native`cachedRecords, db.collections.Values, r`preparedState
    ensures db.IsCached(m) && m in db.Stale()
  {
    ghost var id := m.raw.id;
    assert id in db.collections["tasks"].records && db.collections["tasks"].records[id] == m;
    SubmitOne(db, r);
  }

  method RenamedElsewhere() returns (db: Database, held: Model, m: Model)
    ensures fresh(db) && fresh(db.native) && fresh(db.collections.Values) && fresh(held) && held != m
    ensures db.schema == SCHEMA && db.Agrees() && m !in db.Stale()
    ensures db.IsModel(held) && held.table == "tasks" && held.preparedState == PreparedUpdate && held.raw.id == "a"
    ensures db.IsCached(m) && m.preparedState == Unprepared && m.table == "tasks" && m.raw.id == "a"
    ensures m.raw != held.raw
  {
    RenamingEdits();
    db, held, m := Recreated();
    var ok := db.PrepareUpdate(held, [("name", Text("new"))], false);
  }

  /** Between the halves of a batch that creates a record, the native side believes it to be sent. */
  lemma BetweenHalves(raw: RawRecord)
    ensures var ops, caches: map<string, map<string, nat>> := [Create("tasks", raw)], map["tasks" := map[]];
            !AllCached({} + OperationKeys(ops, ADD_TO_CACHE) - OperationKeys(ops, REMOVE_FROM_CACHE), caches)
  {
    var ops, caches: map<string, map<string, nat>> := [Create("tasks", raw)], map["tasks" := map[]];
    AgreementBetweenHalves(ops, {}, caches);
    assert ops[0].Create? && Creates(ops, "tasks", raw.id) && !Destroys(ops, "tasks", raw.id);
  }

  // ---- Readers and writers ----

  /** A writer that calls another writer and awaits it. */
  const NESTED := Enqueue(true, Enqueue(true, Return, Await(1, Return)), Return)

  /** Without detection it waits for itself; with detection the inner writer is rejected. */
  lemma NestedWriter(detect: bool)
    ensures var s := Exec(Initial(detect), None, NESTED).0;
            && s.running && s.queue[0].id == 0
            && if detect then |s.queue| == 1 && 1 in s.dropped
               else |s.queue| == 2 && s.queue[1].id == 1 && s.queue[1].owner == Some(0) && (0, 1) in s.waits
  {
  }

  // ---- Queries ----

  /** `Q.take(0)` is lost by extending. */
  lemma ZeroTake()
    ensures var built := Extract([Take(0)]);
            built.Ok? && Extend(built.value, []).Ok? && Extract(Extend(built.value, []).value) != Extract([Take(0)])
  {
    ExtendIsConcatenation([Take(0)], []);
    assert [Take(0)] + [] == [Take(0)];
    assert [Take(0)][..0] == [];
  }

  /** `select * from comments` gives deleted comments too. */
  lemma RawQuery(arrange: (QueryDescription, seq<DeletedRows.Row>) -> seq<DeletedRows.Row>)
    ensures var sql := SqlQuery("select * from comments", []);
            var m := DeletedRows.Meaning(map[], (w, row) => false, (s, db) => DeletedRows.RowsOf(db, "comments"));
            var db: DeletedRows.Tables := map["comments" := [map["id" := Text("a"), "_status" := Text("deleted")]]];
            var q := EMPTY.(sql := Some(sql));
            DeletedRows.ResultOf(m, db, "comments", DeletedRows.QueryWithoutDeleted(q), arrange)
            != DeletedRows.ResultOf(m, DeletedRows.Purged(db), "comments", q, arrange)
  {
    var db: DeletedRows.Tables := map["comments" := [map["id" := Text("a"), "_status" := Text("deleted")]]];
    DeletedRows.PurgedRows(db, "comments");
    assert db["comments"][0] in DeletedRows.RowsOf(db, "comments");
  }

  // ---- Turbo sync ----

  /** The second of two records has no id: it is bound with the id of the first, which refuses the insert. */
  lemma MissingId(stored: set<SqliteValue>)
    ensures var records: seq<TurboSync.JsonRecord> := [[("id", TurboSync.JsonText("a"))], []];
            TurboSync.IdAt(records, 1) == SqlText("a") && !TurboSync.KeyIsFree(stored, records, 1)
  {
    var records: seq<TurboSync.JsonRecord> := [[("id", TurboSync.JsonText("a"))], []];
    assert records[..2][..1] == records[..1] && records[..1][..0] == [];
    assert TurboSync.IdAt(records, 0) == SqlText("a");
  }

  /** A key given twice, the second time with a value of the wrong type: sanitizing resets the column,
      turbo sync keeps the first value. */
  lemma RepeatedKey()
    ensures var fields := [("id", TurboSync.JsonText("a")), ("name", TurboSync.JsonText("b")),
                           ("name", TurboSync.JsonNull)];
            && TurboSync.BoundColumn(fields, NAME) == SqlText("b")
            && ToSqlite(Sanitize(ValueOf(TurboSync.Parsed(fields), "name"), NAME)) == SqlText("")
  {
  }

  // ---- Descendants ----

  /** A record that is its own child. */
  lemma OwnChild(depth: nat)
    ensures Descendants.InnerWithin(map[("tasks", "a") := [[("tasks", "a")]]], ("tasks", "a"), depth) == None
  {
    var n, g: Descendants.Graph := ("tasks", "a"), map[("tasks", "a") := [[("tasks", "a")]]];
    assert g[n][0][0] == n && Descendants.IsChild(g, n, n);
    Descendants.ChildReaches(g, n, n, n);
    Descendants.NeverEnough(g, n, depth);
  }
}
