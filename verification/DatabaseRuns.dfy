/** Whole runs: any commands, in any order, from a launch on any rows. */
module DatabaseRuns {
  import opened Sequences
  import opened Results
  import opened RawRecords
  import opened ChangeTracking
  import opened BatchEncoding
  import opened CacheKeys
  import opened BridgeTheory
  import opened NativeRecords
  import opened Models
  import opened RecordCaches
  import opened BridgeSnapshots
  import opened DatabaseTraces
  import opened RecordBridge

  ghost predicate UsableSchema(schema: Schema) {
    ValidSchema(schema) && forall t :: t in schema ==> ValidColumns(ColumnMap(schema[t]))
  }

  /** The database and the records that the program holds are as the moment says. */
  ghost predicate Shows(db: Database, held: seq<Model>, now: Moment)
    reads db.native, db.collections.Values, now.raws.Keys
  {
    && now.held == held && now.store == db.native.store && now.sent == db.native.cachedRecords
    && db.CachesAre(now.caches) && ShowsModels(now)
  }

  ghost predicate ShowsModels(now: Moment)
    reads now.raws.Keys
  {
    now.raws.Keys == now.states.Keys && forall m :: m in now.raws ==> ShowsModel(now, m)
  }

  ghost predicate ShowsModel(now: Moment, m: Model)
    reads m
  {
    && m in now.raws && m in now.states
    && m.raw == now.raws[m] && m.preparedState == now.states[m] && (m.isEditing <==> m in now.editing)
  }

  /** As `Shows`, but for one model. */
  ghost predicate ShowsBut(db: Database, held: seq<Model>, now: Moment, m: Model)
    reads db.native, db.collections.Values, now.raws.Keys - {m}
  {
    && now.held == held && now.store == db.native.store && now.sent == db.native.cachedRecords
    && db.CachesAre(now.caches)
    && now.raws.Keys == now.states.Keys && forall x :: x in now.raws && x != m ==> ShowsModel(now, x)
  }

  ghost predicate Ready(db: Database, held: seq<Model>, now: Moment)
    reads *
  {
    db.Agrees() && Shows(db, held, now) && now.Owned(db.schema)
  }

  lemma StaleShows(db: Database, held: seq<Model>, now: Moment)
    requires Ready(db, held, now)
    ensures db.Stale() == now.Stale(db.schema) && now.Agrees()
  {
    forall t, id | t in now.caches && id in now.caches[t]
      ensures now.IsCurrent(db.schema, t, id, now.caches[t][id]) <==> db.IsCurrent(db.collections[t].records[id], t, id)
    {
      assert ShowsModel(now, now.caches[t][id]);
    }
  }

  lemma IsCoherent(db: Database, held: seq<Model>, a: Moment)
    requires Ready(db, held, a)
    ensures Coherent(db.schema, a) && a.Agrees()
  {
    forall t, id | t in a.caches && id in a.caches[t]
      ensures a.caches[t][id] in a.raws && a.raws[a.caches[t][id]].id == id && a.caches[t][id].table == t
      ensures a.states[a.caches[t][id]] != PreparedCreate
    {
      assert db.TableFits(t) && ShowsModel(a, a.caches[t][id]);
    }
  }

  // ---- One record ----

  lemma OneChanged(db: Database, held: seq<Model>, a: Moment, m: Model) returns (b: Moment)
    requires ShowsBut(db, held, a, m) && a.Owned(db.schema) && m in a.raws && db.IsModel(m)
    ensures b == With(a, m, m.raw, m.preparedState, m.isEditing) && Shows(db, held, b) && b.Owned(db.schema)
  {
    b := With(a, m, m.raw, m.preparedState, m.isEditing);
    WithIsOwned(db.schema, a, m, m.raw, m.preparedState, m.isEditing);
    OtherModelsShow(a, m);
  }

  lemma OtherModelsShow(a: Moment, m: Model)
    requires a.raws.Keys == a.states.Keys && forall x :: x in a.raws && x != m ==> ShowsModel(a, x)
    requires m in a.raws
    ensures ShowsModels(With(a, m, m.raw, m.preparedState, m.isEditing))
  {
    var b := With(a, m, m.raw, m.preparedState, m.isEditing);
    forall x | x in b.raws
      ensures ShowsModel(b, x)
    {
      assert x != m ==> ShowsModel(a, x);
    }
  }

  method Edit(db: Database, held: seq<Model>, ghost a: Moment, m: Model, edits: Edits, throws: bool)
    returns (ghost b: Moment)
    requires UsableSchema(db.schema) && Ready(db, held, a) && m in a.raws && KnownColumns(edits, m.columns)
    modifies m
    ensures Ready(db, held, b) && b == AfterEdit(a, m, edits, throws)
  {
    assert ShowsModel(a, m);
    var _ := UpdateOne(db, held, a, m, edits, throws);
    b := OneChanged(db, held, a, m);
  }

  method UpdateOne(db: Database, held: seq<Model>, ghost a: Moment, m: Model, edits: Edits, throws: bool)
    returns (ok: bool)
    requires UsableSchema(db.schema) && db.Agrees() && ShowsBut(db, held, a, m) && db.IsModel(m)
    requires KnownColumns(edits, m.columns)
    modifies m
    ensures db.Agrees() && db.IsModel(m) && ShowsBut(db, held, a, m)
    ensures ok <==> old(m.preparedState) == Unprepared && (old(m.raw.status) == Deleted ==> edits == []) && !throws
    ensures m.raw == if old(m.preparedState == Unprepared && m.raw.status != Deleted)
                     then Edited(old(m.raw), m.columns, edits) else old(m.raw)
    ensures m.preparedState == if ok then PreparedUpdate else old(m.preparedState)
    ensures m.isEditing == if old(m.preparedState) == Unprepared then !ok else old(m.isEditing)
  {
    ok := db.PrepareUpdate(m, edits, throws);
  }

  method Set(db: Database, held: seq<Model>, ghost a: Moment, m: Model, column: string, value: Value)
    returns (ghost b: Moment)
    requires UsableSchema(db.schema) && Ready(db, held, a) && m in a.raws && column in m.columns
    modifies m
    ensures Ready(db, held, b) && b == AfterSet(a, m, column, value)
  {
    assert ShowsModel(a, m);
    var _ := SetOne(db, held, a, m, column, value);
    b := OneChanged(db, held, a, m);
  }

  method SetOne(db: Database, held: seq<Model>, ghost a: Moment, m: Model, column: string, value: Value)
    returns (ok: bool)
    requires UsableSchema(db.schema) && db.Agrees() && ShowsBut(db, held, a, m) && db.IsModel(m)
    requires column in m.columns
    modifies m
    ensures db.Agrees() && db.IsModel(m) && ShowsBut(db, held, a, m)
    ensures ok <==> old(m.isEditing && m.raw.status != Deleted)
    ensures m.preparedState == old(m.preparedState) && m.isEditing == old(m.isEditing)
    ensures m.raw == if !ok then old(m.raw)
                     else if m.preparedState == PreparedCreate
                     then old(m.raw).(fields := old(m.raw).fields[column := Sanitize(value, m.columns[column])])
                     else Edited(old(m.raw), m.columns, [(column, value)])
  {
    ok := db.Assign(m, column, value);
  }

  method Delete(db: Database, held: seq<Model>, ghost a: Moment, m: Model, permanently: bool) returns (ghost b: Moment)
    requires Ready(db, held, a) && m in a.raws
    modifies m
    ensures Ready(db, held, b) && b == AfterDelete(a, m, permanently)
  {
    assert ShowsModel(a, m);
    DeleteOne(db, held, a, m, permanently);
    b := OneChanged(db, held, a, m);
  }

  method DeleteOne(db: Database, held: seq<Model>, ghost a: Moment, m: Model, permanently: bool)
    requires db.Agrees() && ShowsBut(db, held, a, m) && db.IsModel(m)
    modifies m`raw, m`preparedState
    ensures db.Agrees() && db.IsModel(m) && ShowsBut(db, held, a, m)
    ensures m.raw == if old(m.preparedState) == Unprepared then old(m.raw).(status := Deleted) else old(m.raw)
    ensures m.preparedState ==
            if old(m.preparedState) != Unprepared then old(m.preparedState)
            else if permanently then PreparedDestroyPermanently else PreparedMarkAsDeleted
  {
    if permanently {
      var _ := db.PrepareDestroyPermanently(m);
    } else {
      var _ := db.PrepareMarkAsDeleted(m);
    }
  }

  method Create(db: Database, held: seq<Model>, ghost a: Moment, t: string, timestamps: DirtyRaw, randomId: string,
                edits: Edits) returns (next: seq<Model>, ghost b: Moment)
    requires UsableSchema(db.schema) && Ready(db, held, a) && t in db.schema && "id" !in timestamps
    requires KnownColumns(edits, ColumnMap(db.schema[t]))
    ensures Ready(db, next, b) && IsNew(a, t, Built(db.schema[t], timestamps, randomId, edits), b)
    ensures fresh(b.raws.Keys - a.raws.Keys)
  {
    var m := db.PrepareCreate(t, timestamps, randomId, edits);
    next := held + [m];
    b := NewShows(db, held, a, m);
  }

  lemma NewShows(db: Database, held: seq<Model>, a: Moment, m: Model) returns (b: Moment)
    requires Shows(db, held, a) && a.Owned(db.schema)
    requires m !in a.raws && db.IsModel(m) && m.preparedState == PreparedCreate && !m.isEditing
    ensures Shows(db, held + [m], b) && b.Owned(db.schema) && IsNew(a, m.table, m.raw, b)
  {
    b := a.(raws := a.raws[m := m.raw], states := a.states[m := PreparedCreate], held := held + [m]);
    forall x | x in b.raws
      ensures ShowsModel(b, x)
    {
      assert x != m ==> ShowsModel(a, x);
    }
  }

  // ---- Reading ----

  /** A query selects rows that are there. */
  method SelectExisting(db: Database, t: string, wanted: seq<string>) returns (selected: seq<string>)
    requires t in db.native.store
    ensures selected == Existing(db.native.store[t], wanted) && db.native.Selects(t, selected)
  {
    selected := [];
    for i := 0 to |wanted|
      invariant selected == Existing(db.native.store[t], wanted[..i])
    {
      assert wanted[..i + 1][..i] == wanted[..i];
      if wanted[i] in db.native.store[t] {
        selected := selected + [wanted[i]];
      }
    }
    assert wanted[..|wanted|] == wanted;
  }

  /** The collection has new models for the ids that it did not cache. */
  ghost predicate HasCached(db: Database, a: Moment, t: string, ids: set<string>)
    reads *
  {
    && t in db.collections && t in a.caches && a.store == db.native.store && db.collections.Keys == a.caches.Keys
    && (forall u :: u in db.collections && u != t ==> db.collections[u].records == a.caches[u])
    && db.collections[t].records.Keys == a.caches[t].Keys + ids
    && (forall id :: id in a.caches[t] ==> db.collections[t].records[id] == a.caches[t][id])
    && forall id :: id in db.collections[t].records && id !in a.caches[t] ==>
         var m := db.collections[t].records[id];
         m !in a.raws && m.IsUntouched() && m !in db.Stale()
  }

  /** The moment that follows, when the collection of one table has new models. */
  ghost function CachedNow(db: Database, held: seq<Model>, a: Moment, t: string): Moment
    requires t in db.collections
    reads *
  {
    var models := a.raws.Keys + db.collections[t].records.Values;
    a.(caches := map u | u in db.collections :: db.collections[u].records,
       raws := map m: Model | m in models :: m.raw, states := map m: Model | m in models :: m.preparedState,
       sent := db.native.cachedRecords, held := held)
  }

  lemma CachedShows(db: Database, held: seq<Model>, a: Moment, t: string, ids: set<string>) returns (b: Moment)
    requires db.Agrees() && a.Owned(db.schema) && ShowsModels(a) && HasCached(db, a, t, ids)
    requires forall m :: m in held ==> m in a.raws || m in db.collections[t].records.Values
    ensures CachesRows(db.schema, a, t, ids, b) && Shows(db, held, b) && b.Owned(db.schema)
    ensures b.sent == db.native.cachedRecords && b.held == held
  {
    b := CachedNow(db, held, a, t);
    NewlyCached(db, a, t, ids);
    CachedModelsShow(db, held, a, t, ids);
    CachedIsOwned(db, held, a, t, ids);
    CachedRows(db, held, a, t, ids);
  }

  lemma CachedModelsShow(db: Database, held: seq<Model>, a: Moment, t: string, ids: set<string>)
    requires a.Owned(db.schema) && ShowsModels(a) && HasCached(db, a, t, ids)
    ensures ShowsModels(CachedNow(db, held, a, t)) && KeepsModels(a, CachedNow(db, held, a, t))
  {
    var b := CachedNow(db, held, a, t);
    forall m | m in b.raws
      ensures ShowsModel(b, m)
    {
      if m in a.raws {
        assert ShowsModel(a, m);
      } else {
        var id :| id in db.collections[t].records && db.collections[t].records[id] == m;
      }
    }
    forall m | m in a.raws
      ensures b.raws[m] == a.raws[m] && b.states[m] == a.states[m]
    {
      assert ShowsModel(a, m);
    }
  }

  lemma CachedIsOwned(db: Database, held: seq<Model>, a: Moment, t: string, ids: set<string>)
    requires a.Owned(db.schema) && ShowsModels(a) && HasCached(db, a, t, ids)
    requires forall id :: id in db.collections[t].records ==> db.IsModel(db.collections[t].records[id])
    requires forall m :: m in held ==> m in a.raws || m in db.collections[t].records.Values
    ensures CachedNow(db, held, a, t).Owned(db.schema)
  {
    var b := CachedNow(db, held, a, t);
    forall m | m in b.raws
      ensures Fits(db.schema, b.raws[m], m, m.table)
    {
      assert m in a.raws ==> ShowsModel(a, m);
    }
    forall u, id | u in b.caches && id in b.caches[u]
      ensures b.caches[u][id] in b.raws
    {
      assert u != t ==> a.caches[u][id] == b.caches[u][id];
    }
  }

  lemma CachedRows(db: Database, held: seq<Model>, a: Moment, t: string, ids: set<string>)
    requires db.Wired() && a.Owned(db.schema) && HasCached(db, a, t, ids)
    requires KeepsModels(a, CachedNow(db, held, a, t))
    requires forall id :: id in db.collections[t].records && id !in a.caches[t] ==>
               id in a.store[t] && |a.store[t][id].columns| == |db.schema[t]|
               && db.collections[t].records[id].raw == Loaded(db.schema[t], id, a.store[t][id])
    ensures CachesRows(db.schema, a, t, ids, CachedNow(db, held, a, t))
  {
    var b := CachedNow(db, held, a, t);
    assert b.caches == a.caches[t := b.caches[t]];
    forall id | id in b.caches[t] && id !in a.caches[t]
      ensures LoadsRow(db.schema, a, t, id, b, b.caches[t][id])
    {
    }
  }

  lemma NewlyCached(db: Database, a: Moment, t: string, ids: set<string>)
    requires db.Agrees() && HasCached(db, a, t, ids)
    ensures forall id :: id in db.collections[t].records ==> db.IsModel(db.collections[t].records[id])
    ensures forall id :: id in db.collections[t].records && id !in a.caches[t] ==>
              id in a.store[t] && |a.store[t][id].columns| == |db.schema[t]|
              && db.collections[t].records[id].raw == Loaded(db.schema[t], id, a.store[t][id])
  {
    assert db.TableFits(t);
    forall id | id in db.collections[t].records && id !in a.caches[t]
      ensures id in a.store[t] && |a.store[t][id].columns| == |db.schema[t]|
              && db.collections[t].records[id].raw == Loaded(db.schema[t], id, a.store[t][id])
    {
      db.InStepIsLoaded(t, id);
    }
  }

  method Find(db: Database, held: seq<Model>, ghost a: Moment, t: string, id: string)
    returns (next: seq<Model>, ghost b: Moment)
    requires Ready(db, held, a) && t in db.schema
    modifies db.native`cachedRecords, db.collections[t]
    ensures Ready(db, next, b) && Found(db.schema, a, t, id, b)
    ensures fresh(b.raws.Keys - a.raws.Keys)
  {
    if id in db.collections[t].records {
      next, b := FindCached(db, held, a, t, id);
    } else if id in db.native.store[t] {
      next, b := FindUncached(db, held, a, t, id);
    } else {
      var _ := FindSame(db, held, a, t, id);
      next, b := held, a;
    }
  }

  method FindCached(db: Database, held: seq<Model>, ghost a: Moment, t: string, id: string)
    returns (next: seq<Model>, ghost b: Moment)
    requires Ready(db, held, a) && t in db.schema && id in a.caches[t]
    modifies db.native`cachedRecords, db.collections[t]
    ensures Ready(db, next, b) && b == a.(held := a.held + [a.caches[t][id]])
  {
    var r := FindSame(db, held, a, t, id);
    assert a.caches[t][id] in a.raws;
    next := held + [r.value];
    b := HeldShows(db, held, a, next);
  }

  method FindUncached(db: Database, held: seq<Model>, ghost a: Moment, t: string, id: string)
    returns (next: seq<Model>, ghost b: Moment)
    requires Ready(db, held, a) && t in db.schema && id !in a.caches[t] && id in a.store[t]
    modifies db.native`cachedRecords, db.collections[t]
    ensures Ready(db, next, b) && Found(db.schema, a, t, id, b)
    ensures fresh(b.raws.Keys - a.raws.Keys)
  {
    var m := FindNew(db, held, a, t, id);
    next := held + [m];
    b := NewlyFoundShows(db, held, a, t, id, m);
  }

  lemma NewlyFoundShows(db: Database, held: seq<Model>, a: Moment, t: string, id: string, m: Model) returns (b: Moment)
    requires db.Agrees() && a.Owned(db.schema) && a.held == held && ShowsModels(a) && HasCached(db, a, t, {id})
    requires id !in a.caches[t] && id in a.store[t] && db.collections[t].records == a.caches[t][id := m]
    requires db.native.cachedRecords == a.sent + {CacheKey(t, id)}
    ensures Shows(db, held + [m], b) && b.Owned(db.schema)
    ensures Found(db.schema, a, t, id, b) && forall x :: x in b.raws && x !in a.raws ==> x == m
  {
    b := CachedShows(db, held + [m], a, t, {id});
    RowIsFound(db.schema, a, t, id, m, b);
  }

  /** A record that is cached or has no row. */
  method FindSame(db: Database, held: seq<Model>, ghost a: Moment, t: string, id: string) returns (r: Result<Model>)
    requires Ready(db, held, a) && t in db.schema && (id in a.caches[t] || id !in a.store[t])
    modifies db.native`cachedRecords, db.collections[t]
    ensures db.Agrees() && Shows(db, held, a)
    ensures r == if id in a.caches[t] then Ok(a.caches[t][id]) else Thrown
  {
    r := db.FetchRecord(t, id);
  }

  method FindNew(db: Database, held: seq<Model>, ghost a: Moment, t: string, id: string) returns (m: Model)
    requires Ready(db, held, a) && t in db.schema && id !in a.caches[t] && id in a.store[t]
    modifies db.native`cachedRecords, db.collections[t]
    ensures db.Agrees() && ShowsModels(a)
    ensures fresh(m) && db.collections[t].records == a.caches[t][id := m] && HasCached(db, a, t, {id})
    ensures db.native.cachedRecords == a.sent + {CacheKey(t, id)}
  {
    var r := db.FetchRecord(t, id);
    m := r.value;
    NewlyFound(db, a, t, id, m);
  }

  lemma NewlyFound(db: Database, a: Moment, t: string, id: string, m: Model)
    requires t in db.collections && a.store == db.native.store && db.collections.Keys == a.caches.Keys
    requires forall u :: u in db.collections && u != t ==> db.collections[u].records == a.caches[u]
    requires db.collections[t].records == a.caches[t][id := m] && id !in a.caches[t]
    requires m !in a.raws && m.IsUntouched() && m !in db.Stale()
    ensures HasCached(db, a, t, {id})
  {
  }

  lemma HeldShows(db: Database, held: seq<Model>, a: Moment, next: seq<Model>) returns (b: Moment)
    requires Shows(db, held, a) && a.Owned(db.schema) && forall m :: m in next ==> m in a.raws
    ensures b == a.(held := next) && Shows(db, next, b) && b.Owned(db.schema)
  {
    b := a.(held := next);
    forall m | m in b.raws
      ensures ShowsModel(b, m)
    {
      assert ShowsModel(a, m);
    }
  }

  method Fetch(db: Database, held: seq<Model>, ghost a: Moment, t: string, wanted: seq<string>, steps: nat,
               compressed: bool) returns (next: seq<Model>, ghost b: Moment)
    requires Ready(db, held, a) && t in db.schema
    modifies db.native`cachedRecords, db.collections[t]
    ensures Ready(db, next, b) && Fetched(db.schema, a, t, Existing(a.store[t], wanted), steps, b)
    ensures fresh(b.raws.Keys - a.raws.Keys)
  {
    var selected := SelectExisting(db, t, wanted);
    assert selected == Existing(a.store[t], wanted);
    next, b := FetchSelected(db, held, a, t, selected, steps, compressed);
  }

  method FetchSelected(db: Database, held: seq<Model>, ghost a: Moment, t: string, selected: seq<string>, steps: nat,
                       compressed: bool) returns (next: seq<Model>, ghost b: Moment)
    requires Ready(db, held, a) && t in db.schema && db.native.Selects(t, selected)
    modifies db.native`cachedRecords, db.collections[t]
    ensures Ready(db, next, b) && Fetched(db.schema, a, t, selected, steps, b)
    ensures fresh(b.raws.Keys - a.raws.Keys)
  {
    var r := QueryRows(db, held, a, t, selected, steps, compressed);
    if r.Ok? {
      next := held + r.value;
      b := CachedShows(db, next, a, t, Elements(selected));
      RowsAreHeld(held, b.caches[t], selected, r.value);
    } else {
      next := held;
      b := Forgotten(db, held, a, t, Take(selected, steps));
    }
  }

  /** A query that throws half-way, after rows that are not cached, breaks the agreement: the program then has
      the native side forget what it sent. */
  method Forgotten(db: Database, held: seq<Model>, ghost a: Moment, t: string, stepped: seq<string>)
    returns (ghost b: Moment)
    requires db.Shape() && db.Kept() && t in db.collections && t in a.caches
    requires ShowsUnsent(db, held, a) && a.Owned(db.schema)
    requires db.native.cachedRecords == a.sent + CacheKeysOf(t, stepped)
    requires db.Agrees() <==> AllIn(stepped, a.caches[t])
    modifies db.native`cachedRecords
    ensures Ready(db, held, b)
    ensures b == a.(sent := if AllIn(stepped, a.caches[t]) then a.sent + CacheKeysOf(t, stepped) else {})
  {
    if !AllIn(stepped, db.collections[t].records) {
      db.ClearCachedRecords();
    }
    b := a.(sent := db.native.cachedRecords);
    SentShows(db, held, a);
  }

  /** The moment before shows what there is, but for the ids believed to be sent. */
  ghost predicate ShowsUnsent(db: Database, held: seq<Model>, now: Moment)
    reads db.native`store, db.collections.Values, now.raws.Keys
  {
    now.held == held && now.store == db.native.store && db.CachesAre(now.caches) && ShowsModels(now)
  }

  lemma SentShows(db: Database, held: seq<Model>, a: Moment)
    requires ShowsUnsent(db, held, a) && a.Owned(db.schema)
    ensures var b := a.(sent := db.native.cachedRecords);
            Shows(db, held, b) && b.Owned(db.schema)
  {
    var b := a.(sent := db.native.cachedRecords);
    forall m | m in b.raws
      ensures ShowsModel(b, m)
    {
      assert ShowsModel(a, m);
    }
  }

  /** `FetchQuery`, in terms of the moment before. */
  method QueryRows(db: Database, held: seq<Model>, ghost a: Moment, t: string, selected: seq<string>, steps: nat,
                   compressed: bool) returns (r: Result<seq<Model>>)
    requires Ready(db, held, a) && t in db.schema && db.native.Selects(t, selected)
    modifies db.native`cachedRecords, db.collections[t]
    ensures r.Ok? <==> |selected| <= steps
    ensures ShowsModels(a)
    ensures db.native.cachedRecords == a.sent + CacheKeysOf(t, Take(selected, steps))
    ensures r.Ok? ==> db.Agrees() && HasCached(db, a, t, Elements(selected))
    ensures forall id :: id in db.collections[t].records && id !in a.caches[t] ==> fresh(db.collections[t].records[id])
    ensures r.Ok? ==> |r.value| == |selected| && forall i :: 0 <= i < |selected| ==>
              selected[i] in db.collections[t].records && r.value[i] == db.collections[t].records[selected[i]]
    ensures r.Thrown? ==> ShowsUnsent(db, held, a) && db.Shape() && db.Kept()
    ensures r.Thrown? ==> (db.Agrees() <==> AllIn(Take(selected, steps), a.caches[t]))
  {
    r := QueryCaches(db, a, t, selected, steps, compressed);
  }

  /** The same in terms of the caches before. */
  method QueryCaches(db: Database, ghost a: Moment, t: string, selected: seq<string>,
                     steps: nat, compressed: bool) returns (r: Result<seq<Model>>)
    requires db.Agrees() && db.CachesAre(a.caches) && ShowsModels(a) && t in db.schema && db.native.Selects(t, selected)
    modifies db.native`cachedRecords, db.collections[t]
    ensures r.Ok? <==> |selected| <= steps
    ensures ShowsModels(a) && unchanged(db.native`store) && db.Shape() && db.Kept()
    ensures db.native.cachedRecords == old(db.native.cachedRecords) + CacheKeysOf(t, Take(selected, steps))
    ensures forall u :: u in db.collections && u != t ==> db.collections[u].records == a.caches[u]
    ensures forall id :: id in a.caches[t] ==>
              id in db.collections[t].records && db.collections[t].records[id] == a.caches[t][id]
    ensures forall id :: id in db.collections[t].records && id !in a.caches[t] ==>
              var m := db.collections[t].records[id];
              fresh(m) && m.IsUntouched() && m !in a.raws && m !in db.Stale()
    ensures r.Ok? ==> db.Agrees() && db.collections[t].records.Keys == a.caches[t].Keys + Elements(selected)
    ensures r.Ok? ==> |r.value| == |selected| && forall i :: 0 <= i < |selected| ==>
              selected[i] in db.collections[t].records && r.value[i] == db.collections[t].records[selected[i]]
    ensures r.Thrown? ==> db.CachesAre(a.caches) && (db.Agrees() <==> AllIn(Take(selected, steps), a.caches[t]))
  {
    r := db.FetchQuery(t, selected, steps, compressed);
  }

  // ---- Batches ----

  lemma BatchPlans(db: Database, held: seq<Model>, a: Moment, records: seq<Model>)
    requires Ready(db, held, a) && forall m :: m in records ==> m in a.raws
    ensures Plans(db, a, records)
  {
    forall m | m in a.raws
      ensures ShowsModel(a, m)
    {
    }
    db.SnapshotPlans(a.Snap(), records);
    db.SnapshotTakes(a.Snap(), records);
  }

  method Batch(db: Database, held: seq<Model>, ghost a: Moment, records: seq<Model>, json: bool, commits: bool)
    returns (ghost b: Moment)
    requires Ready(db, held, a) && forall m :: m in records ==> m in held
    modifies db.native`store, db.native`cachedRecords, db.collections.Values, (set m | m in records)`preparedState
    ensures Ready(db, held, b) && Covers(a.Snap(), records) && b == AfterBatch(db.schema, a, records, commits)
  {
    BatchPlans(db, held, a, records);
    var _ := Submit(db, held, a, records, json, commits);
    b := AfterBatch(db.schema, a, records, commits);
    BatchIsOwned(db.schema, a, records, commits);
  }

  /** `PerformBatch`, in terms of the moment before. */
  method Submit(db: Database, held: seq<Model>, ghost a: Moment, records: seq<Model>, json: bool, commits: bool)
    returns (ok: bool)
    requires Ready(db, held, a) && Plans(db, a, records) && forall m :: m in records ==> m in held
    modifies db.native`store, db.native`cachedRecords, db.collections.Values, (set m | m in records)`preparedState
    ensures db.Agrees() && (ok <==> BatchSucceeds(db.schema, a, records, commits))
    ensures Shows(db, held, AfterBatch(db.schema, a, records, commits))
  {
    ok := SubmitRecords(db, a, records, json, commits);
  }

  ghost predicate Plans(db: Database, a: Moment, records: seq<Model>)
    reads set m | m in records
  {
    && Covers(a.Snap(), records) && db.EntriesOf(records) == Planned(a.Snap(), records)
    && (db.Submittable(records) <==> AllPrepared(a.Snap(), records))
    && db.TakenRecords(records) == TakenUp(a.Snap(), records)
    && forall m :: m in records ==> m in a.raws && db.IsModel(m)
  }

  /** The same, case by case. */
  method SubmitRecords(db: Database, ghost a: Moment, records: seq<Model>, json: bool, commits: bool) returns (ok: bool)
    requires db.Agrees() && ShowsModels(a) && Plans(db, a, records)
    requires a.store == db.native.store && a.sent == db.native.cachedRecords && db.CachesAre(a.caches)
    modifies db.native`store, db.native`cachedRecords, db.collections.Values, (set m | m in records)`preparedState
    ensures db.Agrees() && (ok <==> BatchSucceeds(db.schema, a, records, commits))
    ensures ShowsModels(AfterBatch(db.schema, a, records, commits))
    ensures db.CachesAre(AfterBatch(db.schema, a, records, commits).caches)
    ensures db.native.store == AfterBatch(db.schema, a, records, commits).store
    ensures db.native.cachedRecords == AfterBatch(db.schema, a, records, commits).sent
  {
    ok := SubmitAll(db, a, records, json, commits);
    StatesShow(db, a, records, commits, ok);
    WrittenIs(db, a, records, commits, ok);
  }

  /** Every model is as it was, but for the prepared states of the records. */
  ghost predicate OthersAre(a: Moment, records: seq<Model>)
    reads a.raws.Keys
  {
    && a.raws.Keys == a.states.Keys
    && forall m :: m in a.raws ==>
         m.raw == a.raws[m] && (m.isEditing <==> m in a.editing) && (m !in records ==> m.preparedState == a.states[m])
  }

  lemma StatesShow(db: Database, a: Moment, records: seq<Model>, commits: bool, ok: bool)
    requires Covers(a.Snap(), records) && OthersAre(a, records)
    requires ok <==> BatchSucceeds(db.schema, a, records, commits)
    requires forall m :: m in records ==> m in a.states && (ok ==> m.preparedState == Unprepared)
    requires !ok ==> forall m :: m in records ==>
                       m.preparedState == if m in TakenUp(a.Snap(), records) && a.states[m] != PreparedCreate
                                          then Unprepared else a.states[m]
    ensures ShowsModels(AfterBatch(db.schema, a, records, commits))
  {
    var b := AfterBatch(db.schema, a, records, commits);
    forall m | m in b.raws
      ensures ShowsModel(b, m)
    {
      assert m !in records ==> b.states[m] == a.states[m];
    }
  }

  method SubmitAll(db: Database, ghost a: Moment, records: seq<Model>, json: bool, commits: bool) returns (ok: bool)
    requires db.Agrees() && ShowsModels(a) && Plans(db, a, records)
    requires a.store == db.native.store && a.sent == db.native.cachedRecords && db.CachesAre(a.caches)
    modifies db.native`store, db.native`cachedRecords, db.collections.Values, (set m | m in records)`preparedState
    ensures db.Agrees() && (ok <==> BatchSucceeds(db.schema, a, records, commits))
    ensures OthersAre(a, records)
    ensures forall m :: m in records ==> m in a.states && (ok ==> m.preparedState == Unprepared)
    ensures !ok ==> forall m :: m in records ==>
                      m.preparedState == if m in TakenUp(a.Snap(), records) && a.states[m] != PreparedCreate
                                         then Unprepared else a.states[m]
    ensures ok ==> Written(db, a, records)
    ensures !ok ==> Unwritten(db, a)
  {
    assert forall m :: m in a.raws ==> ShowsModel(a, m);
    ok := SubmitChecked(db, a, records, json, commits);
  }

  lemma WrittenIs(db: Database, a: Moment, records: seq<Model>, commits: bool, ok: bool)
    requires Covers(a.Snap(), records) && (ok <==> BatchSucceeds(db.schema, a, records, commits))
    requires if ok then Written(db, a, records) else Unwritten(db, a)
    ensures db.CachesAre(AfterBatch(db.schema, a, records, commits).caches)
    ensures db.native.store == AfterBatch(db.schema, a, records, commits).store
    ensures db.native.cachedRecords == AfterBatch(db.schema, a, records, commits).sent
  {
  }

  ghost predicate Written(db: Database, a: Moment, records: seq<Model>)
    requires Covers(a.Snap(), records)
    reads db.native, db.collections.Values
  {
    var entries := Planned(a.Snap(), records);
    && ApplyAll(db.schema, a.store, Operations(entries)) == Ok(db.native.store)
    && db.native.cachedRecords == a.sent + OperationKeys(Operations(entries), ADD_TO_CACHE)
                                  - OperationKeys(Operations(entries), REMOVE_FROM_CACHE)
    && db.collections.Keys == a.caches.Keys
    && forall t :: t in db.collections ==> db.collections[t].records == Changes(a.caches[t], entries, t)
  }

  ghost predicate Unwritten(db: Database, a: Moment)
    reads db.native, db.collections.Values
  {
    a.store == db.native.store && a.sent == db.native.cachedRecords && db.CachesAre(a.caches)
  }

  method SubmitChecked(db: Database, ghost a: Moment, records: seq<Model>, json: bool, commits: bool) returns (ok: bool)
    requires db.Agrees() && ShowsModels(a) && Plans(db, a, records) && Unwritten(db, a)
    modifies db.native`store, db.native`cachedRecords, db.collections.Values, (set m | m in records)`preparedState
    ensures db.Agrees() && (ok <==> BatchSucceeds(db.schema, a, records, commits))
    ensures forall m :: m in records ==> m in a.states && (ok ==> m.preparedState == Unprepared)
    ensures !ok ==> forall m :: m in records ==>
                      m.preparedState == if m in TakenUp(a.Snap(), records) && a.states[m] != PreparedCreate
                                         then Unprepared else a.states[m]
    ensures ok ==> Written(db, a, records)
    ensures !ok ==> Unwritten(db, a)
  {
    assert forall m :: m in records ==> ShowsModel(a, m);
    ok := db.PerformBatch(records, json, commits);
  }

  // ---- Destroying in bulk, and clearing ----

  method MassDestroy(db: Database, held: seq<Model>, ghost a: Moment, t: string, wanted: seq<string>, permanently: bool,
                     commits: bool) returns (ghost b: Moment)
    requires Ready(db, held, a) && t in db.schema
    modifies db.native, db.collections[t], a.raws.Keys
    ensures Ready(db, held, b)
    ensures b == AfterMassDestroy(a, t, Existing(a.store[t], wanted), permanently, commits)
  {
    var selected := SelectExisting(db, t, wanted);
    assert selected == Existing(a.store[t], wanted);
    b := DestroySelected(db, held, a, t, selected, permanently, commits);
  }

  method DestroySelected(db: Database, held: seq<Model>, ghost a: Moment, t: string, selected: seq<string>,
                         permanently: bool, commits: bool) returns (ghost b: Moment)
    requires Ready(db, held, a) && t in db.schema && db.native.Selects(t, selected)
    modifies db.native, db.collections[t]
    modifies a.raws.Keys
    ensures Ready(db, held, b) && b == AfterMassDestroy(a, t, selected, permanently, commits)
  {
    ghost var touched, marked := db.SelectedModels(t, selected), db.SelectedModels(t, db.MarkedSelected(t, selected));
    DestroyPlans(db, held, a, t, selected);
    var ok := DestroyPlanned(db, a, t, selected, permanently, commits, touched, marked, a.raws.Keys - touched);
    b := DestroyedShow(db, held, a, t, selected, permanently, commits, touched, ok);
  }

  method DestroyPlanned(db: Database, ghost a: Moment, t: string, selected: seq<string>, permanently: bool,
                        commits: bool,
                        ghost touched: set<Model>, ghost marked: set<Model>, ghost others: set<Model>)
                            returns (ok: bool)
    requires db.Agrees() && Unwritten(db, a) && db.native.Selects(t, selected)
    requires touched == db.SelectedModels(t, selected) <= a.raws.Keys == a.states.Keys
             && others == a.raws.Keys - touched
    requires marked == db.SelectedModels(t, db.MarkedSelected(t, selected)) && ShowsModels(a)
    modifies db.native, db.collections[t], a.raws.Keys
    ensures db.Agrees() && (ok <==> commits && old(db.AllCanPrepare(touched)))
    ensures RowsDestroyed(db, a, t, selected, permanently, commits, ok)
    ensures TouchedAre(db, a, touched, commits, marked) && EditingShows(a, touched) && SomeShow(a, others)
  {
    ghost var region: set<object> := {db.native, db.collections[t]} + touched;
    Apart(db, t, touched, others);
    ok := DestroyAll(db, a, t, selected, permanently, commits, touched, marked, region, others);
  }

  lemma Apart(db: Database, t: string, touched: set<Model>, others: set<Model>)
    requires t in db.collections && others !! touched
    ensures var region: set<object> := {db.native, db.collections[t]} + touched;
            others !! region
  {
  }

  ghost predicate PlansDestroy(db: Database, a: Moment, t: string, selected: seq<string>)
    reads db.collections.Values, db.CachedModels()`preparedState, db.CachedModels()`raw
  {
    && t in db.collections && t in a.caches && db.SelectedModels(t, selected) <= a.raws.Keys
    && (db.AllCanPrepare(db.SelectedModels(t, selected)) <==> CanMark(a.Snap(), t, selected))
    && db.SelectedModels(t, db.MarkedSelected(t, selected)) == MarkedSet(a.Snap(), t, selected)
    && MarkedSet(a.Snap(), t, selected) <= db.SelectedModels(t, selected)
  }

  lemma DestroyPlans(db: Database, held: seq<Model>, a: Moment, t: string, selected: seq<string>)
    requires Ready(db, held, a) && t in db.collections
    ensures PlansDestroy(db, a, t, selected)
  {
    forall m | m in a.raws
      ensures ShowsModel(a, m)
    {
    }
    db.MarkedAre(a.Snap(), t, selected);
  }

  ghost predicate RowsDestroyed(db: Database, a: Moment, t: string, selected: seq<string>, permanently: bool,
                                commits: bool, ok: bool)
    reads db.native, db.collections.Values
  {
    && t in a.store && t in a.caches && db.collections.Keys == a.caches.Keys
    && db.native.store == (if commits then Destroyed(a.store, t, Elements(selected), permanently) else a.store)
    && db.native.cachedRecords == a.sent - (if commits then CacheKeysOf(t, selected) else {})
    && db.collections[t].records == (if ok then a.caches[t] - Elements(selected) else a.caches[t])
    && forall u :: u in db.collections && u != t ==> db.collections[u].records == a.caches[u]
  }

  ghost predicate SomeShow(a: Moment, some: set<Model>)
    reads some
  {
    forall m :: m in some ==> ShowsModel(a, m)
  }

  ghost predicate TouchedAre(db: Database, a: Moment, touched: set<Model>, commits: bool, marked: set<Model>)
    reads touched`raw, touched`preparedState
  {
    && a.raws.Keys == a.states.Keys && touched <= a.raws.Keys
    && forall m :: m in touched ==>
         db.MarkedOrNot(m, a.raws[m], a.states[m], commits && m in marked)
  }

  ghost predicate EditingShows(a: Moment, some: set<Model>)
    reads some`isEditing
  {
    forall m :: m in some ==> (m.isEditing <==> m in a.editing)
  }

  /** `PerformMassDestroy`, in terms of the moment before: first the rows and caches, then what is said of the
      models one after the other. */
  method DestroyRows(db: Database, ghost a: Moment, t: string, selected: seq<string>, permanently: bool, commits: bool,
              ghost touched: set<Model>, ghost marked: set<Model>) returns (ok: bool)
    requires db.Agrees() && Unwritten(db, a) && db.native.Selects(t, selected)
    requires touched == db.SelectedModels(t, selected) <= a.raws.Keys == a.states.Keys
    requires marked == db.SelectedModels(t, db.MarkedSelected(t, selected))
    modifies db.native`store, db.native`cachedRecords, db.collections[t], touched`raw, touched`preparedState
    ensures db.Agrees() && (ok <==> commits && old(db.AllCanPrepare(touched)))
    ensures RowsDestroyed(db, a, t, selected, permanently, commits, ok)
    ensures forall m :: m in touched ==>
              db.MarkedOrNot(m, old(m.raw), old(m.preparedState), commits && m in marked)
  {
    ok := db.PerformMassDestroy(t, selected, permanently, false, commits);
  }

  method DestroyModels(db: Database, ghost a: Moment, t: string, selected: seq<string>, permanently: bool,
                       commits: bool,
              ghost touched: set<Model>, ghost marked: set<Model>) returns (ok: bool)
    requires db.Agrees() && Unwritten(db, a) && db.native.Selects(t, selected)
    requires touched == db.SelectedModels(t, selected) <= a.raws.Keys == a.states.Keys
    requires marked == db.SelectedModels(t, db.MarkedSelected(t, selected))
    requires SomeShow(a, touched)
    modifies db.native`store, db.native`cachedRecords, db.collections[t], touched`raw, touched`preparedState
    ensures db.Agrees() && (ok <==> commits && old(db.AllCanPrepare(touched)))
    ensures RowsDestroyed(db, a, t, selected, permanently, commits, ok)
    ensures TouchedAre(db, a, touched, commits, marked)
  {
    assert forall m :: m in touched ==> ShowsModel(a, m);
    ok := DestroyRows(db, a, t, selected, permanently, commits, touched, marked);
  }

  method DestroyTouched(db: Database, ghost a: Moment, t: string, selected: seq<string>, permanently: bool,
                        commits: bool,
              ghost touched: set<Model>, ghost marked: set<Model>,
              ghost region: set<object>) returns (ok: bool)
    requires db.Agrees() && Unwritten(db, a) && db.native.Selects(t, selected)
    requires touched == db.SelectedModels(t, selected) <= a.raws.Keys == a.states.Keys
    requires marked == db.SelectedModels(t, db.MarkedSelected(t, selected))
    requires region == {db.native, db.collections[t]} + touched && SomeShow(a, touched)
    modifies region
    ensures db.Agrees() && (ok <==> commits && old(db.AllCanPrepare(touched)))
    ensures RowsDestroyed(db, a, t, selected, permanently, commits, ok)
    ensures TouchedAre(db, a, touched, commits, marked) && EditingShows(a, touched)
  {
    assert EditingShows(a, touched);
    ok := DestroyModels(db, a, t, selected, permanently, commits, touched, marked);
  }

  method DestroyAll(db: Database, ghost a: Moment, t: string, selected: seq<string>, permanently: bool, commits: bool,
              ghost touched: set<Model>, ghost marked: set<Model>,
              ghost region: set<object>, ghost others: set<Model>) returns (ok: bool)
    requires db.Agrees() && Unwritten(db, a) && db.native.Selects(t, selected)
    requires touched == db.SelectedModels(t, selected) <= a.raws.Keys == a.states.Keys
    requires marked == db.SelectedModels(t, db.MarkedSelected(t, selected))
    requires region == {db.native, db.collections[t]} + touched && others !! region
    requires SomeShow(a, touched) && SomeShow(a, others)
    modifies region
    ensures db.Agrees() && (ok <==> commits && old(db.AllCanPrepare(touched)))
    ensures RowsDestroyed(db, a, t, selected, permanently, commits, ok)
    ensures TouchedAre(db, a, touched, commits, marked) && EditingShows(a, touched) && SomeShow(a, others)
  {
    ok := DestroyTouched(db, a, t, selected, permanently, commits, touched, marked, region);
  }

  lemma DestroyedShow(db: Database, held: seq<Model>, a: Moment, t: string, selected: seq<string>, permanently: bool,
                      commits: bool, touched: set<Model>, ok: bool) returns (b: Moment)
    requires db.Wired() && a.Owned(db.schema) && a.held == held && t in a.caches
    requires ok <==> commits && CanMark(a.Snap(), t, selected)
    requires RowsDestroyed(db, a, t, selected, permanently, commits, ok)
    requires MarkedSet(a.Snap(), t, selected) <= touched && SomeShow(a, a.raws.Keys - touched)
             && EditingShows(a, touched)
    requires TouchedAre(db, a, touched, commits, MarkedSet(a.Snap(), t, selected))
    ensures b == AfterMassDestroy(a, t, selected, permanently, commits)
    ensures Shows(db, held, b) && b.Owned(db.schema)
  {
    b := AfterMassDestroy(a, t, selected, permanently, commits);
    MassDestroyIsOwned(db.schema, a, t, selected, permanently, commits);
    DestroyedModelsShow(db, a, t, selected, permanently, commits, touched);
  }

  lemma DestroyedModelsShow(db: Database, a: Moment, t: string, selected: seq<string>, permanently: bool, commits: bool,
                            touched: set<Model>)
    requires t in a.caches && t in a.store
    requires MarkedSet(a.Snap(), t, selected) <= touched && SomeShow(a, a.raws.Keys - touched)
             && EditingShows(a, touched)
    requires TouchedAre(db, a, touched, commits, MarkedSet(a.Snap(), t, selected))
    ensures ShowsModels(AfterMassDestroy(a, t, selected, permanently, commits))
  {
    var b := AfterMassDestroy(a, t, selected, permanently, commits);
    MarkedWereUnprepared(a, t, selected);
    forall m | m in b.raws
      ensures ShowsModel(b, m)
    {
      if m in touched {
        var marked := commits && m in MarkedSet(a.Snap(), t, selected);
        assert db.MarkedOrNot(m, a.raws[m], a.states[m], marked);
      } else {
        assert ShowsModel(a, m);
      }
    }
  }

  lemma MarkedWereUnprepared(a: Moment, t: string, selected: seq<string>)
    requires t in a.caches
    ensures forall m :: m in MarkedSet(a.Snap(), t, selected) ==> m in a.states && a.states[m] == Unprepared
  {
    assert CanMark(a.Snap(), t, MarkedIds(a.Snap(), t, selected));
  }

  method Reset(db: Database, held: seq<Model>, ghost a: Moment) returns (ghost b: Moment)
    requires Ready(db, held, a)
    modifies db.native`store, db.native`cachedRecords, db.collections.Values
    ensures Ready(db, held, b) && b == AfterReset(a)
  {
    ResetAll(db, a);
    b := ResetShows(db, held, a);
  }

  method ResetAll(db: Database, ghost a: Moment)
    requires db.Agrees() && ShowsModels(a)
    modifies db.native`store, db.native`cachedRecords, db.collections.Values
    ensures db.Agrees() && ShowsModels(a) && db.native.cachedRecords == {}
    ensures forall t :: t in db.collections ==> db.collections[t].records == map[] && db.native.store[t] == map[]
  {
    db.UnsafeReset();
  }

  lemma ResetShows(db: Database, held: seq<Model>, a: Moment) returns (b: Moment)
    requires db.Shape() && ShowsModels(a) && a.Owned(db.schema) && a.held == held && db.native.cachedRecords == {}
    requires forall t :: t in db.collections ==> db.collections[t].records == map[] && db.native.store[t] == map[]
    ensures b == AfterReset(a) && Shows(db, held, b) && b.Owned(db.schema)
  {
    b := AfterReset(a);
    forall m | m in a.raws
      ensures ShowsModel(b, m)
    {
      assert ShowsModel(a, m);
    }
    assert db.native.store == b.store;
  }

  method Forget(db: Database, held: seq<Model>, ghost a: Moment) returns (ghost b: Moment)
    requires Ready(db, held, a)
    modifies db.native`cachedRecords
    ensures Ready(db, held, b) && b == a.(sent := {})
  {
    db.ClearCachedRecords();
    b := a.(sent := {});
    SentShows(db, held, a);
  }

  // ---- One command, and any number of them ----

  method Read(db: Database, held: seq<Model>, ghost a: Moment, command: Command)
    returns (next: seq<Model>, ghost b: Moment)
    requires Ready(db, held, a) && IsRead(command) && IsMeaningful(db.schema, held, command)
    modifies db.native, db.collections.Values
    ensures Ready(db, next, b) && FollowsRead(db.schema, a, command, b) && fresh(b.raws.Keys - a.raws.Keys)
  {
    match command
    case Fetch(t, wanted, steps, compressed) => next, b := Fetch(db, held, a, t, wanted, steps, compressed);
    case Find(t, id) => next, b := Find(db, held, a, t, id);
  }

  method Change(db: Database, held: seq<Model>, ghost a: Moment, command: Command, m: Model) returns (ghost b: Moment)
    requires UsableSchema(db.schema) && Ready(db, held, a) && IsChange(command)
    requires IsApplicable(held, command) && m == held[command.which]
    modifies m
    ensures Ready(db, held, b) && b == AfterChange(a, command)
  {
    match command
    case Edit(_, edits, throws) => b := Edit(db, held, a, m, edits, throws);
    case Set(_, column, value) => b := Set(db, held, a, m, column, value);
    case Delete(_, permanently) => b := Delete(db, held, a, m, permanently);
  }

  method Write(db: Database, held: seq<Model>, ghost a: Moment, command: Command) returns (ghost b: Moment)
    requires Ready(db, held, a) && IsWrite(command) && IsMeaningful(db.schema, held, command)
    modifies db.native, db.collections.Values, a.raws.Keys
    ensures Ready(db, held, b) && b == AfterWrite(db.schema, a, command) && b.raws.Keys == a.raws.Keys
  {
    match command
    case Batch(which, json, commits) => b := Batch(db, held, a, Chosen(held, which), json, commits);
    case MassDestroy(t, wanted, permanently, commits) =>
      b := MassDestroy(db, held, a, t, wanted, permanently, commits);
    case Reset => b := Reset(db, held, a);
    case Forget => b := Forget(db, held, a);
  }

  method Perform(db: Database, held: seq<Model>, ghost a: Moment, command: Command)
    returns (next: seq<Model>, ghost b: Moment)
    requires UsableSchema(db.schema) && Ready(db, held, a)
    modifies db.native, db.collections.Values, a.raws.Keys
    ensures Ready(db, next, b) && Follows(db.schema, a, command, b) && fresh(b.raws.Keys - a.raws.Keys)
  {
    next, b := held, a;
    if !IsMeaningful(db.schema, held, command) {
    } else if IsRead(command) {
      next, b := Read(db, held, a, command);
    } else if command.NewRecord? {
      next, b := Create(db, held, a, command.table, command.timestamps, command.randomId, command.edits);
    } else if IsChange(command) {
      ChangeKeepsModels(db.schema, a, command);
      b := Change(db, held, a, command, held[command.which]);
    } else {
      b := Write(db, held, a, command);
    }
  }

  /** Any command does what it should, and keeps the two sides of the cache in agreement. */
  method Step(db: Database, held: seq<Model>, ghost a: Moment, command: Command)
    returns (next: seq<Model>, ghost b: Moment)
    requires UsableSchema(db.schema) && Ready(db, held, a)
    modifies db.native, db.collections.Values, a.raws.Keys
    ensures Ready(db, next, b) && fresh(b.raws.Keys - a.raws.Keys) && Stepped(db.schema, a, command, b)
  {
    IsCoherent(db, held, a);
    next, b := Perform(db, held, a, command);
    IsCoherent(db, next, b);
  }

  method Steps(db: Database, ghost launch: Moment, commands: seq<Command>)
    returns (held: seq<Model>, ghost trace: seq<Moment>)
    requires UsableSchema(db.schema) && Ready(db, [], launch) && launch.raws == map[]
    modifies db.native, db.collections.Values
    ensures IsTrace(db.schema, trace, commands) && trace[0] == launch && Ready(db, held, trace[|commands|])
  {
    held, trace := [], [launch];
    for i := 0 to |commands|
      invariant IsTrace(db.schema, trace, commands[..i]) && trace[0] == launch
      invariant Ready(db, held, trace[i]) && fresh(trace[i].raws.Keys)
    {
      ghost var b: Moment;
      held, b := Step(db, held, trace[i], commands[i]);
      assert commands[..i + 1][..i] == commands[..i] && (trace + [b])[..i + 1] == trace;
      trace := trace + [b];
    }
    assert commands[..|commands|] == commands;
  }

  /** Whatever rows there are at launch, and whatever a program does then: every command does what it should,
      the two halves of the cache agree after it, so that no fetch or find ever meets an id that is not
      cached; and for as long as all commands were safe, each cached model holds what its row loads as
      unless a change of it is prepared. */
  method Run(schema: Schema, rows: Store, commands: seq<Command>)
    returns (db: Database, held: seq<Model>, ghost trace: seq<Moment>)
    requires UsableSchema(schema) && WellFormed(schema, rows)
    ensures fresh(db) && db.schema == schema && IsTrace(schema, trace, commands) && trace[0] == Launch(schema, rows)
    ensures Ready(db, held, trace[|commands|]) && db.Stale() == trace[|commands|].Stale(schema)
    ensures forall n :: 0 <= n <= |commands| && SafeUpTo(schema, trace, commands, n) ==> trace[n].Stale(schema) == {}
  {
    db := new Database(schema, rows);
    held, trace := Steps(db, Launch(schema, rows), commands);
    StaleShows(db, held, trace[|commands|]);
    forall n | 0 <= n <= |commands| && SafeUpTo(schema, trace, commands, n)
      ensures trace[n].Stale(schema) == {}
    {
      TransparentWhileSafe(schema, trace, commands, n);
    }
  }
}
