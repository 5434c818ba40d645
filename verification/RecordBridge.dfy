/** The two caches together: every operation of the database that moves records over the bridge. */
module RecordBridge {
  import opened Sequences
  import opened Results
  import opened RawRecords
  import opened ChangeTracking
  import opened BatchEncoding
  import opened CacheKeys
  import opened BridgeTheory
  import opened NativeRecords
  import opened Models
  import opened RecordCaches
  import opened BridgeSnapshots
  import opened ChangeSets
  import opened Submissions

  /** `sanitizeQueryResult` and `sanitizeFindResult` on one item. */
  function SanitizedSent(columns: seq<Column>, sent: Sent): CachedResult {
    match sent
    case SentId(id) => CachedId(id)
    case SentRow(dirty) => CachedRaw(SanitizedRaw(dirty, columns, ""))
  }

  /** What JavaScript gets for the selected rows. */
  function CachedResults(columns: seq<Column>, rows: map<string, StoredRow>, sent: set<string>, t: string,
                         selected: seq<string>): seq<CachedResult>
    requires forall i :: 0 <= i < |selected| ==> selected[i] in rows && |rows[selected[i]].columns| == |columns|
  {
    seq(|selected|, i requires 0 <= i < |selected| =>
        SanitizedSent(columns, SentFor(columns, rows, sent, t, selected, i)))
  }

  lemma ResultAt(columns: seq<Column>, rows: map<string, StoredRow>, sent: set<string>, t: string,
                 selected: seq<string>, i: nat)
    requires forall j :: 0 <= j < |selected| ==> selected[j] in rows && |rows[selected[j]].columns| == |columns|
    requires i < |selected|
    ensures ResultId(CachedResults(columns, rows, sent, t, selected)[i]) == selected[i]
  {
  }

  lemma ResultsPrefix(columns: seq<Column>, rows: map<string, StoredRow>, sent: set<string>, t: string,
                      selected: seq<string>, n: nat)
    requires forall i :: 0 <= i < |selected| ==> selected[i] in rows && |rows[selected[i]].columns| == |columns|
    requires n <= |selected|
    ensures CachedResults(columns, rows, sent, t, selected)[..n] == CachedResults(columns, rows, sent, t, selected[..n])
  {
    forall i | 0 <= i < n
      ensures CachedResults(columns, rows, sent, t, selected)[i]
              == CachedResults(columns, rows, sent, t, selected[..n])[i]
    {
      assert selected[..n][..i] == selected[..i];
    }
  }

  /** It names the selected ids, and the first row sent for an id is what the stored row loads as. */
  lemma {:induction false} ResultsNameSelected(columns: seq<Column>, rows: map<string, StoredRow>, sent: set<string>,
                                               t: string, selected: seq<string>, id: string)
    requires forall i :: 0 <= i < |selected| ==> selected[i] in rows && |rows[selected[i]].columns| == |columns|
    ensures ResultIds(CachedResults(columns, rows, sent, t, selected)) == Elements(selected)
    ensures var raw := RawFor(CachedResults(columns, rows, sent, t, selected), id);
            raw.Some? ==> id in rows && |rows[id].columns| == |columns| && raw.value == Loaded(columns, id, rows[id])
  {
    if selected == [] {
    } else {
      var n := |selected| - 1;
      ResultsNameSelected(columns, rows, sent, t, selected[..n], id);
      ResultsPrefix(columns, rows, sent, t, selected, n);
      ResultAt(columns, rows, sent, t, selected, n);
      assert selected == selected[..n] + [selected[n]];
    }
  }

  class Database {
    const schema: Schema
    const native: NativeDatabase
    const collections: map<string, RecordCache>

    /** One collection per table of the schema. */
    ghost predicate Wired() {
      && native.columns == schema && collections.Keys == schema.Keys
      && (forall t :: t in collections ==> collections[t].table == t && collections[t].columns == schema[t])
    }

    ghost predicate Shape()
      reads native`store
    {
      Wired() && native.Valid()
    }

    /** Cache agreement: whatever id the native side believes to be sent, JavaScript has the model for. */
    ghost predicate Agreement()
      reads native`cachedRecords, collections.Values
    {
      forall t, id {:trigger CacheKey(t, id)} ::
        t in collections && CacheKey(t, id) in native.cachedRecords ==> id in collections[t].records
    }

    /** The collection caches models of its own table, by their ids. */
    ghost predicate TableFits(t: string)
      requires t in collections
      reads collections[t], collections[t].records.Values
    {
      && collections[t].Valid()
      && forall id :: id in collections[t].records ==>
           && Fits(schema, collections[t].records[id].raw, collections[t].records[id], t)
           && collections[t].records[id].preparedState != PreparedCreate
    }

    ghost predicate Kept()
      reads *
    {
      forall t {:trigger TableFits(t)} :: t in collections ==> TableFits(t)
    }

    /** What every operation keeps, whether it succeeds or fails. */
    ghost predicate Agrees()
      reads *
    {
      Shape() && Agreement() && Kept()
    }

    /** The model of a stored row: unless a change of it is prepared, it is what that row loads as. */
    ghost predicate IsCurrent(m: Model, t: string, id: string)
      reads m, native`store
    {
      Current(schema, native.store, t, id, m.raw, m.preparedState)
    }

    /** The cached models that are out of step with their rows. The cache is transparent when there are none. */
    ghost function Stale(): set<Model>
      reads *
    {
      set t, id | t in collections && id in collections[t].records && !IsCurrent(collections[t].records[id], t, id)
        :: collections[t].records[id]
    }

    /** Agreement of a set of sent ids with a snapshot of the collections. */
    ghost predicate Knows(caches: map<string, map<string, Model>>, sent: set<string>) {
      caches.Keys == collections.Keys && AllCached(sent, caches)
    }

    ghost predicate CachesAre(caches: map<string, map<string, Model>>)
      reads collections.Values
    {
      caches.Keys == collections.Keys && forall t :: t in collections ==> collections[t].records == caches[t]
    }

    /** Opened on the rows that earlier launches left: nothing of them is sent or cached. */
    constructor (schema: Schema, rows: Store)
      requires ValidSchema(schema) && WellFormed(schema, rows)
      ensures Agrees() && Stale() == {} && this.schema == schema
      ensures fresh(native) && native.store == rows && native.cachedRecords == {}
      ensures forall t :: t in collections ==> fresh(collections[t]) && collections[t].records == map[]
    {
      var caches := NewCollections(schema);
      var database := new NativeDatabase(schema, rows);
      this.schema, native, collections := schema, database, caches;
    }

    static method NewCollections(schema: Schema) returns (caches: map<string, RecordCache>)
      ensures caches.Keys == schema.Keys
      ensures forall t :: t in caches ==>
                fresh(caches[t]) && caches[t].table == t && caches[t].columns == schema[t] && caches[t].records == map[]
    {
      caches := map[];
      var rest := schema.Keys;
      while rest != {}
        invariant caches.Keys == schema.Keys - rest && rest <= schema.Keys
        invariant forall t :: t in caches ==>
                    fresh(caches[t]) && caches[t].table == t && caches[t].columns == schema[t]
                      && caches[t].records == map[]
        decreases rest
      {
        var t :| t in rest;
        var cache := new RecordCache(t, schema[t]);
        caches := caches[t := cache];
        rest := rest - {t};
      }
    }

    // ---- Reading ----

    /** The adapter's `query`: the native result, decoded if it is compressed, and sanitized. */
    method QueryAdapter(t: string, selected: seq<string>, steps: nat, compressed: bool)
      returns (r: Result<seq<CachedResult>>)
      requires native.Valid() && native.columns == schema && native.Selects(t, selected)
      modifies native`cachedRecords
      ensures r.Ok? <==> |selected| <= steps
      ensures r.Ok? ==> r.value == CachedResults(schema[t], native.store[t], old(native.cachedRecords), t, selected)
      ensures native.cachedRecords ==
              old(native.cachedRecords) + CacheKeysOf(t, Take(selected, steps))
    {
      var records: seq<Sent>;
      if compressed {
        var sent := native.QueryAsArray(t, selected, steps);
        if sent.Thrown? {
          return Thrown;
        }
        records := Decode(t, selected, sent.value, old(native.cachedRecords));
      } else {
        var sent := native.Query(t, selected, steps);
        if sent.Thrown? {
          return Thrown;
        }
        records := sent.value;
      }
      var results := SanitizeQueryResult(t, records);
      r := Ok(results);
    }

    method Decode(t: string, selected: seq<string>, items: seq<Item>, ghost sent: set<string>)
      returns (records: seq<Sent>)
      requires native.Valid() && native.columns == schema && native.Selects(t, selected)
      requires |items| == if selected == [] then 0 else |selected| + 1
      requires items != [] ==> items[0] == ColumnNames(ResultColumns(schema[t]))
      requires forall i :: 0 <= i < |selected| ==>
                 items[i + 1] == ItemFor(schema[t], native.store[t], sent, t, selected, i)
      ensures |records| == |selected|
      ensures forall i :: 0 <= i < |selected| ==>
                records[i] == SentFor(schema[t], native.store[t], sent, t, selected, i)
    {
      forall i | 0 < i < |items|
        ensures !items[i].ColumnNames? && (items[i].Values? ==> |items[i].values| == |items[0].names|)
        ensures DecodedItem(items[0].names, items[i]) == SentFor(schema[t], native.store[t], sent, t, selected, i - 1)
      {
        assert items[i] == items[(i - 1) + 1];
        DecodedItemIsSent(schema[t], native.store[t], sent, t, selected, i - 1);
      }
      records := DecodeQueryResult(items);
    }

    method SanitizeQueryResult(t: string, records: seq<Sent>) returns (results: seq<CachedResult>)
      requires t in schema
      ensures |results| == |records|
      ensures forall i :: 0 <= i < |records| ==> results[i] == SanitizedSent(schema[t], records[i])
    {
      results := [];
      for i := 0 to |records|
        invariant |results| == i
        invariant forall j :: 0 <= j < i ==> results[j] == SanitizedSent(schema[t], records[j])
      {
        match records[i]
        case SentId(id) => results := results + [CachedId(id)];
        case SentRow(dirty) =>
          var raw := SanitizeRaw(dirty, schema[t], "");
          results := results + [CachedRaw(raw)];
      }
    }

    /** Raw records among the results are what the stored rows load as. */
    ghost predicate FromStore(t: string, results: seq<CachedResult>)
      requires t in schema
      reads native`store
    {
      t in native.store && forall id :: RawFor(results, id).Some? ==>
        id in native.store[t] && |native.store[t][id].columns| == |schema[t]|
        && RawFor(results, id).value == Loaded(schema[t], id, native.store[t][id])
    }

    lemma NewModelIsCurrent(m: Model, t: string, raw: RawRecord)
      requires Shape() && t in schema && raw.id in native.store[t]
      requires m.raw == raw && raw == Loaded(schema[t], raw.id, native.store[t][raw.id])
      requires m.table == t && m.columns == ColumnMap(schema[t]) && m.preparedState == Unprepared
      ensures Fits(schema, m.raw, m, t) && IsCurrent(m, t, m.raw.id)
    {
      SanitizedRawIsSanitized(LoadRow(schema[t], raw.id, native.store[t][raw.id]), schema[t], "");
    }

    /** The collection's half of a read: new models are added for what was sent as a row. */
    method ResolveResults(t: string, results: seq<CachedResult>) returns (r: Result<seq<Model>>)
      requires Shape() && Kept() && t in collections
      requires collections[t].Resolvable(results) && FromStore(t, results)
      modifies collections[t]
      ensures Kept() && r.Ok? && |r.value| == |results|
      ensures forall i :: 0 <= i < |results| ==>
                ResultId(results[i]) in collections[t].records
                  && r.value[i] == collections[t].records[ResultId(results[i])]
      ensures forall id :: id in old(collections[t].records) ==>
                id in collections[t].records && collections[t].records[id] == old(collections[t].records)[id]
      ensures forall id :: id in collections[t].records && id !in old(collections[t].records) ==>
                fresh(collections[t].records[id]) && collections[t].records[id].IsUntouched()
                && IsCurrent(collections[t].records[id], t, id)
      ensures collections[t].records.Keys == old(collections[t].records.Keys) + ResultIds(results)
      ensures forall u :: u in collections && u != t ==> collections[u].records == old(collections[u].records)
      ensures unchanged(native)
    {
      r := ResolveInTable(t, results);
      forall u | u in collections && u != t
        ensures TableFits(u) && collections[u].records == old(collections[u].records)
      {
        assert collections[u] != collections[t] && old(TableFits(u));
      }
    }

    method ResolveInTable(t: string, results: seq<CachedResult>) returns (r: Result<seq<Model>>)
      requires Shape() && t in collections && TableFits(t)
      requires collections[t].Resolvable(results) && FromStore(t, results)
      modifies collections[t]
      ensures TableFits(t) && r.Ok? && |r.value| == |results|
      ensures forall i :: 0 <= i < |results| ==>
                ResultId(results[i]) in collections[t].records
                  && r.value[i] == collections[t].records[ResultId(results[i])]
      ensures forall id :: id in old(collections[t].records) ==>
                id in collections[t].records && collections[t].records[id] == old(collections[t].records)[id]
      ensures forall id :: id in collections[t].records && id !in old(collections[t].records) ==>
                fresh(collections[t].records[id]) && collections[t].records[id].IsUntouched()
                && IsCurrent(collections[t].records[id], t, id)
      ensures collections[t].records.Keys == old(collections[t].records.Keys) + ResultIds(results)
      ensures unchanged(native)
    {
      var cache := collections[t];
      r := cache.RecordsFromQueryResult(results);
      forall id | id in cache.records && id !in old(cache.records)
        ensures Fits(schema, cache.records[id].raw, cache.records[id], t) && IsCurrent(cache.records[id], t, id)
        ensures cache.records[id].preparedState != PreparedCreate
      {
        NewModelIsCurrent(cache.records[id], t, cache.records[id].raw);
      }
    }

    /** `ResolveResults`, as far as models out of step go: it adds none. */
    method ResolveInStep(t: string, results: seq<CachedResult>) returns (r: Result<seq<Model>>)
      requires Shape() && Kept() && t in collections
      requires collections[t].Resolvable(results) && FromStore(t, results)
      modifies collections[t]
      ensures Kept() && Stale() <= old(Stale()) && r.Ok? && |r.value| == |results|
      ensures forall i :: 0 <= i < |results| ==>
                ResultId(results[i]) in collections[t].records
                  && r.value[i] == collections[t].records[ResultId(results[i])]
      ensures forall id :: id in old(collections[t].records) ==>
                id in collections[t].records && collections[t].records[id] == old(collections[t].records)[id]
      ensures forall id :: id in collections[t].records && id !in old(collections[t].records) ==>
                fresh(collections[t].records[id]) && collections[t].records[id].IsUntouched()
      ensures collections[t].records.Keys == old(collections[t].records.Keys) + ResultIds(results)
      ensures forall u :: u in collections && u != t ==> collections[u].records == old(collections[u].records)
      ensures unchanged(native)
    {
      r := ResolveResults(t, results);
      forall u, id | u in collections && id in collections[u].records && !IsCurrent(collections[u].records[id], u, id)
        ensures collections[u].records[id] in old(Stale())
      {
      }
    }

    /** `Query.fetch`; `steps` is how many rows the native side can step. When it does not throw, no id turns
        out not to be cached, and there is one model per row; one that is not out of step holds what an
        uncached select and `sanitizedRaw` would give for that row. When it throws after some rows, the two
        sides still agree if and only if JavaScript had those rows. */
    method FetchQuery(t: string, selected: seq<string>, steps: nat, compressed: bool) returns (r: Result<seq<Model>>)
      requires Agrees() && native.Selects(t, selected)
      modifies native`cachedRecords, collections[t]
      ensures r.Ok? <==> |selected| <= steps
      ensures r.Ok? ==> Agrees() && |r.value| == |selected|
      ensures r.Ok? ==> forall i :: 0 <= i < |selected| ==>
                selected[i] in collections[t].records && r.value[i] == collections[t].records[selected[i]]
      ensures forall id :: id in old(collections[t].records) ==>
                id in collections[t].records && collections[t].records[id] == old(collections[t].records)[id]
      ensures forall id :: id in collections[t].records && id !in old(collections[t].records) ==>
                fresh(collections[t].records[id]) && collections[t].records[id].IsUntouched()
      ensures Kept() && Stale() <= old(Stale())
      ensures r.Thrown? ==> collections[t].records == old(collections[t].records)
      ensures r.Thrown? ==> (Agrees() <==> forall id :: id in Take(selected, steps) ==> id in collections[t].records)
      ensures r.Ok? ==> collections[t].records.Keys == old(collections[t].records.Keys) + Elements(selected)
      ensures native.cachedRecords ==
              old(native.cachedRecords) + CacheKeysOf(t, Take(selected, steps))
      ensures unchanged(native`store)
      ensures forall u :: u in collections && u != t ==> collections[u].records == old(collections[u].records)
    {
      ghost var sent := native.cachedRecords;
      var queried := QueryAdapter(t, selected, steps, compressed);
      if queried.Thrown? {
        FailedAgreement(t, Take(selected, steps), sent);
        return Thrown;
      }
      ResultsAreResolvable(t, selected, sent, queried.value);
      r := ResolveInStep(t, queried.value);
      forall i | 0 <= i < |selected|
        ensures ResultId(queried.value[i]) == selected[i]
      {
        ResultAt(schema[t], native.store[t], sent, t, selected, i);
      }
      FetchedAgreement(t, selected, sent);
    }

    /** A model that is not out of step and has no prepared change holds its row. */
    lemma InStepIsLoaded(t: string, id: string)
      requires t in collections && id in collections[t].records && collections[t].records[id] !in Stale()
      ensures t in schema && t in native.store && id in native.store[t] && |native.store[t][id].columns| == |schema[t]|
      ensures collections[t].records[id].preparedState == Unprepared ==>
                collections[t].records[id].raw == Loaded(schema[t], id, native.store[t][id])
    {
    }

    lemma FailedAgreement(t: string, stepped: seq<string>, sent: set<string>)
      requires Shape() && Kept() && t in collections
      requires native.cachedRecords == sent + CacheKeysOf(t, stepped)
      requires forall u, id :: u in collections && CacheKey(u, id) in sent ==> id in collections[u].records
      ensures Agrees() <==> forall id :: id in stepped ==> id in collections[t].records
    {
      if forall id :: id in stepped ==> id in collections[t].records {
        FetchedAgreement(t, stepped, sent);
      } else {
        var id :| id in stepped && id !in collections[t].records;
        assert CacheKey(t, id) in native.cachedRecords;
      }
    }

    lemma ResultsAreResolvable(t: string, selected: seq<string>, sent: set<string>, results: seq<CachedResult>)
      requires Shape() && native.Selects(t, selected)
      requires forall id :: CacheKey(t, id) in sent ==> id in collections[t].records
      requires results == CachedResults(schema[t], native.store[t], sent, t, selected)
      ensures collections[t].Resolvable(results) && FromStore(t, results)
      ensures ResultIds(results) == Elements(selected)
    {
      var columns, rows := schema[t], native.store[t];
      ResultsNameSelected(columns, rows, sent, t, selected, "");
      forall id
        ensures RawFor(results, id).Some? ==> id in rows && RawFor(results, id).value == Loaded(columns, id, rows[id])
      {
        ResultsNameSelected(columns, rows, sent, t, selected, id);
      }
      forall i | 0 <= i < |results| && results[i].CachedId? && results[i].id !in collections[t].records
        ensures results[i].id in ResultIds(results[..i])
      {
        assert selected[i] in selected[..i];
        ResultsPrefix(columns, rows, sent, t, selected, i);
        ResultsNameSelected(columns, rows, sent, t, selected[..i], selected[i]);
      }
    }

    lemma FetchedAgreement(t: string, selected: seq<string>, sent: set<string>)
      requires Shape() && t in collections
      requires native.cachedRecords == sent + CacheKeysOf(t, selected)
      requires forall u, id :: u in collections && CacheKey(u, id) in sent ==> id in collections[u].records
      requires forall i :: 0 <= i < |selected| ==> selected[i] in collections[t].records
      ensures Agreement()
    {
      forall u, id | u in collections && CacheKey(u, id) in native.cachedRecords
        ensures id in collections[u].records
      {
        if CacheKey(u, id) !in sent {
          var i :| i in selected && CacheKey(t, i) == CacheKey(u, id);
          CacheKeyInjective(t, i, u, id);
        }
      }
    }

    /** `Collection._fetchRecord`: finds a record if and only if it is cached or the table has its row. */
    method FetchRecord(t: string, id: string) returns (r: Result<Model>)
      requires Agrees() && t in collections
      modifies native`cachedRecords, collections[t]
      ensures Agrees() && Stale() <= old(Stale())
      ensures r.Ok? <==> id in native.store[t] || id in old(collections[t].records)
      ensures r.Ok? ==> id in collections[t].records && r.value == collections[t].records[id]
      ensures r.Thrown? || id in old(collections[t].records) ==> unchanged(native) && unchanged(collections[t])
      ensures r.Ok? && id !in old(collections[t].records) ==>
                && fresh(r.value) && r.value.IsUntouched() && r.value.raw == Loaded(schema[t], id, native.store[t][id])
                && collections[t].records == old(collections[t].records)[id := r.value]
                && native.cachedRecords == old(native.cachedRecords) + {CacheKey(t, id)}
      ensures unchanged(native`store)
      ensures forall u :: u in collections && u != t ==> collections[u].records == old(collections[u].records)
    {
      var cache := collections[t];
      if id in cache.records {
        return Ok(cache.records[id]);
      }
      r := FetchUncached(t, id);
    }

    method FetchUncached(t: string, id: string) returns (r: Result<Model>)
      requires Agrees() && t in collections && id !in collections[t].records
      modifies native`cachedRecords, collections[t]
      ensures Agrees() && Stale() <= old(Stale())
      ensures r.Ok? <==> id in native.store[t]
      ensures r.Ok? ==> fresh(r.value) && r.value.IsUntouched()
      ensures r.Ok? ==> r.value.raw == Loaded(schema[t], id, native.store[t][id])
      ensures r.Ok? ==> collections[t].records == old(collections[t].records)[id := r.value]
      ensures r.Ok? ==> native.cachedRecords == old(native.cachedRecords) + {CacheKey(t, id)}
      ensures r.Thrown? ==> unchanged(native) && unchanged(collections[t])
      ensures unchanged(native`store)
      ensures forall u :: u in collections && u != t ==> collections[u].records == old(collections[u].records)
    {
      ghost var sent := native.cachedRecords;
      var found := FindAdapter(t, id);
      if found.None? {
        return Thrown;
      }
      var m := ResolveRaw(t, found.value);
      r := Ok(m);
      FoundAgreement(t, id, sent);
    }

    /** The adapter's `find`, for an id that was not sent. */
    method FindAdapter(t: string, id: string) returns (r: Option<RawRecord>)
      requires native.Valid() && native.columns == schema && t in native.store
               && CacheKey(t, id) !in native.cachedRecords
      modifies native`cachedRecords
      ensures r == if id in native.store[t] then Some(Loaded(schema[t], id, native.store[t][id])) else None
      ensures native.cachedRecords == old(native.cachedRecords) + if r.Some? then {CacheKey(t, id)} else {}
      ensures r.None? ==> unchanged(native)
      ensures unchanged(native`store)
    {
      var found := native.Find(t, id);
      if found.None? {
        return None;
      }
      var results := SanitizeQueryResult(t, [found.value]);
      r := Some(results[0].raw);
    }

    /** The collection's half of a read of one row: a new model, which is not out of step. */
    method ResolveRaw(t: string, raw: RawRecord) returns (m: Model)
      requires Shape() && Kept() && t in collections && raw.id in native.store[t] && raw.id !in collections[t].records
      requires raw == Loaded(schema[t], raw.id, native.store[t][raw.id])
      modifies collections[t]
      ensures Kept() && Stale() <= old(Stale())
      ensures fresh(m) && m.raw == raw && m.IsUntouched()
      ensures collections[t].records == old(collections[t].records)[raw.id := m]
      ensures unchanged(native)
      ensures forall u :: u in collections && u != t ==> collections[u].records == old(collections[u].records)
    {
      m := CacheRaw(t, raw);
      forall u, id | u in collections && id in collections[u].records && !IsCurrent(collections[u].records[id], u, id)
        ensures collections[u].records[id] in old(Stale())
      {
        assert u != t ==> collections[u].records == old(collections[u].records);
      }
    }

    method CacheRaw(t: string, raw: RawRecord) returns (m: Model)
      requires Shape() && Kept() && t in collections && raw.id in native.store[t] && raw.id !in collections[t].records
      requires raw == Loaded(schema[t], raw.id, native.store[t][raw.id])
      modifies collections[t]
      ensures Kept() && IsCurrent(m, t, raw.id)
      ensures fresh(m) && m.raw == raw && m.IsUntouched()
      ensures collections[t].records == old(collections[t].records)[raw.id := m]
      ensures unchanged(native)
      ensures forall u :: u in collections && u != t ==> collections[u].records == old(collections[u].records)
    {
      m := CacheInTable(t, raw);
      forall u | u in collections && u != t
        ensures TableFits(u) && collections[u].records == old(collections[u].records)
      {
        assert collections[u] != collections[t] && old(TableFits(u));
      }
    }

    method CacheInTable(t: string, raw: RawRecord) returns (m: Model)
      requires Shape() && t in collections && TableFits(t)
      requires raw.id in native.store[t] && raw.id !in collections[t].records
      requires raw == Loaded(schema[t], raw.id, native.store[t][raw.id])
      modifies collections[t]
      ensures TableFits(t) && IsCurrent(m, t, raw.id)
      ensures fresh(m) && m.raw == raw && m.IsUntouched()
      ensures collections[t].records == old(collections[t].records)[raw.id := m]
    {
      var r := collections[t].RecordFromQueryResult(CachedRaw(raw));
      m := r.value;
      NewModelIsCurrent(m, t, raw);
    }

    lemma FoundAgreement(t: string, id: string, sent: set<string>)
      requires Shape() && t in collections && id in collections[t].records
      requires native.cachedRecords == sent + {CacheKey(t, id)}
      requires forall u, i :: u in collections && CacheKey(u, i) in sent ==> i in collections[u].records
      ensures Agreement()
    {
      forall u, i | u in collections && CacheKey(u, i) in native.cachedRecords
        ensures i in collections[u].records
      {
        CacheKeyInjective(t, id, u, i);
      }
    }

    // ---- Snapshots ----

    ghost function CachedModels(): set<Model>
      reads collections.Values
    {
      set t, id | t in collections && id in collections[t].records :: collections[t].records[id]
    }

    /** The snapshot is of the caches and models as they are. */
    ghost predicate Shot(s: Snapshot)
      reads collections.Values, s.raws.Keys`raw, s.raws.Keys`preparedState
    {
      CachesAre(s.caches) && ModelsAre(s, {})
    }

    ghost predicate ModelsAre(s: Snapshot, touched: set<Model>)
      reads (s.raws.Keys - touched)`raw, (s.raws.Keys - touched)`preparedState
    {
      && s.raws.Keys == s.states.Keys
      && forall m :: m in s.raws && m !in touched ==> m.raw == s.raws[m] && m.preparedState == s.states[m]
    }

    ghost predicate IsModel(m: Model)
      reads m`raw
    {
      Fits(schema, m.raw, m, m.table)
    }

    /** A snapshot of every cached model and some others. */
    lemma TakeSnapshot(records: seq<Model>) returns (s: Snapshot)
      requires Agrees()
      ensures Shot(s) && Consistent(schema, s, native.store) && Knows(s.caches, native.cachedRecords)
      ensures s.stale == Stale() && s.raws.Keys == CachedModels() + set m | m in records
    {
      var caches: map<string, map<string, Model>> := map t | t in collections :: collections[t].records;
      var models: set<Model> := CachedModels() + set m | m in records;
      var raws: map<Model, RawRecord> := map m: Model | m in models :: m.raw;
      var states: map<Model, PreparedState> := map m: Model | m in models :: m.preparedState;
      s := Snapshot(caches, raws, states, Stale());
      SnapshotIsConsistent(s);
    }

    lemma SnapshotIsConsistent(s: Snapshot)
      requires Agrees() && Shot(s) && CachedModels() <= s.raws.Keys && s.stale == Stale()
      ensures Consistent(schema, s, native.store)
    {
      forall t, id | t in schema && id in s.caches[t]
        ensures s.InStep(schema, native.store, t, id)
      {
        assert TableFits(t) && s.caches[t][id] in CachedModels();
      }
    }

    lemma TableFromSnapshot(s: Snapshot, store: Store, t: string)
      requires Wired() && Shot(s) && Consistent(schema, s, store) && t in collections
      ensures TableFits(t)
    {
      forall id | id in collections[t].records
        ensures s.InStep(schema, store, t, id)
      {
      }
    }

    lemma StaleFromSnapshot(s: Snapshot)
      requires Wired() && Shot(s) && Consistent(schema, s, native.store)
      ensures Stale() <= s.stale
    {
      forall t, id | t in collections && id in collections[t].records && !IsCurrent(collections[t].records[id], t, id)
        ensures collections[t].records[id] in s.stale
      {
        assert s.InStep(schema, native.store, t, id);
      }
    }

    /** What is consistent as a snapshot agrees. */
    lemma FromSnapshot(s: Snapshot)
      requires Wired() && Agreement() && Shot(s) && Consistent(schema, s, native.store)
      ensures Agrees() && Stale() <= s.stale
    {
      forall t | t in collections
        ensures TableFits(t)
      {
        TableFromSnapshot(s, native.store, t);
      }
      StaleFromSnapshot(s);
    }

    // ---- Batches ----

    /** `_applyChangesToCache` */
    method ApplyChangesToCache(t: string, changeSet: seq<Entry<Model>>)
      requires t in collections
      requires forall j :: 0 <= j < |changeSet| ==>
                 changeSet[j].op.table == t && OperationId(changeSet[j].op) == changeSet[j].record.raw.id
      modifies collections[t], (set e | e in changeSet && e.op.Create? :: e.record)`preparedState
      ensures forall e :: e in changeSet && e.op.Create? ==> e.record.preparedState == Unprepared
      ensures collections[t].records == Changes(old(collections[t].records), changeSet, t)
    {
      var cache := collections[t];
      for i := 0 to |changeSet|
        invariant Changes(cache.records, changeSet[i..], t) == Changes(old(cache.records), changeSet, t)
        invariant forall j :: 0 <= j < i && changeSet[j].op.Create? ==> changeSet[j].record.preparedState == Unprepared
      {
        var e := changeSet[i];
        assert changeSet[i..] == [e] + changeSet[i + 1..];
        if e.op.Create? {
          e.record.preparedState := Unprepared;
          cache.Add(e.record);
        } else if IsDestroy(e.op) {
          cache.Delete(e.record);
        }
      }
      assert changeSet[|changeSet|..] == [];
    }

    ghost predicate Handed(entries: seq<Entry<Model>>)
      reads (set e | e in entries :: e.record)`raw
    {
      forall j :: 0 <= j < |entries| ==>
        entries[j].op.table in collections && OperationId(entries[j].op) == entries[j].record.raw.id
    }

    /** The collections of the tables not in `rest` have had their changes, and their new records are no
        longer prepared. */
    ghost predicate AppliedExcept(caches: map<string, map<string, Model>>, entries: seq<Entry<Model>>,
                                  rest: set<string>)
      reads collections.Values, (set e | e in entries :: e.record)`preparedState
    {
      && caches.Keys == collections.Keys
      && (forall t :: t in collections ==>
            collections[t].records == if t in rest then caches[t] else Changes(caches[t], entries, t))
      && (forall j :: 0 <= j < |entries| && entries[j].op.Create? && entries[j].op.table !in rest ==>
            entries[j].record.preparedState == Unprepared)
    }

    lemma NothingApplied(caches: map<string, map<string, Model>>, changes: map<string, seq<Entry<Model>>>,
                         entries: seq<Entry<Model>>)
      requires GroupedByTable(entries, changes) && Handed(entries) && CachesAre(caches)
      ensures AppliedExcept(caches, entries, changes.Keys) && changes.Keys <= collections.Keys
    {
      TablesOfChanges(entries, changes, collections.Keys);
      forall t | t in collections && t !in changes
        ensures Changes(caches[t], entries, t) == caches[t]
      {
        assert TableGroup(entries, changes, t);
        ForTableSuffices(caches[t], entries, t);
      }
    }

    /** The change set of one table, in terms of the whole batch. */
    method ApplyForTable(t: string, changes: map<string, seq<Entry<Model>>>,
                         ghost caches: map<string, map<string, Model>>,
                         ghost entries: seq<Entry<Model>>, ghost created: set<Model>, ghost rest: set<string>)
      requires GroupedByTable(entries, changes) && t in changes && t in rest && t in collections && Wired()
      requires Handed(entries) && created == ToCreate(entries) && AppliedExcept(caches, entries, rest)
      modifies collections[t], created`preparedState
      ensures AppliedExcept(caches, entries, rest - {t})
    {
      assert TableGroup(entries, changes, t);
      ForTableSuffices(collections[t].records, entries, t);
      ApplyChangesToCache(t, changes[t]);
      InForTable(entries, t);
    }

    /** The second loop of `_performBatch`: each table's change set goes to its collection. */
    method ApplyChanges(changes: map<string, seq<Entry<Model>>>, ghost caches: map<string, map<string, Model>>,
                        ghost entries: seq<Entry<Model>>, ghost created: set<Model>)
      requires GroupedByTable(entries, changes) && Wired() && Handed(entries)
      requires CachesAre(caches) && created == ToCreate(entries)
      modifies collections.Values, created`preparedState
      ensures AppliedExcept(caches, entries, {})
    {
      NothingApplied(caches, changes, entries);
      var rest := changes.Keys;
      while rest != {}
        invariant rest <= changes.Keys && AppliedExcept(caches, entries, rest)
        decreases rest
      {
        var t :| t in rest;
        ApplyForTable(t, changes, caches, entries, created, rest);
        rest := rest - {t};
      }
    }

    /** Every record has a prepared change, and one to update or destroy is not submitted twice. */
    ghost predicate Submittable(records: seq<Model>)
      reads (set m | m in records)`preparedState
    {
      && (forall i :: 0 <= i < |records| ==> records[i].preparedState != Unprepared)
      && (forall i, j :: 0 <= i < j < |records| && records[i] == records[j] ==>
          records[i].preparedState == PreparedCreate)
    }

    /** The submitted records with the operations that they become. */
    ghost function EntriesOf(records: seq<Model>): seq<Entry<Model>>
      reads set m | m in records
    {
      seq(|records|, i requires 0 <= i < |records| reads set m | m in records =>
        Entry(records[i], OperationFor(records[i].table, records[i].raw, records[i].preparedState)))
    }

    lemma SnapshotPlans(s: Snapshot, records: seq<Model>)
      requires ModelsAre(s, {}) && forall m :: m in records ==> m in s.raws && IsModel(m)
      ensures Submitted(schema, s, records)
      ensures EntriesOf(records) == Planned(s, records) && (Submittable(records) <==> AllPrepared(s, records))
    {
    }

    lemma BatchIsDone(s: Snapshot, records: seq<Model>)
      requires Covers(s, records) && Shot(Committed(s, records))
      ensures forall t :: t in collections ==>
                t in s.caches && collections[t].records == Changes(s.caches[t], Planned(s, records), t)
      ensures forall m :: m in records ==> m.preparedState == Unprepared
      ensures forall m :: m in Displaced(s, records) ==> IsDisplaced(Planned(s, records), m.table, m.raw.id, m)
    {
    }

    /** After some records were taken up by the first loop of `_performBatch`. */
    ghost predicate Taken(s: Snapshot, records: seq<Model>)
      reads s.raws.Keys`raw, s.raws.Keys`preparedState
    {
      && s.raws.Keys == s.states.Keys && (forall m :: m in s.raws ==> m.raw == s.raws[m])
      && forall m :: m in s.raws ==>
           m.preparedState == if m in records && s.states[m] != PreparedCreate then Unprepared else s.states[m]
    }

    /** The first loop of `_performBatch`: one operation per record, and the change set of each table. */
    method CollectOperations(records: seq<Model>, ghost s: Snapshot)
      returns (ok: bool, operations: seq<Operation>, changes: map<string, seq<Entry<Model>>>, ghost taken: seq<Model>)
      requires Covers(s, records) && ModelsAre(s, {})
      modifies (set m | m in records)`preparedState
      ensures ok <==> AllPrepared(s, records)
      ensures taken == TakenUp(s, records) && Taken(s, taken)
      ensures ok ==> Gathered(s, records, operations, changes)
    {
      ok, operations, changes, taken := true, [], map[], [];
      for i := 0 to |records|
        invariant taken == records[..i] && Taken(s, taken) && Gathered(s, taken, operations, changes)
      {
        var record := records[i];
        assert records[..i + 1] == records[..i] + [record];
        if record.preparedState == Unprepared {
          NotAllPrepared(s, records[..i + 1], i);
          TakenUpTo(s, records, i);
          ok := false;
          return;
        }
        var op := OperationFor(record.table, record.raw, record.preparedState);
        GatherNext(s, taken, record, operations, changes);
        operations := operations + [op];
        changes := changes[op.table := (if op.table in changes then changes[op.table] else []) + [Entry(record, op)]];
        taken := taken + [record];
        if record.preparedState != PreparedCreate {
          record.preparedState := Unprepared;
        }
      }
      assert records[..|records|] == records;
    }

    predicate TablesKnown(operations: seq<Operation>) {
      forall j :: 0 <= j < |operations| ==> operations[j].table in schema
    }

    /** The adapter's `batch`: the operations are grouped, encoded and run in one transaction. They arrive
        as objects or as JSON. */
    method BatchAdapter(operations: seq<Operation>, json: bool, commits: bool) returns (ok: bool)
      requires TablesKnown(operations)
      modifies native`store, native`cachedRecords
      ensures ok <==> commits && ApplyAll(schema, old(native.store), operations).Ok?
      ensures ok ==> ApplyAll(schema, old(native.store), operations) == Ok(native.store)
      ensures ok ==> native.cachedRecords ==
                     old(native.cachedRecords) + OperationKeys(operations, ADD_TO_CACHE)
                     - OperationKeys(operations, REMOVE_FROM_CACHE)
      ensures !ok ==> native.store == old(native.store) && native.cachedRecords == old(native.cachedRecords)
    {
      var groups: seq<seq<Operation>> := GroupOperations(operations);
      forall i | 0 <= i < |groups|
        ensures Group(groups[i]) && groups[i][0].table in schema
      {
        InConcat(groups, i);
        assert groups[i][0] in operations;
      }
      EncodedBatchMeansIt(schema, native.store, groups);
      EncodedKeys(schema, groups, ADD_TO_CACHE);
      EncodedKeys(schema, groups, REMOVE_FROM_CACHE);
      EncodedKeysAreText(schema, groups);
      if json {
        ok := native.BatchJson(EncodeGroups(schema, groups), commits);
      } else {
        ok := native.Batch(EncodeGroups(schema, groups), commits);
      }
    }

    /** The native half. */
    method BatchHalf(operations: seq<Operation>, json: bool, commits: bool, ghost s: Snapshot,
                     ghost records: seq<Model>)
      returns (ok: bool)
      requires TablesKnown(operations) && Taken(s, records) && CachesAre(s.caches)
      modifies native`store, native`cachedRecords
      ensures ok <==> commits && ApplyAll(schema, old(native.store), operations).Ok?
      ensures ok ==> ApplyAll(schema, old(native.store), operations) == Ok(native.store)
      ensures ok ==> native.cachedRecords ==
                     old(native.cachedRecords) + OperationKeys(operations, ADD_TO_CACHE)
                     - OperationKeys(operations, REMOVE_FROM_CACHE)
      ensures !ok ==> native.store == old(native.store) && native.cachedRecords == old(native.cachedRecords)
      ensures Taken(s, records) && CachesAre(s.caches)
    {
      ok := BatchAdapter(operations, json, commits);
    }

    lemma SubmittedIsHanded(s: Snapshot, records: seq<Model>)
      requires Wired() && Submitted(schema, s, records) && Taken(s, records)
      ensures Handed(Planned(s, records)) && TablesKnown(Operations(Planned(s, records)))
      ensures forall m :: m in ToCreate(Planned(s, records)) <==> m in records && s.states[m] == PreparedCreate
    {
      var entries := Planned(s, records);
      forall m | m in records && s.states[m] == PreparedCreate
        ensures m in ToCreate(entries)
      {
        var j :| 0 <= j < |records| && records[j] == m;
        assert entries[j] in entries && entries[j].op.Create? && entries[j].record == m;
      }
    }

    lemma AllApplied(caches: map<string, map<string, Model>>, entries: seq<Entry<Model>>)
      requires AppliedExcept(caches, entries, {})
      ensures forall m :: m in ToCreate(entries) ==> m.preparedState == Unprepared
    {
    }

    /** The JavaScript half. */
    method ApplyHalf(changes: map<string, seq<Entry<Model>>>,
                     ghost s: Snapshot, ghost records: seq<Model>, ghost created: set<Model>)
      requires Wired() && s.caches.Keys == schema.Keys && Submitted(schema, s, records) && Taken(s, records)
      requires GroupedByTable(Planned(s, records), changes) && created == ToCreate(Planned(s, records))
      requires CachesAre(s.caches)
      modifies collections.Values, created`preparedState
      ensures Shot(Committed(s, records))
    {
      SubmittedIsHanded(s, records);
      ApplyChanges(changes, s.caches, Planned(s, records), created);
      AllApplied(s.caches, Planned(s, records));
    }

    lemma AgreementAfterBatch(entries: seq<Entry<Model>>, caches: map<string, map<string, Model>>, sent: set<string>)
      requires Shape() && Knows(caches, sent)
      requires forall t :: t in collections ==> collections[t].records == Changes(caches[t], entries, t)
      requires forall j :: 0 <= j < |entries| ==> entries[j].op.table in schema
      requires native.cachedRecords == sent + OperationKeys(Operations(entries), ADD_TO_CACHE)
                                       - OperationKeys(Operations(entries), REMOVE_FROM_CACHE)
      ensures Agreement()
    {
      forall t, id | t in collections && CacheKey(t, id) in native.cachedRecords
        ensures id in collections[t].records
      {
        BatchKeys(Operations(entries), t, id);
        UndestroyedStays(caches[t], entries, t, id);
      }
    }

    lemma AfterBatch(s: Snapshot, store: Store, sent: set<string>, records: seq<Model>)
      requires Wired() && Consistent(schema, s, store) && Submitted(schema, s, records) && AllPrepared(s, records)
      requires ApplyAll(schema, store, Operations(Planned(s, records))) == Ok(native.store)
      requires native.cachedRecords == sent + OperationKeys(Operations(Planned(s, records)), ADD_TO_CACHE)
                                       - OperationKeys(Operations(Planned(s, records)), REMOVE_FROM_CACHE)
      requires Knows(s.caches, sent) && Shot(Committed(s, records))
      ensures Agrees() && Stale() <= s.stale + Displaced(s, records)
    {
      BatchKeepsConsistent(schema, s, store, records);
      AgreementAfterBatch(Planned(s, records), s.caches, sent);
      FromSnapshot(Committed(s, records));
    }

    /** The native half, then the JavaScript half. */
    method Commit(operations: seq<Operation>, changes: map<string, seq<Entry<Model>>>, json: bool, commits: bool,
                  ghost s: Snapshot, ghost records: seq<Model>, ghost created: set<Model>) returns (ok: bool)
      requires Wired() && Consistent(schema, s, native.store) && Submitted(schema, s, records) && Taken(s, records)
      requires Gathered(s, records, operations, changes) && created == ToCreate(Planned(s, records))
      requires CachesAre(s.caches) && Knows(s.caches, native.cachedRecords)
      modifies native`store, native`cachedRecords, collections.Values, created`preparedState
      ensures ok <==> commits && ApplyAll(schema, old(native.store), operations).Ok?
      ensures ok ==> Agrees() && Stale() <= s.stale + Displaced(s, records)
      ensures ok ==> ApplyAll(schema, old(native.store), operations) == Ok(native.store)
      ensures ok ==> Shot(Committed(s, records))
      ensures !ok ==> native.store == old(native.store) && native.cachedRecords == old(native.cachedRecords)
      ensures !ok ==> CachesAre(s.caches) && Taken(s, records)
      ensures ok ==> native.cachedRecords ==
                     old(native.cachedRecords) + OperationKeys(operations, ADD_TO_CACHE)
                     - OperationKeys(operations, REMOVE_FROM_CACHE)
    {
      ghost var store, sent := native.store, native.cachedRecords;
      SubmittedIsHanded(s, records);
      ok := BatchHalf(operations, json, commits, s, records);
      if ok {
        ApplyHalf(changes, s, records, created);
        AfterBatch(s, store, sent, records);
      }
    }

    /** A batch that fails leaves the rows and both caches alone, but the records that it took up have lost
        their prepared changes: those may be out of step from now on. */
    lemma AfterFailedBatch(s: Snapshot, taken: seq<Model>, records: seq<Model>)
      requires Wired() && Knows(s.caches, native.cachedRecords) && Consistent(schema, s, native.store)
      requires CachesAre(s.caches) && Taken(s, taken) && taken <= records
      ensures Agrees() && Stale() <= s.stale + set m | m in records
    {
      var states: map<Model, PreparedState> := map m: Model | m in s.raws :: m.preparedState;
      var next := Snapshot(s.caches, s.raws, states, s.stale + set m | m in taken);
      ChangedKeepsConsistent(schema, s, next, native.store);
      FromSnapshot(next);
    }

    /** The records that the first loop of `_performBatch` takes up: all, or those before the first one without
        a prepared change. */
    ghost function TakenRecords(records: seq<Model>): (taken: seq<Model>)
      reads (set m | m in records)`preparedState
      ensures taken <= records
    {
      if Submittable(records) then records else TakenRecords(records[..|records| - 1])
    }

    lemma {:induction false} SnapshotTakes(s: Snapshot, records: seq<Model>)
      requires ModelsAre(s, {}) && forall m :: m in records ==> m in s.raws && IsModel(m)
      ensures Covers(s, records) && TakenRecords(records) == TakenUp(s, records)
    {
      SnapshotPlans(s, records);
      if AllPrepared(s, records) {
      } else {
        SnapshotTakes(s, records[..|records| - 1]);
      }
    }

    /** The model's raw record is what its row loads as. */
    ghost predicate HoldsRow(m: Model)
      reads m`raw, native`store
    {
      Current(schema, native.store, m.table, m.raw.id, m.raw, Unprepared)
    }

    lemma StaleIff(m: Model)
      requires Kept() && IsCached(m)
      ensures m in Stale() <==> !IsCurrent(m, m.table, m.raw.id)
    {
      if m in Stale() {
        var t, id :| t in collections && id in collections[t].records && !IsCurrent(collections[t].records[id], t, id)
                     && collections[t].records[id] == m;
        assert TableFits(t);
      }
    }

    /** Exactly which models are out of step after a batch. */
    lemma StaleAfterBatch(s: Snapshot, store: Store, records: seq<Model>, m: Model)
      requires Agrees() && Consistent(schema, s, store) && Submitted(schema, s, records) && AllPrepared(s, records)
      requires ApplyAll(schema, store, Operations(Planned(s, records))) == Ok(native.store)
      requires Shot(Committed(s, records)) && IsCached(m) && m !in s.stale
      ensures m in Stale() <==> m.preparedState == Unprepared && Overwritten(Planned(s, records), m.table, m.raw)
    {
      StaleIff(m);
      StepAfterBatch(schema, s, store, records, m.table, m.raw.id);
    }

    /** Exactly which models are out of step after a batch that failed. */
    lemma StaleAfterFailure(s: Snapshot, taken: seq<Model>, m: Model)
      requires Agrees() && Consistent(schema, s, native.store) && CachesAre(s.caches) && Taken(s, taken)
      requires IsCached(m) && m !in s.stale
      ensures m in Stale() <==> m in taken && !HoldsRow(m)
    {
      StaleIff(m);
      assert s.InStep(schema, native.store, m.table, m.raw.id);
    }

    // What a batch that succeeded comes to, record by record.

    ghost function AsSide(): Side<Model>
      reads native`store, native`cachedRecords, collections.Values
    {
      var caches: map<string, map<string, Model>> := map t | t in collections :: collections[t].records;
      Side(native.store, native.cachedRecords, caches)
    }

    ghost function SubmissionsOf(records: seq<Model>): seq<Submission>
      reads set m | m in records
    {
      seq(|records|, i requires 0 <= i < |records| reads set m | m in records =>
        Submission(records[i].table, records[i].raw, records[i].preparedState))
    }

    ghost predicate AreSubmitted(records: seq<Model>, xs: seq<Submission>)
      reads (set m | m in records)`raw
    {
      && |records| == |xs|
      && forall i :: 0 <= i < |records| ==>
           IsModel(records[i]) && xs[i].table == records[i].table && xs[i].raw == records[i].raw
    }

    lemma AfterSubmission(before: Side<Model>, records: seq<Model>, xs: seq<Submission>, entries: seq<Entry<Model>>)
      requires Shape() && AreSubmitted(records, xs) && IsPrepared(xs) && entries == EntriesFor(records, xs)
      requires before.store.Keys == before.caches.Keys == schema.Keys
      requires ApplyAll(schema, before.store, Operations(entries)) == Ok(native.store)
      requires native.cachedRecords == before.sent + OperationKeys(Operations(entries), ADD_TO_CACHE)
                                       - OperationKeys(Operations(entries), REMOVE_FROM_CACHE)
      requires forall t :: t in collections ==> collections[t].records == Changes(before.caches[t], entries, t)
      ensures IsDone(schema, before, AsSide(), records, xs)
      ensures AllCarriedOut(schema, AsSide(), records, xs)
    {
      SubmittedOperations(records, xs, "", "");
      SubmissionsAreDone(schema, before, AsSide(), records, xs);
      forall i | IsLast(xs, i)
        ensures IsCarriedOut(schema, AsSide(), xs[i], records[i])
      {
        LastIsCarriedOut(schema, before, AsSide(), records, xs, i);
      }
    }

    /** `_performBatch` with the native half and `_applyChangesToCache` as one step; `commits` tells whether
        SQLite commits. It succeeds if and only if every change is prepared and the statements succeed. Then
        the rows are what the operations mean, each table's models are changed as the operations say, and a
        model gets out of step if and only if it is left without a prepared change while its record was last
        written with other values, which takes an update through another instance. When it fails, the
        records that it took up have lost their prepared changes, and those get out of step that do not
        hold what their rows load as. Whether it succeeds or not, both halves of the cache agree, whatever
        the order of creates, updates and destroys. */
    method PerformBatch(records: seq<Model>, json: bool, commits: bool) returns (ok: bool)
      requires Agrees() && forall m :: m in records ==> IsModel(m)
      modifies native`store, native`cachedRecords, collections.Values, (set m | m in records)`preparedState
      ensures Agrees()
      ensures ok <==> commits && old(Submittable(records))
                      && ApplyAll(schema, old(native.store), Operations(old(EntriesOf(records)))).Ok?
      ensures ok <==> commits && old(Submittable(records) && CreatesAreNew(native.store, SubmissionsOf(records)))
      ensures ok ==> IsDone(schema, old(AsSide()), AsSide(), records, old(SubmissionsOf(records)))
      ensures ok ==> AllCarriedOut(schema, AsSide(), records, old(SubmissionsOf(records)))
      ensures ok ==> ApplyAll(schema, old(native.store), Operations(old(EntriesOf(records)))) == Ok(native.store)
      ensures ok ==> native.cachedRecords ==
                     old(native.cachedRecords) + OperationKeys(Operations(old(EntriesOf(records))), ADD_TO_CACHE)
                     - OperationKeys(Operations(old(EntriesOf(records))), REMOVE_FROM_CACHE)
      ensures ok ==> forall t :: t in collections ==>
                       collections[t].records == Changes(old(collections[t].records), old(EntriesOf(records)), t)
      ensures ok ==> forall m :: m in records ==> m.preparedState == Unprepared
      ensures ok ==> forall m :: m in Stale() && m !in old(Stale()) ==>
                       IsDisplaced(old(EntriesOf(records)), m.table, m.raw.id, m)
      ensures ok ==> forall m :: IsCached(m) && m !in old(Stale()) ==>
                       (m in Stale() <==>
                        m.preparedState == Unprepared && Overwritten(old(EntriesOf(records)), m.table, m.raw))
      ensures !ok ==> native.store == old(native.store) && native.cachedRecords == old(native.cachedRecords)
      ensures !ok ==> forall t :: t in collections ==> collections[t].records == old(collections[t].records)
      ensures !ok ==> forall m :: m in records ==>
                        m.preparedState == if m in old(TakenRecords(records)) && old(m.preparedState) != PreparedCreate
                                           then Unprepared else old(m.preparedState)
      ensures !ok ==> forall m :: IsCached(m) && m !in old(Stale()) ==>
                        (m in Stale() <==> m in old(TakenRecords(records)) && !HoldsRow(m))
      ensures !ok ==> Stale() <= old(Stale()) + set m | m in records
    {
      ghost var before, xs, entries := AsSide(), SubmissionsOf(records), EntriesOf(records);
      SubmittedBefore(records, xs);
      ok := PerformPlanned(records, json, commits);
      if ok {
        AfterSubmission(before, records, xs, entries);
      }
    }

    /** The same in terms of the operations that the records become. */
    method PerformPlanned(records: seq<Model>, json: bool, commits: bool) returns (ok: bool)
      requires Agrees() && forall m :: m in records ==> IsModel(m)
      modifies native`store, native`cachedRecords, collections.Values, (set m | m in records)`preparedState
      ensures Agrees()
      ensures ok <==> commits && old(Submittable(records))
                      && ApplyAll(schema, old(native.store), Operations(old(EntriesOf(records)))).Ok?
      ensures ok ==> ApplyAll(schema, old(native.store), Operations(old(EntriesOf(records)))) == Ok(native.store)
      ensures ok ==> native.cachedRecords ==
                     old(native.cachedRecords) + OperationKeys(Operations(old(EntriesOf(records))), ADD_TO_CACHE)
                     - OperationKeys(Operations(old(EntriesOf(records))), REMOVE_FROM_CACHE)
      ensures ok ==> forall t :: t in collections ==>
                       collections[t].records == Changes(old(collections[t].records), old(EntriesOf(records)), t)
      ensures ok ==> forall m :: m in records ==> m.preparedState == Unprepared
      ensures ok ==> forall m :: m in Stale() && m !in old(Stale()) ==>
                       IsDisplaced(old(EntriesOf(records)), m.table, m.raw.id, m)
      ensures ok ==> forall m :: IsCached(m) && m !in old(Stale()) ==>
                       (m in Stale() <==>
                        m.preparedState == Unprepared && Overwritten(old(EntriesOf(records)), m.table, m.raw))
      ensures !ok ==> native.store == old(native.store) && native.cachedRecords == old(native.cachedRecords)
      ensures !ok ==> forall t :: t in collections ==> collections[t].records == old(collections[t].records)
      ensures !ok ==> forall m :: m in records ==>
                        m.preparedState == if m in old(TakenRecords(records)) && old(m.preparedState) != PreparedCreate
                                           then Unprepared else old(m.preparedState)
      ensures !ok ==> forall m :: IsCached(m) && m !in old(Stale()) ==>
                        (m in Stale() <==> m in old(TakenRecords(records)) && !HoldsRow(m))
      ensures !ok ==> Stale() <= old(Stale()) + set m | m in records
    {
      ghost var s := TakenBefore(records);
      ghost var store := native.store;
      ok := RunBatch(records, json, commits, s);
      if ok {
        AfterCommit(s, store, records);
      } else {
        AfterFailure(s, records);
      }
    }

    lemma TakenBefore(records: seq<Model>) returns (s: Snapshot)
      requires Agrees() && forall m :: m in records ==> IsModel(m)
      ensures Shot(s) && Consistent(schema, s, native.store) && Knows(s.caches, native.cachedRecords)
      ensures Submitted(schema, s, records) && s.stale == Stale()
      ensures EntriesOf(records) == Planned(s, records) && (Submittable(records) <==> AllPrepared(s, records))
      ensures TakenRecords(records) == TakenUp(s, records)
    {
      s := TakeSnapshot(records);
      SnapshotPlans(s, records);
      SnapshotTakes(s, records);
    }

    /** The same in terms of the records handed in. */
    lemma SubmittedBefore(records: seq<Model>, xs: seq<Submission>)
      requires Shape() && (forall m :: m in records ==> IsModel(m)) && xs == SubmissionsOf(records)
      ensures AreSubmitted(records, xs) && EntriesOf(records) == EntriesFor(records, xs)
      ensures Submittable(records) ==>
                IsPrepared(xs)
                && (ApplyAll(schema, native.store, Operations(EntriesOf(records))).Ok?
                    <==> CreatesAreNew(native.store, xs))
    {
      assert forall i :: 0 <= i < |records| ==> records[i] in records && xs[i].table == records[i].table;
      if Submittable(records) {
        SubmittedOperations(records, xs, "", "");
        GoesThroughIff(schema, native.store, xs);
      }
    }

    lemma AfterCommit(s: Snapshot, store: Store, records: seq<Model>)
      requires Agrees() && Consistent(schema, s, store) && Submitted(schema, s, records) && AllPrepared(s, records)
      requires ApplyAll(schema, store, Operations(Planned(s, records))) == Ok(native.store)
      requires Shot(Committed(s, records))
      ensures forall t :: t in collections ==>
                t in s.caches && collections[t].records == Changes(s.caches[t], Planned(s, records), t)
      ensures forall m :: m in records ==> m.preparedState == Unprepared
      ensures forall m :: m in Displaced(s, records) ==> IsDisplaced(Planned(s, records), m.table, m.raw.id, m)
      ensures forall m :: IsCached(m) && m !in s.stale ==>
                (m in Stale() <==> m.preparedState == Unprepared && Overwritten(Planned(s, records), m.table, m.raw))
    {
      BatchIsDone(s, records);
      forall m | IsCached(m) && m !in s.stale
        ensures m in Stale() <==> m.preparedState == Unprepared && Overwritten(Planned(s, records), m.table, m.raw)
      {
        StaleAfterBatch(s, store, records, m);
      }
    }

    lemma AfterFailure(s: Snapshot, records: seq<Model>)
      requires Agrees() && Consistent(schema, s, native.store) && Submitted(schema, s, records) && CachesAre(s.caches)
      requires Taken(s, TakenUp(s, records))
      ensures forall m :: m in records ==>
                m in s.states
                && m.preparedState == if m in TakenUp(s, records) && s.states[m] != PreparedCreate
                                      then Unprepared else s.states[m]
      ensures forall m :: IsCached(m) && m !in s.stale ==>
                (m in Stale() <==> m in TakenUp(s, records) && !HoldsRow(m))
    {
      forall m | IsCached(m) && m !in s.stale
        ensures m in Stale() <==> m in TakenUp(s, records) && !HoldsRow(m)
      {
        StaleAfterFailure(s, TakenUp(s, records), m);
      }
    }

    /** The same in terms of a snapshot. */
    method RunBatch(records: seq<Model>, json: bool, commits: bool, ghost s: Snapshot) returns (ok: bool)
      requires Wired() && Shot(s) && Consistent(schema, s, native.store) && Knows(s.caches, native.cachedRecords)
      requires Submitted(schema, s, records)
      modifies native`store, native`cachedRecords, collections.Values, (set m | m in records)`preparedState
      ensures Agrees()
      ensures ok <==> commits && AllPrepared(s, records)
                      && ApplyAll(schema, old(native.store), Operations(Planned(s, records))).Ok?
      ensures ok ==> ApplyAll(schema, old(native.store), Operations(Planned(s, records))) == Ok(native.store)
      ensures ok ==> Shot(Committed(s, records)) && Stale() <= s.stale + Displaced(s, records)
      ensures !ok ==> native.store == old(native.store) && native.cachedRecords == old(native.cachedRecords)
      ensures !ok ==> CachesAre(s.caches) && Stale() <= s.stale + set m | m in records
      ensures !ok ==> Taken(s, TakenUp(s, records))
      ensures ok ==> native.cachedRecords ==
                     old(native.cachedRecords) + OperationKeys(Operations(Planned(s, records)), ADD_TO_CACHE)
                     - OperationKeys(Operations(Planned(s, records)), REMOVE_FROM_CACHE)
    {
      var operations: seq<Operation>, changes: map<string, seq<Entry<Model>>>;
      ok, operations, changes := CollectOrNot(records, s);
      if ok {
        ok := CommitOrNot(operations, changes, json, commits, s, records, ToCreate(Planned(s, records)));
      }
    }

    method CollectOrNot(records: seq<Model>, ghost s: Snapshot)
      returns (ok: bool, operations: seq<Operation>, changes: map<string, seq<Entry<Model>>>)
      requires Wired() && CachesAre(s.caches) && ModelsAre(s, {}) && Knows(s.caches, native.cachedRecords)
      requires Consistent(schema, s, native.store) && Submitted(schema, s, records)
      modifies (set m | m in records)`preparedState
      ensures native.store == old(native.store) && native.cachedRecords == old(native.cachedRecords)
      ensures CachesAre(s.caches) && (ok <==> AllPrepared(s, records))
      ensures ok ==> Taken(s, records) && Gathered(s, records, operations, changes)
      ensures !ok ==> Agrees() && Stale() <= s.stale + set m | m in records
      ensures !ok ==> Taken(s, TakenUp(s, records))
    {
      ghost var taken: seq<Model>;
      ok, operations, changes, taken := CollectOperations(records, s);
      if !ok {
        AfterFailedBatch(s, taken, records);
      }
    }

    method CommitOrNot(operations: seq<Operation>, changes: map<string, seq<Entry<Model>>>, json: bool, commits: bool,
                       ghost s: Snapshot, ghost records: seq<Model>, ghost created: set<Model>) returns (ok: bool)
      requires Wired() && Consistent(schema, s, native.store) && Submitted(schema, s, records) && Taken(s, records)
      requires Gathered(s, records, operations, changes) && created == ToCreate(Planned(s, records))
      requires CachesAre(s.caches) && Knows(s.caches, native.cachedRecords)
      modifies native`store, native`cachedRecords, collections.Values, created`preparedState
      ensures Agrees() && (ok <==> commits && ApplyAll(schema, old(native.store), Operations(Planned(s, records))).Ok?)
      ensures ok ==> ApplyAll(schema, old(native.store), Operations(Planned(s, records))) == Ok(native.store)
      ensures ok ==> Shot(Committed(s, records)) && Stale() <= s.stale + Displaced(s, records)
      ensures !ok ==> native.store == old(native.store) && native.cachedRecords == old(native.cachedRecords)
      ensures !ok ==> CachesAre(s.caches) && Stale() <= s.stale + set m | m in records
      ensures !ok ==> Taken(s, records)
      ensures ok ==> native.cachedRecords ==
                     old(native.cachedRecords) + OperationKeys(Operations(Planned(s, records)), ADD_TO_CACHE)
                     - OperationKeys(Operations(Planned(s, records)), REMOVE_FROM_CACHE)
    {
      ok := Commit(operations, changes, json, commits, s, records, created);
      if !ok {
        AfterFailedBatch(s, records, records);
      }
    }

    // ---- Preparing changes ----

    /** `m` is the cached instance of its record. */
    ghost predicate IsCached(m: Model)
      reads m`raw, collections.Values
    {
      m.table in collections && m.raw.id in collections[m.table].records && collections[m.table].records[m.raw.id] == m
    }

    /** The snapshot is right about everything but `m`. */
    ghost predicate Around(s: Snapshot, m: Model)
      reads native, collections.Values, (s.raws.Keys - {m})`raw, (s.raws.Keys - {m})`preparedState
    {
      && Wired() && Agreement() && Consistent(schema, s, native.store)
      && CachesAre(s.caches) && ModelsAre(s, {m}) && m in s.raws && m in s.states
    }

    lemma SnapshotAround(m: Model) returns (s: Snapshot)
      requires Agrees()
      ensures Around(s, m) && s.raws[m] == m.raw && s.states[m] == m.preparedState && s.stale == Stale()
    {
      s := TakeSnapshot([m]);
    }

    /** One model was changed; `stale` says whether it is given up as out of step. */
    lemma AfterChange(s: Snapshot, m: Model, stale: set<Model>)
      requires Around(s, m)
      requires m.raw.id == s.raws[m].id && IsModel(m)
      requires s.states[m] != PreparedCreate ==> m.preparedState != PreparedCreate
      requires m in stale || m.preparedState != Unprepared || (m.raw == s.raws[m] && s.states[m] == Unprepared)
      ensures Agrees() && Stale() <= s.stale + stale
    {
      var next := SnapshotAfterChange(s, m, stale);
      FromSnapshot(next);
    }

    lemma SnapshotAfterChange(s: Snapshot, m: Model, stale: set<Model>) returns (next: Snapshot)
      requires Around(s, m)
      requires m.raw.id == s.raws[m].id && IsModel(m)
      requires s.states[m] != PreparedCreate ==> m.preparedState != PreparedCreate
      requires m in stale || m.preparedState != Unprepared || (m.raw == s.raws[m] && s.states[m] == Unprepared)
      ensures Shot(next) && Consistent(schema, next, native.store) && next.stale == s.stale + stale
    {
      next := ChangedAt(s, m, m.raw, m.preparedState, stale);
      ChangedAtKeepsConsistent(schema, s, m, m.raw, m.preparedState, stale, native.store);
    }

    /** A cached model that was in step and is changed without a prepared change is out of step. */
    lemma ChangedIsStale(s: Snapshot, m: Model)
      requires Around(s, m) && IsCached(m) && m !in s.stale
      requires s.states[m] == Unprepared && m.preparedState == Unprepared && m.raw != s.raws[m]
      ensures m in Stale()
    {
      assert s.InStep(schema, native.store, m.table, m.raw.id);
    }

    /** After edits: a model that was in step is out of step if and only if it was changed and no change of it
        is prepared. */
    lemma AfterEdits(s: Snapshot, m: Model)
      requires Around(s, m) && m.raw.id == s.raws[m].id && IsModel(m)
      requires m.preparedState == s.states[m] || m.preparedState == PreparedUpdate
      ensures Agrees()
      ensures Stale() <= s.stale + if m.preparedState == Unprepared && m.raw != s.raws[m] then {m} else {}
      ensures IsCached(m) && m !in s.stale ==> (m in Stale() <==> m.preparedState == Unprepared && m.raw != s.raws[m])
    {
      var out := m.preparedState == Unprepared && m.raw != s.raws[m];
      AfterChange(s, m, if out then {m} else {});
      if out && IsCached(m) && m !in s.stale {
        ChangedIsStale(s, m);
      }
    }

    /** `prepareUpdate`. A cached model that was in step gets out of step if and only if the updater throws
        after assignments that leave the raw record different: they stay, and no change is prepared. */
    method PrepareUpdate(m: Model, edits: Edits, throws: bool) returns (ok: bool)
      requires Agrees() && IsModel(m) && ValidColumns(m.columns) && KnownColumns(edits, m.columns)
      modifies m
      ensures Agrees() && IsModel(m) && m.raw.id == old(m.raw.id)
      ensures ok <==> old(m.preparedState) == Unprepared && (old(m.raw.status) == Deleted ==> edits == []) && !throws
      ensures m.raw == if old(m.preparedState == Unprepared && m.raw.status != Deleted)
                       then Edited(old(m.raw), m.columns, edits) else old(m.raw)
      ensures m.preparedState == if ok then PreparedUpdate else old(m.preparedState)
      ensures Stale() <= old(Stale()) + if !ok && m.raw != old(m.raw) then {m} else {}
      ensures IsCached(m) && m !in old(Stale()) ==> (m in Stale() <==> !ok && m.raw != old(m.raw))
      ensures m.isEditing == if old(m.preparedState) == Unprepared then !ok else old(m.isEditing)
      ensures unchanged(native)
      ensures forall t :: t in collections ==> collections[t].records == old(collections[t].records)
    {
      ghost var s := SnapshotAround(m);
      ok := RunUpdater(m, edits, throws, s);
      AfterEdits(s, m);
    }

    method RunUpdater(m: Model, edits: Edits, throws: bool, ghost s: Snapshot) returns (ok: bool)
      requires Around(s, m) && IsModel(m) && ValidColumns(m.columns) && KnownColumns(edits, m.columns)
      modifies m
      ensures Around(s, m) && IsModel(m) && m.raw.id == old(m.raw.id)
      ensures ok <==> old(m.preparedState) == Unprepared && (old(m.raw.status) == Deleted ==> edits == []) && !throws
      ensures m.raw == if old(m.preparedState == Unprepared && m.raw.status != Deleted)
                       then Edited(old(m.raw), m.columns, edits) else old(m.raw)
      ensures m.preparedState == if ok then PreparedUpdate else old(m.preparedState)
      ensures m.isEditing == if old(m.preparedState) == Unprepared then !ok else old(m.isEditing)
    {
      ok := UpdateModel(m, edits, throws);
    }

    method UpdateModel(m: Model, edits: Edits, throws: bool) returns (ok: bool)
      requires ValidSchema(schema) && IsModel(m) && ValidColumns(m.columns) && KnownColumns(edits, m.columns)
      modifies m
      ensures IsModel(m) && m.raw.id == old(m.raw.id)
      ensures ok <==> old(m.preparedState) == Unprepared && (old(m.raw.status) == Deleted ==> edits == []) && !throws
      ensures m.raw == if old(m.preparedState == Unprepared && m.raw.status != Deleted)
                       then Edited(old(m.raw), m.columns, edits) else old(m.raw)
      ensures m.preparedState == if ok then PreparedUpdate else old(m.preparedState)
      ensures m.isEditing == if old(m.preparedState) == Unprepared then !ok else old(m.isEditing)
    {
      EditsKeepSanitized(m.raw, schema[m.table], edits);
      ok := m.PrepareUpdate(edits, throws);
    }

    /** An assignment outside any updater, which goes through while the record is left in its editing state. */
    method Assign(m: Model, column: string, value: Value) returns (ok: bool)
      requires Agrees() && IsModel(m) && column in m.columns
      modifies m
      ensures Agrees() && IsModel(m) && m.raw.id == old(m.raw.id)
      ensures ok <==> old(m.isEditing && m.raw.status != Deleted)
      ensures m.preparedState == old(m.preparedState)
      ensures m.raw == if !ok then old(m.raw)
                       else if m.preparedState == PreparedCreate
                       then old(m.raw).(fields := old(m.raw).fields[column := Sanitize(value, m.columns[column])])
                       else Edited(old(m.raw), m.columns, [(column, value)])
      ensures Stale() <= old(Stale()) + if m.preparedState == Unprepared && m.raw != old(m.raw) then {m} else {}
      ensures IsCached(m) && m !in old(Stale()) ==>
                (m in Stale() <==> m.preparedState == Unprepared && m.raw != old(m.raw))
      ensures m.isEditing == old(m.isEditing)
      ensures unchanged(native)
      ensures forall t :: t in collections ==> collections[t].records == old(collections[t].records)
    {
      ghost var s := SnapshotAround(m);
      ok := SetColumn(m, column, value);
      AfterEdits(s, m);
    }

    method SetColumn(m: Model, column: string, value: Value) returns (ok: bool)
      requires Shape() && IsModel(m) && column in m.columns
      modifies m
      ensures IsModel(m) && m.raw.id == old(m.raw.id) && m.preparedState == old(m.preparedState)
      ensures ok <==> old(m.isEditing && m.raw.status != Deleted)
      ensures m.raw == if !ok then old(m.raw)
                       else if m.preparedState == PreparedCreate
                       then old(m.raw).(fields := old(m.raw).fields[column := Sanitize(value, m.columns[column])])
                       else Edited(old(m.raw), m.columns, [(column, value)])
      ensures m.isEditing == old(m.isEditing)
    {
      OneEditKeepsSanitized(m.raw, schema[m.table], column, value);
      ok := m.SetRaw(column, value);
    }

    method PrepareMarkAsDeleted(m: Model) returns (ok: bool)
      requires Agrees() && IsModel(m)
      modifies m`raw, m`preparedState
      ensures Agrees() && IsModel(m) && Stale() <= old(Stale())
      ensures ok <==> old(m.preparedState) == Unprepared
      ensures m.raw == if ok then old(m.raw).(status := Deleted) else old(m.raw)
      ensures m.preparedState == if ok then PreparedMarkAsDeleted else old(m.preparedState)
      ensures unchanged(native)
      ensures forall t :: t in collections ==> collections[t].records == old(collections[t].records)
    {
      ghost var s := SnapshotAround(m);
      ok := m.PrepareMarkAsDeleted();
      AfterChange(s, m, {});
    }

    method PrepareDestroyPermanently(m: Model) returns (ok: bool)
      requires Agrees() && IsModel(m)
      modifies m`raw, m`preparedState
      ensures Agrees() && IsModel(m) && Stale() <= old(Stale())
      ensures ok <==> old(m.preparedState) == Unprepared
      ensures m.raw == if ok then old(m.raw).(status := Deleted) else old(m.raw)
      ensures m.preparedState == if ok then PreparedDestroyPermanently else old(m.preparedState)
      ensures unchanged(native)
      ensures forall t :: t in collections ==> collections[t].records == old(collections[t].records)
    {
      ghost var s := SnapshotAround(m);
      ok := m.PrepareDestroyPermanently();
      AfterChange(s, m, {});
    }

    /** `prepareCreate`: a new record, not cached until a batch creates it. */
    method PrepareCreate(t: string, timestamps: DirtyRaw, randomId: string, edits: Edits) returns (m: Model)
      requires Agrees() && t in collections && "id" !in timestamps
      requires ValidColumns(ColumnMap(schema[t])) && KnownColumns(edits, ColumnMap(schema[t]))
      ensures Agrees() && Stale() <= old(Stale())
      ensures fresh(m) && m.table == t && m.preparedState == PreparedCreate && !m.isEditing && IsModel(m)
      ensures m.raw == MarkAll(SetAll(SanitizedRaw(timestamps, schema[t], randomId), ColumnMap(schema[t]), edits),
                               EditedNames(edits))
    {
      ghost var s := TakeSnapshot([]);
      m := BuildNew(t, timestamps, randomId, edits);
      FromSnapshot(s);
    }

    method BuildNew(t: string, timestamps: DirtyRaw, randomId: string, edits: Edits) returns (m: Model)
      requires Wired() && native.Valid() && t in collections && "id" !in timestamps
      requires ValidColumns(ColumnMap(schema[t])) && KnownColumns(edits, ColumnMap(schema[t]))
      ensures fresh(m) && m.table == t && m.preparedState == PreparedCreate && !m.isEditing && IsModel(m)
      ensures m.raw == MarkAll(SetAll(SanitizedRaw(timestamps, schema[t], randomId), ColumnMap(schema[t]), edits),
                               EditedNames(edits))
    {
      var raw := SanitizeRaw(timestamps, schema[t], randomId);
      SanitizedRawIsSanitized(timestamps, schema[t], randomId);
      SanitizedHasFields(raw, schema[t]);
      SetAllKeepsSanitized(raw, schema[t], edits);
      MarkAllKeepsFields(SetAll(raw, ColumnMap(schema[t]), edits), EditedNames(edits));
      m := new Model(t, ColumnMap(schema[t]), raw);
      m.BuildNew(edits);
    }

    /** `prepareCreateFromDirtyRaw` */
    method PrepareCreateFromDirtyRaw(t: string, dirty: DirtyRaw, randomId: string) returns (m: Model)
      requires Agrees() && t in collections
      ensures Agrees() && Stale() <= old(Stale())
      ensures fresh(m) && m.table == t && m.preparedState == PreparedCreate && !m.isEditing && IsModel(m)
      ensures m.raw == SanitizedRaw(dirty, schema[t], randomId)
    {
      ghost var s := TakeSnapshot([]);
      m := NewFromDirtyRaw(t, dirty, randomId);
      FromSnapshot(s);
    }

    method NewFromDirtyRaw(t: string, dirty: DirtyRaw, randomId: string) returns (m: Model)
      requires Wired() && native.Valid() && t in collections
      ensures fresh(m) && m.table == t && m.preparedState == PreparedCreate && !m.isEditing && IsModel(m)
      ensures m.raw == SanitizedRaw(dirty, schema[t], randomId)
    {
      var raw := SanitizeRaw(dirty, schema[t], randomId);
      SanitizedRawIsSanitized(dirty, schema[t], randomId);
      m := new Model(t, ColumnMap(schema[t]), raw);
      m.preparedState := PreparedCreate;
    }

    // ---- Destroying in bulk, and clearing ----

    ghost function SelectedModels(t: string, selected: seq<string>): set<Model>
      requires t in collections
      reads collections[t]
    {
      set id | id in collections[t].records && id in selected :: collections[t].records[id]
    }

    ghost predicate AllCanPrepare(models: set<Model>)
      reads models`preparedState
    {
      forall m :: m in models ==> m.preparedState == Unprepared
    }

    ghost predicate IsMarked(m: Model, before: RawRecord)
      reads m`raw, m`preparedState
    {
      m.raw == before.(status := Deleted) && m.preparedState == Unprepared
    }

    /** The ids that the loop of `_performMassDestroy` gets to: all, or those before the first one whose cached
        record has a prepared change. */
    ghost function MarkedSelected(t: string, selected: seq<string>): (marked: seq<string>)
      requires t in collections
      reads collections[t], collections[t].records.Values`preparedState
      ensures marked <= selected
    {
      if AllCanPrepare(SelectedModels(t, selected)) then selected
      else MarkedSelected(t, selected[..|selected| - 1])
    }

    lemma {:induction false} SnapshotMarks(s: Snapshot, t: string, selected: seq<string>)
      requires t in collections && Shot(s)
      requires forall id :: id in s.caches[t] ==> s.caches[t][id] in s.raws
      ensures MarkedSelected(t, selected) == MarkedIds(s, t, selected)
      ensures AllCanPrepare(SelectedModels(t, selected)) <==> CanMark(s, t, selected)
    {
      if CanMark(s, t, selected) {
      } else {
        SnapshotMarks(s, t, selected[..|selected| - 1]);
      }
    }

    /** A model that a mass destroy has got to, or as it was. */
    ghost predicate MarkedOrNot(m: Model, raw: RawRecord, state: PreparedState, marked: bool)
      reads m`raw, m`preparedState
    {
      if marked then IsMarked(m, raw) else m.raw == raw && m.preparedState == state
    }

    /** What puts a cached model of table `t` out of step when a mass destroy stops half-way: its row is gone,
        or it is marked as deleted while the model was not got to, holds no change and was not deleted. */
    ghost predicate LeftBehind(m: Model, t: string, selected: seq<string>, permanently: bool, marked: set<Model>)
      reads m`raw, m`preparedState
    {
      && m.table == t && m.raw.id in selected
      && (permanently || (m !in marked && m.preparedState == Unprepared && m.raw.status != Deleted))
    }

    /** `_performMassDestroy`: the native side destroys every selected row; models of selected records are
        marked as deleted and dropped, and the others are not touched. It throws half-way, with the rows
        already destroyed and the models up to there marked, if a change of a selected record is prepared;
        then exactly the models left behind get out of step, and the two sides still agree. When SQLite does
        not commit nothing changes at all. */
    method PerformMassDestroy(t: string, selected: seq<string>, permanently: bool, isUnconditional: bool, commits: bool)
      returns (ok: bool)
      requires Agrees() && native.Selects(t, selected)
      requires isUnconditional ==> forall id :: id in native.store[t] ==> id in selected
      modifies native`store, native`cachedRecords, collections[t]
      modifies SelectedModels(t, selected)`raw, SelectedModels(t, selected)`preparedState
      ensures Agrees()
      ensures ok <==> commits && old(AllCanPrepare(SelectedModels(t, selected)))
      ensures native.store == if commits then Destroyed(old(native.store), t, Elements(selected), permanently)
                              else old(native.store)
      ensures native.cachedRecords == old(native.cachedRecords)
                                      - if commits then CacheKeysOf(t, selected) else {}
      ensures collections[t].records == if ok then old(collections[t].records) - Elements(selected)
              else old(collections[t].records)
      ensures forall m :: m in old(SelectedModels(t, selected)) ==>
                MarkedOrNot(m, old(m.raw), old(m.preparedState),
                            commits && m in old(SelectedModels(t, MarkedSelected(t, selected))))
      ensures Stale() <= old(Stale()) + if commits && !ok then old(SelectedModels(t, selected)) else {}
      ensures commits && !ok ==>
                forall m :: IsCached(m) && m !in old(Stale()) ==>
                  (m in Stale() <==>
                   LeftBehind(m, t, selected, permanently, old(SelectedModels(t, MarkedSelected(t, selected)))))
      ensures forall u :: u in collections && u != t ==> collections[u].records == old(collections[u].records)
    {
      ghost var s := TakenBeforeDestroy(t, selected);
      ghost var touched, marked := SelectedModels(t, selected), SelectedModels(t, MarkedSelected(t, selected));
      ok := FollowMassDestroy(t, selected, permanently, isUnconditional, commits, s, touched, marked);
    }

    /** The same in terms of a snapshot. */
    method FollowMassDestroy(t: string, selected: seq<string>, permanently: bool, isUnconditional: bool, commits: bool,
                             ghost s: Snapshot, ghost touched: set<Model>, ghost marked: set<Model>) returns (ok: bool)
      requires Wired() && native.Selects(t, selected) && t in collections && Selecting(t, selected, touched)
      requires isUnconditional ==> forall id :: id in native.store[t] ==> id in selected
      requires Shot(s) && Consistent(schema, s, native.store) && Knows(s.caches, native.cachedRecords)
      requires Touches(s, t, selected, touched) && marked == MarkedSet(s, t, selected)
      requires forall m :: m in touched ==> m in s.raws && s.raws[m] == m.raw && s.states[m] == m.preparedState
      modifies native`store, native`cachedRecords, collections[t], touched`raw, touched`preparedState
      ensures Agrees() && (ok <==> commits && CanMark(s, t, selected))
      ensures native.store == if commits then Destroyed(old(native.store), t, Elements(selected), permanently)
                              else old(native.store)
      ensures native.cachedRecords == old(native.cachedRecords)
                                      - if commits then CacheKeysOf(t, selected) else {}
      ensures collections[t].records == if ok then old(collections[t].records) - Elements(selected)
              else old(collections[t].records)
      ensures forall m :: m in touched ==>
                MarkedOrNot(m, old(m.raw), old(m.preparedState), commits && m in marked)
      ensures Stale() <= s.stale + if commits && !ok then touched else {}
      ensures commits && !ok ==>
                forall m :: IsCached(m) && m !in s.stale ==>
                  (m in Stale() <==> LeftBehind(m, t, selected, permanently, marked))
      ensures forall u :: u in collections && u != t ==> collections[u].records == old(collections[u].records)
    {
      ok := DestroyFrom(t, selected, permanently, isUnconditional, commits, s, touched);
    }

    /** What each touched model is afterwards, as the snapshot has it before. */
    method DestroyFrom(t: string, selected: seq<string>, permanently: bool, isUnconditional: bool, commits: bool,
                       ghost s: Snapshot, ghost touched: set<Model>) returns (ok: bool)
      requires Wired() && native.Selects(t, selected) && t in collections && Selecting(t, selected, touched)
      requires isUnconditional ==> forall id :: id in native.store[t] ==> id in selected
      requires Shot(s) && Consistent(schema, s, native.store) && Knows(s.caches, native.cachedRecords)
      requires Touches(s, t, selected, touched)
      modifies native`store, native`cachedRecords, collections[t], touched`raw, touched`preparedState
      ensures Agrees() && (ok <==> commits && CanMark(s, t, selected))
      ensures native.store == if commits then Destroyed(old(native.store), t, Elements(selected), permanently)
                              else old(native.store)
      ensures native.cachedRecords == old(native.cachedRecords)
                                      - if commits then CacheKeysOf(t, selected) else {}
      ensures collections[t].records == if ok then s.caches[t] - Elements(selected) else s.caches[t]
      ensures Stale() <= s.stale + if commits && !ok then touched else {}
      ensures forall m :: m in touched ==>
                m in s.raws && m in s.states
                && MarkedOrNot(m, s.raws[m], s.states[m], commits && m in MarkedSet(s, t, selected))
      ensures commits && !ok ==>
                forall m :: IsCached(m) && m !in s.stale ==>
                  (m in Stale() <==> LeftBehind(m, t, selected, permanently, MarkedSet(s, t, selected)))
      ensures forall u :: u in collections && u != t ==> collections[u].records == old(collections[u].records)
    {
      ghost var store := native.store;
      ok := RunMassDestroy(t, selected, permanently, isUnconditional, commits, s, touched);
      MarkedModels(s, t, selected, touched, commits);
      if commits && !ok {
        StaleHalfway(s, store, t, selected, permanently, touched);
      }
    }

    lemma TakenBeforeDestroy(t: string, selected: seq<string>) returns (s: Snapshot)
      requires Agrees() && t in collections
      ensures Shot(s) && Consistent(schema, s, native.store) && Knows(s.caches, native.cachedRecords)
      ensures s.stale == Stale() && t in s.caches
      ensures Touches(s, t, selected, SelectedModels(t, selected))
      ensures Selecting(t, selected, SelectedModels(t, selected))
      ensures forall m :: m in SelectedModels(t, selected) ==>
                m in s.raws && s.raws[m] == m.raw && s.states[m] == m.preparedState
      ensures SelectedModels(t, MarkedSelected(t, selected)) == MarkedSet(s, t, selected)
      ensures AllCanPrepare(SelectedModels(t, selected)) <==> CanMark(s, t, selected)
    {
      s := TakeSnapshot([]);
      SelectedAreTouched(s, t, selected, SelectedModels(t, selected));
      MarkedAre(s, t, selected);
    }

    lemma MarkedAre(s: Snapshot, t: string, selected: seq<string>)
      requires t in collections && Shot(s) && forall id :: id in s.caches[t] ==> s.caches[t][id] in s.raws
      ensures t in s.caches && SelectedModels(t, MarkedSelected(t, selected)) == MarkedSet(s, t, selected)
      ensures AllCanPrepare(SelectedModels(t, selected)) <==> CanMark(s, t, selected)
    {
      SnapshotMarks(s, t, selected);
    }

    lemma MarkedModels(s: Snapshot, t: string, selected: seq<string>, touched: set<Model>, commits: bool)
      requires Touches(s, t, selected, touched)
      requires if commits then MarkedUpTo(s, t, MarkedIds(s, t, selected)) else ModelsAre(s, {})
      ensures forall m :: m in touched ==>
                m in s.raws && m in s.states
                && MarkedOrNot(m, s.raws[m], s.states[m], commits && m in MarkedSet(s, t, selected))
    {
      forall m | m in touched && commits
        ensures m in s.states && MarkedOrNot(m, s.raws[m], s.states[m], m in MarkedSet(s, t, selected))
      {
        var id := s.raws[m].id;
        assert MarkedIf(s, s.caches[t][id], id, id in MarkedIds(s, t, selected));
        if i :| i in s.caches[t] && i in MarkedIds(s, t, selected) && s.caches[t][i] == m {
          assert MarkedIf(s, s.caches[t][i], i, true);
        }
      }
    }

    lemma StaleHalfway(s: Snapshot, store: Store, t: string, selected: seq<string>, permanently: bool,
                       touched: set<Model>)
      requires Agrees() && t in schema && Consistent(schema, s, store) && CachesAre(s.caches)
      requires native.store == Destroyed(store, t, Elements(selected), permanently)
      requires MarkedUpTo(s, t, MarkedIds(s, t, selected))
      requires ModelsAre(s, touched) && Touches(s, t, selected, touched)
      ensures forall m :: IsCached(m) && m !in s.stale ==>
                (m in Stale() <==> LeftBehind(m, t, selected, permanently, MarkedSet(s, t, selected)))
    {
      forall m | IsCached(m) && m !in s.stale
        ensures m in Stale() <==> LeftBehind(m, t, selected, permanently, MarkedSet(s, t, selected))
      {
        StaleOneHalfway(s, store, t, selected, permanently, m);
      }
    }

    lemma StaleOneHalfway(s: Snapshot, store: Store, t: string, selected: seq<string>, permanently: bool, m: Model)
      requires Agrees() && t in schema && Consistent(schema, s, store) && CachesAre(s.caches)
      requires native.store == Destroyed(store, t, Elements(selected), permanently)
      requires MarkedUpTo(s, t, MarkedIds(s, t, selected)) && IsCached(m) && m !in s.stale
      requires m.table != t && m in s.raws ==> m.raw == s.raws[m] && m.preparedState == s.states[m]
      ensures m in Stale() <==>
              LeftBehind(m, t, selected, permanently, MarkedSet(s, t, selected))
    {
      var id, marked := m.raw.id, MarkedIds(s, t, selected);
      StaleIff(m);
      assert s.InStep(schema, store, m.table, id);
      if m.table == t {
        assert MarkedIf(s, m, id, id in marked);
        assert m in MarkedSet(s, t, selected) <==> id in marked by {
          if i :| i in s.caches[t] && i in marked && s.caches[t][i] == m {
            assert s.InStep(schema, store, t, i);
          }
        }
      }
      StepHalfway(schema, s, store, t, Elements(selected), permanently, m.table, id, m.table == t && id in marked);
    }

    /** The cached models of the selected ids. */
    ghost predicate Touches(s: Snapshot, t: string, selected: seq<string>, touched: set<Model>) {
      && t in s.caches && touched <= s.raws.Keys
      && (forall m :: m in touched ==> m.table == t && s.raws[m].id in selected
                                       && s.raws[m].id in s.caches[t] && s.caches[t][s.raws[m].id] == m)
      && (forall id :: id in s.caches[t] && id in selected ==> s.caches[t][id] in touched)
    }

    /** What the loop over the destroyed ids starts from. */
    ghost predicate Selecting(t: string, selected: seq<string>, touched: set<Model>)
      requires t in collections
      reads collections[t], collections[t].records.Values, touched
    {
      collections[t].Valid() && touched == SelectedModels(t, selected) && NoneDisposable(touched)
    }

    lemma SelectedAreTouched(s: Snapshot, t: string, selected: seq<string>, touched: set<Model>)
      requires Wired() && t in collections && Shot(s) && Consistent(schema, s, native.store)
      requires touched == SelectedModels(t, selected)
      ensures Touches(s, t, selected, touched) && Selecting(t, selected, touched)
      ensures forall m :: m in touched ==> m in s.raws && s.raws[m] == m.raw && s.states[m] == m.preparedState
      ensures s.caches[t] == collections[t].records
      ensures forall id :: id in s.caches[t] ==> s.caches[t][id] in s.raws
    {
      forall id | id in collections[t].records
        ensures s.InStep(schema, native.store, t, id)
      {
      }
    }

    /** The same in terms of a snapshot. */
    method RunMassDestroy(t: string, selected: seq<string>, permanently: bool, isUnconditional: bool, commits: bool,
                          ghost s: Snapshot, ghost touched: set<Model>) returns (ok: bool)
      requires Wired() && native.Selects(t, selected) && t in collections && Selecting(t, selected, touched)
      requires isUnconditional ==> forall id :: id in native.store[t] ==> id in selected
      requires Shot(s) && Consistent(schema, s, native.store) && Knows(s.caches, native.cachedRecords)
      requires Touches(s, t, selected, touched)
      modifies native`store, native`cachedRecords, collections[t], touched`raw, touched`preparedState
      ensures Agrees() && ModelsAre(s, touched)
      ensures ok <==> commits && CanMark(s, t, selected)
      ensures native.store == if commits then Destroyed(old(native.store), t, Elements(selected), permanently)
                              else old(native.store)
      ensures native.cachedRecords == old(native.cachedRecords)
                                      - if commits then CacheKeysOf(t, selected) else {}
      ensures CachesAre(WithoutDropped(s.caches, t, Elements(selected), ok))
      ensures if commits then MarkedUpTo(s, t, MarkedIds(s, t, selected)) else ModelsAre(s, {})
      ensures Stale() <= s.stale + if commits && !ok then touched else {}
    {
      ghost var store, sent := native.store, native.cachedRecords;
      ok := DestroyRows(t, selected, permanently, isUnconditional, commits, s, touched);
      if ok {
        ok := DestroyModels(t, selected, permanently, s, touched);
        AfterDestroy(s, store, sent, t, selected, permanently, touched, ok);
      } else {
        FromSnapshot(s);
      }
    }

    /** The native half. */
    method DestroyRows(t: string, selected: seq<string>, permanently: bool, isUnconditional: bool, commits: bool,
                       ghost s: Snapshot, ghost touched: set<Model>) returns (ok: bool)
      requires Wired() && native.Valid() && native.Selects(t, selected) && t in collections
      requires isUnconditional ==> forall id :: id in native.store[t] ==> id in selected
      requires Shot(s) && Selecting(t, selected, touched)
      modifies native`store, native`cachedRecords
      ensures ok <==> commits
      ensures native.store == if ok then Destroyed(old(native.store), t, Elements(selected), permanently)
                              else old(native.store)
      ensures native.cachedRecords == old(native.cachedRecords)
                                      - if ok then CacheKeysOf(t, selected) else {}
      ensures Shot(s) && Selecting(t, selected, touched)
      ensures !ok && old(Agreement()) ==> Agreement()
    {
      var destroyed := native.DestroyMatching(t, selected, permanently, isUnconditional, commits);
      ok := destroyed.Ok?;
    }

    /** The JavaScript half. */
    method DestroyModels(t: string, selected: seq<string>, permanently: bool, ghost s: Snapshot,
                         ghost touched: set<Model>)
      returns (ok: bool)
      requires Wired() && t in collections && Shot(s) && Selecting(t, selected, touched)
      requires Touches(s, t, selected, touched) && CachedModels() <= s.raws.Keys
      modifies collections[t], touched`raw, touched`preparedState
      ensures ModelsAre(s, touched) && MarkedUpTo(s, t, MarkedIds(s, t, selected))
      ensures ok <==> CanMark(s, t, selected)
      ensures unchanged(native) && CachesAre(WithoutDropped(s.caches, t, Elements(selected), ok))
    {
      var changeSet: seq<Entry<Model>>;
      ok, changeSet := MarkModels(t, selected, permanently, s, touched);
      if ok {
        DropModels(t, selected, changeSet, s, touched);
      }
    }

    method MarkModels(t: string, selected: seq<string>, permanently: bool, ghost s: Snapshot, ghost touched: set<Model>)
      returns (ok: bool, changeSet: seq<Entry<Model>>)
      requires Wired() && t in collections && Shot(s) && Selecting(t, selected, touched)
      requires Touches(s, t, selected, touched) && CachedModels() <= s.raws.Keys
      modifies touched`raw, touched`preparedState
      ensures ModelsAre(s, touched) && MarkedUpTo(s, t, MarkedIds(s, t, selected))
      ensures ok <==> CanMark(s, t, selected)
      ensures ok ==> Lists(t, s.caches[t], changeSet, selected)
      ensures CachesAre(s.caches) && forall id :: id in s.caches[t] ==> s.caches[t][id].raw.id == id
    {
      StartMarking(s, t);
      ok, changeSet := MarkSelected(t, selected, permanently, s);
      MarkedKeepIds(s, t, MarkedIds(s, t, selected));
    }

    method DropModels(t: string, selected: seq<string>, changeSet: seq<Entry<Model>>, ghost s: Snapshot,
                      ghost touched: set<Model>)
      requires Wired() && t in collections && CachesAre(s.caches) && ModelsAre(s, touched)
      requires MarkedUpTo(s, t, MarkedIds(s, t, selected))
      requires Lists(t, s.caches[t], changeSet, selected)
      requires forall id :: id in s.caches[t] ==> s.caches[t][id].raw.id == id
      modifies collections[t]
      ensures ModelsAre(s, touched) && MarkedUpTo(s, t, MarkedIds(s, t, selected))
      ensures CachesAre(WithoutDropped(s.caches, t, Elements(selected), true))
    {
      ghost var cache := s.caches[t];
      DestroysOnly(cache, changeSet, t);
      assert cache - Elements(selected) * cache.Keys == cache - Elements(selected);
      ApplyChangesToCache(t, changeSet);
    }

    lemma StartMarking(s: Snapshot, t: string)
      requires t in collections && Shot(s) && collections[t].Valid()
      requires forall id :: id in s.caches[t] ==> s.caches[t][id] in s.raws
      ensures MarkedUpTo(s, t, [])
    {
    }

    lemma MarkedKeepIds(s: Snapshot, t: string, done: seq<string>)
      requires t in s.caches && MarkedUpTo(s, t, done)
      ensures forall id :: id in s.caches[t] ==> s.caches[t][id].raw.id == id
    {
      forall id | id in s.caches[t]
        ensures MarkedIf(s, s.caches[t][id], id, id in done)
      {
      }
    }

    lemma AfterDestroy(s: Snapshot, store: Store, sent: set<string>, t: string, selected: seq<string>,
                       permanently: bool, touched: set<Model>, ok: bool)
      requires Wired() && t in schema && Consistent(schema, s, store) && Knows(s.caches, sent)
      requires native.store == Destroyed(store, t, Elements(selected), permanently)
      requires native.cachedRecords == sent - CacheKeysOf(t, selected)
      requires t in s.caches && CachesAre(WithoutDropped(s.caches, t, Elements(selected), ok))
      requires Touches(s, t, selected, touched) && ModelsAre(s, touched)
      requires MarkedUpTo(s, t, MarkedIds(s, t, selected))
      ensures Agrees() && Stale() <= s.stale + if ok then {} else touched
    {
      var next := SnapshotAfterDestroy(s, store, t, selected, permanently, touched, ok);
      AgreementAfterDestroy(next.caches, s.caches, sent, t, selected);
      FromSnapshot(next);
      if ok {
        DroppedAreNotStale(t, selected, touched);
      }
    }

    lemma SnapshotAfterDestroy(s: Snapshot, store: Store, t: string, selected: seq<string>, permanently: bool,
                               touched: set<Model>, ok: bool) returns (next: Snapshot)
      requires t in schema && Consistent(schema, s, store)
      requires t in s.caches && CachesAre(WithoutDropped(s.caches, t, Elements(selected), ok))
      requires Touches(s, t, selected, touched) && ModelsAre(s, touched)
      requires MarkedUpTo(s, t, MarkedIds(s, t, selected))
      ensures Consistent(schema, next, Destroyed(store, t, Elements(selected), permanently)) && Shot(next)
      ensures next.caches == WithoutDropped(s.caches, t, Elements(selected), ok)
      ensures next.stale == s.stale + touched
      ensures forall m :: m in touched ==> m.raw.id in selected
    {
      var raws: map<Model, RawRecord> := map m: Model | m in s.raws :: m.raw;
      var states: map<Model, PreparedState> := map m: Model | m in s.raws :: m.preparedState;
      next := Snapshot(WithoutDropped(s.caches, t, Elements(selected), ok), raws, states, s.stale + touched);
      forall m | m in touched
        ensures MarkedOrSame(s, next, m) && m.raw.id in selected
      {
        assert MarkedIf(s, m, s.raws[m].id, s.raws[m].id in MarkedIds(s, t, selected));
      }
      MassDestroyKeepsConsistent(schema, s, next, store, t, Elements(selected), permanently, touched, ok);
    }

    lemma AgreementAfterDestroy(caches: map<string, map<string, Model>>, before: map<string, map<string, Model>>,
                                sent: set<string>, t: string, selected: seq<string>)
      requires Knows(before, sent) && t in before && caches.Keys == before.Keys && CachesAre(caches)
      requires native.cachedRecords == sent - CacheKeysOf(t, selected)
      requires forall u, id :: u in before && id in before[u] && (u != t || id !in selected) ==> id in caches[u]
      ensures Agreement()
    {
      forall u, id | u in collections && CacheKey(u, id) in native.cachedRecords
        ensures id in collections[u].records
      {
        assert u == t ==> id !in selected;
      }
    }

    lemma DroppedAreNotStale(t: string, selected: seq<string>, touched: set<Model>)
      requires Kept() && t in collections && forall id :: id in collections[t].records ==> id !in selected
      requires forall m :: m in touched ==> m.table == t && m.raw.id in selected
      ensures Stale() !! touched
    {
      forall u, id | u in collections && id in collections[u].records
        ensures collections[u].records[id] !in touched
      {
        assert TableFits(u);
      }
    }

    ghost predicate NoneDisposable(models: set<Model>)
      reads models`raw
    {
      forall m :: m in models ==> m.raw.status != Disposable
    }

    /** Prepares the change, and drops the prepared state at once. */
    method MarkOne(m: Model, permanently: bool) returns (ok: bool)
      requires m.raw.status != Disposable
      modifies m`raw, m`preparedState
      ensures ok <==> old(m.preparedState) == Unprepared
      ensures if ok then IsMarked(m, old(m.raw)) else m.raw == old(m.raw) && m.preparedState == old(m.preparedState)
    {
      if permanently {
        ok := m.PrepareDestroyPermanently();
      } else {
        ok := m.PrepareMarkAsDeleted();
      }
      if ok {
        m.preparedState := Unprepared;
      }
    }

    /** The change set lists models that it is to drop. */
    predicate Drops(t: string, cache: map<string, Model>, changeSet: seq<Entry<Model>>) {
      forall j :: 0 <= j < |changeSet| ==>
        var op := changeSet[j].op;
        op.MarkAsDeleted? && op.table == t && op.id in cache && cache[op.id] == changeSet[j].record
    }

    /** And it lists all of those with the ids done. */
    ghost predicate Lists(t: string, cache: map<string, Model>, changeSet: seq<Entry<Model>>, done: seq<string>) {
      Drops(t, cache, changeSet) && EntryIds(changeSet) == Elements(done) * cache.Keys
    }

    lemma NextDrop(t: string, cache: map<string, Model>, changeSet: seq<Entry<Model>>, done: seq<string>, id: string)
      requires Lists(t, cache, changeSet, done)
      ensures var next := if id in cache then changeSet + [Entry(cache[id], MarkAsDeleted(t, id))] else changeSet;
              Lists(t, cache, next, done + [id])
    {
      assert Elements(done + [id]) == Elements(done) + {id};
      if id in cache {
        EntryIdsSnoc(changeSet, Entry(cache[id], MarkAsDeleted(t, id)));
      }
    }

    /** The models of the ids done are marked, which they could be; the others are as they were. */
    ghost predicate MarkedUpTo(s: Snapshot, t: string, done: seq<string>)
      requires t in s.caches
      reads s.caches[t].Values`raw, s.caches[t].Values`preparedState
    {
      forall id :: id in s.caches[t] ==> MarkedIf(s, s.caches[t][id], id, id in done)
    }

    ghost predicate MarkedIf(s: Snapshot, m: Model, id: string, done: bool)
      reads m`raw, m`preparedState
    {
      && m in s.raws && m in s.states && s.raws[m].id == id
      && if done then s.states[m] == Unprepared && IsMarked(m, s.raws[m])
         else m.raw == s.raws[m] && m.preparedState == s.states[m]
    }

    /** The loop over the destroyed ids. */
    method MarkSelected(t: string, ids: seq<string>, permanently: bool, ghost s: Snapshot)
      returns (ok: bool, changeSet: seq<Entry<Model>>)
      requires t in collections && t in s.caches && s.caches[t] == collections[t].records && MarkedUpTo(s, t, [])
      requires NoneDisposable(SelectedModels(t, ids))
      modifies SelectedModels(t, ids)`raw, SelectedModels(t, ids)`preparedState
      ensures ok <==> CanMark(s, t, ids)
      ensures MarkedUpTo(s, t, MarkedIds(s, t, ids))
      ensures ok ==> Lists(t, s.caches[t], changeSet, ids)
    {
      ok, changeSet := true, [];
      assert forall id :: id in s.caches[t] && id in ids ==> s.caches[t][id] in SelectedModels(t, ids);
      for i := 0 to |ids|
        invariant MarkedUpTo(s, t, ids[..i]) && CanMark(s, t, ids[..i])
        invariant Lists(t, s.caches[t], changeSet, ids[..i])
      {
        assert ids[..i + 1] == ids[..i] + [ids[i]];
        ok, changeSet := MarkId(t, ids[i], permanently, s, ids[..i], changeSet);
        if !ok {
          MarkedUntil(s, t, ids, i);
          return;
        }
      }
      assert ids[..|ids|] == ids;
    }

    method MarkId(t: string, id: string, permanently: bool, ghost s: Snapshot, ghost done: seq<string>,
                  changeSet: seq<Entry<Model>>) returns (ok: bool, next: seq<Entry<Model>>)
      requires t in collections && t in s.caches && s.caches[t] == collections[t].records
      requires MarkedUpTo(s, t, done) && CanMark(s, t, done) && Lists(t, s.caches[t], changeSet, done)
      requires id in s.caches[t] ==> s.raws[s.caches[t][id]].status != Disposable
      modifies (if id in collections[t].records then {collections[t].records[id]} else {})`raw
      modifies (if id in collections[t].records then {collections[t].records[id]} else {})`preparedState
      ensures ok <==> CanMark(s, t, done + [id])
      ensures MarkedUpTo(s, t, if ok then done + [id] else done)
      ensures ok ==> Lists(t, s.caches[t], next, done + [id])
    {
      ok, next := true, changeSet;
      NextDrop(t, s.caches[t], changeSet, done, id);
      if id in collections[t].records {
        var m := collections[t].records[id];
        assert MarkedIf(s, m, id, id in done);
        ok := MarkOne(m, permanently);
        next := changeSet + [Entry(m, MarkAsDeleted(t, id))];
      }
    }

    /** `unsafeResetDatabase`, from the adapter's reset on. */
    method UnsafeReset()
      requires Shape()
      modifies native`store, native`cachedRecords, collections.Values
      ensures Agrees() && Stale() == {} && native.cachedRecords == {}
      ensures forall t :: t in collections ==> collections[t].records == map[] && native.store[t] == map[]
    {
      native.UnsafeReset();
      ClearCaches();
      forall t | t in collections
        ensures TableFits(t)
      {
      }
    }

    method ClearCaches()
      modifies collections.Values
      ensures forall t :: t in collections ==> collections[t].records == map[]
    {
      var rest := collections.Keys;
      while rest != {}
        invariant rest <= collections.Keys
        invariant forall t :: t in collections && t !in rest ==> collections[t].records == map[]
        decreases rest
      {
        var t :| t in rest;
        collections[t].UnsafeClear();
        rest := rest - {t};
      }
    }

    /** The native set may be emptied at any time, and doing so restores agreement. */
    method ClearCachedRecords()
      requires Shape() && Kept()
      modifies native`cachedRecords
      ensures Agrees() && native.cachedRecords == {} && Stale() == old(Stale())
    {
      native.ClearCachedRecords();
      forall t | t in collections
        ensures TableFits(t)
      {
        assert old(TableFits(t));
      }
    }
  }
}
