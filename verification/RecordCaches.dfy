/** The JavaScript side: one identity map of models per collection. */
module RecordCaches {
  import opened Sequences
  import opened Results
  import opened RawRecords
  import opened ChangeTracking
  import opened Models

  /** A query result after sanitizing: a bare id, or a raw record. */
  datatype CachedResult = CachedId(id: string) | CachedRaw(raw: RawRecord)

  function ResultId(r: CachedResult): string {
    match r case CachedId(id) => id case CachedRaw(raw) => raw.id
  }

  function ColumnMap(columns: seq<Column>): Columns {
    if columns == [] then map[]
    else
      var n := |columns| - 1;
      ColumnMap(columns[..n])[columns[n].name := columns[n]]
  }

  lemma {:induction false} ColumnMapNames(columns: seq<Column>, name: string)
    ensures name in ColumnMap(columns) <==> exists i :: 0 <= i < |columns| && columns[i].name == name
    ensures name in ColumnMap(columns) ==> ColumnMap(columns)[name] in columns && ColumnMap(columns)[name].name == name
  {
    if columns == [] {
    } else {
      var n := |columns| - 1;
      ColumnMapNames(columns[..n], name);
      if name in ColumnMap(columns[..n]) {
        var i :| 0 <= i < n && columns[..n][i].name == name;
        assert columns[i].name == name;
      } else {
        assert forall i :: 0 <= i < n ==> columns[..n][i] == columns[i];
      }
    }
  }

  /** A sanitized record has every column that edits may set. */
  lemma SanitizedHasFields(raw: RawRecord, columns: seq<Column>)
    requires Sanitized(raw, columns)
    ensures HasFields(raw, ColumnMap(columns))
  {
    forall name | name in ColumnMap(columns)
      ensures name in raw.fields
    {
      ColumnMapNames(columns, name);
    }
  }

  /** Edits through the column map keep a sanitized record sanitized. */
  lemma {:induction false} SetAllKeepsSanitized(raw: RawRecord, columns: seq<Column>, edits: Edits)
    requires Sanitized(raw, columns) && DistinctNames(columns) && KnownColumns(edits, ColumnMap(columns))
    ensures Sanitized(SetAll(raw, ColumnMap(columns), edits), columns)
    ensures SetAll(raw, ColumnMap(columns), edits).status == raw.status
            && SetAll(raw, ColumnMap(columns), edits).id == raw.id
  {
    if edits == [] {
    } else {
      SetAllKeepsSanitized(raw, columns, edits[..|edits| - 1]);
      var (name, value) := Last(edits);
      ColumnMapNames(columns, name);
      SanitizeFits(value, ColumnMap(columns)[name]);
    }
  }

  lemma {:induction false} EditAllSetsTheSame(raw: RawRecord, columns: Columns, edits: Edits)
    requires HasFields(raw, columns) && KnownColumns(edits, columns)
    ensures EditAll(raw, columns, edits).fields == SetAll(raw, columns, edits).fields
    ensures EditAll(raw, columns, edits).id == raw.id
    ensures EditAll(raw, columns, edits).status in {raw.status, EditedStatus(raw.status)}
  {
    if edits == [] {
    } else {
      EditAllSetsTheSame(raw, columns, edits[..|edits| - 1]);
    }
  }

  lemma {:induction false} MarkAllKeepsFields(raw: RawRecord, names: seq<string>)
    ensures MarkAll(raw, names).fields == raw.fields && MarkAll(raw, names).id == raw.id
    ensures MarkAll(raw, names).status in {raw.status, EditedStatus(raw.status)}
  {
    if names == [] {
    } else {
      MarkAllKeepsFields(raw, names[..|names| - 1]);
    }
  }

  /** A sanitized record can be edited, and stays sanitized. */
  lemma EditsKeepSanitized(raw: RawRecord, columns: seq<Column>, edits: Edits)
    requires Sanitized(raw, columns) && DistinctNames(columns) && KnownColumns(edits, ColumnMap(columns))
    requires raw.status != Disposable
    ensures HasFields(raw, ColumnMap(columns))
    ensures var edited := EditAll(raw, ColumnMap(columns), edits);
            Sanitized(edited, columns) && edited.id == raw.id && edited.status != Disposable
  {
    SanitizedHasFields(raw, columns);
    EditAllSetsTheSame(raw, ColumnMap(columns), edits);
    SetAllKeepsSanitized(raw, columns, edits);
  }

  lemma OneEditKeepsSanitized(raw: RawRecord, columns: seq<Column>, name: string, value: Value)
    requires Sanitized(raw, columns) && DistinctNames(columns) && name in ColumnMap(columns) && raw.status != Disposable
    ensures HasFields(raw, ColumnMap(columns))
    ensures var plain := raw.(fields := raw.fields[name := Sanitize(value, ColumnMap(columns)[name])]);
            var edited := Edit(raw, ColumnMap(columns), name, value);
            && Sanitized(plain, columns) && Sanitized(edited, columns)
            && edited.id == raw.id && edited.status != Disposable
            && Edited(raw, ColumnMap(columns), [(name, value)]) == edited
  {
    var edits := [(name, value)];
    SanitizedHasFields(raw, columns);
    EditsKeepSanitized(raw, columns, edits);
    SetAllKeepsSanitized(raw, columns, edits);
    assert edits[..0] == [];
    assert SetAll(raw, ColumnMap(columns), []) == raw && EditAll(raw, ColumnMap(columns), []) == raw;
  }

  class RecordCache {
    const table: string
    const columns: seq<Column>
    var records: map<string, Model>

    ghost predicate Valid()
      reads this, records.Values`raw
    {
      forall id :: id in records ==>
        records[id].raw.id == id && records[id].table == table && records[id].columns == ColumnMap(columns)
    }

    constructor (table: string, columns: seq<Column>)
      ensures Valid() && this.table == table && this.columns == columns && records == map[]
    {
      this.table, this.columns, records := table, columns, map[];
    }

    method Add(record: Model)
      modifies this
      ensures records == old(records)[record.raw.id := record]
    {
      records := records[record.raw.id := record];
    }

    method Delete(record: Model)
      modifies this
      ensures records == old(records) - {record.raw.id}
    {
      records := records - {record.raw.id};
    }

    method UnsafeClear()
      modifies this
      ensures records == map[]
    {
      records := map[];
    }

    /** `_cachedModelForId`, which throws when the id was sent but is not cached here. */
    method CachedModelForId(id: string) returns (r: Result<Model>)
      ensures r == if id in records then Ok(records[id]) else Thrown
    {
      r := if id in records then Ok(records[id]) else Thrown;
    }

    /** `_modelForRaw`: the cached instance if there is one, else a new one, which is then cached. */
    method ModelForRaw(raw: RawRecord) returns (m: Model)
      requires Valid()
      modifies this
      ensures Valid() && raw.id in records && m == records[raw.id]
      ensures raw.id in old(records) ==> records == old(records)
      ensures raw.id !in old(records) ==>
                && fresh(m) && m.raw == raw && m.IsUntouched()
                && records == old(records)[raw.id := m]
    {
      if raw.id in records {
        return records[raw.id];
      }
      m := new Model(table, ColumnMap(columns), raw);
      Add(m);
    }

    method RecordFromQueryResult(result: CachedResult) returns (r: Result<Model>)
      requires Valid()
      modifies this
      ensures Valid() && (r.Thrown? <==> result.CachedId? && result.id !in old(records))
      ensures r.Ok? ==> ResultId(result) in records && r.value == records[ResultId(result)]
      ensures ResultId(result) in old(records) || r.Thrown? ==> records == old(records)
      ensures r.Ok? && ResultId(result) !in old(records) ==>
                && result.CachedRaw? && records == old(records)[result.raw.id := r.value]
                && fresh(r.value) && r.value.raw == result.raw && r.value.IsUntouched()
    {
      match result
      case CachedId(id) => r := CachedModelForId(id);
      case CachedRaw(raw) =>
        var m := ModelForRaw(raw);
        r := Ok(m);
    }

    /** Every bare id is cached already, or was sent as a row earlier in the same result. */
    ghost predicate Resolvable(results: seq<CachedResult>)
      reads this
    {
      forall i :: 0 <= i < |results| && results[i].CachedId? ==>
          results[i].id in records || results[i].id in ResultIds(results[..i])
    }

    /** `recordsFromQueryResult`: cached models are handed out as they are, ids seen for the first time
        get a new model of the raw record that was sent for them. */
    method RecordsFromQueryResult(results: seq<CachedResult>) returns (r: Result<seq<Model>>)
      requires Valid() && Resolvable(results)
      modifies this
      ensures Valid() && r.Ok? && |r.value| == |results|
      ensures forall i :: 0 <= i < |results| ==>
                ResultId(results[i]) in records && r.value[i] == records[ResultId(results[i])]
      ensures records.Keys == old(records.Keys) + ResultIds(results)
      ensures forall id :: id in old(records) ==> records[id] == old(records)[id]
      ensures forall id :: id in records && id !in old(records) ==> FromRaw(records[id], results) && fresh(records[id])
    {
      var models: seq<Model> := [];
      ghost var before := records;
      for i := 0 to |results|
        invariant Valid() && Resolved(before, results[..i], models)
        invariant forall id :: id in records && id !in before ==> fresh(records[id])
      {
        assert results[..i + 1] == results[..i] + [results[i]];
        assert results[i].CachedId? ==> results[i].id in records;
        var m := ResolveNext(before, results[..i], models, results[i]);
        models := models + [m];
      }
      assert results[..|results|] == results;
      r := Ok(models);
    }

    /** What the results so far were resolved to. */
    ghost predicate Resolved(before: map<string, Model>, done: seq<CachedResult>, models: seq<Model>)
      reads this, records.Values
    {
      && |models| == |done| && records.Keys == before.Keys + ResultIds(done)
      && (forall j :: 0 <= j < |done| ==> ResultId(done[j]) in records && models[j] == records[ResultId(done[j])])
      && (forall id :: id in before ==> records[id] == before[id])
      && (forall id :: id in records && id !in before ==> FromRaw(records[id], done))
    }

    method ResolveNext(ghost before: map<string, Model>, ghost done: seq<CachedResult>, ghost models: seq<Model>,
                       result: CachedResult) returns (m: Model)
      requires Valid() && Resolved(before, done, models) && (result.CachedId? ==> result.id in records)
      modifies this
      ensures Valid() && Resolved(before, done + [result], models + [m])
      ensures forall id :: id in records && id !in old(records) ==> fresh(records[id])
      ensures forall id :: id in old(records) ==> id in records && records[id] == old(records)[id]
    {
      assert (done + [result])[..|done|] == done;
      var r := RecordFromQueryResult(result);
      m := r.value;
    }
  }

  function ResultIds(results: seq<CachedResult>): set<string> {
    if results == [] then {} else ResultIds(results[..|results| - 1]) + {ResultId(Last(results))}
  }

  /** The first raw record sent for `id`. */
  function RawFor(results: seq<CachedResult>, id: string): (raw: Option<RawRecord>)
    ensures id !in ResultIds(results) ==> raw == None
  {
    if results == [] then None
    else
      var earlier := RawFor(results[..|results| - 1], id);
      if earlier.None? && Last(results).CachedRaw? && Last(results).raw.id == id
      then Some(Last(results).raw)
      else earlier
  }

  /** A model made just now from the raw record that was sent for its id. */
  ghost predicate FromRaw(m: Model, results: seq<CachedResult>)
    reads m
  {
    m.IsUntouched() && RawFor(results, m.raw.id) == Some(m.raw)
  }
}
