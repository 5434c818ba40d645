/** What the steps of a run come to, command by command, in terms of rows, records and prepared changes. */
module DatabaseSteps {
  import opened Sequences
  import opened RawRecords
  import opened ChangeTracking
  import opened BatchEncoding
  import opened CacheKeys
  import opened BridgeTheory
  import opened NativeRecords
  import opened Models
  import opened RecordCaches
  import opened BridgeSnapshots
  import opened Submissions
  import opened DatabaseTraces

  // ---- Batches ----

  /** The held records of these numbers. */
  function HeldAt(a: Moment, which: seq<nat>): seq<Model>
    requires forall i :: 0 <= i < |which| ==> which[i] < |a.held|
  {
    seq(|which|, i requires 0 <= i < |which| => a.held[which[i]])
  }

  /** The records and the changes prepared of them. */
  ghost function SubmittedAt(a: Moment, records: seq<Model>): seq<Submission>
    requires forall m :: m in records ==> m in a.raws && m in a.states
  {
    seq(|records|, i requires 0 <= i < |records| =>
      Submission(records[i].table, a.raws[records[i]], a.states[records[i]]))
  }

  function SideOf(a: Moment): Side<Model> {
    Side(a.store, a.sent, a.caches)
  }

  /** Every record has a prepared change, none to update or destroy is submitted twice, and what is created is
      new. */
  ghost predicate GoesThrough(a: Moment, records: seq<Model>)
    requires forall m :: m in records ==> m in a.raws && m in a.states
  {
    && (forall i :: 0 <= i < |records| ==> a.states[records[i]] != Unprepared)
    && (forall i, j :: 0 <= i < j < |records| && records[i] == records[j] ==> a.states[records[i]] == PreparedCreate)
    && CreatesAreNew(a.store, SubmittedAt(a, records))
  }

  lemma {:induction false} ChosenIsHeld(a: Moment, which: seq<nat>)
    requires forall i :: 0 <= i < |which| ==> which[i] < |a.held|
    ensures Chosen(a.held, which) == HeldAt(a, which)
  {
    if which == [] {
    } else {
      var front := which[..|which| - 1];
      ChosenIsHeld(a, front);
      assert HeldAt(a, which) == HeldAt(a, front) + [a.held[Last(which)]];
    }
  }

  lemma SubmittedIsPlanned(schema: Schema, a: Moment, records: seq<Model>)
    requires Coherent(schema, a) && forall m :: m in records ==> m in a.held
    ensures Covers(a.Snap(), records) && forall m :: m in records ==> m in a.raws && m in a.states
    ensures var xs := SubmittedAt(a, records);
            && EntriesFor(records, xs) == Planned(a.Snap(), records)
            && OperationsFor(xs) == Operations(Planned(a.Snap(), records))
            && (forall i :: 0 <= i < |xs| ==> xs[i].table in schema)
            && (AllPrepared(a.Snap(), records) ==> IsPrepared(xs))
  {
    assert forall i :: 0 <= i < |records| ==> records[i] in records;
  }

  lemma SucceedsIffItGoesThrough(schema: Schema, a: Moment, records: seq<Model>, commits: bool)
    requires Coherent(schema, a) && forall m :: m in records ==> m in a.held
    ensures Covers(a.Snap(), records) && forall m :: m in records ==> m in a.raws && m in a.states
    ensures BatchSucceeds(schema, a, records, commits) <==> commits && GoesThrough(a, records)
  {
    var xs := SubmittedAt(a, records);
    SubmittedIsPlanned(schema, a, records);
    if AllPrepared(a.Snap(), records) {
      GoesThroughIff(schema, a.store, xs);
    }
  }

  lemma DoneInStep(schema: Schema, a: Moment, records: seq<Model>, b: Moment)
    requires Coherent(schema, a) && (forall m :: m in records ==> m in a.held) && Covers(a.Snap(), records)
    requires BatchSucceeds(schema, a, records, true) && b == AfterBatch(schema, a, records, true)
    ensures forall m :: m in records ==> m in a.raws && m in a.states
    ensures IsDone(schema, SideOf(a), SideOf(b), records, SubmittedAt(a, records))
    ensures AllCarriedOut(schema, SideOf(b), records, SubmittedAt(a, records))
  {
    var xs := SubmittedAt(a, records);
    SubmittedIsPlanned(schema, a, records);
    SubmissionsAreDone(schema, SideOf(a), SideOf(b), records, xs);
    forall i | IsLast(xs, i)
      ensures IsCarriedOut(schema, SideOf(b), xs[i], records[i])
    {
      assert records[i] in records;
      LastIsCarriedOut(schema, SideOf(a), SideOf(b), records, xs, i);
    }
  }

  /** A batch of held records: whether it succeeds, and for every record what becomes of its row, of its cached
      model and of the native side's belief that it was sent. A batch that fails changes none of these. */
  lemma BatchStep(schema: Schema, a: Moment, which: seq<nat>, json: bool, commits: bool, b: Moment)
    requires Stepped(schema, a, Batch(which, json, commits), b)
    requires forall i :: 0 <= i < |which| ==> which[i] < |a.held|
    ensures forall m :: m in HeldAt(a, which) ==> m in a.raws && m in a.states
    ensures b.raws == a.raws && b.held == a.held && b.states.Keys == a.states.Keys
    ensures var records := HeldAt(a, which);
            var xs := SubmittedAt(a, records);
            if commits && GoesThrough(a, records) then
              && IsDone(schema, SideOf(a), SideOf(b), records, xs) && AllCarriedOut(schema, SideOf(b), records, xs)
              && forall m :: m in a.states ==> b.states[m] == if m in records then Unprepared else a.states[m]
            else
              SideOf(b) == SideOf(a)
  {
    var records := HeldAt(a, which);
    ChosenIsHeld(a, which);
    SucceedsIffItGoesThrough(schema, a, records, commits);
    if commits && GoesThrough(a, records) {
      DoneInStep(schema, a, records, b);
    }
  }

  // ---- Mass destroys ----

  lemma {:induction false} ExistingIs(rows: map<string, StoredRow>, wanted: seq<string>)
    ensures forall id :: id in Existing(rows, wanted) <==> id in wanted && id in rows
    ensures (forall id :: id in wanted ==> id in rows) ==> Existing(rows, wanted) == wanted
  {
    if wanted == [] {
    } else {
      var front := wanted[..|wanted| - 1];
      ExistingIs(rows, front);
      assert wanted == front + [Last(wanted)];
    }
  }

  function Gone(rows: map<string, StoredRow>, wanted: seq<string>): set<string> {
    set id | id in wanted && id in rows
  }

  lemma ExistingAreGone(rows: map<string, StoredRow>, wanted: seq<string>)
    ensures Elements(Existing(rows, wanted)) == Gone(rows, wanted)
  {
    ExistingIs(rows, wanted);
  }

  /** No wanted record with a row is cached as a model with a prepared change. */
  ghost predicate NonePending(a: Moment, t: string, wanted: seq<string>)
    requires t in a.caches && t in a.store && forall id :: id in a.caches[t] ==> a.caches[t][id] in a.states
  {
    forall id :: id in a.caches[t] && id in wanted && id in a.store[t] ==> a.states[a.caches[t][id]] == Unprepared
  }

  lemma MassDestroyFollows(schema: Schema, a: Moment, t: string, wanted: seq<string>, permanently: bool,
                           commits: bool, b: Moment)
    requires Follows(schema, a, MassDestroy(t, wanted, permanently, commits), b) && t in schema
    ensures t in a.store && t in a.caches && forall id :: id in a.caches[t] ==> a.caches[t][id] in a.states
    ensures b == AfterMassDestroy(a, t, Existing(a.store[t], wanted), permanently, commits)
  {
    CachedHaveStates(schema, a, t);
  }

  lemma CanMarkIff(a: Moment, t: string, wanted: seq<string>)
    requires t in a.caches && t in a.store && forall id :: id in a.caches[t] ==> a.caches[t][id] in a.states
    ensures CanMark(a.Snap(), t, Existing(a.store[t], wanted)) <==> NonePending(a, t, wanted)
  {
    ExistingIs(a.store[t], wanted);
  }

  lemma MassDestroyIs(a: Moment, t: string, selected: seq<string>, permanently: bool, gone: set<string>, free: bool)
    requires t in a.caches && t in a.store
    requires gone == Elements(selected) && (free <==> CanMark(a.Snap(), t, selected))
    ensures var b := AfterMassDestroy(a, t, selected, permanently, true);
            && AreDestroyed(a.store, t, gone, permanently, b.store)
            && b.sent == a.sent - (set id | id in gone :: CacheKey(t, id))
            && b.caches == a.caches[t := if free then a.caches[t] - gone else a.caches[t]]
            && b.held == a.held && b.states == a.states
  {
    DestroyedIs(a.store, t, gone, permanently);
    assert a.caches[t := a.caches[t]] == a.caches;
    assert CacheKeysOf(t, selected) == set id | id in gone :: CacheKey(t, id);
  }

  /** A mass destroy that is committed: exactly the wanted rows of the table are gone, or marked as deleted and
      otherwise as they were; exactly their ids are not believed to be sent any more; and unless it stops at a
      prepared change exactly their models are dropped. One that is not committed changes nothing. */
  lemma MassDestroyStep(schema: Schema, a: Moment, t: string, wanted: seq<string>, permanently: bool, commits: bool,
                        b: Moment)
    requires Follows(schema, a, MassDestroy(t, wanted, permanently, commits), b) && t in schema
    ensures t in a.store && t in a.caches && forall id :: id in a.caches[t] ==> a.caches[t][id] in a.states
    ensures !commits ==> b == a
    ensures commits ==>
              var gone := Gone(a.store[t], wanted);
              && AreDestroyed(a.store, t, gone, permanently, b.store)
              && b.sent == a.sent - (set id | id in gone :: CacheKey(t, id))
              && b.caches == a.caches[t := if NonePending(a, t, wanted) then a.caches[t] - gone else a.caches[t]]
              && b.held == a.held && b.states == a.states
  {
    MassDestroyFollows(schema, a, t, wanted, permanently, commits, b);
    ExistingAreGone(a.store[t], wanted);
    CanMarkIff(a, t, wanted);
    var gone := Gone(a.store[t], wanted);
    MassDestroyIs(a, t, Existing(a.store[t], wanted), permanently, gone, NonePending(a, t, wanted));
  }

  // ---- Reads ----

  /** The cached model of the record, as it was; or a new one of what its row loads as. */
  ghost predicate IsModelOf(schema: Schema, a: Moment, t: string, id: string, b: Moment, m: Model) {
    && t in schema && t in a.caches && t in a.store && m in b.raws && m in b.states
    && if id in a.caches[t] then
         m == a.caches[t][id] && m in a.raws && m in a.states && b.raws[m] == a.raws[m] && b.states[m] == a.states[m]
       else
         && m !in a.raws && id in a.store[t] && |a.store[t][id].columns| == |schema[t]|
         && b.raws[m] == Loaded(schema[t], id, a.store[t][id]) && b.states[m] == Unprepared
  }

  lemma CachedIsModelOf(schema: Schema, a: Moment, t: string, ids: set<string>, b: Moment, id: string)
    requires a.Owned(schema) && CachesRows(schema, a, t, ids, b) && id in ids
    ensures id in b.caches[t] && IsModelOf(schema, a, t, id, b, b.caches[t][id])
  {
    if id !in a.caches[t] {
      assert LoadsRow(schema, a, t, id, b, b.caches[t][id]);
    }
  }

  lemma FetchFollows(schema: Schema, a: Moment, t: string, wanted: seq<string>, steps: nat, compressed: bool, b: Moment)
    requires Follows(schema, a, Fetch(t, wanted, steps, compressed), b) && t in schema
    ensures t in a.store && t in a.caches && a.Owned(schema)
    ensures Fetched(schema, a, t, Existing(a.store[t], wanted), steps, b)
  {
  }

  lemma FetchedIs(schema: Schema, a: Moment, t: string, wanted: seq<string>, steps: nat, b: Moment)
    requires Fetched(schema, a, t, wanted, steps, b) && |wanted| <= steps && t in a.caches
    ensures CachesRows(schema, a, t, Elements(wanted), b) && b.sent == a.sent + CacheKeysOf(t, wanted)
    ensures HoldsAlso(a.held, b.caches[t], wanted, b.held)
  {
  }

  /** A query for rows that are there: the program holds one model for each, in order. It is the cached one if there
      was one; else it is new, and holds what its row loads as. */
  lemma FetchStep(schema: Schema, a: Moment, t: string, wanted: seq<string>, steps: nat, compressed: bool, b: Moment)
    requires Follows(schema, a, Fetch(t, wanted, steps, compressed), b) && t in schema && |wanted| <= steps
    requires t in a.store && forall id :: id in wanted ==> id in a.store[t]
    ensures b.store == a.store && t in b.caches
    ensures |b.held| == |a.held| + |wanted| && a.held <= b.held
    ensures forall i :: 0 <= i < |wanted| ==>
              && wanted[i] in b.caches[t] && b.held[|a.held| + i] == b.caches[t][wanted[i]]
              && IsModelOf(schema, a, t, wanted[i], b, b.caches[t][wanted[i]])
              && CacheKey(t, wanted[i]) in b.sent
  {
    FetchFollows(schema, a, t, wanted, steps, compressed, b);
    ExistingIs(a.store[t], wanted);
    FetchedIs(schema, a, t, wanted, steps, b);
    FetchedModels(schema, a, t, wanted, b);
  }

  lemma FetchedModels(schema: Schema, a: Moment, t: string, wanted: seq<string>, b: Moment)
    requires a.Owned(schema) && CachesRows(schema, a, t, Elements(wanted), b)
    requires b.sent == a.sent + CacheKeysOf(t, wanted)
    ensures forall i :: 0 <= i < |wanted| ==>
              && wanted[i] in b.caches[t] && IsModelOf(schema, a, t, wanted[i], b, b.caches[t][wanted[i]])
              && CacheKey(t, wanted[i]) in b.sent
  {
    forall i | 0 <= i < |wanted|
      ensures wanted[i] in b.caches[t] && IsModelOf(schema, a, t, wanted[i], b, b.caches[t][wanted[i]])
    {
      CachedIsModelOf(schema, a, t, Elements(wanted), b, wanted[i]);
    }
  }

  lemma FindFollows(schema: Schema, a: Moment, t: string, id: string, b: Moment)
    requires Follows(schema, a, Find(t, id), b) && t in schema
    ensures t in a.store && t in a.caches && a.Owned(schema) && Found(schema, a, t, id, b)
  {
  }

  /** Finding a record: there is a model if and only if it is cached or has a row. */
  lemma FindStep(schema: Schema, a: Moment, t: string, id: string, b: Moment)
    requires Follows(schema, a, Find(t, id), b) && t in schema
    ensures b.store == a.store && t in a.caches && t in a.store && t in b.caches
    ensures if id in a.caches[t] || id in a.store[t] then
              && id in b.caches[t] && b.held == a.held + [b.caches[t][id]]
              && IsModelOf(schema, a, t, id, b, b.caches[t][id])
            else b == a
  {
    FindFollows(schema, a, t, id, b);
    if id !in a.caches[t] && id in a.store[t] {
      CachedIsModelOf(schema, a, t, {id}, b, id);
    }
  }

  // ---- Changes of one record ----

  /** Everything but the model `m` is as it was. */
  ghost predicate OnlyChanges(a: Moment, b: Moment, m: Model) {
    && SideOf(b) == SideOf(a) && b.held == a.held && m in a.raws && m in a.states && m in b.raws && m in b.states
    && b.raws == a.raws[m := b.raws[m]] && b.states == a.states[m := b.states[m]]
    && b.editing - {m} == a.editing - {m}
  }

  lemma WithChangesOnly(a: Moment, m: Model, raw: RawRecord, state: PreparedState, editing: bool)
    requires m in a.raws && m in a.states
    ensures var b := With(a, m, raw, state, editing);
            OnlyChanges(a, b, m) && b.raws[m] == raw && b.states[m] == state && (m in b.editing <==> editing)
  {
  }

  /** A change of a held record does what the lemmas below say of that record. */
  lemma ChangeFollows(schema: Schema, a: Moment, command: Command, b: Moment)
    requires Follows(schema, a, command, b) && IsChange(command) && IsApplicable(a.held, command)
    ensures var m := a.held[command.which];
            && m in a.raws && m in a.states && m.table in schema && m.columns == ColumnMap(schema[m.table])
            && Sanitized(a.raws[m], schema[m.table]) && b == AfterChange(a, command)
  {
    assert a.held[command.which] in a.held;
  }

  /** An update: a record without a prepared change is edited, and has one unless the updater throws. One that is
      deleted refuses every assignment, and one with a prepared change the whole update. */
  lemma EditStep(a: Moment, m: Model, columns: seq<Column>, edits: Edits, throws: bool)
    requires m in a.raws && m in a.states && m.columns == ColumnMap(columns) && Sanitized(a.raws[m], columns)
    requires ValidColumns(m.columns) && KnownColumns(edits, m.columns)
    ensures var b := AfterEdit(a, m, edits, throws);
            && OnlyChanges(a, b, m) && HasFields(a.raws[m], m.columns)
            && (if a.states[m] == Unprepared && a.raws[m].status != Deleted
                then EditedExactly(a.raws[m], b.raws[m], m.columns, edits) else b.raws[m] == a.raws[m])
            && (a.states[m] != Unprepared ==> b.states[m] == a.states[m] && b.editing == a.editing)
            && (a.states[m] == Unprepared ==>
                  var ok := !throws && (a.raws[m].status == Deleted ==> edits == []);
                  b.states[m] == (if ok then PreparedUpdate else Unprepared) && (m in b.editing <==> !ok))
  {
    var raw, state, b := a.raws[m], a.states[m], AfterEdit(a, m, edits, throws);
    SanitizedHasFields(raw, columns);
    EditsAreExact(raw, m.columns, edits);
    WithChangesOnly(a, m, b.raws[m], b.states[m], m in b.editing);
  }

  /** What an assignment to the model leaves: what it was unless the model is being edited and not deleted; and the
      column is listed if its value changes and the record is not yet to be created. */
  ghost predicate IsAssigned(a: Moment, m: Model, column: string, value: Value, raw: RawRecord)
    requires m in a.raws && m in a.states && column in m.columns && HasFields(a.raws[m], m.columns)
  {
    var before, after := a.raws[m], Sanitize(value, m.columns[column]);
    if m !in a.editing || before.status == Deleted then raw == before
    else if a.states[m] == PreparedCreate || before.fields[column] == after
    then raw == before.(fields := before.fields[column := after])
    else raw == RawRecord(before.id, if before.status == Created then Created else Updated,
                          AddToRawSet(before.changed, column), before.fields[column := after])
  }

  /** An assignment outside any updater. */
  lemma SetStep(a: Moment, m: Model, columns: seq<Column>, column: string, value: Value)
    requires m in a.raws && m in a.states && m.columns == ColumnMap(columns) && Sanitized(a.raws[m], columns)
    requires column in m.columns
    ensures var b := AfterSet(a, m, column, value);
            && OnlyChanges(a, b, m) && b.states[m] == a.states[m] && b.editing == a.editing
            && HasFields(a.raws[m], m.columns) && IsAssigned(a, m, column, value, b.raws[m])
  {
    var raw, edits, b := a.raws[m], [(column, value)], AfterSet(a, m, column, value);
    SanitizedHasFields(raw, columns);
    assert edits[..0] == [] && EditAll(raw, m.columns, []) == raw;
    WithChangesOnly(a, m, b.raws[m], b.states[m], m in b.editing);
    assert b.editing == a.editing;
  }

  /** Marking as deleted and destroying. */
  lemma DeleteStep(a: Moment, m: Model, permanently: bool)
    requires m in a.raws && m in a.states
    ensures var b := AfterDelete(a, m, permanently);
            && OnlyChanges(a, b, m) && b.editing == a.editing
            && if a.states[m] == Unprepared then
                 && b.raws[m] == RawRecord(a.raws[m].id, Deleted, a.raws[m].changed, a.raws[m].fields)
                 && b.states[m] == if permanently then PreparedDestroyPermanently else PreparedMarkAsDeleted
               else b.raws[m] == a.raws[m] && b.states[m] == a.states[m]
  {
    var b := AfterDelete(a, m, permanently);
    WithChangesOnly(a, m, b.raws[m], b.states[m], m in b.editing);
    assert b.editing == a.editing;
  }

  lemma NewRecordFollows(schema: Schema, a: Moment, t: string, timestamps: DirtyRaw, randomId: string, edits: Edits,
                         b: Moment)
    requires Follows(schema, a, NewRecord(t, timestamps, randomId, edits), b) && t in schema && "id" !in timestamps
    requires KnownColumns(edits, ColumnMap(schema[t]))
    ensures IsNew(a, t, Built(schema[t], timestamps, randomId, edits), b)
  {
  }

  /** A new record has the given id, the values that its builder assigns last, and lists what was assigned. */
  lemma NewRecordStep(schema: Schema, a: Moment, t: string, timestamps: DirtyRaw, randomId: string, edits: Edits,
                      b: Moment)
    requires Follows(schema, a, NewRecord(t, timestamps, randomId, edits), b) && t in schema && "id" !in timestamps
    requires DistinctNames(schema[t]) && ValidColumns(ColumnMap(schema[t]))
    requires KnownColumns(edits, ColumnMap(schema[t]))
    ensures SideOf(b) == SideOf(a) && |b.held| == |a.held| + 1 && a.held <= b.held
    ensures var m := Last(b.held);
            && m !in a.raws && m in b.raws && m in b.states && m.table == t && b.states[m] == PreparedCreate
            && IsBuilt(b.raws[m], schema[t], timestamps, randomId, edits)
  {
    NewRecordFollows(schema, a, t, timestamps, randomId, edits, b);
    BuiltIs(schema[t], timestamps, randomId, edits);
  }

  ghost predicate IsBuilt(raw: RawRecord, columns: seq<Column>, timestamps: DirtyRaw, randomId: string, edits: Edits)
    requires KnownColumns(edits, ColumnMap(columns))
  {
    var blank := SanitizedRaw(timestamps, columns, randomId);
    && raw.id == randomId && raw.status == Created && HasFields(blank, ColumnMap(columns))
    && (forall name :: name in ColumnMap(columns) ==>
          name in raw.fields && raw.fields[name] == Assigned(blank, ColumnMap(columns), edits, name))
    && forall name :: name in Names(raw.changed) <==> exists k :: 0 <= k < |edits| && edits[k].0 == name
  }

  lemma BuiltIs(columns: seq<Column>, timestamps: DirtyRaw, randomId: string, edits: Edits)
    requires DistinctNames(columns) && "id" !in timestamps
    requires ValidColumns(ColumnMap(columns)) && KnownColumns(edits, ColumnMap(columns))
    ensures IsBuilt(Built(columns, timestamps, randomId, edits), columns, timestamps, randomId, edits)
  {
    var blank, map' := SanitizedRaw(timestamps, columns, randomId), ColumnMap(columns);
    SanitizedRawIsSanitized(timestamps, columns, randomId);
    SanitizedHasFields(blank, columns);
    SetAllAssigns(blank, columns, edits);
    NamesAreKnown(map', edits);
    BuiltRecordListsItsColumns(SetAll(blank, map', edits), EditedNames(edits));
    MarkAllKeepsFields(SetAll(blank, map', edits), EditedNames(edits));
  }

  lemma SetAllAssigns(raw: RawRecord, columns: seq<Column>, edits: Edits)
    requires Sanitized(raw, columns) && DistinctNames(columns) && KnownColumns(edits, ColumnMap(columns))
    requires HasFields(raw, ColumnMap(columns))
    ensures var after := SetAll(raw, ColumnMap(columns), edits);
            && after.id == raw.id && after.status == raw.status && after.changed == raw.changed
            && forall name :: name in ColumnMap(columns) ==>
                 name in after.fields && after.fields[name] == Assigned(raw, ColumnMap(columns), edits, name)
  {
    SetAllKeepsSanitized(raw, columns, edits);
    SanitizedHasFields(SetAll(raw, ColumnMap(columns), edits), columns);
    EditAllSetsTheSame(raw, ColumnMap(columns), edits);
    SetAllKeepsChanged(raw, ColumnMap(columns), edits);
    forall name | name in ColumnMap(columns)
      ensures SetAll(raw, ColumnMap(columns), edits).fields[name] == Assigned(raw, ColumnMap(columns), edits, name)
    {
      EditsAssign(raw, ColumnMap(columns), edits, name);
    }
  }

  lemma NamesAreKnown(columns: Columns, edits: Edits)
    requires ValidColumns(columns) && KnownColumns(edits, columns)
    ensures forall name :: name in EditedNames(edits) ==> name != "" && ',' !in name
    ensures forall name :: name in EditedNames(edits) <==> exists k :: 0 <= k < |edits| && edits[k].0 == name
  {
    var names := EditedNames(edits);
    forall name
      ensures name in names <==> exists k :: 0 <= k < |edits| && edits[k].0 == name
    {
      if k :| 0 <= k < |edits| && edits[k].0 == name {
        assert names[k] == name;
      }
    }
  }

  lemma {:induction false} SetAllKeepsChanged(raw: RawRecord, columns: Columns, edits: Edits)
    requires KnownColumns(edits, columns)
    ensures SetAll(raw, columns, edits).changed == raw.changed
  {
    if edits == [] {
    } else {
      SetAllKeepsChanged(raw, columns, edits[..|edits| - 1]);
    }
  }

  // ---- Ordinary writes are safe ----

  predicate SameRecord(a: Moment, m: Model, other: Model)
    requires m in a.raws && other in a.raws
  {
    m.table == other.table && a.raws[m].id == a.raws[other].id
  }

  /** The batch updates records through their cached instances, and has one instance of each record. */
  ghost predicate ByCachedInstances(a: Moment, records: seq<Model>)
    requires forall m :: m in records ==> m in a.raws && m in a.states
  {
    && (forall m :: m in records && a.states[m] == PreparedUpdate ==>
          m.table in a.caches && a.raws[m].id in a.caches[m.table] && a.caches[m.table][a.raws[m].id] == m)
    && forall m, other :: m in records && other in records && SameRecord(a, m, other) ==> m == other
  }

  lemma EntryAt(a: Moment, records: seq<Model>, j: nat)
    requires Covers(a.Snap(), records) && j < |records|
    ensures records[j] in records
    ensures var e, m := Planned(a.Snap(), records)[j], records[j];
            && e.record == m && e.op.table == m.table && OperationId(e.op) == a.raws[m].id
            && (e.op.Update? <==> a.states[m] == PreparedUpdate)
  {
  }

  lemma DisplacesNone(a: Moment, records: seq<Model>, t: string, id: string, j: nat, m: Model)
    requires Covers(a.Snap(), records) && t in a.caches && j < |records|
    requires (forall m :: m in records ==> m in a.raws && m in a.states) && ByCachedInstances(a, records)
    requires id in Changes(a.caches[t], Planned(a.Snap(), records), t)
    requires m == Changes(a.caches[t], Planned(a.Snap(), records), t)[id]
    ensures !Displaces(Planned(a.Snap(), records)[j], t, id, m)
  {
    var entries := Planned(a.Snap(), records);
    EntryAt(a, records, j);
    ChangedFrom(a.caches[t], entries, t, id);
    if Displaces(entries[j], t, id, m) && !(id in a.caches[t] && m == a.caches[t][id]) {
      var k :| 0 <= k < |entries| && CreatedBy(entries[k], t, id) && entries[k].record == m;
      EntryAt(a, records, k);
    }
  }

  lemma NotDisplaced(schema: Schema, a: Moment, records: seq<Model>, t: string)
    requires Coherent(schema, a) && Covers(a.Snap(), records) && t in a.caches
    requires (forall m :: m in records ==> m in a.raws && m in a.states) && ByCachedInstances(a, records)
    ensures Undisplaced(a, records, t)
  {
    var entries := Planned(a.Snap(), records);
    var after := Changes(a.caches[t], entries, t);
    forall id, j | id in after && 0 <= j < |entries|
      ensures !Displaces(entries[j], t, id, after[id])
    {
      DisplacesNone(a, records, t, id, j, after[id]);
    }
  }

  /** A batch of prepared changes that SQLite commits is safe if it creates what is new, and updates records through
      their cached instances. */
  lemma OrdinaryBatchIsSafe(schema: Schema, a: Moment, which: seq<nat>, json: bool)
    requires Coherent(schema, a) && forall i :: 0 <= i < |which| ==> which[i] < |a.held|
    requires (forall m :: m in HeldAt(a, which) ==> m in a.raws && m in a.states)
    requires GoesThrough(a, HeldAt(a, which)) && ByCachedInstances(a, HeldAt(a, which))
    ensures Safe(schema, a, Batch(which, json, true))
  {
    var records := HeldAt(a, which);
    ChosenIsHeld(a, which);
    SucceedsIffItGoesThrough(schema, a, records, true);
    forall t | t in a.caches
      ensures Undisplaced(a, records, t)
    {
      NotDisplaced(schema, a, records, t);
    }
  }

  lemma CachedHaveStates(schema: Schema, a: Moment, t: string)
    requires a.Owned(schema) && t in schema
    ensures t in a.caches && t in a.store && forall id :: id in a.caches[t] ==> a.caches[t][id] in a.states
  {
  }

  /** A mass destroy is safe if and only if it is not committed, or no wanted record has a prepared change. */
  lemma OrdinaryMassDestroyIsSafe(schema: Schema, a: Moment, t: string, wanted: seq<string>, permanently: bool,
                                  commits: bool)
    requires a.Owned(schema) && t in schema && t in a.caches && t in a.store
    requires forall id :: id in a.caches[t] ==> a.caches[t][id] in a.states
    ensures Safe(schema, a, MassDestroy(t, wanted, permanently, commits)) <==> !commits || NonePending(a, t, wanted)
  {
    CanMarkIff(a, t, wanted);
  }
}
