/** Runs as values: what a program can see of a database at one moment, and what each command makes of it. */
module DatabaseTraces {
  import opened Sequences
  import opened RawRecords
  import opened BatchEncoding
  import opened CacheKeys
  import opened BridgeTheory
  import opened NativeRecords
  import opened Models
  import opened RecordCaches
  import opened BridgeSnapshots

  /** What a program may do next; records are named by their number among those that it holds. */
  datatype Command =
    | Fetch(table: string, wanted: seq<string>, steps: nat, compressed: bool)
    | Find(table: string, id: string)
    | NewRecord(table: string, timestamps: DirtyRaw, randomId: string, edits: Edits)
    | Edit(which: nat, edits: Edits, throws: bool)
    | Set(which: nat, column: string, value: Value)
    | Delete(which: nat, permanently: bool)
    | Batch(records: seq<nat>, json: bool, commits: bool)
    | MassDestroy(table: string, wanted: seq<string>, permanently: bool, commits: bool)
    | Reset
    | Forget

  /** The caches, the models that the program can reach, the rows, the ids believed to be sent, and the records
      that the program holds. */
  datatype Moment = Moment(
    caches: map<string, map<string, Model>>,
    raws: map<Model, RawRecord>,
    states: map<Model, PreparedState>,
    editing: set<Model>,
    store: Store,
    sent: set<string>,
    held: seq<Model>)
  {
    function Snap(): Snapshot {
      Snapshot(caches, raws, states, {})
    }

    /** Every model that is cached or held is among those known, and is one of its table. */
    ghost predicate Owned(schema: Schema) {
      && raws.Keys == states.Keys && editing <= raws.Keys
      && caches.Keys == schema.Keys && store.Keys == schema.Keys
      && (forall m :: m in held ==> m in raws)
      && (forall t, id :: t in caches && id in caches[t] ==> caches[t][id] in raws)
      && forall m :: m in raws ==> Fits(schema, raws[m], m, m.table)
    }

    /** Cache agreement: whatever id is believed to be sent, there is a model for. */
    ghost predicate Agrees() {
      AllCached(sent, caches)
    }

    /** The cached models that are out of step. */
    ghost function Stale(schema: Schema): set<Model> {
      set t, id | t in caches && id in caches[t] && !IsCurrent(schema, t, id, caches[t][id]) :: caches[t][id]
    }

    ghost predicate IsCurrent(schema: Schema, t: string, id: string, m: Model) {
      m in raws && m in states && Current(schema, store, t, id, raws[m], states[m])
    }
  }

  // ---- Reading ----

  /** Of the ids wanted, those that there are rows for. */
  function Existing(rows: map<string, StoredRow>, wanted: seq<string>): (selected: seq<string>)
    ensures forall i :: 0 <= i < |selected| ==> selected[i] in rows && selected[i] in wanted
  {
    if wanted == [] then []
    else Existing(rows, wanted[..|wanted| - 1]) + if Last(wanted) in rows then [Last(wanted)] else []
  }

  /** Models known before are as they were. */
  ghost predicate KeepsModels(a: Moment, b: Moment) {
    && b.raws.Keys == b.states.Keys && a.raws.Keys <= b.raws.Keys && b.editing == a.editing
    && forall m :: m in a.raws && m in a.states && m in b.states ==>
         b.raws[m] == a.raws[m] && b.states[m] == a.states[m]
  }

  /** Ids that were not cached get new models, of what their rows load as; everything else stays. */
  ghost predicate CachesRows(schema: Schema, a: Moment, t: string, ids: set<string>, b: Moment) {
    && t in schema && t in a.store && t in a.caches && b.store == a.store
    && b.caches == a.caches[t := if t in b.caches then b.caches[t] else map[]]
    && b.caches[t].Keys == a.caches[t].Keys + ids
    && (forall id :: id in a.caches[t] ==> b.caches[t][id] == a.caches[t][id])
    && KeepsModels(a, b) && b.raws.Keys == a.raws.Keys + b.caches[t].Values
    && forall id :: id in b.caches[t] && id !in a.caches[t] ==> LoadsRow(schema, a, t, id, b, b.caches[t][id])
  }

  ghost predicate LoadsRow(schema: Schema, a: Moment, t: string, id: string, b: Moment, m: Model) {
    && t in schema && t in a.store && id in a.store[t] && |a.store[t][id].columns| == |schema[t]|
    && m !in a.raws && m in b.raws && m in b.states
    && b.raws[m] == Loaded(schema[t], id, a.store[t][id]) && b.states[m] == Unprepared
  }

  /** A query: when it throws half-way, ids that were stepped are believed to be sent, or if that breaks the
      agreement the program has all of them forgotten. */
  ghost predicate Fetched(schema: Schema, a: Moment, t: string, selected: seq<string>, steps: nat, b: Moment) {
    if |selected| <= steps then
      && CachesRows(schema, a, t, Elements(selected), b) && b.sent == a.sent + CacheKeysOf(t, selected)
      && HoldsAlso(a.held, b.caches[t], selected, b.held)
    else
      && t in a.caches
      && b == a.(sent := if AllIn(Take(selected, steps), a.caches[t])
                         then a.sent + CacheKeysOf(t, Take(selected, steps)) else {})
  }

  predicate AllIn(ids: seq<string>, cache: map<string, Model>) {
    forall id :: id in ids ==> id in cache
  }

  /** The records of the ids, one after the other, are held as well. */
  ghost predicate HoldsAlso(held: seq<Model>, cache: map<string, Model>, ids: seq<string>, next: seq<Model>) {
    && |next| == |held| + |ids| && held <= next
    && forall i :: 0 <= i < |ids| ==> ids[i] in cache && next[|held| + i] == cache[ids[i]]
  }

  lemma RowsAreHeld(held: seq<Model>, cache: map<string, Model>, ids: seq<string>, models: seq<Model>)
    requires |models| == |ids| && forall i :: 0 <= i < |ids| ==> ids[i] in cache && models[i] == cache[ids[i]]
    ensures HoldsAlso(held, cache, ids, held + models)
  {
  }

  ghost predicate Found(schema: Schema, a: Moment, t: string, id: string, b: Moment) {
    && t in a.caches && t in a.store
    && if id in a.caches[t] then b == a.(held := a.held + [a.caches[t][id]])
       else if id in a.store[t] then
         && CachesRows(schema, a, t, {id}, b) && b.sent == a.sent + {CacheKey(t, id)}
         && b.held == a.held + [b.caches[t][id]]
       else b == a
  }

  lemma RowIsFound(schema: Schema, a: Moment, t: string, id: string, m: Model, b: Moment)
    requires CachesRows(schema, a, t, {id}, b) && a.Owned(schema) && id !in a.caches[t] && id in a.store[t]
    requires b.caches[t] == a.caches[t][id := m]
    requires b.sent == a.sent + {CacheKey(t, id)} && b.held == a.held + [m]
    ensures Found(schema, a, t, id, b) && forall x :: x in b.raws && x !in a.raws ==> x == m
  {
    assert b.caches[t].Values <= a.caches[t].Values + {m};
  }

  // ---- One record ----

  /** A new record is held, and not cached. */
  ghost predicate IsNew(a: Moment, t: string, raw: RawRecord, b: Moment) {
    && |b.held| == |a.held| + 1 && Last(b.held) !in a.raws && Last(b.held).table == t
    && b == a.(raws := a.raws[Last(b.held) := raw], states := a.states[Last(b.held) := PreparedCreate],
               held := a.held + [Last(b.held)])
  }

  /** The moment with one model changed. */
  function With(a: Moment, m: Model, raw: RawRecord, state: PreparedState, editing: bool): Moment {
    a.(raws := a.raws[m := raw], states := a.states[m := state],
       editing := if editing then a.editing + {m} else a.editing - {m})
  }

  lemma WithIsOwned(schema: Schema, a: Moment, m: Model, raw: RawRecord, state: PreparedState, editing: bool)
    requires a.Owned(schema) && m in a.raws && Fits(schema, raw, m, m.table)
    ensures With(a, m, raw, state, editing).Owned(schema)
  {
  }

  ghost function AfterEdit(a: Moment, m: Model, edits: Edits, throws: bool): Moment
    requires m in a.raws && m in a.states
  {
    var raw, state := a.raws[m], a.states[m];
    var ok := state == Unprepared && (raw.status == Deleted ==> edits == []) && !throws;
    With(a, m, if state == Unprepared && raw.status != Deleted then Edited(raw, m.columns, edits) else raw,
         if ok then PreparedUpdate else state, if state == Unprepared then !ok else m in a.editing)
  }

  ghost function AfterSet(a: Moment, m: Model, column: string, value: Value): Moment
    requires m in a.raws && m in a.states && column in m.columns
  {
    var raw, state := a.raws[m], a.states[m];
    var plain := raw.(fields := raw.fields[column := Sanitize(value, m.columns[column])]);
    var written := if state == PreparedCreate then plain else Edited(raw, m.columns, [(column, value)]);
    With(a, m, if m in a.editing && raw.status != Deleted then written else raw, state, m in a.editing)
  }

  function AfterDelete(a: Moment, m: Model, permanently: bool): Moment
    requires m in a.raws && m in a.states
  {
    var ok, raw := a.states[m] == Unprepared, a.raws[m];
    With(a, m, if ok then raw.(status := Deleted) else raw,
         if !ok then a.states[m] else if permanently then PreparedDestroyPermanently else PreparedMarkAsDeleted,
         m in a.editing)
  }

  // ---- Writing ----

  function Chosen(held: seq<Model>, which: seq<nat>): (records: seq<Model>)
    ensures forall m :: m in records ==> m in held
  {
    if which == [] then []
    else Chosen(held, which[..|which| - 1]) + if Last(which) < |held| then [held[Last(which)]] else []
  }

  ghost predicate BatchSucceeds(schema: Schema, a: Moment, records: seq<Model>, commits: bool)
    requires Covers(a.Snap(), records)
  {
    && commits && AllPrepared(a.Snap(), records)
    && ApplyAll(schema, a.store, Operations(Planned(a.Snap(), records))).Ok?
  }

  function StatesAfterBatch(a: Moment, records: seq<Model>): map<Model, PreparedState> {
    map m | m in a.states :: if m in records then Unprepared else a.states[m]
  }

  /** The records that a failing batch has taken up lose their prepared changes, but for new ones. */
  function StatesAfterFailure(a: Moment, taken: seq<Model>): map<Model, PreparedState> {
    map m | m in a.states :: if m in taken && a.states[m] != PreparedCreate then Unprepared else a.states[m]
  }

  ghost function AfterBatch(schema: Schema, a: Moment, records: seq<Model>, commits: bool): Moment
    requires Covers(a.Snap(), records)
  {
    var entries := Planned(a.Snap(), records);
    if BatchSucceeds(schema, a, records, commits) then
      a.(caches := map t | t in a.caches :: Changes(a.caches[t], entries, t),
         states := StatesAfterBatch(a, records),
         store := ApplyAll(schema, a.store, Operations(entries)).value,
         sent := a.sent + OperationKeys(Operations(entries), ADD_TO_CACHE)
                 - OperationKeys(Operations(entries), REMOVE_FROM_CACHE))
    else
      a.(states := StatesAfterFailure(a, TakenUp(a.Snap(), records)))
  }

  lemma BatchIsOwned(schema: Schema, a: Moment, records: seq<Model>, commits: bool)
    requires a.Owned(schema) && forall m :: m in records ==> m in a.raws
    requires AfterBatch(schema, a, records, commits).store.Keys == schema.Keys
    ensures AfterBatch(schema, a, records, commits).Owned(schema)
  {
    var b, entries := AfterBatch(schema, a, records, commits), Planned(a.Snap(), records);
    if BatchSucceeds(schema, a, records, commits) {
      forall t, id | t in b.caches && id in b.caches[t]
        ensures b.caches[t][id] in b.raws
      {
        ChangedFrom(a.caches[t], entries, t, id);
      }
    }
  }

  ghost function AfterMassDestroy(a: Moment, t: string, selected: seq<string>, permanently: bool, commits: bool): Moment
    requires t in a.caches && t in a.store
  {
    var s := a.Snap();
    if !commits then a
    else
      a.(caches := WithoutDropped(a.caches, t, Elements(selected), CanMark(s, t, selected)),
         raws := map m | m in a.raws ::
           if m in MarkedSet(s, t, selected) then a.raws[m].(status := Deleted) else a.raws[m],
         store := Destroyed(a.store, t, Elements(selected), permanently),
         sent := a.sent - CacheKeysOf(t, selected))
  }

  lemma MassDestroyIsOwned(schema: Schema, a: Moment, t: string, selected: seq<string>, permanently: bool,
                           commits: bool)
    requires a.Owned(schema) && t in schema
    ensures AfterMassDestroy(a, t, selected, permanently, commits).Owned(schema)
  {
    if commits {
      var b := AfterMassDestroy(a, t, selected, permanently, commits);
      MarkedFit(schema, a.raws, MarkedSet(a.Snap(), t, selected));
      forall u, id | u in b.caches && id in b.caches[u]
        ensures b.caches[u][id] in b.raws
      {
        assert id in a.caches[u] && b.caches[u][id] == a.caches[u][id];
      }
    }
  }

  lemma MarkedFit(schema: Schema, raws: map<Model, RawRecord>, marked: set<Model>)
    requires forall m :: m in raws ==> Fits(schema, raws[m], m, m.table)
    ensures var after := map m | m in raws :: if m in marked then raws[m].(status := Deleted) else raws[m];
            forall m :: m in raws ==> Fits(schema, after[m], m, m.table)
  {
  }

  function AfterReset(a: Moment): Moment {
    a.(caches := map t | t in a.caches :: map[], store := map t | t in a.store :: map[], sent := {})
  }

  // ---- Any command ----

  predicate IsChange(command: Command) {
    command.Edit? || command.Set? || command.Delete?
  }

  predicate IsRead(command: Command) {
    command.Fetch? || command.Find?
  }

  predicate IsWrite(command: Command) {
    command.Batch? || command.MassDestroy? || command.Reset? || command.Forget?
  }

  /** The command names a record that is held, and columns that it has. */
  predicate IsApplicable(held: seq<Model>, command: Command)
    requires IsChange(command)
  {
    && command.which < |held|
    && match command
       case Edit(which, edits, _) => KnownColumns(edits, held[which].columns)
       case Set(which, column, _) => column in held[which].columns
       case Delete(_, _) => true
  }

  /** Commands that name no table, record or column that there is do nothing. */
  predicate IsMeaningful(schema: Schema, held: seq<Model>, command: Command) {
    match command
    case Fetch(t, _, _, _) => t in schema
    case Find(t, _) => t in schema
    case NewRecord(t, timestamps, _, edits) =>
      t in schema && "id" !in timestamps && KnownColumns(edits, ColumnMap(schema[t]))
    case MassDestroy(t, _, _, _) => t in schema
    case _ => IsChange(command) ==> IsApplicable(held, command)
  }

  ghost function AfterChange(a: Moment, command: Command): Moment
    requires IsChange(command) && IsApplicable(a.held, command)
    requires forall m :: m in a.held ==> m in a.raws && m in a.states
  {
    var m := a.held[command.which];
    match command
    case Edit(_, edits, throws) => AfterEdit(a, m, edits, throws)
    case Set(_, column, value) => AfterSet(a, m, column, value)
    case Delete(_, permanently) => AfterDelete(a, m, permanently)
  }

  lemma ChangeKeepsModels(schema: Schema, a: Moment, command: Command)
    requires a.Owned(schema) && IsChange(command) && IsApplicable(a.held, command)
    ensures AfterChange(a, command).raws.Keys == a.raws.Keys
  {
  }

  ghost function AfterWrite(schema: Schema, a: Moment, command: Command): Moment
    requires a.Owned(schema) && IsWrite(command) && IsMeaningful(schema, a.held, command)
  {
    match command
    case Batch(which, _, commits) => AfterBatch(schema, a, Chosen(a.held, which), commits)
    case MassDestroy(t, wanted, permanently, commits) =>
      AfterMassDestroy(a, t, Existing(a.store[t], wanted), permanently, commits)
    case Reset => AfterReset(a)
    case Forget => a.(sent := {})
  }

  ghost predicate FollowsRead(schema: Schema, a: Moment, command: Command, b: Moment)
    requires a.Owned(schema) && IsRead(command) && IsMeaningful(schema, a.held, command)
  {
    match command
    case Fetch(t, wanted, steps, _) => Fetched(schema, a, t, Existing(a.store[t], wanted), steps, b)
    case Find(t, id) => Found(schema, a, t, id, b)
  }

  /** What a command does. */
  ghost predicate Follows(schema: Schema, a: Moment, command: Command, b: Moment) {
    && a.Owned(schema)
    && if !IsMeaningful(schema, a.held, command) then b == a
       else if IsRead(command) then FollowsRead(schema, a, command, b)
       else if command.NewRecord? then
         IsNew(a, command.table, Built(schema[command.table], command.timestamps, command.randomId, command.edits), b)
       else if IsChange(command) then b == AfterChange(a, command)
       else b == AfterWrite(schema, a, command)
  }

  function Built(columns: seq<Column>, timestamps: DirtyRaw, randomId: string, edits: Edits): RawRecord
    requires KnownColumns(edits, ColumnMap(columns))
  {
    MarkAll(SetAll(SanitizedRaw(timestamps, columns, randomId), ColumnMap(columns), edits), EditedNames(edits))
  }

  // ---- Commands that put no model out of step ----

  /** No model is left without a prepared change while its record was last written with other values. */
  ghost predicate Undisplaced(a: Moment, records: seq<Model>, t: string)
    requires Covers(a.Snap(), records) && t in a.caches
  {
    var entries := Planned(a.Snap(), records);
    var after := Changes(a.caches[t], entries, t);
    forall id :: id in after ==> !IsDisplaced(entries, t, id, after[id])
  }

  /** No updater throws, no assignment is to a record that a throwing updater has left in its editing state, a
      batch succeeds and updates records through their cached instances, and a mass destroy does not stop
      half-way. */
  ghost predicate Safe(schema: Schema, a: Moment, command: Command) {
    && a.Owned(schema)
    && match command
       case Edit(_, _, throws) => !throws
       case Set(which, _, _) => which < |a.held| ==> SafeSet(a, a.held[which])
       case Batch(which, _, commits) =>
         var records := Chosen(a.held, which);
         BatchSucceeds(schema, a, records, commits) && forall t :: t in a.caches ==> Undisplaced(a, records, t)
       case MassDestroy(t, wanted, _, commits) =>
         t in schema && commits ==> CanMark(a.Snap(), t, Existing(a.store[t], wanted))
       case _ => true
  }

  ghost predicate SafeSet(a: Moment, m: Model) {
    m in a.raws && m in a.states && m in a.editing && a.raws[m].status != Deleted ==> a.states[m] != Unprepared
  }

  // ---- Safe commands put no model out of step ----

  /** Models are cached in the collection of their table, under their ids. */
  ghost predicate Identified(a: Moment) {
    forall t, id :: t in a.caches && id in a.caches[t] ==>
      && a.caches[t][id] in a.raws && a.raws[a.caches[t][id]].id == id && a.caches[t][id].table == t
  }

  /** What holds of the moments of a run. */
  ghost predicate Coherent(schema: Schema, a: Moment) {
    && ValidSchema(schema) && WellFormed(schema, a.store) && a.Owned(schema) && Identified(a)
    && forall t, id :: t in a.caches && id in a.caches[t] ==> a.states[a.caches[t][id]] != PreparedCreate
  }

  lemma SafeCaching(schema: Schema, a: Moment, t: string, ids: set<string>, b: Moment)
    requires a.Owned(schema) && CachesRows(schema, a, t, ids, b)
    ensures b.Stale(schema) <= a.Stale(schema)
  {
    forall u, id | u in b.caches && id in b.caches[u] && !b.IsCurrent(schema, u, id, b.caches[u][id])
      ensures b.caches[u][id] in a.Stale(schema)
    {
      if u in a.caches && id in a.caches[u] {
        assert b.caches[u][id] == a.caches[u][id] && a.caches[u][id] in a.raws;
        assert !a.IsCurrent(schema, u, id, a.caches[u][id]);
      } else {
        assert LoadsRow(schema, a, t, id, b, b.caches[t][id]);
      }
    }
  }

  lemma SameModels(schema: Schema, a: Moment, b: Moment)
    requires b.caches == a.caches && b.store == a.store
    requires forall t, id :: t in a.caches && id in a.caches[t] ==>
               var m := a.caches[t][id];
               m in a.raws && m in a.states && m in b.raws && m in b.states && b.raws[m] == a.raws[m]
               && b.states[m] == a.states[m]
    ensures b.Stale(schema) <= a.Stale(schema)
  {
    forall t, id | t in b.caches && id in b.caches[t] && !b.IsCurrent(schema, t, id, b.caches[t][id])
      ensures b.caches[t][id] in a.Stale(schema)
    {
      assert !a.IsCurrent(schema, t, id, a.caches[t][id]);
    }
  }

  lemma SafeRead(schema: Schema, a: Moment, command: Command, b: Moment)
    requires a.Owned(schema) && IsRead(command) && IsMeaningful(schema, a.held, command)
    requires FollowsRead(schema, a, command, b)
    ensures b.Stale(schema) <= a.Stale(schema)
  {
    var t := command.table;
    if command.Fetch? {
      var selected := Existing(a.store[t], command.wanted);
      if |selected| <= command.steps {
        SafeCaching(schema, a, t, Elements(selected), b);
      } else {
        SameModels(schema, a, b);
      }
    } else if command.id !in a.caches[t] && command.id in a.store[t] {
      SafeCaching(schema, a, t, {command.id}, b);
    } else {
      SameModels(schema, a, b);
    }
  }

  /** A model that is changed has a prepared change, or is as it was. */
  lemma SafeWith(schema: Schema, a: Moment, m: Model, raw: RawRecord, state: PreparedState, editing: bool)
    requires a.Owned(schema) && m in a.raws
    requires state != Unprepared || (raw == a.raws[m] && state == a.states[m])
    ensures With(a, m, raw, state, editing).Stale(schema) <= a.Stale(schema)
  {
    var b := With(a, m, raw, state, editing);
    forall t, id | t in b.caches && id in b.caches[t] && !b.IsCurrent(schema, t, id, b.caches[t][id])
      ensures b.caches[t][id] in a.Stale(schema)
    {
      assert !a.IsCurrent(schema, t, id, a.caches[t][id]);
    }
  }

  lemma SafeChange(schema: Schema, a: Moment, command: Command)
    requires a.Owned(schema) && IsChange(command) && IsApplicable(a.held, command) && Safe(schema, a, command)
    ensures AfterChange(a, command).Stale(schema) <= a.Stale(schema)
  {
    var b, m := AfterChange(a, command), a.held[command.which];
    SafeWith(schema, a, m, b.raws[m], b.states[m], m in b.editing);
  }

  /** A batch that succeeds, and updates records through their cached instances. */
  lemma SafeBatch(schema: Schema, a: Moment, records: seq<Model>, commits: bool)
    requires Coherent(schema, a) && forall m :: m in records ==> m in a.raws
    requires BatchSucceeds(schema, a, records, commits) && forall t :: t in a.caches ==> Undisplaced(a, records, t)
    ensures AfterBatch(schema, a, records, commits).Stale(schema) <= a.Stale(schema)
  {
    var b := AfterBatch(schema, a, records, commits);
    var s := Snapshot(a.caches, a.raws, a.states, a.Stale(schema));
    SnapIsConsistent(schema, a);
    BatchKeepsConsistent(schema, s, a.store, records);
    forall t, id | t in b.caches && id in b.caches[t] && !b.IsCurrent(schema, t, id, b.caches[t][id])
      ensures b.caches[t][id] in a.Stale(schema)
    {
      var m := b.caches[t][id];
      assert Committed(s, records).InStep(schema, b.store, t, id) && Undisplaced(a, records, t);
      assert m !in Displaced(s, records);
    }
  }

  lemma SnapIsConsistent(schema: Schema, a: Moment)
    requires Coherent(schema, a)
    ensures Consistent(schema, Snapshot(a.caches, a.raws, a.states, a.Stale(schema)), a.store)
  {
    var s := Snapshot(a.caches, a.raws, a.states, a.Stale(schema));
    forall t, id | t in schema && id in s.caches[t]
      ensures s.InStep(schema, a.store, t, id)
    {
      assert a.IsCurrent(schema, t, id, a.caches[t][id]) || a.caches[t][id] in a.Stale(schema);
    }
  }

  lemma OthersAreUnmarked(a: Moment, t: string, selected: seq<string>, u: string, id: string)
    requires Identified(a) && t in a.caches && u in a.caches && id in a.caches[u] && (u != t || id !in selected)
    ensures a.caches[u][id] !in MarkedSet(a.Snap(), t, selected)
  {
  }

  lemma OtherRows(store: Store, t: string, ids: set<string>, permanently: bool, u: string, id: string)
    requires t in store && (u != t || id !in ids)
    ensures var after := Destroyed(store, t, ids, permanently);
            && (u in after <==> u in store)
            && (u in store ==> (id in after[u] <==> id in store[u]))
            && (u in store && id in store[u] ==> after[u][id] == store[u][id])
  {
  }

  lemma StaysCurrent(schema: Schema, a: Moment, t: string, selected: seq<string>, permanently: bool, u: string,
                     id: string)
    requires a.Owned(schema) && Identified(a) && t in schema
    requires u in a.caches && id in a.caches[u] && (u != t || id !in selected)
    requires a.IsCurrent(schema, u, id, a.caches[u][id])
    ensures AfterMassDestroy(a, t, selected, permanently, true).IsCurrent(schema, u, id, a.caches[u][id])
  {
    OthersAreUnmarked(a, t, selected, u, id);
    OtherRows(a.store, t, Elements(selected), permanently, u, id);
  }

  /** A mass destroy that does not stop half-way puts no model out of step. */
  lemma SafeMassDestroy(schema: Schema, a: Moment, t: string, selected: seq<string>, permanently: bool, commits: bool)
    requires a.Owned(schema) && Identified(a) && t in schema && (commits ==> CanMark(a.Snap(), t, selected))
    ensures AfterMassDestroy(a, t, selected, permanently, commits).Stale(schema) <= a.Stale(schema)
  {
    if commits {
      var b := AfterMassDestroy(a, t, selected, permanently, commits);
      forall u, id | u in b.caches && id in b.caches[u] && !b.IsCurrent(schema, u, id, b.caches[u][id])
        ensures b.caches[u][id] in a.Stale(schema)
      {
        assert id in a.caches[u] && b.caches[u][id] == a.caches[u][id] && (u == t ==> id !in selected);
        if a.IsCurrent(schema, u, id, a.caches[u][id]) {
          StaysCurrent(schema, a, t, selected, permanently, u, id);
        }
      }
    }
  }

  lemma SafeWrite(schema: Schema, a: Moment, command: Command)
    requires Coherent(schema, a) && IsWrite(command) && IsMeaningful(schema, a.held, command)
    requires Safe(schema, a, command)
    ensures AfterWrite(schema, a, command).Stale(schema) <= a.Stale(schema)
  {
    match command
    case Batch(which, _, commits) => SafeBatch(schema, a, Chosen(a.held, which), commits);
    case MassDestroy(t, wanted, permanently, commits) =>
      SafeMassDestroy(schema, a, t, Existing(a.store[t], wanted), permanently, commits);
    case Reset =>
    case Forget => SameModels(schema, a, a.(sent := {}));
  }

  lemma SafeCommand(schema: Schema, a: Moment, command: Command, b: Moment)
    requires Coherent(schema, a) && Follows(schema, a, command, b) && Safe(schema, a, command)
    ensures b.Stale(schema) <= a.Stale(schema)
  {
    if !IsMeaningful(schema, a.held, command) {
    } else if IsRead(command) {
      SafeRead(schema, a, command, b);
    } else if command.NewRecord? {
      SameModels(schema, a, b);
    } else if IsChange(command) {
      SafeChange(schema, a, command);
    } else {
      SafeWrite(schema, a, command);
    }
  }

  // ---- Whole runs ----

  /** One step of a run: the command does what it should, and the two sides agree again. */
  ghost predicate Stepped(schema: Schema, a: Moment, command: Command, b: Moment) {
    Follows(schema, a, command, b) && Coherent(schema, a) && b.Owned(schema) && b.Agrees()
  }

  /** Each moment follows from the one before by its command. */
  ghost predicate IsTrace(schema: Schema, trace: seq<Moment>, commands: seq<Command>)
    decreases |commands|
  {
    && |trace| == |commands| + 1
    && (commands != [] ==>
          var n := |commands| - 1;
          IsTrace(schema, trace[..n + 1], commands[..n]) && Stepped(schema, trace[n], commands[n], trace[n + 1]))
  }

  /** The launch of a program: nothing is sent, cached or held. */
  function Launch(schema: Schema, rows: Store): Moment {
    Moment(map t | t in schema :: map[], map[], map[], {}, rows, {}, [])
  }

  lemma {:induction false} StepOfTrace(schema: Schema, trace: seq<Moment>, commands: seq<Command>, i: nat,
                                       a: Moment, command: Command, b: Moment)
    requires IsTrace(schema, trace, commands) && i < |commands|
    requires a == trace[i] && command == commands[i] && b == trace[i + 1]
    ensures Stepped(schema, a, command, b)
    decreases |commands|
  {
    var last := |commands| - 1;
    if i == last {
    } else {
      StepOfTrace(schema, trace[..last + 1], commands[..last], i, a, command, b);
    }
  }

  /** The first `n` commands of a run are safe. */
  ghost predicate SafeUpTo(schema: Schema, trace: seq<Moment>, commands: seq<Command>, n: nat)
    requires n <= |commands| <= |trace|
  {
    n == 0 || (SafeUpTo(schema, trace, commands, n - 1) && Safe(schema, trace[n - 1], commands[n - 1]))
  }

  lemma SafeStepOfTrace(schema: Schema, trace: seq<Moment>, commands: seq<Command>, n: nat)
    requires IsTrace(schema, trace, commands) && 0 < n <= |commands| && SafeUpTo(schema, trace, commands, n)
    ensures trace[n].Stale(schema) <= trace[n - 1].Stale(schema)
  {
    StepOfTrace(schema, trace, commands, n - 1, trace[n - 1], commands[n - 1], trace[n]);
    SafeCommand(schema, trace[n - 1], commands[n - 1], trace[n]);
  }

  /** While commands are safe, no model gets out of step. */
  lemma {:induction false} TransparentWhileSafe(schema: Schema, trace: seq<Moment>, commands: seq<Command>, n: nat)
    requires IsTrace(schema, trace, commands) && n <= |commands| && SafeUpTo(schema, trace, commands, n)
    ensures trace[n].Stale(schema) <= trace[0].Stale(schema)
  {
    if n == 0 {
    } else {
      TransparentWhileSafe(schema, trace, commands, n - 1);
      SafeStepOfTrace(schema, trace, commands, n);
    }
  }

  ghost predicate NeverThrows(commands: seq<Command>) {
    forall i :: 0 <= i < |commands| && commands[i].Edit? ==> !commands[i].throws
  }

  /** Only deleted records, which refuse assignments, are left in their editing state. */
  ghost predicate EditingAreDeleted(a: Moment) {
    forall m :: m in a.editing && m in a.raws ==> a.raws[m].status == Deleted
  }

  lemma WritesKeepEditing(schema: Schema, a: Moment, command: Command, b: Moment)
    requires Follows(schema, a, command, b) && EditingAreDeleted(a)
    requires IsWrite(command)
    ensures EditingAreDeleted(b)
  {
  }

  lemma ChangesKeepEditing(schema: Schema, a: Moment, command: Command, b: Moment)
    requires Follows(schema, a, command, b) && EditingAreDeleted(a)
    requires IsChange(command) && (command.Edit? ==> !command.throws)
    ensures EditingAreDeleted(b)
  {
  }

  lemma ReadsKeepEditing(schema: Schema, a: Moment, command: Command, b: Moment)
    requires Follows(schema, a, command, b) && EditingAreDeleted(a)
    requires IsRead(command) || command.NewRecord?
    ensures EditingAreDeleted(b)
  {
  }

  lemma StepKeepsEditing(schema: Schema, a: Moment, command: Command, b: Moment)
    requires Stepped(schema, a, command, b) && EditingAreDeleted(a) && (command.Edit? ==> !command.throws)
    ensures EditingAreDeleted(b)
  {
    if IsChange(command) {
      ChangesKeepEditing(schema, a, command, b);
    } else if IsRead(command) || command.NewRecord? {
      ReadsKeepEditing(schema, a, command, b);
    } else {
      WritesKeepEditing(schema, a, command, b);
    }
  }

  lemma EditingStaysDeleted(schema: Schema, trace: seq<Moment>, commands: seq<Command>, n: nat)
    requires IsTrace(schema, trace, commands) && NeverThrows(commands) && n <= |commands|
    requires EditingAreDeleted(trace[0])
    ensures EditingAreDeleted(trace[n])
  {
    for i := 0 to n
      invariant EditingAreDeleted(trace[i])
    {
      StepOfTrace(schema, trace, commands, i, trace[i], commands[i], trace[i + 1]);
      StepKeepsEditing(schema, trace[i], commands[i], trace[i + 1]);
    }
  }

  /** In a program whose updaters never throw, every edit and assignment is safe, so that only batches and mass
      destroys that fail, and updates through other instances, can put a model out of step. */
  lemma OnlyWritesAreUnsafe(schema: Schema, rows: Store, trace: seq<Moment>, commands: seq<Command>, i: nat)
    requires IsTrace(schema, trace, commands) && NeverThrows(commands) && i < |commands|
    requires trace[0] == Launch(schema, rows) && !commands[i].Batch? && !commands[i].MassDestroy?
    ensures trace[i].Owned(schema) && Safe(schema, trace[i], commands[i])
  {
    StepOfTrace(schema, trace, commands, i, trace[i], commands[i], trace[i + 1]);
    EditingStaysDeleted(schema, trace, commands, i);
  }
}
