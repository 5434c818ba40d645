/** The cached models of all collections as values, and what batches and mass destroys do to them. */
module BridgeSnapshots {
  import opened Sequences
  import opened RawRecords
  import opened BatchEncoding
  import opened BridgeTheory
  import opened NativeRecords
  import opened Models
  import opened RecordCaches
  import opened ChangeSets

  /** What collections construct models from. */
  ghost predicate Fits(schema: Schema, raw: RawRecord, m: Model, t: string) {
    && t in schema && m.table == t && m.columns == ColumnMap(schema[t])
    && Sanitized(raw, schema[t]) && raw.status != Disposable
  }

  /** A model is in step with its row: there is one, and unless a change is prepared it loads as the raw. */
  ghost predicate Current(schema: Schema, store: Store, t: string, id: string, raw: RawRecord, state: PreparedState) {
    && t in schema && t in store && id in store[t] && |store[t][id].columns| == |schema[t]|
    && (state == Unprepared ==> raw == Loaded(schema[t], id, store[t][id]))
  }

  /** The caches of all tables, the state of models, and which cached models may be out of step. */
  datatype Snapshot = Snapshot(
    caches: map<string, map<string, Model>>,
    raws: map<Model, RawRecord>,
    states: map<Model, PreparedState>,
    stale: set<Model>)
  {
    function Prepared(): set<Model> {
      set m | m in states && states[m] != Unprepared
    }

    ghost predicate InStep(schema: Schema, store: Store, t: string, id: string)
      requires t in caches && id in caches[t]
    {
      var m := caches[t][id];
      && m in raws && m in states && Fits(schema, raws[m], m, t) && raws[m].id == id && states[m] != PreparedCreate
      && (m in stale || Current(schema, store, t, id, raws[m], states[m]))
    }
  }

  ghost predicate Consistent(schema: Schema, s: Snapshot, store: Store) {
    && s.caches.Keys == schema.Keys && s.raws.Keys == s.states.Keys && ValidSchema(schema) && WellFormed(schema, store)
    && forall t, id :: t in schema && id in s.caches[t] ==> s.InStep(schema, store, t, id)
  }

  lemma ConsistentMirrors(schema: Schema, s: Snapshot, store: Store, t: string)
    requires Consistent(schema, s, store) && t in schema
    ensures Mirrors(schema[t], store[t], s.caches[t], s.raws, s.Prepared(), s.stale)
  {
    forall id | id in s.caches[t]
      ensures s.caches[t][id] in s.raws && s.raws[s.caches[t][id]].id == id
      ensures s.caches[t][id] in s.stale
              || (id in store[t] && (s.caches[t][id] in s.Prepared()
                                     || Loaded(schema[t], id, store[t][id]) == s.raws[s.caches[t][id]]))
    {
      assert s.InStep(schema, store, t, id);
    }
  }

  // ---- Batches ----

  function OperationFor(table: string, raw: RawRecord, state: PreparedState): (op: Operation)
    ensures op.table == table && OperationId(op) == raw.id
    ensures op.Create? <==> state == PreparedCreate
  {
    match state
    case PreparedCreate => Create(table, raw)
    case PreparedUpdate => Update(table, raw)
    case PreparedMarkAsDeleted => MarkAsDeleted(table, raw.id)
    case _ => DestroyPermanently(table, raw.id)
  }

  ghost predicate Covers(s: Snapshot, records: seq<Model>) {
    forall i :: 0 <= i < |records| ==> records[i] in s.raws && records[i] in s.states
  }

  ghost predicate Submitted(schema: Schema, s: Snapshot, records: seq<Model>) {
    Covers(s, records) && forall i :: 0 <= i < |records| ==>
        Fits(schema, s.raws[records[i]], records[i], records[i].table)
  }

  /** Every record has a prepared change, and one to update or destroy is not submitted twice. */
  ghost predicate AllPrepared(s: Snapshot, records: seq<Model>)
    requires Covers(s, records)
  {
    && (forall i :: 0 <= i < |records| ==> s.states[records[i]] != Unprepared)
    && (forall i, j :: 0 <= i < j < |records| && records[i] == records[j] ==> s.states[records[i]] == PreparedCreate)
  }

  ghost function Planned(s: Snapshot, records: seq<Model>): seq<Entry<Model>>
    requires Covers(s, records)
  {
    seq(|records|, i requires 0 <= i < |records| =>
      Entry(records[i], OperationFor(records[i].table, s.raws[records[i]], s.states[records[i]])))
  }

  /** What the first loop of a batch gathers. */
  ghost predicate Gathered(s: Snapshot, records: seq<Model>, operations: seq<Operation>,
                           changes: map<string, seq<Entry<Model>>>) {
    && Covers(s, records) && AllPrepared(s, records)
    && operations == Operations(Planned(s, records)) && GroupedByTable(Planned(s, records), changes)
  }

  lemma GatherNext(s: Snapshot, records: seq<Model>, m: Model, operations: seq<Operation>,
                   changes: map<string, seq<Entry<Model>>>)
    requires Gathered(s, records, operations, changes) && m in s.raws && m in s.states
    requires s.states[m] != Unprepared && (m in records ==> s.states[m] == PreparedCreate)
    ensures var e := Entry(m, OperationFor(m.table, s.raws[m], s.states[m]));
            var next := changes[m.table := (if m.table in changes then changes[m.table] else []) + [e]];
            Gathered(s, records + [m], operations + [e.op], next)
  {
    var e := Entry(m, OperationFor(m.table, s.raws[m], s.states[m]));
    assert Planned(s, records + [m]) == Planned(s, records) + [e];
    GroupNext(Planned(s, records), changes, e);
  }

  lemma NotAllPrepared(s: Snapshot, records: seq<Model>, i: nat)
    requires Covers(s, records) && i < |records|
    requires s.states[records[i]] == Unprepared
             || (records[i] in records[..i] && s.states[records[i]] != PreparedCreate)
    ensures !AllPrepared(s, records)
  {
    if records[i] in records[..i] {
      var j :| 0 <= j < i && records[j] == records[i];
    }
  }

  lemma PlannedIsDescribed(schema: Schema, s: Snapshot, records: seq<Model>)
    requires Submitted(schema, s, records)
    ensures forall j :: 0 <= j < |records| ==> Describes(s.raws, Planned(s, records)[j], schema)
  {
  }

  /** Models whose records are updated through other instances. */
  ghost function Displaced(s: Snapshot, records: seq<Model>): set<Model>
    requires Covers(s, records)
  {
    set m | m in s.raws && IsDisplaced(Planned(s, records), m.table, s.raws[m].id, m)
  }

  ghost function DisplacedIn(s: Snapshot, records: seq<Model>, t: string): set<Model>
    requires Covers(s, records)
  {
    set m | m in s.raws && IsDisplaced(Planned(s, records), t, s.raws[m].id, m)
  }

  /** After a batch of the records has succeeded and its changes are applied. */
  ghost function Committed(s: Snapshot, records: seq<Model>): Snapshot
    requires Covers(s, records)
  {
    Snapshot(
      map t | t in s.caches :: Changes(s.caches[t], Planned(s, records), t),
      s.raws,
      map m | m in s.states :: if m in records then Unprepared else s.states[m],
      s.stale + Displaced(s, records))
  }

  /** Prepared changes that are not submitted. */
  ghost function Others(s: Snapshot, records: seq<Model>): set<Model> {
    set m | m in s.Prepared() && m !in records
  }

  lemma BeforeBatch(schema: Schema, s: Snapshot, store: Store, records: seq<Model>, t: string)
    requires Consistent(schema, s, store) && Submitted(schema, s, records) && AllPrepared(s, records) && t in schema
    ensures Mirrors(schema[t], store[t], s.caches[t], s.raws, Others(s, records) + Pending(Planned(s, records), t),
                    s.stale + DisplacedIn(s, records, t))
  {
    var entries := Planned(s, records);
    ConsistentMirrors(schema, s, store, t);
    forall id | id in s.caches[t] && s.caches[t][id] in s.Prepared()
      ensures s.caches[t][id] in Others(s, records) + Pending(entries, t)
    {
      var m := s.caches[t][id];
      assert s.InStep(schema, store, t, id);
      if m in records {
        var i :| 0 <= i < |records| && records[i] == m;
        assert entries[i] in entries && entries[i].op.table == t && entries[i].record == m;
      }
    }
  }

  lemma TableAfterBatch(schema: Schema, s: Snapshot, store: Store, records: seq<Model>, t: string)
    requires Consistent(schema, s, store) && Submitted(schema, s, records) && AllPrepared(s, records) && t in schema
    requires ApplyAll(schema, store, Operations(Planned(s, records))).Ok?
    ensures var after := ApplyAll(schema, store, Operations(Planned(s, records))).value;
            && WellFormed(schema, after)
            && Mirrors(schema[t], after[t], Changes(s.caches[t], Planned(s, records), t), s.raws, Others(s, records),
                       s.stale + DisplacedIn(s, records, t))
  {
    var entries := Planned(s, records);
    BeforeBatch(schema, s, store, records, t);
    PlannedIsDescribed(schema, s, records);
    BatchKeepsMirror(schema, store, entries, t, s.caches[t], s.raws, Others(s, records),
                     s.stale + DisplacedIn(s, records, t));
  }

  /** What is cached after a batch was cached before, or is a submitted record. */
  lemma CachedAfterBatch(schema: Schema, s: Snapshot, store: Store, records: seq<Model>, t: string, id: string)
    requires Consistent(schema, s, store) && Submitted(schema, s, records) && t in schema
    requires id in Changes(s.caches[t], Planned(s, records), t)
    ensures var m := Changes(s.caches[t], Planned(s, records), t)[id];
            && m in s.raws && m in s.states && Fits(schema, s.raws[m], m, t)
            && (m in records || s.states[m] != PreparedCreate)
  {
    ChangedFrom(s.caches[t], Planned(s, records), t, id);
    if id in s.caches[t] {
      assert s.InStep(schema, store, t, id);
    }
  }

  lemma RecordAfterBatch(schema: Schema, s: Snapshot, store: Store, records: seq<Model>, t: string, id: string)
    requires Consistent(schema, s, store) && Submitted(schema, s, records) && AllPrepared(s, records) && t in schema
    requires ApplyAll(schema, store, Operations(Planned(s, records))).Ok?
    requires id in Committed(s, records).caches[t]
    ensures Committed(s, records).InStep(schema, ApplyAll(schema, store, Operations(Planned(s, records))).value, t, id)
  {
    TableAfterBatch(schema, s, store, records, t);
    CachedAfterBatch(schema, s, store, records, t, id);
  }

  lemma BatchKeepsConsistent(schema: Schema, s: Snapshot, store: Store, records: seq<Model>)
    requires Consistent(schema, s, store) && Submitted(schema, s, records) && AllPrepared(s, records)
    requires ApplyAll(schema, store, Operations(Planned(s, records))).Ok?
    ensures Consistent(schema, Committed(s, records), ApplyAll(schema, store, Operations(Planned(s, records))).value)
  {
    var after, next := ApplyAll(schema, store, Operations(Planned(s, records))).value, Committed(s, records);
    forall t, id | t in schema && id in next.caches[t]
      ensures next.InStep(schema, after, t, id)
    {
      RecordAfterBatch(schema, s, store, records, t, id);
    }
    if t :| t in schema {
      TableAfterBatch(schema, s, store, records, t);
    } else if records != [] {
      assert Fits(schema, s.raws[records[0]], records[0], records[0].table);
    } else {
      assert Operations(Planned(s, records)) == [];
    }
  }

  lemma {:induction false} LastWriteIsIn<M>(entries: seq<Entry<M>>, t: string, id: string)
    requires LastWrite(entries, t, id).Some?
    ensures LastWrite(entries, t, id).value in entries
    ensures OnRecord(LastWrite(entries, t, id).value, t, id) && !IsDestroy(LastWrite(entries, t, id).value.op)
  {
    if LastWrite(entries[1..], t, id).Some? {
      LastWriteIsIn(entries[1..], t, id);
    } else {
      assert LastWrite(entries, t, id).value == entries[0];
    }
  }

  /** The model's record was last written in the batch with other values than the model holds. */
  ghost predicate Overwritten(entries: seq<Entry<Model>>, t: string, raw: RawRecord) {
    var last := LastWrite(entries, t, raw.id);
    last.Some? && !IsDestroy(last.value.op) && last.value.op.raw != raw
  }

  lemma WrittenRowLoads(schema: Schema, s: Snapshot, records: seq<Model>, t: string, id: string)
    requires Submitted(schema, s, records) && ValidSchema(schema) && t in schema
    requires LastWrite(Planned(s, records), t, id).Some?
    ensures var op := LastWrite(Planned(s, records), t, id).value.op;
            && !IsDestroy(op) && |Stored(schema[t], op.raw).columns| == |schema[t]|
            && Loaded(schema[t], id, Stored(schema[t], op.raw)) == op.raw
  {
    LastWriteIsIn(Planned(s, records), t, id);
    PlannedIsDescribed(schema, s, records);
    LoadedStored(schema[t], LastWrite(Planned(s, records), t, id).value.op.raw);
  }

  /** A cached model that the batch writes nothing for was not submitted. */
  lemma UnwrittenIsOther(schema: Schema, s: Snapshot, store: Store, records: seq<Model>, t: string, id: string)
    requires Consistent(schema, s, store) && Submitted(schema, s, records) && t in schema
    requires id in Changes(s.caches[t], Planned(s, records), t) && LastWrite(Planned(s, records), t, id).None?
    ensures id in s.caches[t] && s.caches[t][id] !in records
    ensures Changes(s.caches[t], Planned(s, records), t)[id] == s.caches[t][id]
  {
    UnwrittenIsUntouched(s.caches[t], Planned(s, records), t, id);
    var m := s.caches[t][id];
    assert s.InStep(schema, store, t, id);
    if m in records {
      var i :| 0 <= i < |records| && records[i] == m;
      assert OnRecord(Planned(s, records)[i], t, id);
    }
  }

  /** A model that is cached after the batch has a row if it had one, or if the batch creates it. */
  lemma CachedHadRow(schema: Schema, s: Snapshot, store: Store, records: seq<Model>, t: string, id: string)
    requires Consistent(schema, s, store) && Submitted(schema, s, records) && t in schema
    requires id in Changes(s.caches[t], Planned(s, records), t)
    requires Changes(s.caches[t], Planned(s, records), t)[id] !in s.stale
    ensures id in s.caches[t] ==> id in store[t] || Creates(Operations(Planned(s, records)), t, id)
  {
    var entries := Planned(s, records);
    ChangedFrom(s.caches[t], entries, t, id);
    if id in s.caches[t] && Changes(s.caches[t], entries, t)[id] == s.caches[t][id] {
      assert s.InStep(schema, store, t, id);
    } else if id in s.caches[t] {
      var j :| 0 <= j < |entries| && CreatedBy(entries[j], t, id);
      assert Operations(entries)[j] == entries[j].op;
    }
  }

  /** Exactly which models are out of step after a batch: those without a prepared change whose record was
      last written with other values. */
  lemma StepAfterBatch(schema: Schema, s: Snapshot, store: Store, records: seq<Model>, t: string, id: string)
    requires Consistent(schema, s, store) && Submitted(schema, s, records) && AllPrepared(s, records) && t in schema
    requires ApplyAll(schema, store, Operations(Planned(s, records))).Ok?
    requires id in Committed(s, records).caches[t] && Committed(s, records).caches[t][id] !in s.stale
    ensures var after, next := ApplyAll(schema, store, Operations(Planned(s, records))).value, Committed(s, records);
            var m := next.caches[t][id];
            && m in s.raws && m in next.states && s.raws[m].id == id
            && (Current(schema, after, t, id, s.raws[m], next.states[m])
                <==> !(next.states[m] == Unprepared && Overwritten(Planned(s, records), t, s.raws[m])))
  {
    var entries, m := Planned(s, records), Committed(s, records).caches[t][id];
    CachedAfterBatch(schema, s, store, records, t, id);
    CachedHasId(schema, s, store, records, t, id);
    CachedHadRow(schema, s, store, records, t, id);
    LastWriteDecides(schema, store, entries, t, id, s.caches[t]);
    if LastWrite(entries, t, id).Some? {
      WrittenRowLoads(schema, s, records, t, id);
    } else {
      UnwrittenIsOther(schema, s, store, records, t, id);
      assert s.InStep(schema, store, t, id);
    }
  }

  lemma CachedHasId(schema: Schema, s: Snapshot, store: Store, records: seq<Model>, t: string, id: string)
    requires Consistent(schema, s, store) && Submitted(schema, s, records) && t in schema
    requires id in Changes(s.caches[t], Planned(s, records), t)
    ensures var m := Changes(s.caches[t], Planned(s, records), t)[id];
            m in s.raws && s.raws[m].id == id
  {
    ChangedFrom(s.caches[t], Planned(s, records), t, id);
    if id in s.caches[t] {
      assert s.InStep(schema, store, t, id);
    }
  }

  // ---- Batches that fail ----

  /** The records that the first loop of a batch takes up: all, or those before the first one without a
      prepared change. */
  ghost function TakenUp(s: Snapshot, records: seq<Model>): (taken: seq<Model>)
    requires Covers(s, records)
    ensures taken <= records && Covers(s, taken) && (AllPrepared(s, records) <==> taken == records)
  {
    if AllPrepared(s, records) then records else TakenUp(s, records[..|records| - 1])
  }

  lemma {:induction false} TakenUpTo(s: Snapshot, records: seq<Model>, n: nat)
    requires Covers(s, records) && n <= |records| && AllPrepared(s, records[..n])
    requires n == |records| || !AllPrepared(s, records[..n + 1])
    ensures TakenUp(s, records) == records[..n]
  {
    if n == |records| {
      assert records[..n] == records;
    } else {
      var front := records[..|records| - 1];
      assert !AllPrepared(s, records) by {
        FewerArePrepared(s, records, n + 1);
      }
      assert front[..n] == records[..n] && (n < |front| ==> front[..n + 1] == records[..n + 1]);
      TakenUpTo(s, front, n);
    }
  }

  lemma FewerArePrepared(s: Snapshot, records: seq<Model>, n: nat)
    requires Covers(s, records) && n <= |records|
    ensures AllPrepared(s, records) ==> AllPrepared(s, records[..n])
  {
  }

  // ---- Other changes ----

  /** Models whose state changes, and caches that lose entries. */
  lemma ChangedKeepsConsistent(schema: Schema, s: Snapshot, next: Snapshot, store: Store)
    requires Consistent(schema, s, store) && next.caches == s.caches
    requires next.raws.Keys == s.raws.Keys && next.states.Keys == s.states.Keys && s.stale <= next.stale
    requires forall m :: m in s.raws ==> StillFits(schema, s, next, m)
    ensures Consistent(schema, next, store)
  {
    forall t, id | t in schema && id in next.caches[t]
      ensures next.InStep(schema, store, t, id)
    {
      assert s.InStep(schema, store, t, id) && StillFits(schema, s, next, s.caches[t][id]);
    }
  }

  /** A changed model keeps its id and what it was made for; it has a prepared change, or it is given up as
      stale, unless it is as it was. */
  ghost predicate StillFits(schema: Schema, s: Snapshot, next: Snapshot, m: Model)
    requires m in s.raws && m in next.raws && m in s.states && m in next.states
  {
    || (next.raws[m] == s.raws[m] && next.states[m] == s.states[m])
    || (&& next.raws[m].id == s.raws[m].id
        && (Fits(schema, s.raws[m], m, m.table) ==> Fits(schema, next.raws[m], m, m.table))
        && (s.states[m] != PreparedCreate ==> next.states[m] != PreparedCreate)
        && (m in next.stale || next.states[m] != Unprepared
            || (next.raws[m] == s.raws[m] && s.states[m] == Unprepared)))
  }

  /** After one model was changed, and perhaps given up as stale. */
  ghost function ChangedAt(s: Snapshot, m: Model, raw: RawRecord, state: PreparedState, stale: set<Model>): Snapshot {
    Snapshot(s.caches, s.raws[m := raw], s.states[m := state], s.stale + stale)
  }

  lemma ChangedAtKeepsConsistent(schema: Schema, s: Snapshot, m: Model, raw: RawRecord, state: PreparedState,
                                 stale: set<Model>, store: Store)
    requires Consistent(schema, s, store) && m in s.raws
    requires raw.id == s.raws[m].id && Fits(schema, raw, m, m.table)
    requires s.states[m] != PreparedCreate ==> state != PreparedCreate
    requires m in stale || state != Unprepared || (raw == s.raws[m] && s.states[m] == Unprepared)
    ensures Consistent(schema, ChangedAt(s, m, raw, state, stale), store)
  {
    ChangedKeepsConsistent(schema, s, ChangedAt(s, m, raw, state, stale), store);
  }

  lemma DestroyedRows(schema: Schema, store: Store, t: string, ids: set<string>, permanently: bool)
    requires WellFormed(schema, store) && t in schema
    ensures WellFormed(schema, Destroyed(store, t, ids, permanently))
    ensures forall u, id :: u in store && id in store[u] && !(u == t && id in ids) ==>
              id in Destroyed(store, t, ids, permanently)[u]
                && Destroyed(store, t, ids, permanently)[u][id] == store[u][id]
  {
  }

  lemma StillCurrent(schema: Schema, s: Snapshot, next: Snapshot, store: Store, after: Store, t: string, id: string)
    requires t in s.caches && id in s.caches[t] && s.InStep(schema, store, t, id)
    requires next.raws == s.raws && next.states == s.states && s.stale <= next.stale
    requires t in next.caches && id in next.caches[t] && next.caches[t][id] == s.caches[t][id]
    requires s.caches[t][id] in next.stale
             || (t in store && id in store[t] ==> t in after && id in after[t] && after[t][id] == store[t][id])
    ensures next.InStep(schema, after, t, id)
  {
  }

  /** A cached model that is left was cached before, and is given up as stale if its row is destroyed. */
  ghost predicate IsLeft(s: Snapshot, next: Snapshot, t: string, ids: set<string>, u: string, id: string) {
    && u in s.caches && u in next.caches && id in s.caches[u] && id in next.caches[u]
    && next.caches[u][id] == s.caches[u][id] && (u == t && id in ids ==> s.caches[u][id] in next.stale)
  }

  lemma DestroyKeepsConsistent(schema: Schema, s: Snapshot, next: Snapshot, store: Store, t: string, ids: set<string>,
                               permanently: bool)
    requires Consistent(schema, s, store) && t in schema && next.raws == s.raws && next.states == s.states
    requires next.caches.Keys == s.caches.Keys && s.stale <= next.stale
    requires forall u, id :: u in schema && id in next.caches[u] ==> IsLeft(s, next, t, ids, u, id)
    ensures Consistent(schema, next, Destroyed(store, t, ids, permanently))
  {
    var after := Destroyed(store, t, ids, permanently);
    DestroyedRows(schema, store, t, ids, permanently);
    forall u, id | u in schema && id in next.caches[u]
      ensures next.InStep(schema, after, u, id)
    {
      assert IsLeft(s, next, t, ids, u, id);
      assert s.InStep(schema, store, u, id);
      StillCurrent(schema, s, next, store, after, u, id);
    }
  }

  /** The caches without the destroyed models of one table, once they are dropped. */
  function WithoutDropped(caches: map<string, map<string, Model>>, t: string, ids: set<string>, dropped: bool):
    (after: map<string, map<string, Model>>)
    requires t in caches
    ensures after.Keys == caches.Keys
    ensures forall u :: u in caches ==> after[u] == if dropped && u == t then caches[t] - ids else caches[u]
  {
    if dropped then caches[t := caches[t] - ids] else caches
  }

  /** A model that a mass destroy has got to, or not yet. */
  ghost predicate MarkedOrSame(s: Snapshot, next: Snapshot, m: Model) {
    && m in s.raws && m in s.states && m in next.raws && m in next.states
    && ((next.raws[m] == s.raws[m] && next.states[m] == s.states[m])
        || (next.raws[m] == s.raws[m].(status := Deleted) && next.states[m] == Unprepared))
  }

  /** No cached model of these ids has a prepared change. */
  ghost predicate CanMark(s: Snapshot, t: string, ids: seq<string>)
    requires t in s.caches
  {
    forall id :: id in s.caches[t] && id in ids ==>
        s.caches[t][id] in s.states && s.states[s.caches[t][id]] == Unprepared
  }

  /** The ids that a mass destroy gets to: all, or those before the first one that cannot be marked. */
  ghost function MarkedIds(s: Snapshot, t: string, ids: seq<string>): (marked: seq<string>)
    requires t in s.caches
    ensures marked <= ids && CanMark(s, t, marked) && (CanMark(s, t, ids) <==> marked == ids)
  {
    if CanMark(s, t, ids) then ids else MarkedIds(s, t, ids[..|ids| - 1])
  }

  /** The cached models of those ids. */
  ghost function MarkedSet(s: Snapshot, t: string, selected: seq<string>): set<Model>
    requires t in s.caches
  {
    set id | id in s.caches[t] && id in MarkedIds(s, t, selected) :: s.caches[t][id]
  }

  lemma {:induction false} MarkedUntil(s: Snapshot, t: string, ids: seq<string>, n: nat)
    requires t in s.caches && n <= |ids| && CanMark(s, t, ids[..n])
    requires n == |ids| || !CanMark(s, t, ids[..n + 1])
    ensures MarkedIds(s, t, ids) == ids[..n]
  {
    if n == |ids| {
      assert ids[..n] == ids;
    } else {
      var front := ids[..|ids| - 1];
      assert forall id :: id in ids[..n + 1] ==> id in ids;
      assert front[..n] == ids[..n] && (n < |front| ==> front[..n + 1] == ids[..n + 1]);
      MarkedUntil(s, t, front, n);
    }
  }

  lemma LoadedMarked(columns: seq<Column>, id: string, row: StoredRow)
    requires |row.columns| == |columns| && NoReservedNames(columns)
    ensures Loaded(columns, id, row.(status := SqlText("deleted"))) == Loaded(columns, id, row).(status := Deleted)
  {
    var marked := LoadRow(columns, id, row.(status := SqlText("deleted")));
    SameFields(LoadRow(columns, id, row), marked, columns);
  }

  lemma {:induction false} SameFields(a: DirtyRaw, b: DirtyRaw, columns: seq<Column>)
    requires forall c :: c in columns ==> ValueOf(a, c.name) == ValueOf(b, c.name)
    ensures SanitizedFields(a, columns) == SanitizedFields(b, columns)
  {
    if columns == [] {
    } else {
      SameFields(a, b, columns[..|columns| - 1]);
      assert Last(columns) in columns;
    }
  }

  /** Exactly which models are out of step after a mass destroy that stops half-way: when the rows are gone,
      those of all its ids; else those that it did not get to and that have no prepared change, unless they
      were deleted already. */
  lemma StepHalfway(schema: Schema, s: Snapshot, store: Store, t: string, ids: set<string>, permanently: bool,
                    u: string, id: string, marked: bool)
    requires Consistent(schema, s, store) && t in schema && u in schema && id in s.caches[u]
             && s.caches[u][id] !in s.stale
    requires marked ==> u == t && id in ids && s.caches[u][id] in s.states && s.states[s.caches[u][id]] == Unprepared
    ensures var m := s.caches[u][id];
            && m in s.raws && m in s.states
            && (Current(schema, Destroyed(store, t, ids, permanently), u, id,
                        if marked then s.raws[m].(status := Deleted) else s.raws[m], s.states[m])
                <==> !(u == t && id in ids
                       && (permanently || (!marked && s.states[m] == Unprepared && s.raws[m].status != Deleted))))
  {
    assert s.InStep(schema, store, u, id);
    if u == t && id in ids && !permanently {
      LoadedMarked(schema[t], id, store[t][id]);
    }
  }

  /** A mass destroy, whether it has dropped the models of the destroyed rows or stopped before. */
  lemma MassDestroyKeepsConsistent(schema: Schema, s: Snapshot, next: Snapshot, store: Store, t: string,
                                   ids: set<string>, permanently: bool, touched: set<Model>, dropped: bool)
    requires Consistent(schema, s, store) && t in schema
    requires next.caches == WithoutDropped(s.caches, t, ids, dropped) && next.stale == s.stale + touched
    requires next.raws.Keys == s.raws.Keys && next.states.Keys == s.states.Keys
    requires forall m :: m in s.raws && m !in touched ==> next.raws[m] == s.raws[m] && next.states[m] == s.states[m]
    requires forall m :: m in touched ==> MarkedOrSame(s, next, m)
    requires forall id :: id in s.caches[t] && id in ids ==> s.caches[t][id] in touched
    ensures Consistent(schema, next, Destroyed(store, t, ids, permanently))
  {
    var mid := Snapshot(next.caches, s.raws, s.states, next.stale);
    forall u, id | u in schema && id in mid.caches[u]
      ensures IsLeft(s, mid, t, ids, u, id)
    {
    }
    DestroyKeepsConsistent(schema, s, mid, store, t, ids, permanently);
    forall m | m in mid.raws
      ensures StillFits(schema, mid, next, m)
    {
      assert m in touched ==> MarkedOrSame(s, next, m);
    }
    ChangedKeepsConsistent(schema, mid, next, Destroyed(store, t, ids, permanently));
  }
}
