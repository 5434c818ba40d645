/** Keys of the native "already sent" set. */
module CacheKeys {

  function CacheKey(table: string, id: string): string {
    table + "$" + id
  }

  function CacheKeysOf(t: string, ids: seq<string>): set<string> {
    set id | id in ids :: CacheKey(t, id)
  }

  /** Where the table name of a key ends, if the name has no `$`. */
  function FirstDollar(key: string): nat {
    if key == "" || key[0] == '$' then 0 else 1 + FirstDollar(key[1..])
  }

  lemma {:induction false} TableNameEnds(t: string, id: string)
    requires '$' !in t
    ensures FirstDollar(CacheKey(t, id)) == |t|
  {
    if t == "" {
    } else {
      assert CacheKey(t, id)[1..] == CacheKey(t[1..], id);
      TableNameEnds(t[1..], id);
    }
  }

  /** Keys of records in tables without a `$` in their names are distinct. */
  lemma CacheKeyInjective(t1: string, i1: string, t2: string, i2: string)
    requires '$' !in t1 && '$' !in t2
    ensures CacheKey(t1, i1) == CacheKey(t2, i2) <==> t1 == t2 && i1 == i2
  {
    var k := CacheKey(t1, i1);
    TableNameEnds(t1, i1);
    TableNameEnds(t2, i2);
    if k == CacheKey(t2, i2) {
      assert t1 == k[..|t1|] && t2 == k[..|t2|];
      assert i1 == k[|t1| + 1..] && i2 == k[|t2| + 1..];
    }
  }

  /** Two tables can share a key if and only if one name is the other, or extends it with a `$`. */
  lemma CacheKeysCollide(t1: string, t2: string)
    ensures (exists i1, i2 :: CacheKey(t1, i1) == CacheKey(t2, i2)) <==> t1 == t2 || t1 + "$" <= t2 || t2 + "$" <= t1
  {
    if i1, i2 :| CacheKey(t1, i1) == CacheKey(t2, i2) {
      var k := CacheKey(t1, i1);
      assert t1 + "$" == k[..|t1| + 1] && t2 + "$" == k[..|t2| + 1];
      if |t1| < |t2| {
        assert t2 == k[..|t2|];
      } else if |t2| < |t1| {
        assert t1 == k[..|t1|];
      } else {
        assert t1 == k[..|t1|] && t2 == k[..|t1|];
      }
    }
    if t1 == t2 {
      assert CacheKey(t1, "") == CacheKey(t2, "");
    } else if t1 + "$" <= t2 {
      var rest := t2[|t1| + 1..];
      assert CacheKey(t1, rest + "$") == CacheKey(t2, "");
    } else if t2 + "$" <= t1 {
      var rest := t1[|t2| + 1..];
      assert CacheKey(t1, "") == CacheKey(t2, rest + "$");
    }
  }
}

/** What a batch does to the rows of a table and to the cached models of that table, side by side. */
module BridgeTheory {
  import opened Sequences
  import opened Results
  import opened RawRecords
  import opened BatchEncoding
  import opened CacheKeys

  /** A record handed to a batch, with the operation it becomes. */
  datatype Entry<+M> = Entry(record: M, op: Operation)

  function OperationId(op: Operation): string {
    match op
    case Create(_, raw) => raw.id
    case Update(_, raw) => raw.id
    case MarkAsDeleted(_, id) => id
    case DestroyPermanently(_, id) => id
  }

  predicate IsDestroy(op: Operation) {
    op.MarkAsDeleted? || op.DestroyPermanently?
  }

  function Operations<M>(entries: seq<Entry<M>>): seq<Operation> {
    seq(|entries|, i requires 0 <= i < |entries| => entries[i].op)
  }

  /** What `select` and `sanitizedRaw` give for a stored row. */
  function Loaded(columns: seq<Column>, id: string, row: StoredRow): (r: RawRecord)
    requires |row.columns| == |columns|
    ensures r.id == id && r.status != Disposable
  {
    SanitizedRaw(LoadRow(columns, id, row), columns, "")
  }

  ghost predicate WellFormed(schema: Schema, store: Store) {
    && schema.Keys == store.Keys
    && forall t, id :: t in store && id in store[t] ==> |store[t][id].columns| == |schema[t]|
  }

  ghost predicate ValidSchema(schema: Schema) {
    forall t :: t in schema ==> '$' !in t && DistinctNames(schema[t]) && NoReservedNames(schema[t])
  }

  // ---- The cached models of one table ----

  /** One change of `_applyChangesToCache`. */
  function Change<M>(cache: map<string, M>, e: Entry<M>, t: string): map<string, M> {
    if e.op.table != t then cache
    else if e.op.Create? then cache[OperationId(e.op) := e.record]
    else if IsDestroy(e.op) then cache - {OperationId(e.op)}
    else cache
  }

  function Changes<M>(cache: map<string, M>, entries: seq<Entry<M>>, t: string): map<string, M>
    decreases |entries|
  {
    if entries == [] then cache else Changes(Change(cache, entries[0], t), entries[1..], t)
  }

  lemma {:induction false} ChangesConcat<M>(cache: map<string, M>, a: seq<Entry<M>>, b: seq<Entry<M>>, t: string)
    ensures Changes(cache, a + b, t) == Changes(Changes(cache, a, t), b, t)
    decreases |a|
  {
    if a == [] {
      assert a + b == b;
    } else {
      assert (a + b)[1..] == a[1..] + b;
      ChangesConcat(Change(cache, a[0], t), a[1..], b, t);
    }
  }

  /** The change set of one table. */
  function ForTable<M>(entries: seq<Entry<M>>, t: string): seq<Entry<M>> {
    if entries == [] then []
    else
      var n := |entries| - 1;
      ForTable(entries[..n], t) + if entries[n].op.table == t then [entries[n]] else []
  }

  /** Applying a table's own change set is applying the whole batch, as far as that table goes. */
  lemma {:induction false} ForTableSuffices<M>(cache: map<string, M>, entries: seq<Entry<M>>, t: string)
    ensures Changes(cache, ForTable(entries, t), t) == Changes(cache, entries, t)
    ensures forall j :: 0 <= j < |ForTable(entries, t)| ==>
              ForTable(entries, t)[j] in entries && ForTable(entries, t)[j].op.table == t
    decreases |entries|
  {
    if entries == [] {
    } else {
      var n := |entries| - 1;
      var front, e := entries[..n], entries[n];
      assert entries == front + [e];
      ForTableSuffices(cache, front, t);
      ChangesConcat(cache, front, [e], t);
      ChangesConcat(cache, ForTable(front, t), [e], t);
      assert Changes(Changes(cache, front, t), [e], t) == Change(Changes(cache, front, t), e, t) by {
        assert [e][1..] == [];
      }
      assert ForTable(front, t) + [] == ForTable(front, t);
    }
  }

  /** What is cached afterwards was cached before, or was created by the batch. */
  lemma {:induction false} ChangedFrom<M>(cache: map<string, M>, entries: seq<Entry<M>>, t: string, id: string)
    requires id in Changes(cache, entries, t)
    ensures (id in cache && Changes(cache, entries, t)[id] == cache[id])
            || exists j :: 0 <= j < |entries| && CreatedBy(entries[j], t, id)
                           && entries[j].record == Changes(cache, entries, t)[id]
    decreases |entries|
  {
    if entries == [] {
    } else {
      var rest := entries[1..];
      ChangedFrom(Change(cache, entries[0], t), rest, t, id);
      if j :| 0 <= j < |rest| && CreatedBy(rest[j], t, id) && rest[j].record == Changes(cache, entries, t)[id] {
        assert entries[j + 1] == rest[j];
      }
    }
  }

  predicate CreatedBy<M>(e: Entry<M>, t: string, id: string) {
    e.op.table == t && e.op.Create? && OperationId(e.op) == id
  }

  /** The entry's record is the one described by `raws`. */
  ghost predicate Describes<M>(raws: map<M, RawRecord>, e: Entry<M>, schema: Schema) {
    && e.record in raws && e.op.table in schema
    && OperationId(e.op) == raws[e.record].id
    && (e.op.Create? || e.op.Update? ==>
          e.op.raw == raws[e.record] && Sanitized(e.op.raw, schema[e.op.table]) && e.op.raw.status != Disposable)
  }

  /** Every cached model that is not stale has a row, and unless it is excused its raw is what that row
      loads as. Of stale models nothing is said but their id. */
  ghost predicate Mirrors<M>(columns: seq<Column>, rows: map<string, StoredRow>, cache: map<string, M>,
                             raws: map<M, RawRecord>, excused: set<M>, stale: set<M>) {
    && (forall id :: id in rows ==> |rows[id].columns| == |columns|)
    && forall id :: id in cache ==>
         && cache[id] in raws && raws[cache[id]].id == id
         && (cache[id] in stale
             || (id in rows && (cache[id] in excused || Loaded(columns, id, rows[id]) == raws[cache[id]])))
  }

  /** The entry updates the record of `m` through another instance. */
  ghost predicate Displaces<M>(e: Entry<M>, t: string, id: string, m: M) {
    e.op.Update? && e.op.table == t && OperationId(e.op) == id && e.record != m
  }

  ghost predicate IsDisplaced<M>(entries: seq<Entry<M>>, t: string, id: string, m: M) {
    exists j :: 0 <= j < |entries| && Displaces(entries[j], t, id, m)
  }

  function Pending<M>(entries: seq<Entry<M>>, t: string): set<M> {
    set e | e in entries && e.op.table == t && !e.op.Create? :: e.record
  }

  lemma ApplyKeepsWellFormed<M>(schema: Schema, store: Store, e: Entry<M>, raws: map<M, RawRecord>)
    requires WellFormed(schema, store) && Describes(raws, e, schema)
    requires Apply(schema, store, e.op).Ok?
    ensures WellFormed(schema, Apply(schema, store, e.op).value)
  {
  }

  /** One entry of a batch, and one cached record. */
  lemma EntryKeepsRecord<M>(schema: Schema, store: Store, e: Entry<M>, rest: seq<Entry<M>>, t: string, id: string,
                            cache: map<string, M>, raws: map<M, RawRecord>, others: set<M>, stale: set<M>)
    requires ValidSchema(schema) && WellFormed(schema, store) && t in schema
    requires Apply(schema, store, e.op).Ok? && Describes(raws, e, schema)
    requires Mirrors(schema[t], store[t], cache, raws, others + Pending([e] + rest, t), stale)
    requires forall m :: m in raws && Displaces(e, t, raws[m].id, m) ==> m in stale
    requires id in Change(cache, e, t)
    ensures var m, rows := Change(cache, e, t)[id], Apply(schema, store, e.op).value[t];
            && m in raws && raws[m].id == id
            && (m in stale
                || (id in rows && |rows[id].columns| == |schema[t]|
                    && (m in others + Pending(rest, t) || Loaded(schema[t], id, rows[id]) == raws[m])))
  {
    PendingFirst(e, rest, t);
    if e.op.table == t && OperationId(e.op) == id && (e.op.Create? || e.op.Update?) {
      LoadedStored(schema[t], e.op.raw);
    }
  }

  /** One entry of a batch keeps rows and cached models of a table in step, whoever made the entry: a model
      that is displaced has to be given up as stale. */
  lemma EntryKeepsMirror<M>(schema: Schema, store: Store, e: Entry<M>, rest: seq<Entry<M>>, t: string,
                            cache: map<string, M>, raws: map<M, RawRecord>, others: set<M>, stale: set<M>)
    requires ValidSchema(schema) && WellFormed(schema, store) && t in schema
    requires Apply(schema, store, e.op).Ok? && Describes(raws, e, schema)
    requires Mirrors(schema[t], store[t], cache, raws, others + Pending([e] + rest, t), stale)
    requires forall m :: m in raws && Displaces(e, t, raws[m].id, m) ==> m in stale
    ensures Mirrors(schema[t], Apply(schema, store, e.op).value[t], Change(cache, e, t), raws,
                    others + Pending(rest, t), stale)
  {
    ApplyKeepsWellFormed(schema, store, e, raws);
    var after, rows := Change(cache, e, t), Apply(schema, store, e.op).value[t];
    forall id | id in after
      ensures after[id] in raws && raws[after[id]].id == id
      ensures after[id] in stale
              || (id in rows && (after[id] in others + Pending(rest, t)
                                 || Loaded(schema[t], id, rows[id]) == raws[after[id]]))
    {
      EntryKeepsRecord(schema, store, e, rest, t, id, cache, raws, others, stale);
    }
  }

  lemma PendingFirst<M>(e: Entry<M>, rest: seq<Entry<M>>, t: string)
    ensures Pending([e] + rest, t) == Pending(rest, t) + if e.op.table == t && !e.op.Create? then {e.record} else {}
  {
    var all := [e] + rest;
    assert all[0] == e;
    assert forall x :: x in all <==> x == e || x in rest;
  }

  lemma LoadedStored(columns: seq<Column>, raw: RawRecord)
    requires DistinctNames(columns) && NoReservedNames(columns) && Sanitized(raw, columns) && raw.status != Disposable
    ensures |Stored(columns, raw).columns| == |columns| && Loaded(columns, raw.id, Stored(columns, raw)) == raw
  {
    StoredRoundTrip(columns, raw, "");
  }

  /** Whatever the order of creates, updates and destroys, once a batch has succeeded and its changes
      are applied, every cached model of the table that is not stale has a row that loads as its raw. */
  lemma {:induction false} BatchKeepsMirror<M>(schema: Schema, store: Store, entries: seq<Entry<M>>, t: string,
                                               cache: map<string, M>, raws: map<M, RawRecord>,
                                               others: set<M>, stale: set<M>)
    requires ValidSchema(schema) && WellFormed(schema, store) && t in schema
    requires ApplyAll(schema, store, Operations(entries)).Ok?
    requires forall j :: 0 <= j < |entries| ==> Describes(raws, entries[j], schema)
    requires forall j, m :: 0 <= j < |entries| && m in raws && Displaces(entries[j], t, raws[m].id, m) ==> m in stale
    requires Mirrors(schema[t], store[t], cache, raws, others + Pending(entries, t), stale)
    ensures WellFormed(schema, ApplyAll(schema, store, Operations(entries)).value)
    ensures Mirrors(schema[t], ApplyAll(schema, store, Operations(entries)).value[t], Changes(cache, entries, t), raws,
                    others, stale)
    decreases |entries|
  {
    if entries == [] {
      assert others + Pending(entries, t) == others;
    } else {
      var e, rest := entries[0], entries[1..];
      assert entries == [e] + rest;
      assert Operations(entries)[0] == e.op && Operations(entries)[1..] == Operations(rest);
      var next := Apply(schema, store, e.op).value;
      ApplyKeepsWellFormed(schema, store, e, raws);
      EntryKeepsMirror(schema, store, e, rest, t, cache, raws, others, stale);
      assert forall j :: 0 <= j < |rest| ==> rest[j] == entries[j + 1];
      BatchKeepsMirror(schema, next, rest, t, Change(cache, e, t), raws, others, stale);
    }
  }

  /** The last create or destroy of a record in a batch, if any. */
  function LastChange<M>(entries: seq<Entry<M>>, t: string, id: string): Option<Entry<M>> {
    if entries == [] then None
    else
      var e := Last(entries);
      if e.op.table == t && OperationId(e.op) == id && !e.op.Update? then Some(e)
      else LastChange(entries[..|entries| - 1], t, id)
  }

  /** One model per id: afterwards a record is cached as the instance that created it last, or not at all if
      it was destroyed last, or as before if the batch did neither. */
  lemma {:induction false} LastChangeDecides<M>(cache: map<string, M>, entries: seq<Entry<M>>, t: string, id: string)
    ensures var after, last := Changes(cache, entries, t), LastChange(entries, t, id);
            && (id in after <==> if last.Some? then last.value.op.Create? else id in cache)
            && (id in after ==> after[id] == if last.Some? then last.value.record else cache[id])
    decreases |entries|
  {
    if entries == [] {
      assert Changes(cache, entries, t) == cache;
    } else {
      var front, e := entries[..|entries| - 1], Last(entries);
      LastChangeDecides(cache, front, t, id);
      assert entries == front + [e];
      ChangesConcat(cache, front, [e], t);
      assert [e][1..] == [];
      assert Changes(Changes(cache, front, t), [e], t) == Change(Changes(cache, front, t), e, t);
    }
  }

  /** The last create or update of a record in a batch, if any. */
  function LastWrite<M>(entries: seq<Entry<M>>, t: string, id: string): Option<Entry<M>> {
    if entries == [] then None
    else
      var later := LastWrite(entries[1..], t, id);
      if later.Some? then later
      else if OnRecord(entries[0], t, id) && !IsDestroy(entries[0].op) then Some(entries[0])
      else None
  }

  predicate OnRecord<M>(e: Entry<M>, t: string, id: string) {
    e.op.table == t && OperationId(e.op) == id
  }

  /** What is still cached and was not written was not destroyed either. */
  lemma {:induction false} UnwrittenIsUntouched<M>(cache: map<string, M>, entries: seq<Entry<M>>, t: string, id: string)
    requires id in Changes(cache, entries, t) && LastWrite(entries, t, id) == None
    ensures id in cache && Changes(cache, entries, t)[id] == cache[id]
    ensures forall j :: 0 <= j < |entries| ==> !OnRecord(entries[j], t, id)
    decreases |entries|
  {
    if entries == [] {
      assert Changes(cache, entries, t) == cache;
    } else {
      var e, rest := entries[0], entries[1..];
      UnwrittenIsUntouched(Change(cache, e, t), rest, t, id);
      assert forall j :: 0 < j < |entries| ==> entries[j] == rest[j - 1];
    }
  }

  lemma StillToBeCreated<M>(schema: Schema, store: Store, entries: seq<Entry<M>>, t: string, id: string,
                            cache: map<string, M>)
    requires t in schema && t in store && entries != [] && Apply(schema, store, entries[0].op).Ok?
    requires id in cache ==> id in store[t] || Creates(Operations(entries), t, id)
    ensures var rest, next := entries[1..], Apply(schema, store, entries[0].op).value;
            t in next && (id in Change(cache, entries[0], t) ==> id in next[t] || Creates(Operations(rest), t, id))
  {
    var rest, next := entries[1..], Apply(schema, store, entries[0].op).value;
    if id in Change(cache, entries[0], t) && id !in next[t] {
      var ops := Operations(entries);
      var j :| 0 <= j < |ops| && ops[j].table == t && ops[j].Create? && OperationId(ops[j]) == id;
      assert Operations(rest)[j - 1] == ops[j];
    }
  }

  /** What is cached after a batch has the row that the batch wrote last, or its row from before. */
  lemma {:induction false} LastWriteDecides<M>(schema: Schema, store: Store, entries: seq<Entry<M>>, t: string,
                                               id: string,
                                               cache: map<string, M>)
    requires t in schema && t in store && ApplyAll(schema, store, Operations(entries)).Ok?
    requires id in Changes(cache, entries, t) && (id in cache ==> id in store[t] || Creates(Operations(entries), t, id))
    ensures var rows, last := ApplyAll(schema, store, Operations(entries)).value, LastWrite(entries, t, id);
            && t in rows && id in rows[t]
            && if last.Some? then !IsDestroy(last.value.op) && rows[t][id] == Stored(schema[t], last.value.op.raw)
               else id in store[t] && rows[t][id] == store[t][id]
    decreases |entries|
  {
    if entries == [] {
      assert Operations(entries) == [];
    } else {
      if LastWrite(entries, t, id) == None {
        UnwrittenIsUntouched(cache, entries, t, id);
        assert !OnRecord(entries[0], t, id);
      }
      var e, rest := entries[0], entries[1..];
      assert Operations(entries)[0] == e.op && Operations(entries)[1..] == Operations(rest);
      var next := Apply(schema, store, e.op).value;
      StillToBeCreated(schema, store, entries, t, id, cache);
      LastWriteDecides(schema, next, rest, t, id, Change(cache, e, t));
    }
  }

  /** Storing what the cached model holds. */
  lemma StoringItsOwn<M>(columns: seq<Column>, rows: map<string, StoredRow>, raw: RawRecord,
                         cache: map<string, M>, raws: map<M, RawRecord>)
    requires DistinctNames(columns) && NoReservedNames(columns) && Sanitized(raw, columns) && raw.status != Disposable
    requires raw.id in cache && Mirrors(columns, rows, cache, raws, {}, {}) && raws[cache[raw.id]] == raw
    ensures Mirrors(columns, rows[raw.id := Stored(columns, raw)], cache, raws, {}, {})
  {
    LoadedStored(columns, raw);
  }

  lemma StoringAnother<M>(columns: seq<Column>, rows: map<string, StoredRow>, raw: RawRecord,
                          cache: map<string, M>, raws: map<M, RawRecord>)
    requires DistinctNames(columns) && NoReservedNames(columns) && Sanitized(raw, columns) && raw.status != Disposable
    requires raw.id in cache && Mirrors(columns, rows[raw.id := Stored(columns, raw)], cache, raws, {}, {})
    ensures raws[cache[raw.id]] == raw
  {
    LoadedStored(columns, raw);
  }

  /** A displaced model is in step with its row again if and only if the other instance holds the same
      column values, status and list of changes. */
  lemma UpdateByAnotherInstance<M>(columns: seq<Column>, rows: map<string, StoredRow>, raw: RawRecord,
                                   cache: map<string, M>, raws: map<M, RawRecord>)
    requires DistinctNames(columns) && NoReservedNames(columns) && Sanitized(raw, columns) && raw.status != Disposable
    requires raw.id in cache && Mirrors(columns, rows, cache, raws, {}, {})
    ensures Mirrors(columns, rows[raw.id := Stored(columns, raw)], cache, raws, {}, {}) <==>
              var held := raws[cache[raw.id]];
              held.fields == raw.fields && held.status == raw.status && held.changed == raw.changed
  {
    if raws[cache[raw.id]] == raw {
      StoringItsOwn(columns, rows, raw, cache, raws);
    } else if Mirrors(columns, rows[raw.id := Stored(columns, raw)], cache, raws, {}, {}) {
      StoringAnother(columns, rows, raw, cache, raws);
    }
  }

  // ---- The native set of sent ids ----

  /** Whether some operation on record `id` of table `t` satisfies the kind of interest. */
  ghost predicate Creates(ops: seq<Operation>, t: string, id: string) {
    exists j :: 0 <= j < |ops| && ops[j].table == t && ops[j].Create? && OperationId(ops[j]) == id
  }

  ghost predicate Destroys(ops: seq<Operation>, t: string, id: string) {
    exists j :: 0 <= j < |ops| && ops[j].table == t && IsDestroy(ops[j]) && OperationId(ops[j]) == id
  }

  /** A record that was cached or is created stays cached if nothing in the batch destroys its id. */
  lemma {:induction false} UndestroyedStays<M>(cache: map<string, M>, entries: seq<Entry<M>>, t: string, id: string)
    requires id in cache || Creates(Operations(entries), t, id)
    requires !Destroys(Operations(entries), t, id)
    ensures id in Changes(cache, entries, t)
    decreases |entries|
  {
    if entries == [] {
    } else {
      var rest := entries[1..];
      assert Operations(entries)[0] == entries[0].op;
      assert forall j :: 0 <= j < |rest| ==> Operations(rest)[j] == Operations(entries)[j + 1];
      if Creates(Operations(entries), t, id) && id !in Change(cache, entries[0], t) {
        var j :| 0 <= j < |entries| && entries[j].op.table == t && entries[j].op.Create?
          && OperationId(entries[j].op) == id;
        assert Operations(rest)[j - 1] == entries[j].op;
      }
      UndestroyedStays(Change(cache, entries[0], t), rest, t, id);
    }
  }

  /** Identity: a record that is neither created nor destroyed by the batch keeps its model. */
  lemma {:induction false} UntouchedKeepsModel<M>(cache: map<string, M>, entries: seq<Entry<M>>, t: string, id: string)
    requires !Creates(Operations(entries), t, id) && !Destroys(Operations(entries), t, id)
    ensures id in Changes(cache, entries, t) <==> id in cache
    ensures id in cache ==> Changes(cache, entries, t)[id] == cache[id]
    decreases |entries|
  {
    if entries == [] {
    } else {
      var rest := entries[1..];
      assert Operations(entries)[0] == entries[0].op;
      assert forall j :: 0 <= j < |rest| ==> Operations(rest)[j] == Operations(entries)[j + 1];
      UntouchedKeepsModel(Change(cache, entries[0], t), rest, t, id);
    }
  }

  /** The keys that the argument lists of encoded operations with a given cache behaviour name. */
  function KeysOf(batch: seq<NativeOperation>, behavior: int): set<string> {
    if batch == [] then {}
    else
      (if batch[0].cacheBehavior == behavior then ArgumentKeys(batch[0].table, batch[0].argBatches) else {})
      + KeysOf(batch[1..], behavior)
  }

  function ArgumentKeys(table: string, argBatches: seq<seq<SqliteValue>>): set<string> {
    if argBatches == [] then {}
    else
      var args := argBatches[0];
      (if args != [] && args[0].SqlText? then {CacheKey(table, args[0].s)} else {})
          + ArgumentKeys(table, argBatches[1..])
  }

  /** The same in terms of the operations before encoding. */
  function OperationKeys(ops: seq<Operation>, behavior: int): set<string> {
    if ops == [] then {}
    else
      (if CacheBehavior(ops[0]) == behavior then {CacheKey(ops[0].table, OperationId(ops[0]))} else {})
      + OperationKeys(ops[1..], behavior)
  }

  lemma {:induction false} OperationKeysConcat(a: seq<Operation>, b: seq<Operation>, behavior: int)
    ensures OperationKeys(a + b, behavior) == OperationKeys(a, behavior) + OperationKeys(b, behavior)
  {
    if a == [] {
      assert a + b == b;
    } else {
      assert (a + b)[1..] == a[1..] + b;
      OperationKeysConcat(a[1..], b, behavior);
    }
  }

  lemma {:induction false} GroupKeys(schema: Schema, group: seq<Operation>, argBatches: seq<seq<SqliteValue>>,
                                     table: string, behavior: int)
    requires forall i :: 0 <= i < |group| ==>
               group[i].table in schema && group[i].table == table && CacheBehavior(group[i]) == behavior
    requires |argBatches| == |group| && forall i :: 0 <= i < |group| ==> argBatches[i] == EncodeArgs(schema, group[i])
    requires behavior != IGNORE_CACHE
    ensures ArgumentKeys(table, argBatches) == OperationKeys(group, behavior)
  {
    if group == [] {
    } else {
      GroupKeys(schema, group[1..], argBatches[1..], table, behavior);
    }
  }

  lemma {:induction false} OtherKeys(group: seq<Operation>, behavior: int)
    requires forall i :: 0 <= i < |group| ==> CacheBehavior(group[i]) != behavior
    ensures OperationKeys(group, behavior) == {}
  {
    if group == [] {
    } else {
      OtherKeys(group[1..], behavior);
    }
  }

  /** The first argument of an encoded create or delete is the record's id; an encoded update, whose
      first argument is a status, is ignored. */
  lemma {:induction false} EncodedKeys(schema: Schema, groups: seq<seq<Operation>>, behavior: int)
    requires forall i :: 0 <= i < |groups| ==> Group(groups[i]) && groups[i][0].table in schema
    requires behavior != IGNORE_CACHE
    ensures KeysOf(EncodeGroups(schema, groups), behavior) == OperationKeys(Concat(groups), behavior)
    decreases |groups|
  {
    if groups == [] {
    } else {
      var g, rest := groups[0], groups[1..];
      var batch := EncodeGroups(schema, groups);
      assert batch[1..] == EncodeGroups(schema, rest);
      EncodedKeys(schema, rest, behavior);
      OperationKeysConcat(g, Concat(rest), behavior);
      forall i | 0 <= i < |g|
        ensures g[i].table == g[0].table && CacheBehavior(g[i]) == CacheBehavior(g[0])
      {
        assert SameGroup(g[i], g[0]);
      }
      if CacheBehavior(g[0]) == behavior {
        GroupKeys(schema, g, batch[0].argBatches, g[0].table, behavior);
      } else {
        OtherKeys(g, behavior);
      }
    }
  }

  /** A batch adds the keys of what it creates, and removes the keys of what it destroys. */
  lemma {:induction false} BatchKeys(ops: seq<Operation>, t: string, id: string)
    requires '$' !in t && forall j :: 0 <= j < |ops| ==> '$' !in ops[j].table
    ensures CacheKey(t, id) in OperationKeys(ops, ADD_TO_CACHE) <==> Creates(ops, t, id)
    ensures CacheKey(t, id) in OperationKeys(ops, REMOVE_FROM_CACHE) <==> Destroys(ops, t, id)
  {
    if ops == [] {
    } else {
      BatchKeys(ops[1..], t, id);
      assert ops == [ops[0]] + ops[1..];
      assert forall j :: 0 <= j < |ops[1..]| ==> ops[1..][j] == ops[j + 1];
      CacheKeyInjective(t, id, ops[0].table, OperationId(ops[0]));
    }
  }

  /** Every id believed to be sent is cached. */
  ghost predicate AllCached<M>(sent: set<string>, caches: map<string, map<string, M>>) {
    forall t, id :: t in caches && CacheKey(t, id) in sent ==> id in caches[t]
  }

  /** Why nothing may be read between the two halves of a batch: after the native half alone the sides
      agree if and only if the batch leaves no created record that was not cached already. */
  lemma AgreementBetweenHalves<M>(ops: seq<Operation>, sent: set<string>, caches: map<string, map<string, M>>)
    requires forall t :: t in caches ==> '$' !in t
    requires forall j :: 0 <= j < |ops| ==> ops[j].table in caches
    requires AllCached(sent, caches)
    ensures AllCached(sent + OperationKeys(ops, ADD_TO_CACHE) - OperationKeys(ops, REMOVE_FROM_CACHE), caches)
            <==> forall t, id :: t in caches && Creates(ops, t, id) && !Destroys(ops, t, id) ==> id in caches[t]
  {
    var after := sent + OperationKeys(ops, ADD_TO_CACHE) - OperationKeys(ops, REMOVE_FROM_CACHE);
    forall t, id | t in caches
      ensures CacheKey(t, id) in after <==> (CacheKey(t, id) in sent || Creates(ops, t, id)) && !Destroys(ops, t, id)
    {
      BatchKeys(ops, t, id);
    }
  }
}
