/** What a batch comes to, in terms of the records handed in and the changes prepared of them. */
module Submissions {
  import opened Sequences
  import opened Results
  import opened RawRecords
  import opened BatchEncoding
  import opened CacheKeys
  import opened BridgeTheory
  import opened Models
  import opened BridgeSnapshots

  /** A record of a table, its values, and the change prepared of it. */
  datatype Submission = Submission(table: string, raw: RawRecord, state: PreparedState)

  predicate IsOn(x: Submission, t: string, id: string) {
    x.table == t && x.raw.id == id
  }

  predicate IsWrite(x: Submission) {
    x.state == PreparedCreate || x.state == PreparedUpdate
  }

  /** Nothing that is submitted later is on the same record. */
  predicate IsLast(xs: seq<Submission>, i: int) {
    0 <= i < |xs| && forall j :: i < j < |xs| ==> !IsOn(xs[j], xs[i].table, xs[i].raw.id)
  }

  /** Whether the record has a row after the submissions, if `stored` says whether it had one before. */
  predicate IsStored(stored: bool, xs: seq<Submission>, t: string, id: string) {
    if xs == [] then stored
    else if IsOn(Last(xs), t, id) && Last(xs).state == PreparedCreate then true
    else if IsOn(Last(xs), t, id) && Last(xs).state == PreparedDestroyPermanently then false
    else IsStored(stored, xs[..|xs| - 1], t, id)
  }

  /** The values that the record is created or updated with last. */
  function LastWritten(xs: seq<Submission>, t: string, id: string): Option<RawRecord> {
    if xs == [] then None
    else if IsOn(Last(xs), t, id) && IsWrite(Last(xs)) then Some(Last(xs).raw)
    else LastWritten(xs[..|xs| - 1], t, id)
  }

  /** The record is marked as deleted, and not written after that. */
  predicate IsMarked(xs: seq<Submission>, t: string, id: string) {
    if xs == [] then false
    else if IsOn(Last(xs), t, id) && Last(xs).state == PreparedMarkAsDeleted then true
    else if IsOn(Last(xs), t, id) && IsWrite(Last(xs)) then false
    else IsMarked(xs[..|xs| - 1], t, id)
  }

  predicate IsCreated(xs: seq<Submission>, t: string, id: string) {
    exists i :: 0 <= i < |xs| && IsOn(xs[i], t, id) && xs[i].state == PreparedCreate
  }

  predicate IsDestroyed(xs: seq<Submission>, t: string, id: string) {
    exists i :: 0 <= i < |xs| && IsOn(xs[i], t, id)
                && (xs[i].state == PreparedMarkAsDeleted || xs[i].state == PreparedDestroyPermanently)
  }

  predicate IsPrepared(xs: seq<Submission>) {
    forall i :: 0 <= i < |xs| ==> xs[i].state != Unprepared
  }

  /** No record is created that has a row by then. */
  predicate CreatesAreNew(store: Store, xs: seq<Submission>) {
    forall i :: 0 <= i < |xs| && xs[i].state == PreparedCreate ==>
      xs[i].table in store
      && !IsStored(xs[i].raw.id in store[xs[i].table], xs[..i], xs[i].table, xs[i].raw.id)
  }

  // ---- Rows ----

  /** The record's row has the values that were written last, or those from before, and is deleted if it was
      marked after that. */
  predicate RowIs(columns: seq<Column>, before: map<string, StoredRow>, row: StoredRow, xs: seq<Submission>,
                  t: string, id: string)
  {
    match LastWritten(xs, t, id)
    case Some(raw) =>
      && row.changed == SqlText(raw.changed) && row.columns == ColumnArgs(columns, raw)
      && row.status == SqlText(if IsMarked(xs, t, id) then "deleted" else StatusText(raw.status))
    case None =>
      && id in before && row.changed == before[id].changed && row.columns == before[id].columns
      && row.status == if IsMarked(xs, t, id) then SqlText("deleted") else before[id].status
  }

  ghost predicate RowAfter(columns: seq<Column>, before: map<string, StoredRow>, after: map<string, StoredRow>,
                           xs: seq<Submission>, t: string, id: string)
  {
    && (id in after <==> IsStored(id in before, xs, t, id))
    && (id in after ==> RowIs(columns, before, after[id], xs, t, id))
  }

  function OperationsFor(xs: seq<Submission>): seq<Operation> {
    seq(|xs|, i requires 0 <= i < |xs| => OperationFor(xs[i].table, xs[i].raw, xs[i].state))
  }

  lemma OneMoreRow(schema: Schema, store: Store, mid: Store, xs: seq<Submission>, x: Submission, t: string, id: string)
    requires schema.Keys == store.Keys == mid.Keys && t in schema && x.table in schema && x.state != Unprepared
    requires RowAfter(schema[t], store[t], mid[t], xs, t, id)
    requires var op := OperationFor(x.table, x.raw, x.state); Apply(schema, mid, op).Ok?
    ensures var after := Apply(schema, mid, OperationFor(x.table, x.raw, x.state)).value;
            after.Keys == schema.Keys && RowAfter(schema[t], store[t], after[t], xs + [x], t, id)
  {
    assert (xs + [x])[..|xs|] == xs;
  }

  lemma ApplyOneMore(schema: Schema, store: Store, xs: seq<Submission>)
    requires xs != []
    ensures var front, x := xs[..|xs| - 1], Last(xs);
            ApplyAll(schema, store, OperationsFor(xs)) ==
            match ApplyAll(schema, store, OperationsFor(front))
            case Ok(mid) => Apply(schema, mid, OperationFor(x.table, x.raw, x.state))
            case Thrown => Thrown
  {
    var front, x := xs[..|xs| - 1], Last(xs);
    var op := OperationFor(x.table, x.raw, x.state);
    assert OperationsFor(xs) == OperationsFor(front) + [op];
    ApplyAllConcat(schema, store, OperationsFor(front), [op]);
    assert [op][1..] == [];
  }

  /** Exactly when the statements of a batch go through, and what each record's row is then. */
  lemma {:induction false} RowsAfterBatch(schema: Schema, store: Store, xs: seq<Submission>, t: string, id: string)
    requires schema.Keys == store.Keys && t in schema && IsPrepared(xs)
    requires forall i :: 0 <= i < |xs| ==> xs[i].table in schema
    ensures ApplyAll(schema, store, OperationsFor(xs)).Ok? <==> CreatesAreNew(store, xs)
    ensures var after := ApplyAll(schema, store, OperationsFor(xs));
            after.Ok? ==> after.value.Keys == schema.Keys && RowAfter(schema[t], store[t], after.value[t], xs, t, id)
    decreases |xs|
  {
    if xs == [] {
      assert OperationsFor(xs) == [];
    } else {
      var front, x := xs[..|xs| - 1], Last(xs);
      RowsAfterBatch(schema, store, front, t, id);
      RowsAfterBatch(schema, store, front, x.table, x.raw.id);
      ApplyOneMore(schema, store, xs);
      NewSoFar(store, xs);
      if CreatesAreNew(store, front) && ApplyAll(schema, store, OperationsFor(xs)).Ok? {
        assert xs == front + [x];
        OneMoreRow(schema, store, ApplyAll(schema, store, OperationsFor(front)).value, front, x, t, id);
      }
    }
  }

  lemma NewSoFar(store: Store, xs: seq<Submission>)
    requires xs != [] && forall i :: 0 <= i < |xs| ==> xs[i].table in store
    ensures var front, x := xs[..|xs| - 1], Last(xs);
            CreatesAreNew(store, xs) <==>
              CreatesAreNew(store, front)
              && (x.state == PreparedCreate ==> !IsStored(x.raw.id in store[x.table], front, x.table, x.raw.id))
  {
    var front := xs[..|xs| - 1];
    assert forall i :: 0 <= i < |front| ==> front[i] == xs[i] && front[..i] == xs[..i];
  }

  /** The statements of a batch go through if and only if what it creates is new. */
  lemma GoesThroughIff(schema: Schema, store: Store, xs: seq<Submission>)
    requires schema.Keys == store.Keys && IsPrepared(xs) && forall i :: 0 <= i < |xs| ==> xs[i].table in schema
    ensures ApplyAll(schema, store, OperationsFor(xs)).Ok? <==> CreatesAreNew(store, xs)
  {
    if xs == [] {
      assert OperationsFor(xs) == [];
    } else {
      RowsAfterBatch(schema, store, xs, xs[0].table, "");
    }
  }

  /** What comes after the last submission on a record changes nothing about it. */
  lemma {:induction false} NothingAfterLast(stored: bool, xs: seq<Submission>, i: nat, n: nat)
    requires IsLast(xs, i) && i < n <= |xs|
    ensures var t, id := xs[i].table, xs[i].raw.id;
            && IsStored(stored, xs[..n], t, id) == IsStored(stored, xs[..i + 1], t, id)
            && LastWritten(xs[..n], t, id) == LastWritten(xs[..i + 1], t, id)
            && IsMarked(xs[..n], t, id) == IsMarked(xs[..i + 1], t, id)
    decreases n
  {
    if n == i + 1 {
    } else {
      NothingAfterLast(stored, xs, i, n - 1);
      assert xs[..n][..n - 1] == xs[..n - 1] && Last(xs[..n]) == xs[n - 1];
    }
  }

  /** The row of the last submission on a record: gone if it was to be destroyed, marked and otherwise as before if
      it was to be marked as deleted, and with the submitted values if it was to be created or updated. */
  predicate LastIsDone(columns: seq<Column>, before: map<string, StoredRow>, after: map<string, StoredRow>,
                       xs: seq<Submission>, i: nat)
    requires i < |xs|
  {
    var t, raw, front := xs[i].table, xs[i].raw, xs[..i];
    match xs[i].state
    case PreparedDestroyPermanently => raw.id !in after
    case PreparedMarkAsDeleted =>
      && (raw.id in after <==> IsStored(raw.id in before, front, t, raw.id))
      && (raw.id in after ==>
            && after[raw.id].status == SqlText("deleted")
            && match LastWritten(front, t, raw.id)
               case Some(w) =>
                 after[raw.id].changed == SqlText(w.changed) && after[raw.id].columns == ColumnArgs(columns, w)
               case None => raw.id in before && after[raw.id] == before[raw.id].(status := SqlText("deleted")))
    case PreparedUpdate =>
      && (raw.id in after <==> IsStored(raw.id in before, front, t, raw.id))
      && (raw.id in after ==>
            after[raw.id] == StoredRow(SqlText(StatusText(raw.status)), SqlText(raw.changed), ColumnArgs(columns, raw)))
    case _ =>
      && raw.id in after
      && after[raw.id] == StoredRow(SqlText(StatusText(raw.status)), SqlText(raw.changed), ColumnArgs(columns, raw))
  }

  lemma LastDecides(columns: seq<Column>, before: map<string, StoredRow>, after: map<string, StoredRow>,
                    xs: seq<Submission>, i: nat)
    requires IsLast(xs, i) && IsPrepared(xs)
    requires RowAfter(columns, before, after, xs, xs[i].table, xs[i].raw.id)
    ensures LastIsDone(columns, before, after, xs, i)
  {
    var t, id := xs[i].table, xs[i].raw.id;
    assert xs[..|xs|] == xs;
    assert xs[..i + 1][..i] == xs[..i] && Last(xs[..i + 1]) == xs[i];
    NothingAfterLast(id in before, xs, i, |xs|);
  }

  // ---- Cached models, and ids that are believed to be sent ----

  function EntriesFor<M>(records: seq<M>, xs: seq<Submission>): seq<Entry<M>>
    requires |records| == |xs|
  {
    seq(|xs|, i requires 0 <= i < |xs| => Entry(records[i], OperationFor(xs[i].table, xs[i].raw, xs[i].state)))
  }

  /** The last submission of a record that is to be created, marked as deleted or destroyed. */
  predicate IsLastChange(xs: seq<Submission>, i: int) {
    && 0 <= i < |xs| && xs[i].state != PreparedUpdate
    && forall j :: i < j < |xs| && IsOn(xs[j], xs[i].table, xs[i].raw.id) ==> xs[j].state == PreparedUpdate
  }

  /** A record is cached as the instance that created it last, not at all if it was marked or destroyed last, and
      as before if neither. */
  ghost predicate CacheAfter<M>(before: map<string, M>, after: map<string, M>, records: seq<M>, xs: seq<Submission>,
                                t: string)
    requires |records| == |xs|
  {
    && (forall i :: IsLastChange(xs, i) && xs[i].table == t ==>
          if xs[i].state == PreparedCreate then xs[i].raw.id in after && after[xs[i].raw.id] == records[i]
          else xs[i].raw.id !in after)
    && forall id :: !IsCreated(xs, t, id) && !IsDestroyed(xs, t, id) ==>
         (id in after <==> id in before) && (id in after ==> after[id] == before[id])
  }

  lemma {:induction false} LastChangeIs<M>(records: seq<M>, xs: seq<Submission>, i: nat, n: nat)
    requires |records| == |xs| && IsPrepared(xs) && IsLastChange(xs, i) && i < n <= |xs|
    ensures LastChange(EntriesFor(records, xs)[..n], xs[i].table, xs[i].raw.id) == Some(EntriesFor(records, xs)[i])
    decreases n
  {
    var entries := EntriesFor(records, xs);
    assert entries[..n][..n - 1] == entries[..n - 1] && Last(entries[..n]) == entries[n - 1];
    if n > i + 1 {
      LastChangeIs(records, xs, i, n - 1);
      assert IsOn(xs[n - 1], xs[i].table, xs[i].raw.id) ==> xs[n - 1].state == PreparedUpdate;
    }
  }

  lemma SubmittedOperations<M>(records: seq<M>, xs: seq<Submission>, t: string, id: string)
    requires |records| == |xs| && IsPrepared(xs)
    ensures Operations(EntriesFor(records, xs)) == OperationsFor(xs)
    ensures Creates(OperationsFor(xs), t, id) <==> IsCreated(xs, t, id)
    ensures Destroys(OperationsFor(xs), t, id) <==> IsDestroyed(xs, t, id)
  {
    var ops := OperationsFor(xs);
    forall i | 0 <= i < |xs|
      ensures ops[i].table == t && OperationId(ops[i]) == id <==> IsOn(xs[i], t, id)
      ensures ops[i].Create? <==> xs[i].state == PreparedCreate
      ensures IsDestroy(ops[i]) <==> xs[i].state == PreparedMarkAsDeleted || xs[i].state == PreparedDestroyPermanently
    {
    }
  }

  lemma CacheAfterBatch<M>(cache: map<string, M>, records: seq<M>, xs: seq<Submission>, t: string)
    requires |records| == |xs| && IsPrepared(xs)
    ensures CacheAfter(cache, Changes(cache, EntriesFor(records, xs), t), records, xs, t)
  {
    var entries := EntriesFor(records, xs);
    var after := Changes(cache, entries, t);
    forall i | IsLastChange(xs, i) && xs[i].table == t
      ensures if xs[i].state == PreparedCreate then xs[i].raw.id in after && after[xs[i].raw.id] == records[i]
              else xs[i].raw.id !in after
    {
      LastChangeIs(records, xs, i, |xs|);
      assert entries[..|xs|] == entries;
      LastChangeDecides(cache, entries, t, xs[i].raw.id);
    }
    forall id | !IsCreated(xs, t, id) && !IsDestroyed(xs, t, id)
      ensures (id in after <==> id in cache) && (id in after ==> after[id] == cache[id])
    {
      SubmittedOperations(records, xs, t, id);
      UntouchedKeepsModel(cache, entries, t, id);
    }
  }

  /** The id is believed to be sent if it was, or the batch creates it, unless the batch marks or destroys it. */
  ghost predicate SentAfter(before: set<string>, after: set<string>, xs: seq<Submission>, t: string, id: string) {
    CacheKey(t, id) in after <==>
      (CacheKey(t, id) in before || IsCreated(xs, t, id)) && !IsDestroyed(xs, t, id)
  }

  lemma SentAfterBatch(sent: set<string>, xs: seq<Submission>, t: string, id: string)
    requires IsPrepared(xs) && '$' !in t && forall i :: 0 <= i < |xs| ==> '$' !in xs[i].table
    ensures SentAfter(sent, sent + OperationKeys(OperationsFor(xs), ADD_TO_CACHE)
                            - OperationKeys(OperationsFor(xs), REMOVE_FROM_CACHE), xs, t, id)
  {
    BatchKeys(OperationsFor(xs), t, id);
    SubmittedOperations(xs, xs, t, id);
  }

  // ---- All of it ----

  /** Rows, ids believed to be sent, and caches of all tables. */
  datatype Side<M> = Side(store: Store, sent: set<string>, caches: map<string, map<string, M>>)

  ghost predicate IsDone<M>(schema: Schema, before: Side<M>, after: Side<M>, records: seq<M>, xs: seq<Submission>) {
    && |records| == |xs| && before.store.Keys == after.store.Keys == schema.Keys
    && before.caches.Keys == after.caches.Keys == schema.Keys
    && (forall t, id {:trigger RowAfter(schema[t], before.store[t], after.store[t], xs, t, id)} :: t in schema ==>
          RowAfter(schema[t], before.store[t], after.store[t], xs, t, id))
    && (forall t, id {:trigger SentAfter(before.sent, after.sent, xs, t, id)} :: t in schema ==>
          SentAfter(before.sent, after.sent, xs, t, id))
    && forall t :: t in schema ==> CacheAfter(before.caches[t], after.caches[t], records, xs, t)
  }

  lemma SubmissionsAreDone<M>(schema: Schema, before: Side<M>, after: Side<M>, records: seq<M>, xs: seq<Submission>)
    requires |records| == |xs| && IsPrepared(xs) && forall i :: 0 <= i < |xs| ==> xs[i].table in schema
    requires before.store.Keys == before.caches.Keys == after.caches.Keys == schema.Keys
    requires forall t :: t in schema ==> '$' !in t
    requires ApplyAll(schema, before.store, OperationsFor(xs)) == Ok(after.store)
    requires after.sent == before.sent + OperationKeys(OperationsFor(xs), ADD_TO_CACHE)
                           - OperationKeys(OperationsFor(xs), REMOVE_FROM_CACHE)
    requires forall t :: t in schema ==> after.caches[t] == Changes(before.caches[t], EntriesFor(records, xs), t)
    ensures IsDone(schema, before, after, records, xs)
  {
    forall t, id | t in schema
      ensures after.store.Keys == schema.Keys && RowAfter(schema[t], before.store[t], after.store[t], xs, t, id)
      ensures SentAfter(before.sent, after.sent, xs, t, id)
    {
      RowsAfterBatch(schema, before.store, xs, t, id);
      SentAfterBatch(before.sent, xs, t, id);
    }
    forall t | t in schema
      ensures CacheAfter(before.caches[t], after.caches[t], records, xs, t)
    {
      CacheAfterBatch(before.caches[t], records, xs, t);
    }
    if xs == [] {
      assert OperationsFor(xs) == [];
    } else {
      RowsAfterBatch(schema, before.store, xs, xs[0].table, "");
    }
  }

  /** The record as it is stored, cached and believed to be sent after the last change submitted of it. */
  ghost predicate IsCarriedOut<M>(schema: Schema, after: Side<M>, x: Submission, m: M) {
    && x.table in schema && x.table in after.store && x.table in after.caches
    && var rows, cache, id := after.store[x.table], after.caches[x.table], x.raw.id;
       match x.state
       case PreparedDestroyPermanently => id !in rows && id !in cache && CacheKey(x.table, id) !in after.sent
       case PreparedMarkAsDeleted =>
         && (id in rows ==> rows[id].status == SqlText("deleted"))
         && id !in cache && CacheKey(x.table, id) !in after.sent
       case PreparedUpdate =>
         id in rows ==> |rows[id].columns| == |schema[x.table]| && Loaded(schema[x.table], id, rows[id]) == x.raw
       case _ =>
         && id in rows && |rows[id].columns| == |schema[x.table]| && Loaded(schema[x.table], id, rows[id]) == x.raw
         && id in cache && cache[id] == m
  }

  ghost predicate AllCarriedOut<M>(schema: Schema, after: Side<M>, records: seq<M>, xs: seq<Submission>) {
    |records| == |xs| && forall i :: IsLast(xs, i) ==> IsCarriedOut(schema, after, xs[i], records[i])
  }

  lemma LastRowLoads(columns: seq<Column>, before: map<string, StoredRow>, after: map<string, StoredRow>,
                     xs: seq<Submission>, i: nat)
    requires DistinctNames(columns) && NoReservedNames(columns) && IsLast(xs, i) && IsWrite(xs[i])
    requires Sanitized(xs[i].raw, columns) && xs[i].raw.status != Disposable
             && LastIsDone(columns, before, after, xs, i)
    ensures var id := xs[i].raw.id;
            && (xs[i].state == PreparedCreate ==> id in after)
            && (id in after ==> |after[id].columns| == |columns| && Loaded(columns, id, after[id]) == xs[i].raw)
  {
    LoadedStored(columns, xs[i].raw);
  }

  lemma LastIsCarriedOut<M>(schema: Schema, before: Side<M>, after: Side<M>, records: seq<M>, xs: seq<Submission>,
                            i: nat)
    requires ValidSchema(schema) && IsPrepared(xs) && IsLast(xs, i) && IsDone(schema, before, after, records, xs)
    requires xs[i].table in schema && Sanitized(xs[i].raw, schema[xs[i].table]) && xs[i].raw.status != Disposable
    ensures IsCarriedOut(schema, after, xs[i], records[i])
  {
    var t, id := xs[i].table, xs[i].raw.id;
    assert RowAfter(schema[t], before.store[t], after.store[t], xs, t, id);
    assert SentAfter(before.sent, after.sent, xs, t, id);
    LastDecides(schema[t], before.store[t], after.store[t], xs, i);
    if IsWrite(xs[i]) {
      LastRowLoads(schema[t], before.store[t], after.store[t], xs, i);
    }
    assert xs[i].state != PreparedUpdate ==> IsLastChange(xs, i);
  }
}
