/** The native side of the bridge: rows, and the set of ids it has already sent to JavaScript. */
module NativeRecords {
  import opened Sequences
  import opened Results
  import opened RawRecords
  import opened BatchEncoding
  import opened BridgeTheory
  import opened CacheKeys

  /** What crosses the bridge for one record: the bare id once the record has been sent, or its row. */
  datatype Sent = SentId(id: string) | SentRow(dirty: DirtyRaw)

  /** The compressed form of a query result: the column names once, then values or bare ids. */
  datatype Item = ColumnNames(names: seq<string>) | Values(values: seq<SqliteValue>) | BareId(id: string)

  /** The columns in the order of the table: `standardColumns`, then those of the schema. */
  function ResultColumns(columns: seq<Column>): seq<string> {
    ["id", "_changed", "_status"] + seq(|columns|, i requires 0 <= i < |columns| => columns[i].name)
  }

  function ResultValues(id: string, row: StoredRow): seq<SqliteValue> {
    [SqlText(id), row.changed, row.status] + row.columns
  }

  function DecodedRow(names: seq<string>, values: seq<SqliteValue>): DirtyRaw
    requires |names| == |values|
  {
    if names == [] then map[]
    else
      var n := |names| - 1;
      DecodedRow(names[..n], values[..n])[names[n] := FromSqlite(values[n])]
  }

  lemma RowWithoutColumns(id: string, row: StoredRow)
    requires row.columns == []
    ensures DecodedRow(ResultColumns([]), ResultValues(id, row)) == LoadRow([], id, row)
  {
    var names, values := ResultColumns([]), ResultValues(id, row);
    var n1, v1 := ["id"], [SqlText(id)];
    var n2, v2 := n1 + ["_changed"], v1 + [row.changed];
    assert n2[..1] == n1 && v2[..1] == v1 && names[..2] == n2 && values[..2] == v2;
    assert DecodedRow(n1, v1) == map["id" := Text(id)];
    assert DecodedRow(n2, v2) == map["id" := Text(id), "_changed" := FromSqlite(row.changed)];
  }

  /** Decoding a compressed row gives the same dirty record as sending it as a dictionary. */
  lemma {:induction false} DecodedRowIsLoaded(columns: seq<Column>, id: string, row: StoredRow)
    requires |row.columns| == |columns| && NoReservedNames(columns)
    ensures DecodedRow(ResultColumns(columns), ResultValues(id, row)) == LoadRow(columns, id, row)
    decreases |columns|
  {
    var names, values := ResultColumns(columns), ResultValues(id, row);
    var n := |columns|;
    if n == 0 {
      RowWithoutColumns(id, row);
    } else {
      var shorter := row.(columns := row.columns[..n - 1]);
      assert forall c :: c in columns[..n - 1] ==> c in columns;
      DecodedRowIsLoaded(columns[..n - 1], id, shorter);
      assert names[..n + 2] == ResultColumns(columns[..n - 1]);
      assert values[..n + 2] == ResultValues(id, shorter);
      assert columns[n - 1] in columns;
    }
  }

  function DecodedItem(names: seq<string>, item: Item): Sent
    requires !item.ColumnNames? && (item.Values? ==> |item.values| == |names|)
  {
    if item.BareId? then SentId(item.id) else SentRow(DecodedRow(names, item.values))
  }

  /** `decodeQueryResult` */
  method DecodeQueryResult(items: seq<Item>) returns (records: seq<Sent>)
    requires items != [] ==> items[0].ColumnNames?
    requires forall i :: 0 < i < |items| ==> !items[i].ColumnNames?
    requires forall i :: 0 < i < |items| && items[i].Values? ==> |items[i].values| == |items[0].names|
    ensures |records| == if items == [] then 0 else |items| - 1
    ensures forall i :: 0 <= i < |records| ==>
              records[i] == DecodedItem(items[0].names, items[i + 1])
  {
    records := [];
    if items == [] {
      return;
    }
    var names := items[0].names;
    for i := 1 to |items|
      invariant |records| == i - 1
      invariant forall j :: 0 <= j < |records| ==>
                  records[j] == DecodedItem(names, items[j + 1])
    {
      if items[i].BareId? {
        records := records + [SentId(items[i].id)];
      } else {
        var values, raw := items[i].values, map[];
        for j := 0 to |names|
          invariant raw == DecodedRow(names[..j], values[..j])
        {
          assert names[..j + 1][..j] == names[..j] && values[..j + 1][..j] == values[..j];
          raw := raw[names[j] := FromSqlite(values[j])];
        }
        assert names[..|names|] == names && values[..|names|] == values;
        records := records + [SentRow(raw)];
      }
    }
  }

  /** What a query sends for the `i`-th selected id: a row only the first time an id is sent at all. */
  function SentFor(columns: seq<Column>, rows: map<string, StoredRow>, sent: set<string>, t: string,
                   selected: seq<string>, i: nat): Sent
    requires i < |selected| && selected[i] in rows && |rows[selected[i]].columns| == |columns|
  {
    if CacheKey(t, selected[i]) in sent || selected[i] in selected[..i] then SentId(selected[i])
    else SentRow(LoadRow(columns, selected[i], rows[selected[i]]))
  }

  /** The same in the compressed form. */
  function ItemFor(columns: seq<Column>, rows: map<string, StoredRow>, sent: set<string>, t: string,
                   selected: seq<string>, i: nat): Item
    requires i < |selected| && selected[i] in rows && |rows[selected[i]].columns| == |columns|
  {
    match SentFor(columns, rows, sent, t, selected, i)
    case SentId(id) => BareId(id)
    case SentRow(_) => Values(ResultValues(selected[i], rows[selected[i]]))
  }

  /** A bare id exactly where the id was sent before, by an earlier query or earlier in the result; else the row's
      values. */
  lemma ItemIs(columns: seq<Column>, rows: map<string, StoredRow>, sent: set<string>, t: string,
               selected: seq<string>, i: nat)
    requires i < |selected| && selected[i] in rows && |rows[selected[i]].columns| == |columns|
    ensures ItemFor(columns, rows, sent, t, selected, i) ==
            if CacheKey(t, selected[i]) in sent || exists j :: 0 <= j < i && selected[j] == selected[i]
            then BareId(selected[i])
            else Values([SqlText(selected[i]), rows[selected[i]].changed, rows[selected[i]].status]
                        + rows[selected[i]].columns)
  {
    if j :| 0 <= j < i && selected[j] == selected[i] {
      assert selected[..i][j] == selected[i];
    }
  }

  /** Decoding a compressed item gives what would have been sent without compression. */
  lemma DecodedItemIsSent(columns: seq<Column>, rows: map<string, StoredRow>, sent: set<string>, t: string,
                          selected: seq<string>, i: nat)
    requires i < |selected| && selected[i] in rows && |rows[selected[i]].columns| == |columns|
             && NoReservedNames(columns)
    ensures var item := ItemFor(columns, rows, sent, t, selected, i);
            && !item.ColumnNames? && (item.Values? ==> |item.values| == |ResultColumns(columns)|)
            && DecodedItem(ResultColumns(columns), item) == SentFor(columns, rows, sent, t, selected, i)
  {
    DecodedRowIsLoaded(columns, selected[i], rows[selected[i]]);
  }

  /** The first argument of every statement that changes the set of sent ids is a text. */
  predicate KeyIsText(operation: NativeOperation) {
    operation.cacheBehavior != IGNORE_CACHE ==>
      forall k :: 0 <= k < |operation.argBatches| && operation.argBatches[k] != [] ==>
          operation.argBatches[k][0].SqlText?
  }

  predicate KeysAreText(operations: seq<NativeOperation>) {
    forall i :: 0 <= i < |operations| ==> KeyIsText(operations[i])
  }

  /** What `bindArgsAndReturnId` returns. */
  function ReturnedId(args: seq<SqliteValue>): string {
    if args != [] && args[0].SqlText? then args[0].s else ""
  }

  /** The table is read only where it matters. */
  function JsonTable(operation: NativeOperation): string {
    if operation.cacheBehavior == IGNORE_CACHE then "" else operation.table
  }

  function JsonArgumentKeys(table: string, argBatches: seq<seq<SqliteValue>>): set<string> {
    if argBatches == [] then {}
    else {CacheKey(table, ReturnedId(argBatches[0]))} + JsonArgumentKeys(table, argBatches[1..])
  }

  function JsonKeysOf(batch: seq<NativeOperation>, behavior: int): set<string> {
    if batch == [] then {}
    else
      (if batch[0].cacheBehavior == behavior then JsonArgumentKeys(JsonTable(batch[0]), batch[0].argBatches) else {})
      + JsonKeysOf(batch[1..], behavior)
  }

  /** Every list of arguments that matters for the sent ids starts with one. */
  predicate HasIds(operation: NativeOperation) {
    operation.cacheBehavior != IGNORE_CACHE ==>
      forall k :: 0 <= k < |operation.argBatches| ==>
          operation.argBatches[k] != [] && operation.argBatches[k][0].SqlText?
  }

  lemma {:induction false} JsonArgumentKeysAgree(table: string, argBatches: seq<seq<SqliteValue>>)
    requires forall k :: 0 <= k < |argBatches| ==> argBatches[k] != [] && argBatches[k][0].SqlText?
    ensures JsonArgumentKeys(table, argBatches) == ArgumentKeys(table, argBatches)
  {
    if argBatches == [] {
      assert ArgumentKeys(table, argBatches) == {};
    } else {
      JsonArgumentKeysAgree(table, argBatches[1..]);
    }
  }

  /** `batchJSON` and `batch` name the same ids where every list of arguments starts with one. */
  lemma {:induction false} JsonKeysAgree(batch: seq<NativeOperation>, behavior: int)
    requires behavior != IGNORE_CACHE && forall i :: 0 <= i < |batch| ==> HasIds(batch[i])
    ensures JsonKeysOf(batch, behavior) == KeysOf(batch, behavior)
  {
    if batch == [] {
      assert KeysOf(batch, behavior) == {};
    } else {
      JsonKeysAgree(batch[1..], behavior);
      if batch[0].cacheBehavior == behavior {
        JsonArgumentKeysAgree(batch[0].table, batch[0].argBatches);
      }
    }
  }

  class NativeDatabase {
    const columns: Schema
    var store: Store
    var cachedRecords: set<string>

    ghost predicate Valid()
      reads this`store
    {
      ValidSchema(columns) && WellFormed(columns, store)
    }

    ghost predicate Selects(t: string, selected: seq<string>)
      reads this`store
    {
      t in store && forall i :: 0 <= i < |selected| ==> selected[i] in store[t]
    }

    /** Opened on the rows that are there. */
    constructor (columns: Schema, rows: Store)
      requires ValidSchema(columns) && WellFormed(columns, rows)
      ensures Valid() && this.columns == columns && store == rows && cachedRecords == {}
    {
      this.columns, store, cachedRecords := columns, rows, {};
    }

    method Find(t: string, id: string) returns (r: Option<Sent>)
      requires Valid() && t in store
      modifies this`cachedRecords
      ensures old(CacheKey(t, id) in cachedRecords) ==> r == Some(SentId(id)) && cachedRecords == old(cachedRecords)
      ensures old(CacheKey(t, id) !in cachedRecords) ==>
                if id in store[t]
                then r == Some(SentRow(LoadRow(columns[t], id, store[t][id])))
                  && cachedRecords == old(cachedRecords) + {CacheKey(t, id)}
                else r == None && cachedRecords == old(cachedRecords)
    {
      if CacheKey(t, id) in cachedRecords {
        return Some(SentId(id));
      }
      if id !in store[t] {
        return None;
      }
      r := Some(SentRow(LoadRow(columns[t], id, store[t][id])));
      cachedRecords := cachedRecords + {CacheKey(t, id)};
    }

    /** `selected` are the ids of the rows that the query selects, in order; joins may repeat an id. `steps`
        is how many rows can be stepped before stepping throws, if it does: then the ids of those rows stay
        marked as sent although nothing was sent. */
    method Query(t: string, selected: seq<string>, steps: nat) returns (r: Result<seq<Sent>>)
      requires Valid() && Selects(t, selected)
      modifies this`cachedRecords
      ensures r.Ok? <==> |selected| <= steps
      ensures cachedRecords == old(cachedRecords) + CacheKeysOf(t, Take(selected, steps))
      ensures r.Ok? ==> |r.value| == |selected|
      ensures r.Ok? ==> forall i :: 0 <= i < |selected| ==>
                r.value[i] == SentFor(columns[t], store[t], old(cachedRecords), t, selected, i)
      ensures r.Ok? ==> forall i :: 0 <= i < |selected| ==>
                r.value[i] == if old(CacheKey(t, selected[i]) in cachedRecords) || selected[i] in selected[..i]
                              then SentId(selected[i])
                              else SentRow(LoadRow(columns[t], selected[i], store[t][selected[i]]))
    {
      var records := [];
      for i := 0 to |selected|
        invariant i <= steps
        invariant cachedRecords == old(cachedRecords) + CacheKeysOf(t, selected[..i])
        invariant |records| == i
        invariant forall j :: 0 <= j < i ==>
                    records[j] == SentFor(columns[t], store[t], old(cachedRecords), t, selected, j)
      {
        if i == steps {
          return Thrown;
        }
        var id := selected[i];
        SentBefore(t, selected[..i], id);
        if CacheKey(t, id) in cachedRecords {
          records := records + [SentId(id)];
        } else {
          cachedRecords := cachedRecords + {CacheKey(t, id)};
          records := records + [SentRow(LoadRow(columns[t], id, store[t][id]))];
        }
        assert selected[..i + 1] == selected[..i] + [id];
      }
      assert selected[..|selected|] == selected;
      r := Ok(records);
    }

    lemma SentBefore(t: string, selected: seq<string>, id: string)
      requires ValidSchema(columns) && t in columns
      ensures CacheKey(t, id) in (set i | i in selected :: CacheKey(t, i)) <==> id in selected
    {
      forall i | i in selected
        ensures CacheKey(t, i) == CacheKey(t, id) <==> i == id
      {
        CacheKeyInjective(t, i, t, id);
      }
    }

    /** The same in the compressed form. */
    method QueryAsArray(t: string, selected: seq<string>, steps: nat) returns (r: Result<seq<Item>>)
      requires Valid() && Selects(t, selected)
      modifies this`cachedRecords
      ensures r.Ok? <==> |selected| <= steps
      ensures cachedRecords == old(cachedRecords) + CacheKeysOf(t, Take(selected, steps))
      ensures r.Ok? ==> |r.value| == if selected == [] then 0 else |selected| + 1
      ensures r.Ok? && r.value != [] ==> r.value[0] == ColumnNames(ResultColumns(columns[t]))
      ensures r.Ok? ==> forall i :: 0 <= i < |selected| ==>
                r.value[i + 1] == ItemFor(columns[t], store[t], old(cachedRecords), t, selected, i)
    {
      var items := [];
      for i := 0 to |selected|
        invariant i <= steps
        invariant cachedRecords == old(cachedRecords) + CacheKeysOf(t, selected[..i])
        invariant |items| == if i == 0 then 0 else i + 1
        invariant items != [] ==> items[0] == ColumnNames(ResultColumns(columns[t]))
        invariant forall j :: 0 <= j < i ==>
                    items[j + 1] == ItemFor(columns[t], store[t], old(cachedRecords), t, selected, j)
      {
        if i == steps {
          return Thrown;
        }
        var id := selected[i];
        SentBefore(t, selected[..i], id);
        if items == [] {
          items := [ColumnNames(ResultColumns(columns[t]))];
        }
        if CacheKey(t, id) in cachedRecords {
          items := items + [BareId(id)];
        } else {
          cachedRecords := cachedRecords + {CacheKey(t, id)};
          items := items + [Values(ResultValues(id, store[t][id]))];
        }
        assert selected[..i + 1] == selected[..i] + [id];
      }
      assert selected[..|selected|] == selected;
      r := Ok(items);
    }

    /** `batch`: all statements in one transaction, rolled back when one of them throws; only after the
        commit does the set of sent ids change. `commits` tells whether SQLite commits. */
    method Batch(operations: seq<NativeOperation>, commits: bool) returns (ok: bool)
      modifies this`store, this`cachedRecords
      ensures ok <==> commits && ExecuteNative(old(store), operations).Ok? && KeysAreText(operations)
      ensures ok ==> ExecuteNative(old(store), operations) == Ok(store)
      ensures ok ==> cachedRecords ==
                     old(cachedRecords) + KeysOf(operations, ADD_TO_CACHE) - KeysOf(operations, REMOVE_FROM_CACHE)
      ensures !ok ==> store == old(store) && cachedRecords == old(cachedRecords)
    {
      var snapshot := store;
      var addedIds, removedIds := {}, {};
      for i := 0 to |operations|
        invariant ExecuteNative(store, operations[i..]) == ExecuteNative(old(store), operations)
        invariant addedIds + KeysOf(operations[i..], ADD_TO_CACHE) == KeysOf(operations, ADD_TO_CACHE)
        invariant removedIds + KeysOf(operations[i..], REMOVE_FROM_CACHE) == KeysOf(operations, REMOVE_FROM_CACHE)
        invariant KeysAreText(operations[..i]) && cachedRecords == old(cachedRecords)
      {
        assert operations[i..] == [operations[i]] + operations[i + 1..];
        assert operations[..i + 1] == operations[..i] + [operations[i]];
        var executed, added, removed := RunOperation(operations[i]);
        if !executed {
          store := snapshot;
          return false;
        }
        addedIds, removedIds := addedIds + added, removedIds + removed;
      }
      assert operations[|operations|..] == [];
      assert operations[..|operations|] == operations;
      if !commits {
        store := snapshot;
        return false;
      }
      cachedRecords := cachedRecords + addedIds - removedIds;
      ok := true;
    }

    /** The inner loop: one statement, run with each of its argument lists. */
    method RunOperation(operation: NativeOperation) returns (ok: bool, added: set<string>, removed: set<string>)
      modifies this`store
      ensures ok <==> ExecuteAll(old(store), operation.sql, operation.argBatches).Ok? && KeyIsText(operation)
      ensures ok ==> ExecuteAll(old(store), operation.sql, operation.argBatches) == Ok(store)
      ensures ok ==> added == if operation.cacheBehavior == ADD_TO_CACHE
                              then ArgumentKeys(operation.table, operation.argBatches) else {}
      ensures ok ==> removed == if operation.cacheBehavior == REMOVE_FROM_CACHE
                                then ArgumentKeys(operation.table, operation.argBatches) else {}
    {
      var argBatches := operation.argBatches;
      ok, added, removed := false, {}, {};
      for j := 0 to |argBatches|
        invariant ExecuteAll(store, operation.sql, argBatches[j..]) == ExecuteAll(old(store), operation.sql, argBatches)
        invariant operation.cacheBehavior == ADD_TO_CACHE ==>
                    added + ArgumentKeys(operation.table, argBatches[j..]) == ArgumentKeys(operation.table, argBatches)
        invariant operation.cacheBehavior != ADD_TO_CACHE ==> added == {}
        invariant operation.cacheBehavior == REMOVE_FROM_CACHE ==>
                    removed + ArgumentKeys(operation.table, argBatches[j..])
                        == ArgumentKeys(operation.table, argBatches)
        invariant operation.cacheBehavior != REMOVE_FROM_CACHE ==> removed == {}
        invariant operation.cacheBehavior != IGNORE_CACHE ==> forall k :: 0 <= k < j && argBatches[k] != [] ==>
                    argBatches[k][0].SqlText?
      {
        var args := argBatches[j];
        assert argBatches[j..] == [args] + argBatches[j + 1..];
        var executed := Execute(store, operation.sql, args);
        if executed.Thrown? || (operation.cacheBehavior != IGNORE_CACHE && args != [] && !args[0].SqlText?) {
          return;
        }
        store := executed.value;
        if operation.cacheBehavior != IGNORE_CACHE && args != [] {
          var key := CacheKey(operation.table, args[0].s);
          if operation.cacheBehavior == ADD_TO_CACHE {
            added := added + {key};
          } else if operation.cacheBehavior == REMOVE_FROM_CACHE {
            removed := removed + {key};
          }
        }
      }
      assert argBatches[|argBatches|..] == [];
      ok := true;
    }

    /** `batchJSON`: the form in which batches arrive. The id is the first argument of each list if that is
        a text, and empty otherwise. */
    method BatchJson(operations: seq<NativeOperation>, commits: bool) returns (ok: bool)
      modifies this`store, this`cachedRecords
      ensures ok <==> commits && ExecuteNative(old(store), operations).Ok?
      ensures ok ==> ExecuteNative(old(store), operations) == Ok(store)
      ensures ok ==> cachedRecords ==
                     old(cachedRecords) + JsonKeysOf(operations, ADD_TO_CACHE)
                     - JsonKeysOf(operations, REMOVE_FROM_CACHE)
      ensures !ok ==> store == old(store) && cachedRecords == old(cachedRecords)
    {
      var snapshot := store;
      var addedIds, removedIds := {}, {};
      for i := 0 to |operations|
        invariant ExecuteNative(store, operations[i..]) == ExecuteNative(old(store), operations)
        invariant addedIds + JsonKeysOf(operations[i..], ADD_TO_CACHE) == JsonKeysOf(operations, ADD_TO_CACHE)
        invariant removedIds + JsonKeysOf(operations[i..], REMOVE_FROM_CACHE)
                  == JsonKeysOf(operations, REMOVE_FROM_CACHE)
        invariant cachedRecords == old(cachedRecords)
      {
        assert operations[i..] == [operations[i]] + operations[i + 1..];
        var executed, keys := RunJsonOperation(operations[i]);
        if !executed {
          store := snapshot;
          return false;
        }
        if operations[i].cacheBehavior == ADD_TO_CACHE {
          addedIds := addedIds + keys;
        } else if operations[i].cacheBehavior == REMOVE_FROM_CACHE {
          removedIds := removedIds + keys;
        }
      }
      assert operations[|operations|..] == [];
      if !commits {
        store := snapshot;
        return false;
      }
      cachedRecords := cachedRecords + addedIds - removedIds;
      ok := true;
    }

    method RunJsonOperation(operation: NativeOperation) returns (ok: bool, keys: set<string>)
      modifies this`store
      ensures ok <==> ExecuteAll(old(store), operation.sql, operation.argBatches).Ok?
      ensures ok ==> ExecuteAll(old(store), operation.sql, operation.argBatches) == Ok(store)
      ensures ok ==> keys == JsonArgumentKeys(JsonTable(operation), operation.argBatches)
    {
      var argBatches, table := operation.argBatches, JsonTable(operation);
      ok, keys := false, {};
      for j := 0 to |argBatches|
        invariant ExecuteAll(store, operation.sql, argBatches[j..]) == ExecuteAll(old(store), operation.sql, argBatches)
        invariant keys + JsonArgumentKeys(table, argBatches[j..]) == JsonArgumentKeys(table, argBatches)
      {
        assert argBatches[j..] == [argBatches[j]] + argBatches[j + 1..];
        var executed := Execute(store, operation.sql, argBatches[j]);
        if executed.Thrown? {
          return;
        }
        store := executed.value;
        keys := keys + {CacheKey(table, ReturnedId(argBatches[j]))};
      }
      assert argBatches[|argBatches|..] == [];
      ok := true;
    }

    /** `destroyMatching`. A whole-table statement is used only when the query selects every row. */
    method DestroyMatching(t: string, selected: seq<string>, permanently: bool, isUnconditional: bool, commits: bool)
      returns (r: Result<seq<string>>)
      requires Valid() && Selects(t, selected)
      requires isUnconditional ==> forall id :: id in store[t] ==> id in selected
      modifies this`store, this`cachedRecords
      ensures Valid() && (r.Ok? <==> commits)
      ensures r.Thrown? ==> store == old(store) && cachedRecords == old(cachedRecords)
      ensures r.Ok? ==> r.value == selected && store == Destroyed(old(store), t, Elements(selected), permanently)
      ensures r.Ok? ==> cachedRecords == old(cachedRecords) - CacheKeysOf(t, selected)
    {
      var ids := [];
      for i := 0 to |selected|
        invariant ids == selected[..i]
      {
        ids := ids + [selected[i]];
      }
      if !commits {
        return Thrown;
      }
      assert ids == selected;
      var rows := store[t];
      if ids != [] {
        if isUnconditional {
          assert rows.Keys == Elements(selected);
          assert rows - Elements(selected) == map[];
          store := store[t := if permanently then map[] else MarkedDeleted(rows, rows.Keys)];
        } else {
          store := store[t := if permanently then rows - Elements(ids) else MarkedDeleted(rows, Elements(ids))];
        }
      } else {
        assert Elements(selected) == {};
        assert MarkedDeleted(rows, {}) == rows && rows - {} == rows;
        assert store == store[t := rows];
      }
      for i := 0 to |ids|
        modifies this`cachedRecords
        invariant cachedRecords == old(cachedRecords) - CacheKeysOf(t, ids[..i])
      {
        assert ids[..i + 1] == ids[..i] + [ids[i]];
        cachedRecords := cachedRecords - {CacheKey(t, ids[i])};
      }
      assert ids[..|ids|] == ids;
      r := Ok(ids);
    }

    /** `unsafeResetDatabase` */
    method UnsafeReset()
      requires Valid()
      modifies this`store, this`cachedRecords
      ensures Valid() && cachedRecords == {} && forall t :: t in store ==> store[t] == map[]
    {
      store, cachedRecords := map t | t in columns :: map[], {};
    }

    /** The adapter's recovery step: forget which ids were sent. */
    method ClearCachedRecords()
      modifies this`cachedRecords
      ensures cachedRecords == {}
    {
      cachedRecords := {};
    }
  }

  /** What a mass destroy leaves of the rows. */
  function Destroyed(store: Store, t: string, ids: set<string>, permanently: bool): Store
    requires t in store
  {
    store[t := if permanently then store[t] - ids else MarkedDeleted(store[t], ids)]
  }

  function MarkedDeleted(rows: map<string, StoredRow>, ids: set<string>): map<string, StoredRow> {
    map id | id in rows :: if id in ids then rows[id].(status := SqlText("deleted")) else rows[id]
  }

  /** Exactly the rows of these ids are gone, or marked as deleted and otherwise as they were. */
  ghost predicate AreDestroyed(before: Store, t: string, ids: set<string>, permanently: bool, after: Store) {
    && t in before && after.Keys == before.Keys
    && (forall u :: u in before && u != t ==> after[u] == before[u])
    && (forall id :: id in after[t] <==> id in before[t] && !(permanently && id in ids))
    && forall id :: id in after[t] ==>
         after[t][id] == if id in ids then StoredRow(SqlText("deleted"), before[t][id].changed, before[t][id].columns)
                         else before[t][id]
  }

  lemma DestroyedIs(store: Store, t: string, ids: set<string>, permanently: bool)
    requires t in store
    ensures AreDestroyed(store, t, ids, permanently, Destroyed(store, t, ids, permanently))
  {
  }

  /** The batch that an adapter without `destroyMatching` gets instead. */
  function DestroyOperations(t: string, ids: seq<string>, permanently: bool): seq<Operation> {
    if ids == [] then []
    else DestroyOperations(t, ids[..|ids| - 1], permanently)
         + [if permanently then DestroyPermanently(t, Last(ids)) else MarkAsDeleted(t, Last(ids))]
  }

  /** Destroying the selected ids one by one in a batch is `destroyMatching`, for the rows and for the
      set of sent ids alike. */
  lemma {:induction false} FallbackDestroysTheSame(schema: Schema, store: Store, t: string, ids: seq<string>,
                                                   permanently: bool)
    requires t in schema && t in store
    ensures ApplyAll(schema, store, DestroyOperations(t, ids, permanently))
            == Ok(Destroyed(store, t, Elements(ids), permanently))
    ensures OperationKeys(DestroyOperations(t, ids, permanently), REMOVE_FROM_CACHE) ==
            CacheKeysOf(t, ids)
    ensures OperationKeys(DestroyOperations(t, ids, permanently), ADD_TO_CACHE) == {}
    decreases |ids|
  {
    if ids == [] {
      assert Elements(ids) == {};
      assert store[t] - {} == store[t] && MarkedDeleted(store[t], {}) == store[t];
      assert Destroyed(store, t, {}, permanently) == store;
    } else {
      var front, id := ids[..|ids| - 1], Last(ids);
      FallbackDestroysTheSame(schema, store, t, front, permanently);
      var ops := DestroyOperations(t, front, permanently);
      var last := if permanently then DestroyPermanently(t, id) else MarkAsDeleted(t, id);
      ApplyAllConcat(schema, store, ops, [last]);
      OperationKeysConcat(ops, [last], REMOVE_FROM_CACHE);
      OperationKeysConcat(ops, [last], ADD_TO_CACHE);
      assert [last][1..] == [];
      assert ids == front + [id];
      DestroyedOneMore(schema, store, t, Elements(front), id, permanently);
      assert Elements(ids) == Elements(front) + {id};
      var after := Destroyed(store, t, Elements(ids), permanently);
      assert ApplyAll(schema, after, [last][1..]) == Ok(after);
    }
  }

  lemma DestroyedOneMore(schema: Schema, store: Store, t: string, ids: set<string>, id: string, permanently: bool)
    requires t in schema && t in store
    ensures Apply(schema, Destroyed(store, t, ids, permanently),
                  if permanently then DestroyPermanently(t, id) else MarkAsDeleted(t, id))
            == Ok(Destroyed(store, t, ids + {id}, permanently))
  {
    var rows := store[t];
    var before, after := Destroyed(store, t, ids, permanently), Destroyed(store, t, ids + {id}, permanently);
    assert before[t := after[t]] == after;
    if permanently {
      assert (rows - ids) - {id} == rows - (ids + {id});
    } else {
      var marked := MarkedDeleted(rows, ids);
      if id in rows {
        assert marked[id := marked[id].(status := SqlText("deleted"))] == MarkedDeleted(rows, ids + {id});
      } else {
        assert marked == MarkedDeleted(rows, ids + {id});
      }
    }
  }

  /** Encoded batches are such, so that it does not matter in which form they arrive. */
  lemma EncodedKeysAreText(schema: Schema, groups: seq<seq<Operation>>)
    requires forall i :: 0 <= i < |groups| ==> Group(groups[i]) && groups[i][0].table in schema
    ensures forall i :: 0 <= i < |groups| ==> HasIds(EncodeGroups(schema, groups)[i])
    ensures KeysAreText(EncodeGroups(schema, groups))
    ensures JsonKeysOf(EncodeGroups(schema, groups), ADD_TO_CACHE) == KeysOf(EncodeGroups(schema, groups), ADD_TO_CACHE)
    ensures JsonKeysOf(EncodeGroups(schema, groups), REMOVE_FROM_CACHE) ==
            KeysOf(EncodeGroups(schema, groups), REMOVE_FROM_CACHE)
  {
    forall i, k | 0 <= i < |groups| && 0 <= k < |groups[i]|
      ensures !groups[i][0].Update? ==>
                var args := EncodeGroup(schema, groups[i]).argBatches[k]; args != [] && args[0].SqlText?
    {
      assert SameGroup(groups[i][k], groups[i][0]);
    }
    JsonKeysAgree(EncodeGroups(schema, groups), ADD_TO_CACHE);
    JsonKeysAgree(EncodeGroups(schema, groups), REMOVE_FROM_CACHE);
  }
}
