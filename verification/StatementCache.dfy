/** SQLite's prepared-statement handles, as far as the cache depends on them. */
module SqliteHandles {

  type Handle = nat

  datatype StepResult = Row | Done | Failed

  /** A call of the SQLite API, with the text of the statement that it is about, and what came of it. */
  datatype Call =
    | Prepared(sql: string, ok: bool)
    | Bound(sql: string, ok: bool)
    | Stepped(sql: string, result: StepResult)
    | WasReset(sql: string)

  /** One open connection. Finalizing, resetting or stepping a handle that is not live is undefined
      behaviour in SQLite, so those calls demand a live handle. */
  class SqliteConnection {
    var prepared: nat
    var finalized: multiset<Handle>
    var busy: set<Handle>            // bound or stepped, and not reset since
    ghost var text: map<Handle, string>
    ghost var log: seq<Call>

    predicate IsLive(h: Handle)
      reads this`prepared, this`finalized
    {
      h < prepared && finalized[h] == 0
    }

    ghost predicate Valid()
      reads this`prepared, this`finalized, this`text
    {
      && (forall h :: h in finalized ==> h < prepared && finalized[h] == 1)
      && forall h: Handle :: h < prepared ==> h in text
    }

    constructor ()
      ensures Valid() && busy == {} && log == [] && forall h: Handle :: !IsLive(h)
    {
      prepared, finalized, busy, text, log := 0, multiset{}, {}, map[], [];
    }

    method Prepare(sql: string) returns (ok: bool, h: Handle)
      requires Valid()
      modifies this`prepared, this`text, this`log
      ensures Valid() && log == old(log) + [Prepared(sql, ok)]
      ensures ok ==> h == old(prepared) && prepared == h + 1 && text == old(text)[h := sql]
      ensures !ok ==> prepared == old(prepared) && text == old(text)
    {
      ok := *;
      h := prepared;
      if ok {
        prepared, text := prepared + 1, text[h := sql];
      }
      log := log + [Prepared(sql, ok)];
    }

    method Finalize(h: Handle)
      requires Valid() && IsLive(h)
      modifies this`finalized, this`busy
      ensures Valid() && finalized == old(finalized) + multiset{h} && busy == old(busy) - {h}
    {
      finalized, busy := finalized + multiset{h}, busy - {h};
    }

    method Reset(h: Handle)
      requires Valid() && IsLive(h)
      modifies this`busy, this`log
      ensures busy == old(busy) - {h} && log == old(log) + [WasReset(text[h])]
    {
      busy, log := busy - {h}, log + [WasReset(text[h])];
    }

    method Bind(h: Handle) returns (ok: bool)
      requires Valid() && IsLive(h)
      modifies this`busy, this`log
      ensures busy == old(busy) + {h} && log == old(log) + [Bound(text[h], ok)]
    {
      ok, busy := *, busy + {h};
      log := log + [Bound(text[h], ok)];
    }

    method Step(h: Handle) returns (r: StepResult)
      requires Valid() && IsLive(h)
      modifies this`busy, this`log
      ensures busy == old(busy) + {h} && log == old(log) + [Stepped(text[h], r)]
    {
      r, busy := *, busy + {h};
      log := log + [Stepped(text[h], r)];
    }
  }
}

/** The bounded cache of prepared statements. */
module StatementCaches {
  import opened Sequences
  import opened SqliteHandles
  import Lru = LruTheory

  const BASE_CAPACITY: nat := 100
  const PER_TABLE_CAPACITY: nat := 10
  const MAX_CAPACITY: nat := 2000

  function CapacityForTables(tableCount: nat): (c: nat)
    ensures 100 <= c <= 2000 && c <= 100 + 10 * tableCount
    ensures c == 2000 || c == 100 + 10 * tableCount
  {
    var c := BASE_CAPACITY + PER_TABLE_CAPACITY * tableCount;
    if c < MAX_CAPACITY then c else MAX_CAPACITY
  }

  class StatementCache {
    const db: SqliteConnection
    var capacity: nat
    var entries: map<string, Handle>
    var lru: seq<string>             // front = most recently used
    ghost var holder: map<Handle, string>

    /** The map and the list hold the same texts, each text its own handle. */
    ghost predicate Linked()
      reads this
    {
      && NoDuplicates(lru)
      && (forall s :: s in lru <==> s in entries)
      && (forall s :: s in entries ==> entries[s] in holder && holder[entries[s]] == s)
      && (forall h :: h in holder ==> holder[h] in entries && entries[holder[h]] == h)
    }

    /** Besides, the handles in the cache are exactly the live ones: those prepared and not finalized. */
    ghost predicate Sound()
      reads this, db`prepared, db`finalized, db`text
    {
      db.Valid() && Linked() && forall h: Handle :: db.IsLive(h) <==> h in holder
    }

    /** Each handle is that of a statement prepared with its text. */
    ghost predicate Labelled()
      reads this, db`text
    {
      forall s :: s in entries ==> entries[s] in db.text && db.text[entries[s]] == s
    }

    ghost predicate Valid()
      reads this, db`prepared, db`finalized, db`text
    {
      Sound() && Labelled() && |lru| <= capacity && capacity >= 1
    }

    constructor (db: SqliteConnection)
      requires db.Valid() && forall h: Handle :: !db.IsLive(h)
      ensures Valid() && this.db == db && lru == [] && capacity == BASE_CAPACITY
    {
      this.db, capacity, entries, lru, holder := db, BASE_CAPACITY, map[], [], map[];
    }

    lemma EntriesMatchList()
      requires Linked()
      ensures |entries| == |lru|
    {
      CardinalityOfElements(lru);
      assert Elements(lru) == entries.Keys;
    }

    method Get(sql: string) returns (hit: bool, h: Handle)
      requires Valid()
      modifies this`lru
      ensures Valid()
      ensures hit <==> sql in entries
      ensures hit ==> h == entries[sql] && db.IsLive(h) && h in db.text && db.text[h] == sql
      ensures hit ==> lru == Lru.Touch(old(lru), sql)
      ensures !hit ==> lru == old(lru)
    {
      hit, h := sql in entries, 0;
      if hit {
        TouchPermutes(lru, sql);
        lru := [sql] + WithoutAll(lru, {sql});
        h := entries[sql];
      }
    }

    /** The new entry is the most recent one, so it is not among those evicted to make room. */
    method Insert(sql: string, h: Handle)
      requires db.Valid() && Linked() && 1 <= capacity && |lru| <= capacity
      requires sql !in entries && h !in holder
      requires forall k: Handle :: db.IsLive(k) <==> k in holder || k == h
      requires Labelled() && h in db.text && db.text[h] == sql
      modifies this`entries, this`lru, this`holder, db`finalized, db`busy
      ensures db.busy <= old(db.busy)
      ensures Valid()
      ensures lru == Take([sql] + old(lru), capacity)
      ensures sql in entries && entries[sql] == h
      ensures forall s :: s in entries && s != sql ==> s in old(entries) && entries[s] == old(entries)[s]
    {
      lru := [sql] + lru;
      entries := entries[sql := h];
      holder := holder[h := sql];
      EvictDownTo(capacity);
      assert lru[0] == sql;
    }

    method SetCapacity(c: nat)
      requires Valid()
      modifies this, db`finalized, db`busy
      ensures db.busy <= old(db.busy)
      ensures Valid() && capacity == if c < 1 then 1 else c
      ensures lru == Take(old(lru), capacity)
      ensures forall s :: s in entries ==> s in old(entries) && entries[s] == old(entries)[s]
    {
      capacity := if c < 1 then 1 else c;
      EvictDownTo(capacity);
    }

    /** Finalizes least recently used entries until `size` are left. */
    method EvictDownTo(size: nat)
      requires Sound()
      modifies this`entries, this`lru, this`holder, db`finalized, db`busy
      ensures db.busy <= old(db.busy)
      ensures Sound()
      ensures lru == Take(old(lru), size)
      ensures forall s :: s in entries ==> s in old(entries) && entries[s] == old(entries)[s]
    {
      ghost var was, handles := lru, entries;
      EntriesMatchList();
      while |entries| > size
        invariant Sound() && |entries| == |lru| && db.busy <= old(db.busy)
        invariant lru <= was && (|lru| >= size || lru == was) && KeepHandles(entries, handles)
        decreases |lru|
      {
        EvictOne();
      }
    }

    /** The texts that are left have the handles that they had. */
    predicate KeepHandles(left: map<string, Handle>, before: map<string, Handle>) {
      forall s :: s in left ==> s in before && left[s] == before[s]
    }

    method EvictOne()
      requires Sound() && lru != []
      modifies this`entries, this`lru, this`holder, db`finalized, db`busy
      ensures Sound() && db.busy <= old(db.busy) && |entries| == |lru|
      ensures lru == old(lru)[..|old(lru)| - 1]
      ensures KeepHandles(entries, old(entries))
    {
      EvictOldest();
      EntriesMatchList();
    }

    method EvictOldest()
      requires Sound() && lru != []
      modifies this`entries, this`lru, this`holder, db`finalized, db`busy
      ensures db.busy <= old(db.busy)
      ensures Sound()
      ensures lru == old(lru)[..|old(lru)| - 1]
      ensures entries == old(entries) - {Last(old(lru))}
    {
      var oldest := lru[|lru| - 1];
      var h := entries[oldest];
      db.Finalize(h);
      entries := entries - {oldest};
      holder := holder - {h};
      lru := lru[..|lru| - 1];
    }

    /** Finalizes every cached statement; the capacity stays. */
    method Clear()
      requires Valid()
      modifies this`entries, this`lru, this`holder, db`finalized, db`busy
      ensures db.busy <= old(db.busy)
      ensures Valid() && lru == [] && entries == map[]
      ensures forall h: Handle :: !db.IsLive(h)
    {
      var rest := entries.Keys;
      while rest != {}
        invariant db.Valid() && Linked() && rest <= entries.Keys && db.busy <= old(db.busy)
        invariant forall h: Handle :: db.IsLive(h) <==> h in holder && holder[h] in rest
        decreases rest
      {
        var sql :| sql in rest;
        db.Finalize(entries[sql]);
        rest := rest - {sql};
      }
      entries, lru, holder := map[], [], map[];
    }
  }

  lemma TouchPermutes(lru: seq<string>, sql: string)
    requires NoDuplicates(lru) && sql in lru
    ensures NoDuplicates(Lru.Touch(lru, sql))
    ensures |Lru.Touch(lru, sql)| == |lru|
    ensures forall s :: s in Lru.Touch(lru, sql) <==> s in lru
  {
    WithoutAllNoDuplicates(lru, {sql});
    Lru.SingleRemoval(lru, sql);
  }
}
