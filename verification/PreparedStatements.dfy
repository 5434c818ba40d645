/** The code that prepares statements through the cache and holds their handles while using them. */
module PreparedStatements {
  import opened Sequences
  import opened SqliteHandles
  import opened StatementCaches
  import Lru = LruTheory

  const BEGIN := "begin exclusive transaction"
  const COMMIT := "commit transaction"
  const ROLLBACK := "rollback transaction"

  /** `x` is among the `d + 1` most recently used texts. */
  ghost predicate Within(lru: seq<string>, x: string, d: nat) {
    exists i :: 0 <= i <= d && i < |lru| && lru[i] == x
  }

  /** One more access moves an entry at most one place back, and evicts it only at the very end. */
  lemma AccessMovesBackOne(lru: seq<string>, c: nat, x: string, y: string, d: nat)
    requires NoDuplicates(lru) && Within(lru, x, d) && d + 1 < c
    ensures Within(Lru.Access(lru, c, y), x, d + 1)
  {
    var next := Lru.Access(lru, c, y);
    if x == y {
      assert next[0] == x;
    } else {
      var i :| 0 <= i <= d && i < |lru| && lru[i] == x;
      var j := RemovalShift(lru, y, i);
      assert next[j + 1] == x;
    }
  }

  lemma {:induction false} RemovalShift(s: seq<string>, y: string, i: nat) returns (j: nat)
    requires i < |s| && s[i] != y
    ensures j <= i && j < |WithoutAll(s, {y})| && WithoutAll(s, {y})[j] == s[i]
  {
    if i == 0 {
      j := 0;
    } else {
      j := RemovalShift(s[1..], y, i - 1);
      if s[0] != y {
        j := j + 1;
      }
    }
  }

  /** A select held open across the mutation and the commit keeps its handle if and only if the cache
      has room for three statements. */
  lemma HeldAcrossTwoNeedsThree(before: seq<string>, select: string, mutation: string, c: nat)
    requires select != mutation && select != COMMIT && mutation != COMMIT
    ensures select in Lru.Run(before + [select, mutation, COMMIT], c) <==> 3 <= c
  {
    assert before + [select] + [mutation, COMMIT] == before + [select, mutation, COMMIT];
    assert Elements([mutation, COMMIT]) == {mutation, COMMIT};
    Lru.HeldSurvives(before, select, [mutation, COMMIT], c);
  }

  // ---- The calls of SQLite that a statement takes ----

  const COUNT := "select count(*) from sqlite_master where type = 'table'"

  /** A cached statement is reset, any other prepared. */
  predicate Opens(sql: string, calls: seq<Call>) {
    calls != [] && (calls[0] == WasReset(sql) || calls[0] == Prepared(sql, true))
  }

  /** Opened and bound, so that it can be stepped. */
  predicate IsOpened(sql: string, calls: seq<Call>) {
    |calls| == 2 && Opens(sql, calls) && calls[1] == Bound(sql, true)
  }

  /** Preparing failed, or binding did and the statement was reset. */
  predicate IsRefused(sql: string, calls: seq<Call>) {
    || calls == [Prepared(sql, false)]
    || (|calls| == 3 && Opens(sql, calls) && calls[1] == Bound(sql, false) && calls[2] == WasReset(sql))
  }

  /** The statement is stepped once and reset, or was refused. */
  predicate IsUpdate(sql: string, calls: seq<Call>) {
    || IsRefused(sql, calls)
    || (|calls| == 4 && IsOpened(sql, calls[..2]) && calls[2].Stepped? && calls[2].sql == sql
        && calls[3] == WasReset(sql))
  }

  /** The same after the statement was opened; it is done if it was stepped to its end. */
  predicate IsRun(sql: string, calls: seq<Call>, ok: bool) {
    || (calls == [Bound(sql, false), WasReset(sql)] && !ok)
    || (|calls| == 3 && calls[0] == Bound(sql, true) && calls[1].Stepped? && calls[1].sql == sql
        && calls[2] == WasReset(sql) && ok == (calls[1].result == Done))
  }

  lemma OpenedAndRun(sql: string, first: Call, more: seq<Call>, ok: bool)
    requires (first == WasReset(sql) || first == Prepared(sql, true)) && IsRun(sql, more, ok)
    ensures IsUpdate(sql, [first] + more) && ok == UpdateDone([first] + more)
  {
  }

  lemma PreparedAndBound(sql: string, first: Call, more: seq<Call>, ok: bool)
    requires first == WasReset(sql) || first == Prepared(sql, true)
    requires more == [Bound(sql, ok)] + if ok then [] else [WasReset(sql)]
    ensures if ok then IsOpened(sql, [first] + more) else IsRefused(sql, [first] + more)
  {
  }

  lemma Appended(before: seq<Call>, first: Call, more: seq<Call>)
    ensures before + [first] + more == before + ([first] + more)
  {
  }

  lemma MostRecent(lru: seq<string>, c: nat, sql: string)
    requires c > 0
    ensures Within(Lru.Access(lru, c, sql), sql, 0)
  {
    assert Lru.Access(lru, c, sql)[0] == sql;
  }

  predicate UpdateDone(calls: seq<Call>) {
    |calls| == 4 && calls[2].Stepped? && calls[2].result == Done
  }

  /** The statement is stepped until it has given so many rows, and once more; or to the first step before that
      gives none. */
  predicate IsStepped(sql: string, rows: nat, calls: seq<Call>) {
    && 0 < |calls| <= rows + 1
    && (forall i :: 0 <= i < |calls| ==> calls[i].Stepped? && calls[i].sql == sql)
    && (forall i :: 0 <= i < |calls| - 1 ==> calls[i].result == Row)
    && (|calls| <= rows ==> Last(calls).result != Row)
  }

  predicate AllStepped(rows: nat, calls: seq<Call>) {
    |calls| == rows + 1 && Last(calls).Stepped? && Last(calls).result == Done
  }

  /** The calls of one `destroyMatching`, part by part. */
  datatype Trail = Trail(begin: seq<Call>, open: seq<Call>, steps: seq<Call>, mutate: seq<Call>, commit: seq<Call>,
                         close: seq<Call>, rollback: seq<Call>)

  lemma WithBegin(select: string, mutation: string, rows: nat, t: Trail, begin: seq<Call>, ok: bool)
    requires IsUpdate(BEGIN, begin) && UpdateDone(begin) && t.begin == []
    requires IsSelected(select, mutation, rows, t, ok)
    requires if ok then t.rollback == [] else IsUpdate(ROLLBACK, t.rollback)
    ensures IsDestroying(select, mutation, rows, t.(begin := begin), ok)
  {
  }

  const EMPTY := Trail([], [], [], [], [], [], [])

  /** The part that may throw: the select is opened and stepped through; the mutation runs if there were rows, then
      the commit; each only after what comes before it was done. Once opened, the select is reset at the end. */
  predicate IsSelected(select: string, mutation: string, rows: nat, t: Trail, ok: bool) {
    if !IsOpened(select, t.open) then
      !ok && IsRefused(select, t.open) && t.steps == t.mutate == t.commit == t.close == []
    else
      && IsStepped(select, rows, t.steps) && t.close == [WasReset(select)]
      && if !AllStepped(rows, t.steps) then !ok && t.mutate == t.commit == []
         else
           && (if rows > 0 then IsUpdate(mutation, t.mutate) else t.mutate == [])
           && if rows > 0 && !UpdateDone(t.mutate) then !ok && t.commit == []
              else IsUpdate(COMMIT, t.commit) && ok == UpdateDone(t.commit)
  }

  /** The transaction is begun, and rolled back if anything in it fails. */
  predicate IsDestroying(select: string, mutation: string, rows: nat, t: Trail, ok: bool) {
    && IsUpdate(BEGIN, t.begin)
    && if !UpdateDone(t.begin) then !ok && t == EMPTY.(begin := t.begin)
       else
         && IsSelected(select, mutation, rows, t, ok)
         && if ok then t.rollback == [] else IsUpdate(ROLLBACK, t.rollback)
  }

  class NativeDatabase {
    const db: SqliteConnection
    const cache: StatementCache

    ghost predicate Valid()
      reads cache, db`prepared, db`finalized, db`text
    {
      cache.db == db && cache.Valid() && cache.capacity >= BASE_CAPACITY
    }

    constructor ()
      ensures Valid() && db.busy == {} && fresh(db) && fresh(cache)
    {
      var connection := new SqliteConnection();
      db := connection;
      cache := new StatementCache(connection);
    }

    /** Returns the cached handle for `sql`, reset, or prepares and caches a new one. Either way `sql`
        becomes the most recent entry, and entries that stay keep their handles. */
    method PrepareQuery(sql: string) returns (ok: bool, h: Handle)
      requires Valid()
      modifies cache, db
      ensures Valid() && cache.capacity == old(cache.capacity)
      ensures db.busy <= old(db.busy)
      ensures db.log == old(db.log) + [if old(sql in cache.entries) then WasReset(sql) else Prepared(sql, ok)]
      ensures old(sql in cache.entries) ==> ok
      ensures ok ==> sql in cache.entries && h == cache.entries[sql] && IsFor(h, sql)
      ensures ok ==> cache.lru == Lru.Access(old(cache.lru), cache.capacity, sql)
      ensures forall s :: s in cache.entries && s in old(cache.entries) ==> cache.entries[s] == old(cache.entries)[s]
      ensures !ok ==> cache.lru == old(cache.lru) && cache.entries == old(cache.entries) && sql !in cache.entries
    {
      var hit;
      hit, h := cache.Get(sql);
      if hit {
        ok := true;
        db.Reset(h);
        TouchPermutes(old(cache.lru), sql);
      } else {
        ok, h := PrepareNew(sql);
      }
    }

    /** A statement that is not cached. */
    method PrepareNew(sql: string) returns (ok: bool, h: Handle)
      requires Valid() && sql !in cache.entries
      modifies cache, db
      ensures Valid() && cache.capacity == old(cache.capacity)
      ensures db.busy <= old(db.busy) && db.log == old(db.log) + [Prepared(sql, ok)]
      ensures ok ==> sql in cache.entries && h == cache.entries[sql] && IsFor(h, sql)
      ensures ok ==> cache.lru == Lru.Access(old(cache.lru), cache.capacity, sql)
      ensures forall s :: s in cache.entries && s in old(cache.entries) ==> cache.entries[s] == old(cache.entries)[s]
      ensures !ok ==> cache.lru == old(cache.lru) && cache.entries == old(cache.entries)
    {
      ok, h := db.Prepare(sql);
      WithoutAllAbsent(cache.lru, {sql});
      if ok {
        cache.Insert(sql, h);
      }
    }

    /** The handle is live, and that of a statement with this text. */
    ghost predicate IsFor(h: Handle, sql: string)
      reads db`prepared, db`finalized, db`text
    {
      db.IsLive(h) && h in db.text && db.text[h] == sql
    }

    /** `executeQuery`: the caller holds the handle until it resets it. */
    method ExecuteQuery(sql: string) returns (ok: bool, h: Handle, ghost calls: seq<Call>)
      requires Valid()
      modifies cache, db
      ensures Valid() && db.busy <= if ok then old(db.busy) + {h} else old(db.busy)
      ensures db.log == old(db.log) + calls && if ok then IsOpened(sql, calls) else IsRefused(sql, calls)
      ensures ok ==> HeldAt(sql, 0) && h == cache.entries[sql] && IsFor(h, sql)
      ensures ok ==> cache.lru == Lru.Access(old(cache.lru), old(cache.capacity), sql)
      ensures cache.capacity == old(cache.capacity)
    {
      ok, h := PrepareQuery(sql);
      ghost var first := if old(sql in cache.entries) then WasReset(sql) else Prepared(sql, ok);
      calls := [first];
      if !ok {
        return;
      }
      MostRecent(old(cache.lru), cache.capacity, sql);
      ghost var more: seq<Call>;
      ok, more := BindOrReset(h, sql);
      PreparedAndBound(sql, first, more, ok);
      calls := [first] + more;
      Appended(old(db.log), first, more);
    }

    method BindOrReset(h: Handle, ghost sql: string) returns (ok: bool, ghost calls: seq<Call>)
      requires db.Valid() && IsFor(h, sql)
      modifies db`busy, db`log
      ensures db.busy == if ok then old(db.busy) + {h} else old(db.busy) - {h}
      ensures db.log == old(db.log) + calls
      ensures calls == [Bound(sql, ok)] + if ok then [] else [WasReset(sql)]
    {
      ok := db.Bind(h);
      calls := [Bound(sql, ok)];
      if !ok {
        db.Reset(h);
        calls := calls + [WasReset(sql)];
      }
    }

    /** `sql` is cached, and among the `d + 1` most recently used. */
    ghost predicate HeldAt(sql: string, d: nat)
      reads cache
    {
      sql in cache.entries && Within(cache.lru, sql, d)
    }

    /** `executeUpdate`: prepares, steps once, and resets as its `SqliteStatement` goes out of scope,
        so that it leaves no statement in use. It succeeds if and only if the step is the last one.
        A statement held meanwhile moves back one place and keeps its handle. */
    method ExecuteUpdate(sql: string) returns (ok: bool, ghost calls: seq<Call>)
      requires Valid()
      modifies cache, db
      ensures Valid() && cache.capacity == old(cache.capacity) && db.busy <= old(db.busy)
      ensures db.log == old(db.log) + calls && IsUpdate(sql, calls) && ok == UpdateDone(calls)
      ensures forall s, d: nat {:trigger old(HeldAt(s, d))} :: old(HeldAt(s, d)) && d + 1 < cache.capacity ==>
                HeldAt(s, d + 1) && cache.entries[s] == old(cache.entries[s])
      ensures ok ==> cache.lru == Lru.Access(old(cache.lru), cache.capacity, sql)
    {
      var prepared, h := PrepareWhileHeld(sql);
      ghost var first := if old(sql in cache.entries) then WasReset(sql) else Prepared(sql, prepared);
      ok, calls := false, [first];
      if prepared {
        ghost var more: seq<Call>;
        ok, more := RunOnce(h, sql);
        OpenedAndRun(sql, first, more, ok);
        calls := [first] + more;
        Appended(old(db.log), first, more);
      }
    }

    /** `prepareQuery`, as far as statements go that are held meanwhile. */
    method PrepareWhileHeld(sql: string) returns (ok: bool, h: Handle)
      requires Valid()
      modifies cache, db
      ensures Valid() && cache.capacity == old(cache.capacity) && db.busy <= old(db.busy)
      ensures db.log == old(db.log) + [if old(sql in cache.entries) then WasReset(sql) else Prepared(sql, ok)]
      ensures old(sql in cache.entries) ==> ok
      ensures forall s, d: nat {:trigger old(HeldAt(s, d))} :: old(HeldAt(s, d)) && d + 1 < cache.capacity ==>
                HeldAt(s, d + 1) && cache.entries[s] == old(cache.entries[s])
      ensures ok ==> IsFor(h, sql) && cache.lru == Lru.Access(old(cache.lru), cache.capacity, sql)
    {
      ok, h := PrepareQuery(sql);
      forall s, d: nat | old(HeldAt(s, d)) && d + 1 < cache.capacity
        ensures HeldAt(s, d + 1) && cache.entries[s] == old(cache.entries[s])
      {
        StillHeld(s, old(cache.lru), d, sql);
      }
    }

    method RunOnce(h: Handle, ghost sql: string) returns (ok: bool, ghost calls: seq<Call>)
      requires db.Valid() && IsFor(h, sql)
      modifies db`busy, db`log
      ensures db.busy == old(db.busy) - {h} && db.log == old(db.log) + calls
      ensures IsRun(sql, calls, ok)
    {
      var bound := db.Bind(h);
      if !bound {
        db.Reset(h);
        calls := [Bound(sql, false), WasReset(sql)];
        return false, calls;
      }
      var r := db.Step(h);
      db.Reset(h);
      ok, calls := r == Done, [Bound(sql, true), Stepped(sql, r), WasReset(sql)];
    }

    lemma StillHeld(held: string, before: seq<string>, d: nat, sql: string)
      requires Valid()
      requires NoDuplicates(before) && Within(before, held, d) && d + 1 < cache.capacity
      requires cache.lru == before || cache.lru == Lru.Access(before, cache.capacity, sql)
      ensures Within(cache.lru, held, d + 1) && held in cache.entries
    {
      if cache.lru == before {
        var i :| 0 <= i <= d && i < |before| && before[i] == held;
        assert cache.lru[i] == held;
      } else {
        AccessMovesBackOne(before, cache.capacity, held, sql, d);
      }
    }

    /** `destroyMatching`, as far as its statements go: the select stays open while the mutation and
        the commit are prepared, and is reset when it goes out of scope, after a throw as well. The
        precondition of every `Reset` shows that the select's handle is still live at that point. */
    method DestroyMatching(select: string, mutation: string, rows: nat) returns (ok: bool, ghost t: Trail)
      requires Valid()
      modifies cache, db
      ensures Valid() && cache.capacity == old(cache.capacity) && db.busy <= old(db.busy)
      ensures db.log == old(db.log) + t.begin + t.open + t.steps + t.mutate + t.commit + t.close + t.rollback
      ensures IsDestroying(select, mutation, rows, t, ok)
      ensures ok ==>
                var c := cache.capacity;
                var selected := Lru.Access(Lru.Access(old(cache.lru), c, BEGIN), c, select);
                var mutated := if rows > 0 then Lru.Access(selected, c, mutation) else selected;
                cache.lru == Lru.Access(mutated, c, COMMIT)
    {
      ghost var begin: seq<Call>;
      ok, begin := ExecuteUpdate(BEGIN);
      if !ok {
        return false, EMPTY.(begin := begin);
      }
      ok, t := DestroyOrRollBack(select, mutation, rows);
      WithBegin(select, mutation, rows, t, begin, ok);
      t := t.(begin := begin);
    }

    /** What happens once the transaction is begun. */
    method DestroyOrRollBack(select: string, mutation: string, rows: nat) returns (ok: bool, ghost t: Trail)
      requires Valid()
      modifies cache, db
      ensures Valid() && cache.capacity == old(cache.capacity) && db.busy <= old(db.busy)
      ensures db.log == old(db.log) + t.open + t.steps + t.mutate + t.commit + t.close + t.rollback && t.begin == []
      ensures IsSelected(select, mutation, rows, t, ok)
      ensures if ok then t.rollback == [] else IsUpdate(ROLLBACK, t.rollback)
      ensures ok ==>
                var c := cache.capacity;
                var selected := Lru.Access(old(cache.lru), c, select);
                var mutated := if rows > 0 then Lru.Access(selected, c, mutation) else selected;
                cache.lru == Lru.Access(mutated, c, COMMIT)
    {
      ok, t := DestroySelected(select, mutation, rows);
      if !ok {
        var _, rollback := ExecuteUpdate(ROLLBACK);
        t := t.(rollback := rollback);
      }
    }

    /** The part that may throw and be rolled back. */
    method DestroySelected(select: string, mutation: string, rows: nat) returns (ok: bool, ghost t: Trail)
      requires Valid()
      modifies cache, db
      ensures Valid() && cache.capacity == old(cache.capacity) && db.busy <= old(db.busy)
      ensures db.log == old(db.log) + t.open + t.steps + t.mutate + t.commit + t.close
      ensures t.begin == [] && t.rollback == []
      ensures IsSelected(select, mutation, rows, t, ok)
      ensures ok ==>
                var c := cache.capacity;
                var selected := Lru.Access(old(cache.lru), c, select);
                var mutated := if rows > 0 then Lru.Access(selected, c, mutation) else selected;
                cache.lru == Lru.Access(mutated, c, COMMIT)
    {
      var held;
      ghost var open: seq<Call>;
      ok, held, open := ExecuteQuery(select);
      t := EMPTY.(open := open);
      if !ok {
        return;
      }
      ok, t := RunSelected(select, held, mutation, rows, open);
      db.Reset(held);
    }

    /** What happens while the select is open. */
    method RunSelected(select: string, held: Handle, mutation: string, rows: nat, ghost open: seq<Call>)
      returns (ok: bool, ghost t: Trail)
      requires Valid() && HeldAt(select, 0) && held == cache.entries[select] && IsFor(held, select)
      requires IsOpened(select, open)
      modifies cache, db
      ensures Valid() && cache.capacity == old(cache.capacity) && db.busy <= old(db.busy) + {held}
      ensures IsFor(held, select) && t.begin == [] && t.open == open && t.close == [WasReset(select)]
              && t.rollback == []
      ensures db.log == old(db.log) + t.steps + t.mutate + t.commit
      ensures IsSelected(select, mutation, rows, t, ok)
      ensures ok ==>
                var c := cache.capacity;
                var mutated := if rows > 0 then Lru.Access(old(cache.lru), c, mutation) else old(cache.lru);
                cache.lru == Lru.Access(mutated, c, COMMIT)
    {
      ghost var steps: seq<Call>;
      ok, steps := StepThrough(held, select, rows);
      t := EMPTY.(open := open, steps := steps, close := [WasReset(select)]);
      if ok {
        ghost var mutate: seq<Call>, commit: seq<Call>;
        ok, mutate, commit := MutateAndCommit(select, mutation, rows);
        t := t.(mutate := mutate, commit := commit);
      }
    }

    /** The statements that run while the select is held: wherever they stop, it keeps its handle. */
    method MutateAndCommit(ghost select: string, mutation: string, rows: nat)
      returns (ok: bool, ghost mutate: seq<Call>, ghost commit: seq<Call>)
      requires Valid() && HeldAt(select, 0)
      modifies cache, db
      ensures Valid() && cache.capacity == old(cache.capacity) && db.busy <= old(db.busy)
      ensures db.log == old(db.log) + mutate + commit
      ensures if rows > 0 then IsUpdate(mutation, mutate) else mutate == []
      ensures if rows > 0 && !UpdateDone(mutate) then !ok && commit == []
              else IsUpdate(COMMIT, commit) && ok == UpdateDone(commit)
      ensures HeldAt(select, 2) && cache.entries[select] == old(cache.entries[select])
      ensures ok ==>
                var c := cache.capacity;
                var mutated := if rows > 0 then Lru.Access(old(cache.lru), c, mutation) else old(cache.lru);
                cache.lru == Lru.Access(mutated, c, COMMIT)
    {
      ok, mutate, commit := true, [], [];
      assert HeldAt(select, 1);
      if rows > 0 {
        ok, mutate := ExecuteUpdate(mutation);
        assert HeldAt(select, 1);
      }
      assert HeldAt(select, 2);
      if ok {
        ok, commit := ExecuteUpdate(COMMIT);
        assert HeldAt(select, 2);
      }
    }

    method StepThrough(h: Handle, ghost sql: string, rows: nat) returns (ok: bool, ghost calls: seq<Call>)
      requires Valid() && IsFor(h, sql)
      modifies db`busy, db`log
      ensures db.busy == old(db.busy) + {h} && db.log == old(db.log) + calls
      ensures IsStepped(sql, rows, calls) && ok == AllStepped(rows, calls)
    {
      calls := [];
      for i := 0 to rows
        invariant db.busy <= old(db.busy) + {h} && old(db.busy) <= db.busy && db.log == old(db.log) + calls
        invariant |calls| == i && forall j :: 0 <= j < i ==> calls[j] == Stepped(sql, Row)
      {
        var r := db.Step(h);
        calls := calls + [Stepped(sql, r)];
        if r != Row {
          return false, calls;
        }
      }
      var last := db.Step(h);
      ok, calls := last == Done, calls + [Stepped(sql, last)];
    }

    /** `releaseMemory` */
    method ReleaseMemory()
      requires Valid()
      modifies cache, db
      ensures Valid() && db.busy <= old(db.busy) && forall h: Handle :: !db.IsLive(h)
    {
      cache.Clear();
    }

    /** `fitStatementCacheToSchemaLocked`: counts the tables with a one-off statement that never enters
        the cache, then fits the capacity to the count, which is zero if it cannot be read. */
    method FitToSchema(tables: nat) returns (ghost calls: seq<Call>)
      requires Valid()
      modifies cache, db
      ensures Valid() && db.busy <= old(db.busy)
      ensures db.log == old(db.log) + calls
      ensures calls == [Prepared(COUNT, false)]
              || (|calls| == 2 && calls[0] == Prepared(COUNT, true) && calls[1].Stepped? && calls[1].sql == COUNT)
      ensures cache.capacity == if Last(calls) == Stepped(COUNT, Row) then CapacityForTables(tables) else 100
      ensures cache.lru == Take(old(cache.lru), cache.capacity)
    {
      var count := 0;
      var ok, h := db.Prepare(COUNT);
      calls := [Prepared(COUNT, ok)];
      if ok {
        var r := db.Step(h);
        calls := calls + [Stepped(COUNT, r)];
        if r == Row {
          count := tables;
        }
        db.Finalize(h);
      }
      cache.SetCapacity(CapacityForTables(count));
    }
  }
}
