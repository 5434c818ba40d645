/** The change sets of a batch, table by table. */
module ChangeSets {
  import opened Sequences
  import opened BridgeTheory

  function ToCreate<M>(entries: seq<Entry<M>>): set<M> {
    set e | e in entries && e.op.Create? :: e.record
  }

  lemma TablesOfChanges<M>(entries: seq<Entry<M>>, changes: map<string, seq<Entry<M>>>, tables: set<string>)
    requires GroupedByTable(entries, changes)
    requires forall j :: 0 <= j < |entries| ==> entries[j].op.table in tables
    ensures forall j :: 0 <= j < |entries| ==> entries[j].op.table in changes
    ensures changes.Keys <= tables
  {
    forall j | 0 <= j < |entries|
      ensures entries[j].op.table in changes
    {
      assert TableGroup(entries, changes, entries[j].op.table);
      InForTable(entries, entries[j].op.table);
    }
    forall t | t in changes
      ensures t in tables
    {
      assert TableGroup(entries, changes, t);
      ForTableSuffices(map[], entries, t);
      assert ForTable(entries, t)[0] in entries;
    }
  }

  ghost predicate GroupedByTable<M>(entries: seq<Entry<M>>, changes: map<string, seq<Entry<M>>>) {
    forall t :: TableGroup(entries, changes, t)
  }

  ghost predicate TableGroup<M>(entries: seq<Entry<M>>, changes: map<string, seq<Entry<M>>>, t: string) {
    if t in changes then changes[t] == ForTable(entries, t) && changes[t] != [] else ForTable(entries, t) == []
  }

  lemma {:induction false} InForTable<M>(entries: seq<Entry<M>>, t: string)
    ensures forall j :: 0 <= j < |entries| && entries[j].op.table == t ==> entries[j] in ForTable(entries, t)
  {
    if entries == [] {
    } else {
      InForTable(entries[..|entries| - 1], t);
    }
  }

  lemma GroupNext<M>(entries: seq<Entry<M>>, changes: map<string, seq<Entry<M>>>, e: Entry<M>)
    requires GroupedByTable(entries, changes)
    ensures var t := e.op.table;
            GroupedByTable(entries + [e], changes[t := (if t in changes then changes[t] else []) + [e]])
  {
    var all, t := entries + [e], e.op.table;
    assert all[..|entries|] == entries;
    var next := changes[t := (if t in changes then changes[t] else []) + [e]];
    forall u
      ensures TableGroup(all, next, u)
    {
      assert TableGroup(entries, changes, u);
      assert ForTable(all, u) == ForTable(entries, u) + if u == t then [e] else [];
    }
  }

  ghost function EntryIds<M>(entries: seq<Entry<M>>): set<string> {
    set e | e in entries :: OperationId(e.op)
  }

  lemma EntryIdsSnoc<M>(entries: seq<Entry<M>>, e: Entry<M>)
    ensures EntryIds(entries + [e]) == EntryIds(entries) + {OperationId(e.op)}
  {
    forall id | id in EntryIds(entries) + {OperationId(e.op)}
      ensures id in EntryIds(entries + [e])
    {
      if id in EntryIds(entries) {
        var x :| x in entries && OperationId(x.op) == id;
        assert x in entries + [e];
      } else {
        assert e in entries + [e];
      }
    }
  }

  lemma {:induction false} DestroysOnly<M>(cache: map<string, M>, entries: seq<Entry<M>>, t: string)
    requires forall j :: 0 <= j < |entries| ==> entries[j].op.table == t && IsDestroy(entries[j].op)
    ensures Changes(cache, entries, t) == cache - EntryIds(entries)
    decreases |entries|
  {
    if entries == [] {
    } else {
      var front, e := entries[..|entries| - 1], Last(entries);
      assert entries == front + [e];
      DestroysOnly(cache, front, t);
      ChangesConcat(cache, front, [e], t);
      EntryIdsSnoc(front, e);
      assert [e][1..] == [];
      assert Changes(Changes(cache, front, t), [e], t) == Change(Changes(cache, front, t), e, t);
    }
  }
}
