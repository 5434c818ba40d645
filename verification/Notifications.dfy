/** Change notifications, and holding them back while notification batches are open. */
module Notifications {
  import opened Sequences

  datatype TableChange<+C> = TableChange(table: string, changeSet: seq<C>)

  /** The changes of one table, in order, in a list of change sets. */
  function ChangesOf<C>(changes: seq<TableChange<C>>, table: string): seq<C> {
    if changes == [] then []
    else
      ChangesOf(changes[..|changes| - 1], table)
      + if Last(changes).table == table then Last(changes).changeSet else []
  }

  lemma {:induction false} ChangesOfConcat<C>(a: seq<TableChange<C>>, b: seq<TableChange<C>>, table: string)
    ensures ChangesOf(a + b, table) == ChangesOf(a, table) + ChangesOf(b, table)
  {
    if b == [] {
      assert a + b == a;
    } else {
      var front := b[..|b| - 1];
      ChangesOfConcat(a, front, table);
      assert (a + b)[..|a + b| - 1] == a + front;
    }
  }

  // ---- Merging ----

  function IndexOfTable<C>(merged: seq<TableChange<C>>, table: string): (index: nat)
    ensures index <= |merged|
    ensures index < |merged| ==> merged[index].table == table
    ensures index == |merged| ==> forall i :: 0 <= i < |merged| ==> merged[i].table != table
  {
    if merged == [] then 0
    else
      var index := IndexOfTable(merged[..|merged| - 1], table);
      if index == |merged| - 1 && Last(merged).table != table then |merged| else index
  }

  /** `changesByTable` after one more change set; a JavaScript `Map` keeps its keys in insertion order. */
  function MergeOne<C>(merged: seq<TableChange<C>>, change: TableChange<C>): seq<TableChange<C>> {
    var index := IndexOfTable(merged, change.table);
    if index < |merged| then merged[index := TableChange(change.table, merged[index].changeSet + change.changeSet)]
    else merged + [change]
  }

  function Merge<C>(changes: seq<TableChange<C>>): seq<TableChange<C>> {
    if changes == [] then [] else MergeOne(Merge(changes[..|changes| - 1]), Last(changes))
  }

  lemma MergeSnoc<C>(changes: seq<TableChange<C>>, change: TableChange<C>)
    ensures Merge(changes + [change]) == MergeOne(Merge(changes), change)
  {
    assert (changes + [change])[..|changes|] == changes;
  }

  ghost predicate OncePerTable<C>(changes: seq<TableChange<C>>) {
    forall i, j :: 0 <= i < j < |changes| ==> changes[i].table != changes[j].table
  }

  lemma {:induction false} ChangesOfOne<C>(changes: seq<TableChange<C>>, i: nat)
    requires OncePerTable(changes) && i < |changes|
    ensures ChangesOf(changes, changes[i].table) == changes[i].changeSet
  {
    var front := changes[..|changes| - 1];
    if i == |changes| - 1 {
      ChangesOfNone(front, changes[i].table);
    } else {
      ChangesOfOne(front, i);
    }
  }

  lemma {:induction false} ChangesOfNone<C>(changes: seq<TableChange<C>>, table: string)
    requires forall i :: 0 <= i < |changes| ==> changes[i].table != table
    ensures ChangesOf(changes, table) == []
  {
    if changes == [] {
    } else {
      ChangesOfNone(changes[..|changes| - 1], table);
    }
  }

  lemma {:induction false} ChangesOfOther<C>(a: seq<TableChange<C>>, b: seq<TableChange<C>>, table: string)
    requires |a| == |b| && forall i :: 0 <= i < |a| ==>
               a[i].table == b[i].table && (a[i].table == table ==> a[i] == b[i])
    ensures ChangesOf(a, table) == ChangesOf(b, table)
  {
    if a == [] {
    } else {
      ChangesOfOther(a[..|a| - 1], b[..|b| - 1], table);
    }
  }

  lemma MergeOneKeeps<C>(merged: seq<TableChange<C>>, change: TableChange<C>, table: string)
    requires OncePerTable(merged)
    ensures OncePerTable(MergeOne(merged, change))
    ensures ChangesOf(MergeOne(merged, change), table) ==
            ChangesOf(merged, table) + if change.table == table then change.changeSet else []
  {
    var index, after := IndexOfTable(merged, change.table), MergeOne(merged, change);
    if index == |merged| {
      assert after[..|merged|] == merged;
    } else if change.table == table {
      ChangesOfOne(merged, index);
      ChangesOfOne(after, index);
    } else {
      ChangesOfOther(merged, after, table);
    }
  }

  /** Merging loses no change, invents none, and keeps the order within each table; no table occurs twice. */
  lemma {:induction false} MergeKeeps<C>(changes: seq<TableChange<C>>, table: string)
    ensures OncePerTable(Merge(changes))
    ensures ChangesOf(Merge(changes), table) == ChangesOf(changes, table)
  {
    if changes == [] {
    } else {
      MergeKeeps(changes[..|changes| - 1], table);
      MergeOneKeeps(Merge(changes[..|changes| - 1]), Last(changes), table);
    }
  }

  function TablesIn<C>(changes: seq<TableChange<C>>): seq<string> {
    seq(|changes|, i requires 0 <= i < |changes| => changes[i].table)
  }

  lemma MergeOneTables<C>(merged: seq<TableChange<C>>, change: TableChange<C>)
    ensures TablesIn(MergeOne(merged, change)) ==
            if change.table in TablesIn(merged) then TablesIn(merged) else TablesIn(merged) + [change.table]
  {
    var index := IndexOfTable(merged, change.table);
    if index < |merged| {
      assert TablesIn(merged)[index] == change.table;
    }
  }

  /** Merged changes come in the order in which their tables were first changed. */
  lemma {:induction false} MergedInOrder<C>(changes: seq<TableChange<C>>)
    ensures TablesIn(Merge(changes)) == Unique(TablesIn(changes))
  {
    if changes == [] {
    } else {
      var front, last := changes[..|changes| - 1], Last(changes);
      MergedInOrder(front);
      assert TablesIn(changes) == TablesIn(front) + [last.table];
      UniqueSnoc(TablesIn(front), last.table);
      MergeOneTables(Merge(front), last);
    }
  }

  // ---- Commits and batches ----

  datatype State<+C> = State(batches: nat, pending: seq<seq<TableChange<C>>>, delivered: seq<TableChange<C>>)

  datatype Event<+C> = Commit(changes: seq<TableChange<C>>) | BeginBatch | EndBatch

  function Step<C>(s: State<C>, e: Event<C>): State<C>
    requires e.EndBatch? ==> s.batches > 0
  {
    match e
    case Commit(changes) =>
      if s.batches > 0 then s.(pending := s.pending + [changes]) else s.(delivered := s.delivered + changes)
    case BeginBatch => s.(batches := s.batches + 1)
    case EndBatch =>
      if s.batches > 1 then s.(batches := s.batches - 1)
      else State(0, [], s.delivered + Merge(Concat(s.pending)))
  }

  ghost predicate ValidRun<C>(s: State<C>, events: seq<Event<C>>)
    decreases |events|
  {
    events == [] || ((events[0].EndBatch? ==> s.batches > 0) && ValidRun(Step(s, events[0]), events[1..]))
  }

  function After<C>(s: State<C>, events: seq<Event<C>>): State<C>
    requires ValidRun(s, events)
    decreases |events|
  {
    if events == [] then s else After(Step(s, events[0]), events[1..])
  }

  /** Everything that the events commit. */
  function Committed<C>(events: seq<Event<C>>): seq<TableChange<C>> {
    if events == [] then [] else (if events[0].Commit? then events[0].changes else []) + Committed(events[1..])
  }

  ghost predicate Settled<C>(s: State<C>) {
    s.batches == 0 ==> s.pending == []
  }

  /** What was delivered of a table, and what is yet to be. */
  function Owed<C>(s: State<C>, table: string): seq<C> {
    ChangesOf(s.delivered, table) + ChangesOf(Concat(s.pending), table)
  }

  lemma StepOwes<C>(s: State<C>, e: Event<C>, table: string)
    requires Settled(s) && (e.EndBatch? ==> s.batches > 0)
    ensures Settled(Step(s, e))
    ensures Owed(Step(s, e), table) == Owed(s, table) + if e.Commit? then ChangesOf(e.changes, table) else []
  {
    match e
    case Commit(changes) =>
      if s.batches > 0 {
        ConcatSnoc(s.pending, changes);
        ChangesOfConcat(Concat(s.pending), changes, table);
      } else {
        ChangesOfConcat(s.delivered, changes, table);
      }
    case BeginBatch =>
    case EndBatch =>
      if s.batches == 1 {
        MergeKeeps(Concat(s.pending), table);
        ChangesOfConcat(s.delivered, Merge(Concat(s.pending)), table);
      }
  }

  lemma CommittedFirst<C>(events: seq<Event<C>>, table: string)
    requires events != []
    ensures ChangesOf(Committed(events), table) ==
            (if events[0].Commit? then ChangesOf(events[0].changes, table) else [])
                + ChangesOf(Committed(events[1..]), table)
  {
    ChangesOfConcat(if events[0].Commit? then events[0].changes else [], Committed(events[1..]), table);
  }

  lemma {:induction false} RunOwes<C>(s: State<C>, events: seq<Event<C>>, table: string)
    requires Settled(s) && ValidRun(s, events)
    ensures Settled(After(s, events))
    ensures Owed(After(s, events), table) == Owed(s, table) + ChangesOf(Committed(events), table)
    decreases |events|
  {
    if events == [] {
      assert ChangesOf(Committed(events), table) == [];
    } else {
      var next := Step(s, events[0]);
      StepOwes(s, events[0], table);
      RunOwes(next, events[1..], table);
      CommittedFirst(events, table);
      assert After(s, events) == After(next, events[1..]);
    }
  }

  /** However batches nest and overlap with commits: whenever none is open, every collection has been
      told exactly the changes committed to its table, in order and once. */
  lemma Conservation<C>(events: seq<Event<C>>, table: string)
    requires ValidRun(State(0, [], []), events)
    ensures After(State(0, [], []), events).batches == 0 ==>
              ChangesOf(After(State(0, [], []), events).delivered, table) == ChangesOf(Committed(events), table)
  {
    var start: State<C> := State(0, [], []);
    var end := After(start, events);
    RunOwes(start, events, table);
    assert Owed(start, table) == [];
    if end.batches == 0 {
      assert ChangesOf(Concat(end.pending), table) == [];
      assert Owed(end, table) == ChangesOf(end.delivered, table);
    }
  }

  /** How many events of the run begin a batch, and how many end one. */
  function Begins<C>(events: seq<Event<C>>): nat {
    if events == [] then 0 else (if events[0].BeginBatch? then 1 else 0) + Begins(events[1..])
  }

  function Ends<C>(events: seq<Event<C>>): nat {
    if events == [] then 0 else (if events[0].EndBatch? then 1 else 0) + Ends(events[1..])
  }

  lemma {:induction false} OpenBatches<C>(s: State<C>, events: seq<Event<C>>)
    requires ValidRun(s, events)
    ensures After(s, events).batches == s.batches + Begins(events) - Ends(events)
    decreases |events|
  {
    if events == [] {
    } else {
      OpenBatches(Step(s, events[0]), events[1..]);
    }
  }

  /** While a batch is open nothing is delivered, whatever is committed: no run with fewer ends than batches are
      open delivers anything. */
  lemma {:induction false} HeldBack<C>(s: State<C>, events: seq<Event<C>>)
    requires ValidRun(s, events) && Ends(events) < s.batches
    ensures After(s, events).delivered == s.delivered && After(s, events).batches > 0
    decreases |events|
  {
    if events == [] {
    } else {
      HeldBack(Step(s, events[0]), events[1..]);
    }
  }

  /** With no batch open and none begun, every commit is delivered at once, in the order of the commits. */
  lemma {:induction false} DeliveredAtOnce<C>(s: State<C>, events: seq<Event<C>>)
    requires ValidRun(s, events) && s.batches == 0 && Begins(events) == 0
    ensures After(s, events) == s.(delivered := s.delivered + Committed(events))
    decreases |events|
  {
    if events == [] {
      assert s.delivered + Committed(events) == s.delivered;
    } else {
      DeliveredAtOnce(Step(s, events[0]), events[1..]);
      if events[0].Commit? {
        assert s.delivered + events[0].changes + Committed(events[1..]) == s.delivered + Committed(events);
      }
    }
  }

  /** The end of the only open batch delivers what was held back: each table once, in the order in which the tables
      were first changed, with all its changes in order. Any other end delivers nothing. */
  lemma LastEndDelivers<C>(s: State<C>, table: string)
    requires s.batches > 0
    ensures var s', held := Step(s, EndBatch), Concat(s.pending);
            && s'.batches == s.batches - 1 && s.delivered <= s'.delivered
            && var told := s'.delivered[|s.delivered|..];
               if s.batches > 1 then told == [] && s'.pending == s.pending
               else
                 && s'.pending == [] && OncePerTable(told) && TablesIn(told) == Unique(TablesIn(held))
                 && ChangesOf(told, table) == ChangesOf(held, table)
  {
    MergeKeeps(Concat(s.pending), table);
    MergedInOrder(Concat(s.pending));
    assert s.batches == 1 ==> (s.delivered + Merge(Concat(s.pending)))[|s.delivered|..] == Merge(Concat(s.pending));
  }

  // ---- The object ----

  class Notifier<C> {
    var pendingNotificationBatches: nat
    var pendingNotificationChanges: seq<seq<TableChange<C>>>
    ghost var delivered: seq<TableChange<C>>

    ghost function Now(): State<C>
      reads this
    {
      State(pendingNotificationBatches, pendingNotificationChanges, delivered)
    }

    constructor ()
      ensures Now() == State(0, [], [])
    {
      pendingNotificationBatches, pendingNotificationChanges, delivered := 0, [], [];
    }

    /** `_notify` */
    method Notify(changes: seq<TableChange<C>>)
      modifies this
      ensures Now() == Step(old(Now()), Commit(changes))
    {
      if pendingNotificationBatches > 0 {
        pendingNotificationChanges := pendingNotificationChanges + [changes];
        return;
      }
      for i := 0 to |changes|
        invariant Now() == old(Now()).(delivered := old(delivered) + changes[..i])
      {
        assert changes[..i + 1] == changes[..i] + [changes[i]];
        delivered := delivered + [changes[i]];
      }
      assert changes[..|changes|] == changes;
    }

    method Begin()
      modifies this
      ensures Now() == Step(old(Now()), BeginBatch)
    {
      pendingNotificationBatches := pendingNotificationBatches + 1;
    }

    /** The `finally` of `experimentalBatchNotifications`: the last batch to end delivers what was held
        back, telling each table once. */
    method End()
      requires pendingNotificationBatches > 0
      modifies this
      ensures Now() == Step(old(Now()), EndBatch)
      ensures OncePerTable(delivered[|old(delivered)|..])
    {
      pendingNotificationBatches := pendingNotificationBatches - 1;
      if pendingNotificationBatches == 0 {
        var pendingChanges := pendingNotificationChanges;
        pendingNotificationChanges := [];
        var changesByTable := MergeByTable(pendingChanges);
        MergeKeeps(Concat(pendingChanges), "");
        if |changesByTable| > 0 {
          Notify(changesByTable);
        }
      }
    }

    method MergeByTable(pendingChanges: seq<seq<TableChange<C>>>) returns (merged: seq<TableChange<C>>)
      ensures merged == Merge(Concat(pendingChanges))
    {
      merged := [];
      for i := 0 to |pendingChanges|
        invariant merged == Merge(Concat(pendingChanges[..i]))
      {
        merged := MergeAll(merged, pendingChanges[i], Concat(pendingChanges[..i]));
        assert pendingChanges[..i + 1] == pendingChanges[..i] + [pendingChanges[i]];
        ConcatSnoc(pendingChanges[..i], pendingChanges[i]);
      }
      assert pendingChanges[..|pendingChanges|] == pendingChanges;
    }

    method MergeAll(merged: seq<TableChange<C>>, changes: seq<TableChange<C>>, ghost before: seq<TableChange<C>>)
      returns (after: seq<TableChange<C>>)
      requires merged == Merge(before)
      ensures after == Merge(before + changes)
    {
      after := merged;
      assert before + changes[..0] == before;
      for j := 0 to |changes|
        invariant after == Merge(before + changes[..j])
      {
        MergeSnoc(before + changes[..j], changes[j]);
        assert before + changes[..j + 1] == before + changes[..j] + [changes[j]];
        after := AddToMerged(after, changes[j]);
      }
      assert changes[..|changes|] == changes;
    }

    method AddToMerged(merged: seq<TableChange<C>>, change: TableChange<C>) returns (after: seq<TableChange<C>>)
      ensures after == MergeOne(merged, change)
    {
      var index := IndexOfTable(merged, change.table);
      if index == |merged| {
        return merged + [change];
      }
      var tableChanges := merged[index].changeSet;
      for k := 0 to |change.changeSet|
        invariant tableChanges == merged[index].changeSet + change.changeSet[..k]
      {
        tableChanges := tableChanges + [change.changeSet[k]];
      }
      assert change.changeSet[..|change.changeSet|] == change.changeSet;
      after := merged[index := TableChange(change.table, tableChanges)];
    }
  }
}
