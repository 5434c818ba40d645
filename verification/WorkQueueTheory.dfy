/** The queue of readers and writers, as values: what synchronous code does to it, the events between, and
    what holds in every reachable state. */
module WorkQueueTheory {
  import opened Sequences
  import opened Results

  /** The synchronous part of a function, as far as the queue can tell: the calls that it makes in order,
      and whether it returns (a promise) or throws. Functions passed to calls are code as well. */
  datatype Code =
    | Return
    | Throw
    | Enqueue(isWriter: bool, work: Code, next: Code)   // database.write() or database.read()
    | SubAction(api: nat, block: Code, next: Code)      // callWriter() or callReader() on an item's interface
    | Await(item: nat, next: Code)                      // subscribing to the promise of an item
    | Abort(next: Code)                                 // _abortPendingWork()
    | Try(block: Code, next: Code)                      // try { block } catch {}
    | Outside(block: Code, next: Code)                  // runOutsideWork()

  /** `owner` is the item whose work made the request, if that was the running one. */
  datatype Item = Item(id: nat, isWriter: bool, owner: Option<nat>, work: Code)

  /** A request that skipped the line, the sub-action that let it through, and the item it became part of. */
  datatype Skip = Skip(call: nat, head: Item, isWriter: bool)

  /** `incoming` is `_subActionIncoming`, with the number of the sub-action that set it. `running` tells
      whether the head's work has started, `timers` how many `_executeNext` are scheduled. The rest is history. */
  datatype State = State(
    detect: bool,
    queue: seq<Item>,
    incoming: Option<nat>,
    running: bool,
    timers: nat,
    nextId: nat,
    calls: nat,
    started: seq<nat>,
    settled: seq<nat>,
    dropped: set<nat>,
    skips: seq<Skip>,
    waits: set<(nat, nat)>)

  const INITIAL := State(false, [], None, false, 0, 0, 0, [], [], {}, [], {})

  function Initial(detect: bool): State {
    INITIAL.(detect := detect)
  }

  // ---- Primitive steps ----

  /** `enqueue` with `_subActionIncoming` set, when the head allows it. */
  function SkipTheLine(s: State, isWriter: bool): State
    requires s.incoming.Some? && s.queue != []
  {
    s.(incoming := None, skips := s.skips + [Skip(s.incoming.value, s.queue[0], isWriter)])
  }

  function NewItem(s: State, flow: Option<nat>, isWriter: bool, work: Code): Item {
    Item(s.nextId, isWriter, if s.queue != [] && flow == Some(s.queue[0].id) then flow else None, work)
  }

  function Push(s: State, item: Item): State {
    s.(queue := s.queue + [item], nextId := s.nextId + 1)
  }

  /** The beginning of `_executeNext`. */
  function Begin(s: State): State
    requires s.queue != []
  {
    s.(running := true, started := s.started + [s.queue[0].id])
  }

  /** The end of `_executeNext`: the head is settled and shifted, and the next one is scheduled. */
  function Settle(s: State): State
    requires s.queue != []
  {
    s.(running := false,
       settled := s.settled + [s.queue[0].id],
       queue := s.queue[1..],
       timers := if |s.queue| > 1 then s.timers + 1 else s.timers)
  }

  function OpenSubAction(s: State): State {
    s.(incoming := Some(s.calls), calls := s.calls + 1)
  }

  /** Where the item waits, or 0. */
  function IndexOf(queue: seq<Item>, id: nat): (index: nat)
    ensures index == 0 || (index < |queue| && queue[index].id == id)
    ensures index == 0 ==> forall i :: 0 < i < |queue| ==> queue[i].id != id
  {
    if |queue| <= 1 then 0
    else if Last(queue).id == id then |queue| - 1
    else IndexOf(queue[..|queue| - 1], id)
  }

  /** Reading `then` of the promise of `item` in the flow of `flow`. */
  function Subscribe(s: State, flow: Option<nat>, item: nat): State {
    var index := IndexOf(s.queue, item);
    if Rejects(s, flow, item) then
      s.(queue := s.queue[..index] + s.queue[index + 1..], dropped := s.dropped + {item}, settled := s.settled + [item])
    else if flow.Some? && item < s.nextId then
      s.(waits := s.waits + {(flow.value, item)})
    else
      s
  }

  function ItemIds(queue: seq<Item>): (ids: seq<nat>)
    ensures |ids| == |queue| && forall i :: 0 <= i < |queue| ==> ids[i] == queue[i].id
  {
    seq(|queue|, i requires 0 <= i < |queue| => queue[i].id)
  }

  function IdSet(queue: seq<Item>): set<nat> {
    set i | 0 <= i < |queue| :: queue[i].id
  }

  function AbortPending(s: State): State
    requires s.queue != []
  {
    s.(queue := s.queue[..1],
       dropped := s.dropped + IdSet(s.queue[1..]),
       settled := s.settled + ItemIds(s.queue[1..]))
  }

  // ---- Synchronous code ----

  /** Runs code in the async flow of an item, or of none. The flag tells whether it throws. */
  function Exec(s: State, flow: Option<nat>, code: Code): (State, bool)
    decreases code
  {
    match code
    case Return => (s, false)
    case Throw => (s, true)
    case Enqueue(isWriter, work, next) =>
      if s.incoming.Some? then
        if s.queue == [] || (!s.queue[0].isWriter && isWriter) then (s.(incoming := None), true)
        else
          var (s', threw) := Exec(SkipTheLine(s, isWriter), flow, work);
          if threw then (s', true) else Exec(s', flow, next)
      else
        var item := NewItem(s, flow, isWriter, work);
        var pushed := Push(s, item);
        if s.queue == [] then
          var (s', threw) := Exec(Begin(pushed), Some(item.id), work);
          Exec(if threw && s'.queue != [] then Settle(s') else s', flow, next)
        else
          Exec(pushed, flow, next)
    case SubAction(api, block, next) =>
      if s.queue == [] || s.queue[0].id != api then (s, true)
      else Exec(Exec(OpenSubAction(s), flow, block).0.(incoming := None), flow, next)
    case Await(item, next) => Exec(Subscribe(s, flow, item), flow, next)
    case Abort(next) => if s.queue == [] then (s, true) else Exec(AbortPending(s), flow, next)
    case Try(block, next) => Exec(Exec(s, flow, block).0, flow, next)
    case Outside(block, next) =>
      var (s', threw) := Exec(s, None, block);
      if threw then (s', true) else Exec(s', flow, next)
  }

  /** The first call alone. */
  function FirstCall(code: Code): Code
    requires !code.Return? && !code.Throw?
  {
    match code
    case Enqueue(isWriter, work, _) => Enqueue(isWriter, work, Return)
    case SubAction(api, block, _) => SubAction(api, block, Return)
    case Await(item, _) => Await(item, Return)
    case Abort(_) => Abort(Return)
    case Try(block, _) => Try(block, Return)
    case Outside(block, _) => Outside(block, Return)
  }

  lemma FirstCallThenNext(s: State, flow: Option<nat>, code: Code)
    requires !code.Return? && !code.Throw?
    ensures var (s', threw) := Exec(s, flow, FirstCall(code));
            Exec(s, flow, code) == if threw then (s', true) else Exec(s', flow, code.next)
  {
  }

  /** A request to wait in line, which is started at once if the line was empty. */
  lemma RequestIs(s: State, flow: Option<nat>, isWriter: bool, work: Code)
    requires s.incoming == None
    ensures var pushed := Push(s, NewItem(s, flow, isWriter, work));
            Exec(s, flow, Enqueue(isWriter, work, Return)) ==
            (if s.queue == [] then ExecuteNext(pushed) else pushed, false)
  {
    if s.queue == [] {
      var pushed := Push(s, NewItem(s, flow, isWriter, work));
      assert pushed.queue[0] == NewItem(s, flow, isWriter, work);
    }
  }

  // ---- Events ----

  datatype Event =
    | Run(flow: Option<nat>, code: Code)   // a callback or a continuation gets its turn
    | Finish                               // the promise of the running work settles
    | Timer                                // a scheduled _executeNext fires

  /** Only an item whose work has started has a flow. */
  predicate FlowOk(s: State, flow: Option<nat>) {
    flow.Some? ==> flow.value in s.started
  }

  predicate Enabled(s: State, e: Event) {
    match e
    case Run(flow, _) => FlowOk(s, flow)
    case Finish => s.running && s.queue != []
    case Timer => s.timers > 0
  }

  /** `_executeNext` up to its `await`. */
  function ExecuteNext(s: State): State
    requires s.queue != []
  {
    var head := s.queue[0];
    var (s', threw) := Exec(Begin(s), Some(head.id), head.work);
    if threw && s'.queue != [] then Settle(s') else s'
  }

  function Step(s: State, e: Event): State
    requires Enabled(s, e)
  {
    match e
    case Run(flow, code) => Exec(s, flow, code).0
    case Finish => Settle(s)
    case Timer =>
      var fired := s.(timers := s.timers - 1);
      if fired.queue == [] then fired else ExecuteNext(fired)
  }

  ghost predicate ValidRun(s: State, events: seq<Event>)
    decreases |events|
  {
    events == [] || (Enabled(s, events[0]) && ValidRun(Step(s, events[0]), events[1..]))
  }

  function After(s: State, events: seq<Event>): State
    requires ValidRun(s, events)
    decreases |events|
  {
    if events == [] then s else After(Step(s, events[0]), events[1..])
  }

  // ---- The invariant ----

  predicate Increasing(ids: seq<nat>) {
    forall i, j :: 0 <= i < j < |ids| ==> ids[i] < ids[j]
  }

  /** Requests wait in the order they were made, each under its own number. */
  predicate QueueInOrder(s: State) {
    && Increasing(ItemIds(s.queue))
    && forall i :: 0 <= i < |s.queue| ==>
         s.queue[i].id < s.nextId && (s.queue[i].owner.Some? ==> s.queue[i].owner.value < s.queue[i].id)
  }

  /** No lost wakeup: while something waits, either the head runs or exactly one `_executeNext` is scheduled. */
  predicate Awake(s: State) {
    if s.queue == [] then !s.running && s.timers == 0
    else s.timers == if s.running then 0 else 1
  }

  /** At most the head has started and not settled, and work starts in the order it was requested; so an
      item waits behind the one that made the request. */
  predicate StartsInOrder(s: State) {
    && Increasing(s.started)
    && (forall id :: id in s.started ==> id < s.nextId)
    && (forall id :: id in s.started && s.queue != [] ==> id < s.queue[0].id || (s.running && id == s.queue[0].id))
    && (s.running ==> s.queue != [] && s.queue[0].id in s.started)
    && (forall i :: 0 <= i < |s.queue| && s.queue[i].owner.Some? ==> s.queue[i].owner.value in s.started)
  }

  /** Every request waits or is settled, never both, and is settled once; the settled ones are those that
      were started and those that were aborted or rejected before they could start. */
  ghost predicate SettlesOnce(s: State) {
    && NoDuplicates(s.settled)
    && (forall id :: id in s.settled ==> id < s.nextId && id !in IdSet(s.queue))
    && (forall id: nat :: id < s.nextId ==> id in IdSet(s.queue) || id in s.settled)
    && (forall id :: id in s.dropped ==> id in s.settled && id !in s.started)
    && (forall id :: id in s.settled ==> id in s.started || id in s.dropped)
  }

  /** Each sub-action lets at most one request skip the line, and no reader runs a writer's block. */
  predicate SkipsAllowed(s: State) {
    && (s.incoming.Some? ==> s.queue != [] && s.incoming.value < s.calls)
    && (forall i :: 0 <= i < |s.skips| ==> s.skips[i].call < s.calls && s.incoming != Some(s.skips[i].call))
    && (forall i, j :: 0 <= i < j < |s.skips| ==> s.skips[i].call != s.skips[j].call)
    && (forall i :: 0 <= i < |s.skips| && s.skips[i].isWriter ==> s.skips[i].head.isWriter)
  }

  /** With detection on, the head never waits for a request of its own that is queued behind it. */
  predicate NoSelfDeadlock(s: State) {
    && (forall w :: w in s.waits ==> w.0 in s.started && w.1 < s.nextId)
    && (s.detect && s.queue != [] ==>
          forall i :: 0 < i < |s.queue| && s.queue[i].owner == Some(s.queue[0].id) ==>
              (s.queue[0].id, s.queue[i].id) !in s.waits)
  }

  ghost predicate Good(s: State) {
    QueueInOrder(s) && Awake(s) && StartsInOrder(s) && SettlesOnce(s) && SkipsAllowed(s) && NoSelfDeadlock(s)
  }

  /** What any synchronous code leaves alone. */
  ghost predicate Keeps(s: State, s': State) {
    && Good(s')
    && s'.detect == s.detect && s.nextId <= s'.nextId && s.calls <= s'.calls
    && (s.queue != [] ==>
          s'.queue != [] && s'.queue[0] == s.queue[0] && s'.running == s.running && s'.started == s.started)
    && (forall id :: id in IdSet(s'.queue) && id < s.nextId ==> id in IdSet(s.queue))
    && s.settled <= s'.settled && s.started <= s'.started && s.skips <= s'.skips
    && (s'.incoming == s.incoming || s'.incoming == None)
    && (forall i :: |s.skips| <= i < |s'.skips| ==> s'.skips[i].call >= s.calls || s.incoming == Some(s'.skips[i].call))
  }

  lemma KeepsTransitive(a: State, b: State, c: State)
    requires Good(a) && Keeps(a, b) && Keeps(b, c)
    ensures Keeps(a, c)
  {
  }

  lemma SkipTheLineKeeps(s: State, isWriter: bool)
    requires Good(s) && s.incoming.Some? && (isWriter ==> s.queue[0].isWriter)
    ensures Keeps(s, SkipTheLine(s, isWriter))
  {
  }

  lemma PushKeeps(s: State, item: Item, flow: Option<nat>)
    requires Good(s) && FlowOk(s, flow) && s.queue != [] && item == NewItem(s, flow, item.isWriter, item.work)
    ensures Keeps(s, Push(s, item))
  {
    var s' := Push(s, item);
    assert forall i :: 0 <= i < |s.queue| ==> s'.queue[i] == s.queue[i];
    IdSetSnoc(s.queue, item);
  }

  lemma IdSetSnoc(queue: seq<Item>, item: Item)
    ensures IdSet(queue + [item]) == IdSet(queue) + {item.id}
  {
    var longer := queue + [item];
    forall id | id in IdSet(queue)
      ensures id in IdSet(longer)
    {
      var i :| 0 <= i < |queue| && queue[i].id == id;
      assert longer[i].id == id;
    }
    assert longer[|queue|].id == item.id;
  }

  lemma IncreasingSnoc(ids: seq<nat>, id: nat)
    requires Increasing(ids) && forall x :: x in ids ==> x < id
    ensures Increasing(ids + [id])
  {
    var longer := ids + [id];
    forall i, j | 0 <= i < j < |longer|
      ensures longer[i] < longer[j]
    {
      assert longer[i] == ids[i];
      assert ids[i] in ids;
    }
  }

  /** A request to an empty queue is started at once. */
  lemma PushAndBeginKeeps(s: State, item: Item, flow: Option<nat>)
    requires Good(s) && FlowOk(s, flow) && s.queue == [] && item == NewItem(s, flow, item.isWriter, item.work)
    ensures Keeps(s, Begin(Push(s, item)))
  {
    IdSetSnoc(s.queue, item);
    IncreasingSnoc(s.started, item.id);
  }

  lemma NoDuplicatesAppend(a: seq<nat>, b: seq<nat>)
    requires NoDuplicates(a) && Increasing(b) && forall x :: x in a ==> x !in b
    ensures NoDuplicates(a + b)
  {
    var all := a + b;
    forall i, j | 0 <= i < j < |all|
      ensures all[i] != all[j]
    {
      if i < |a| <= j {
        assert a[i] in a && b[j - |a|] in b;
      }
    }
  }

  lemma IdSetSplit(a: seq<Item>, b: seq<Item>)
    ensures IdSet(a + b) == IdSet(a) + IdSet(b)
  {
    var all := a + b;
    forall id | id in IdSet(a) + IdSet(b)
      ensures id in IdSet(all)
    {
      if id in IdSet(a) {
        var i :| 0 <= i < |a| && a[i].id == id;
        assert all[i].id == id;
      } else {
        var i :| 0 <= i < |b| && b[i].id == id;
        assert all[|a| + i].id == id;
      }
    }
  }

  lemma RemovalKeepsOrder(s: State, i: nat, j: nat)
    requires QueueInOrder(s) && i <= j <= |s.queue|
    ensures QueueInOrder(s.(queue := s.queue[..i] + s.queue[j..])) && Increasing(ItemIds(s.queue[i..j]))
  {
    var ids, left := ItemIds(s.queue), s.queue[..i] + s.queue[j..];
    forall k | 0 <= k < |left|
      ensures left[k] == s.queue[if k < i then k else k - i + j]
              && ItemIds(left)[k] == ids[if k < i then k else k - i + j]
    {
    }
    forall k | 0 <= k < j - i
      ensures ItemIds(s.queue[i..j])[k] == ids[i + k]
    {
    }
  }

  lemma RemovalRemovesIds(queue: seq<Item>, i: nat, j: nat)
    requires Increasing(ItemIds(queue)) && i <= j <= |queue|
    ensures IdSet(queue[..i] + queue[j..]) == IdSet(queue) - IdSet(queue[i..j])
    ensures IdSet(queue[i..j]) <= IdSet(queue)
    ensures forall id :: id in ItemIds(queue[i..j]) <==> id in IdSet(queue[i..j])
  {
    var front, gone, back := queue[..i], queue[i..j], queue[j..];
    assert queue == front + gone + back;
    IdSetSplit(front, gone);
    IdSetSplit(front + gone, back);
    IdSetSplit(front, back);
    PartsAreDistinct(queue, i, j);
  }

  lemma PartsAreDistinct(queue: seq<Item>, i: nat, j: nat)
    requires Increasing(ItemIds(queue)) && i <= j <= |queue|
    ensures IdSet(queue[i..j]) !! IdSet(queue[..i]) && IdSet(queue[i..j]) !! IdSet(queue[j..])
  {
    var ids := ItemIds(queue);
    assert forall k :: 0 <= k < j - i ==> queue[i..j][k].id == ids[i + k];
    assert forall k :: 0 <= k < i ==> queue[..i][k].id == ids[k];
    assert forall k :: 0 <= k < |queue| - j ==> queue[j..][k].id == ids[j + k];
  }

  lemma SettleKeeps(s: State)
    requires Good(s) && s.running && s.incoming == None
    ensures Good(Settle(s))
    ensures IdSet(Settle(s).queue) <= IdSet(s.queue)
  {
    var head, s' := s.queue[0], Settle(s);
    RemovalKeepsOrder(s, 0, 1);
    RemovalRemovesIds(s.queue, 0, 1);
    assert s.queue[..0] + s.queue[1..] == s'.queue;
    assert ItemIds(s.queue[0..1]) == [head.id];
    NoDuplicatesAppend(s.settled, [head.id]);
    assert ItemIds(s.queue)[0] == head.id;
  }

  lemma OpenKeeps(s: State)
    requires Good(s) && s.queue != []
    ensures Good(OpenSubAction(s))
  {
  }

  lemma CloseKeeps(s: State)
    requires Good(s)
    ensures Keeps(s, s.(incoming := None))
  {
  }

  function Drop(s: State, i: nat, j: nat): State
    requires i <= j <= |s.queue|
  {
    s.(queue := s.queue[..i] + s.queue[j..],
       dropped := s.dropped + IdSet(s.queue[i..j]),
       settled := s.settled + ItemIds(s.queue[i..j]))
  }

  lemma DropSettlesOnce(s: State, i: nat, j: nat)
    requires Good(s) && 0 < i <= j <= |s.queue|
    ensures SettlesOnce(Drop(s, i, j))
  {
    RemovalRemovesIds(s.queue, i, j);
    RemovalKeepsOrder(s, i, j);
    NoDuplicatesAppend(s.settled, ItemIds(s.queue[i..j]));
    assert forall k :: i <= k < j ==> ItemIds(s.queue)[k] == s.queue[k].id;
    assert ItemIds(s.queue)[0] == s.queue[0].id;
  }

  /** A rejected or aborted stretch of waiting items. */
  lemma DropKeeps(s: State, i: nat, j: nat)
    requires Good(s) && 0 < i <= j <= |s.queue|
    ensures Keeps(s, Drop(s, i, j))
  {
    RemovalKeepsOrder(s, i, j);
    RemovalRemovesIds(s.queue, i, j);
    DropSettlesOnce(s, i, j);
  }

  predicate Rejects(s: State, flow: Option<nat>, item: nat) {
    var index := IndexOf(s.queue, item);
    s.detect && index > 0 && s.queue[index].owner.Some? && s.queue[index].owner == flow && flow == Some(s.queue[0].id)
  }

  lemma RejectKeeps(s: State, flow: Option<nat>, item: nat)
    requires Good(s) && Rejects(s, flow, item)
    ensures Keeps(s, Subscribe(s, flow, item))
  {
    var index := IndexOf(s.queue, item);
    DropKeeps(s, index, index + 1);
    OneId(s.queue, index);
  }

  lemma OneId(queue: seq<Item>, index: nat)
    requires index < |queue|
    ensures IdSet(queue[index..index + 1]) == {queue[index].id} && ItemIds(queue[index..index + 1]) == [queue[index].id]
  {
    assert queue[index..index + 1] == [queue[index]];
  }

  lemma WaitKeeps(s: State, flow: Option<nat>, item: nat)
    requires Good(s) && FlowOk(s, flow) && !Rejects(s, flow, item)
    ensures Keeps(s, Subscribe(s, flow, item))
  {
    if flow.Some? && item < s.nextId && s.detect && s.queue != [] && s.queue[0].id == flow.value {
      forall i | 0 < i < |s.queue| && s.queue[i].owner == flow
        ensures s.queue[i].id != item
      {
        if s.queue[i].id == item {
          SameIndex(s, i, item);
        }
      }
    }
  }

  lemma SubscribeKeeps(s: State, flow: Option<nat>, item: nat)
    requires Good(s) && FlowOk(s, flow)
    ensures Keeps(s, Subscribe(s, flow, item))
  {
    if Rejects(s, flow, item) {
      RejectKeeps(s, flow, item);
    } else {
      WaitKeeps(s, flow, item);
    }
  }

  lemma SameIndex(s: State, i: nat, item: nat)
    requires QueueInOrder(s) && 0 < i < |s.queue| && s.queue[i].id == item
    ensures IndexOf(s.queue, item) == i
  {
    var index, ids := IndexOf(s.queue, item), ItemIds(s.queue);
    assert ids[index] == s.queue[index].id && ids[i] == item;
  }

  lemma AbortKeeps(s: State)
    requires Good(s) && s.queue != []
    ensures Keeps(s, AbortPending(s)) && IdSet(AbortPending(s).queue) == {s.queue[0].id}
    ensures AbortPending(s).dropped == s.dropped + (IdSet(s.queue) - {s.queue[0].id})
    ensures forall id :: id in AbortPending(s).settled <==>
              id in s.settled || (id in IdSet(s.queue) && id != s.queue[0].id)
  {
    DropKeeps(s, 1, |s.queue|);
    AbortedAreTheRest(s.queue);
    assert s.queue[..1] + s.queue[|s.queue|..] == s.queue[..1];
    assert s.queue[1..|s.queue|] == s.queue[1..];
  }

  lemma AbortedAreTheRest(queue: seq<Item>)
    requires queue != [] && Increasing(ItemIds(queue))
    ensures IdSet(queue[..1]) == {queue[0].id}
    ensures IdSet(queue[1..]) == IdSet(queue) - {queue[0].id}
    ensures forall id :: id in ItemIds(queue[1..]) <==> id in IdSet(queue[1..])
  {
    OneId(queue, 0);
    RemovalRemovesIds(queue, 0, 1);
    RemovalRemovesIds(queue, 1, |queue|);
    assert queue[..0] + queue[1..] == queue[1..] && queue[0..1] == queue[..1] && queue[1..|queue|] == queue[1..];
  }

  /** Whatever synchronous code does, however deeply its calls are nested: the invariant holds again, and a
      head that there was before is still the head. */
  lemma {:induction false} ExecKeeps(s: State, flow: Option<nat>, code: Code)
    requires Good(s) && FlowOk(s, flow)
    ensures Keeps(s, Exec(s, flow, code).0)
    decreases code, 1
  {
    match code
    case Return =>
    case Throw =>
    case Enqueue(_, _, _) =>
      if s.incoming.Some? {
        SkippingKeeps(s, flow, code);
      } else {
        RequestKeeps(s, flow, code);
      }
    case SubAction(_, _, _) => CallKeeps(s, flow, code);
    case Await(_, _) => CallKeeps(s, flow, code);
    case Abort(_) => CallKeeps(s, flow, code);
    case Try(_, _) => BlockKeeps(s, flow, code);
    case Outside(_, _) => BlockKeeps(s, flow, code);
  }

  lemma {:induction false} CallKeeps(s: State, flow: Option<nat>, code: Code)
    requires Good(s) && FlowOk(s, flow) && (code.SubAction? || code.Await? || code.Abort?)
    ensures Keeps(s, Exec(s, flow, code).0)
    decreases code, 0
  {
    if code.Await? {
      SubscribeKeeps(s, flow, code.item);
      ThenKeeps(s, Subscribe(s, flow, code.item), flow, code.next);
    } else if code.Abort? {
      if s.queue != [] {
        AbortKeeps(s);
        ThenKeeps(s, AbortPending(s), flow, code.next);
      }
    } else if s.queue != [] && s.queue[0].id == code.api {
      SubActionKeeps(s, flow, code.block);
      var s' := Exec(OpenSubAction(s), flow, code.block).0.(incoming := None);
      ThenKeeps(s, s', flow, code.next);
      assert Exec(s, flow, code) == Exec(s', flow, code.next);
    }
  }

  lemma {:induction false} BlockKeeps(s: State, flow: Option<nat>, code: Code)
    requires Good(s) && FlowOk(s, flow) && (code.Try? || code.Outside?)
    ensures Keeps(s, Exec(s, flow, code).0)
    decreases code, 0
  {
    var inner := if code.Try? then flow else None;
    ExecKeeps(s, inner, code.block);
    var (s', threw) := Exec(s, inner, code.block);
    if code.Try? || !threw {
      ThenKeeps(s, s', flow, code.next);
      assert Exec(s, flow, code) == Exec(s', flow, code.next);
    }
  }

  lemma {:induction false} ThenKeeps(s: State, s': State, flow: Option<nat>, next: Code)
    requires Good(s) && FlowOk(s, flow) && Keeps(s, s')
    ensures Keeps(s, Exec(s', flow, next).0)
    decreases next, 2
  {
    ExecKeeps(s', flow, next);
    KeepsTransitive(s, s', Exec(s', flow, next).0);
  }

  lemma {:induction false} SubActionKeeps(s: State, flow: Option<nat>, block: Code)
    requires Good(s) && FlowOk(s, flow) && s.queue != []
    ensures Keeps(OpenSubAction(s), Exec(OpenSubAction(s), flow, block).0)
    ensures Keeps(s, Exec(OpenSubAction(s), flow, block).0.(incoming := None))
    decreases block, 2
  {
    OpenKeeps(s);
    ExecKeeps(OpenSubAction(s), flow, block);
    CloseKeeps(Exec(OpenSubAction(s), flow, block).0);
  }

  lemma {:induction false} SkippingKeeps(s: State, flow: Option<nat>, code: Code)
    requires Good(s) && FlowOk(s, flow) && code.Enqueue? && s.incoming.Some?
    ensures Keeps(s, Exec(s, flow, code).0)
    decreases code, 0
  {
    if s.queue[0].isWriter || !code.isWriter {
      SkipTheLineKeeps(s, code.isWriter);
      var skipped := SkipTheLine(s, code.isWriter);
      ExecKeeps(skipped, flow, code.work);
      var s' := Exec(skipped, flow, code.work).0;
      KeepsTransitive(s, skipped, s');
      ThenKeeps(s, s', flow, code.next);
    } else {
      CloseKeeps(s);
    }
  }

  lemma {:induction false} RequestKeeps(s: State, flow: Option<nat>, code: Code)
    requires Good(s) && FlowOk(s, flow) && code.Enqueue? && s.incoming == None
    ensures Keeps(s, Exec(s, flow, code).0)
    decreases code, 0
  {
    var item := NewItem(s, flow, code.isWriter, code.work);
    var s' := Push(s, item);
    if s.queue == [] {
      var begun := Begin(s');
      PushAndBeginKeeps(s, item, flow);
      ExecKeeps(begun, Some(item.id), code.work);
      var (after, threw) := Exec(begun, Some(item.id), code.work);
      StartedKeeps(s, begun, after);
      s' := if threw then Settle(after) else after;
    } else {
      PushKeeps(s, item, flow);
    }
    ThenKeeps(s, s', flow, code.next);
    assert Exec(s, flow, code) == Exec(s', flow, code.next);
  }

  /** Work that is started from an empty queue, and may fail at once. */
  lemma StartedKeeps(s: State, begun: State, s': State)
    requires Good(s) && s.queue == [] && s.incoming == None && Keeps(s, begun) && Keeps(begun, s')
    requires begun.queue != [] && begun.running && begun.incoming == None
    ensures s'.queue != [] && s'.running && s'.incoming == None
    ensures Keeps(s, s') && Keeps(s, Settle(s'))
  {
    KeepsTransitive(s, begun, s');
    SettleKeeps(s');
  }

  // ---- Every reachable state ----

  /** What holds whenever control is back in the event loop. */
  ghost predicate Idle(s: State) {
    Good(s) && s.incoming == None
  }

  /** What never changes once it is history. */
  ghost predicate Later(s: State, s': State) {
    && s'.detect == s.detect && s.nextId <= s'.nextId
    && s.settled <= s'.settled && s.started <= s'.started && s.skips <= s'.skips
    && (forall id :: id in IdSet(s'.queue) && id < s.nextId ==> id in IdSet(s.queue))
  }

  lemma BeginIsGood(s: State)
    requires Idle(s.(timers := 1)) && s.timers == 0 && s.queue != [] && !s.running
    ensures Good(Begin(s))
  {
    var head := s.queue[0];
    assert ItemIds(s.queue)[0] == head.id;
    IncreasingSnoc(s.started, head.id);
    assert head.id in IdSet(s.queue);
    assert forall i :: 0 < i < |s.queue| ==> ItemIds(s.queue)[i] > head.id;
  }

  /** `_executeNext` starts the head, and what its `shift()` removes is the item that it started. */
  lemma ExecuteNextKeeps(s: State)
    requires Idle(s.(timers := 1)) && s.timers == 0 && s.queue != [] && !s.running
    ensures Idle(ExecuteNext(s)) && Later(s, ExecuteNext(s))
    ensures var (after, threw) := Exec(Begin(s), Some(s.queue[0].id), s.queue[0].work);
            && after.queue != [] && after.queue[0] == s.queue[0] && Keeps(Begin(s), after) && after.running
            && ExecuteNext(s) == if threw then Settle(after) else after
  {
    var head := s.queue[0];
    BeginIsGood(s);
    ExecKeeps(Begin(s), Some(head.id), head.work);
    var (after, threw) := Exec(Begin(s), Some(head.id), head.work);
    SettleKeeps(after);
  }

  lemma StepKeeps(s: State, e: Event)
    requires Idle(s) && Enabled(s, e)
    ensures Idle(Step(s, e)) && Later(s, Step(s, e))
  {
    match e
    case Run(flow, code) => ExecKeeps(s, flow, code);
    case Finish => SettleKeeps(s);
    case Timer => ExecuteNextKeeps(s.(timers := 0));
  }

  /** In every reachable state the invariant holds, and `_subActionIncoming` is false. */
  lemma {:induction false} ReachableIsIdle(s: State, events: seq<Event>)
    requires Idle(s) && ValidRun(s, events)
    ensures Idle(After(s, events)) && Later(s, After(s, events))
    decreases |events|
  {
    if events == [] {
    } else {
      StepKeeps(s, events[0]);
      ReachableIsIdle(Step(s, events[0]), events[1..]);
    }
  }

  /** Every state that can be reached from an empty queue: among other things, while something waits,
      either the running work can finish or the one scheduled timer can fire, never both. */
  lemma ReachableStates(detect: bool, events: seq<Event>)
    requires ValidRun(Initial(detect), events)
    ensures var s := After(Initial(detect), events);
            Idle(s) && (s.queue != [] ==> Enabled(s, Finish) != Enabled(s, Timer))
              && (s.queue == [] ==> !Enabled(s, Finish) && !Enabled(s, Timer))
  {
    ReachableIsIdle(Initial(detect), events);
  }

  /** The work that was started is, in the order of the requests, exactly that which is no longer waiting
      and was never aborted or rejected. */
  lemma StartedAreTheOthers(s: State, id: nat)
    requires Good(s) && id < s.nextId
    ensures id in s.started <==> id !in s.dropped && !(id in IdSet(s.queue) && !(s.running && id == s.queue[0].id))
    ensures Increasing(s.started)
  {
    if id in IdSet(s.queue) {
      var i :| 0 <= i < |s.queue| && s.queue[i].id == id;
      assert ItemIds(s.queue)[i] == id && ItemIds(s.queue)[0] == s.queue[0].id;
    }
  }

  // ---- Nothing waits forever ----

  function Ahead(s: State, id: nat): set<nat> {
    set x | x in IdSet(s.queue) && x < id
  }

  /** Two turns of the event loop for each item ahead, and one or two for the item itself. */
  function TurnsLeft(s: State, id: nat): nat {
    2 * |Ahead(s, id)| + if s.running then 1 else 2
  }

  function Turns(events: seq<Event>): nat {
    if events == [] then 0 else (if events[0].Run? then 0 else 1) + Turns(events[1..])
  }

  lemma AheadShrinks(a: set<nat>, b: set<nat>, gone: nat)
    requires b <= a - {gone} && gone in a
    ensures |b| + 1 <= |a|
  {
    assert |a - {gone}| == |a| - 1;
    SubsetIsSmaller(b, a - {gone});
  }

  lemma SettleMakesProgress(s: State, id: nat)
    requires Good(s) && s.running && s.incoming == None && id in IdSet(s.queue)
    ensures id in Settle(s).settled || (id in IdSet(Settle(s).queue) && TurnsLeft(Settle(s), id) < TurnsLeft(s, id))
  {
    SettleKeeps(s);
    var head := s.queue[0].id;
    if id != head {
      assert ItemIds(s.queue)[0] == head;
      var i :| 0 <= i < |s.queue| && s.queue[i].id == id;
      assert ItemIds(s.queue)[i] == id;
      assert head in IdSet(s.queue) && head in Settle(s).settled;
      AheadShrinks(Ahead(s, id), Ahead(Settle(s), id), head);
    } else {
      assert Last(Settle(s).settled) == id;
    }
  }

  lemma KeptMakesNoRegress(s: State, s': State, id: nat)
    requires Good(s) && Keeps(s, s') && id in IdSet(s.queue)
    ensures id in s'.settled || (id in IdSet(s'.queue) && TurnsLeft(s', id) <= TurnsLeft(s, id))
  {
    SubsetIsSmaller(Ahead(s', id), Ahead(s, id));
  }

  lemma StepMakesProgress(s: State, e: Event, id: nat)
    requires Idle(s) && Enabled(s, e) && id in IdSet(s.queue)
    ensures var s' := Step(s, e);
            id in s'.settled || (id in IdSet(s'.queue) && TurnsLeft(s', id) + Turns([e]) <= TurnsLeft(s, id))
  {
    assert [e][1..] == [];
    match e
    case Run(flow, code) =>
      ExecKeeps(s, flow, code);
      KeptMakesNoRegress(s, Step(s, e), id);
    case Finish => SettleMakesProgress(s, id);
    case Timer =>
      var fired := s.(timers := 0);
      ExecuteNextKeeps(fired);
      var begun := Begin(fired);
      var (after, threw) := Exec(begun, Some(s.queue[0].id), s.queue[0].work);
      assert Ahead(begun, id) == Ahead(s, id);
      SubsetIsSmaller(Ahead(after, id), Ahead(begun, id));
      if threw && id in IdSet(after.queue) {
        SettleMakesProgress(after, id);
      }
  }

  /** If every started work finishes and every timer fires in the end, every request is settled: in any
      run with as many of these turns as are left, the item is settled at the end. */
  lemma {:induction false} EventuallySettled(s: State, events: seq<Event>, id: nat)
    requires Idle(s) && ValidRun(s, events) && id in IdSet(s.queue)
    requires Turns(events) >= TurnsLeft(s, id)
    ensures id in After(s, events).settled
    decreases |events|
  {
    var next := Step(s, events[0]);
    assert [events[0]][1..] == [];
    StepMakesProgress(s, events[0], id);
    StepKeeps(s, events[0]);
    if id in next.settled {
      ReachableIsIdle(next, events[1..]);
    } else {
      EventuallySettled(next, events[1..], id);
    }
  }

  // ---- Interfaces and sub-actions ----

  lemma SettledIsNotHead(s: State, id: nat)
    requires Good(s) && id in s.settled
    ensures s.queue == [] || s.queue[0].id != id
  {
    if s.queue != [] {
      assert s.queue[0].id in IdSet(s.queue);
    }
  }

  /** The interface of a finished item is refused, then and forever after. */
  lemma FinishedInterfaceRefused(s: State, events: seq<Event>, id: nat, flow: Option<nat>, block: Code, next: Code)
    requires Idle(s) && ValidRun(s, events) && id in s.settled
    ensures Exec(After(s, events), flow, SubAction(id, block, next)) == (After(s, events), true)
  {
    ReachableIsIdle(s, events);
    SettledIsNotHead(After(s, events), id);
  }

  datatype First = Request(isWriter: bool) | Closed | Nothing(threw: bool)

  /** What the block of a sub-action first does to the flag that lets a request through. */
  function FirstUse(head: nat, code: Code): First {
    match code
    case Return => Nothing(false)
    case Throw => Nothing(true)
    case Enqueue(isWriter, _, _) => Request(isWriter)
    case SubAction(api, _, next) => if api == head then Closed else Nothing(true)
    case Await(_, next) => FirstUse(head, next)
    case Abort(next) => FirstUse(head, next)
    case Try(block, next) => if FirstUse(head, block).Nothing? then FirstUse(head, next) else FirstUse(head, block)
    case Outside(block, next) =>
      if FirstUse(head, block) == Nothing(false) then FirstUse(head, next) else FirstUse(head, block)
  }

  predicate LetThrough(s: State, call: nat) {
    exists i :: 0 <= i < |s.skips| && s.skips[i].call == call
  }

  /** Once the flag is not a sub-action's any more, it lets nothing else through. */
  lemma NoLaterSkip(s: State, s': State, call: nat)
    requires Good(s) && Keeps(s, s') && s.incoming != Some(call) && call < s.calls
    ensures LetThrough(s', call) <==> LetThrough(s, call)
  {
    if LetThrough(s, call) {
      var i :| 0 <= i < |s.skips| && s.skips[i].call == call;
      assert s'.skips[i] == s.skips[i];
    }
  }

  /** Sub-action `call` lets a request through if and only if the first thing that the code does to the
      flag is a request, and one that the head may make. */
  ghost predicate UsesFlag(s: State, flow: Option<nat>, code: Code, call: nat)
    requires s.queue != []
  {
    var (s', threw) := Exec(s, flow, code);
    var first := FirstUse(s.queue[0].id, code);
    && (LetThrough(s', call) <==> first.Request? && (first.isWriter ==> s.queue[0].isWriter))
    && (if first.Nothing? then s'.incoming == Some(call) && threw == first.threw else s'.incoming == None)
  }

  lemma RequestUsesFlag(s: State, flow: Option<nat>, code: Code, call: nat)
    requires Good(s) && FlowOk(s, flow) && s.incoming == Some(call) && code.Enqueue?
    ensures UsesFlag(s, flow, code, call)
  {
    if s.queue[0].isWriter || !code.isWriter {
      SkippedThenNext(s, flow, code, call);
    }
  }

  /** The request takes the flag, and nothing afterwards gives it back or takes it again. */
  lemma SkippedThenNext(s: State, flow: Option<nat>, code: Code, call: nat)
    requires Good(s) && FlowOk(s, flow) && s.incoming == Some(call) && code.Enqueue?
             && (code.isWriter ==> s.queue[0].isWriter)
    ensures var end := Exec(s, flow, code).0;
            LetThrough(end, call) && end.incoming == None
  {
    var skipped := SkipTheLine(s, code.isWriter);
    SkipTheLineKeeps(s, code.isWriter);
    assert Last(skipped.skips).call == call;
    ExecKeeps(skipped, flow, code.work);
    var (s', threw) := Exec(skipped, flow, code.work);
    NoLaterSkip(skipped, s', call);
    if !threw {
      ExecKeeps(s', flow, code.next);
      NoLaterSkip(s', Exec(s', flow, code.next).0, call);
      assert Exec(s, flow, code) == Exec(s', flow, code.next);
    }
  }

  /** A nested sub-action uses up the flag of the one around it. */
  lemma SubActionUsesFlag(s: State, flow: Option<nat>, code: Code, call: nat)
    requires Good(s) && FlowOk(s, flow) && s.incoming == Some(call) && code.SubAction?
    ensures UsesFlag(s, flow, code, call)
  {
    if s.queue[0].id == code.api {
      OpenKeeps(s);
      SubActionKeeps(s, flow, code.block);
      var inner := Exec(OpenSubAction(s), flow, code.block).0;
      NoLaterSkip(OpenSubAction(s), inner, call);
      var closed := inner.(incoming := None);
      ExecKeeps(closed, flow, code.next);
      NoLaterSkip(closed, Exec(closed, flow, code.next).0, call);
    }
  }

  lemma {:induction false} LetThroughIff(s: State, flow: Option<nat>, code: Code, call: nat)
    requires Good(s) && FlowOk(s, flow) && s.incoming == Some(call)
    ensures UsesFlag(s, flow, code, call)
    decreases code, 1
  {
    match code
    case Return =>
    case Throw =>
    case Enqueue(_, _, _) => RequestUsesFlag(s, flow, code, call);
    case SubAction(_, _, _) => SubActionUsesFlag(s, flow, code, call);
    case Await(_, _) => PassedOn(s, flow, code, call);
    case Abort(_) => PassedOn(s, flow, code, call);
    case Try(block, next) =>
      LetThroughIff(s, flow, block, call);
      ThenUsesFlag(s, flow, block, flow, next, call);
    case Outside(block, next) =>
      LetThroughIff(s, None, block, call);
      if !Exec(s, None, block).1 {
        ThenUsesFlag(s, None, block, flow, next, call);
      }
  }

  lemma {:induction false} PassedOn(s: State, flow: Option<nat>, code: Code, call: nat)
    requires Good(s) && FlowOk(s, flow) && s.incoming == Some(call) && (code.Await? || code.Abort?)
    ensures UsesFlag(s, flow, code, call)
    decreases code, 0
  {
    var s' := if code.Await? then Subscribe(s, flow, code.item) else AbortPending(s);
    if code.Abort? {
      AbortKeeps(s);
    } else {
      SubscribeKeeps(s, flow, code.item);
    }
    LetThroughIff(s', flow, code.next, call);
    assert Exec(s, flow, code) == Exec(s', flow, code.next);
  }

  /** Code that comes after a block has the flag if and only if the block did not use it. */
  lemma {:induction false} ThenUsesFlag(s: State, inner: Option<nat>, block: Code, flow: Option<nat>, next: Code,
                                        call: nat)
    requires Good(s) && FlowOk(s, inner) && FlowOk(s, flow) && s.incoming == Some(call)
    requires UsesFlag(s, inner, block, call)
    ensures var s' := Exec(s, inner, block).0;
            && s'.queue != [] && s'.queue[0] == s.queue[0]
            && (if FirstUse(s.queue[0].id, block).Nothing? then UsesFlag(s', flow, next, call)
                else (LetThrough(Exec(s', flow, next).0, call) <==> LetThrough(s', call))
                     && Exec(s', flow, next).0.incoming == None)
    decreases next, 2
  {
    ExecKeeps(s, inner, block);
    var s' := Exec(s, inner, block).0;
    if FirstUse(s.queue[0].id, block).Nothing? {
      LetThroughIff(s', flow, next, call);
    } else {
      ExecKeeps(s', flow, next);
      NoLaterSkip(s', Exec(s', flow, next).0, call);
    }
  }

  /** `callWriter` and `callReader`: when the call is over its flag is down, and it has let exactly one
      request skip the line if the block made an allowed one first, else none. */
  lemma SubActionLetsOneThrough(s: State, flow: Option<nat>, block: Code)
    requires Good(s) && FlowOk(s, flow) && s.queue != []
    ensures var s' := Exec(OpenSubAction(s), flow, block).0;
            var first := FirstUse(s.queue[0].id, block);
            && Keeps(s, s'.(incoming := None))
            && (LetThrough(s', s.calls) <==> first.Request? && (first.isWriter ==> s.queue[0].isWriter))
            && (first.Nothing? <==> s'.incoming.Some?)
  {
    OpenKeeps(s);
    SubActionKeeps(s, flow, block);
    LetThroughIff(OpenSubAction(s), flow, block, s.calls);
  }

  // ---- The guard ----

  /** The guard removes the one item that is waited for. */
  lemma RejectRemovesOnly(s: State, flow: Option<nat>, item: nat)
    requires Good(s) && Rejects(s, flow, item)
    ensures IdSet(Subscribe(s, flow, item).queue) == IdSet(s.queue) - {item}
    ensures Subscribe(s, flow, item).settled == s.settled + [item]
  {
    var index := IndexOf(s.queue, item);
    RemovalRemovesIds(s.queue, index, index + 1);
    OneId(s.queue, index);
  }

  /** A sub-action directly inside the block of another: the request after it is queued behind the head
      that makes it. */
  lemma NestedSubActionQueues(s: State, work: Code)
    requires Good(s) && s.queue != [] && s.queue[0].isWriter && s.incoming == None
    ensures var head, inner := s.queue[0].id, Enqueue(true, Return, Return);
            var outer := SubAction(head, SubAction(head, inner, Enqueue(true, work, Return)), Return);
            var s' := Exec(s, Some(head), outer).0;
            s'.queue == s.queue + [Item(s.nextId, true, Some(s.queue[0].id), work)]
  {
    var head := s.queue[0].id;
    var inner, request := Enqueue(true, Return, Return), Enqueue(true, work, Return);
    var twice := OpenSubAction(OpenSubAction(s));
    assert Exec(twice, Some(head), inner) == (SkipTheLine(twice, true), false);
    var closed := SkipTheLine(twice, true).(incoming := None);
    assert Exec(closed, Some(head), request).0 == Push(closed, NewItem(closed, Some(head), true, work));
    assert Exec(OpenSubAction(s), Some(head), SubAction(head, inner, request)).0 == Exec(closed, Some(head), request).0;
  }
}
