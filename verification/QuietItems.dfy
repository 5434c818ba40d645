/** Which waiting items run for certain: those that nothing awaits inside the work that requested them, and
    nothing aborts. */
module QuietItems {
  import opened Sequences
  import opened Results
  import opened WorkQueueTheory

  /** Whether the flow is that of the item that made the request. */
  predicate Owns(owner: Option<nat>, flow: Option<nat>) {
    owner.Some? && flow == owner
  }

  /** The code leaves item `id` alone: no abort, and no await of it where it would run in its owner's flow. */
  predicate Quiet(code: Code, id: nat, owning: bool) {
    match code
    case Return => true
    case Throw => true
    case Enqueue(_, work, next) => Quiet(work, id, owning) && Quiet(next, id, owning)
    case SubAction(_, block, next) => Quiet(block, id, owning) && Quiet(next, id, owning)
    case Await(item, next) => !(owning && item == id) && Quiet(next, id, owning)
    case Abort(_) => false
    case Try(block, next) => Quiet(block, id, owning) && Quiet(next, id, owning)
    case Outside(block, next) => Quiet(block, id, false) && Quiet(next, id, owning)
  }

  /** Item `id` of that owner waits and is not started. */
  ghost predicate InLine(s: State, id: nat, owner: Option<nat>) {
    exists i :: Waits(s, i, id, owner)
  }

  predicate Waits(s: State, i: int, id: nat, owner: Option<nat>) {
    0 <= i < |s.queue| && s.queue[i].id == id && s.queue[i].owner == owner && !(i == 0 && s.running)
  }

  /** The work of what is ahead leaves it alone too. */
  predicate QuietAhead(s: State, id: nat) {
    forall i :: 0 <= i < |s.queue| && s.queue[i].id < id && !(i == 0 && s.running) ==> Quiet(s.queue[i].work, id, false)
  }

  ghost predicate Undisturbed(s: State, id: nat, owner: Option<nat>) {
    Good(s) && InLine(s, id, owner) && QuietAhead(s, id)
  }

  ghost predicate QuietEvent(e: Event, id: nat, owner: Option<nat>) {
    e.Run? ==> Quiet(e.code, id, Owns(owner, e.flow))
  }

  // ---- Synchronous code ----

  lemma PushLeaves(s: State, item: Item, id: nat, owner: Option<nat>)
    requires Undisturbed(s, id, owner) && item.id == s.nextId && Good(Push(s, item))
    ensures Undisturbed(Push(s, item), id, owner)
  {
    var i :| Waits(s, i, id, owner);
    assert Waits(Push(s, item), i, id, owner);
  }

  lemma RejectLeaves(s: State, flow: Option<nat>, item: nat, id: nat, owner: Option<nat>)
    requires Undisturbed(s, id, owner) && Rejects(s, flow, item) && !(Owns(owner, flow) && item == id)
    ensures InLine(Subscribe(s, flow, item), id, owner) && QuietAhead(Subscribe(s, flow, item), id)
  {
    var s', index := Subscribe(s, flow, item), IndexOf(s.queue, item);
    var i :| Waits(s, i, id, owner);
    assert i != index;
    assert forall k :: 0 <= k < |s'.queue| ==> s'.queue[k] == s.queue[if k < index then k else k + 1];
    assert Waits(s', if i < index then i else i - 1, id, owner);
  }

  lemma SubscribeLeaves(s: State, flow: Option<nat>, item: nat, id: nat, owner: Option<nat>)
    requires Undisturbed(s, id, owner) && FlowOk(s, flow) && !(Owns(owner, flow) && item == id)
    ensures Undisturbed(Subscribe(s, flow, item), id, owner)
  {
    SubscribeKeeps(s, flow, item);
    if Rejects(s, flow, item) {
      RejectLeaves(s, flow, item, id, owner);
    } else {
      SameQueueLeaves(s, Subscribe(s, flow, item), id, owner);
    }
  }

  lemma SameQueueLeaves(s: State, s': State, id: nat, owner: Option<nat>)
    requires Undisturbed(s, id, owner) && Good(s') && s'.queue == s.queue && s'.running == s.running
    ensures Undisturbed(s', id, owner)
  {
    var i :| Waits(s, i, id, owner);
    assert Waits(s', i, id, owner);
  }

  lemma {:induction false} ExecLeaves(s: State, flow: Option<nat>, code: Code, id: nat, owner: Option<nat>)
    requires Undisturbed(s, id, owner) && FlowOk(s, flow) && Quiet(code, id, Owns(owner, flow))
    ensures Undisturbed(Exec(s, flow, code).0, id, owner)
    decreases code, 1
  {
    match code
    case Return =>
    case Throw =>
    case Enqueue(_, _, _) => RequestLeaves(s, flow, code, id, owner);
    case SubAction(_, _, _) => CallLeaves(s, flow, code, id, owner);
    case Await(_, _) => CallLeaves(s, flow, code, id, owner);
    case Try(_, _) => BlockLeaves(s, flow, code, id, owner);
    case Outside(_, _) => BlockLeaves(s, flow, code, id, owner);
  }

  lemma {:induction false} ThenLeaves(s: State, s': State, flow: Option<nat>, next: Code, id: nat, owner: Option<nat>)
    requires Good(s) && FlowOk(s, flow) && s.started <= s'.started
    requires Undisturbed(s', id, owner) && Quiet(next, id, Owns(owner, flow))
    ensures Undisturbed(Exec(s', flow, next).0, id, owner)
    decreases next, 2
  {
    ExecLeaves(s', flow, next, id, owner);
  }

  lemma {:induction false} RequestLeaves(s: State, flow: Option<nat>, code: Code, id: nat, owner: Option<nat>)
    requires Undisturbed(s, id, owner) && FlowOk(s, flow) && code.Enqueue? && Quiet(code, id, Owns(owner, flow))
    ensures Undisturbed(Exec(s, flow, code).0, id, owner)
    decreases code, 0
  {
    if s.incoming == None {
      var item := NewItem(s, flow, code.isWriter, code.work);
      PushKeeps(s, item, flow);
      PushLeaves(s, item, id, owner);
      ThenLeaves(s, Push(s, item), flow, code.next, id, owner);
      assert Exec(s, flow, code) == Exec(Push(s, item), flow, code.next);
    } else if s.queue[0].isWriter || !code.isWriter {
      var skipped := SkipTheLine(s, code.isWriter);
      SkipTheLineKeeps(s, code.isWriter);
      SameQueueLeaves(s, skipped, id, owner);
      ExecKeeps(skipped, flow, code.work);
      ExecLeaves(skipped, flow, code.work, id, owner);
      var (s', threw) := Exec(skipped, flow, code.work);
      if !threw {
        ThenLeaves(s, s', flow, code.next, id, owner);
        assert Exec(s, flow, code) == Exec(s', flow, code.next);
      }
    } else {
      CloseKeeps(s);
      SameQueueLeaves(s, s.(incoming := None), id, owner);
    }
  }

  lemma {:induction false} CallLeaves(s: State, flow: Option<nat>, code: Code, id: nat, owner: Option<nat>)
    requires Undisturbed(s, id, owner) && FlowOk(s, flow) && (code.SubAction? || code.Await?)
    requires Quiet(code, id, Owns(owner, flow))
    ensures Undisturbed(Exec(s, flow, code).0, id, owner)
    decreases code, 0
  {
    if code.Await? {
      SubscribeKeeps(s, flow, code.item);
      SubscribeLeaves(s, flow, code.item, id, owner);
      ThenLeaves(s, Subscribe(s, flow, code.item), flow, code.next, id, owner);
    } else if s.queue[0].id == code.api {
      var opened' := OpenSubAction(s);
      OpenKeeps(s);
      SameQueueLeaves(s, opened', id, owner);
      ExecKeeps(opened', flow, code.block);
      ExecLeaves(opened', flow, code.block, id, owner);
      var after := Exec(opened', flow, code.block).0;
      CloseKeeps(after);
      SameQueueLeaves(after, after.(incoming := None), id, owner);
      ThenLeaves(s, after.(incoming := None), flow, code.next, id, owner);
      assert Exec(s, flow, code) == Exec(after.(incoming := None), flow, code.next);
    }
  }

  lemma {:induction false} BlockLeaves(s: State, flow: Option<nat>, code: Code, id: nat, owner: Option<nat>)
    requires Undisturbed(s, id, owner) && FlowOk(s, flow) && (code.Try? || code.Outside?)
    requires Quiet(code, id, Owns(owner, flow))
    ensures Undisturbed(Exec(s, flow, code).0, id, owner)
    decreases code, 0
  {
    var inner := if code.Try? then flow else None;
    ExecKeeps(s, inner, code.block);
    ExecLeaves(s, inner, code.block, id, owner);
    var (s', threw) := Exec(s, inner, code.block);
    if code.Try? || !threw {
      ThenLeaves(s, s', flow, code.next, id, owner);
      assert Exec(s, flow, code) == Exec(s', flow, code.next);
    }
  }

  // ---- Events ----

  /** Settling the head brings the item forward. */
  lemma SettleLeaves(s: State, id: nat, owner: Option<nat>)
    requires Undisturbed(s, id, owner) && s.running && s.incoming == None
    ensures Undisturbed(Settle(s), id, owner)
  {
    SettleKeeps(s);
    var i :| Waits(s, i, id, owner);
    assert Waits(Settle(s), i - 1, id, owner);
    forall k | 0 <= k < |Settle(s).queue| && s.queue[k + 1].id < id
      ensures Quiet(Settle(s).queue[k].work, id, false)
    {
    }
  }

  /** The scheduled `_executeNext` starts the item, or one ahead of it, which leaves it alone. */
  lemma ExecuteNextLeaves(s: State, id: nat, owner: Option<nat>)
    requires Idle(s.(timers := 1)) && s.timers == 0 && s.queue != [] && !s.running
    requires InLine(s, id, owner) && QuietAhead(s, id)
    ensures id in ExecuteNext(s).started || Undisturbed(ExecuteNext(s), id, owner)
  {
    ExecuteNextKeeps(s);
    var head, begun := s.queue[0], Begin(s);
    var after := Exec(begun, Some(head.id), head.work).0;
    var i :| Waits(s, i, id, owner);
    if head.id == id {
      assert Last(begun.started) == id;
    } else {
      BeginIsGood(s);
      assert ItemIds(s.queue)[0] < ItemIds(s.queue)[i];
      assert Waits(begun, i, id, owner);
      assert owner != Some(head.id);
      ExecLeaves(begun, Some(head.id), head.work, id, owner);
      if ExecuteNext(s) != after {
        SettleLeaves(after, id, owner);
      }
    }
  }

  lemma StepLeaves(s: State, e: Event, id: nat, owner: Option<nat>)
    requires Idle(s) && Enabled(s, e) && Undisturbed(s, id, owner) && QuietEvent(e, id, owner)
    ensures id in Step(s, e).started || Undisturbed(Step(s, e), id, owner)
  {
    match e
    case Run(flow, code) => ExecLeaves(s, flow, code, id, owner);
    case Finish => SettleLeaves(s, id, owner);
    case Timer =>
      var fired := s.(timers := 0);
      var i :| Waits(s, i, id, owner);
      assert Waits(fired, i, id, owner);
      ExecuteNextLeaves(fired, id, owner);
  }

  lemma {:induction false} RunLeaves(s: State, events: seq<Event>, id: nat, owner: Option<nat>)
    requires Idle(s) && ValidRun(s, events) && Undisturbed(s, id, owner)
    requires forall i :: 0 <= i < |events| ==> QuietEvent(events[i], id, owner)
    ensures id in After(s, events).started || Undisturbed(After(s, events), id, owner)
    decreases |events|
  {
    if events == [] {
    } else {
      var next, rest := Step(s, events[0]), events[1..];
      StepKeeps(s, events[0]);
      StepLeaves(s, events[0], id, owner);
      ReachableIsIdle(next, rest);
      if id !in next.started {
        assert forall i :: 0 <= i < |rest| ==> rest[i] == events[i + 1];
        RunLeaves(next, rest, id, owner);
      }
    }
  }

  /** A waiting item that nothing awaits in its owner's flow, and nothing aborts, is never dropped; if every
      started work finishes and every timer fires in the end, it runs, after the item that requested it. */
  lemma QuietItemRuns(s: State, events: seq<Event>, id: nat, owner: Option<nat>)
    requires Idle(s) && ValidRun(s, events) && InLine(s, id, owner) && QuietAhead(s, id)
    requires forall i :: 0 <= i < |events| ==> QuietEvent(events[i], id, owner)
    ensures var end := After(s, events);
            && id !in end.dropped
            && (Turns(events) >= TurnsLeft(s, id) ==> id in end.settled && id in end.started)
            && (owner.Some? ==> owner.value in end.started && owner.value < id)
            && Increasing(end.started)
  {
    var end := After(s, events);
    var i :| Waits(s, i, id, owner);
    RunLeaves(s, events, id, owner);
    ReachableIsIdle(s, events);
    if id !in end.started {
      var j :| Waits(end, j, id, owner);
      assert id in IdSet(end.queue);
    }
    if Turns(events) >= TurnsLeft(s, id) {
      assert id in IdSet(s.queue);
      EventuallySettled(s, events, id);
    }
  }
}
