/** What becomes of the work that code hands to the queue: carried out where it is let through, started when
    the line is empty, and waiting otherwise. */
module SubActions {
  import opened Results
  import opened WorkQueueTheory

  // ---- Requests ----

  /** Code that makes the requests one after the other, and then ends as `end` does. */
  function RequestAll(requests: seq<(bool, Code)>, end: Code): Code {
    if requests == [] then end else Enqueue(requests[0].0, requests[0].1, RequestAll(requests[1..], end))
  }

  /** The items that stand for the requests: numbered from `id` on, and owned by `owner`. */
  function Items(id: nat, owner: Option<nat>, requests: seq<(bool, Code)>): seq<Item> {
    seq(|requests|, i requires 0 <= i < |requests| => Item(id + i, requests[i].0, owner, requests[i].1))
  }

  /** The item that a request is made for: the head, if the request comes from its flow. */
  function OwnerIn(s: State, flow: Option<nat>): Option<nat> {
    if s.queue != [] && flow == Some(s.queue[0].id) then flow else None
  }

  /** The state after the requests have joined the line. */
  function Joined(s: State, owner: Option<nat>, requests: seq<(bool, Code)>): State {
    s.(queue := s.queue + Items(s.nextId, owner, requests), nextId := s.nextId + |requests|)
  }

  /** Code that ends by returning, or by throwing. */
  predicate IsEnd(end: Code) {
    end.Return? || end.Throw?
  }

  // One call, and what follows it.

  lemma AfterWaiting(s: State, flow: Option<nat>, isWriter: bool, work: Code, next: Code)
    requires s.queue != [] && s.incoming == None
    ensures Exec(s, flow, Enqueue(isWriter, work, next)) ==
            Exec(Push(s, Item(s.nextId, isWriter, OwnerIn(s, flow), work)), flow, next)
  {
  }

  /** What starting work comes to: it is settled if it throws at once. */
  function Started(s: State, flow: Option<nat>, work: Code): State {
    var (s', threw) := Exec(s, flow, work);
    if threw && s'.queue != [] then Settle(s') else s'
  }

  lemma AfterStarting(s: State, flow: Option<nat>, isWriter: bool, work: Code, next: Code)
    requires s.queue == [] && s.incoming == None
    ensures var item := Item(s.nextId, isWriter, None, work);
            Exec(s, flow, Enqueue(isWriter, work, next)) ==
            Exec(Started(Begin(Push(s, item)), Some(s.nextId), work), flow, next)
  {
    assert NewItem(s, flow, isWriter, work) == Item(s.nextId, isWriter, None, work);
  }

  lemma AfterLetThrough(s: State, flow: Option<nat>, isWriter: bool, work: Code, next: Code)
    requires s.queue != [] && s.incoming.Some? && (isWriter ==> s.queue[0].isWriter)
    ensures var (s', threw) := Exec(SkipTheLine(s, isWriter), flow, work);
            Exec(s, flow, Enqueue(isWriter, work, next)) == if threw then (s', true) else Exec(s', flow, next)
  {
  }

  lemma AfterSubAction(s: State, flow: Option<nat>, block: Code, next: Code)
    requires s.queue != []
    ensures Exec(s, flow, SubAction(s.queue[0].id, block, next)) ==
            Exec(Exec(OpenSubAction(s), flow, block).0.(incoming := None), flow, next)
  {
  }

  lemma AfterTry(s: State, flow: Option<nat>, block: Code, next: Code)
    ensures var (s', threw) := Exec(s, flow, block);
            Exec(s, flow, Try(block, next)) == Exec(s', flow, next)
  {
  }

  lemma AfterOutside(s: State, flow: Option<nat>, block: Code, next: Code)
    ensures var (s', threw) := Exec(s, None, block);
            Exec(s, flow, Outside(block, next)) == if threw then (s', true) else Exec(s', flow, next)
  {
  }

  /** Behind a head, all requests wait in the order in which they were made. */
  lemma {:induction false} RequestsWait(s: State, flow: Option<nat>, requests: seq<(bool, Code)>, end: Code)
    requires s.queue != [] && s.incoming == None && IsEnd(end)
    ensures Exec(s, flow, RequestAll(requests, end)) == (Joined(s, OwnerIn(s, flow), requests), end.Throw?)
    decreases |requests|
  {
    var owner := OwnerIn(s, flow);
    if requests == [] {
      assert Joined(s, owner, requests) == s;
    } else {
      var rest, item := requests[1..], Item(s.nextId, requests[0].0, owner, requests[0].1);
      AfterWaiting(s, flow, requests[0].0, requests[0].1, RequestAll(rest, end));
      RequestsWait(Push(s, item), flow, rest, end);
      JoinedNext(s, owner, requests);
    }
  }

  lemma JoinedNext(s: State, owner: Option<nat>, requests: seq<(bool, Code)>)
    requires requests != []
    ensures Joined(Push(s, Item(s.nextId, requests[0].0, owner, requests[0].1)), owner, requests[1..])
            == Joined(s, owner, requests)
  {
    var rest, item := requests[1..], Item(s.nextId, requests[0].0, owner, requests[0].1);
    assert Items(s.nextId, owner, requests) == [item] + Items(s.nextId + 1, owner, rest);
  }

  lemma JoinedTwice(s: State, owner: Option<nat>, made: seq<(bool, Code)>, more: seq<(bool, Code)>)
    ensures Joined(Joined(s, owner, made), owner, more) == Joined(s, owner, made + more)
  {
    assert Items(s.nextId, owner, made + more) == Items(s.nextId, owner, made) + Items(s.nextId + |made|, owner, more);
  }

  // ---- Work that is let through ----

  /** Work that is let through is run before the call returns: its requests wait behind the head. If it throws, so
      does the call, and nothing after it is executed; if it completes, what follows goes on from there. */
  lemma LetThroughIsRun(s: State, flow: Option<nat>, isWriter: bool, made: seq<(bool, Code)>, end: Code,
                        more: seq<(bool, Code)>)
    requires s.queue != [] && s.incoming.Some? && (isWriter ==> s.queue[0].isWriter) && IsEnd(end)
    ensures var (s', threw) := Exec(s, flow, Enqueue(isWriter, RequestAll(made, end), RequestAll(more, Return)));
            && threw == end.Throw? && s'.incoming == None
            && s'.queue == s.queue + Items(s.nextId, OwnerIn(s, flow), if threw then made else made + more)
  {
    var skipped, owner := SkipTheLine(s, isWriter), OwnerIn(s, flow);
    AfterLetThrough(s, flow, isWriter, RequestAll(made, end), RequestAll(more, Return));
    RequestsWait(skipped, flow, made, end);
    if end.Return? {
      RequestsWait(Joined(skipped, owner, made), flow, more, Return);
      JoinedTwice(skipped, owner, made, more);
    }
  }

  /** All that later code can tell: everything but the numbers of sub-actions and the record of what they let
      through. */
  function Told(s: State): State {
    s.(incoming := if s.incoming.Some? then Some(0) else None, calls := 0, skips := [])
  }

  /** Code does the same in states that it cannot tell apart. */
  lemma {:induction false} ExecTold(a: State, b: State, flow: Option<nat>, code: Code)
    requires Told(a) == Told(b)
    ensures Told(Exec(a, flow, code).0) == Told(Exec(b, flow, code).0)
    ensures Exec(a, flow, code).1 == Exec(b, flow, code).1
    decreases code, 2
  {
    match code
    case Return =>
    case Throw =>
    case Enqueue(_, _, _) => RequestTold(a, b, flow, code);
    case SubAction(_, _, _) => SubActionTold(a, b, flow, code);
    case Await(item, next) => ExecTold(Subscribe(a, flow, item), Subscribe(b, flow, item), flow, next);
    case Abort(next) =>
      if a.queue != [] {
        ExecTold(AbortPending(a), AbortPending(b), flow, next);
      }
    case Try(block, next) =>
      ExecTold(a, b, flow, block);
      ExecTold(Exec(a, flow, block).0, Exec(b, flow, block).0, flow, next);
    case Outside(block, next) =>
      ExecTold(a, b, None, block);
      ExecTold(Exec(a, None, block).0, Exec(b, None, block).0, flow, next);
  }

  lemma {:induction false} SubActionTold(a: State, b: State, flow: Option<nat>, code: Code)
    requires Told(a) == Told(b) && code.SubAction?
    ensures Told(Exec(a, flow, code).0) == Told(Exec(b, flow, code).0)
    ensures Exec(a, flow, code).1 == Exec(b, flow, code).1
    decreases code, 0
  {
    if a.queue != [] && a.queue[0].id == code.api {
      ExecTold(OpenSubAction(a), OpenSubAction(b), flow, code.block);
      var a', b' := Exec(OpenSubAction(a), flow, code.block).0, Exec(OpenSubAction(b), flow, code.block).0;
      ExecTold(a'.(incoming := None), b'.(incoming := None), flow, code.next);
    }
  }

  lemma {:induction false} RequestTold(a: State, b: State, flow: Option<nat>, code: Code)
    requires Told(a) == Told(b) && code.Enqueue?
    ensures Told(Exec(a, flow, code).0) == Told(Exec(b, flow, code).0)
    ensures Exec(a, flow, code).1 == Exec(b, flow, code).1
    decreases code, 1
  {
    if a.incoming == None {
      if a.queue == [] {
        StartedTold(a, b, flow, code);
      } else {
        var item := NewItem(a, flow, code.isWriter, code.work);
        AfterWaiting(a, flow, code.isWriter, code.work, code.next);
        AfterWaiting(b, flow, code.isWriter, code.work, code.next);
        ExecTold(Push(a, item), Push(b, item), flow, code.next);
      }
    } else if a.queue != [] && (a.queue[0].isWriter || !code.isWriter) {
      SkipTold(a, b, flow, code);
    }
  }

  lemma {:induction false} SkipTold(a: State, b: State, flow: Option<nat>, code: Code)
    requires Told(a) == Told(b) && code.Enqueue? && a.incoming.Some? && a.queue != []
             && (code.isWriter ==> a.queue[0].isWriter)
    ensures Told(Exec(a, flow, code).0) == Told(Exec(b, flow, code).0)
    ensures Exec(a, flow, code).1 == Exec(b, flow, code).1
    decreases code, 0
  {
    var a', b' := SkipTheLine(a, code.isWriter), SkipTheLine(b, code.isWriter);
    AfterLetThrough(a, flow, code.isWriter, code.work, code.next);
    AfterLetThrough(b, flow, code.isWriter, code.work, code.next);
    ExecTold(a', b', flow, code.work);
    ExecTold(Exec(a', flow, code.work).0, Exec(b', flow, code.work).0, flow, code.next);
  }

  lemma {:induction false} StartedTold(a: State, b: State, flow: Option<nat>, code: Code)
    requires Told(a) == Told(b) && code.Enqueue? && a.incoming == None && a.queue == []
    ensures Told(Exec(a, flow, code).0) == Told(Exec(b, flow, code).0)
    ensures Exec(a, flow, code).1 == Exec(b, flow, code).1
    decreases code, 0
  {
    var item := NewItem(a, flow, code.isWriter, code.work);
    var x, y := Begin(Push(a, item)), Begin(Push(b, item));
    AfterStarting(a, flow, code.isWriter, code.work, code.next);
    AfterStarting(b, flow, code.isWriter, code.work, code.next);
    ExecTold(x, y, Some(item.id), code.work);
    ExecTold(Started(x, Some(item.id), code.work), Started(y, Some(item.id), code.work), flow, code.next);
  }

  /** Calling a reader or a writer through the interface of the head is running its work in place, whatever that
      work is: as far as anything later can tell it is the same as `try { work } catch {}`. */
  lemma CallRunsInPlace(s: State, flow: Option<nat>, isWriter: bool, work: Code, next: Code)
    requires Good(s) && FlowOk(s, flow) && s.queue != [] && s.incoming == None
    requires isWriter ==> s.queue[0].isWriter
    ensures var called := Exec(s, flow, SubAction(s.queue[0].id, Enqueue(isWriter, work, Return), next));
            var inPlace := Exec(s, flow, Try(work, next));
            Told(called.0) == Told(inPlace.0) && called.1 == inPlace.1
  {
    var opened' := OpenSubAction(s);
    var skipped := SkipTheLine(opened', isWriter);
    var after := Exec(skipped, flow, work).0;
    AfterSubAction(s, flow, Enqueue(isWriter, work, Return), next);
    AfterLetThrough(opened', flow, isWriter, work, Return);
    AfterTry(s, flow, work, next);
    ExecTold(skipped, s, flow, work);
    ExecKeeps(s, flow, work);
    ExecTold(after.(incoming := None), Exec(s, flow, work).0, flow, next);
  }

  /** A reader cannot call a writer: nothing of its work is run. */
  lemma RefusedCallDoesNothing(s: State, flow: Option<nat>, work: Code, next: Code)
    requires s.queue != [] && s.incoming == None && !s.queue[0].isWriter
    ensures var (s', threw) := Exec(s, flow, SubAction(s.queue[0].id, Enqueue(true, work, next), Return));
            Told(s') == Told(s) && !threw
  {
  }

  /** A writer that calls another one, which calls another one, and so on: a call for each element of `calls`, and
      the work of the innermost. */
  function Nested(head: nat, calls: seq<bool>, work: Code): Code {
    if calls == [] then work else SubAction(head, Enqueue(calls[0], Nested(head, calls[1..], work), Return), Return)
  }

  lemma {:induction false} NestedRunsInPlace(s: State, flow: Option<nat>, calls: seq<bool>, work: Code)
    requires Good(s) && FlowOk(s, flow) && s.queue != [] && s.incoming == None
    requires true in calls ==> s.queue[0].isWriter
    ensures var called := Exec(s, flow, Nested(s.queue[0].id, calls, work));
            && Told(called.0) == Told(Exec(s, flow, work).0)
            && called.1 == (calls == [] && Exec(s, flow, work).1)
    decreases |calls|
  {
    if calls == [] {
    } else {
      var inner := Nested(s.queue[0].id, calls[1..], work);
      assert calls[0] in calls;
      CallRunsInPlace(s, flow, calls[0], inner, Return);
      NestedRunsInPlace(s, flow, calls[1..], work);
    }
  }

  /** However deep the calls are nested: the requests that the innermost work makes are in the line afterwards, in
      order and owned by the head. */
  lemma NestedRequestsWait(s: State, flow: Option<nat>, calls: seq<bool>, made: seq<(bool, Code)>, end: Code)
    requires Idle(s) && FlowOk(s, flow) && s.queue != [] && IsEnd(end)
    requires true in calls ==> s.queue[0].isWriter
    ensures var code := Nested(s.queue[0].id, calls, RequestAll(made, end));
            && Step(s, Run(flow, code)).queue == s.queue + Items(s.nextId, OwnerIn(s, flow), made)
            && Step(s, Run(flow, code)).nextId == s.nextId + |made|
            && Exec(s, flow, code).1 == (calls == [] && end.Throw?)
  {
    NestedRunsInPlace(s, flow, calls, RequestAll(made, end));
    RequestsWait(s, flow, made, end);
  }

  // ---- The other calls ----

  /** An error inside `try` goes no further: what follows is executed. */
  lemma TryGoesOn(s: State, flow: Option<nat>, made: seq<(bool, Code)>, end: Code, more: seq<(bool, Code)>)
    requires s.queue != [] && s.incoming == None && IsEnd(end)
    ensures var (s', threw) := Exec(s, flow, Try(RequestAll(made, end), RequestAll(more, Return)));
            !threw && s'.queue == s.queue + Items(s.nextId, OwnerIn(s, flow), made + more)
  {
    var owner := OwnerIn(s, flow);
    AfterTry(s, flow, RequestAll(made, end), RequestAll(more, Return));
    RequestsWait(s, flow, made, end);
    RequestsWait(Joined(s, owner, made), flow, more, Return);
    JoinedTwice(s, owner, made, more);
  }

  /** Requests that are made outside the work belong to nobody, whoever makes them. */
  lemma OutsideOwnsNothing(s: State, flow: Option<nat>, made: seq<(bool, Code)>, end: Code, next: Code)
    requires s.queue != [] && s.incoming == None && IsEnd(end)
    ensures var after := s.(queue := s.queue + Items(s.nextId, None, made), nextId := s.nextId + |made|);
            Exec(s, flow, Outside(RequestAll(made, end), next)) ==
            if end.Throw? then (after, true) else Exec(after, flow, next)
  {
    AfterOutside(s, flow, RequestAll(made, end), next);
    RequestsWait(s, None, made, end);
  }

  /** `_abortPendingWork`, wherever it is called: only the head stays, everything behind it is dropped and settled,
      and what is requested afterwards waits again. It throws if and only if nothing is in line. */
  lemma AbortLeavesTheHead(s: State, flow: Option<nat>, more: seq<(bool, Code)>)
    requires Good(s) && s.incoming == None
    ensures var (s', threw) := Exec(s, flow, Abort(RequestAll(more, Return)));
            && (threw <==> s.queue == []) && (threw ==> s' == s)
            && (!threw ==>
                  && s'.queue == [s.queue[0]] + Items(s.nextId, OwnerIn(s, flow), more)
                  && s'.dropped == s.dropped + (IdSet(s.queue) - {s.queue[0].id})
                  && s.settled <= s'.settled
                  && (forall id :: id in s'.settled <==>
                        id in s.settled || (id in IdSet(s.queue) && id != s.queue[0].id))
                  && s'.running == s.running && s'.started == s.started)
  {
    if s.queue != [] {
      AbortKeeps(s);
      RequestsWait(AbortPending(s), flow, more, Return);
      assert s.queue[..1] == [s.queue[0]];
    }
  }

  lemma AfterAwait(s: State, flow: Option<nat>, item: nat, next: Code)
    ensures var s' := Subscribe(s, flow, item);
            Exec(s, flow, Await(item, next)) == Exec(s', flow, next)
  {
  }

  /** Item `item` waits, not at the head, for the flow that made the request. */
  ghost predicate WaitsFor(s: State, owner: Option<nat>, item: nat) {
    exists i :: 0 < i < |s.queue| && s.queue[i].id == item && s.queue[i].owner == owner
  }

  lemma RejectsIff(s: State, flow: Option<nat>, item: nat)
    requires Good(s)
    ensures Rejects(s, flow, item)
            <==> s.detect && s.queue != [] && flow == Some(s.queue[0].id) && WaitsFor(s, flow, item)
  {
    if i :| 0 < i < |s.queue| && s.queue[i].id == item && s.queue[i].owner == flow {
      SameIndex(s, i, item);
    }
  }

  /** Awaiting an item: with detection on, the head's await of a request of its own that waits behind it drops
      exactly that request and settles it; any other await leaves the line as it is. */
  lemma AwaitIs(s: State, flow: Option<nat>, item: nat)
    requires Good(s)
    ensures var (s', threw) := Exec(s, flow, Await(item, Return));
            && !threw
            && if s.detect && s.queue != [] && flow == Some(s.queue[0].id) && WaitsFor(s, flow, item) then
                 IdSet(s'.queue) == IdSet(s.queue) - {item} && s'.dropped == s.dropped + {item}
                 && s'.settled == s.settled + [item] && s'.waits == s.waits
               else
                 s' == s.(waits := if flow.Some? && item < s.nextId then s.waits + {(flow.value, item)} else s.waits)
  {
    AfterAwait(s, flow, item, Return);
    RejectsIff(s, flow, item);
    if Rejects(s, flow, item) {
      RejectRemovesOnly(s, flow, item);
    }
  }

  // ---- Starting work ----

  /** A request to an empty line is started before the call returns: its own requests wait behind it, and if it
      throws at once it is settled. */
  lemma StartedAtOnce(s: State, flow: Option<nat>, isWriter: bool, made: seq<(bool, Code)>, end: Code)
    requires Idle(s) && FlowOk(s, flow) && s.queue == [] && IsEnd(end)
    ensures var work := RequestAll(made, end);
            var s' := Step(s, Run(flow, Enqueue(isWriter, work, Return)));
            var behind := Items(s.nextId + 1, Some(s.nextId), made);
            && s'.started == s.started + [s.nextId]
            && if end.Return? then
                 s'.queue == [Item(s.nextId, isWriter, None, work)] + behind && s'.settled == s.settled
               else s'.queue == behind && s'.settled == s.settled + [s.nextId]
  {
    var work := RequestAll(made, end);
    var item := Item(s.nextId, isWriter, None, work);
    var begun := Begin(Push(s, item));
    assert begun.queue == [item] && item == NewItem(s, flow, isWriter, work);
    RequestIs(s, flow, isWriter, work);
    RequestsWait(begun, Some(item.id), made, end);
    assert Joined(begun, Some(item.id), made).queue[1..] == Items(s.nextId + 1, Some(s.nextId), made);
  }

  /** When the scheduled `_executeNext` fires, the work of the head is run in the head's own flow. */
  lemma TimerRunsTheHead(s: State, made: seq<(bool, Code)>, end: Code)
    requires Idle(s) && s.timers > 0 && s.queue != [] && IsEnd(end) && s.queue[0].work == RequestAll(made, end)
    ensures var s', behind := Step(s, Timer), Items(s.nextId, Some(s.queue[0].id), made);
            && s'.started == s.started + [s.queue[0].id]
            && if end.Return? then s'.queue == s.queue + behind && s'.settled == s.settled
               else s'.queue == s.queue[1..] + behind && s'.settled == s.settled + [s.queue[0].id]
  {
    var begun := Begin(s.(timers := s.timers - 1));
    RequestsWait(begun, Some(s.queue[0].id), made, end);
  }
}
