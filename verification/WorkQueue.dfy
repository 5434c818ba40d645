/** The queue as the object that readers and writers share. */
module WorkQueues {
  import opened Results
  import opened WorkQueueTheory

  class WorkQueue {
    const detectNested: bool
    var queue: seq<Item>
    var subActionIncoming: bool
    var executing: bool
    var scheduled: nat
    var nextId: nat
    ghost var subAction: nat
    ghost var calls: nat
    ghost var started: seq<nat>
    ghost var settled: seq<nat>
    ghost var dropped: set<nat>
    ghost var skips: seq<Skip>
    ghost var waits: set<(nat, nat)>

    ghost function Now(): State
      reads this
    {
      State(detectNested, queue, if subActionIncoming then Some(subAction) else None, executing, scheduled,
            nextId, calls, started, settled, dropped, skips, waits)
    }

    constructor (detectNested: bool)
      ensures Now() == Initial(detectNested)
    {
      this.detectNested, queue, subActionIncoming, executing, scheduled, nextId := detectNested, [], false, false, 0, 0;
      subAction, calls, started, settled, dropped, skips, waits := 0, 0, [], [], {}, [], {};
    }

    /** Interprets code, which calls back into the queue. */
    method Execute(flow: Option<nat>, code: Code) returns (threw: bool)
      requires Good(Now()) && FlowOk(Now(), flow)
      modifies this
      ensures (Now(), threw) == Exec(old(Now()), flow, code)
      decreases code, 2
    {
      if code.Return? {
        return false;
      } else if code.Throw? {
        return true;
      }
      FirstCallThenNext(Now(), flow, code);
      ExecKeeps(Now(), flow, FirstCall(code));
      threw := Call(flow, code);
      if !threw {
        threw := Execute(flow, code.next);
      }
    }

    method Call(flow: Option<nat>, code: Code) returns (threw: bool)
      requires Good(Now()) && FlowOk(Now(), flow) && !code.Return? && !code.Throw?
      modifies this
      ensures (Now(), threw) == Exec(old(Now()), flow, FirstCall(code))
      decreases code, 1
    {
      match code
      case Enqueue(isWriter, work, _) => threw := Request(flow, isWriter, work);
      case SubAction(api, block, _) => threw := CallSubAction(flow, api, block);
      case Await(item, _) =>
        Then(flow, item);
        threw := false;
      case Abort(_) => threw := AbortPendingWork(flow);
      case Try(block, _) =>
        var _ := Execute(flow, block);
        threw := false;
      case Outside(block, _) => threw := Execute(None, block);
    }

    /** `enqueue` */
    method Request(flow: Option<nat>, isWriter: bool, work: Code) returns (threw: bool)
      requires Good(Now()) && FlowOk(Now(), flow)
      modifies this
      ensures (Now(), threw) == Exec(old(Now()), flow, Enqueue(isWriter, work, Return))
      decreases work, 4
    {
      if subActionIncoming {
        subActionIncoming := false;
        var currentWork := queue[0];
        if !currentWork.isWriter && isWriter {
          return true;
        }
        skips := skips + [Skip(subAction, currentWork, isWriter)];
        SkipTheLineKeeps(old(Now()), isWriter);
        threw := Execute(flow, work);
      } else {
        Wait(flow, isWriter, work);
        threw := false;
      }
    }

    method Wait(flow: Option<nat>, isWriter: bool, work: Code)
      requires Good(Now()) && FlowOk(Now(), flow) && !subActionIncoming
      modifies this
      ensures Now() == Exec(old(Now()), flow, Enqueue(isWriter, work, Return)).0
      decreases work, 3, 1
    {
      ghost var before := Now();
      var item := Append(flow, isWriter, work);
      RequestIs(before, flow, isWriter, work);
      if |queue| == 1 {
        PushAndBeginKeeps(before, item, flow);
        StartHead(work);
      }
    }

    method Append(flow: Option<nat>, isWriter: bool, work: Code) returns (item: Item)
      modifies this`queue, this`nextId
      ensures item == NewItem(old(Now()), flow, isWriter, work) && Now() == Push(old(Now()), item)
    {
      var nestedIn := None;
      if queue != [] && flow == Some(queue[0].id) {
        nestedIn := flow;
      }
      item := Item(nextId, isWriter, nestedIn, work);
      queue, nextId := queue + [item], nextId + 1;
    }

    /** `_executeNext` up to its `await`. */
    method StartHead(work: Code)
      requires queue != [] && work == queue[0].work && Good(Begin(Now()))
      modifies this
      ensures Now() == ExecuteNext(old(Now()))
      decreases work, 3, 0
    {
      var head := queue[0].id;
      executing, started := true, started + [head];
      ExecKeeps(Now(), Some(head), work);
      var threw := Execute(Some(head), work);
      if threw {
        FinishHead();
      }
    }

    /** The end of `_executeNext`. */
    method FinishHead()
      requires queue != []
      modifies this
      ensures Now() == Settle(old(Now()))
    {
      executing, settled, queue := false, settled + [queue[0].id], queue[1..];
      if |queue| > 0 {
        scheduled := scheduled + 1;
      }
    }

    /** `callReader` and `callWriter`: `__validateQueue`, then `subAction`. */
    method CallSubAction(flow: Option<nat>, api: nat, block: Code) returns (threw: bool)
      requires Good(Now()) && FlowOk(Now(), flow)
      modifies this
      ensures (Now(), threw) == Exec(old(Now()), flow, SubAction(api, block, Return))
      decreases block, 4
    {
      if queue == [] || queue[0].id != api {
        return true;
      }
      OpenKeeps(Now());
      subActionIncoming, subAction, calls := true, calls, calls + 1;
      assert Now() == OpenSubAction(old(Now()));
      var failed := Execute(flow, block);
      if failed || subActionIncoming {
        subActionIncoming := false;
      }
      threw := false;
    }

    /** The getter of `then`, as `_guardNested` defines it. */
    method Then(flow: Option<nat>, item: nat)
      modifies this
      ensures Now() == Subscribe(old(Now()), flow, item)
    {
      var index := IndexOf(queue, item);
      if detectNested && index > 0 && queue[index].owner.Some? && queue[index].owner == flow
        && flow == Some(queue[0].id) {
        queue := queue[..index] + queue[index + 1..];
        dropped, settled := dropped + {item}, settled + [item];
      } else if flow.Some? && item < nextId {
        waits := waits + {(flow.value, item)};
      }
    }

    /** `_abortPendingWork` */
    method AbortPendingWork(flow: Option<nat>) returns (threw: bool)
      modifies this
      ensures (Now(), threw) == Exec(old(Now()), flow, Abort(Return))
    {
      if |queue| < 1 {
        return true;
      }
      dropped, settled := dropped + IdSet(queue[1..]), settled + ItemIds(queue[1..]);
      queue := queue[..1];
      threw := false;
    }

    /** A scheduled `_executeNext` fires. */
    method Fire()
      requires Idle(Now()) && scheduled > 0
      modifies this
      ensures Now() == Step(old(Now()), Timer)
    {
      ghost var fired := Now().(timers := scheduled - 1);
      scheduled := scheduled - 1;
      if |queue| > 0 {
        assert Now() == fired;
        BeginIsGood(fired);
        StartHead(queue[0].work);
      }
    }

    /** One turn of the event loop. */
    method Turn(e: Event)
      requires Idle(Now()) && Enabled(Now(), e)
      modifies this
      ensures Now() == Step(old(Now()), e) && Idle(Now())
    {
      StepKeeps(Now(), e);
      match e
      case Run(flow, code) => var _ := Execute(flow, code);
      case Finish => FinishHead();
      case Timer => Fire();
    }
  }
}
