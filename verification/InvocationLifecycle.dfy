/** One Invocation's lifecycle: its NodeExecutions, its scheduler queues, and the
    mailbox through which background work reports back. */
module InvocationLifecycle {
  import opened Options

  datatype ExecutionState = Created | Ready | Running | Waiting | Completed | Failed | Cancelled | Interrupted

  /** recoveryAttempt counts the replays that led to an execution. */
  datatype NodeExecution = NodeExecution(node: nat, recoveryAttempt: nat, state: ExecutionState)

  datatype InvocationState =
    | InvocationCreated | InvocationRunning | InvocationWaiting | InvocationCompleted | InvocationFailed
    | InvocationCancelled | InvocationInterrupted

  datatype Deferred = DeferredFailed | DeferredInterrupted

  datatype Request = Request(node: nat, recoveryAttempt: nat)

  datatype Transition = Transition(execution: nat, state: ExecutionState)

  /** What one finished piece of work reports. */
  datatype Outcome = Produced | WaitsOn(key: string) | Broke

  datatype Message = Progress(execution: nat) | Result(execution: nat, outcome: Outcome)

  /** Everything of an Invocation but its mailbox. routed lists the transitions the
      Scheduler has already been given, applied the messages taken in so far, resumed the
      executions completed from outside. */
  datatype Core = Core(
    state: InvocationState,
    executions: seq<NodeExecution>,
    ready: seq<Request>,
    transitions: seq<Transition>,
    waiting: map<string, nat>,
    deferred: Option<Deferred>,
    routed: seq<Transition>,
    applied: seq<Message>,
    resumed: set<nat>)

  /** Every unfinished execution got the state, the others stay. */
  ghost predicate EndedAs(before: seq<NodeExecution>, after: seq<NodeExecution>, ended: ExecutionState) {
    && |after| == |before|
    && forall i :: 0 <= i < |after| ==>
      && after[i].node == before[i].node && after[i].recoveryAttempt == before[i].recoveryAttempt
      && after[i].state == match before[i].state
        case Created => ended
        case Ready => ended
        case Running => ended
        case Waiting => ended
        case other => other
  }

  predicate IsActive(s: ExecutionState) {
    s.Created? || s.Ready? || s.Running? || s.Waiting?
  }

  function WithState(executions: seq<NodeExecution>, i: nat, state: ExecutionState): seq<NodeExecution>
    requires i < |executions|
  {
    executions[i := executions[i].(state := state)]
  }

  /** Gives every active execution the state, leaves the others. */
  function EndActive(executions: seq<NodeExecution>, state: ExecutionState): (r: seq<NodeExecution>)
    ensures |r| == |executions|
    ensures forall i :: 0 <= i < |r| ==>
      r[i] == if IsActive(executions[i].state) then executions[i].(state := state) else executions[i]
  {
    seq(|executions|, i requires 0 <= i < |executions| =>
      if IsActive(executions[i].state) then executions[i].(state := state) else executions[i])
  }

  function AfterSettled(c: Core, i: nat, state: ExecutionState): Core
    requires i < |c.executions|
  {
    c.(executions := WithState(c.executions, i, state), transitions := c.transitions + [Transition(i, state)])
  }

  function AfterEnding(c: Core, state: ExecutionState): Core {
    c.(executions := EndActive(c.executions, state), ready := [], transitions := [], waiting := map[])
  }

  class Invocation {
    var state: InvocationState
    var executions: seq<NodeExecution>
    var ready: seq<Request>
    var transitions: seq<Transition>
    var waiting: map<string, nat>
    var deferred: Option<Deferred>
    ghost var routed: seq<Transition>
    ghost var applied: seq<Message>
    ghost var resumed: set<nat>
    const mailbox: Mailbox

    ghost function Now(): Core
      reads this
    {
      Core(state, executions, ready, transitions, waiting, deferred, routed, applied, resumed)
    }

    constructor (entry: Request)
      ensures Now() == Core(InvocationCreated, [], [entry], [], map[], None, [], [], {})
      ensures fresh(mailbox) && mailbox.running == map[] && mailbox.messages == [] && mailbox.accepting
    {
      state, executions, ready, transitions, waiting, deferred := InvocationCreated, [], [entry], [], map[], None;
      routed, applied, resumed := [], [], {};
      mailbox := new Mailbox();
    }

    method MarkRunning()
      modifies this
      ensures Now() == old(Now()).(state := InvocationRunning)
    {
      state := InvocationRunning;
    }

    method MarkWaiting()
      modifies this
      ensures Now() == old(Now()).(state := InvocationWaiting)
    {
      state := InvocationWaiting;
    }

    method MarkCompleted()
      modifies this
      ensures Now() == old(Now()).(state := InvocationCompleted, deferred := None)
    {
      state, deferred := InvocationCompleted, None;
    }

    method MarkFailed()
      modifies this
      ensures Now() == old(Now()).(state := InvocationFailed, deferred := None)
    {
      state, deferred := InvocationFailed, None;
    }

    method MarkCancelled()
      modifies this
      ensures Now() == old(Now()).(state := InvocationCancelled, deferred := None)
    {
      state, deferred := InvocationCancelled, None;
    }

    method MarkInterrupted()
      modifies this
      ensures Now() == old(Now()).(state := InvocationInterrupted, deferred := None)
    {
      state, deferred := InvocationInterrupted, None;
    }

    method DeferTerminal(kind: Deferred)
      modifies this
      ensures Now() == old(Now()).(deferred := Some(kind))
    {
      deferred := Some(kind);
    }

    method DrainTransitions() returns (drained: seq<Transition>)
      modifies this
      ensures drained == old(transitions)
      ensures Now() == old(Now()).(transitions := [], routed := old(routed) + old(transitions))
    {
      drained := transitions;
      routed := routed + transitions;
      transitions := [];
    }

    method DrainReady() returns (drained: seq<Request>)
      modifies this
      ensures drained == old(ready)
      ensures Now() == old(Now()).(ready := [])
    {
      drained := ready;
      ready := [];
    }

    method EnqueueReady(requests: seq<Request>)
      modifies this
      ensures Now() == old(Now()).(ready := old(ready) + requests)
    {
      ready := ready + requests;
    }

    /** Appends an execution that is ready to run; its identity is its position. */
    method CreateNodeExecution(request: Request) returns (id: nat)
      modifies this
      ensures id == old(|executions|)
      ensures Now() == old(Now()).(executions :=
        old(executions) + [NodeExecution(request.node, request.recoveryAttempt, Ready)])
    {
      id := |executions|;
      executions := executions + [NodeExecution(request.node, request.recoveryAttempt, Ready)];
    }

    method MarkNodeRunning(id: nat)
      requires id < |executions|
      modifies this
      ensures Now() == old(Now()).(executions := WithState(old(executions), id, Running), state := InvocationRunning)
    {
      executions := WithState(executions, id, Running);
      MarkRunning();
    }

    method MarkNodeCompleted(id: nat)
      requires id < |executions|
      modifies this
      ensures Now() == AfterSettled(old(Now()), id, Completed)
      ensures executions == old(executions)[id := old(executions)[id].(state := Completed)]
      ensures transitions == old(transitions) + [Transition(id, Completed)]
    {
      executions := WithState(executions, id, Completed);
      transitions := transitions + [Transition(id, Completed)];
    }

    method MarkNodeFailed(id: nat)
      requires id < |executions|
      modifies this
      ensures Now() == AfterSettled(old(Now()), id, Failed)
      ensures executions == old(executions)[id := old(executions)[id].(state := Failed)]
      ensures transitions == old(transitions) + [Transition(id, Failed)]
    {
      executions := WithState(executions, id, Failed);
      transitions := transitions + [Transition(id, Failed)];
    }

    /** Pauses an execution on a key. A key that is already waited on is an error,
        raised after the execution was marked. */
    method MarkNodeWaiting(id: nat, key: string) returns (ok: bool)
      requires id < |executions|
      modifies this
      ensures ok <==> key !in old(waiting)
      ensures !ok ==> Now() == old(Now()).(executions := WithState(old(executions), id, Waiting))
      ensures ok ==> Now() == AfterSettled(old(Now()), id, Waiting).(waiting := old(waiting)[key := id])
      ensures executions == old(executions)[id := old(executions)[id].(state := Waiting)]
      ensures transitions == old(transitions) + if ok then [Transition(id, Waiting)] else []
    {
      executions := WithState(executions, id, Waiting);
      if key in waiting {
        return false;
      }
      waiting := waiting[key := id];
      transitions := transitions + [Transition(id, Waiting)];
      return true;
    }

    method InterruptExecution(id: nat)
      requires id < |executions|
      modifies this
      ensures Now() == old(Now()).(executions := WithState(old(executions), id, Interrupted))
    {
      executions := WithState(executions, id, Interrupted);
    }

    method RemoveWaiting(key: string)
      modifies this
      ensures Now() == old(Now()).(waiting := old(waiting) - {key})
    {
      waiting := waiting - {key};
    }

    method EndActiveExecutions(ended: ExecutionState)
      modifies this
      ensures Now() == old(Now()).(executions := EndActive(old(executions), ended))
    {
      var i := 0;
      while i < |executions|
        invariant 0 <= i <= |executions| == |old(executions)|
        invariant Now() == old(Now()).(executions := executions)
        invariant forall j :: 0 <= j < i ==> executions[j] == EndActive(old(executions), ended)[j]
        invariant forall j :: i <= j < |executions| ==> executions[j] == old(executions)[j]
      {
        if IsActive(executions[i].state) {
          executions := WithState(executions, i, ended);
        }
        i := i + 1;
      }
      assert executions == EndActive(old(executions), ended);
    }

    method CancelActiveNodeExecutions()
      modifies this
      ensures Now() == AfterEnding(old(Now()), Cancelled)
      ensures EndedAs(old(executions), executions, Cancelled) && ready == [] && waiting == map[] && transitions == []
    {
      EndActiveExecutions(Cancelled);
      ready, waiting, transitions := [], map[], [];
    }

    method InterruptActiveNodeExecutions()
      modifies this
      ensures Now() == AfterEnding(old(Now()), Interrupted)
      ensures EndedAs(old(executions), executions, Interrupted) && ready == [] && waiting == map[] && transitions == []
    {
      EndActiveExecutions(Interrupted);
      ready, waiting, transitions := [], map[], [];
    }
  }

  /** Which background tasks are in flight and for which execution, and what has
      arrived but was not yet taken out. */
  class Mailbox {
    var running: map<nat, nat>
    var messages: seq<Message>
    var accepting: bool

    constructor ()
      ensures running == map[] && messages == [] && accepting
    {
      running, messages, accepting := map[], [], true;
    }

    /** A closed mailbox takes no task. */
    method Track(task: nat, execution: nat) returns (ok: bool)
      modifies this
      ensures ok <==> old(accepting)
      ensures running == if ok then old(running)[task := execution] else old(running)
      ensures messages == old(messages) && accepting == old(accepting)
    {
      if !accepting {
        return false;
      }
      running := running[task := execution];
      return true;
    }

    /** A task that is not in flight here is refused. */
    method FinishTask(task: nat, result: Message) returns (ok: bool)
      modifies this
      ensures ok <==> task in old(running)
      ensures running == old(running) - {task} && accepting == old(accepting)
      ensures messages == if ok && accepting then old(messages) + [result] else old(messages)
    {
      if task !in running {
        assert running == running - {task};
        return false;
      }
      running := running - {task};
      PutMessage(result);
      return true;
    }

    method PutMessage(message: Message)
      modifies this
      ensures running == old(running) && accepting == old(accepting)
      ensures messages == if accepting then old(messages) + [message] else old(messages)
    {
      if accepting {
        messages := messages + [message];
      }
    }

    method DrainMessages() returns (drained: seq<Message>)
      modifies this
      ensures drained == old(messages) && messages == []
      ensures running == old(running) && accepting == old(accepting)
    {
      drained := messages;
      messages := [];
    }

    method HasPending() returns (r: bool)
      ensures r <==> running != map[] || messages != []
    {
      return running != map[] || messages != [];
    }

    /** Drops every task; late holds what the dropped tasks still report. */
    method Abandon(late: seq<Message>) returns (drained: seq<Message>)
      modifies this
      ensures running == map[] && messages == [] && !accepting
      ensures drained == old(messages) + if old(accepting) then late else []
    {
      running := map[];
      for k := 0 to |late|
        invariant running == map[] && accepting == old(accepting)
        invariant messages == old(messages) + if accepting then late[..k] else []
      {
        assert late[..k + 1] == late[..k] + [late[k]];
        PutMessage(late[k]);
      }
      assert late[..|late|] == late;
      drained := DrainMessages();
      accepting := false;
    }

    method Close()
      modifies this
      ensures running == old(running) && messages == old(messages) && !accepting
    {
      accepting := false;
    }
  }
}
