/** The control loop that advances one Invocation until it reaches a stable state,
    for any behaviour of the Scheduler, the hooks and the background work. */
module DriveLoop {
  import opened Options
  import opened InvocationLifecycle

  /** What the loop reads of the compiled Workflow. recovery is how many replay
      attempts a node's policy allows, None when it allows none at all. */
  datatype NodePolicy = NodePolicy(maxExecutions: Option<nat>, recovery: Option<nat>)

  datatype Workflow = Workflow(nodes: map<nat, NodePolicy>, exits: set<nat>, failFast: bool)

  // ----- what holds between the steps of the loop -----

  ghost function TasksFor(running: map<nat, nat>, i: nat): set<nat> {
    set t | t in running && running[t] == i
  }

  ghost function ResultsFor(messages: seq<Message>, i: nat): nat {
    if messages == [] then 0
    else (if messages[0].Result? && messages[0].execution == i then 1 else 0) + ResultsFor(messages[1..], i)
  }

  ghost function JobsFor(jobs: seq<nat>, i: nat): nat {
    multiset(jobs)[i]
  }

  /** How many pieces of work stand behind execution i: jobs not yet submitted, tasks
      in flight, and results not yet applied. */
  ghost function Backing(running: map<nat, nat>, messages: seq<Message>, jobs: seq<nat>, i: nat): nat {
    |TasksFor(running, i)| + ResultsFor(messages, i) + JobsFor(jobs, i)
  }

  predicate InState(executions: seq<NodeExecution>, i: nat, state: ExecutionState) {
    i < |executions| && executions[i].state == state
  }

  /** Every running execution, and nothing else, has exactly one piece of work behind it. */
  ghost predicate Backed(executions: seq<NodeExecution>, running: map<nat, nat>, messages: seq<Message>,
      jobs: seq<nat>) {
    forall i: nat {:trigger Backing(running, messages, jobs, i)} ::
      Backing(running, messages, jobs, i) == if InState(executions, i, Running) then 1 else 0
  }

  ghost predicate KnownMessages(executions: seq<NodeExecution>, messages: seq<Message>) {
    forall m :: m in messages ==> m.execution < |executions|
  }

  /** Wait keys and waiting executions correspond one to one. */
  ghost predicate WaitsMatch(executions: seq<NodeExecution>, waiting: map<string, nat>) {
    && (forall k :: k in waiting ==> InState(executions, waiting[k], Waiting))
    && (forall i: nat :: InState(executions, i, Waiting) ==> exists k :: k in waiting && waiting[k] == i)
    && (forall k, l :: k in waiting && l in waiting && waiting[k] == waiting[l] ==> k == l)
  }

  predicate IsFinal(s: ExecutionState) {
    s.Completed? || s.Failed?
  }

  ghost function FinalsFor(ts: seq<Transition>, i: nat): nat {
    if ts == [] then 0
    else FinalsFor(ts[..|ts| - 1], i) + if ts[|ts| - 1].execution == i && IsFinal(ts[|ts| - 1].state) then 1 else 0
  }

  /** Every completed or failed execution has exactly one transition that says so,
      waiting for the Scheduler or already given to it. */
  ghost predicate HandedOnce(executions: seq<NodeExecution>, all: seq<Transition>) {
    && (forall i: nat {:trigger FinalsFor(all, i)} ::
      FinalsFor(all, i) == if i < |executions| && IsFinal(executions[i].state) then 1 else 0)
    && forall t :: t in all ==>
      t.execution < |executions| && (t.state.Waiting? || (IsFinal(t.state) && executions[t.execution].state == t.state))
  }

  ghost predicate HasEnded(s: ExecutionState) {
    s == Completed || s == Failed || s == Cancelled || s == Interrupted
  }

  /** Executions are only added, and one that has ended never changes again. */
  ghost predicate Extends(before: seq<NodeExecution>, after: seq<NodeExecution>) {
    && |before| <= |after|
    && forall i :: 0 <= i < |before| ==>
      after[i].node == before[i].node && after[i].recoveryAttempt == before[i].recoveryAttempt &&
      (HasEnded(before[i].state) ==> after[i] == before[i])
  }

  ghost predicate Started(executions: seq<NodeExecution>) {
    forall i :: 0 <= i < |executions| ==> !executions[i].state.Created? && !executions[i].state.Ready?
  }

  function CountFor(executions: seq<NodeExecution>, node: nat): nat {
    if executions == [] then 0
    else CountFor(executions[..|executions| - 1], node) + if executions[|executions| - 1].node == node then 1 else 0
  }

  ghost predicate WithinLimits(w: Workflow, executions: seq<NodeExecution>) {
    forall node :: node in w.nodes && w.nodes[node].maxExecutions.Some? ==>
      CountFor(executions, node) <= w.nodes[node].maxExecutions.value
  }

  /** An execution is completed only by a produced result that was applied to it, or from
      outside; a result that says its work broke has failed its execution, and a produced
      one has ended it. */
  ghost predicate Accounted(executions: seq<NodeExecution>, applied: seq<Message>, resumed: set<nat>) {
    && (forall i: nat :: InState(executions, i, Completed) ==> Result(i, Produced) in applied || i in resumed)
    && (forall i: nat :: Result(i, Broke) in applied ==> InState(executions, i, Failed))
    && (forall i: nat :: Result(i, Produced) in applied ==>
      InState(executions, i, Completed) || InState(executions, i, Failed))
  }

  /** jobs are those prepared but not yet submitted. */
  ghost predicate Healthy(w: Workflow, c: Core, running: map<nat, nat>, messages: seq<Message>, jobs: seq<nat>) {
    && Backed(c.executions, running, messages, jobs) && KnownMessages(c.executions, messages)
    && WaitsMatch(c.executions, c.waiting) && HandedOnce(c.executions, c.routed + c.transitions)
    && Started(c.executions) && WithinLimits(w, c.executions) && Accounted(c.executions, c.applied, c.resumed)
  }

  ghost predicate LoopHead(w: Workflow, invocation: Invocation)
    reads invocation, invocation.mailbox
  {
    && Healthy(w, invocation.Now(), invocation.mailbox.running, invocation.mailbox.messages, [])
    && invocation.mailbox.accepting
    && (invocation.state.InvocationRunning? || invocation.state.InvocationWaiting?)
  }

  /** No unfinished execution and nothing queued. */
  ghost predicate Quiet(c: Core) {
    && (forall i :: 0 <= i < |c.executions| ==> HasEnded(c.executions[i].state))
    && c.ready == [] && c.transitions == [] && c.waiting == map[]
  }

  // ----- counting -----

  lemma {:induction false} ResultsAppend(a: seq<Message>, b: seq<Message>, i: nat)
    ensures ResultsFor(a + b, i) == ResultsFor(a, i) + ResultsFor(b, i)
  {
    if a == [] {
      assert a + b == b;
    } else {
      assert (a + b)[1..] == a[1..] + b;
      ResultsAppend(a[1..], b, i);
    }
  }

  lemma {:induction false} TrackCounts(running: map<nat, nat>, t: nat, execution: nat, i: nat)
    requires t !in running
    ensures |TasksFor(running[t := execution], i)| == |TasksFor(running, i)| + if i == execution then 1 else 0
  {
    var next := running[t := execution];
    if i == execution {
      assert TasksFor(next, i) == TasksFor(running, i) + {t};
    } else {
      assert TasksFor(next, i) == TasksFor(running, i);
    }
  }

  lemma {:induction false} UntrackCounts(running: map<nat, nat>, t: nat, i: nat)
    requires t in running
    ensures |TasksFor(running, i)| == |TasksFor(running - {t}, i)| + if i == running[t] then 1 else 0
  {
    assert running == (running - {t})[t := running[t]];
    TrackCounts(running - {t}, t, running[t], i);
  }

  lemma {:induction false} FinalsSnoc(ts: seq<Transition>, t: Transition, i: nat)
    ensures FinalsFor(ts + [t], i) == FinalsFor(ts, i) + if t.execution == i && IsFinal(t.state) then 1 else 0
  {
    assert (ts + [t])[..|ts|] == ts;
  }

  lemma {:induction false} CountSnoc(executions: seq<NodeExecution>, e: NodeExecution, node: nat)
    ensures CountFor(executions + [e], node) == CountFor(executions, node) + if e.node == node then 1 else 0
  {
    assert (executions + [e])[..|executions|] == executions;
  }

  lemma {:induction false} CountKept(a: seq<NodeExecution>, b: seq<NodeExecution>, node: nat)
    requires |a| == |b| && forall i :: 0 <= i < |a| ==> a[i].node == b[i].node
    ensures CountFor(a, node) == CountFor(b, node)
  {
    if a != [] { CountKept(a[..|a| - 1], b[..|b| - 1], node); }
  }

  lemma {:induction false} LimitsKept(w: Workflow, a: seq<NodeExecution>, b: seq<NodeExecution>)
    requires |a| == |b| && forall i :: 0 <= i < |a| ==> a[i].node == b[i].node
    requires WithinLimits(w, a)
    ensures WithinLimits(w, b)
  {
    forall node | node in w.nodes && w.nodes[node].maxExecutions.Some?
      ensures CountFor(b, node) <= w.nodes[node].maxExecutions.value
    {
      CountKept(a, b, node);
    }
  }

  // ----- the steps keep it -----

  /** Taking the result of execution i off the front of the messages and settling i. */
  lemma {:induction false} SettleBacked(executions: seq<NodeExecution>, running: map<nat, nat>,
      messages: seq<Message>, jobs: seq<nat>, state: ExecutionState)
    requires messages != [] && messages[0].Result? && Backed(executions, running, messages, jobs)
    requires messages[0].execution < |executions| && !state.Running?
    ensures InState(executions, messages[0].execution, Running)
    ensures Backed(WithState(executions, messages[0].execution, state), running, messages[1..], jobs)
  {
    var i0 := messages[0].execution;
    assert Backing(running, messages, jobs, i0) > 0;
    forall i: nat
      ensures Backing(running, messages[1..], jobs, i) ==
        if InState(WithState(executions, i0, state), i, Running) then 1 else 0
    {
      assert Backing(running, messages, jobs, i) == if InState(executions, i, Running) then 1 else 0;
    }
  }

  lemma {:induction false} HandFinal(executions: seq<NodeExecution>, all: seq<Transition>, i0: nat,
      state: ExecutionState)
    requires HandedOnce(executions, all) && i0 < |executions| && !IsFinal(executions[i0].state) && IsFinal(state)
    ensures HandedOnce(WithState(executions, i0, state), all + [Transition(i0, state)])
  {
    forall i: nat
      ensures FinalsFor(all + [Transition(i0, state)], i) ==
        if i < |executions| && IsFinal(WithState(executions, i0, state)[i].state) then 1 else 0
    {
      FinalsSnoc(all, Transition(i0, state), i);
      assert FinalsFor(all, i) == if i < |executions| && IsFinal(executions[i].state) then 1 else 0;
    }
  }

  lemma {:induction false} HandWaiting(executions: seq<NodeExecution>, all: seq<Transition>, i0: nat)
    requires HandedOnce(executions, all) && i0 < |executions| && !IsFinal(executions[i0].state)
    ensures HandedOnce(WithState(executions, i0, Waiting), all + [Transition(i0, Waiting)])
  {
    forall i: nat
      ensures FinalsFor(all + [Transition(i0, Waiting)], i) ==
        if i < |executions| && IsFinal(WithState(executions, i0, Waiting)[i].state) then 1 else 0
    {
      FinalsSnoc(all, Transition(i0, Waiting), i);
      assert FinalsFor(all, i) == if i < |executions| && IsFinal(executions[i].state) then 1 else 0;
    }
  }

  lemma {:induction false} WaitsKept(executions: seq<NodeExecution>, waiting: map<string, nat>, i0: nat,
      state: ExecutionState)
    requires WaitsMatch(executions, waiting) && i0 < |executions| && !executions[i0].state.Waiting? && !state.Waiting?
    ensures WaitsMatch(WithState(executions, i0, state), waiting)
  {
    var next := WithState(executions, i0, state);
    forall i: nat | InState(next, i, Waiting)
      ensures exists k :: k in waiting && waiting[k] == i
    {
      assert InState(executions, i, Waiting);
    }
  }

  lemma {:induction false} WaitsAdded(executions: seq<NodeExecution>, waiting: map<string, nat>, i0: nat, key: string)
    requires WaitsMatch(executions, waiting) && i0 < |executions| && !executions[i0].state.Waiting? && key !in waiting
    ensures WaitsMatch(WithState(executions, i0, Waiting), waiting[key := i0])
  {
    var next, waiting' := WithState(executions, i0, Waiting), waiting[key := i0];
    forall i: nat | InState(next, i, Waiting)
      ensures exists k :: k in waiting' && waiting'[k] == i
    {
      if i == i0 {
        assert waiting'[key] == i0;
      } else {
        assert InState(executions, i, Waiting);
        var k :| k in waiting && waiting[k] == i;
        assert k in waiting' && waiting'[k] == i;
      }
    }
    forall k | k in waiting
      ensures waiting[k] != i0
    {
      assert InState(executions, waiting[k], Waiting);
    }
  }

  /** Applying message to the running execution i. */
  lemma {:induction false} AccountedApply(c: Core, i: nat, state: ExecutionState, message: Message)
    requires Accounted(c.executions, c.applied, c.resumed) && InState(c.executions, i, Running)
    requires message.Result? && message.execution == i && !state.Running?
    requires state.Completed? ==> message.outcome.Produced?
    requires message.outcome.Broke? ==> state.Failed?
    requires message.outcome.Produced? ==> state.Completed? || state.Failed?
    ensures Accounted(WithState(c.executions, i, state), c.applied + [message], c.resumed)
  {
    var next, applied := WithState(c.executions, i, state), c.applied + [message];
    forall j: nat, outcome | Result(j, outcome) in c.applied && (outcome.Broke? || outcome.Produced?)
      ensures j != i
    {
    }
    forall j: nat | InState(next, j, Completed)
      ensures Result(j, Produced) in applied || j in c.resumed
    {
      if j != i { assert InState(c.executions, j, Completed); }
    }
    forall j: nat | Result(j, Broke) in applied
      ensures InState(next, j, Failed)
    {
      if j != i { assert Result(j, Broke) in c.applied; }
    }
    forall j: nat | Result(j, Produced) in applied
      ensures InState(next, j, Completed) || InState(next, j, Failed)
    {
      if j != i { assert Result(j, Produced) in c.applied; }
    }
  }

  /** Ending, starting or pausing an execution without a result. */
  lemma {:induction false} AccountedKept(before: seq<NodeExecution>, after: seq<NodeExecution>, applied: seq<Message>,
      resumed: set<nat>)
    requires Accounted(before, applied, resumed) && Extends(before, after)
    requires forall i: nat :: InState(after, i, Completed) ==> InState(before, i, Completed)
    ensures Accounted(after, applied, resumed)
  {
    forall i: nat | InState(before, i, Completed) || InState(before, i, Failed)
      ensures after[i] == before[i]
    {
    }
  }

  lemma {:induction false} AccountedEnds(executions: seq<NodeExecution>, state: ExecutionState, applied: seq<Message>,
      resumed: set<nat>)
    requires Accounted(executions, applied, resumed) && (state.Cancelled? || state.Interrupted?)
    ensures Accounted(EndActive(executions, state), applied, resumed)
  {
    AccountedKept(executions, EndActive(executions, state), applied, resumed);
  }

  ghost predicate Accounts(invocation: Invocation)
    reads invocation
  {
    Accounted(invocation.executions, invocation.applied, invocation.resumed)
  }

  /** Applying a result that completes or fails its execution. */
  lemma {:induction false} ResultSettles(w: Workflow, c: Core, running: map<nat, nat>, messages: seq<Message>,
      state: ExecutionState)
    requires Healthy(w, c, running, messages, []) && messages != [] && messages[0].Result? && IsFinal(state)
    requires state.Completed? ==> messages[0].outcome.Produced?
    ensures InState(c.executions, messages[0].execution, Running)
    ensures Healthy(w, Logged(AfterSettled(c, messages[0].execution, state), messages[0]), running, messages[1..], [])
  {
    var i := messages[0].execution;
    SettleBacked(c.executions, running, messages, [], state);
    HandFinal(c.executions, c.routed + c.transitions, i, state);
    assert c.routed + (c.transitions + [Transition(i, state)]) == c.routed + c.transitions + [Transition(i, state)];
    WaitsKept(c.executions, c.waiting, i, state);
    LimitsKept(w, c.executions, WithState(c.executions, i, state));
    AccountedApply(c, i, state, messages[0]);
  }

  function Logged(c: Core, message: Message): Core {
    c.(applied := c.applied + [message])
  }

  /** Applying a result that waits on a free key. */
  lemma {:induction false} ResultWaits(w: Workflow, c: Core, running: map<nat, nat>, messages: seq<Message>,
      key: string)
    requires Healthy(w, c, running, messages, []) && messages != [] && messages[0].Result? && key !in c.waiting
    requires messages[0].outcome.WaitsOn?
    ensures InState(c.executions, messages[0].execution, Running)
    ensures var i := messages[0].execution;
      Healthy(w, Logged(AfterSettled(c, i, Waiting).(waiting := c.waiting[key := i]), messages[0]), running,
        messages[1..], [])
  {
    var i := messages[0].execution;
    SettleBacked(c.executions, running, messages, [], Waiting);
    HandWaiting(c.executions, c.routed + c.transitions, i);
    assert c.routed + (c.transitions + [Transition(i, Waiting)]) == c.routed + c.transitions + [Transition(i, Waiting)];
    WaitsAdded(c.executions, c.waiting, i, key);
    LimitsKept(w, c.executions, WithState(c.executions, i, Waiting));
    AccountedApply(c, i, Waiting, messages[0]);
  }

  lemma {:induction false} ProgressChangesNothing(w: Workflow, c: Core, running: map<nat, nat>, messages: seq<Message>)
    requires Healthy(w, c, running, messages, []) && messages != [] && messages[0].Progress?
    ensures messages[0].execution < |c.executions|
    ensures Healthy(w, Logged(c, messages[0]), running, messages[1..], [])
  {
    forall i: nat
      ensures Backing(running, messages[1..], [], i) == if InState(c.executions, i, Running) then 1 else 0
    {
      assert Backing(running, messages, [], i) == if InState(c.executions, i, Running) then 1 else 0;
    }
  }

  /** A new execution that is running, with its job prepared. */
  lemma {:induction false} StartBacked(executions: seq<NodeExecution>, running: map<nat, nat>, messages: seq<Message>,
      jobs: seq<nat>, e: NodeExecution)
    requires Backed(executions, running, messages, jobs) && e.state.Running?
    ensures Backed(executions + [e], running, messages, jobs + [|executions|])
  {
    var next := executions + [e];
    forall i: nat
      ensures Backing(running, messages, jobs + [|executions|], i) == if InState(next, i, Running) then 1 else 0
    {
      assert Backing(running, messages, jobs, i) == if InState(executions, i, Running) then 1 else 0;
    }
  }

  lemma {:induction false} HandedGrows(executions: seq<NodeExecution>, all: seq<Transition>, e: NodeExecution)
    requires HandedOnce(executions, all) && !IsFinal(e.state)
    ensures HandedOnce(executions + [e], all)
  {
    forall i: nat
      ensures FinalsFor(all, i) == if i < |executions + [e]| && IsFinal((executions + [e])[i].state) then 1 else 0
    {
      assert FinalsFor(all, i) == if i < |executions| && IsFinal(executions[i].state) then 1 else 0;
    }
  }

  lemma {:induction false} WaitsGrow(executions: seq<NodeExecution>, waiting: map<string, nat>, e: NodeExecution)
    requires WaitsMatch(executions, waiting) && !e.state.Waiting?
    ensures WaitsMatch(executions + [e], waiting)
  {
    forall i: nat | InState(executions + [e], i, Waiting)
      ensures exists k :: k in waiting && waiting[k] == i
    {
      assert InState(executions, i, Waiting);
    }
  }

  lemma {:induction false} LimitsGrow(w: Workflow, executions: seq<NodeExecution>, e: NodeExecution)
    requires WithinLimits(w, executions) && e.node in w.nodes
    requires w.nodes[e.node].maxExecutions.Some? ==> CountFor(executions, e.node) < w.nodes[e.node].maxExecutions.value
    ensures WithinLimits(w, executions + [e])
  {
    forall node | node in w.nodes && w.nodes[node].maxExecutions.Some?
      ensures CountFor(executions + [e], node) <= w.nodes[node].maxExecutions.value
    {
      CountSnoc(executions, e, node);
    }
  }

  lemma {:induction false} ExecutionStarts(w: Workflow, c: Core, running: map<nat, nat>, messages: seq<Message>,
      jobs: seq<nat>, e: NodeExecution)
    requires Healthy(w, c, running, messages, jobs) && e.state.Running? && e.node in w.nodes
    requires w.nodes[e.node].maxExecutions.Some? ==>
      CountFor(c.executions, e.node) < w.nodes[e.node].maxExecutions.value
    ensures Healthy(w, c.(executions := c.executions + [e], state := InvocationRunning), running, messages,
      jobs + [|c.executions|])
  {
    StartBacked(c.executions, running, messages, jobs, e);
    HandedGrows(c.executions, c.routed + c.transitions, e);
    WaitsGrow(c.executions, c.waiting, e);
    LimitsGrow(w, c.executions, e);
    AccountedKept(c.executions, c.executions + [e], c.applied, c.resumed);
  }

  /** The prepared job of the newest execution is dropped and the execution failed. */
  lemma {:induction false} StartFails(w: Workflow, c: Core, running: map<nat, nat>, messages: seq<Message>,
      jobs: seq<nat>, id: nat)
    requires Healthy(w, c, running, messages, jobs + [id]) && id < |c.executions|
    ensures Healthy(w, AfterSettled(c, id, Failed), running, messages, jobs)
  {
    var executions := c.executions;
    assert JobsFor(jobs + [id], id) > 0;
    assert Backing(running, messages, jobs + [id], id) > 0;
    forall i: nat
      ensures Backing(running, messages, jobs, i) ==
        if InState(WithState(executions, id, Failed), i, Running) then 1 else 0
    {
      assert Backing(running, messages, jobs + [id], i) == if InState(executions, i, Running) then 1 else 0;
    }
    HandFinal(executions, c.routed + c.transitions, id, Failed);
    assert c.routed + (c.transitions + [Transition(id, Failed)]) == c.routed + c.transitions + [Transition(id, Failed)];
    WaitsKept(executions, c.waiting, id, Failed);
    LimitsKept(w, executions, WithState(executions, id, Failed));
    AccountedKept(executions, WithState(executions, id, Failed), c.applied, c.resumed);
  }

  lemma {:induction false} JobsSplit(jobs: seq<nat>, i: nat)
    requires jobs != []
    ensures JobsFor(jobs, i) == JobsFor(jobs[1..], i) + if jobs[0] == i then 1 else 0
  {
    assert jobs == [jobs[0]] + jobs[1..];
  }

  /** A job answered at once. */
  lemma {:induction false} JobAnswered(running: map<nat, nat>, messages: seq<Message>, jobs: seq<nat>,
      outcome: Outcome, i: nat)
    requires jobs != []
    ensures Backing(running, messages + [Result(jobs[0], outcome)], jobs[1..], i) == Backing(running, messages, jobs, i)
  {
    ResultsAppend(messages, [Result(jobs[0], outcome)], i);
    JobsSplit(jobs, i);
  }

  /** A job started as a background task. */
  lemma {:induction false} JobTracked(running: map<nat, nat>, messages: seq<Message>, jobs: seq<nat>, task: nat, i: nat)
    requires jobs != [] && task !in running
    ensures Backing(running[task := jobs[0]], messages, jobs[1..], i) == Backing(running, messages, jobs, i)
  {
    TrackCounts(running, task, jobs[0], i);
    JobsSplit(jobs, i);
  }

  /** Submitting moves jobs into the mailbox and changes nothing about what is backed. */
  lemma {:induction false} SubmittedHealthy(w: Workflow, c: Core, running: map<nat, nat>, messages: seq<Message>,
      jobs: seq<nat>, running': map<nat, nat>, messages': seq<Message>)
    requires Healthy(w, c, running, messages, jobs)
    requires forall i: nat {:trigger Backing(running', messages', [], i)} ::
      Backing(running', messages', [], i) == Backing(running, messages, jobs, i)
    requires forall m :: m in messages' ==> m in messages || m.execution in jobs
    ensures Healthy(w, c, running', messages', [])
  {
    forall m | m in messages'
      ensures m.execution < |c.executions|
    {
      if m !in messages {
        var i := m.execution;
        assert JobsFor(jobs, i) > 0;
        assert Backing(running, messages, jobs, i) > 0;
      }
    }
  }

  lemma {:induction false} TaskReports(w: Workflow, c: Core, running: map<nat, nat>, messages: seq<Message>,
      jobs: seq<nat>, task: nat, outcome: Outcome)
    requires Healthy(w, c, running, messages, jobs) && task in running
    ensures running[task] < |c.executions|
    ensures Healthy(w, c, running - {task}, messages + [Result(running[task], outcome)], jobs)
  {
    var m := Result(running[task], outcome);
    UntrackCounts(running, task, running[task]);
    assert Backing(running, messages, jobs, running[task]) > 0;
    forall i: nat
      ensures Backing(running - {task}, messages + [m], jobs, i) == if InState(c.executions, i, Running) then 1 else 0
    {
      UntrackCounts(running, task, i);
      ResultsAppend(messages, [m], i);
      assert Backing(running, messages, jobs, i) == if InState(c.executions, i, Running) then 1 else 0;
    }
  }

  lemma {:induction false} ProgressArrives(w: Workflow, c: Core, running: map<nat, nat>, messages: seq<Message>,
      jobs: seq<nat>, execution: nat)
    requires Healthy(w, c, running, messages, jobs) && execution < |c.executions|
    ensures Healthy(w, c, running, messages + [Progress(execution)], jobs)
  {
    forall i: nat
      ensures Backing(running, messages + [Progress(execution)], jobs, i) ==
        if InState(c.executions, i, Running) then 1 else 0
    {
      ResultsAppend(messages, [Progress(execution)], i);
      assert Backing(running, messages, jobs, i) == if InState(c.executions, i, Running) then 1 else 0;
    }
  }

  /** With nothing in flight, undelivered, waiting or queued, no execution is active. */
  lemma {:induction false} NothingPendingIsQuiet(w: Workflow, c: Core)
    requires Healthy(w, c, map[], [], []) && c.waiting == map[] && c.ready == [] && c.transitions == []
    ensures Quiet(c)
  {
    forall i: nat | i < |c.executions|
      ensures HasEnded(c.executions[i].state)
    {
      assert TasksFor(map[], i) == {};
      assert Backing(map[], [], [], i) == 0;
      if c.executions[i].state.Waiting? { assert InState(c.executions, i, Waiting); }
    }
  }

  lemma {:induction false} FreshTask(running: map<nat, nat>)
    ensures exists t: nat :: t !in running
  {
    var bound := KeysBounded(running.Keys);
    assert bound !in running;
  }

  lemma {:induction false} KeysBounded(keys: set<nat>) returns (bound: nat)
    ensures forall k :: k in keys ==> k < bound
  {
    if keys == {} {
      bound := 0;
    } else {
      var k :| k in keys;
      var below := KeysBounded(keys - {k});
      bound := if below <= k then k + 1 else below;
      assert forall j :: j in keys ==> j == k || j in keys - {k};
    }
  }

  // ----- the environment's choices -----

  /** What the Scheduler does with the transitions it is given. */
  datatype Routing = Routing(enqueued: seq<Request>, fails: bool, defers: bool)

  datatype Preparation = MappingFails | AttemptsUsedUp | Prepared

  datatype Handling = Handling(overRuntime: bool, bindingFails: bool)

  /** Choices for one pass: routing; how the k-th request's input is prepared and what
      skipping it enqueues; what a job of an execution is answered at once, None when
      it becomes a background task; how the k-th message's result is handled; what
      dropped tasks still report. */
  datatype Environment = Environment(
    routing: Routing,
    prepare: nat -> Preparation,
    unblocks: nat -> seq<Request>,
    dispatch: nat -> Option<Outcome>,
    handle: nat -> Handling,
    late: seq<Message>)

  // ----- the loop's parts -----

  predicate RecoveryRejected(policy: NodePolicy, request: Request) {
    policy.recovery.None? || request.recoveryAttempt > policy.recovery.value
  }

  /** Every added execution is one its node's recovery policy allows. */
  ghost predicate ReplaysAllowed(w: Workflow, before: nat, executions: seq<NodeExecution>) {
    && before <= |executions|
    && forall i :: before <= i < |executions| ==> ReplayAllowed(w, executions[i])
  }

  ghost predicate ReplayAllowed(w: Workflow, e: NodeExecution) {
    e.node in w.nodes && w.nodes[e.node].recovery.Some? && e.recoveryAttempt <= w.nodes[e.node].recovery.value
  }

  /** One execution was added for each request, in order. */
  ghost predicate StartedFor(before: nat, executions: seq<NodeExecution>, requests: seq<Request>) {
    |executions| == before + |requests| && forall k :: 0 <= k < |requests| ==>
      executions[before + k].node == requests[k].node
  }

  /** The node is unknown or has no executions left. */
  ghost predicate Refused(w: Workflow, executions: seq<NodeExecution>, request: Request) {
    request.node !in w.nodes || (w.nodes[request.node].maxExecutions.Some? &&
      CountFor(executions, request.node) >= w.nodes[request.node].maxExecutions.value)
  }

  datatype BatchEnd = Through | Fails | Interrupts

  datatype Verdict = Starts | Skips | Stops(end: BatchEnd)

  /** What is to happen to a request: an unknown node and a reached limit fail the
      Invocation, a replay its node forbids is skipped, under fail-fast it interrupts. */
  function VerdictOn(w: Workflow, executions: seq<NodeExecution>, request: Request, recovery: bool): Verdict {
    if request.node !in w.nodes then Stops(Fails)
    else
      var policy := w.nodes[request.node];
      if recovery && RecoveryRejected(policy, request) then
        if w.failFast then Stops(Interrupts) else Skips
      else if policy.maxExecutions.Some? && CountFor(executions, request.node) >= policy.maxExecutions.value then
        Stops(Fails)
      else Starts
  }

  ghost function OfNode(executions: seq<NodeExecution>, node: nat): set<int> {
    set i | 0 <= i < |executions| && executions[i].node == node
  }

  lemma {:induction false} OfNodeNext(executions: seq<NodeExecution>, node: nat)
    requires executions != []
    ensures var n := |executions| - 1;
      OfNode(executions, node) == OfNode(executions[..n], node) + if executions[n].node == node then {n} else {}
  {
    var n := |executions| - 1;
    forall i
      ensures i in OfNode(executions, node) <==>
        i in OfNode(executions[..n], node) || (i == n && executions[n].node == node)
    {
    }
  }

  lemma {:induction false} CountForIsSize(executions: seq<NodeExecution>, node: nat)
    ensures CountFor(executions, node) == |set i | 0 <= i < |executions| && executions[i].node == node|
  {
    assert OfNode(executions, node) == set i | 0 <= i < |executions| && executions[i].node == node;
    if executions != [] {
      var init := executions[..|executions| - 1];
      CountForIsSize(init, node);
      OfNodeNext(executions, node);
      assert OfNode(init, node) == set i | 0 <= i < |init| && init[i].node == node;
    }
  }

  /** A replay that the node's policy does not allow. */
  ghost predicate Forbidden(w: Workflow, request: Request, recovery: bool)
    requires request.node in w.nodes
  {
    recovery && (w.nodes[request.node].recovery == None ||
      request.recoveryAttempt > w.nodes[request.node].recovery.value)
  }

  /** The node has had as many executions as it may. */
  ghost predicate LimitReached(w: Workflow, executions: seq<NodeExecution>, node: nat)
    requires node in w.nodes
  {
    w.nodes[node].maxExecutions.Some? &&
    |set i | 0 <= i < |executions| && executions[i].node == node| >= w.nodes[node].maxExecutions.value
  }

  /** Which verdict falls on a request. */
  lemma {:induction false} VerdictMeans(w: Workflow, executions: seq<NodeExecution>, request: Request, recovery: bool)
    ensures var verdict := VerdictOn(w, executions, request, recovery);
      if request.node !in w.nodes then verdict == Stops(Fails)
      else if Forbidden(w, request, recovery) then verdict == if w.failFast then Stops(Interrupts) else Skips
      else verdict == if LimitReached(w, executions, request.node) then Stops(Fails) else Starts
  {
    CountForIsSize(executions, request.node);
  }

  function Begun(executions: seq<NodeExecution>, request: Request): seq<NodeExecution> {
    executions + [NodeExecution(request.node, request.recoveryAttempt, Running)]
  }

  /** How the first request that does not go through ends a batch. */
  function EndOf(w: Workflow, executions: seq<NodeExecution>, requests: seq<Request>, recovery: bool): BatchEnd
    decreases |requests|
  {
    if requests == [] then Through
    else
      match VerdictOn(w, executions, requests[0], recovery)
      case Starts => EndOf(w, Begun(executions, requests[0]), requests[1..], recovery)
      case Skips => EndOf(w, executions, requests[1..], recovery)
      case Stops(end) => end
  }

  /** The executions whose jobs are prepared until then; k requests came before. */
  function JobsOf(w: Workflow, executions: seq<NodeExecution>, requests: seq<Request>, recovery: bool,
      prepare: nat -> Preparation, k: nat): seq<nat>
    decreases |requests|
  {
    if requests == [] then []
    else
      match VerdictOn(w, executions, requests[0], recovery)
      case Starts =>
        (if prepare(k).Prepared? then [|executions|] else []) +
          JobsOf(w, Begun(executions, requests[0]), requests[1..], recovery, prepare, k + 1)
      case Skips => JobsOf(w, executions, requests[1..], recovery, prepare, k + 1)
      case Stops(_) => []
  }

  /** Without unknown nodes and limits a batch is interrupted exactly when it holds a
      forbidden replay under fail-fast. */
  lemma {:induction false} InterruptsExactly(w: Workflow, executions: seq<NodeExecution>, requests: seq<Request>,
      recovery: bool)
    requires forall r :: r in requests ==> r.node in w.nodes && w.nodes[r.node].maxExecutions.None?
    ensures EndOf(w, executions, requests, recovery).Interrupts? <==>
      w.failFast && exists r :: r in requests && Forbidden(w, r, recovery)
    decreases |requests|
  {
    if requests != [] {
      assert requests == [requests[0]] + requests[1..] && requests[0] in requests;
      InterruptsExactly(w, executions, requests[1..], recovery);
      InterruptsExactly(w, Begun(executions, requests[0]), requests[1..], recovery);
    }
  }

  ghost predicate SameNodes(a: seq<NodeExecution>, b: seq<NodeExecution>) {
    |a| == |b| && forall i :: 0 <= i < |a| ==> a[i].node == b[i].node
  }

  /** Only the nodes of the executions matter. */
  lemma {:induction false} BatchSame(w: Workflow, a: seq<NodeExecution>, b: seq<NodeExecution>,
      requests: seq<Request>, recovery: bool, prepare: nat -> Preparation, k: nat)
    requires SameNodes(a, b)
    ensures EndOf(w, a, requests, recovery) == EndOf(w, b, requests, recovery)
    ensures JobsOf(w, a, requests, recovery, prepare, k) == JobsOf(w, b, requests, recovery, prepare, k)
    decreases |requests|
  {
    if requests != [] {
      CountKept(a, b, requests[0].node);
      BatchSame(w, a, b, requests[1..], recovery, prepare, k + 1);
      BatchSame(w, Begun(a, requests[0]), Begun(b, requests[0]), requests[1..], recovery, prepare, k + 1);
    }
  }

  /** One request taken off the front of a batch. */
  lemma {:induction false} BatchNext(w: Workflow, before: seq<NodeExecution>, after: seq<NodeExecution>,
      requests: seq<Request>, recovery: bool, prepare: nat -> Preparation, k: nat)
    requires requests != []
    requires match VerdictOn(w, before, requests[0], recovery)
      case Starts => SameNodes(after, Begun(before, requests[0]))
      case Skips => after == before
      case Stops(_) => true
    ensures match VerdictOn(w, before, requests[0], recovery)
      case Stops(end) => EndOf(w, before, requests, recovery) == end &&
        JobsOf(w, before, requests, recovery, prepare, k) == []
      case _ =>
        && EndOf(w, before, requests, recovery) == EndOf(w, after, requests[1..], recovery)
        && JobsOf(w, before, requests, recovery, prepare, k) ==
          (if VerdictOn(w, before, requests[0], recovery).Starts? && prepare(k).Prepared? then [|before|] else []) +
            JobsOf(w, after, requests[1..], recovery, prepare, k + 1)
  {
    if VerdictOn(w, before, requests[0], recovery).Starts? {
      BatchSame(w, after, Begun(before, requests[0]), requests[1..], recovery, prepare, k + 1);
    }
  }

  /** What preparing a batch leaves: the jobs of the executions prepared until it ended,
      and a state that says how. */
  ghost predicate Submitted(w: Workflow, start: seq<NodeExecution>, requests: seq<Request>, recovery: bool,
      prepare: nat -> Preparation, invocation: Invocation, jobs: seq<nat>)
    reads invocation, invocation.mailbox
  {
    && jobs == JobsOf(w, start, requests, recovery, prepare, 0)
    && (match EndOf(w, start, requests, recovery)
        case Through => invocation.state.InvocationRunning? || invocation.state.InvocationWaiting?
        case Fails => invocation.state.InvocationFailed? &&
          exists r :: r in requests && Refused(w, invocation.executions, r)
        case Interrupts =>
          && invocation.state.InvocationInterrupted? && recovery && w.failFast
          && Quiet(invocation.Now()) && AllInterrupted(invocation.executions, jobs) && Accounts(invocation))
    && (!invocation.state.InvocationInterrupted? ==>
        Healthy(w, invocation.Now(), invocation.mailbox.running, invocation.mailbox.messages, jobs))
    && (recovery ==> ReplaysAllowed(w, |start|, invocation.executions))
  }

  /** The places of the requests that may start, among the first k. */
  ghost function StartPlaces(w: Workflow, requests: seq<Request>, recovery: bool, k: nat): (places: seq<nat>)
    requires k <= |requests|
    ensures forall i: nat :: i in places <==>
      i < k && requests[i].node in w.nodes && !Forbidden(w, requests[i], recovery)
    ensures forall m :: 0 <= m < |places| ==> places[m] < k
    ensures forall m, n :: 0 <= m < n < |places| ==> places[m] < places[n]
  {
    if k == 0 then []
    else
      var places := StartPlaces(w, requests, recovery, k - 1);
      assert forall m :: 0 <= m < |places| ==> places[m] in places;
      if requests[k - 1].node in w.nodes && !Forbidden(w, requests[k - 1], recovery) then places + [k - 1] else places
  }

  /** Every request that may start got an execution, in order, running or failed for want
      of an input; nothing else was added. */
  ghost predicate BatchStarted(w: Workflow, start: seq<NodeExecution>, requests: seq<Request>, recovery: bool,
      prepare: nat -> Preparation, k: nat, executions: seq<NodeExecution>)
    requires k <= |requests|
  {
    var places := StartPlaces(w, requests, recovery, k);
    && (forall i :: 0 <= i < k ==> requests[i].node in w.nodes)
    && |executions| == |start| + |places| && executions[..|start|] == start
    && forall m :: 0 <= m < |places| ==>
      StartedAs(executions[|start| + m], requests[places[m]], prepare(places[m]))
  }

  /** The jobs are those of the new executions that are running. */
  ghost predicate JobsRun(start: nat, executions: seq<NodeExecution>, jobs: seq<nat>) {
    forall j: nat :: j in jobs <==> start <= j && InState(executions, j, Running)
  }

  ghost predicate StartedAs(e: NodeExecution, request: Request, preparation: Preparation) {
    e == NodeExecution(request.node, request.recoveryAttempt, if preparation.Prepared? then Running else Failed)
  }

  ghost predicate BatchDone(w: Workflow, start: seq<NodeExecution>, requests: seq<Request>, recovery: bool,
      prepare: nat -> Preparation, k: nat, executions: seq<NodeExecution>, jobs: seq<nat>)
    requires k <= |requests|
  {
    BatchStarted(w, start, requests, recovery, prepare, k, executions) && JobsRun(|start|, executions, jobs)
  }

  /** What one request leaves: an execution and perhaps a job if it may start. */
  ghost predicate StartsOne(w: Workflow, request: Request, recovery: bool, preparation: Preparation,
      before: seq<NodeExecution>, jobs: seq<nat>, after: seq<NodeExecution>, jobs': seq<nat>) {
    && request.node in w.nodes
    && (Forbidden(w, request, recovery) ==> after == before && jobs' == jobs)
    && (!Forbidden(w, request, recovery) ==>
      && |after| == |before| + 1 && after[..|before|] == before && StartedAs(after[|before|], request, preparation)
      && jobs' == if preparation.Prepared? then jobs + [|before|] else jobs)
  }

  lemma {:induction false} StartedNext(w: Workflow, start: seq<NodeExecution>, requests: seq<Request>, recovery: bool,
      prepare: nat -> Preparation, k: nat, before: seq<NodeExecution>, jobs: seq<nat>, after: seq<NodeExecution>,
      jobs': seq<nat>)
    requires k < |requests| && BatchStarted(w, start, requests, recovery, prepare, k, before)
    requires StartsOne(w, requests[k], recovery, prepare(k), before, jobs, after, jobs')
    ensures BatchStarted(w, start, requests, recovery, prepare, k + 1, after)
  {
    var places, places' := StartPlaces(w, requests, recovery, k), StartPlaces(w, requests, recovery, k + 1);
    if !Forbidden(w, requests[k], recovery) {
      assert places' == places + [k];
      assert after[..|start|] == before[..|start|];
      forall m | 0 <= m < |places'|
        ensures StartedAs(after[|start| + m], requests[places'[m]], prepare(places'[m]))
      {
        if m < |places| { assert after[|start| + m] == before[|start| + m]; }
      }
    }
  }

  lemma {:induction false} JobsRunNext(w: Workflow, start: nat, request: Request, recovery: bool,
      preparation: Preparation, before: seq<NodeExecution>, jobs: seq<nat>, after: seq<NodeExecution>, jobs': seq<nat>)
    requires start <= |before| && JobsRun(start, before, jobs)
    requires StartsOne(w, request, recovery, preparation, before, jobs, after, jobs')
    ensures JobsRun(start, after, jobs')
  {
    forall j: nat
      ensures j in jobs' <==> start <= j && InState(after, j, Running)
    {
      if j < |before| { assert after[j] == before[j]; }
    }
  }

  /** The verdicts in these terms. */
  lemma {:induction false} VerdictStarts(w: Workflow, start: seq<NodeExecution>, requests: seq<Request>,
      recovery: bool, prepare: nat -> Preparation, k: nat,
      before: seq<NodeExecution>, jobs: seq<nat>, after: seq<NodeExecution>, jobs': seq<nat>)
    requires k < |requests| && BatchDone(w, start, requests, recovery, prepare, k, before, jobs)
    requires match VerdictOn(w, before, requests[k], recovery)
      case Starts => after == before + [NodeExecution(requests[k].node, requests[k].recoveryAttempt,
        if prepare(k).Prepared? then Running else Failed)]
      case Skips => after == before
      case Stops(_) => false
    requires VerdictKept(w, requests[k], recovery, prepare(k), before, jobs, after, jobs')
    ensures BatchDone(w, start, requests, recovery, prepare, k + 1, after, jobs')
  {
    VerdictMeans(w, before, requests[k], recovery);
    StartedNext(w, start, requests, recovery, prepare, k, before, jobs, after, jobs');
    JobsRunNext(w, |start|, requests[k], recovery, prepare(k), before, jobs, after, jobs');
  }

  /** Prepares drained requests. A failed Invocation and an interrupted recovery leave
      the remaining requests alone, but keep the jobs prepared so far. */
  method SubmitReadyRequests(w: Workflow, invocation: Invocation, requests: seq<Request>, recovery: bool,
      env: Environment)
    returns (jobs: seq<nat>)
    requires LoopHead(w, invocation) && invocation.transitions == [] && invocation.ready == []
    modifies invocation
    ensures Extends(old(invocation.executions), invocation.executions)
    ensures Submitted(w, old(invocation.executions), requests, recovery, env.prepare, invocation, jobs)
    ensures (invocation.state.InvocationRunning? || invocation.state.InvocationWaiting?) && !recovery ==>
      StartedFor(old(|invocation.executions|), invocation.executions, requests)
    ensures invocation.state.InvocationRunning? || invocation.state.InvocationWaiting? ==>
      BatchDone(w, old(invocation.executions), requests, recovery, env.prepare, |requests|, invocation.executions, jobs)
  {
    var stopped;
    ghost var start := invocation.executions;
    jobs, stopped := SubmitEach(w, invocation, requests, recovery, env);
    if !stopped { DoneAdds(w, start, requests, recovery, env.prepare, |requests|, invocation.executions); }
    assert requests[..|requests|] == requests && requests[|requests|..] == [];
  }

  method SubmitEach(w: Workflow, invocation: Invocation, requests: seq<Request>, recovery: bool, env: Environment)
    returns (jobs: seq<nat>, stopped: bool)
    requires LoopHead(w, invocation) && invocation.transitions == [] && invocation.ready == []
    modifies invocation
    ensures Extends(old(invocation.executions), invocation.executions)
    ensures stopped ==>
      && !EndOf(w, old(invocation.executions), requests, recovery).Through?
      && Submitted(w, old(invocation.executions), requests, recovery, env.prepare, invocation, jobs)
    ensures !stopped ==>
      && BatchGoing(w, old(invocation.executions), requests, recovery, env.prepare, |requests|, invocation, jobs)
      && BatchDone(w, old(invocation.executions), requests, recovery, env.prepare, |requests|, invocation.executions,
        jobs)
  {
    jobs, stopped := [], false;
    ghost var start := invocation.executions;
    var k := 0;
    assert requests[0..] == requests;
    while k < |requests|
      invariant 0 <= k <= |requests| && Extends(start, invocation.executions)
      invariant BatchGoing(w, start, requests, recovery, env.prepare, k, invocation, jobs)
      invariant BatchDone(w, start, requests, recovery, env.prepare, k, invocation.executions, jobs)
    {
      jobs, stopped := SubmitOne(w, invocation, start, requests, recovery, env, k, jobs);
      if stopped {
        return;
      }
      k := k + 1;
    }
  }

  ghost predicate BatchGoing(w: Workflow, start: seq<NodeExecution>, requests: seq<Request>, recovery: bool,
      prepare: nat -> Preparation, k: nat, invocation: Invocation, jobs: seq<nat>)
    requires k <= |requests|
    reads invocation, invocation.mailbox
  {
    && BatchSoFar(w, start, requests, recovery, prepare, k, invocation.executions, jobs)
    && Healthy(w, invocation.Now(), invocation.mailbox.running, invocation.mailbox.messages, jobs)
    && (invocation.state.InvocationRunning? || invocation.state.InvocationWaiting?)
  }

  /** Takes the k-th request of a batch. */
  method SubmitOne(w: Workflow, invocation: Invocation, ghost start: seq<NodeExecution>, requests: seq<Request>,
      recovery: bool, env: Environment, k: nat, jobs: seq<nat>)
    returns (jobs': seq<nat>, stopped: bool)
    requires k < |requests| && BatchGoing(w, start, requests, recovery, env.prepare, k, invocation, jobs)
    requires BatchDone(w, start, requests, recovery, env.prepare, k, invocation.executions, jobs)
    modifies invocation
    ensures Extends(old(invocation.executions), invocation.executions)
    ensures if stopped
      then !EndOf(w, start, requests, recovery).Through? &&
        Submitted(w, start, requests, recovery, env.prepare, invocation, jobs')
      else BatchGoing(w, start, requests, recovery, env.prepare, k + 1, invocation, jobs')
    ensures !stopped ==>
      BatchDone(w, start, requests, recovery, env.prepare, k + 1, invocation.executions, jobs')
  {
    ghost var before := invocation.executions;
    jobs', stopped := PrepareRequest(w, invocation, jobs, requests[k], recovery, env.prepare(k), env.unblocks(k));
    BatchStep(w, start, requests, recovery, env.prepare, k, before, jobs, invocation.executions, jobs');
    if stopped {
      assert requests[k] in requests;
      DoneAdds(w, start, requests, recovery, env.prepare, k, before);
      EndedReplays(w, |start|, before, invocation.executions, recovery);
    } else {
      VerdictStarts(w, start, requests, recovery, env.prepare, k, before, jobs, invocation.executions, jobs');
    }
  }

  /** What is left of the batch ends it as the whole does, and prepares the other jobs. */
  ghost predicate BatchSoFar(w: Workflow, start: seq<NodeExecution>, requests: seq<Request>, recovery: bool,
      prepare: nat -> Preparation, k: nat, executions: seq<NodeExecution>, jobs: seq<nat>)
    requires k <= |requests|
  {
    && EndOf(w, start, requests, recovery) == EndOf(w, executions, requests[k..], recovery)
    && JobsOf(w, start, requests, recovery, prepare, 0) ==
      jobs + JobsOf(w, executions, requests[k..], recovery, prepare, k)
  }

  /** What the first k requests added. */
  ghost predicate BatchAdded(w: Workflow, start: seq<NodeExecution>, requests: seq<Request>, recovery: bool, k: nat,
      executions: seq<NodeExecution>)
    requires k <= |requests|
  {
    if recovery then ReplaysAllowed(w, |start|, executions) else StartedFor(|start|, executions, requests[..k])
  }

  /** The executions and jobs a request leaves, as its verdict says. */
  ghost predicate VerdictKept(w: Workflow, request: Request, recovery: bool, preparation: Preparation,
      before: seq<NodeExecution>, jobs: seq<nat>, after: seq<NodeExecution>, jobs': seq<nat>) {
    match VerdictOn(w, before, request, recovery)
    case Starts => SameNodes(after, Begun(before, request)) && jobs' == jobs +
      if preparation.Prepared? then [|before|] else []
    case Skips => after == before && jobs' == jobs
    case Stops(_) => jobs' == jobs
  }

  lemma {:induction false} BatchStep(w: Workflow, start: seq<NodeExecution>, requests: seq<Request>, recovery: bool,
      prepare: nat -> Preparation, k: nat,
      before: seq<NodeExecution>, jobs: seq<nat>, after: seq<NodeExecution>, jobs': seq<nat>)
    requires k < |requests| && BatchSoFar(w, start, requests, recovery, prepare, k, before, jobs)
    requires VerdictKept(w, requests[k], recovery, prepare(k), before, jobs, after, jobs')
    ensures match VerdictOn(w, before, requests[k], recovery)
      case Stops(end) => EndOf(w, start, requests, recovery) == end &&
        JobsOf(w, start, requests, recovery, prepare, 0) == jobs'
      case _ => BatchSoFar(w, start, requests, recovery, prepare, k + 1, after, jobs')
  {
    var rest := requests[k..];
    assert rest[0] == requests[k] && rest[1..] == requests[k + 1..];
    BatchNext(w, before, after, rest, recovery, prepare, k);
  }

  lemma {:induction false} DoneAdds(w: Workflow, start: seq<NodeExecution>, requests: seq<Request>, recovery: bool,
      prepare: nat -> Preparation, k: nat, executions: seq<NodeExecution>)
    requires k <= |requests| && BatchStarted(w, start, requests, recovery, prepare, k, executions)
    ensures BatchAdded(w, start, requests, recovery, k, executions)
  {
    var places := StartPlaces(w, requests, recovery, k);
    if recovery {
      forall i | |start| <= i < |executions|
        ensures ReplayAllowed(w, executions[i])
      {
        var m := i - |start|;
        assert places[m] in places && StartedAs(executions[|start| + m], requests[places[m]], prepare(places[m]));
      }
    } else {
      AllPlaces(w, requests, k);
      forall m | 0 <= m < k
        ensures executions[|start| + m].node == requests[m].node
      {
        assert StartedAs(executions[|start| + m], requests[places[m]], prepare(places[m]));
      }
    }
  }

  /** Without a recovery every known request may start. */
  lemma {:induction false} AllPlaces(w: Workflow, requests: seq<Request>, k: nat)
    requires k <= |requests| && forall i :: 0 <= i < k ==> requests[i].node in w.nodes
    ensures var places := StartPlaces(w, requests, false, k);
      |places| == k && forall m :: 0 <= m < k ==> places[m] == m
  {
    if k > 0 { AllPlaces(w, requests, k - 1); }
  }

  lemma {:induction false} EndedReplays(w: Workflow, start: nat, before: seq<NodeExecution>,
      after: seq<NodeExecution>, recovery: bool)
    requires (recovery ==> ReplaysAllowed(w, start, before)) && Extends(before, after) && |after| == |before|
    ensures recovery ==> ReplaysAllowed(w, start, after)
  {
    if recovery { ReplaysGrow(w, start, before, after); }
  }

  /** The executions the jobs were prepared for have been interrupted. */
  ghost predicate AllInterrupted(executions: seq<NodeExecution>, jobs: seq<nat>) {
    forall j :: j in jobs ==> InState(executions, j, Interrupted)
  }

  lemma {:induction false} ReplaysGrow(w: Workflow, start: nat, before: seq<NodeExecution>, after: seq<NodeExecution>)
    requires ReplaysAllowed(w, start, before) && Extends(before, after)
    requires forall i :: |before| <= i < |after| ==> ReplayAllowed(w, after[i])
    ensures ReplaysAllowed(w, start, after)
  {
    forall i | start <= i < |after|
      ensures ReplayAllowed(w, after[i])
    {
      if i < |before| { assert ReplayAllowed(w, before[i]); }
    }
  }

  /** One execution was added for the request, or none in a recovery that skips it. */
  ghost predicate AddedFor(w: Workflow, request: Request, recovery: bool, before: seq<NodeExecution>,
      after: seq<NodeExecution>) {
    || (recovery && after == before)
    || (|after| == |before| + 1 && after[|before|].node == request.node &&
      (recovery ==> ReplayAllowed(w, after[|before|])))
  }

  /** Prepares one request as its verdict says; stopping adds no job. */
  method PrepareRequest(w: Workflow, invocation: Invocation, jobs: seq<nat>, request: Request, recovery: bool,
      preparation: Preparation, unblocked: seq<Request>)
    returns (jobs': seq<nat>, stopped: bool)
    requires Healthy(w, invocation.Now(), invocation.mailbox.running, invocation.mailbox.messages, jobs)
    requires invocation.state.InvocationRunning? || invocation.state.InvocationWaiting?
    modifies invocation
    ensures Extends(old(invocation.executions), invocation.executions)
    ensures stopped <==> VerdictOn(w, old(invocation.executions), request, recovery).Stops?
    ensures VerdictKept(w, request, recovery, preparation, old(invocation.executions), jobs, invocation.executions,
      jobs')
    ensures !stopped ==> AddedFor(w, request, recovery, old(invocation.executions), invocation.executions)
    ensures match VerdictOn(w, old(invocation.executions), request, recovery)
      case Starts =>
        invocation.executions == old(invocation.executions) +
          [NodeExecution(request.node, request.recoveryAttempt, if preparation.Prepared? then Running else Failed)]
      case Skips => recovery && invocation.Now() ==
        old(invocation.Now()).(deferred := Some(DeferredInterrupted), ready := old(invocation.ready) + unblocked)
      case Stops(Interrupts) =>
        && recovery && w.failFast && AllInterrupted(invocation.executions, jobs) && Accounts(invocation)
        && invocation.Now() == AfterEnding(old(invocation.Now()), Interrupted).(state := InvocationInterrupted,
          deferred := None)
      case Stops(_) =>
        Refused(w, invocation.executions, request) &&
          invocation.Now() == old(invocation.Now()).(state := InvocationFailed, deferred := None)
    ensures !invocation.state.InvocationInterrupted? ==>
      Healthy(w, invocation.Now(), invocation.mailbox.running, invocation.mailbox.messages, jobs')
    ensures !stopped ==> (invocation.state.InvocationRunning? || invocation.state.InvocationWaiting?)
  {
    if request.node !in w.nodes {
      invocation.MarkFailed();
      return jobs, true;
    }
    var policy := w.nodes[request.node];
    if recovery && RecoveryRejected(policy, request) {
      if w.failFast {
        JobsAreActive(invocation.executions, invocation.mailbox.running, invocation.mailbox.messages, jobs);
        AccountedEnds(invocation.executions, Interrupted, invocation.applied, invocation.resumed);
        invocation.InterruptActiveNodeExecutions();
        invocation.MarkInterrupted();
        return jobs, true;
      }
      invocation.DeferTerminal(DeferredInterrupted);
      invocation.EnqueueReady(unblocked);
      return jobs, false;
    }
    if policy.maxExecutions.Some? && CountFor(invocation.executions, request.node) >= policy.maxExecutions.value {
      invocation.MarkFailed();
      return jobs, true;
    }
    jobs' := StartExecution(w, invocation, jobs, request, preparation);
    return jobs', false;
  }

  /** Prepared jobs belong to running executions. */
  lemma {:induction false} JobsAreActive(executions: seq<NodeExecution>, running: map<nat, nat>,
      messages: seq<Message>, jobs: seq<nat>)
    requires Backed(executions, running, messages, jobs)
    ensures forall j :: j in jobs ==> InState(executions, j, Running)
  {
    forall j | j in jobs
      ensures InState(executions, j, Running)
    {
      assert JobsFor(jobs, j) > 0;
      assert Backing(running, messages, jobs, j) > 0;
    }
  }

  /** Creates a running execution and its job, or fails it when its input cannot be
      mapped or its attempts are used up. */
  method StartExecution(ghost w: Workflow, invocation: Invocation, jobs: seq<nat>, request: Request,
      preparation: Preparation) returns (jobs': seq<nat>)
    requires Healthy(w, invocation.Now(), invocation.mailbox.running, invocation.mailbox.messages, jobs) &&
      request.node in w.nodes
    requires w.nodes[request.node].maxExecutions.Some? ==>
      CountFor(invocation.executions, request.node) < w.nodes[request.node].maxExecutions.value
    modifies invocation
    ensures Extends(old(invocation.executions), invocation.executions)
    ensures Healthy(w, invocation.Now(), invocation.mailbox.running, invocation.mailbox.messages, jobs')
    ensures invocation.state.InvocationRunning? && |invocation.executions| == old(|invocation.executions|) + 1
    ensures invocation.executions[old(|invocation.executions|)].node == request.node
    ensures invocation.executions[old(|invocation.executions|)].recoveryAttempt == request.recoveryAttempt
    ensures jobs' == if preparation.Prepared? then jobs + [old(|invocation.executions|)] else jobs
    ensures invocation.executions == old(invocation.executions) +
      [NodeExecution(request.node, request.recoveryAttempt, if preparation.Prepared? then Running else Failed)]
    ensures invocation.transitions == old(invocation.transitions) +
      if preparation.Prepared? then [] else [Transition(old(|invocation.executions|), Failed)]
  {
    ghost var c := invocation.Now();
    var id := invocation.CreateNodeExecution(request);
    invocation.MarkNodeRunning(id);
    ghost var e := NodeExecution(request.node, request.recoveryAttempt, Running);
    ExecutionStarts(w, c, invocation.mailbox.running, invocation.mailbox.messages, jobs, e);
    assert invocation.executions == c.executions + [e];
    if preparation.Prepared? {
      return jobs + [id];
    }
    StartFails(w, invocation.Now(), invocation.mailbox.running, invocation.mailbox.messages, jobs, id);
    invocation.MarkNodeFailed(id);
    return jobs;
  }

  /** A task is in flight for the execution. */
  ghost predicate Tracked(running: map<nat, nat>, execution: nat) {
    exists t :: t in running && running[t] == execution
  }

  /** The results of the jobs that are answered at once. */
  ghost function Answers(jobs: seq<nat>, dispatch: nat -> Option<Outcome>): seq<Message> {
    if jobs == [] then []
    else
      var last := jobs[|jobs| - 1];
      Answers(jobs[..|jobs| - 1], dispatch) +
      if dispatch(last).Some? then [Result(last, dispatch(last).value)] else []
  }

  /** Every job is answered at once or started as a task. */
  method SubmitBatch(mailbox: Mailbox, jobs: seq<nat>, dispatch: nat -> Option<Outcome>)
    requires mailbox.accepting
    modifies mailbox
    ensures mailbox.accepting
    ensures forall i: nat {:trigger Backing(mailbox.running, mailbox.messages, [], i)} ::
      Backing(mailbox.running, mailbox.messages, [], i) == Backing(old(mailbox.running), old(mailbox.messages), jobs, i)
    ensures forall m :: m in mailbox.messages ==> m in old(mailbox.messages) || m.execution in jobs
    ensures forall j :: j in jobs && dispatch(j).None? ==> Tracked(mailbox.running, j)
    ensures mailbox.messages == old(mailbox.messages) + Answers(jobs, dispatch)
  {
    var k := 0;
    assert jobs[0..] == jobs;
    while k < |jobs|
      invariant 0 <= k <= |jobs| && mailbox.accepting
      invariant forall i: nat {:trigger Backing(mailbox.running, mailbox.messages, jobs[k..], i)} ::
        Backing(mailbox.running, mailbox.messages, jobs[k..], i) ==
          Backing(old(mailbox.running), old(mailbox.messages), jobs, i)
      invariant forall m :: m in mailbox.messages ==> m in old(mailbox.messages) || m.execution in jobs
      invariant AllTracked(mailbox.running, jobs[..k], dispatch)
      invariant mailbox.messages == old(mailbox.messages) + Answers(jobs[..k], dispatch)
    {
      assert jobs[..k + 1][..k] == jobs[..k];
      ghost var running, messages, rest := mailbox.running, mailbox.messages, jobs[k..];
      assert rest[0] == jobs[k] && rest[1..] == jobs[k + 1..];
      match dispatch(jobs[k]) {
        case Some(outcome) =>
          mailbox.PutMessage(Result(jobs[k], outcome));
          forall i: nat
            ensures Backing(mailbox.running, mailbox.messages, rest[1..], i) == Backing(running, messages, rest, i)
          {
            JobAnswered(running, messages, rest, outcome, i);
          }
        case None =>
          FreshTask(mailbox.running);
          var task: nat :| task !in mailbox.running;
          var ok := mailbox.Track(task, jobs[k]);
          forall i: nat
            ensures Backing(mailbox.running, mailbox.messages, rest[1..], i) == Backing(running, messages, rest, i)
          {
            JobTracked(running, messages, rest, task, i);
          }
          assert task in mailbox.running && mailbox.running[task] == jobs[k];
      }
      TrackedNext(running, mailbox.running, jobs, k, dispatch);
      k := k + 1;
    }
    assert jobs[k..] == [] && jobs[..k] == jobs;
  }

  ghost predicate AllTracked(running: map<nat, nat>, jobs: seq<nat>, dispatch: nat -> Option<Outcome>) {
    forall j :: j in jobs && dispatch(j).None? ==> Tracked(running, j)
  }

  lemma {:induction false} TrackedNext(running: map<nat, nat>, running': map<nat, nat>, jobs: seq<nat>, k: nat,
      dispatch: nat -> Option<Outcome>)
    requires k < |jobs| && AllTracked(running, jobs[..k], dispatch)
    requires forall t :: t in running ==> t in running' && running'[t] == running[t]
    requires dispatch(jobs[k]).None? ==> Tracked(running', jobs[k])
    ensures AllTracked(running', jobs[..k + 1], dispatch)
  {
    assert jobs[..k + 1] == jobs[..k] + [jobs[k]];
    forall j | j in jobs[..k] && dispatch(j).None?
      ensures Tracked(running', j)
    {
      var t :| t in running && running[t] == j;
      assert t in running' && running'[t] == j;
    }
  }

  /** What a result makes of its execution. */
  function SettledState(outcome: Outcome, handling: Handling, waiting: map<string, nat>): ExecutionState {
    if handling.overRuntime || outcome.Broke? || (outcome.Produced? && handling.bindingFails) then Failed
    else if outcome.Produced? then Completed
    else if outcome.key in waiting then Failed
    else Waiting
  }

  /** The Invocation after one message. */
  function Applied(c: Core, message: Message, handling: Handling): Core {
    if message.Progress? || message.execution >= |c.executions| then Logged(c, message)
    else
      var state := SettledState(message.outcome, handling, c.waiting);
      var next := Logged(AfterSettled(c, message.execution, state), message);
      if state.Waiting? then next.(waiting := c.waiting[message.outcome.key := message.execution]) else next
  }

  ghost function AppliedAll(c: Core, messages: seq<Message>, handle: nat -> Handling): Core {
    if messages == [] then c
    else Applied(AppliedAll(c, messages[..|messages| - 1], handle), messages[|messages| - 1], handle(|messages| - 1))
  }

  /** Execution i, and nothing else, goes from running to the state, and the Scheduler is
      to learn of it. */
  ghost predicate Settles(before: Core, after: Core, i: nat, state: ExecutionState) {
    && i < |before.executions| && before.executions[i].state == Running
    && after.executions == before.executions[i := before.executions[i].(state := state)]
    && after.transitions == before.transitions + [Transition(i, state)]
    && after.state == before.state && after.ready == before.ready && after.deferred == before.deferred
    && after.routed == before.routed && after.resumed == before.resumed
  }

  /** A result whose work broke, that came over the runtime limit, whose binding failed or
      whose key is waited on already, fails its execution; another produced one completes
      it; and one that waits on a free key pauses it. */
  ghost predicate ResultMeans(before: Core, after: Core, i: nat, outcome: Outcome, handling: Handling) {
    && after.applied == before.applied + [Result(i, outcome)]
    && (handling.overRuntime || outcome == Broke ==>
      Settles(before, after, i, Failed) && after.waiting == before.waiting)
    && (outcome == Produced && handling.bindingFails ==>
      Settles(before, after, i, Failed) && after.waiting == before.waiting)
    && (outcome.WaitsOn? && outcome.key in before.waiting ==>
      Settles(before, after, i, Failed) && after.waiting == before.waiting)
    && (!handling.overRuntime && outcome == Produced && !handling.bindingFails ==>
      Settles(before, after, i, Completed) && after.waiting == before.waiting)
    && (!handling.overRuntime && outcome.WaitsOn? && outcome.key !in before.waiting ==>
      Settles(before, after, i, Waiting) && after.waiting == before.waiting[outcome.key := i])
  }

  /** Applies the result at the front of the messages. */
  method ApplyResult(ghost w: Workflow, invocation: Invocation, message: Message, ghost rest: seq<Message>,
      handling: Handling)
    requires message.Result?
    requires Healthy(w, invocation.Now(), invocation.mailbox.running, [message] + rest, [])
    modifies invocation
    ensures Extends(old(invocation.executions), invocation.executions)
    ensures Healthy(w, invocation.Now(), invocation.mailbox.running, rest, [])
    ensures ResultMeans(old(invocation.Now()), invocation.Now(), message.execution, message.outcome, handling)
    ensures invocation.Now() == Applied(old(invocation.Now()), message, handling)
  {
    ghost var c, messages := invocation.Now(), [message] + rest;
    assert messages[0] == message && messages[1..] == rest;
    var id := message.execution;
    assert KnownMessages(c.executions, messages);
    if handling.overRuntime || message.outcome.Broke? || (message.outcome.Produced? && handling.bindingFails) {
      ResultSettles(w, c, invocation.mailbox.running, messages, Failed);
      invocation.MarkNodeFailed(id);
    } else if message.outcome.Produced? {
      ResultSettles(w, c, invocation.mailbox.running, messages, Completed);
      invocation.MarkNodeCompleted(id);
    } else {
      ApplyWait(w, invocation, message, rest);
    }
    invocation.applied := invocation.applied + [message];
  }

  /** Applies a result that waits on a key; a key already waited on fails the execution. */
  method ApplyWait(ghost w: Workflow, invocation: Invocation, message: Message, ghost rest: seq<Message>)
    requires message.Result? && message.outcome.WaitsOn?
    requires Healthy(w, invocation.Now(), invocation.mailbox.running, [message] + rest, [])
    modifies invocation
    ensures Extends(old(invocation.executions), invocation.executions)
    ensures Healthy(w, Logged(invocation.Now(), message), invocation.mailbox.running, rest, [])
    ensures ResultMeans(old(invocation.Now()), Logged(invocation.Now(), message), message.execution, message.outcome,
      Handling(false, false))
    ensures Logged(invocation.Now(), message) == Applied(old(invocation.Now()), message, Handling(false, false))
  {
    ghost var c, messages := invocation.Now(), [message] + rest;
    assert messages[0] == message && messages[1..] == rest;
    var id := message.execution;
    assert KnownMessages(c.executions, messages);
    ResultSettles(w, c, invocation.mailbox.running, messages, Failed);
    if message.outcome.key !in c.waiting {
      ResultWaits(w, c, invocation.mailbox.running, messages, message.outcome.key);
    }
    var ok := invocation.MarkNodeWaiting(id, message.outcome.key);
    if !ok {
      assert WithState(WithState(c.executions, id, Waiting), id, Failed) == WithState(c.executions, id, Failed);
      invocation.MarkNodeFailed(id);
    }
  }

  method ApplyMessage(ghost w: Workflow, invocation: Invocation, message: Message, ghost rest: seq<Message>,
      handling: Handling)
    requires Healthy(w, invocation.Now(), invocation.mailbox.running, [message] + rest, [])
    modifies invocation
    ensures Extends(old(invocation.executions), invocation.executions)
    ensures Healthy(w, invocation.Now(), invocation.mailbox.running, rest, [])
    ensures MessageMeans(old(invocation.Now()), invocation.Now(), message, handling)
    ensures invocation.Now() == Applied(old(invocation.Now()), message, handling)
    ensures invocation.state == old(invocation.state)
  {
    if message.Progress? {
      ProgressChangesNothing(w, invocation.Now(), invocation.mailbox.running, [message] + rest);
      assert ([message] + rest)[1..] == rest;
      invocation.applied := invocation.applied + [message];
    } else {
      ApplyResult(w, invocation, message, rest, handling);
    }
  }

  /** Progress changes nothing but what has been taken in. */
  ghost predicate MessageMeans(before: Core, after: Core, message: Message, handling: Handling) {
    match message
    case Progress(_) => after == before.(applied := before.applied + [message])
    case Result(i, outcome) => ResultMeans(before, after, i, outcome, handling)
  }

  /** The same said of the function that specifies a message. */
  lemma {:induction false} AppliedMeans(c: Core, message: Message, handling: Handling)
    requires message.Result? ==> InState(c.executions, message.execution, Running)
    ensures MessageMeans(c, Applied(c, message, handling), message, handling)
  {
  }

  /** Takes out whatever arrived and applies it in order. */
  method ApplyMessages(ghost w: Workflow, invocation: Invocation, env: Environment)
    requires LoopHead(w, invocation)
    modifies invocation, invocation.mailbox
    ensures Extends(old(invocation.executions), invocation.executions)
    ensures LoopHead(w, invocation)
    ensures invocation.Now() == AppliedAll(old(invocation.Now()), old(invocation.mailbox.messages), env.handle)
    ensures invocation.mailbox.messages == [] && invocation.mailbox.running == old(invocation.mailbox.running)
    ensures invocation.applied == old(invocation.applied) + old(invocation.mailbox.messages)
  {
    ghost var c := invocation.Now();
    var messages := invocation.mailbox.DrainMessages();
    var k := 0;
    assert messages[0..] == messages;
    while k < |messages|
      invariant 0 <= k <= |messages| && invocation.mailbox.messages == [] && invocation.mailbox.accepting
      invariant Healthy(w, invocation.Now(), invocation.mailbox.running, messages[k..], [])
      invariant invocation.state == old(invocation.state)
      invariant invocation.mailbox.running == old(invocation.mailbox.running)
      invariant invocation.Now() == AppliedAll(c, messages[..k], env.handle)
      invariant Extends(old(invocation.executions), invocation.executions)
    {
      NextMessage(c, messages, k, env.handle);
      ApplyMessage(w, invocation, messages[k], messages[k + 1..], env.handle(k));
      k := k + 1;
    }
    assert messages[..k] == messages;
    AppliedAllLogs(c, messages, env.handle);
  }

  lemma {:induction false} NextMessage(c: Core, messages: seq<Message>, k: nat, handle: nat -> Handling)
    requires k < |messages|
    ensures messages[k..] == [messages[k]] + messages[k + 1..]
    ensures AppliedAll(c, messages[..k + 1], handle) ==
      Applied(AppliedAll(c, messages[..k], handle), messages[k], handle(k))
  {
    assert messages[..k + 1][..k] == messages[..k];
  }

  lemma {:induction false} AppliedAllLogs(c: Core, messages: seq<Message>, handle: nat -> Handling)
    ensures AppliedAll(c, messages, handle).applied == c.applied + messages
  {
    if messages != [] {
      AppliedAllLogs(c, messages[..|messages| - 1], handle);
      assert messages == messages[..|messages| - 1] + [messages[|messages| - 1]];
    }
  }

  /** Cancels what is unfinished, detaches the workers and closes the mailbox. */
  method FinishFailed(invocation: Invocation, late: seq<Message>)
    modifies invocation, invocation.mailbox
    ensures Extends(old(invocation.executions), invocation.executions)
    ensures Quiet(invocation.Now()) && invocation.state == old(invocation.state)
    ensures Detached(invocation.mailbox) && (old(Accounts(invocation)) ==> Accounts(invocation))
    ensures EndedAs(old(invocation.executions), invocation.executions, Cancelled)
  {
    if Accounts(invocation) { AccountedEnds(invocation.executions, Cancelled, invocation.applied, invocation.resumed); }
    invocation.CancelActiveNodeExecutions();
    var undelivered := invocation.mailbox.Abandon(late);
    invocation.mailbox.Close();
  }

  /** The mailbox is empty and accepts nothing any more. */
  ghost predicate Detached(mailbox: Mailbox)
    reads mailbox
  {
    mailbox.running == map[] && mailbox.messages == [] && !mailbox.accepting
  }

  predicate ExitCompleted(w: Workflow, executions: seq<NodeExecution>) {
    exists i :: 0 <= i < |executions| && executions[i].state.Completed? && executions[i].node in w.exits
  }

  ghost predicate NothingToDo(invocation: Invocation)
    reads invocation, invocation.mailbox
  {
    && invocation.ready == [] && invocation.transitions == []
    && invocation.mailbox.running == map[] && invocation.mailbox.messages == []
  }

  ghost predicate SomeExitCompleted(w: Workflow, executions: seq<NodeExecution>) {
    exists i :: 0 <= i < |executions| && executions[i].state == Completed && executions[i].node in w.exits
  }

  /** How the loop ends once nothing is left to do: open waits come first, then a
      deferred ending, then success, and otherwise the Workflow is at a dead end. */
  ghost predicate Concludes(w: Workflow, c: Core, ending: InvocationState) {
    && (ending == InvocationWaiting <==> c.waiting != map[])
    && (ending == InvocationInterrupted <==> c.waiting == map[] && c.deferred == Some(DeferredInterrupted))
    && (ending == InvocationCompleted <==>
      c.waiting == map[] && c.deferred == None && SomeExitCompleted(w, c.executions))
    && (ending == InvocationFailed <==>
      c.waiting == map[] && (c.deferred == Some(DeferredFailed) ||
        (c.deferred == None && !SomeExitCompleted(w, c.executions))))
  }

  /** What the loop leaves behind when it returns. */
  ghost predicate Returned(w: Workflow, invocation: Invocation, recovery: bool)
    reads invocation, invocation.mailbox
  {
    Accounts(invocation) && match invocation.state
    case InvocationWaiting => LoopHead(w, invocation) && NothingToDo(invocation) && invocation.waiting != map[]
    case InvocationCompleted =>
      && Quiet(invocation.Now()) && Detached(invocation.mailbox)
      && SomeExitCompleted(w, invocation.executions) && HandedOnce(invocation.executions, invocation.routed)
    case InvocationFailed => Quiet(invocation.Now()) && Detached(invocation.mailbox)
    case InvocationInterrupted =>
      Quiet(invocation.Now()) && (Detached(invocation.mailbox) ||
        (recovery && w.failFast && invocation.mailbox.accepting))
    case _ => false
  }

  /** The Scheduler took all transitions and did not fail the Invocation. */
  ghost predicate RoutingMeans(before: Core, after: Core, routing: Routing) {
    && after.transitions == [] && after.routed == before.routed + before.transitions
    && after.ready == before.ready + routing.enqueued
    && after.deferred == (if routing.defers then Some(DeferredFailed) else before.deferred)
    && after.state == before.state && after.executions == before.executions && after.waiting == before.waiting
    && after.applied == before.applied && after.resumed == before.resumed
  }

  method RouteTransitions(ghost w: Workflow, invocation: Invocation, env: Environment)
    requires LoopHead(w, invocation)
    modifies invocation
    ensures Extends(old(invocation.executions), invocation.executions)
    ensures invocation.state.InvocationFailed? || LoopHead(w, invocation)
    ensures (invocation.state.InvocationFailed? <==> env.routing.fails) && Accounts(invocation)
    ensures !env.routing.fails ==> RoutingMeans(old(invocation.Now()), invocation.Now(), env.routing)
  {
    ghost var c := invocation.Now();
    var transitions := invocation.DrainTransitions();
    assert c.routed + c.transitions + [] == c.routed + c.transitions;
    invocation.EnqueueReady(env.routing.enqueued);
    if env.routing.defers {
      invocation.DeferTerminal(DeferredFailed);
    }
    if env.routing.fails {
      invocation.MarkFailed();
    }
  }

  /** One pass of the loop: it returns in a stable state or goes on with everything in
      order. An interrupted return detaches the mailbox unless it was a ready request
      that interrupted a recovery. */
  method DriveStep(w: Workflow, invocation: Invocation, recovery: bool, env: Environment) returns (returned: bool)
    requires LoopHead(w, invocation)
    modifies invocation, invocation.mailbox
    ensures Extends(old(invocation.executions), invocation.executions)
    ensures if returned then Returned(w, invocation, recovery) else LoopHead(w, invocation)
    ensures old(invocation.transitions) == [] && old(invocation.ready) != [] ==>
      && BatchLeads(w, old(invocation.executions), old(invocation.ready), recovery, env, invocation)
      && (returned <==> !EndOf(w, old(invocation.executions), old(invocation.ready), recovery).Through?)
    ensures returned && invocation.state.InvocationInterrupted? ==>
      (Detached(invocation.mailbox) <==> old(invocation.ready) == [])
    ensures old(invocation.transitions) != [] && !env.routing.fails ==>
      !returned && RoutingMeans(old(invocation.Now()), invocation.Now(), env.routing)
    ensures old(invocation.transitions) == [] && old(invocation.ready) == [] && !old(NothingToDo(invocation)) ==>
      !returned && invocation.Now() == AppliedAll(old(invocation.Now()), old(invocation.mailbox.messages), env.handle)
    ensures old(NothingToDo(invocation)) ==> returned && Concludes(w, old(invocation.Now()), invocation.state)
  {
    if invocation.transitions != [] {
      RouteTransitions(w, invocation, env);
      if invocation.state.InvocationFailed? {
        FinishFailed(invocation, env.late);
        return true;
      }
      return false;
    }
    if invocation.ready != [] {
      returned := SubmitReady(w, invocation, recovery, env);
      return;
    }
    var pending := invocation.mailbox.HasPending();
    if pending {
      ApplyMessages(w, invocation, env);
      return false;
    }
    Conclude(w, invocation);
    return true;
  }

  /** What the requests drained in one pass lead to. Under fail-fast a forbidden replay
      interrupts everything, but the mailbox goes on accepting and the jobs prepared
      before are started all the same, for executions that are over. */
  ghost predicate BatchLeads(w: Workflow, executions: seq<NodeExecution>, requests: seq<Request>, recovery: bool,
      env: Environment, invocation: Invocation)
    reads invocation, invocation.mailbox
  {
    match EndOf(w, executions, requests, recovery)
    case Through =>
      && (invocation.state.InvocationRunning? || invocation.state.InvocationWaiting?)
      && BatchStarted(w, executions, requests, recovery, env.prepare, |requests|, invocation.executions)
    case Fails => invocation.state.InvocationFailed? && Detached(invocation.mailbox)
    case Interrupts =>
      && invocation.state.InvocationInterrupted? && invocation.mailbox.accepting
      && AllInterrupted(invocation.executions, JobsOf(w, executions, requests, recovery, env.prepare, 0))
      && AllTracked(invocation.mailbox.running, JobsOf(w, executions, requests, recovery, env.prepare, 0), env.dispatch)
  }

  method SubmitReady(w: Workflow, invocation: Invocation, recovery: bool, env: Environment) returns (returned: bool)
    requires LoopHead(w, invocation) && invocation.transitions == []
    modifies invocation, invocation.mailbox
    ensures Extends(old(invocation.executions), invocation.executions)
    ensures BatchLeads(w, old(invocation.executions), old(invocation.ready), recovery, env, invocation)
    ensures returned <==> !EndOf(w, old(invocation.executions), old(invocation.ready), recovery).Through?
    ensures if returned then Returned(w, invocation, recovery) else LoopHead(w, invocation)
  {
    var requests := invocation.DrainReady();
    var jobs := SubmitReadyRequests(w, invocation, requests, recovery, env);
    ghost var c, running, messages := invocation.Now(), invocation.mailbox.running, invocation.mailbox.messages;
    SubmitBatch(invocation.mailbox, jobs, env.dispatch);
    if invocation.state.InvocationInterrupted? {
      return true;
    }
    if invocation.state.InvocationFailed? {
      FinishFailed(invocation, env.late);
      return true;
    }
    SubmittedHealthy(w, c, running, messages, jobs, invocation.mailbox.running, invocation.mailbox.messages);
    return false;
  }

  lemma {:induction false} DeferredKinds(deferred: Option<Deferred>)
    ensures deferred == None || deferred == Some(DeferredInterrupted) || deferred == Some(DeferredFailed)
  {
    if deferred.Some? {
      match deferred.value {
        case DeferredFailed =>
        case DeferredInterrupted =>
      }
    }
  }

  /** Nothing is left to do: wait, or end as deferred, as completed, or at a dead end. */
  method Conclude(w: Workflow, invocation: Invocation)
    requires LoopHead(w, invocation) && NothingToDo(invocation)
    modifies invocation, invocation.mailbox
    ensures Extends(old(invocation.executions), invocation.executions)
    ensures invocation.state.InvocationInterrupted? ==> Detached(invocation.mailbox)
    ensures Returned(w, invocation, false)
    ensures Concludes(w, old(invocation.Now()), invocation.state)
  {
    if invocation.waiting != map[] {
      invocation.MarkWaiting();
      return;
    }
    assert ExitCompleted(w, invocation.executions) <==> SomeExitCompleted(w, invocation.executions);
    DeferredKinds(invocation.deferred);
    NothingPendingIsQuiet(w, invocation.Now());
    if invocation.deferred == Some(DeferredInterrupted) {
      AccountedEnds(invocation.executions, Interrupted, invocation.applied, invocation.resumed);
      invocation.InterruptActiveNodeExecutions();
      var undelivered := invocation.mailbox.Abandon([]);
      invocation.MarkInterrupted();
      invocation.mailbox.Close();
      return;
    }
    if invocation.deferred == Some(DeferredFailed) {
      invocation.MarkFailed();
      FinishFailed(invocation, []);
      return;
    }
    if ExitCompleted(w, invocation.executions) {
      assert invocation.routed + invocation.transitions == invocation.routed;
      invocation.MarkCompleted();
      invocation.mailbox.Close();
      return;
    }
    invocation.MarkFailed();
    FinishFailed(invocation, []);
  }

  // ----- whole runs -----

  /** A finished background task puts its result into the mailbox. */
  method TaskFinishes(ghost w: Workflow, invocation: Invocation, task: nat, outcome: Outcome)
    requires LoopHead(w, invocation) && task in invocation.mailbox.running
    modifies invocation.mailbox
    ensures LoopHead(w, invocation)
    ensures invocation.mailbox.running == old(invocation.mailbox.running) - {task}
    ensures invocation.mailbox.messages ==
      old(invocation.mailbox.messages) + [Result(old(invocation.mailbox.running)[task], outcome)]
  {
    TaskReports(w, invocation.Now(), invocation.mailbox.running, invocation.mailbox.messages, [], task, outcome);
    var ok := invocation.mailbox.FinishTask(task, Result(invocation.mailbox.running[task], outcome));
  }

  /** A worker of a known execution publishes progress. */
  method ProgressPublished(ghost w: Workflow, invocation: Invocation, execution: nat)
    requires LoopHead(w, invocation) && execution < |invocation.executions|
    modifies invocation.mailbox
    ensures LoopHead(w, invocation)
    ensures invocation.mailbox.running == old(invocation.mailbox.running)
    ensures invocation.mailbox.messages == old(invocation.mailbox.messages) + [Progress(execution)]
  {
    ProgressArrives(w, invocation.Now(), invocation.mailbox.running, invocation.mailbox.messages, [], execution);
    invocation.mailbox.PutMessage(Progress(execution));
  }

  datatype Turn = LoopTurn(env: Environment) | TaskTurn(task: nat, outcome: Outcome) | ProgressTurn(execution: nat)

  /** Any interleaving of loop passes and workers: the loop returns in a stable state,
      or everything is still in order however far the run got. */
  method Drive(w: Workflow, invocation: Invocation, recovery: bool, turns: seq<Turn>) returns (returned: bool)
    requires LoopHead(w, invocation)
    modifies invocation, invocation.mailbox
    ensures Extends(old(invocation.executions), invocation.executions)
    ensures if returned then Returned(w, invocation, recovery) else LoopHead(w, invocation)
  {
    var k := 0;
    while k < |turns|
      invariant LoopHead(w, invocation)
      invariant Extends(old(invocation.executions), invocation.executions)
    {
      match turns[k] {
        case LoopTurn(env) =>
          returned := DriveStep(w, invocation, recovery, env);
          if returned {
            return;
          }
        case TaskTurn(task, outcome) =>
          if task in invocation.mailbox.running {
            TaskFinishes(w, invocation, task, outcome);
          }
        case ProgressTurn(execution) =>
          if execution < |invocation.executions| {
            ProgressPublished(w, invocation, execution);
          }
      }
      k := k + 1;
    }
    return false;
  }

  lemma {:induction false} NothingYetIsHealthy(w: Workflow, c: Core)
    requires c.executions == [] && c.transitions == [] && c.routed == [] && c.waiting == map[] && c.applied == []
    ensures Healthy(w, c, map[], [], [])
  {
    forall i: nat
      ensures Backing(map[], [], [], i) == 0
    {
      assert TasksFor(map[], i) == {};
    }
  }

  /** A new Invocation, with whatever the Scheduler enqueues at first. */
  method Start(ghost w: Workflow, entry: Request, initial: seq<Request>) returns (invocation: Invocation)
    ensures fresh(invocation) && fresh(invocation.mailbox) && LoopHead(w, invocation)
    ensures invocation.ready == initial && invocation.executions == [] && invocation.transitions == []
  {
    invocation := new Invocation(entry);
    invocation.MarkRunning();
    var drained := invocation.DrainReady();
    invocation.EnqueueReady(initial);
    NothingYetIsHealthy(w, invocation.Now());
  }

  lemma {:induction false} ResumeSettles(w: Workflow, c: Core, key: string, state: ExecutionState)
    requires Healthy(w, c, map[], [], []) && key in c.waiting && IsFinal(state)
    ensures c.waiting[key] < |c.executions|
    ensures Healthy(w, AfterResumed(c, key, state), map[], [], [])
    ensures Extends(c.executions, WithState(c.executions, c.waiting[key], state))
  {
    var id := c.waiting[key];
    assert InState(c.executions, id, Waiting);
    var next := WithState(c.executions, id, state);
    forall i: nat
      ensures Backing(map[], [], [], i) == if InState(next, i, Running) then 1 else 0
    {
      assert Backing(map[], [], [], i) == if InState(c.executions, i, Running) then 1 else 0;
    }
    HandFinal(c.executions, c.routed + c.transitions, id, state);
    assert c.routed + (c.transitions + [Transition(id, state)]) == c.routed + c.transitions + [Transition(id, state)];
    ResumeWaits(c.executions, c.waiting, key, state);
    LimitsKept(w, c.executions, next);
    AccountedResume(c, id, state);
  }

  ghost function AfterResumed(c: Core, key: string, state: ExecutionState): Core
    requires key in c.waiting && c.waiting[key] < |c.executions|
  {
    AfterSettled(c, c.waiting[key], state).(waiting := c.waiting - {key},
      resumed := c.resumed + if state.Completed? then {c.waiting[key]} else {})
  }

  lemma {:induction false} AccountedResume(c: Core, id: nat, state: ExecutionState)
    requires Accounted(c.executions, c.applied, c.resumed) && InState(c.executions, id, Waiting) && IsFinal(state)
    ensures Accounted(WithState(c.executions, id, state), c.applied, c.resumed + if state.Completed? then {id} else {})
  {
    var next := WithState(c.executions, id, state);
    forall j: nat | InState(next, j, Completed) && j != id
      ensures Result(j, Produced) in c.applied || j in c.resumed
    {
      assert InState(c.executions, j, Completed);
    }
  }

  lemma {:induction false} ResumeWaits(executions: seq<NodeExecution>, waiting: map<string, nat>, key: string,
      state: ExecutionState)
    requires WaitsMatch(executions, waiting) && key in waiting && waiting[key] < |executions| && !state.Waiting?
    ensures WaitsMatch(WithState(executions, waiting[key], state), waiting - {key})
  {
    var next, waiting' := WithState(executions, waiting[key], state), waiting - {key};
    forall i: nat | InState(next, i, Waiting)
      ensures exists k :: k in waiting' && waiting'[k] == i
    {
      assert InState(executions, i, Waiting);
      var k :| k in waiting && waiting[k] == i;
      assert k in waiting' && waiting'[k] == i;
    }
  }

  method SettleWaiting(invocation: Invocation, key: string, bindingFails: bool)
    requires key in invocation.waiting && invocation.waiting[key] < |invocation.executions|
    modifies invocation
    ensures invocation.Now() == AfterResumed(old(invocation.Now()), key, if bindingFails then Failed else Completed)
  {
    var id := invocation.waiting[key];
    invocation.RemoveWaiting(key);
    if bindingFails {
      invocation.MarkNodeFailed(id);
    } else {
      invocation.MarkNodeCompleted(id);
      invocation.resumed := invocation.resumed + {id};
    }
  }

  /** Completes the execution that waits on the key, or fails it when its output
      binding does; an unknown key changes nothing. */
  method Resume(ghost w: Workflow, invocation: Invocation, key: string, bindingFails: bool) returns (known: bool)
    requires invocation.state.InvocationWaiting? && Returned(w, invocation, false)
    modifies invocation
    ensures Extends(old(invocation.executions), invocation.executions)
    ensures known <==> key in old(invocation.waiting)
    ensures !known ==> invocation.Now() == old(invocation.Now())
    ensures LoopHead(w, invocation)
    ensures known ==> invocation.waiting == old(invocation.waiting) - {key}
    ensures known ==> var id := old(invocation.waiting)[key];
      && id < |old(invocation.executions)|
      && invocation.executions ==
        old(invocation.executions)[id :=
          old(invocation.executions)[id].(state := if bindingFails then Failed else Completed)]
      && invocation.transitions ==
        old(invocation.transitions) + [Transition(id, if bindingFails then Failed else Completed)]
      && invocation.resumed == old(invocation.resumed) + if bindingFails then {} else {id}
    ensures known ==> invocation.state == if invocation.waiting == map[] then InvocationRunning else InvocationWaiting
  {
    if key !in invocation.waiting {
      return false;
    }
    ResumeSettles(w, invocation.Now(), key, if bindingFails then Failed else Completed);
    SettleWaiting(invocation, key, bindingFails);
    if invocation.waiting == map[] {
      invocation.MarkRunning();
    }
    return true;
  }

  /** Node 0 may be replayed once, node 1 never. */
  function StrictWorkflow(): Workflow {
    Workflow(map[0 := NodePolicy(None, Some(1)), 1 := NodePolicy(None, None)], {}, true)
  }

  function QuietEnvironment(): Environment {
    Environment(Routing([], false, false), k => Prepared, k => [], j => None, k => Handling(false, false), [])
  }

  lemma {:induction false} StrictBatch()
    ensures var w, requests := StrictWorkflow(), [Request(0, 1), Request(1, 1)];
      EndOf(w, [], requests, true) == Interrupts && JobsOf(w, [], requests, true, QuietEnvironment().prepare, 0) == [0]
  {
    var w, first, second := StrictWorkflow(), Request(0, 1), Request(1, 1);
    assert [first, second][1..] == [second];
    assert VerdictOn(w, [], first, true) == Starts;
    assert VerdictOn(w, Begun([], first), second, true) == Stops(Interrupts);
    assert EndOf(w, Begun([], first), [second], true) == Interrupts;
    assert JobsOf(w, Begun([], first), [second], true, QuietEnvironment().prepare, 1) == [];
  }

  /** A recovery that is interrupted while it has a task in flight for an execution that
      is over, and a mailbox that would still take its result. */
  method InterruptedWithWork() returns (invocation: Invocation)
    ensures invocation.state.InvocationInterrupted? && Quiet(invocation.Now())
    ensures InState(invocation.executions, 0, Interrupted) && Tracked(invocation.mailbox.running, 0) &&
      invocation.mailbox.accepting
  {
    StrictBatch();
    invocation := Start(StrictWorkflow(), Request(0, 0), [Request(0, 1), Request(1, 1)]);
    var returned := DriveStep(StrictWorkflow(), invocation, true, QuietEnvironment());
    assert 0 in [0];
  }

  /** What a record of an interrupted process gives: executions as they were, and a
      new, empty mailbox. */
  ghost predicate Restored(w: Workflow, invocation: Invocation)
    reads invocation, invocation.mailbox
  {
    && WaitsMatch(invocation.executions, invocation.waiting) &&
      HandedOnce(invocation.executions, invocation.routed + invocation.transitions)
    && WithinLimits(w, invocation.executions) && invocation.state.InvocationRunning?
    && Accounted(invocation.executions, invocation.applied, invocation.resumed)
    && invocation.mailbox.running == map[] && invocation.mailbox.messages == [] && invocation.mailbox.accepting
  }

  predicate WasInProgress(s: ExecutionState) {
    s.Created? || s.Ready? || s.Running?
  }

  /** A replay of the execution would exceed its node's policy, or the node is gone. */
  predicate ReplayRejected(w: Workflow, e: NodeExecution) {
    e.node !in w.nodes || w.nodes[e.node].recovery.None? || e.recoveryAttempt >= w.nodes[e.node].recovery.value
  }

  lemma {:induction false} HandKept(executions: seq<NodeExecution>, all: seq<Transition>, i0: nat,
      state: ExecutionState)
    requires HandedOnce(executions, all) && i0 < |executions| && !IsFinal(executions[i0].state) && !IsFinal(state)
    ensures HandedOnce(WithState(executions, i0, state), all)
  {
    forall i: nat
      ensures FinalsFor(all, i) == if i < |executions| && IsFinal(WithState(executions, i0, state)[i].state) then 1
        else 0
    {
      assert FinalsFor(all, i) == if i < |executions| && IsFinal(executions[i].state) then 1 else 0;
    }
  }

  /** An execution lost with its process is interrupted. */
  lemma {:induction false} LostExecution(w: Workflow, c: Core, i: nat)
    requires WaitsMatch(c.executions, c.waiting) && HandedOnce(c.executions, c.routed + c.transitions) &&
      WithinLimits(w, c.executions) && Accounted(c.executions, c.applied, c.resumed)
    requires i < |c.executions| && WasLost(c.executions[i])
    ensures var next := WithState(c.executions, i, Interrupted);
      WaitsMatch(next, c.waiting) && HandedOnce(next, c.routed + c.transitions) && WithinLimits(w, next) &&
      Accounted(next, c.applied, c.resumed)
  {
    AccountedKept(c.executions, WithState(c.executions, i, Interrupted), c.applied, c.resumed);
    HandKept(c.executions, c.routed + c.transitions, i, Interrupted);
    WaitsKept(c.executions, c.waiting, i, Interrupted);
    LimitsKept(w, c.executions, WithState(c.executions, i, Interrupted));
  }

  lemma {:induction false} NothingRunningIsBacked(executions: seq<NodeExecution>)
    requires forall i: nat :: !InState(executions, i, Running)
    ensures Backed(executions, map[], [], [])
  {
    forall i: nat
      ensures Backing(map[], [], [], i) == 0
    {
      assert TasksFor(map[], i) == {};
    }
  }

  /** The execution was unfinished when its process was lost. */
  ghost predicate WasLost(e: NodeExecution) {
    e.state == Created || e.state == Ready || e.state == Running
  }

  ghost predicate MayReplay(w: Workflow, e: NodeExecution) {
    e.node in w.nodes && w.nodes[e.node].recovery.Some? && e.recoveryAttempt < w.nodes[e.node].recovery.value
  }

  ghost predicate LostForbidden(w: Workflow, e: NodeExecution) {
    WasLost(e) && !MayReplay(w, e)
  }

  /** What the first lost executions put into the queue: their replays, or what skipping
      them unblocks. */
  ghost function Requeues(w: Workflow, executions: seq<NodeExecution>, upTo: nat,
      unblocks: nat -> seq<Request>): seq<Request>
    requires upTo <= |executions|
  {
    if upTo == 0 then []
    else
      var e := executions[upTo - 1];
      Requeues(w, executions, upTo - 1, unblocks) +
      if !WasLost(e) then []
      else if MayReplay(w, e) then [Request(e.node, e.recoveryAttempt + 1)]
      else unblocks(upTo - 1)
  }

  ghost function RecoveredExecution(e: NodeExecution, seen: bool): NodeExecution {
    if seen && WasLost(e) then e.(state := Interrupted) else e
  }

  /** Among the first executions the lost ones are interrupted and requeued; the ending is
      deferred when one may not be replayed. */
  ghost predicate RecoveredTo(w: Workflow, before: Core, after: Core, upTo: nat, unblocks: nat -> seq<Request>)
    requires upTo <= |before.executions|
  {
    && |after.executions| == |before.executions|
    && (forall i :: 0 <= i < |after.executions| ==>
      after.executions[i] == RecoveredExecution(before.executions[i], i < upTo))
    && after.ready == before.ready + Requeues(w, before.executions, upTo, unblocks)
    && after.deferred == (
      if exists i :: 0 <= i < upTo && LostForbidden(w, before.executions[i]) then Some(DeferredInterrupted)
      else before.deferred)
    && after.state == before.state && after.transitions == before.transitions && after.waiting == before.waiting
    && after.routed == before.routed && after.applied == before.applied && after.resumed == before.resumed
  }

  /** Interrupts a lost execution and requeues it, or defers the ending and goes on
      with what skipping it unblocks; under fail-fast a forbidden replay is refused. */
  method RecoverLost(w: Workflow, invocation: Invocation, i: nat, unblocked: seq<Request>) returns (allowed: bool)
    requires Restored(w, invocation) && i < |invocation.executions| && WasLost(invocation.executions[i])
    modifies invocation
    ensures Restored(w, invocation)
    ensures allowed <==> !w.failFast || MayReplay(w, old(invocation.executions)[i])
    ensures allowed ==> var e := old(invocation.executions)[i];
      invocation.Now() == old(invocation.Now()).(
        executions := old(invocation.executions)[i := e.(state := Interrupted)],
        ready := old(invocation.ready) +
          (if MayReplay(w, e) then [Request(e.node, e.recoveryAttempt + 1)] else unblocked),
        deferred := if MayReplay(w, e) then old(invocation.deferred) else Some(DeferredInterrupted))
    ensures !allowed ==> invocation.Now() == old(invocation.Now()).(
      executions := old(invocation.executions)[i := old(invocation.executions)[i].(state := Interrupted)])
  {
    var execution := invocation.executions[i];
    LostExecution(w, invocation.Now(), i);
    invocation.InterruptExecution(i);
    if !ReplayRejected(w, execution) {
      invocation.EnqueueReady([Request(execution.node, execution.recoveryAttempt + 1)]);
      return true;
    }
    if w.failFast {
      return false;
    }
    invocation.DeferTerminal(DeferredInterrupted);
    invocation.EnqueueReady(unblocked);
    return true;
  }

  datatype Recovery = Untouched | Ended | Continues

  /** An Invocation that was never started. */
  ghost predicate Unstarted(invocation: Invocation)
    reads invocation, invocation.mailbox
  {
    && invocation.executions == [] && invocation.transitions == [] && invocation.waiting == map[]
    && invocation.routed == [] && invocation.applied == []
    && invocation.mailbox.running == map[] && invocation.mailbox.messages == [] && invocation.mailbox.accepting
  }

  /** Recovers an Invocation whose process was lost: one that was never started is
      started, lost executions are interrupted and requeued where their policy allows a
      replay, and the loop's invariant holds; a changed definition, or a forbidden replay
      under fail-fast, interrupts everything. Other Invocations are left alone. */
  method Recover(w: Workflow, invocation: Invocation, sameDefinition: bool, initial: seq<Request>,
      unblocks: nat -> seq<Request>) returns (r: Recovery)
    requires invocation.state.InvocationRunning? ==> Restored(w, invocation)
    requires invocation.state.InvocationCreated? ==> Unstarted(invocation)
    modifies invocation
    ensures Extends(old(invocation.executions), invocation.executions) &&
      |invocation.executions| == old(|invocation.executions|)
    ensures r.Untouched? <==> !old(invocation.state).InvocationCreated? && !old(invocation.state).InvocationRunning?
    ensures r.Untouched? ==> invocation.Now() == old(invocation.Now())
    ensures r.Continues? ==> LoopHead(w, invocation) && invocation.state.InvocationRunning?
    ensures r.Continues? && old(invocation.state).InvocationRunning? ==>
      RecoveredTo(w, old(invocation.Now()), invocation.Now(), |invocation.executions|, unblocks)
    ensures r.Continues? && old(invocation.state).InvocationCreated? ==> invocation.ready == initial
    ensures r.Ended? ==> Quiet(invocation.Now()) && invocation.state.InvocationInterrupted?
    ensures r.Ended? ==> EndedAs(old(invocation.executions), invocation.executions, Interrupted)
    ensures !r.Untouched? ==>
      (r.Continues? <==>
        sameDefinition && (w.failFast ==> forall e :: e in old(invocation.executions) ==> !LostForbidden(w, e)))
  {
    if !invocation.state.InvocationCreated? && !invocation.state.InvocationRunning? {
      return Untouched;
    }
    if !sameDefinition {
      InterruptAll(invocation);
      return Ended;
    }
    if invocation.state.InvocationCreated? {
      invocation.MarkRunning();
      var drained := invocation.DrainReady();
      invocation.EnqueueReady(initial);
      NothingYetIsHealthy(w, invocation.Now());
      return Continues;
    }
    var continues := RecoverRunning(w, invocation, unblocks);
    return if continues then Continues else Ended;
  }

  method InterruptAll(invocation: Invocation)
    modifies invocation
    ensures Quiet(invocation.Now()) && invocation.state.InvocationInterrupted?
    ensures EndedAs(old(invocation.executions), invocation.executions, Interrupted)
    ensures invocation.executions == EndActive(old(invocation.executions), Interrupted)
  {
    invocation.InterruptActiveNodeExecutions();
    invocation.MarkInterrupted();
  }

  method RecoverRunning(w: Workflow, invocation: Invocation, unblocks: nat -> seq<Request>) returns (continues: bool)
    requires Restored(w, invocation)
    modifies invocation
    ensures Extends(old(invocation.executions), invocation.executions)
    ensures continues ==> LoopHead(w, invocation) && invocation.state.InvocationRunning?
    ensures continues ==>
      && |invocation.executions| == |old(invocation.executions)|
      && RecoveredTo(w, old(invocation.Now()), invocation.Now(), |invocation.executions|, unblocks)
    ensures !continues ==> Quiet(invocation.Now()) && invocation.state.InvocationInterrupted?
    ensures !continues ==> EndedAs(old(invocation.executions), invocation.executions, Interrupted)
    ensures continues <==> (w.failFast ==> forall e :: e in old(invocation.executions) ==> !LostForbidden(w, e))
  {
    continues := RecoverEach(w, invocation, unblocks);
    InterruptedWhole(old(invocation.executions), invocation.executions);
    if !continues {
      InterruptAll(invocation);
      return;
    }
    NothingRunningIsBacked(invocation.executions);
    invocation.MarkRunning();
  }

  method RecoverEach(w: Workflow, invocation: Invocation, unblocks: nat -> seq<Request>) returns (allowed: bool)
    requires Restored(w, invocation)
    modifies invocation
    ensures Restored(w, invocation)
    ensures allowed <==> (w.failFast ==> forall e :: e in old(invocation.executions) ==> !LostForbidden(w, e))
    ensures PartlyInterrupted(old(invocation.executions), invocation.executions)
    ensures allowed ==> RecoveredTo(w, old(invocation.Now()), invocation.Now(), |invocation.executions|, unblocks)
  {
    ghost var c := invocation.Now();
    var i := 0;
    while i < |invocation.executions|
      invariant 0 <= i <= |invocation.executions| == |c.executions|
      invariant Restored(w, invocation)
      invariant RecoveredTo(w, c, invocation.Now(), i, unblocks)
      invariant w.failFast ==> forall j :: 0 <= j < i ==> !LostForbidden(w, c.executions[j])
    {
      ghost var before := invocation.Now();
      if WasInProgress(invocation.executions[i].state) {
        allowed := RecoverLost(w, invocation, i, unblocks(i));
        if !allowed {
          assert c.executions[i] in c.executions && LostForbidden(w, c.executions[i]);
          RecoveredPart(w, c, before, i, unblocks);
          return;
        }
      }
      RecoveredNext(w, c, before, invocation.Now(), i, unblocks);
      i := i + 1;
    }
    RecoveredPart(w, c, invocation.Now(), i, unblocks);
    return true;
  }

  lemma {:induction false} RecoveredPart(w: Workflow, c: Core, after: Core, i: nat, unblocks: nat -> seq<Request>)
    requires i <= |c.executions| && RecoveredTo(w, c, after, i, unblocks)
    ensures PartlyInterrupted(c.executions, after.executions)
    ensures i < |c.executions| && WasLost(c.executions[i]) ==>
      PartlyInterrupted(c.executions, after.executions[i := after.executions[i].(state := Interrupted)])
  {
  }

  ghost predicate PartlyInterrupted(before: seq<NodeExecution>, after: seq<NodeExecution>) {
    && |after| == |before|
    && forall i :: 0 <= i < |after| ==>
      after[i] == before[i] || (WasLost(before[i]) && after[i] == before[i].(state := Interrupted))
  }

  lemma {:induction false} InterruptedWhole(before: seq<NodeExecution>, after: seq<NodeExecution>)
    requires PartlyInterrupted(before, after)
    ensures EndedAs(before, EndActive(after, Interrupted), Interrupted) &&
      Extends(before, EndActive(after, Interrupted))
    ensures Extends(before, after)
  {
  }

  lemma {:induction false} RecoveredNext(w: Workflow, c: Core, before: Core, after: Core, i: nat,
      unblocks: nat -> seq<Request>)
    requires i < |c.executions| && RecoveredTo(w, c, before, i, unblocks)
    requires var e := c.executions[i];
      if WasLost(e) then
        after == before.(executions := before.executions[i := e.(state := Interrupted)],
          ready := before.ready + (if MayReplay(w, e) then [Request(e.node, e.recoveryAttempt + 1)] else unblocks(i)),
          deferred := if MayReplay(w, e) then before.deferred else Some(DeferredInterrupted))
      else after == before
    ensures RecoveredTo(w, c, after, i + 1, unblocks)
  {
    if exists j :: 0 <= j < i && LostForbidden(w, c.executions[j]) {
      var j :| 0 <= j < i && LostForbidden(w, c.executions[j]);
      assert 0 <= j < i + 1;
    }
    if LostForbidden(w, c.executions[i]) { assert exists j :: 0 <= j < i + 1 && LostForbidden(w, c.executions[j]); }
  }

  /** A cancelled Invocation leaves nothing running, waiting, queued or deliverable. */
  method Cancel(invocation: Invocation, late: seq<Message>)
    modifies invocation, invocation.mailbox
    ensures Extends(old(invocation.executions), invocation.executions)
    ensures invocation.state.InvocationCancelled? && Quiet(invocation.Now()) && Detached(invocation.mailbox)
    ensures EndedAs(old(invocation.executions), invocation.executions, Cancelled)
  {
    invocation.CancelActiveNodeExecutions();
    var undelivered := invocation.mailbox.Abandon(late);
    invocation.MarkCancelled();
  }
}
