/** What a view says about the events it was made of, by their places in the list. */
module ProjectionMeans {
  import opened Options
  import opened Projection
  import opened ProjectionShown

  // ----- last events of a kind -----

  ghost predicate IsLast(events: seq<Event>, i: nat, kind: Body -> bool) {
    && i < |events| && kind(events[i].body)
    && forall j :: i < j < |events| ==> !kind(events[j].body)
  }

  ghost predicate NoneIs(events: seq<Event>, kind: Body -> bool) {
    forall j :: 0 <= j < |events| ==> !kind(events[j].body)
  }

  ghost function SetsState(): Body -> bool {
    (b: Body) => b.InvocationChanged? || b.WaitCreated?
  }

  ghost function ReachesPhase(): Body -> bool {
    (b: Body) => b.PhaseReached?
  }

  ghost function CompletesCall(call: string): Body -> bool {
    (b: Body) => b.CallCompleted? && b.call == call
  }

  ghost function NamesExecution(id: string): Body -> bool {
    (b: Body) => b.NodeChanged? && b.execution == Some(id)
  }

  ghost function ChangesNode(node: string): Body -> bool {
    (b: Body) => b.NodeChanged? && b.node == node
  }

  ghost function SkipsNode(node: string): Body -> bool {
    (b: Body) => b.NodeChanged? && b.node == node && b.skipped
  }

  ghost function EvaluatesEdge(edge: string): Body -> bool {
    (b: Body) => b.EdgeEvaluated? && b.edge == edge
  }

  lemma {:induction false} LastNext(events: seq<Event>, i: nat, kind: Body -> bool)
    requires events != []
    ensures IsLast(events, i, kind) <==>
      if kind(events[|events| - 1].body) then i == |events| - 1 else IsLast(events[..|events| - 1], i, kind)
    ensures NoneIs(events, kind) <==> NoneIs(events[..|events| - 1], kind) && !kind(events[|events| - 1].body)
  {
    var init := events[..|events| - 1];
    assert forall j :: 0 <= j < |init| ==> init[j] == events[j];
  }

  // ----- state, phase, waits and calls -----

  /** The state is that of the last event that sets it: a changed Invocation's, or
      "waiting"; "created" before any. */
  lemma {:induction false} StateMeans(events: seq<Event>)
    ensures NoneIs(events, SetsState()) ==> FoldAll(events).state == "created"
    ensures forall i: nat {:trigger IsLast(events, i, SetsState())} :: IsLast(events, i, SetsState()) ==>
      FoldAll(events).state == if events[i].body.WaitCreated? then "waiting" else events[i].body.state
  {
    if events != [] {
      var init := events[..|events| - 1];
      StateMeans(init);
      LastNext(events, 0, SetsState());
      forall i: nat | IsLast(events, i, SetsState())
        ensures FoldAll(events).state == if events[i].body.WaitCreated? then "waiting" else events[i].body.state
      {
        LastNext(events, i, SetsState());
        if i < |init| { assert init[i] == events[i]; }
      }
    }
  }

  lemma {:induction false} PhaseMeans(events: seq<Event>)
    ensures NoneIs(events, ReachesPhase()) ==> FoldAll(events).phase == None
    ensures forall i: nat {:trigger IsLast(events, i, ReachesPhase())} :: IsLast(events, i, ReachesPhase()) ==>
      FoldAll(events).phase == Some(events[i].body.name)
  {
    if events != [] {
      var init := events[..|events| - 1];
      PhaseMeans(init);
      LastNext(events, 0, ReachesPhase());
      forall i: nat | IsLast(events, i, ReachesPhase())
        ensures FoldAll(events).phase == Some(events[i].body.name)
      {
        LastNext(events, i, ReachesPhase());
        if i < |init| { assert init[i] == events[i]; }
      }
    }
  }

  /** The key was waited on at i and not resumed since. */
  ghost predicate WaitsSince(events: seq<Event>, i: nat, key: string) {
    && i < |events| && events[i].body.WaitCreated? && key in events[i].body.keys
    && forall j :: i < j < |events| ==> events[j].body != WaitResumed(key)
  }

  ghost predicate OpenSince(events: seq<Event>, key: string) {
    exists i: nat :: WaitsSince(events, i, key)
  }

  /** What one more event does to a wait. */
  lemma {:induction false} OpenNext(events: seq<Event>, key: string)
    requires events != []
    ensures var last := events[|events| - 1].body;
      OpenSince(events, key) <==>
        (last.WaitCreated? && key in last.keys) ||
          (OpenSince(events[..|events| - 1], key) && last != WaitResumed(key))
  {
    var n := |events| - 1;
    var init, last := events[..n], events[n].body;
    assert forall j :: 0 <= j < n ==> init[j] == events[j];
    if i: nat :| WaitsSince(init, i, key) && last != WaitResumed(key) { assert WaitsSince(events, i, key); }
    if i: nat :| WaitsSince(events, i, key) && i < n { assert WaitsSince(init, i, key); }
    if last.WaitCreated? && key in last.keys { assert WaitsSince(events, n, key); }
  }

  lemma {:induction false} WaitsNext(v: View, e: Event, key: string)
    ensures key in Apply(v, e).waits <==>
      (e.body.WaitCreated? && key in e.body.keys) || (key in v.waits && e.body != WaitResumed(key))
  {
  }

  /** A wait is open exactly when some event created it and no later one resumed it. */
  lemma {:induction false} WaitsMean(events: seq<Event>, key: string)
    ensures key in FoldAll(events).waits <==> exists i: nat :: WaitsSince(events, i, key)
  {
    if events != [] {
      var init := events[..|events| - 1];
      WaitsMean(init, key);
      OpenNext(events, key);
      WaitsNext(FoldAll(init), events[|events| - 1], key);
    }
  }

  lemma {:induction false} CallNext(v: View, e: Event, call: string)
    ensures CompletesCall(call)(e.body) ==> call in Apply(v, e).calls && Apply(v, e).calls[call] == e.body.state
    ensures !CompletesCall(call)(e.body) ==>
      && (call in Apply(v, e).calls <==> call in v.calls)
      && (call in v.calls ==> Apply(v, e).calls[call] == v.calls[call])
  {
  }

  /** A call has the state its last event gave it. */
  lemma {:induction false} CallsMean(events: seq<Event>, call: string)
    ensures NoneIs(events, CompletesCall(call)) <==> call !in FoldAll(events).calls
    ensures forall i: nat {:trigger IsLast(events, i, CompletesCall(call))} ::
      IsLast(events, i, CompletesCall(call)) ==>
      call in FoldAll(events).calls && FoldAll(events).calls[call] == events[i].body.state
  {
    if events != [] {
      var init := events[..|events| - 1];
      CallsMean(init, call);
      CallNext(FoldAll(init), events[|events| - 1], call);
      LastNext(events, 0, CompletesCall(call));
      forall i: nat | IsLast(events, i, CompletesCall(call))
        ensures call in FoldAll(events).calls && FoldAll(events).calls[call] == events[i].body.state
      {
        LastNext(events, i, CompletesCall(call));
        if i < |init| { assert init[i] == events[i]; }
      }
    }
  }

  // ----- executions -----

  /** An event before place i named the execution. */
  ghost predicate KnownBefore(events: seq<Event>, i: nat, id: string) {
    exists j :: 0 <= j < i && j < |events| && events[j].body.NodeChanged? && events[j].body.execution == Some(id)
  }

  /** At place i a call of the known execution completed in the given way. */
  ghost predicate CallAt(events: seq<Event>, i: nat, id: string, kind: Body -> bool) {
    && i < |events| && events[i].body.CallCompleted? && events[i].body.caller == id && kind(events[i].body)
    && KnownBefore(events, i, id)
  }

  ghost function CallsAt(events: seq<Event>, id: string, kind: Body -> bool): set<nat> {
    set i: nat | i < |events| && CallAt(events, i, id, kind)
  }

  lemma {:induction false} CallsAtNext(events: seq<Event>, id: string, kind: Body -> bool)
    requires events != []
    ensures var n := |events| - 1;
      |CallsAt(events, id, kind)| == |CallsAt(events[..n], id, kind)| + if CallAt(events, n, id, kind) then 1 else 0
  {
    var n := |events| - 1;
    var before, all := CallsAt(events[..n], id, kind), CallsAt(events, id, kind);
    forall i: nat | i < n
      ensures CallAt(events, i, id, kind) <==> CallAt(events[..n], i, id, kind)
    {
      KnownInPrefix(events, n, i, id);
    }
    assert forall i :: i in all <==> i in before || (i == n && CallAt(events, n, id, kind));
    if CallAt(events, n, id, kind) {
      assert all == before + {n};
    } else {
      assert all == before;
    }
  }

  lemma {:induction false} KnownInPrefix(events: seq<Event>, n: nat, i: nat, id: string)
    requires i <= n <= |events|
    ensures KnownBefore(events[..n], i, id) <==> KnownBefore(events, i, id)
  {
    if j :| 0 <= j < i && events[j].body.NodeChanged? && events[j].body.execution == Some(id) {
      assert events[..n][j] == events[j];
    }
  }

  ghost function AnyCall(): Body -> bool {
    (b: Body) => true
  }

  ghost function FailedCall(): Body -> bool {
    (b: Body) => b.CallCompleted? && b.state != "completed"
  }

  ghost function CallBecause(reason: string): Body -> bool {
    (b: Body) => b.CallCompleted? && b.reason == Some(reason)
  }

  ghost function TimedOutCall(): Body -> bool {
    (b: Body) => b.CallCompleted? && b.timedOut
  }

  /** What the calls of an execution come to. */
  ghost predicate Counts(s: Summary, events: seq<Event>, id: string) {
    && s.calls == |CallsAt(events, id, AnyCall())|
    && s.failed == |CallsAt(events, id, FailedCall())|
    && s.retries == |CallsAt(events, id, CallBecause("retry"))|
    && s.fallbacks == |CallsAt(events, id, CallBecause("fallback"))|
    && s.timeouts == |CallsAt(events, id, TimedOutCall())|
  }

  /** A call event adds to the counts of its known caller. */
  ghost function Added(s: Summary, b: Body): Summary
    requires b.CallCompleted?
  {
    Summary(s.calls + 1, s.failed + (if b.state != "completed" then 1 else 0),
      s.retries + (if b.reason == Some("retry") then 1 else 0),
      s.fallbacks + (if b.reason == Some("fallback") then 1 else 0), s.timeouts + (if b.timedOut then 1 else 0))
  }

  lemma {:induction false} CountsNext(s: Summary, events: seq<Event>, id: string)
    requires events != [] && Counts(s, events[..|events| - 1], id)
    ensures var n := |events| - 1; var last := events[n].body;
      Counts(if last.CallCompleted? && last.caller == id && KnownBefore(events, n, id) then Added(s, last) else s,
        events, id)
  {
    CallsAtNext(events, id, AnyCall());
    CallsAtNext(events, id, FailedCall());
    CallsAtNext(events, id, CallBecause("retry"));
    CallsAtNext(events, id, CallBecause("fallback"));
    CallsAtNext(events, id, TimedOutCall());
  }

  lemma {:induction false} CountsNone(events: seq<Event>, id: string)
    requires NoneIs(events, NamesExecution(id))
    ensures Counts(NO_CALLS, events, id)
  {
    forall j: nat | j < |events|
      ensures !(events[j].body.NodeChanged? && events[j].body.execution == Some(id))
    {
      assert !NamesExecution(id)(events[j].body);
    }
    assert CallsAt(events, id, AnyCall()) == {} && CallsAt(events, id, FailedCall()) == {};
    assert CallsAt(events, id, CallBecause("retry")) == {} && CallsAt(events, id, CallBecause("fallback")) == {};
    assert CallsAt(events, id, TimedOutCall()) == {};
  }

  /** The execution's entry: state and node of the last event that names it, the place of
      the first one, and its calls counted. */
  ghost predicate ExecutionSays(e: ProjectedExecution, events: seq<Event>, id: string) {
    && e.id == id && Counts(e.summary, events, id)
    && (exists i: nat :: IsFirst(events, i, NamesExecution(id)) && e.firstEvent == events[i].sequence)
    && (forall i: nat {:trigger IsLast(events, i, NamesExecution(id))} :: IsLast(events, i, NamesExecution(id)) ==>
      e.state == events[i].body.state && e.node == events[i].body.node)
  }

  ghost predicate IsFirst(events: seq<Event>, i: nat, kind: Body -> bool) {
    i < |events| && kind(events[i].body) && forall j :: 0 <= j < i ==> !kind(events[j].body)
  }

  lemma {:induction false} FindIds(a: seq<ProjectedExecution>, b: seq<ProjectedExecution>, id: string)
    requires |a| == |b| && forall i :: 0 <= i < |a| ==> a[i].id == b[i].id
    ensures Find(a, id) == Find(b, id)
  {
    if a != [] { FindIds(a[..|a| - 1], b[..|b| - 1], id); }
  }

  lemma {:induction false} FindAppended(a: seq<ProjectedExecution>, e: ProjectedExecution, id: string)
    ensures Find(a + [e], id) == if e.id == id then Some(|a|) else Find(a, id)
  {
    assert (a + [e])[..|a|] == a;
  }

  ghost function EntryOf(v: View, id: string): Option<ProjectedExecution> {
    match Find(v.executions, id)
    case None => None
    case Some(i) => Some(v.executions[i])
  }

  /** What an event about a node makes of the entry of an execution. */
  lemma {:induction false} EntryAfterNode(v: View, sequence: nat, b: Body, id: string)
    requires b.NodeChanged?
    ensures var before, after := EntryOf(v, id), EntryOf(ApplyNode(v, sequence, b), id);
      if b.execution == Some(id) then
        && after.Some? && after.value.id == id && after.value.state == b.state && after.value.node == b.node
        && after.value.firstEvent == (if before.Some? then before.value.firstEvent else sequence)
        && after.value.summary == if before.Some? then before.value.summary else NO_CALLS
      else after == before
  {
    var next := ApplyNode(v, sequence, b).executions;
    if b.execution.Some? {
      if Find(v.executions, b.execution.value).Some? {
        FindIds(v.executions, next, id);
      } else {
        FindAppended(v.executions, next[|v.executions|], id);
      }
    }
  }

  lemma {:induction false} EntryAfterCall(v: View, b: Body, id: string)
    requires b.CallCompleted?
    ensures var before, after := EntryOf(v, id), EntryOf(ApplyCall(v, b), id);
      if b.caller == id && before.Some? then after == Some(before.value.(summary := Added(before.value.summary, b)))
      else after == before
  {
    FindIds(v.executions, ApplyCall(v, b).executions, id);
  }

  /** What an event makes of the entry of an execution. */
  lemma {:induction false} EntryNext(v: View, e: Event, id: string)
    ensures var b := e.body; var before, after := EntryOf(v, id), EntryOf(Apply(v, e), id);
      if b.NodeChanged? && b.execution == Some(id) then
        && after.Some? && after.value.id == id && after.value.state == b.state && after.value.node == b.node
        && after.value.firstEvent == (if before.Some? then before.value.firstEvent else e.sequence)
        && after.value.summary == if before.Some? then before.value.summary else NO_CALLS
      else if b.CallCompleted? && b.caller == id && before.Some? then
        after == Some(before.value.(summary := Added(before.value.summary, b)))
      else after == before
  {
    match e.body {
      case NodeChanged(_, _, _, _, _) => EntryAfterNode(v, e.sequence, e.body, id);
      case CallCompleted(_, _, _, _, _) => EntryAfterCall(v, e.body, id);
      case _ => assert Apply(v, e).executions == v.executions;
    }
  }

  lemma {:induction false} KnownIsNamed(events: seq<Event>, id: string)
    ensures KnownBefore(events, |events|, id) <==> !NoneIs(events, NamesExecution(id))
  {
    if !NoneIs(events, NamesExecution(id)) {
      var j :| 0 <= j < |events| && NamesExecution(id)(events[j].body);
      assert events[j].body.execution == Some(id);
    }
    if j :| 0 <= j < |events| && events[j].body.NodeChanged? && events[j].body.execution == Some(id) {
      assert NamesExecution(id)(events[j].body);
    }
  }

  /** An execution is known exactly when some event names it, and its entry says what the
      events say. */
  lemma {:induction false} ExecutionMeans(events: seq<Event>, id: string)
    ensures EntryOf(FoldAll(events), id).None? <==> NoneIs(events, NamesExecution(id))
    ensures EntryOf(FoldAll(events), id).Some? ==> ExecutionSays(EntryOf(FoldAll(events), id).value, events, id)
  {
    if events != [] {
      var n := |events| - 1;
      var init := events[..n];
      ExecutionMeans(init, id);
      EntryNext(FoldAll(init), events[n], id);
      LastNext(events, 0, NamesExecution(id));
      KnownIsNamed(init, id);
      KnownInPrefix(events, n, n, id);
      if EntryOf(FoldAll(events), id).Some? { ExecutionNext(events, id); }
    }
  }

  /** What is known of the execution after all events but the last. */
  ghost predicate KnownSoFar(events: seq<Event>, id: string)
    requires events != []
  {
    var init := events[..|events| - 1];
    && (EntryOf(FoldAll(init), id).None? <==> NoneIs(init, NamesExecution(id)))
    && (EntryOf(FoldAll(init), id).Some? ==> ExecutionSays(EntryOf(FoldAll(init), id).value, init, id))
    && EntryOf(FoldAll(events), id).Some?
  }

  lemma {:induction false} ExecutionCounted(events: seq<Event>, id: string)
    requires events != [] && KnownSoFar(events, id)
    ensures Counts(EntryOf(FoldAll(events), id).value.summary, events, id)
    ensures EntryOf(FoldAll(events), id).value.id == id
  {
    var n := |events| - 1;
    var init := events[..n];
    var before := EntryOf(FoldAll(init), id);
    EntryNext(FoldAll(init), events[n], id);
    KnownIsNamed(init, id);
    KnownInPrefix(events, n, n, id);
    if before.None? { CountsNone(init, id); }
    CountsNext(if before.Some? then before.value.summary else NO_CALLS, events, id);
  }

  lemma {:induction false} ExecutionBegan(events: seq<Event>, id: string)
    requires events != [] && KnownSoFar(events, id)
    ensures exists i: nat ::
      && IsFirst(events, i, NamesExecution(id))
      && EntryOf(FoldAll(events), id).value.firstEvent == events[i].sequence
  {
    var n := |events| - 1;
    var init := events[..n];
    var before := EntryOf(FoldAll(init), id);
    EntryNext(FoldAll(init), events[n], id);
    FirstNext(events, NamesExecution(id));
    if before.Some? {
      var i: nat :| IsFirst(init, i, NamesExecution(id)) && before.value.firstEvent == init[i].sequence;
      assert IsFirst(events, i, NamesExecution(id)) && events[i] == init[i];
    } else {
      assert IsFirst(events, n, NamesExecution(id));
    }
  }

  lemma {:induction false} ExecutionStands(events: seq<Event>, id: string, i: nat)
    requires events != [] && KnownSoFar(events, id) && IsLast(events, i, NamesExecution(id))
    ensures var after := EntryOf(FoldAll(events), id).value;
      after.state == events[i].body.state && after.node == events[i].body.node
  {
    var n := |events| - 1;
    var init := events[..n];
    EntryNext(FoldAll(init), events[n], id);
    LastNext(events, i, NamesExecution(id));
    if i < n { assert init[i] == events[i]; }
  }

  lemma {:induction false} ExecutionNext(events: seq<Event>, id: string)
    requires events != [] && KnownSoFar(events, id)
    ensures ExecutionSays(EntryOf(FoldAll(events), id).value, events, id)
  {
    ExecutionCounted(events, id);
    ExecutionBegan(events, id);
    forall i: nat | IsLast(events, i, NamesExecution(id))
      ensures var after := EntryOf(FoldAll(events), id).value;
        after.state == events[i].body.state && after.node == events[i].body.node
    {
      ExecutionStands(events, id, i);
    }
  }

  lemma {:induction false} FirstNext(events: seq<Event>, kind: Body -> bool)
    requires events != []
    ensures forall i: nat {:trigger IsFirst(events, i, kind)} {:trigger IsFirst(events[..|events| - 1], i, kind)} ::
      IsFirst(events[..|events| - 1], i, kind) ==> IsFirst(events, i, kind)
    ensures NoneIs(events[..|events| - 1], kind) && kind(events[|events| - 1].body) ==>
      IsFirst(events, |events| - 1, kind)
  {
    var init := events[..|events| - 1];
    assert forall j :: 0 <= j < |init| ==> init[j] == events[j];
  }

  // ----- nodes and edges -----

  ghost predicate SkipAt(events: seq<Event>, i: nat, node: string) {
    i < |events| && SkipsNode(node)(events[i].body)
  }

  /** The places where the node was skipped. */
  ghost function SkipsAt(events: seq<Event>, node: string): set<nat> {
    set i: nat | i < |events| && SkipAt(events, i, node)
  }

  lemma {:induction false} SkipsAtNext(events: seq<Event>, node: string)
    requires events != []
    ensures var n := |events| - 1;
      |SkipsAt(events, node)| == |SkipsAt(events[..n], node)| + if SkipAt(events, n, node) then 1 else 0
  {
    var n := |events| - 1;
    var before, all := SkipsAt(events[..n], node), SkipsAt(events, node);
    forall i: nat | i < n
      ensures SkipAt(events, i, node) <==> SkipAt(events[..n], i, node)
    {
      assert events[..n][i] == events[i];
    }
    assert forall i :: i in all <==> i in before || (i == n && SkipAt(events, n, node));
    if SkipAt(events, n, node) {
      assert all == before + {n};
    } else {
      assert all == before;
    }
  }

  /** The node's entry: its skips counted, the instance of the last one, and the state and
      sequence of its last event. */
  ghost predicate NodeSays(entry: ProjectedNode, events: seq<Event>, node: string) {
    && entry.skippedCount == |SkipsAt(events, node)|
    && (NoneIs(events, SkipsNode(node)) ==> entry.latestSkipped == None)
    && (forall i: nat {:trigger IsLast(events, i, SkipsNode(node))} :: IsLast(events, i, SkipsNode(node)) ==>
      entry.latestSkipped == events[i].body.instance)
    && (forall i: nat {:trigger IsLast(events, i, ChangesNode(node))} :: IsLast(events, i, ChangesNode(node)) ==>
      entry.latestOccurrence == events[i].body.state && entry.latestSequence == events[i].sequence)
  }

  ghost predicate SameButSummary(a: ProjectedNode, b: ProjectedNode) {
    a == b.(summary := a.summary)
  }

  /** What an event makes of the entry of a node. */
  lemma {:induction false} NodeEntryNext(v: View, e: Event, node: string)
    ensures var b, after := e.body, Apply(v, e).nodes;
      if b.NodeChanged? && b.node == node then
        && node in after && after[node].latestOccurrence == b.state && after[node].latestSequence == e.sequence
        && after[node].skippedCount ==
          (if node in v.nodes then v.nodes[node].skippedCount else 0) + (if b.skipped then 1 else 0)
        && after[node].latestSkipped ==
          (if b.skipped then b.instance else if node in v.nodes then v.nodes[node].latestSkipped else None)
      else (node in after <==> node in v.nodes) && (node in after ==> SameButSummary(after[node], v.nodes[node]))
  {
    match e.body {
      case NodeChanged(_, _, _, _, _) => assert Apply(v, e).nodes == ApplyNode(v, e.sequence, e.body).nodes;
      case CallCompleted(_, _, _, _, _) => assert Apply(v, e).nodes == ApplyCall(v, e.body).nodes;
      case _ => assert Apply(v, e).nodes == v.nodes;
    }
  }

  /** A node is shown exactly when some event is about it. */
  lemma {:induction false} NodeMeans(events: seq<Event>, node: string)
    ensures node !in FoldAll(events).nodes <==> NoneIs(events, ChangesNode(node))
    ensures node in FoldAll(events).nodes ==> NodeSays(FoldAll(events).nodes[node], events, node)
  {
    if events != [] {
      NodeMeans(events[..|events| - 1], node);
      NodeEntryNext(FoldAll(events[..|events| - 1]), events[|events| - 1], node);
      LastNext(events, 0, ChangesNode(node));
      if node in FoldAll(events).nodes { NodeNext(events, node); }
    }
  }

  lemma {:induction false} NodeNext(events: seq<Event>, node: string)
    requires events != [] && node in FoldAll(events).nodes
    requires var init := events[..|events| - 1];
      && (node !in FoldAll(init).nodes <==> NoneIs(init, ChangesNode(node)))
      && (node in FoldAll(init).nodes ==> NodeSays(FoldAll(init).nodes[node], init, node))
    ensures NodeSays(FoldAll(events).nodes[node], events, node)
  {
    var n := |events| - 1;
    var init, after := events[..n], FoldAll(events).nodes[node];
    NodeEntryNext(FoldAll(init), events[n], node);
    SkipsAtNext(events, node);
    NoSkips(init, node);
    LastNext(events, 0, SkipsNode(node));
    forall i: nat | IsLast(events, i, SkipsNode(node))
      ensures after.latestSkipped == events[i].body.instance
    {
      LastNext(events, i, SkipsNode(node));
      if i < n { assert init[i] == events[i] && ChangesNode(node)(init[i].body); }
    }
    forall i: nat | IsLast(events, i, ChangesNode(node))
      ensures after.latestOccurrence == events[i].body.state && after.latestSequence == events[i].sequence
    {
      LastNext(events, i, ChangesNode(node));
      if i < n { assert init[i] == events[i]; }
    }
  }

  lemma {:induction false} NoSkips(events: seq<Event>, node: string)
    ensures NoneIs(events, ChangesNode(node)) ==> NoneIs(events, SkipsNode(node)) && SkipsAt(events, node) == {}
  {
    if NoneIs(events, ChangesNode(node)) {
      forall j: nat | j < |events|
        ensures !SkipsNode(node)(events[j].body)
      {
        assert !ChangesNode(node)(events[j].body);
      }
    }
  }

  ghost function RunsNode(node: string): Body -> bool {
    (b: Body) => b.NodeChanged? && b.node == node && b.execution.Some?
  }

  ghost predicate NeverRan(v: View, node: string) {
    forall e :: e in v.executions ==> e.node != node
  }

  lemma {:induction false} NothingRan(executions: seq<ProjectedExecution>, node: string)
    requires forall e :: e in executions ==> e.node != node
    ensures CountExecutions(executions, node) == 0
  {
    if executions != [] {
      assert forall e :: e in executions[..|executions| - 1] ==> e in executions;
      NothingRan(executions[..|executions| - 1], node);
    }
  }

  lemma {:induction false} NeverRanNext(v: View, e: Event, node: string)
    requires NeverRan(v, node) && !RunsNode(node)(e.body)
    ensures NeverRan(Apply(v, e), node)
  {
  }

  /** A node that never ran shows its last occurrence and no execution. */
  lemma {:induction false} IdleNodeMeans(events: seq<Event>, node: string)
    requires NoneIs(events, RunsNode(node))
    ensures NeverRan(FoldAll(events), node)
    ensures node in FoldAll(events).nodes ==> var entry := FoldAll(events).nodes[node];
      && entry.state == entry.latestOccurrence && entry.latestExecution == None
      && entry.executionCount == 0 && entry.summary == NO_CALLS
  {
    if events != [] {
      var init, last := events[..|events| - 1], events[|events| - 1];
      LastNext(events, 0, RunsNode(node));
      IdleNodeMeans(init, node);
      NeverRanNext(FoldAll(init), last, node);
      NothingRan(FoldAll(events).executions, node);
      IdleNodeNext(FoldAll(init), last, node);
    }
  }

  lemma {:induction false} IdleNodeNext(v: View, e: Event, node: string)
    requires NeverRan(v, node) && NeverRan(Apply(v, e), node) && CountExecutions(Apply(v, e).executions, node) == 0
    requires node in v.nodes ==> var entry := v.nodes[node];
      && entry.state == entry.latestOccurrence && entry.latestExecution == None
      && entry.executionCount == 0 && entry.summary == NO_CALLS
    ensures node in Apply(v, e).nodes ==> var entry := Apply(v, e).nodes[node];
      && entry.state == entry.latestOccurrence && entry.latestExecution == None
      && entry.executionCount == 0 && entry.summary == NO_CALLS
  {
    if e.body.CallCompleted? && Find(v.executions, e.body.caller).Some? {
      assert v.executions[Find(v.executions, e.body.caller).value] in v.executions;
    }
  }

  /** An edge's last evaluation is shown. */
  lemma {:induction false} EdgeMeans(events: seq<Event>, edge: string)
    ensures edge !in FoldAll(events).edges <==> NoneIs(events, EvaluatesEdge(edge))
    ensures forall i: nat {:trigger IsLast(events, i, EvaluatesEdge(edge))} ::
      IsLast(events, i, EvaluatesEdge(edge)) ==>
      edge in FoldAll(events).edges && var entry := FoldAll(events).edges[edge];
      entry.latestSequence == events[i].sequence && entry.latestSelected == events[i].body.selected &&
      entry.latestState == events[i].body.outcome
  {
    if events != [] {
      var init := events[..|events| - 1];
      EdgeMeans(init, edge);
      EdgeEntryNext(FoldAll(init), events[|events| - 1], edge);
      LastNext(events, 0, EvaluatesEdge(edge));
      forall i: nat | IsLast(events, i, EvaluatesEdge(edge))
        ensures edge in FoldAll(events).edges && var entry := FoldAll(events).edges[edge];
          entry.latestSequence == events[i].sequence && entry.latestSelected == events[i].body.selected &&
          entry.latestState == events[i].body.outcome
      {
        LastNext(events, i, EvaluatesEdge(edge));
        if i < |init| { assert init[i] == events[i]; }
      }
    }
  }

  lemma {:induction false} EdgeEntryNext(v: View, e: Event, edge: string)
    ensures var b, after := e.body, Apply(v, e).edges;
      if b.EdgeEvaluated? && b.edge == edge then
        && edge in after && after[edge].latestSequence == e.sequence && after[edge].latestSelected == b.selected
        && after[edge].latestState == b.outcome
      else (edge in after <==> edge in v.edges) && (edge in after ==> after[edge] == v.edges[edge])
  {
  }
}
