/** What the monitoring view shows of nodes: when counts, numbering and summaries are right. */
module ProjectionShown {
  import opened Options
  import opened Projection

  // ----- executions that change their node -----

  lemma {:induction false} CountMovedIn(executions: seq<ProjectedExecution>, i: nat, e: ProjectedExecution,
      node: string)
    requires i < |executions| && executions[i].node != node && e.node == node
    ensures CountExecutions(executions[i := e], node) == CountExecutions(executions, node) + 1
  {
    var n := |executions| - 1;
    if i < n {
      assert executions[i := e][..n] == executions[..n][i := e];
      CountMovedIn(executions[..n], i, e, node);
    } else {
      assert executions[i := e][..n] == executions[..n];
    }
  }

  lemma {:induction false} HasSequenceMovedIn(executions: seq<ProjectedExecution>, i: nat, e: ProjectedExecution,
      k: nat)
    requires i < |executions| && e.node != executions[i].node && e.sequence == executions[i].sequence
    ensures HasSequence(executions[i := e], e.node, k) <==>
      HasSequence(executions, e.node, k) || k == executions[i].sequence
  {
    var next := executions[i := e];
    if HasSequence(next, e.node, k) {
      var j :| 0 <= j < |next| && next[j].node == e.node && next[j].sequence == k;
      if j != i { assert executions[j] == next[j]; }
    }
    if HasSequence(executions, e.node, k) {
      var j :| 0 <= j < |executions| && executions[j].node == e.node && executions[j].sequence == k;
      assert next[j] == executions[j];
    }
    if k == executions[i].sequence { assert next[i] == e; }
  }

  /** The sequences of a node's executions are exactly 1 up to count. */
  ghost predicate NumberedTo(executions: seq<ProjectedExecution>, node: string, count: nat) {
    forall k: nat :: HasSequence(executions, node, k) <==> 1 <= k <= count
  }

  lemma {:induction false} OldNodeNumbering(executions: seq<ProjectedExecution>, i: nat, e: ProjectedExecution)
    requires Numbered(executions) && i < |executions| && e.node != executions[i].node
    ensures var node := executions[i].node;
      CountExecutions(executions[i := e], node) == CountExecutions(executions, node) - 1
      && (NumberedTo(executions[i := e], node, CountExecutions(executions, node) - 1) <==>
        executions[i].sequence == CountExecutions(executions, node))
  {
    var node, next := executions[i].node, executions[i := e];
    CountMoved(executions, i, e, node);
    forall k: nat
      ensures HasSequence(next, node, k) <==> 1 <= k <= CountExecutions(executions, node) && k != executions[i].sequence
    {
      HasSequenceMoved(executions, i, e, k);
      SequencesExact(executions, node, k);
    }
    var count := CountExecutions(executions, node);
    assert HasSequence(next, node, count) <==> count != executions[i].sequence;
  }

  lemma {:induction false} NewNodeNumbering(executions: seq<ProjectedExecution>, i: nat, e: ProjectedExecution)
    requires Numbered(executions) && i < |executions| && e.node != executions[i].node &&
      e.sequence == executions[i].sequence
    ensures var count := CountExecutions(executions, e.node);
      CountExecutions(executions[i := e], e.node) == count + 1
      && (NumberedTo(executions[i := e], e.node, count + 1) <==> executions[i].sequence == count + 1)
  {
    var next, count := executions[i := e], CountExecutions(executions, e.node);
    CountMovedIn(executions, i, e, e.node);
    forall k: nat
      ensures HasSequence(next, e.node, k) <==> 1 <= k <= count || k == executions[i].sequence
    {
      HasSequenceMovedIn(executions, i, e, k);
      SequencesExact(executions, e.node, k);
    }
    assert HasSequence(next, e.node, count + 1) <==> executions[i].sequence == count + 1;
  }

  /** The event names the execution. */
  ghost predicate Names(e: Event, id: string) {
    e.body.NodeChanged? && e.body.execution == Some(id)
  }

  /** The event names an execution the view knows at another node. */
  ghost predicate Moves(v: View, e: Event) {
    && e.body.NodeChanged? && e.body.execution.Some? && Find(v.executions, e.body.execution.value).Some?
    && v.executions[Find(v.executions, e.body.execution.value).value].node != e.body.node
  }

  /** After an event that moves an execution, its old node shows a count that is one too
      high, and its new node is numbered 1 up to the shown count exactly when the
      execution's sequence happens to be the next one there. */
  lemma {:induction false} MovedExecution(v: View, e: Event, nodeOf: string -> string)
    requires ViewOk(v, nodeOf) && Moves(v, e)
    ensures var x := v.executions[Find(v.executions, e.body.execution.value).value];
      var after := Apply(v, e);
      && x.node in after.nodes && after.nodes[x.node].executionCount == CountExecutions(after.executions, x.node) + 1
      && e.body.node in after.nodes &&
        after.nodes[e.body.node].executionCount == CountExecutions(after.executions, e.body.node)
      && (NumberedTo(after.executions, x.node, CountExecutions(after.executions, x.node)) <==>
        x.sequence == CountExecutions(v.executions, x.node))
      && (NumberedTo(after.executions, e.body.node, after.nodes[e.body.node].executionCount) <==>
          x.sequence == CountExecutions(v.executions, e.body.node) + 1)
  {
    var b := e.body;
    var i := Find(v.executions, b.execution.value).value;
    var x := v.executions[i];
    var moved := x.(node := b.node, state := b.state);
    assert Apply(v, e).executions == v.executions[i := moved];
    OldNodeNumbering(v.executions, i, moved);
    NewNodeNumbering(v.executions, i, moved);
  }

  lemma {:induction false} MoveAfterFirst(v: View, e: Event, id: string, node: string)
    requires ViewOk(v, (name: string) => node) && Names(e, id) && e.body.node != node
    requires |v.executions| == 1 && v.executions[0].node == node && Find(v.executions, id) == Some(0)
    ensures node in Apply(v, e).nodes && Apply(v, e).nodes[node].executionCount == 1 &&
      CountExecutions(Apply(v, e).executions, node) == 0
  {
    MovedExecution(v, e, (name: string) => node);
    var moved := v.executions[0].(node := e.body.node, state := e.body.state);
    assert v.executions == [v.executions[0]] && Apply(v, e).executions == [moved];
    assert [] + [moved] == [moved];
    CountSnoc([], moved, node);
  }

  lemma {:induction false} FirstView(first: Event, id: string)
    requires Names(first, id)
    ensures var v := FoldAll([first]);
      ViewOk(v, (name: string) => first.body.node) && |v.executions| == 1 &&
        v.executions[0].node == first.body.node && Find(v.executions, id) == Some(0)
  {
    assert [first] == [] + [first];
    FoldSnoc([], first);
    ExecutionsNumbered([first], (name: string) => first.body.node);
    FirstExecution(first);
  }

  /** Two events are enough: whenever the second moves the execution that the first
      introduced, the first one's node shows one execution and has none. */
  lemma {:induction false} MoveWitness(journal: seq<Event>, id: string)
    requires |journal| == 2 && Names(journal[0], id) && Names(journal[1], id) &&
      journal[0].body.node != journal[1].body.node
    ensures var v, node := FoldAll(journal), journal[0].body.node;
      node in v.nodes && v.nodes[node].executionCount == 1 && CountExecutions(v.executions, node) == 0
  {
    var before := FoldAll([journal[0]]);
    FirstView(journal[0], id);
    MoveAfterFirst(before, journal[1], id, journal[0].body.node);
    assert journal == [journal[0]] + [journal[1]];
    FoldSnoc([journal[0]], journal[1]);
  }

  lemma {:induction false} FirstExecution(e: Event)
    requires e.body.NodeChanged? && e.body.execution.Some?
    ensures var v := Apply(EMPTY_VIEW, e); var id := e.body.execution.value;
      && |v.executions| == 1 && v.executions[0].node == e.body.node && Find(v.executions, id) == Some(0)
      && e.body.node in v.nodes && v.nodes[e.body.node].executionCount == 1 ==
        CountExecutions(v.executions, e.body.node)
  {
    var b := e.body;
    assert Find([], b.execution.value) == None;
    var x := ProjectedExecution(b.execution.value, b.node, 1, e.sequence, b.state, NO_CALLS);
    assert WithExecution([], e.sequence, b.execution.value, b.node, b.state) == [x];
    CountSnoc([], x, b.node);
    assert [] + [x] == [x];
  }

  // ----- views that show every node right -----

  /** Every node shows the number of its executions, and they are numbered 1 up to it. */
  ghost predicate ShownRight(v: View) {
    forall node :: node in v.nodes ==>
      v.nodes[node].executionCount == CountExecutions(v.executions, node) &&
        NumberedTo(v.executions, node, v.nodes[node].executionCount)
  }

  /** All events that name one execution name one node. */
  ghost predicate SameNodeThroughout(events: seq<Event>) {
    forall i, j, id :: 0 <= i < |events| && 0 <= j < |events| && Names(events[i], id) && Names(events[j], id) ==>
      events[i].body.node == events[j].body.node
  }

  /** The node that the last event naming an execution gives it. */
  ghost function NodeNamed(events: seq<Event>, id: string): string {
    if events == [] then ""
    else if Names(events[|events| - 1], id) then events[|events| - 1].body.node
    else NodeNamed(events[..|events| - 1], id)
  }

  lemma {:induction false} NodeNamedIs(events: seq<Event>, i: nat, id: string)
    requires i < |events| && Names(events[i], id) && SameNodeThroughout(events)
    ensures NodeNamed(events, id) == events[i].body.node
  {
    var n := |events| - 1;
    if !Names(events[n], id) {
      assert SameNodeThroughout(events[..n]);
      NodeNamedIs(events[..n], i, id);
    }
  }

  lemma {:induction false} SameNodeKeeps(events: seq<Event>)
    requires SameNodeThroughout(events)
    ensures forall i :: 0 <= i < |events| ==> KeepsNode(events[i], id => NodeNamed(events, id))
  {
    forall i | 0 <= i < |events|
      ensures KeepsNode(events[i], id => NodeNamed(events, id))
    {
      var b := events[i].body;
      if b.NodeChanged? && b.execution.Some? { NodeNamedIs(events, i, b.execution.value); }
    }
  }

  lemma {:induction false} ViewOkShown(v: View, nodeOf: string -> string)
    requires ViewOk(v, nodeOf)
    ensures ShownRight(v)
  {
    forall node, k: nat | node in v.nodes
      ensures HasSequence(v.executions, node, k) <==> 1 <= k <= v.nodes[node].executionCount
    {
      SequencesExact(v.executions, node, k);
    }
  }

  lemma {:induction false} FindNamed(executions: seq<ProjectedExecution>, id: string)
    ensures Find(executions, id).Some? <==> exists i :: 0 <= i < |executions| && executions[i].id == id
  {
  }

  /** Some event named the execution. */
  ghost predicate Named(events: seq<Event>, id: string) {
    exists i :: 0 <= i < |events| && Names(events[i], id)
  }

  lemma {:induction false} NamedSnoc(events: seq<Event>, e: Event, id: string)
    ensures Named(events + [e], id) <==> Named(events, id) || Names(e, id)
  {
    if Named(events, id) {
      var i :| 0 <= i < |events| && Names(events[i], id);
      assert (events + [e])[i] == events[i];
    }
    if Names(e, id) { assert (events + [e])[|events|] == e; }
  }

  lemma {:induction false} ApplyKnows(v: View, e: Event, id: string)
    ensures Find(Apply(v, e).executions, id).Some? <==> Find(v.executions, id).Some? || Names(e, id)
  {
    match e.body {
      case NodeChanged(_, _, _, _, _) => NodeApplyKnows(v, e, id);
      case CallCompleted(_, _, _, _, _) => CallKeepsIds(v, e.body, id);
      case _ =>
    }
  }

  lemma {:induction false} NodeApplyKnows(v: View, e: Event, id: string)
    requires e.body.NodeChanged?
    ensures Find(ApplyNode(v, e.sequence, e.body).executions, id).Some? <==>
      Find(v.executions, id).Some? || Names(e, id)
  {
    if e.body.execution.Some? {
      NodeEventIds(v.executions, e.sequence, e.body.execution.value, e.body.node, e.body.state, id);
    }
  }

  lemma {:induction false} NodeEventIds(executions: seq<ProjectedExecution>, sequence: nat, named: string,
      node: string, state: string, id: string)
    ensures Find(WithExecution(executions, sequence, named, node, state), id).Some? <==>
      Find(executions, id).Some? || id == named
  {
    var next := WithExecution(executions, sequence, named, node, state);
    FindNamed(executions, id);
    FindNamed(next, id);
    if i: nat :| i < |executions| && executions[i].id == id { assert next[i].id == id; }
    match Find(executions, named) {
      case Some(i) => assert next[i].id == named;
      case None => assert next[|executions|].id == named;
    }
  }

  lemma {:induction false} CallKeepsIds(v: View, b: Body, id: string)
    requires b.CallCompleted?
    ensures Find(ApplyCall(v, b).executions, id).Some? <==> Find(v.executions, id).Some?
  {
    var next := ApplyCall(v, b).executions;
    assert |next| == |v.executions| && forall i :: 0 <= i < |next| ==> next[i].id == v.executions[i].id;
    FindNamed(v.executions, id);
    FindNamed(next, id);
  }

  /** The view knows exactly the executions that were named. */
  lemma {:induction false} KnownExactly(events: seq<Event>, id: string)
    ensures Find(FoldAll(events).executions, id).Some? <==> Named(events, id)
  {
    if events != [] {
      var init, last := events[..|events| - 1], events[|events| - 1];
      assert events == init + [last];
      KnownExactly(init, id);
      ApplyKnows(FoldAll(init), last, id);
      NamedSnoc(init, last, id);
    }
  }

  lemma {:induction false} SameNodeNext(events: seq<Event>, e: Event)
    requires SameNodeThroughout(events) && !Moves(FoldAll(events), e)
    ensures SameNodeThroughout(events + [e])
  {
    var all := events + [e];
    SameNodeKeeps(events);
    ExecutionsNumbered(events, id => NodeNamed(events, id));
    forall i, j, id | 0 <= i < |all| && 0 <= j < |all| && Names(all[i], id) && Names(all[j], id)
      ensures all[i].body.node == all[j].body.node
    {
      if i < |events| && j == |events| {
        EarlierNode(events, e, i, id);
      } else if j < |events| && i == |events| {
        EarlierNode(events, e, j, id);
      }
    }
  }

  lemma {:induction false} EarlierNode(events: seq<Event>, e: Event, i: nat, id: string)
    requires SameNodeThroughout(events) && !Moves(FoldAll(events), e) && i < |events| && Names(events[i], id) &&
      Names(e, id)
    requires NodesAgree(FoldAll(events).executions, id => NodeNamed(events, id))
    ensures events[i].body.node == e.body.node
  {
    KnownExactly(events, id);
    NodeNamedIs(events, i, id);
  }

  /** Every view along a run shows every node right exactly when all events of an
      execution name one node. */
  lemma {:induction false} ShownRightExactly(events: seq<Event>)
    ensures (forall k: nat {:trigger events[..k]} :: k <= |events| ==> ShownRight(FoldAll(events[..k]))) <==>
      SameNodeThroughout(events)
  {
    if SameNodeThroughout(events) {
      forall k: nat | k <= |events|
        ensures ShownRight(FoldAll(events[..k]))
      {
        assert SameNodeThroughout(events[..k]);
        SameNodeKeeps(events[..k]);
        ExecutionsNumbered(events[..k], id => NodeNamed(events[..k], id));
        ViewOkShown(FoldAll(events[..k]), id => NodeNamed(events[..k], id));
      }
    }
    if forall k: nat {:trigger events[..k]} :: k <= |events| ==> ShownRight(FoldAll(events[..k])) {
      RightMeansSame(events, |events|);
      assert events[..|events|] == events;
    }
  }

  lemma {:induction false} RightStep(init: seq<Event>, e: Event)
    requires SameNodeThroughout(init) && ShownRight(Apply(FoldAll(init), e))
    ensures SameNodeThroughout(init + [e])
  {
    if Moves(FoldAll(init), e) {
      SameNodeKeeps(init);
      ExecutionsNumbered(init, id => NodeNamed(init, id));
      MovedExecution(FoldAll(init), e, id => NodeNamed(init, id));
    } else {
      SameNodeNext(init, e);
    }
  }

  lemma {:induction false} RightMeansSame(events: seq<Event>, n: nat)
    requires n <= |events| && forall k: nat {:trigger events[..k]} :: k <= |events| ==> ShownRight(FoldAll(events[..k]))
    ensures SameNodeThroughout(events[..n])
  {
    if n > 0 {
      RightMeansSame(events, n - 1);
      var init, e := events[..n - 1], events[n - 1];
      assert events[..n] == init + [e];
      FoldSnoc(init, e);
      assert ShownRight(FoldAll(events[..n]));
      RightStep(init, e);
    }
  }

  // ----- what a node shows of its executions -----

  /** The same executions, but for their summaries. */
  ghost predicate SameButSummary(a: seq<ProjectedExecution>, b: seq<ProjectedExecution>) {
    |a| == |b| && forall i :: 0 <= i < |a| ==> a[i] == b[i].(summary := a[i].summary)
  }

  lemma {:induction false} LatestSame(a: seq<ProjectedExecution>, b: seq<ProjectedExecution>, node: string)
    requires SameButSummary(a, b)
    ensures Latest(a, node).Some? <==> Latest(b, node).Some?
    ensures Latest(a, node).Some? ==>
      Latest(a, node).value == Latest(b, node).value.(summary := Latest(a, node).value.summary)
  {
    if a != [] { LatestSame(a[..|a| - 1], b[..|b| - 1], node); }
  }

  lemma {:induction false} LatestOther(a: seq<ProjectedExecution>, i: nat, e: ProjectedExecution, node: string)
    requires i < |a| && a[i].node != node && e.node != node
    ensures Latest(a[i := e], node) == Latest(a, node)
  {
    var n := |a| - 1;
    if i < n {
      assert a[i := e][..n] == a[..n][i := e];
      LatestOther(a[..n], i, e, node);
    } else {
      assert a[i := e][..n] == a[..n];
    }
  }

  lemma {:induction false} LatestNew(a: seq<ProjectedExecution>, e: ProjectedExecution, node: string)
    requires e.node != node
    ensures Latest(a + [e], node) == Latest(a, node)
  {
    assert (a + [e])[..|a|] == a;
  }

  lemma {:induction false} FindAt(executions: seq<ProjectedExecution>, i: nat)
    requires IdsDistinct(executions) && i < |executions|
    ensures Find(executions, executions[i].id) == Some(i)
  {
    FindNamed(executions, executions[i].id);
  }

  /** The execution whose summary a node shows: the latest at the node's last own event,
      or the one whose call completed after that. */
  ghost function ShownFor(events: seq<Event>, node: string): Option<string> {
    if events == [] then None
    else
      var init, b := events[..|events| - 1], events[|events| - 1].body;
      if b.NodeChanged? && b.node == node then
        match Latest(FoldAll(events).executions, node)
        case None => None
        case Some(x) => Some(x.id)
      else if b.CallCompleted? && HasNode(FoldAll(init).executions, b.caller, node) then Some(b.caller)
      else ShownFor(init, node)
  }

  ghost predicate HasNode(executions: seq<ProjectedExecution>, id: string, node: string) {
    Find(executions, id).Some? && executions[Find(executions, id).value].node == node
  }

  ghost function SummaryOf(executions: seq<ProjectedExecution>, o: Option<string>): Summary {
    if o.None? || Find(executions, o.value).None? then NO_CALLS else executions[Find(executions, o.value).value].summary
  }

  /** The entry shows the latest execution and its state, and the summary of shown. */
  ghost predicate EntryShows(entry: ProjectedNode, executions: seq<ProjectedExecution>, node: string,
      shown: Option<string>) {
    && (shown.Some? ==> HasNode(executions, shown.value, node))
    && entry.summary == SummaryOf(executions, shown)
    && match Latest(executions, node)
       case None => entry.latestExecution == None
       case Some(x) => entry.latestExecution == Some(x.id) && entry.state == x.state
  }

  lemma {:induction false} OwnEventShows(v: View, sequence: nat, b: Body)
    requires b.NodeChanged? && IdsDistinct(ApplyNode(v, sequence, b).executions)
    ensures var after := ApplyNode(v, sequence, b);
      EntryShows(after.nodes[b.node], after.executions, b.node,
        match Latest(after.executions, b.node) case None => None case Some(x) => Some(x.id))
  {
    var executions := ApplyNode(v, sequence, b).executions;
    var latest := Latest(executions, b.node);
    if latest.Some? {
      var i: nat :| i < |executions| && executions[i] == latest.value;
      FindAt(executions, i);
    }
  }

  lemma {:induction false} EntryStays(entry: ProjectedNode, before: seq<ProjectedExecution>,
      after: seq<ProjectedExecution>, node: string, shown: Option<string>)
    requires EntryShows(entry, before, node, shown) && IdsDistinct(after) && Latest(after, node) == Latest(before, node)
    requires |before| <= |after| && forall j :: 0 <= j < |before| && before[j].node == node ==> after[j] == before[j]
    ensures EntryShows(entry, after, node, shown)
  {
    if shown.Some? { FindAt(after, Find(before, shown.value).value); }
  }

  lemma {:induction false} OtherExecutions(executions: seq<ProjectedExecution>, sequence: nat, id: string,
      other: string, state: string, node: string)
    requires other != node && (Find(executions, id).Some? ==> executions[Find(executions, id).value].node != node)
    ensures var next := WithExecution(executions, sequence, id, other, state);
      && Latest(next, node) == Latest(executions, node) && |executions| <= |next|
      && forall j :: 0 <= j < |executions| && executions[j].node == node ==> next[j] == executions[j]
  {
    var next := WithExecution(executions, sequence, id, other, state);
    match Find(executions, id) {
      case Some(i) => LatestOther(executions, i, executions[i].(node := other, state := state), node);
      case None => LatestNew(executions, next[|executions|], node);
    }
  }

  lemma {:induction false} OtherStays(executions: seq<ProjectedExecution>, sequence: nat, id: string, other: string,
      state: string, entry: ProjectedNode, node: string, shown: Option<string>, nodeOf: string -> string)
    requires Numbered(executions) && NodesAgree(executions, nodeOf) && other == nodeOf(id) && other != node
    requires EntryShows(entry, executions, node, shown)
    ensures EntryShows(entry, WithExecution(executions, sequence, id, other, state), node, shown)
  {
    var next := WithExecution(executions, sequence, id, other, state);
    WithExecutionOk(executions, sequence, id, other, state, nodeOf);
    OtherExecutions(executions, sequence, id, other, state, node);
    EntryStays(entry, executions, next, node, shown);
  }

  lemma {:induction false} NodeExecutions(v: View, sequence: nat, b: Body)
    requires b.NodeChanged?
    ensures ApplyNode(v, sequence, b).executions
      == if b.execution.Some? then WithExecution(v.executions, sequence, b.execution.value, b.node, b.state)
        else v.executions
  {
  }

  /** A node event leaves what other nodes show. */
  lemma {:induction false} OtherEventShows(v: View, sequence: nat, b: Body, entry: ProjectedNode, node: string,
      shown: Option<string>, nodeOf: string -> string)
    requires ViewOk(v, nodeOf) && b.NodeChanged? && b.node != node &&
      (b.execution.Some? ==> b.node == nodeOf(b.execution.value))
    requires EntryShows(entry, v.executions, node, shown)
    ensures EntryShows(entry, ApplyNode(v, sequence, b).executions, node, shown)
  {
    NodeExecutions(v, sequence, b);
    if b.execution.Some? {
      OtherStays(v.executions, sequence, b.execution.value, b.node, b.state, entry, node, shown, nodeOf);
    }
  }

  lemma {:induction false} CallSame(v: View, b: Body)
    requires b.CallCompleted?
    ensures SameButSummary(ApplyCall(v, b).executions, v.executions)
    ensures forall i :: 0 <= i < |v.executions| && Find(v.executions, b.caller) != Some(i) ==>
      ApplyCall(v, b).executions[i] == v.executions[i]
  {
  }

  lemma {:induction false} CallShowsCaller(v: View, b: Body, node: string, shown: Option<string>)
    requires b.CallCompleted? && IdsDistinct(ApplyCall(v, b).executions) && HasNode(v.executions, b.caller, node)
    requires node in v.nodes && EntryShows(v.nodes[node], v.executions, node, shown)
    ensures var after := ApplyCall(v, b);
      node in after.nodes && EntryShows(after.nodes[node], after.executions, node, Some(b.caller))
  {
    var next := ApplyCall(v, b).executions;
    CallSame(v, b);
    LatestSame(next, v.executions, node);
    FindAt(next, Find(v.executions, b.caller).value);
  }

  lemma {:induction false} ElsewhereStays(executions: seq<ProjectedExecution>, i: nat, e: ProjectedExecution,
      entry: ProjectedNode, node: string, shown: Option<string>)
    requires i < |executions| && executions[i].node != node && e.node != node && IdsDistinct(executions[i := e])
    requires EntryShows(entry, executions, node, shown)
    ensures EntryShows(entry, executions[i := e], node, shown)
  {
    LatestOther(executions, i, e, node);
    EntryStays(entry, executions, executions[i := e], node, shown);
  }

  lemma {:induction false} CallElsewhereShows(v: View, b: Body, node: string, shown: Option<string>)
    requires b.CallCompleted? && IdsDistinct(ApplyCall(v, b).executions) && !HasNode(v.executions, b.caller, node)
    requires node in v.nodes && EntryShows(v.nodes[node], v.executions, node, shown)
    ensures var after := ApplyCall(v, b);
      node in after.nodes && EntryShows(after.nodes[node], after.executions, node, shown)
  {
    if Find(v.executions, b.caller).Some? {
      var i := Find(v.executions, b.caller).value;
      var next := ApplyCall(v, b).executions;
      assert next == v.executions[i := next[i]];
      ElsewhereStays(v.executions, i, next[i], v.nodes[node], node, shown);
    }
  }

  /** A completed call shows its own execution's summary at that execution's node. */
  lemma {:induction false} CallShows(v: View, b: Body, node: string, shown: Option<string>, nodeOf: string -> string)
    requires ViewOk(v, nodeOf) && b.CallCompleted? && node in v.nodes &&
      EntryShows(v.nodes[node], v.executions, node, shown)
    ensures var after := ApplyCall(v, b);
      node in after.nodes && EntryShows(after.nodes[node], after.executions, node,
        if HasNode(v.executions, b.caller, node) then Some(b.caller) else shown)
  {
    CallEventOk(v, b, nodeOf);
    if HasNode(v.executions, b.caller, node) {
      CallShowsCaller(v, b, node, shown);
    } else {
      CallElsewhereShows(v, b, node, shown);
    }
  }

  /** While executions keep their nodes, every node shows its latest execution and that
      one's state, and the summary of the execution ShownFor names: the latest's, unless
      since the node's last own event a call of an older execution completed. */
  lemma {:induction false} NodeShows(events: seq<Event>, node: string, nodeOf: string -> string)
    requires (forall i :: 0 <= i < |events| ==> KeepsNode(events[i], nodeOf)) && node in FoldAll(events).nodes
    ensures EntryShows(FoldAll(events).nodes[node], FoldAll(events).executions, node, ShownFor(events, node))
  {
    var init, last := events[..|events| - 1], events[|events| - 1];
    ExecutionsNumbered(init, nodeOf);
    ExecutionsNumbered(events, nodeOf);
    var v := FoldAll(init);
    if last.body.NodeChanged? && last.body.node == node {
      OwnEventShows(v, last.sequence, last.body);
    } else {
      KeepsNodeEntries(v, last, node);
      NodeShows(init, node, nodeOf);
      match last.body {
        case NodeChanged(_, _, _, _, _) =>
          OtherEventShows(v, last.sequence, last.body, v.nodes[node], node, ShownFor(init, node), nodeOf);
        case CallCompleted(_, _, _, _, _) => CallShows(v, last.body, node, ShownFor(init, node), nodeOf);
        case _ =>
      }
    }
  }

  lemma {:induction false} KeepsNodeEntries(v: View, e: Event, node: string)
    requires !(e.body.NodeChanged? && e.body.node == node)
    ensures node in Apply(v, e).nodes <==> node in v.nodes
    ensures node in v.nodes && !e.body.CallCompleted? ==> Apply(v, e).nodes[node] == v.nodes[node]
  {
  }
}
