/** The monitoring view of one Invocation: a fold over its events that can be resumed
    from an earlier view, and the cache that does so. */
module Projection {
  import opened Options

  // ----- events and views -----

  datatype Body =
    | InvocationChanged(state: string)
    | NodeChanged(node: string, state: string, execution: Option<string>, skipped: bool, instance: Option<string>)
    | EdgeEvaluated(edge: string, selected: bool, outcome: EdgeState)
    | CallCompleted(call: string, caller: string, state: string, reason: Option<string>, timedOut: bool)
    | WaitCreated(keys: seq<string>)
    | WaitResumed(key: string)
    | PhaseReached(name: string)
    | Unrelated

  datatype EdgeState = Selected | Skipped | Failed | Evaluated

  datatype Event = Event(sequence: nat, body: Body)

  datatype Summary = Summary(calls: nat, failed: nat, retries: nat, fallbacks: nat, timeouts: nat)

  datatype ProjectedExecution = ProjectedExecution(id: string, node: string, sequence: nat, firstEvent: nat,
    state: string, summary: Summary)

  datatype ProjectedNode = ProjectedNode(state: string, latestOccurrence: string, latestSequence: nat,
    latestExecution: Option<string>, executionCount: nat, skippedCount: nat, latestSkipped: Option<string>,
    summary: Summary)

  datatype ProjectedEdge = ProjectedEdge(state: EdgeState, latestState: EdgeState, latestSequence: nat,
    latestSelected: bool, evaluations: nat, selectedCount: nat, skippedCount: nat, failedCount: nat)

  /** applied is the sequence of the last event taken in. Executions are in the order
      they first appeared. */
  datatype View = View(
    applied: nat,
    state: string,
    executions: seq<ProjectedExecution>,
    nodes: map<string, ProjectedNode>,
    edges: map<string, ProjectedEdge>,
    calls: map<string, string>,
    waits: set<string>,
    phase: Option<string>)

  const EMPTY_VIEW := View(0, "created", [], map[], map[], map[], {}, None)

  const NO_CALLS := Summary(0, 0, 0, 0, 0)

  function Find(executions: seq<ProjectedExecution>, id: string): (i: Option<nat>)
    ensures i.Some? ==> i.value < |executions| && executions[i.value].id == id
    ensures i.None? ==> forall j :: 0 <= j < |executions| ==> executions[j].id != id
  {
    if executions == [] then None
    else if executions[|executions| - 1].id == id then Some(|executions| - 1)
    else Find(executions[..|executions| - 1], id)
  }

  function CountExecutions(executions: seq<ProjectedExecution>, node: string): nat {
    if executions == [] then 0
    else
      var n := |executions| - 1;
      CountExecutions(executions[..n], node) + if executions[n].node == node then 1 else 0
  }

  /** The execution of a node with the highest sequence. */
  function Latest(executions: seq<ProjectedExecution>, node: string): (r: Option<ProjectedExecution>)
    ensures r.Some? ==> r.value in executions && r.value.node == node
    ensures r.Some? ==> forall e :: e in executions && e.node == node ==> e.sequence <= r.value.sequence
    ensures r.None? ==> forall e :: e in executions ==> e.node != node
  {
    if executions == [] then None
    else
      var last := executions[|executions| - 1];
      assert executions == executions[..|executions| - 1] + [last];
      var before := Latest(executions[..|executions| - 1], node);
      if last.node == node && (before.None? || last.sequence > before.value.sequence) then Some(last) else before
  }

  function WithExecution(executions: seq<ProjectedExecution>, sequence: nat, id: string, node: string,
      state: string): seq<ProjectedExecution> {
    match Find(executions, id)
    case Some(i) => executions[i := executions[i].(node := node, state := state)]
    case None => executions + [ProjectedExecution(id, node, CountExecutions(executions, node) + 1, sequence, state,
      NO_CALLS)]
  }

  function ApplyNode(v: View, sequence: nat, b: Body): View
    requires b.NodeChanged?
  {
    var executions :=
      if b.execution.Some? then WithExecution(v.executions, sequence, b.execution.value, b.node, b.state)
      else v.executions;
    var latest := Latest(executions, b.node);
    var known := b.node in v.nodes;
    var node := ProjectedNode(
      if latest.Some? then latest.value.state else b.state, b.state, sequence,
      if latest.Some? then Some(latest.value.id) else None,
      CountExecutions(executions, b.node),
      (if known then v.nodes[b.node].skippedCount else 0) + (if b.skipped then 1 else 0),
      if b.skipped then b.instance else if known then v.nodes[b.node].latestSkipped else None,
      if latest.Some? then latest.value.summary else NO_CALLS);
    v.(executions := executions, nodes := v.nodes[b.node := node])
  }

  function ApplyEdge(v: View, sequence: nat, b: Body): View
    requires b.EdgeEvaluated?
  {
    var before := if b.edge in v.edges then v.edges[b.edge]
      else ProjectedEdge(Evaluated, Evaluated, 0, false, 0, 0, 0, 0);
    var selected := before.selectedCount + if b.selected then 1 else 0;
    var skipped := before.skippedCount + if b.outcome.Skipped? then 1 else 0;
    var failed := before.failedCount + if b.outcome.Failed? then 1 else 0;
    var state := if failed > 0 then Failed else if selected > 0 then Selected else b.outcome;
    v.(edges := v.edges[b.edge :=
      ProjectedEdge(state, b.outcome, sequence, b.selected, before.evaluations + 1, selected, skipped, failed)])
  }

  function ApplyCall(v: View, b: Body): View
    requires b.CallCompleted?
  {
    var calls := v.calls[b.call := b.state];
    match Find(v.executions, b.caller)
    case None => v.(calls := calls)
    case Some(i) =>
      var e := v.executions[i];
      var summary := Summary(
        e.summary.calls + 1,
        e.summary.failed + if b.state != "completed" then 1 else 0,
        e.summary.retries + if b.reason == Some("retry") then 1 else 0,
        e.summary.fallbacks + if b.reason == Some("fallback") then 1 else 0,
        e.summary.timeouts + if b.timedOut then 1 else 0);
      var nodes := if e.node in v.nodes then v.nodes[e.node := v.nodes[e.node].(summary := summary)] else v.nodes;
      v.(calls := calls, executions := v.executions[i := e.(summary := summary)], nodes := nodes)
  }

  function Apply(v: View, e: Event): (r: View) {
    var after := match e.body
      case InvocationChanged(state) => v.(state := state)
      case NodeChanged(_, _, _, _, _) => ApplyNode(v, e.sequence, e.body)
      case EdgeEvaluated(_, _, _) => ApplyEdge(v, e.sequence, e.body)
      case CallCompleted(_, _, _, _, _) => ApplyCall(v, e.body)
      case WaitCreated(keys) => v.(waits := v.waits + KeySet(keys), state := "waiting")
      case WaitResumed(key) => v.(waits := v.waits - {key})
      case PhaseReached(name) => v.(phase := Some(name))
      case Unrelated => v;
    after.(applied := e.sequence)
  }

  function KeySet(keys: seq<string>): set<string> {
    set k | k in keys
  }

  // ----- the fold -----

  /** Takes in the events after the base view's, stopping at the first one beyond through. */
  ghost function Project(events: seq<Event>, through: Option<nat>, base: View): View
    decreases |events|
  {
    if events == [] then base
    else if events[0].sequence <= base.applied then Project(events[1..], through, base)
    else if through.Some? && events[0].sequence > through.value then base
    else Project(events[1..], through, Apply(base, events[0]))
  }

  method ProjectEvents(events: seq<Event>, through: Option<nat>, base: Option<View>) returns (v: View)
    ensures v == Project(events, through, if base.Some? then base.value else EMPTY_VIEW)
  {
    v := if base.Some? then base.value else EMPTY_VIEW;
    ghost var start := v;
    var i := 0;
    while i < |events|
      invariant 0 <= i <= |events|
      invariant Project(events[i..], through, v) == Project(events, through, start)
    {
      var event := events[i];
      assert events[i..][0] == event && events[i..][1..] == events[i + 1..];
      i := i + 1;
      if event.sequence <= v.applied {
        continue;
      }
      if through.Some? && event.sequence > through.value {
        return;
      }
      v := Apply(v, event);
    }
  }

  lemma {:induction false} ProjectAdvances(events: seq<Event>, through: Option<nat>, base: View)
    ensures Project(events, through, base).applied >= base.applied
    ensures through.Some? && base.applied <= through.value ==> Project(events, through, base).applied <= through.value
    decreases |events|
  {
    if events != [] {
      if events[0].sequence <= base.applied {
        ProjectAdvances(events[1..], through, base);
      } else if through.None? || events[0].sequence <= through.value {
        ProjectAdvances(events[1..], through, Apply(base, events[0]));
      }
    }
  }

  ghost predicate NotBefore(s: nat, t: Option<nat>) {
    t.None? || s <= t.value
  }

  /** Going on from the view at s is the same as starting over, for any list of events. */
  lemma {:induction false} ResumeIsReplay(events: seq<Event>, s: nat, t: Option<nat>, base: View)
    requires NotBefore(s, t)
    ensures Project(events, t, Project(events, Some(s), base)) == Project(events, t, base)
    decreases |events|
  {
    if events != [] {
      if events[0].sequence <= base.applied {
        ProjectAdvances(events[1..], Some(s), base);
        ResumeIsReplay(events[1..], s, t, base);
      } else if events[0].sequence <= s {
        ProjectAdvances(events[1..], Some(s), Apply(base, events[0]));
        ResumeIsReplay(events[1..], s, t, Apply(base, events[0]));
      }
    }
  }

  /** A view is the view through the last event it took in. */
  lemma {:induction false} ThroughItsLast(events: seq<Event>, t: nat, base: View)
    requires base.applied <= t
    ensures var v := Project(events, Some(t), base); Project(events, Some(v.applied), base) == v
    decreases |events|
  {
    if events != [] {
      if events[0].sequence <= base.applied {
        ThroughItsLast(events[1..], t, base);
      } else if events[0].sequence <= t {
        ProjectAdvances(events[1..], Some(t), Apply(base, events[0]));
        ThroughItsLast(events[1..], t, Apply(base, events[0]));
      }
    }
  }

  /** Later events do not change an earlier view. */
  lemma {:induction false} TailUnseen(events: seq<Event>, tail: seq<Event>, s: nat, base: View)
    requires forall i :: 0 <= i < |tail| ==> tail[i].sequence > s
    requires base.applied <= s
    ensures Project(events + tail, Some(s), base) == Project(events, Some(s), base)
    decreases |events|
  {
    if events == [] {
      assert events + tail == tail;
    } else {
      assert (events + tail)[1..] == events[1..] + tail;
      if events[0].sequence <= base.applied {
        TailUnseen(events[1..], tail, s, base);
      } else if events[0].sequence <= s {
        TailUnseen(events[1..], tail, s, Apply(base, events[0]));
      }
    }
  }

  /** The part of a journal that was loaded: what comes after some floor. */
  ghost function Above(events: seq<Event>, floor: nat): seq<Event> {
    if events == [] then []
    else (if events[0].sequence > floor then [events[0]] else []) + Above(events[1..], floor)
  }

  /** From a view that reaches the floor, the loaded part is enough. */
  lemma {:induction false} LoadedPartSuffices(events: seq<Event>, floor: nat, t: Option<nat>, base: View)
    requires floor <= base.applied
    ensures Project(Above(events, floor), t, base) == Project(events, t, base)
    decreases |events|
  {
    if events != [] {
      if events[0].sequence > floor {
        assert Above(events, floor)[1..] == Above(events[1..], floor);
        if events[0].sequence <= base.applied {
          LoadedPartSuffices(events[1..], floor, t, base);
        } else if t.None? || events[0].sequence <= t.value {
          LoadedPartSuffices(events[1..], floor, t, Apply(base, events[0]));
        }
      } else {
        assert Above(events, floor) == Above(events[1..], floor);
        LoadedPartSuffices(events[1..], floor, t, base);
      }
    }
  }

  // ----- the cache -----

  const CACHE_SIZE := 256

  ghost predicate IsViewOf(journal: seq<Event>, v: View) {
    v == Project(journal, Some(v.applied), EMPTY_VIEW)
  }

  /** The parts a cache key is written from. */
  datatype CacheKey =
    | Unused | Live(invocation: string) | Stored(invocation: string, historyLoaded: bool, checkpoint: nat)

  /** Views by their sequence, oldest entry first. */
  class ProjectionCache {
    var key: CacheKey
    var values: seq<View>

    ghost predicate ValidFor(journal: seq<Event>)
      reads this
    {
      && |values| <= CACHE_SIZE
      && (forall i :: 0 <= i < |values| ==> IsViewOf(journal, values[i]))
      && SequencesDiffer(values)
    }

    constructor ()
      ensures key == Unused && values == []
    {
      key, values := Unused, [];
    }
  }

  ghost predicate SequencesDiffer(values: seq<View>) {
    forall i, j :: 0 <= i < j < |values| ==> values[i].applied != values[j].applied
  }

  function Without(values: seq<View>, applied: nat): (r: seq<View>)
    ensures forall v :: v in r <==> v in values && v.applied != applied
    ensures |r| <= |values|
  {
    if values == [] then []
    else
      var rest := Without(values[1..], applied);
      assert values == [values[0]] + values[1..];
      if values[0].applied == applied then rest else [values[0]] + rest
  }

  lemma {:induction false} WithoutDiffers(values: seq<View>, applied: nat)
    requires SequencesDiffer(values)
    ensures SequencesDiffer(Without(values, applied))
  {
    if values != [] {
      var rest := Without(values[1..], applied);
      WithoutDiffers(values[1..], applied);
      forall j | 0 <= j < |rest|
        ensures rest[j].applied != values[0].applied
      {
        assert rest[j] in rest && rest[j] in values[1..];
      }
    }
  }

  /** A usable checkpoint reaches what was not loaded. */
  predicate Covers(checkpoint: Option<View>, floor: nat, through: nat) {
    floor == 0 || (checkpoint.Some? && checkpoint.value.applied <= through)
  }

  lemma {:induction false} AboveTwice(journal: seq<Event>, floor: nat)
    ensures Above(Above(journal, floor), 0) == Above(journal, floor)
  {
    if journal != [] {
      AboveTwice(journal[1..], floor);
      if journal[0].sequence > floor {
        assert Above(journal, floor)[1..] == Above(journal[1..], floor);
      } else {
        assert Above(journal, floor) == Above(journal[1..], floor);
      }
    }
  }

  /** The events a view is made of: the whole journal, or only the loaded ones when no
      usable checkpoint covers the others. */
  ghost function SourceOf(journal: seq<Event>, floor: nat, checkpoint: Option<View>, through: nat): seq<Event> {
    if Covers(checkpoint, floor, through) then journal else Above(journal, floor)
  }

  /** Whatever the cache holds and evicts, the result is the view of the whole journal,
      although the loaded events may miss what a usable checkpoint covers; without one it
      is the view of the loaded events. */
  method CachedProjection(cache: ProjectionCache, key: CacheKey, events: seq<Event>, through: nat,
                          checkpoint: Option<View>, ghost journal: seq<Event>, ghost floor: nat)
    returns (projected: View)
    requires cache.key == key ==> cache.ValidFor(SourceOf(journal, floor, checkpoint, through))
    requires checkpoint.Some? ==> IsViewOf(journal, checkpoint.value) && floor <= checkpoint.value.applied
    requires events == Above(journal, floor)
    modifies cache
    ensures projected == Project(SourceOf(journal, floor, checkpoint, through), Some(through), EMPTY_VIEW)
    ensures cache.key == key && cache.ValidFor(SourceOf(journal, floor, checkpoint, through)) &&
      projected in cache.values
  {
    ghost var source := SourceOf(journal, floor, checkpoint, through);
    ghost var missing := if Covers(checkpoint, floor, through) then floor else 0;
    AboveTwice(journal, floor);
    if cache.key != key {
      cache.key := key;
      cache.values := [];
    }
    var base: Option<View> := if checkpoint.Some? && checkpoint.value.applied <= through then checkpoint else None;
    var i := 0;
    while i < |cache.values|
      invariant 0 <= i <= |cache.values|
      invariant base.Some? ==> IsViewOf(source, base.value) && missing <= base.value.applied <= through
      invariant base.None? ==> missing == 0
    {
      var view := cache.values[i];
      if view.applied <= through && view.applied > (if base.Some? then base.value.applied else 0) {
        base := Some(view);
      }
      i := i + 1;
    }
    projected := ProjectEvents(events, Some(through), base);
    ghost var start := if base.Some? then base.value else EMPTY_VIEW;
    LoadedPartSuffices(source, missing, Some(through), start);
    if base.Some? { ResumeIsReplay(source, start.applied, Some(through), EMPTY_VIEW); }
    ThroughItsLast(source, through, EMPTY_VIEW);
    Remember(cache, source, projected);
  }

  /** The bootstrap's checkpoint is used once the cursor has reached it, unless the whole
      history is loaded. */
  function UsableCheckpoint(historyLoaded: bool, checkpoint: View, cursor: nat): Option<View> {
    if !historyLoaded && cursor >= checkpoint.applied then Some(checkpoint) else None
  }

  function KeyFor(invocation: string, historyLoaded: bool, usable: Option<View>): CacheKey {
    Stored(invocation, historyLoaded, if usable.Some? then usable.value.applied else 0)
  }

  /** One key goes with one source, wherever the cursor is. */
  lemma {:induction false} KeyTellsSource(invocation: string, historyLoaded: bool, checkpoint: View, cursor: nat,
      cursor': nat,
                                          journal: seq<Event>, floor: nat)
    requires floor <= checkpoint.applied && (historyLoaded ==> floor == 0)
    requires var a, b := UsableCheckpoint(historyLoaded, checkpoint, cursor),
      UsableCheckpoint(historyLoaded, checkpoint, cursor');
      KeyFor(invocation, historyLoaded, a) == KeyFor(invocation, historyLoaded, b)
    ensures var a, b := UsableCheckpoint(historyLoaded, checkpoint, cursor),
      UsableCheckpoint(historyLoaded, checkpoint, cursor');
      SourceOf(journal, floor, a, cursor) == SourceOf(journal, floor, b, cursor')
  {
  }

  /** The view at the cursor: that of the whole journal when the history is loaded or the
      cursor has reached the checkpoint; below the checkpoint only the loaded events count. */
  method ProjectionAt(cache: ProjectionCache, invocation: string, events: seq<Event>, cursor: nat, historyLoaded: bool,
                      checkpoint: View, ghost journal: seq<Event>, ghost floor: nat)
    returns (projected: View)
    requires events == Above(journal, floor) && IsViewOf(journal, checkpoint) && floor <= checkpoint.applied
    requires historyLoaded ==> floor == 0
    requires var usable := UsableCheckpoint(historyLoaded, checkpoint, cursor);
      cache.key == KeyFor(invocation, historyLoaded, usable) ==>
        cache.ValidFor(SourceOf(journal, floor, usable, cursor))
    modifies cache
    ensures historyLoaded || cursor >= checkpoint.applied ==> projected == Project(journal, Some(cursor), EMPTY_VIEW)
    ensures !historyLoaded && cursor < checkpoint.applied ==> projected == Project(events, Some(cursor), EMPTY_VIEW)
    ensures var usable := UsableCheckpoint(historyLoaded, checkpoint, cursor);
      cache.key == KeyFor(invocation, historyLoaded, usable) && cache.ValidFor(SourceOf(journal, floor, usable, cursor))
  {
    var usable := UsableCheckpoint(historyLoaded, checkpoint, cursor);
    projected := CachedProjection(cache, KeyFor(invocation, historyLoaded, usable), events, cursor, usable, journal,
      floor);
    if floor == 0 { LoadedPartSuffices(journal, 0, Some(cursor), EMPTY_VIEW); }
  }

  /** Makes the view the newest entry and evicts the oldest beyond the limit. */
  method Remember(cache: ProjectionCache, ghost journal: seq<Event>, projected: View)
    requires cache.ValidFor(journal) && IsViewOf(journal, projected)
    modifies cache
    ensures cache.key == old(cache.key) && cache.ValidFor(journal) && projected in cache.values
  {
    WithoutDiffers(cache.values, projected.applied);
    cache.values := Without(cache.values, projected.applied);
    forall i | 0 <= i < |cache.values|
      ensures IsViewOf(journal, cache.values[i])
    {
      assert cache.values[i] in cache.values;
    }
    assert forall i :: 0 <= i < |cache.values| ==> cache.values[i] in cache.values;
    cache.values := cache.values + [projected];
    while |cache.values| > CACHE_SIZE
      invariant 1 <= |cache.values| <= CACHE_SIZE + 1
      invariant cache.key == old(cache.key)
      invariant forall i :: 0 <= i < |cache.values| ==> IsViewOf(journal, cache.values[i])
      invariant SequencesDiffer(cache.values)
      invariant cache.values[|cache.values| - 1] == projected
    {
      cache.values := cache.values[1..];
    }
  }

  /** Growth at the tail keeps every cached view right. */
  lemma {:induction false} ViewsSurviveGrowth(journal: seq<Event>, tail: seq<Event>, v: View)
    requires IsViewOf(journal, v) && forall i :: 0 <= i < |tail| ==> tail[i].sequence > v.applied
    ensures IsViewOf(journal + tail, v)
  {
    TailUnseen(journal, tail, v.applied, EMPTY_VIEW);
  }

  // ----- what the numbers in a view mean -----

  /** The view after all of these events. */
  ghost function FoldAll(events: seq<Event>): View {
    if events == [] then EMPTY_VIEW
    else Apply(FoldAll(events[..|events| - 1]), events[|events| - 1])
  }

  /** The events a projection takes in. */
  ghost function Taken(events: seq<Event>, through: Option<nat>, applied: nat): seq<Event>
    decreases |events|
  {
    if events == [] then []
    else if events[0].sequence <= applied then Taken(events[1..], through, applied)
    else if through.Some? && events[0].sequence > through.value then []
    else [events[0]] + Taken(events[1..], through, events[0].sequence)
  }

  lemma {:induction false} FoldSnoc(done: seq<Event>, e: Event)
    ensures FoldAll(done + [e]) == Apply(FoldAll(done), e) && FoldAll(done + [e]).applied == e.sequence
  {
    assert (done + [e])[..|done|] == done;
  }

  lemma {:induction false} TakenNext(done: seq<Event>, events: seq<Event>, through: Option<nat>, applied: nat)
    requires events != [] && events[0].sequence > applied && (through.None? || events[0].sequence <= through.value)
    ensures done + [events[0]] + Taken(events[1..], through, events[0].sequence) ==
      done + Taken(events, through, applied)
  {
  }

  lemma {:induction false} ProjectNext(events: seq<Event>, through: Option<nat>, base: View)
    requires events != [] && events[0].sequence > base.applied && (through.None? || events[0].sequence <= through.value)
    ensures Project(events, through, base) == Project(events[1..], through, Apply(base, events[0]))
  {
  }

  /** A projection is the view after the events it takes in. */
  lemma {:induction false} ProjectTakes(done: seq<Event>, events: seq<Event>, through: Option<nat>, v: View)
    requires v == FoldAll(done)
    ensures Project(events, through, v) == FoldAll(done + Taken(events, through, v.applied))
    decreases |events|
  {
    if events == [] {
      assert done + [] == done;
    } else if events[0].sequence <= v.applied {
      ProjectTakes(done, events[1..], through, v);
    } else if through.Some? && events[0].sequence > through.value {
      assert done + [] == done;
    } else {
      FoldSnoc(done, events[0]);
      ProjectNext(events, through, v);
      TakenNext(done, events, through, v.applied);
      ProjectTakes(done + [events[0]], events[1..], through, FoldAll(done + [events[0]]));
    }
  }

  datatype EdgeTest = AnyEvaluation | WhenSelected | WhenSkipped | WhenFailed

  ghost predicate Meets(b: Body, edge: string, test: EdgeTest) {
    && b.EdgeEvaluated? && b.edge == edge
    && match test
       case AnyEvaluation => true
       case WhenSelected => b.selected
       case WhenSkipped => b.outcome.Skipped?
       case WhenFailed => b.outcome.Failed?
  }

  ghost function CountEdge(events: seq<Event>, edge: string, test: EdgeTest): nat {
    if events == [] then 0
    else CountEdge(events[..|events| - 1], edge, test) + if Meets(events[|events| - 1].body, edge, test) then 1 else 0
  }

  /** The outcome of an edge's last evaluation. */
  ghost function LastOutcome(events: seq<Event>, edge: string): EdgeState {
    if events == [] then Evaluated
    else if Meets(events[|events| - 1].body, edge, AnyEvaluation) then events[|events| - 1].body.outcome
    else LastOutcome(events[..|events| - 1], edge)
  }

  /** An edge's counters are the numbers of its evaluations, and its state follows them:
      any failure wins, then any selection, and otherwise the last outcome. */
  lemma {:induction false} EdgeCountsExact(events: seq<Event>, edge: string)
    ensures var v := FoldAll(events);
      && (edge in v.edges <==> CountEdge(events, edge, AnyEvaluation) > 0)
      && (edge in v.edges ==>
        && v.edges[edge].evaluations == CountEdge(events, edge, AnyEvaluation)
        && v.edges[edge].selectedCount == CountEdge(events, edge, WhenSelected)
        && v.edges[edge].skippedCount == CountEdge(events, edge, WhenSkipped)
        && v.edges[edge].failedCount == CountEdge(events, edge, WhenFailed)
        && v.edges[edge].latestState == LastOutcome(events, edge)
        && v.edges[edge].state == (
          if v.edges[edge].failedCount > 0 then Failed
          else if v.edges[edge].selectedCount > 0 then Selected
          else LastOutcome(events, edge)))
      && (edge !in v.edges ==> forall test :: CountEdge(events, edge, test) == 0)
  {
    if events != [] {
      var init, last := events[..|events| - 1], events[|events| - 1];
      EdgeCountsExact(init, edge);
      if last.body.CallCompleted? { CallLeavesEdges(FoldAll(init), last.body); }
    }
  }

  lemma {:induction false} CallLeavesEdges(v: View, b: Body)
    requires b.CallCompleted?
    ensures ApplyCall(v, b).edges == v.edges
  {
  }

  ghost predicate NumberedAt(executions: seq<ProjectedExecution>, i: int)
    requires 0 <= i < |executions|
  {
    executions[i].sequence == CountExecutions(executions[..i + 1], executions[i].node)
  }

  ghost predicate NumberedAll(executions: seq<ProjectedExecution>) {
    forall i :: 0 <= i < |executions| ==> NumberedAt(executions, i)
  }

  ghost predicate IdsDistinct(executions: seq<ProjectedExecution>) {
    forall i, j :: 0 <= i < j < |executions| ==> executions[i].id != executions[j].id
  }

  /** The k-th execution of a node, in order of appearance, has sequence k. */
  ghost predicate Numbered(executions: seq<ProjectedExecution>) {
    NumberedAll(executions) && IdsDistinct(executions)
  }

  ghost predicate NodesAgree(executions: seq<ProjectedExecution>, nodeOf: string -> string) {
    forall i :: 0 <= i < |executions| ==> executions[i].node == nodeOf(executions[i].id)
  }

  ghost predicate NodesCounted(nodes: map<string, ProjectedNode>, executions: seq<ProjectedExecution>) {
    && (forall i :: 0 <= i < |executions| ==> executions[i].node in nodes)
    && (forall node :: node in nodes ==> nodes[node].executionCount == CountExecutions(executions, node))
  }

  ghost predicate ViewOk(v: View, nodeOf: string -> string) {
    Numbered(v.executions) && NodesAgree(v.executions, nodeOf) && NodesCounted(v.nodes, v.executions)
  }

  lemma {:induction false} CountUnchanged(a: seq<ProjectedExecution>, b: seq<ProjectedExecution>, node: string)
    requires |a| == |b| && forall i :: 0 <= i < |a| ==> a[i].node == b[i].node
    ensures CountExecutions(a, node) == CountExecutions(b, node)
  {
    if a != [] { CountUnchanged(a[..|a| - 1], b[..|b| - 1], node); }
  }

  /** Changing anything but ids, nodes and sequences keeps the numbering. */
  lemma {:induction false} NumberedUpdate(executions: seq<ProjectedExecution>, next: seq<ProjectedExecution>)
    requires Numbered(executions) && |next| == |executions|
    requires forall i :: 0 <= i < |next| ==>
      next[i].id == executions[i].id && next[i].node == executions[i].node && next[i].sequence == executions[i].sequence
    ensures Numbered(next) && forall node :: CountExecutions(next, node) == CountExecutions(executions, node)
  {
    forall i | 0 <= i < |next|
      ensures NumberedAt(next, i)
    {
      assert NumberedAt(executions, i);
      CountUnchanged(executions[..i + 1], next[..i + 1], next[i].node);
    }
    forall node
      ensures CountExecutions(next, node) == CountExecutions(executions, node)
    {
      CountUnchanged(executions, next, node);
    }
  }

  lemma {:induction false} CountSnoc(executions: seq<ProjectedExecution>, e: ProjectedExecution, node: string)
    ensures CountExecutions(executions + [e], node) == CountExecutions(executions, node) +
      if node == e.node then 1 else 0
  {
    assert (executions + [e])[..|executions|] == executions;
  }

  lemma {:induction false} CountsNew(executions: seq<ProjectedExecution>, e: ProjectedExecution)
    ensures forall node ::
      CountExecutions(executions + [e], node) == CountExecutions(executions, node) + if node == e.node then 1 else 0
  {
    forall node
      ensures CountExecutions(executions + [e], node) == CountExecutions(executions, node) +
        if node == e.node then 1 else 0
    {
      CountSnoc(executions, e, node);
    }
  }

  lemma {:induction false} IdsDistinctNew(executions: seq<ProjectedExecution>, e: ProjectedExecution)
    requires IdsDistinct(executions) && forall j :: 0 <= j < |executions| ==> executions[j].id != e.id
    ensures IdsDistinct(executions + [e])
  {
  }

  lemma {:induction false} NumberedNew(executions: seq<ProjectedExecution>, e: ProjectedExecution)
    requires Numbered(executions) && e.sequence == CountExecutions(executions, e.node) + 1
    requires forall j :: 0 <= j < |executions| ==> executions[j].id != e.id
    ensures Numbered(executions + [e])
  {
    IdsDistinctNew(executions, e);
    NumberedAllNew(executions, e);
  }

  lemma {:induction false} NumberedAllNew(executions: seq<ProjectedExecution>, e: ProjectedExecution)
    requires NumberedAll(executions) && e.sequence == CountExecutions(executions, e.node) + 1
    ensures NumberedAll(executions + [e])
  {
    var next := executions + [e];
    CountSnoc(executions, e, e.node);
    assert next[..|next|] == next;
    assert NumberedAt(next, |executions|);
    forall i | 0 <= i < |executions|
      ensures NumberedAt(next, i)
    {
      assert NumberedAt(executions, i) && next[..i + 1] == executions[..i + 1];
    }
  }

  /** An event that names an execution names that execution's node. */
  ghost predicate KeepsNode(e: Event, nodeOf: string -> string) {
    e.body.NodeChanged? && e.body.execution.Some? ==> e.body.node == nodeOf(e.body.execution.value)
  }

  lemma {:induction false} WithExecutionOk(executions: seq<ProjectedExecution>, sequence: nat, id: string,
      node: string, state: string, nodeOf: string -> string)
    requires Numbered(executions) && NodesAgree(executions, nodeOf) && node == nodeOf(id)
    ensures var next := WithExecution(executions, sequence, id, node, state);
      && Numbered(next) && NodesAgree(next, nodeOf)
      && (forall n :: n != node ==> CountExecutions(next, n) == CountExecutions(executions, n))
      && (forall i :: 0 <= i < |next| ==>
        next[i].node == node || (i < |executions| && next[i].node == executions[i].node))
  {
    var next := WithExecution(executions, sequence, id, node, state);
    match Find(executions, id) {
      case Some(i) => NumberedUpdate(executions, next);
      case None =>
        var e := ProjectedExecution(id, node, CountExecutions(executions, node) + 1, sequence, state, NO_CALLS);
        NumberedNew(executions, e);
        CountsNew(executions, e);
    }
  }

  /** One node's entry is rewritten with its new count, the other nodes keep theirs. */
  lemma {:induction false} NodesCountedNext(nodes: map<string, ProjectedNode>, executions: seq<ProjectedExecution>,
      next: seq<ProjectedExecution>, node: string, entry: ProjectedNode)
    requires NodesCounted(nodes, executions) && entry.executionCount == CountExecutions(next, node)
    requires forall n :: n != node ==> CountExecutions(next, n) == CountExecutions(executions, n)
    requires forall i :: 0 <= i < |next| ==>
      next[i].node == node || (i < |executions| && next[i].node == executions[i].node)
    ensures NodesCounted(nodes[node := entry], next)
  {
  }

  lemma {:induction false} NodeEventExecutions(v: View, b: Body, sequence: nat, nodeOf: string -> string)
    requires ViewOk(v, nodeOf) && b.NodeChanged? && (b.execution.Some? ==> b.node == nodeOf(b.execution.value))
    ensures var next := ApplyNode(v, sequence, b).executions;
      && Numbered(next) && NodesAgree(next, nodeOf)
      && (forall n :: n != b.node ==> CountExecutions(next, n) == CountExecutions(v.executions, n))
      && (forall i :: 0 <= i < |next| ==>
        next[i].node == b.node || (i < |v.executions| && next[i].node == v.executions[i].node))
  {
    if b.execution.Some? {
      WithExecutionOk(v.executions, sequence, b.execution.value, b.node, b.state, nodeOf);
    }
  }

  lemma {:induction false} NodeEventOk(v: View, sequence: nat, b: Body, nodeOf: string -> string)
    requires ViewOk(v, nodeOf) && b.NodeChanged? && (b.execution.Some? ==> b.node == nodeOf(b.execution.value))
    ensures ViewOk(ApplyNode(v, sequence, b), nodeOf)
  {
    var after := ApplyNode(v, sequence, b);
    NodeEventExecutions(v, b, sequence, nodeOf);
    NodesCountedNext(v.nodes, v.executions, after.executions, b.node, after.nodes[b.node]);
  }

  lemma {:induction false} CallEventOk(v: View, b: Body, nodeOf: string -> string)
    requires ViewOk(v, nodeOf) && b.CallCompleted?
    ensures ViewOk(ApplyCall(v, b), nodeOf)
  {
    if Find(v.executions, b.caller).Some? {
      NumberedUpdate(v.executions, ApplyCall(v, b).executions);
    }
  }

  lemma {:induction false} EventOk(v: View, e: Event, nodeOf: string -> string)
    requires ViewOk(v, nodeOf) && KeepsNode(e, nodeOf)
    ensures ViewOk(Apply(v, e), nodeOf)
  {
    match e.body {
      case NodeChanged(_, _, _, _, _) => NodeEventOk(v, e.sequence, e.body, nodeOf);
      case CallCompleted(_, _, _, _, _) => CallEventOk(v, e.body, nodeOf);
      case _ =>
    }
  }

  /** While every execution keeps its node, executions are numbered in order and every
      node's count is the number of its executions. */
  lemma {:induction false} ExecutionsNumbered(events: seq<Event>, nodeOf: string -> string)
    requires forall i :: 0 <= i < |events| ==> KeepsNode(events[i], nodeOf)
    ensures ViewOk(FoldAll(events), nodeOf)
  {
    if events != [] {
      ExecutionsNumbered(events[..|events| - 1], nodeOf);
      EventOk(FoldAll(events[..|events| - 1]), events[|events| - 1], nodeOf);
    }
  }

  ghost predicate HasSequence(executions: seq<ProjectedExecution>, node: string, k: nat) {
    exists i :: 0 <= i < |executions| && executions[i].node == node && executions[i].sequence == k
  }

  lemma {:induction false} NumberedPrefix(executions: seq<ProjectedExecution>)
    requires Numbered(executions) && executions != []
    ensures Numbered(executions[..|executions| - 1])
    ensures var last := executions[|executions| - 1];
      last.sequence == CountExecutions(executions[..|executions| - 1], last.node) + 1
  {
    var init := executions[..|executions| - 1];
    assert executions[..|executions|] == executions;
    assert NumberedAt(executions, |init|);
    forall i | 0 <= i < |init|
      ensures NumberedAt(init, i)
    {
      assert NumberedAt(executions, i) && init[..i + 1] == executions[..i + 1];
    }
  }

  lemma {:induction false} HasSequenceSnoc(init: seq<ProjectedExecution>, last: ProjectedExecution, node: string,
      k: nat)
    ensures HasSequence(init + [last], node, k) <==>
      HasSequence(init, node, k) || (last.node == node && last.sequence == k)
  {
    var all := init + [last];
    if HasSequence(init, node, k) {
      var i :| 0 <= i < |init| && init[i].node == node && init[i].sequence == k;
      assert all[i] == init[i];
    }
    if last.node == node && last.sequence == k { assert all[|init|] == last; }
  }

  /** The sequences of one node's executions are exactly 1 up to their number. */
  lemma {:induction false} SequencesExact(executions: seq<ProjectedExecution>, node: string, k: nat)
    requires Numbered(executions)
    ensures HasSequence(executions, node, k) <==> 1 <= k <= CountExecutions(executions, node)
  {
    if executions != [] {
      var init, last := executions[..|executions| - 1], executions[|executions| - 1];
      NumberedPrefix(executions);
      SequencesExact(init, node, k);
      assert executions == init + [last];
      HasSequenceSnoc(init, last, node, k);
    }
  }

  lemma {:induction false} CountGrows(executions: seq<ProjectedExecution>, i: nat, j: nat, node: string)
    requires i <= j <= |executions|
    ensures CountExecutions(executions[..i], node) <= CountExecutions(executions[..j], node)
    decreases j
  {
    if i < j {
      assert executions[..j][..j - 1] == executions[..j - 1];
      CountGrows(executions, i, j - 1, node);
    }
  }

  lemma {:induction false} SequencesRise(executions: seq<ProjectedExecution>, i: nat, j: nat)
    requires Numbered(executions) && i < j < |executions| && executions[i].node == executions[j].node
    ensures executions[i].sequence < executions[j].sequence
  {
    CountGrows(executions, i + 1, j, executions[i].node);
    assert NumberedAt(executions, i) && NumberedAt(executions, j);
    assert executions[..j + 1][..j] == executions[..j];
  }

  lemma {:induction false} SequencesDistinct(executions: seq<ProjectedExecution>, i: nat, j: nat)
    requires Numbered(executions) && i < |executions| && j < |executions| && i != j &&
      executions[i].node == executions[j].node
    ensures executions[i].sequence != executions[j].sequence
  {
    if i < j { SequencesRise(executions, i, j); } else { SequencesRise(executions, j, i); }
  }

  lemma {:induction false} CountMoved(executions: seq<ProjectedExecution>, i: nat, e: ProjectedExecution, node: string)
    requires i < |executions| && executions[i].node == node && e.node != node
    ensures CountExecutions(executions[i := e], node) == CountExecutions(executions, node) - 1
  {
    var n := |executions| - 1;
    if i < n {
      assert executions[i := e][..n] == executions[..n][i := e];
      CountMoved(executions[..n], i, e, node);
    } else {
      assert executions[i := e][..n] == executions[..n];
    }
  }

  lemma {:induction false} HasSequenceMoved(executions: seq<ProjectedExecution>, i: nat, e: ProjectedExecution, k: nat)
    requires Numbered(executions) && i < |executions| && e.node != executions[i].node
    ensures HasSequence(executions[i := e], executions[i].node, k) <==>
      HasSequence(executions, executions[i].node, k) && k != executions[i].sequence
  {
    var node, next := executions[i].node, executions[i := e];
    if HasSequence(next, node, k) {
      var j :| 0 <= j < |next| && next[j].node == node && next[j].sequence == k;
      assert j != i && executions[j] == next[j];
      SequencesDistinct(executions, i, j);
    }
    if HasSequence(executions, node, k) && k != executions[i].sequence {
      var j :| 0 <= j < |executions| && executions[j].node == node && executions[j].sequence == k;
      assert next[j] == executions[j];
    }
  }
}
