/** Flattening of child Workflows into one list of nodes and edges. */
module Expansion {
  import opened Options
  import opened Lists
  import opened ExpandedIds
  import opened FreshIds

  datatype Capability = Operator | Child(workflow: nat)

  datatype SourceNode = SourceNode(id: string, capability: Capability, entrySelector: Option<string>,
    exitSelector: Option<string>, hasBehavior: bool, entry: bool)

  datatype SourceEdge = SourceEdge(id: Option<string>, from: string, into: string, mapped: bool)

  datatype Workflow = Workflow(nodes: seq<SourceNode>, edges: seq<SourceEdge>)

  /** local and path tell where the node was written: its id there, and the placeholders
      around it. */
  datatype FlatNode = FlatNode(id: string, local: string, path: seq<string>, entry: bool)

  datatype FlatEdge = FlatEdge(id: string, local: string, path: seq<string>, from: string, into: string)

  datatype Problem =
    | Recursion | SelectorInvalid | BehaviorUnsupported | MapUnsupported | EntryHasIncoming | BoundaryInvalid
    | BoundaryRequired | BoundaryMissing

  datatype Expanded = Expanded(nodes: seq<FlatNode>, edges: seq<FlatEdge>, inputs: map<string, string>,
    outputs: map<string, string>, problems: seq<Problem>)

  datatype Embedded = Embedded(nodes: seq<FlatNode>, edges: seq<FlatEdge>, entry: Option<string>,
    exit: Option<string>, problems: seq<Problem>)

  function NodeIds(nodes: seq<FlatNode>): (r: seq<string>)
    ensures |r| == |nodes| && forall i :: 0 <= i < |r| ==> r[i] == nodes[i].id
  {
    seq(|nodes|, i requires 0 <= i < |nodes| => nodes[i].id)
  }

  function EdgeIds(edges: seq<FlatEdge>): (r: seq<string>)
    ensures |r| == |edges| && forall i :: 0 <= i < |r| ==> r[i] == edges[i].id
  {
    seq(|edges|, i requires 0 <= i < |edges| => edges[i].id)
  }

  // ----- what an entry reaches -----

  ghost predicate ClosedUnder(nodes: seq<FlatNode>, edges: seq<FlatEdge>, ids: set<string>) {
    forall e :: e in edges && e.from in ids && e.from in NodeIds(nodes) ==> e.into in ids
  }

  ghost function Targets(entry: string, edges: seq<FlatEdge>): set<string> {
    {entry} + set e | e in edges :: e.into
  }

  ghost predicate InEveryClosed(entry: string, nodes: seq<FlatNode>, edges: seq<FlatEdge>, id: string) {
    forall s: set<string> :: entry in s && ClosedUnder(nodes, edges, s) ==> id in s
  }

  /** The least set that holds the entry and is closed under the edges. */
  ghost function LeastClosed(entry: string, nodes: seq<FlatNode>, edges: seq<FlatEdge>): set<string> {
    set id | id in Targets(entry, edges) && InEveryClosed(entry, nodes, edges, id)
  }

  lemma {:induction false} LeastClosedFacts(entry: string, nodes: seq<FlatNode>, edges: seq<FlatEdge>)
    ensures entry in LeastClosed(entry, nodes, edges) && ClosedUnder(nodes, edges, LeastClosed(entry, nodes, edges))
    ensures forall s: set<string> :: entry in s && ClosedUnder(nodes, edges, s) ==>
      LeastClosed(entry, nodes, edges) <= s
  {
    forall e | e in edges && e.from in LeastClosed(entry, nodes, edges) && e.from in NodeIds(nodes)
      ensures e.into in LeastClosed(entry, nodes, edges)
    {
      assert InEveryClosed(entry, nodes, edges, e.from);
    }
  }

  function SuccessorsOf(nodes: seq<FlatNode>, edges: seq<FlatEdge>, id: string): (r: seq<string>)
    ensures forall x :: x in r <==> id in NodeIds(nodes) && exists e :: e in edges && e.from == id && e.into == x
  {
    if edges == [] || id !in NodeIds(nodes) then []
    else
      var rest := SuccessorsOf(nodes, edges[1..], id);
      assert edges == [edges[0]] + edges[1..];
      if edges[0].from == id then [edges[0].into] + rest else rest
  }

  method ReachableNodeIds(entry: string, nodes: seq<FlatNode>, edges: seq<FlatEdge>) returns (reachable: set<string>)
    ensures entry in reachable && ClosedUnder(nodes, edges, reachable)
    ensures forall s: set<string> :: entry in s && ClosedUnder(nodes, edges, s) ==> reachable <= s
    ensures reachable == LeastClosed(entry, nodes, edges)
  {
    reachable := {};
    var pending := [entry];
    while pending != []
      invariant entry in reachable || entry in pending
      invariant forall x :: x in pending ==> x in Targets(entry, edges)
      invariant reachable <= Targets(entry, edges)
      invariant forall e :: e in edges && e.from in reachable && e.from in NodeIds(nodes) ==>
        e.into in reachable || e.into in pending
      invariant forall s: set<string> {:trigger ClosedUnder(nodes, edges, s)} ::
        entry in s && ClosedUnder(nodes, edges, s) ==> reachable <= s && forall x :: x in pending ==> x in s
      decreases |Targets(entry, edges) - reachable|, |pending|
    {
      var id := pending[|pending| - 1];
      ghost var before := pending;
      assert pending == pending[..|pending| - 1] + [id];
      pending := pending[..|pending| - 1];
      if id in reachable {
        continue;
      }
      assert Targets(entry, edges) - (reachable + {id}) == (Targets(entry, edges) - reachable) - {id};
      reachable := reachable + {id};
      pending := pending + SuccessorsOf(nodes, edges, id);
    }
    LeastClosedFacts(entry, nodes, edges);
  }

  // ----- pruning a child to what its entry reaches -----

  function KeepNodes(nodes: seq<FlatNode>, ids: set<string>): (r: seq<FlatNode>)
    ensures forall n :: n in r <==> n in nodes && n.id in ids
  {
    if nodes == [] then []
    else
      var init, last := KeepNodes(nodes[..|nodes| - 1], ids), nodes[|nodes| - 1];
      assert nodes == nodes[..|nodes| - 1] + [last];
      if last.id in ids then init + [last] else init
  }

  function KeepEdges(edges: seq<FlatEdge>, ids: set<string>): (r: seq<FlatEdge>)
    ensures forall e :: e in r <==> e in edges && e.from in ids
  {
    if edges == [] then []
    else
      var init, last := KeepEdges(edges[..|edges| - 1], ids), edges[|edges| - 1];
      assert edges == edges[..|edges| - 1] + [last];
      if last.from in ids then init + [last] else init
  }

  /** Only the first node with the entry's id may stay an entry, as the placeholder says. */
  function MarkEntry(nodes: seq<FlatNode>, entry: string, flag: bool): (r: seq<FlatNode>)
    ensures |r| == |nodes| && NodeIds(r) == NodeIds(nodes)
    ensures forall i :: 0 <= i < |r| ==> r[i].local == nodes[i].local && r[i].path == nodes[i].path
  {
    seq(|nodes|, i requires 0 <= i < |nodes| =>
      nodes[i].(entry := flag && nodes[i].id == entry && entry !in NodeIds(nodes[..i])))
  }

  // ----- choosing a child's entry and exit -----

  ghost function BoundaryOf(selector: Option<string>, candidates: map<string, string>): Option<string> {
    if selector.Some? then
      if selector.value in candidates then Some(candidates[selector.value]) else None
    else if |candidates| == 1 then
      assert candidates.Keys != {};
      var key :| key in candidates;
      Some(candidates[key])
    else None
  }

  ghost function BoundaryProblems(selector: Option<string>, candidates: map<string, string>): seq<Problem> {
    if BoundaryOf(selector, candidates).Some? then []
    else [if selector.Some? then BoundaryInvalid else if |candidates| == 0 then BoundaryMissing else BoundaryRequired]
  }

  lemma {:induction false} OnlyKey(candidates: map<string, string>, a: string, b: string)
    requires |candidates| == 1 && a in candidates && b in candidates
    ensures a == b
  {
    assert candidates.Keys == {a} + (candidates.Keys - {a});
    assert |candidates.Keys - {a}| == 0;
  }

  method SelectBoundary(selector: Option<string>, candidates: map<string, string>)
      returns (selected: Option<string>, problems: seq<Problem>)
    ensures selected.Some? <==> (if selector.Some? then selector.value in candidates else |candidates| == 1)
    ensures selected.Some? ==> selected.value in candidates.Values && problems == []
    ensures selected.Some? && selector.Some? ==> selected.value == candidates[selector.value]
    ensures selected.None? ==>
      problems == [if selector.Some? then BoundaryInvalid else if |candidates| == 0 then BoundaryMissing
      else BoundaryRequired]
    ensures selected == BoundaryOf(selector, candidates) && problems == BoundaryProblems(selector, candidates)
  {
    if selector.Some? {
      if selector.value in candidates {
        return Some(candidates[selector.value]), [];
      }
      return None, [BoundaryInvalid];
    }
    if |candidates| == 1 {
      assert candidates.Keys != {};
      var key :| key in candidates;
      forall other | other in candidates
        ensures other == key
      {
        OnlyKey(candidates, other, key);
      }
      return Some(candidates[key]), [];
    }
    return None, [if |candidates| == 0 then BoundaryMissing else BoundaryRequired];
  }

  predicate HasIncoming(edges: seq<FlatEdge>, id: string) {
    exists e :: e in edges && e.into == id
  }

  predicate HasOutgoing(edges: seq<FlatEdge>, id: string) {
    exists e :: e in edges && e.from == id
  }

  function EntriesOf(e: Expanded): map<string, string> {
    map k | k in e.inputs && e.inputs[k] in NodeIds(e.nodes) && !HasIncoming(e.edges, e.inputs[k]) :: e.inputs[k]
  }

  function ExitsOf(e: Expanded): map<string, string> {
    map k | k in e.outputs && e.outputs[k] in NodeIds(e.nodes) && !HasOutgoing(e.edges, e.outputs[k]) :: e.outputs[k]
  }

  function Within(candidates: map<string, string>, ids: set<string>): map<string, string> {
    map k | k in candidates && candidates[k] in ids :: candidates[k]
  }

  // ----- edges of one Workflow -----

  function Resolve(endpoints: map<string, string>, ref: string): string {
    if ref in endpoints then endpoints[ref] else ref
  }

  function ExplicitIds(edges: seq<SourceEdge>): set<string> {
    set i | 0 <= i < |edges| && edges[i].id.Some? :: edges[i].id.value
  }

  /** An empty id counts as none. */
  predicate IdGiven(edge: SourceEdge) {
    edge.id.Some? && edge.id.value != ""
  }

  /** The last node with an id is the one found under it. */
  function TargetsChild(nodes: seq<SourceNode>, id: string): bool {
    if nodes == [] then false
    else
      var last := nodes[|nodes| - 1];
      if last.id == id then last.capability.Child? else TargetsChild(nodes[..|nodes| - 1], id)
  }

  function BaseId(edge: SourceEdge): string {
    "edge_" + edge.from + "_" + edge.into
  }

  ghost function LocalId(edge: SourceEdge, used: set<string>): string {
    if IdGiven(edge) then edge.id.value else FreshId(BaseId(edge), used)
  }

  ghost function Elements(ids: seq<string>): set<string> {
    set id | id in ids
  }

  /** The local ids of the edges; explicit holds those given by the author. */
  ghost function LocalIdsOf(edges: seq<SourceEdge>, explicit: set<string>): (r: seq<string>)
    ensures |r| == |edges|
  {
    if edges == [] then []
    else
      var before := LocalIdsOf(edges[..|edges| - 1], explicit);
      before + [LocalId(edges[|edges| - 1], explicit + Elements(before))]
  }

  ghost function FlatEdgeOf(path: seq<string>, edge: SourceEdge, local: string, inputs: map<string, string>,
      outputs: map<string, string>): FlatEdge {
    FlatEdge(Qualify(path, local), local, path, Resolve(outputs, edge.from), Resolve(inputs, edge.into))
  }

  ghost function OwnEdges(edges: seq<SourceEdge>, locals: seq<string>, path: seq<string>, inputs: map<string, string>,
      outputs: map<string, string>): (r: seq<FlatEdge>)
    requires |locals| == |edges|
    ensures |r| == |edges|
  {
    if edges == [] then []
    else
      var n := |edges| - 1;
      OwnEdges(edges[..n], locals[..n], path, inputs, outputs) +
        [FlatEdgeOf(path, edges[n], locals[n], inputs, outputs)]
  }

  ghost function EdgeProblems(nodes: seq<SourceNode>, edges: seq<SourceEdge>): seq<Problem> {
    if edges == [] then []
    else
      var last := edges[|edges| - 1];
      EdgeProblems(nodes, edges[..|edges| - 1]) +
        if TargetsChild(nodes, last.into) && last.mapped then [MapUnsupported] else []
  }

  ghost function EdgesOf(w: Workflow, path: seq<string>, inputs: map<string, string>,
      outputs: map<string, string>): seq<FlatEdge> {
    OwnEdges(w.edges, LocalIdsOf(w.edges, ExplicitIds(w.edges)), path, inputs, outputs)
  }

  method ExpandEdges(w: Workflow, path: seq<string>, inputs: map<string, string>, outputs: map<string, string>)
    returns (own: seq<FlatEdge>, problems: seq<Problem>)
    ensures own == EdgesOf(w, path, inputs, outputs)
    ensures problems == EdgeProblems(w.nodes, w.edges)
  {
    own, problems := [], [];
    var used := ExplicitIds(w.edges);
    ghost var locals := [];
    var k := 0;
    while k < |w.edges|
      invariant 0 <= k <= |w.edges|
      invariant LocalsTaken(w, k, locals, used) && own == OwnEdges(w.edges[..k], locals, path, inputs, outputs)
      invariant problems == EdgeProblems(w.nodes, w.edges[..k])
    {
      var edge := w.edges[k];
      var local;
      if IdGiven(edge) {
        local := edge.id.value;
      } else {
        local := GenerateEdgeId(BaseId(edge), used);
      }
      EdgeTaken(w, k, locals, used, local, path, inputs, outputs);
      used := used + {local};
      if TargetsChild(w.nodes, edge.into) && edge.mapped {
        problems := problems + [MapUnsupported];
      }
      own := own + [FlatEdge(Qualify(path, local), local, path, Resolve(outputs, edge.from),
        Resolve(inputs, edge.into))];
      locals := locals + [local];
      k := k + 1;
    }
    assert w.edges[..k] == w.edges;
  }

  ghost predicate LocalsTaken(w: Workflow, k: nat, locals: seq<string>, used: set<string>)
    requires k <= |w.edges|
  {
    |locals| == k && locals == LocalIdsOf(w.edges[..k], ExplicitIds(w.edges)) &&
      used == ExplicitIds(w.edges) + Elements(locals)
  }

  lemma {:induction false} EdgeTaken(w: Workflow, k: nat, locals: seq<string>, used: set<string>, local: string,
      path: seq<string>, inputs: map<string, string>, outputs: map<string, string>)
    requires k < |w.edges| && LocalsTaken(w, k, locals, used) && local == LocalId(w.edges[k], used)
    ensures LocalsTaken(w, k + 1, locals + [local], used + {local})
    ensures OwnEdges(w.edges[..k + 1], locals + [local], path, inputs, outputs) ==
      OwnEdges(w.edges[..k], locals, path, inputs, outputs) + [FlatEdgeOf(path, w.edges[k], local, inputs, outputs)]
    ensures EdgeProblems(w.nodes, w.edges[..k + 1]) ==
      EdgeProblems(w.nodes, w.edges[..k]) +
        if TargetsChild(w.nodes, w.edges[k].into) && w.edges[k].mapped then [MapUnsupported] else []
  {
    assert w.edges[..k + 1] == w.edges[..k] + [w.edges[k]];
    LocalIdsNext(w.edges[..k], w.edges[k], ExplicitIds(w.edges));
    OwnEdgesNext(w.edges[..k], w.edges[k], locals, local, path, inputs, outputs);
    EdgeProblemsNext(w.nodes, w.edges[..k], w.edges[k]);
  }

  lemma {:induction false} LocalIdsNext(edges: seq<SourceEdge>, edge: SourceEdge, explicit: set<string>)
    ensures LocalIdsOf(edges + [edge], explicit) ==
      LocalIdsOf(edges, explicit) + [LocalId(edge, explicit + Elements(LocalIdsOf(edges, explicit)))]
  {
    assert (edges + [edge])[..|edges|] == edges;
  }

  lemma {:induction false} OwnEdgesNext(edges: seq<SourceEdge>, edge: SourceEdge, locals: seq<string>, local: string,
      path: seq<string>, inputs: map<string, string>, outputs: map<string, string>)
    requires |locals| == |edges|
    ensures OwnEdges(edges + [edge], locals + [local], path, inputs, outputs) ==
      OwnEdges(edges, locals, path, inputs, outputs) + [FlatEdgeOf(path, edge, local, inputs, outputs)]
  {
    assert (edges + [edge])[..|edges|] == edges && (locals + [local])[..|edges|] == locals;
  }

  lemma {:induction false} EdgeProblemsNext(nodes: seq<SourceNode>, edges: seq<SourceEdge>, edge: SourceEdge)
    ensures EdgeProblems(nodes, edges + [edge]) == EdgeProblems(nodes, edges) +
      if TargetsChild(nodes, edge.into) && edge.mapped then [MapUnsupported] else []
  {
    assert (edges + [edge])[..|edges|] == edges;
  }

  // ----- the recursion -----

  predicate ChildrenExist(table: seq<Workflow>) {
    forall i, j :: 0 <= i < |table| && 0 <= j < |table[i].nodes| && table[i].nodes[j].capability.Child? ==>
      table[i].nodes[j].capability.workflow < |table|
  }

  ghost function AllIndexes(n: nat): (r: set<nat>)
    ensures forall i: nat :: i in r <==> i < n
  {
    if n == 0 then {} else AllIndexes(n - 1) + {n - 1}
  }

  /** The Workflows not being expanded yet: fewer at every level, so expansion ends. */
  ghost function Unvisited(table: seq<Workflow>, stack: set<nat>): set<nat> {
    AllIndexes(|table|) - stack
  }

  lemma {:induction false} UnvisitedShrinks(table: seq<Workflow>, stack: set<nat>, w: nat)
    requires w < |table| && w !in stack
    ensures |Unvisited(table, stack + {w})| < |Unvisited(table, stack)|
  {
    assert Unvisited(table, stack + {w}) == Unvisited(table, stack) - {w};
  }

  function SetDefault(endpoints: map<string, string>, key: string, value: string): map<string, string> {
    if key in endpoints then endpoints else endpoints[key := value]
  }

  const Nothing := Expanded([], [], map[], map[], [])

  function WithChild(p: Expanded, id: string, child: Embedded): Expanded {
    Expanded(p.nodes + child.nodes, p.edges + child.edges,
      if child.entry.Some? then SetDefault(p.inputs, id, child.entry.value) else p.inputs,
      if child.exit.Some? then SetDefault(p.outputs, id, child.exit.value) else p.outputs,
      p.problems + child.problems)
  }

  function WithOwn(p: Expanded, path: seq<string>, source: SourceNode): Expanded {
    var id := Qualify(path, source.id);
    Expanded(p.nodes + [FlatNode(id, source.id, path, source.entry)], p.edges, SetDefault(p.inputs, source.id, id),
      SetDefault(p.outputs, source.id, id),
      if source.entrySelector.Some? || source.exitSelector.Some? then p.problems + [SelectorInvalid] else p.problems)
  }

  function EntryProblems(nodes: seq<FlatNode>, edges: seq<FlatEdge>): seq<Problem> {
    if nodes == [] then []
    else
      var own := if nodes[0].entry && HasIncoming(edges, nodes[0].id) then [EntryHasIncoming] else [];
      own + EntryProblems(nodes[1..], edges)
  }

  /** The part of an expanded child that stays at a placeholder: what the chosen entry
      reaches, or nothing when no entry and exit can be chosen. */
  ghost function EmbeddingOf(node: SourceNode, sub: Expanded): Embedded {
    var problems := (if node.hasBehavior then [BehaviorUnsupported] else []) + sub.problems +
      BoundaryProblems(node.entrySelector, EntriesOf(sub));
    var entry := BoundaryOf(node.entrySelector, EntriesOf(sub));
    if entry.None? then Embedded([], [], None, None, problems)
    else PrunedTo(node, sub, entry.value, LeastClosed(entry.value, sub.nodes, sub.edges), problems)
  }

  ghost function PrunedTo(node: SourceNode, sub: Expanded, entry: string, kept: set<string>,
      problems: seq<Problem>): Embedded {
    var exits := Within(ExitsOf(sub), kept);
    var exit := BoundaryOf(node.exitSelector, exits);
    var problems := problems + BoundaryProblems(node.exitSelector, exits);
    if exit.None? then Embedded([], [], None, None, problems)
    else Embedded(MarkEntry(KeepNodes(sub.nodes, kept), entry, node.entry), KeepEdges(sub.edges, kept), Some(entry),
      exit, problems)
  }

  /** The edges of one Workflow joined to its expanded nodes. */
  ghost function Completed(w: Workflow, path: seq<string>, p: Expanded): Expanded {
    var edges := p.edges + EdgesOf(w, path, p.inputs, p.outputs);
    p.(edges := edges, problems := p.problems + EdgeProblems(w.nodes, w.edges) +
      if path != [] then EntryProblems(p.nodes, edges) else [])
  }

  /** The groups the source nodes were expanded to, put together. */
  ghost function Gather(nodes: seq<SourceNode>, groups: seq<Embedded>): Expanded
    requires |nodes| == |groups|
  {
    if nodes == [] then Nothing
    else
      var n := |nodes| - 1;
      WithChild(Gather(nodes[..n], groups[..n]), nodes[n].id, groups[n])
  }

  /** What one source node adds: itself, or the part of its child that stays. */
  ghost function GroupOf(table: seq<Workflow>, source: SourceNode, path: seq<string>, stack: set<nat>): Embedded
    requires ChildrenExist(table) && (source.capability.Child? ==> source.capability.workflow < |table|)
    decreases |Unvisited(table, stack)|, 1, 0
  {
    if source.capability.Child? then
      EmbeddingOf(source, Expand(table, source.capability.workflow, path + [source.id], stack))
    else
      var id := Qualify(path, source.id);
      Embedded([FlatNode(id, source.id, path, source.entry)], [], Some(id), Some(id),
        if source.entrySelector.Some? || source.exitSelector.Some? then [SelectorInvalid] else [])
  }

  ghost function GroupsUpTo(table: seq<Workflow>, w: nat, k: nat, path: seq<string>,
      stack: set<nat>): (groups: seq<Embedded>)
    requires ChildrenExist(table) && w < |table| && k <= |table[w].nodes|
    ensures |groups| == k
    decreases |Unvisited(table, stack)|, 2, k
  {
    if k == 0 then []
    else GroupsUpTo(table, w, k - 1, path, stack) + [GroupOf(table, table[w].nodes[k - 1], path, stack)]
  }

  ghost function NodesOf(table: seq<Workflow>, w: nat, path: seq<string>, stack: set<nat>): Expanded
    requires ChildrenExist(table) && w < |table|
    decreases |Unvisited(table, stack)|, 3, 0
  {
    Gather(table[w].nodes, GroupsUpTo(table, w, |table[w].nodes|, path, stack))
  }

  /** A Workflow met again inside itself expands to nothing. */
  ghost function Expand(table: seq<Workflow>, w: nat, path: seq<string>, stack: set<nat>): Expanded
    requires ChildrenExist(table) && w < |table|
    decreases |Unvisited(table, stack)|, 0, 0
  {
    if w in stack then Nothing.(problems := [Recursion])
    else
      UnvisitedShrinks(table, stack, w);
      Completed(table[w], path, NodesOf(table, w, path, stack + {w}))
  }

  lemma {:induction false} GroupsUpToAt(table: seq<Workflow>, w: nat, k: nat, path: seq<string>, stack: set<nat>,
      i: nat)
    requires ChildrenExist(table) && w < |table| && i < k <= |table[w].nodes|
    ensures GroupsUpTo(table, w, k, path, stack)[i] == GroupOf(table, table[w].nodes[i], path, stack)
    decreases k
  {
    if i < k - 1 {
      GroupsUpToAt(table, w, k - 1, path, stack, i);
      assert GroupsUpTo(table, w, k, path, stack)[i] == GroupsUpTo(table, w, k - 1, path, stack)[i];
    }
  }

  lemma {:induction false} GatherNext(nodes: seq<SourceNode>, groups: seq<Embedded>, source: SourceNode,
      group: Embedded)
    requires |nodes| == |groups|
    ensures Gather(nodes + [source], groups + [group]) == WithChild(Gather(nodes, groups), source.id, group)
  {
    assert (nodes + [source])[..|nodes|] == nodes && (groups + [group])[..|nodes|] == groups;
  }

  lemma {:induction false} OwnIsGroup(table: seq<Workflow>, p: Expanded, source: SourceNode, path: seq<string>,
      stack: set<nat>)
    requires ChildrenExist(table) && !source.capability.Child?
    ensures WithOwn(p, path, source) == WithChild(p, source.id, GroupOf(table, source, path, stack))
  {
    assert p.edges + [] == p.edges && p.problems + [] == p.problems;
  }

  method ExpandChildNode(table: seq<Workflow>, node: SourceNode, path: seq<string>, stack: set<nat>)
      returns (child: Embedded)
    requires ChildrenExist(table) && node.capability.Child? && node.capability.workflow < |table|
    decreases |Unvisited(table, stack)|, 1, 0
    ensures child == EmbeddingOf(node, Expand(table, node.capability.workflow, path + [node.id], stack))
  {
    var problems := if node.hasBehavior then [BehaviorUnsupported] else [];
    var sub := ExpandWorkflow(table, node.capability.workflow, path + [node.id], stack);
    var entry, entryProblems := SelectBoundary(node.entrySelector, EntriesOf(sub));
    problems := problems + sub.problems + entryProblems;
    if entry.None? {
      return Embedded([], [], None, None, problems);
    }
    var reachable := ReachableNodeIds(entry.value, sub.nodes, sub.edges);
    var exit, exitProblems := SelectBoundary(node.exitSelector, Within(ExitsOf(sub), reachable));
    problems := problems + exitProblems;
    if exit.None? {
      return Embedded([], [], None, None, problems);
    }
    var nodes := MarkEntry(KeepNodes(sub.nodes, reachable), entry.value, node.entry);
    child := Embedded(nodes, KeepEdges(sub.edges, reachable), entry, exit, problems);
  }

  method ExpandNodes(table: seq<Workflow>, w: nat, path: seq<string>, stack: set<nat>) returns (p: Expanded)
    requires ChildrenExist(table) && w < |table|
    decreases |Unvisited(table, stack)|, 2, 0
    ensures p == NodesOf(table, w, path, stack)
  {
    p := Nothing;
    var k := 0;
    while k < |table[w].nodes|
      invariant 0 <= k <= |table[w].nodes|
      invariant p == NodesUpTo(table, w, k, path, stack)
    {
      var source := table[w].nodes[k];
      NodesUpToNext(table, w, k, path, stack);
      if source.capability.Child? {
        var child := ExpandChildNode(table, source, path, stack);
        p := WithChild(p, source.id, child);
      } else {
        OwnIsGroup(table, p, source, path, stack);
        p := WithOwn(p, path, source);
      }
      k := k + 1;
    }
    assert table[w].nodes[..k] == table[w].nodes;
  }

  ghost function NodesUpTo(table: seq<Workflow>, w: nat, k: nat, path: seq<string>, stack: set<nat>): Expanded
    requires ChildrenExist(table) && w < |table| && k <= |table[w].nodes|
  {
    Gather(table[w].nodes[..k], GroupsUpTo(table, w, k, path, stack))
  }

  lemma {:induction false} NodesUpToNext(table: seq<Workflow>, w: nat, k: nat, path: seq<string>, stack: set<nat>)
    requires ChildrenExist(table) && w < |table| && k < |table[w].nodes|
    ensures NodesUpTo(table, w, k + 1, path, stack) ==
      WithChild(NodesUpTo(table, w, k, path, stack), table[w].nodes[k].id,
        GroupOf(table, table[w].nodes[k], path, stack))
  {
    assert table[w].nodes[..k + 1] == table[w].nodes[..k] + [table[w].nodes[k]];
    GatherNext(table[w].nodes[..k], GroupsUpTo(table, w, k, path, stack), table[w].nodes[k],
      GroupOf(table, table[w].nodes[k], path, stack));
  }

  method ExpandWorkflow(table: seq<Workflow>, w: nat, path: seq<string>, stack: set<nat>) returns (e: Expanded)
    requires ChildrenExist(table) && w < |table|
    decreases |Unvisited(table, stack)|, 0, 0
    ensures e == Expand(table, w, path, stack)
  {
    if w in stack {
      return Expanded([], [], map[], map[], [Recursion]);
    }
    UnvisitedShrinks(table, stack, w);
    var p := ExpandNodes(table, w, path, stack + {w});
    var own, edgeProblems := ExpandEdges(table[w], path, p.inputs, p.outputs);
    var edges := p.edges + own;
    var problems := p.problems + edgeProblems + if path != [] then EntryProblems(p.nodes, edges) else [];
    e := Expanded(p.nodes, edges, p.inputs, p.outputs, problems);
  }
}
