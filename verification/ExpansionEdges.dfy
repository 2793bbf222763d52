/** What flattening does to the edges: both ends stay known, every embedded node keeps its
    outgoing edges, and edges of a placeholder move to the chosen entry and exit. */
module ExpansionEdges {
  import opened Options
  import opened Lists
  import opened ExpandedIds
  import opened Expansion
  import opened ExpansionNames

  // ----- pruning -----

  ghost function OutEdges(edges: seq<FlatEdge>, id: string): seq<FlatEdge> {
    if edges == [] then []
    else OutEdges(edges[..|edges| - 1], id) + if edges[|edges| - 1].from == id then [edges[|edges| - 1]] else []
  }

  /** Pruning leaves the outgoing edges of every kept id as they were. */
  lemma {:induction false} PruningKeepsSuccessors(edges: seq<FlatEdge>, ids: set<string>, id: string)
    requires id in ids
    ensures OutEdges(KeepEdges(edges, ids), id) == OutEdges(edges, id)
  {
    if edges != [] {
      var init, last := edges[..|edges| - 1], edges[|edges| - 1];
      PruningKeepsSuccessors(init, ids, id);
      if last.from in ids {
        assert KeepEdges(edges, ids)[..|KeepEdges(init, ids)|] == KeepEdges(init, ids);
      }
    }
  }

  /** Both ends of every edge are nodes. */
  ghost predicate EndsKnown(nodes: seq<FlatNode>, edges: seq<FlatEdge>) {
    forall e :: e in edges ==> e.from in NodeIds(nodes) && e.into in NodeIds(nodes)
  }

  lemma {:induction false} InNodeIds(nodes: seq<FlatNode>, id: string)
    ensures id in NodeIds(nodes) <==> exists n :: n in nodes && n.id == id
  {
    if id in NodeIds(nodes) {
      var i :| 0 <= i < |nodes| && NodeIds(nodes)[i] == id;
      assert nodes[i] in nodes && nodes[i].id == id;
    }
    if n :| n in nodes && n.id == id {
      var i :| 0 <= i < |nodes| && nodes[i] == n;
      assert NodeIds(nodes)[i] == id;
    }
  }

  lemma {:induction false} KeptId(nodes: seq<FlatNode>, ids: set<string>, id: string)
    ensures id in NodeIds(KeepNodes(nodes, ids)) <==> id in NodeIds(nodes) && id in ids
  {
    InNodeIds(nodes, id);
    InNodeIds(KeepNodes(nodes, ids), id);
  }

  /** A kept edge has both its ends among the kept nodes. */
  lemma {:induction false} PruningKeepsEnds(nodes: seq<FlatNode>, edges: seq<FlatEdge>, ids: set<string>)
    requires ClosedUnder(nodes, edges, ids) && EndsKnown(nodes, edges)
    ensures EndsKnown(KeepNodes(nodes, ids), KeepEdges(edges, ids))
  {
    forall e | e in KeepEdges(edges, ids)
      ensures e.from in NodeIds(KeepNodes(nodes, ids)) && e.into in NodeIds(KeepNodes(nodes, ids))
    {
      KeptId(nodes, ids, e.from);
      KeptId(nodes, ids, e.into);
    }
  }

  /** An embedded child is what its entry reaches: exactly the least closed set of nodes,
      each with the outgoing edges it has in the child alone. */
  lemma {:induction false} EmbeddingKeepsSuccessors(node: SourceNode, sub: Expanded, id: string)
    requires EmbeddingOf(node, sub).entry.Some?
    ensures var group := EmbeddingOf(node, sub);
      var kept := LeastClosed(group.entry.value, sub.nodes, sub.edges);
      && (id in NodeIds(group.nodes) <==> id in kept && id in NodeIds(sub.nodes))
      && (id in kept ==> OutEdges(group.edges, id) == OutEdges(sub.edges, id))
      && (id !in kept ==> OutEdges(group.edges, id) == [])
  {
    var group := EmbeddingOf(node, sub);
    var kept := LeastClosed(group.entry.value, sub.nodes, sub.edges);
    KeptId(sub.nodes, kept, id);
    if id in kept {
      PruningKeepsSuccessors(sub.edges, kept, id);
    } else {
      NoneFrom(group.edges, id);
    }
  }

  lemma {:induction false} NoneFrom(edges: seq<FlatEdge>, id: string)
    requires forall e :: e in edges ==> e.from != id
    ensures OutEdges(edges, id) == []
  {
    if edges != [] {
      NoneFrom(edges[..|edges| - 1], id);
    }
  }

  lemma {:induction false} OutEdgesConcat(a: seq<FlatEdge>, b: seq<FlatEdge>, id: string)
    ensures OutEdges(a + b, id) == OutEdges(a, id) + OutEdges(b, id)
  {
    if b == [] {
      assert a + b == a;
    } else {
      var init, last := b[..|b| - 1], b[|b| - 1];
      assert (a + b)[..|a + b| - 1] == a + init && (a + b)[|a + b| - 1] == last;
      OutEdgesConcat(a, init, id);
    }
  }

  // ----- both ends of every edge are nodes -----

  ghost predicate HasNode(nodes: seq<SourceNode>, id: string) {
    exists i :: 0 <= i < |nodes| && nodes[i].id == id
  }

  ghost predicate RefsKnown(w: Workflow) {
    forall k :: 0 <= k < |w.edges| ==> HasNode(w.nodes, w.edges[k].from) && HasNode(w.nodes, w.edges[k].into)
  }

  ghost predicate AllRefsKnown(table: seq<Workflow>) {
    forall i :: 0 <= i < |table| ==> RefsKnown(table[i])
  }

  ghost predicate GroupKnown(group: Embedded) {
    group.problems == [] ==>
      && EndsKnown(group.nodes, group.edges)
      && group.entry.Some? && group.entry.value in NodeIds(group.nodes)
      && group.exit.Some? && group.exit.value in NodeIds(group.nodes)
  }

  /** Every source node has endpoints, and all endpoints are nodes. */
  ghost predicate EndpointsKnown(nodes: seq<SourceNode>, p: Expanded) {
    && (forall i :: 0 <= i < |nodes| ==> nodes[i].id in p.inputs && nodes[i].id in p.outputs)
    && (forall key :: key in p.inputs ==> p.inputs[key] in NodeIds(p.nodes))
    && (forall key :: key in p.outputs ==> p.outputs[key] in NodeIds(p.nodes))
  }

  lemma {:induction false} NoneFromOutside(nodes: seq<FlatNode>, edges: seq<FlatEdge>, id: string)
    requires EndsKnown(nodes, edges) && id !in NodeIds(nodes)
    ensures OutEdges(edges, id) == []
  {
    NoneFrom(edges, id);
  }

  lemma {:induction false} NodeIdsConcat(a: seq<FlatNode>, b: seq<FlatNode>)
    ensures NodeIds(a + b) == NodeIds(a) + NodeIds(b)
  {
  }

  lemma {:induction false} BoundaryAmong(selector: Option<string>, candidates: map<string, string>)
    requires BoundaryProblems(selector, candidates) == []
    ensures BoundaryOf(selector, candidates).Some? && BoundaryOf(selector, candidates).value in candidates.Values
  {
  }

  lemma {:induction false} EmbeddingChosen(node: SourceNode, sub: Expanded)
    requires EmbeddingOf(node, sub).problems == []
    ensures var group := EmbeddingOf(node, sub);
      && sub.problems == []
      && group.entry.Some? && group.entry.value in EntriesOf(sub).Values
      && group.exit.Some? && group.exit.value in Within(ExitsOf(sub),
        LeastClosed(group.entry.value, sub.nodes, sub.edges)).Values
  {
    assert BoundaryProblems(node.entrySelector, EntriesOf(sub)) == [];
    BoundaryAmong(node.entrySelector, EntriesOf(sub));
    var kept := LeastClosed(BoundaryOf(node.entrySelector, EntriesOf(sub)).value, sub.nodes, sub.edges);
    assert BoundaryProblems(node.exitSelector, Within(ExitsOf(sub), kept)) == [];
    BoundaryAmong(node.exitSelector, Within(ExitsOf(sub), kept));
  }

  lemma {:induction false} EmbeddingKnown(node: SourceNode, sub: Expanded)
    requires sub.problems == [] ==> EndsKnown(sub.nodes, sub.edges)
    ensures GroupKnown(EmbeddingOf(node, sub))
  {
    var group := EmbeddingOf(node, sub);
    if group.problems == [] {
      EmbeddingChosen(node, sub);
      var entry := group.entry.value;
      var kept := LeastClosed(entry, sub.nodes, sub.edges);
      LeastClosedFacts(entry, sub.nodes, sub.edges);
      PruningKeepsEnds(sub.nodes, sub.edges, kept);
      KeptId(sub.nodes, kept, entry);
      KeptId(sub.nodes, kept, group.exit.value);
    }
  }

  lemma {:induction false} WithChildKnown(nodes: seq<SourceNode>, source: SourceNode, p: Expanded, group: Embedded)
    requires EndsKnown(p.nodes, p.edges) && EndpointsKnown(nodes, p) && GroupKnown(group) && group.problems == []
    ensures var q := WithChild(p, source.id, group); EndsKnown(q.nodes, q.edges)
    ensures EndpointsKnown(nodes + [source], WithChild(p, source.id, group))
  {
    NodeIdsConcat(p.nodes, group.nodes);
  }

  lemma {:induction false} NoProblems(nodes: seq<SourceNode>, groups: seq<Embedded>)
    requires |nodes| == |groups| && Gather(nodes, groups).problems == []
    ensures forall i :: 0 <= i < |groups| ==> groups[i].problems == []
  {
    if nodes != [] {
      var n := |nodes| - 1;
      assert |Gather(nodes[..n], groups[..n]).problems| + |groups[n].problems| == 0;
      NoProblems(nodes[..n], groups[..n]);
      forall i | 0 <= i < n
        ensures groups[i].problems == []
      {
        assert groups[i] == groups[..n][i];
      }
    }
  }

  ghost predicate AllKnown(groups: seq<Embedded>) {
    forall i :: 0 <= i < |groups| ==> GroupKnown(groups[i]) && groups[i].problems == []
  }

  lemma {:induction false} AllKnownSplit(groups: seq<Embedded>)
    requires AllKnown(groups) && groups != []
    ensures AllKnown(groups[..|groups| - 1]) && GroupKnown(groups[|groups| - 1]) && groups[|groups| - 1].problems == []
  {
  }

  lemma {:induction false} GatherKnown(nodes: seq<SourceNode>, groups: seq<Embedded>)
    requires |nodes| == |groups| && AllKnown(groups)
    ensures EndsKnown(Gather(nodes, groups).nodes, Gather(nodes, groups).edges) &&
      EndpointsKnown(nodes, Gather(nodes, groups))
  {
    if nodes != [] {
      var n := |nodes| - 1;
      AllKnownSplit(groups);
      GatherKnown(nodes[..n], groups[..n]);
      WithChildKnown(nodes[..n], nodes[n], Gather(nodes[..n], groups[..n]), groups[n]);
      assert nodes[..n] + [nodes[n]] == nodes;
    }
  }

  lemma {:induction false} OwnEdgesKnown(w: Workflow, path: seq<string>, p: Expanded)
    requires RefsKnown(w) && EndpointsKnown(w.nodes, p)
    ensures EndsKnown(p.nodes, EdgesOf(w, path, p.inputs, p.outputs))
  {
    var own := EdgesOf(w, path, p.inputs, p.outputs);
    forall e | e in own
      ensures e.from in NodeIds(p.nodes) && e.into in NodeIds(p.nodes)
    {
      var k :| 0 <= k < |own| && own[k] == e;
      OwnEdgeAt(w.edges, LocalIdsOf(w.edges, ExplicitIds(w.edges)), path, p.inputs, p.outputs, k);
      assert HasNode(w.nodes, w.edges[k].from) && HasNode(w.nodes, w.edges[k].into);
    }
  }

  lemma {:induction false} GroupIsKnown(table: seq<Workflow>, source: SourceNode, path: seq<string>, stack: set<nat>)
    requires ChildrenExist(table) && AllRefsKnown(table) &&
      (source.capability.Child? ==> source.capability.workflow < |table|)
    ensures GroupKnown(GroupOf(table, source, path, stack))
    decreases |Unvisited(table, stack)|, 1, 0
  {
    if source.capability.Child? {
      var sub := Expand(table, source.capability.workflow, path + [source.id], stack);
      if sub.problems == [] { ExpansionKnown(table, source.capability.workflow, path + [source.id], stack); }
      EmbeddingKnown(source, sub);
    } else {
      assert NodeIds(GroupOf(table, source, path, stack).nodes)[0] == Qualify(path, source.id);
    }
  }

  lemma {:induction false} GroupsKnown(table: seq<Workflow>, w: nat, path: seq<string>, stack: set<nat>)
    requires ChildrenExist(table) && AllRefsKnown(table) && w < |table|
    ensures forall i :: 0 <= i < |table[w].nodes| ==> GroupKnown(GroupsUpTo(table, w, |table[w].nodes|, path, stack)[i])
    decreases |Unvisited(table, stack)|, 2, 0
  {
    var n := |table[w].nodes|;
    forall i | 0 <= i < n
      ensures GroupKnown(GroupsUpTo(table, w, n, path, stack)[i])
    {
      GroupsUpToAt(table, w, n, path, stack, i);
      GroupIsKnown(table, table[w].nodes[i], path, stack);
    }
  }

  /** An expansion without problems has every node's endpoints and every edge's ends among
      its nodes. */
  lemma {:induction false} ExpansionKnown(table: seq<Workflow>, w: nat, path: seq<string>, stack: set<nat>)
    requires ChildrenExist(table) && AllRefsKnown(table) && w < |table| && Expand(table, w, path, stack).problems == []
    ensures EndsKnown(Expand(table, w, path, stack).nodes, Expand(table, w, path, stack).edges)
    ensures EndpointsKnown(table[w].nodes, Expand(table, w, path, stack))
    decreases |Unvisited(table, stack)|, 0, 0
  {
    UnvisitedShrinks(table, stack, w);
    var inner := stack + {w};
    var p := NodesOf(table, w, path, inner);
    GroupsKnown(table, w, path, inner);
    NoProblems(table[w].nodes, GroupsUpTo(table, w, |table[w].nodes|, path, inner));
    GatherKnown(table[w].nodes, GroupsUpTo(table, w, |table[w].nodes|, path, inner));
    OwnEdgesKnown(table[w], path, p);
  }

  // ----- where edges go -----

  ghost predicate EndpointsExact(nodes: seq<SourceNode>, groups: seq<Embedded>, p: Expanded)
    requires |nodes| == |groups|
  {
    forall i :: 0 <= i < |nodes| ==>
      && (nodes[i].id in p.inputs <==> groups[i].entry.Some?) &&
        (nodes[i].id in p.inputs ==> p.inputs[nodes[i].id] == groups[i].entry.value)
      && (nodes[i].id in p.outputs <==> groups[i].exit.Some?) &&
        (nodes[i].id in p.outputs ==> p.outputs[nodes[i].id] == groups[i].exit.value)
  }

  ghost predicate KeysAmong(nodes: seq<SourceNode>, p: Expanded) {
    forall key :: key in p.inputs || key in p.outputs ==> HasNode(nodes, key)
  }

  lemma {:induction false} HasNodeNext(nodes: seq<SourceNode>, source: SourceNode, key: string)
    ensures HasNode(nodes + [source], key) <==> HasNode(nodes, key) || key == source.id
  {
    if HasNode(nodes, key) {
      var i :| 0 <= i < |nodes| && nodes[i].id == key;
      assert (nodes + [source])[i].id == key;
    }
    assert (nodes + [source])[|nodes|] == source;
  }

  lemma {:induction false} WithChildEndpoints(nodes: seq<SourceNode>, groups: seq<Embedded>, source: SourceNode,
      p: Expanded, group: Embedded)
    requires |nodes| == |groups| && EndpointsExact(nodes, groups, p) && KeysAmong(nodes, p) &&
      !HasNode(nodes, source.id)
    ensures EndpointsExact(nodes + [source], groups + [group], WithChild(p, source.id, group))
    ensures KeysAmong(nodes + [source], WithChild(p, source.id, group))
  {
    var q := WithChild(p, source.id, group);
    forall key | key in q.inputs || key in q.outputs
      ensures HasNode(nodes + [source], key)
    {
      HasNodeNext(nodes, source, key);
    }
    forall i | 0 <= i < |nodes|
      ensures nodes[i].id != source.id
    {
    }
  }

  /** A node's endpoints are the entry and exit of what it was expanded to. */
  lemma {:induction false} GatherEndpoints(nodes: seq<SourceNode>, groups: seq<Embedded>)
    requires |nodes| == |groups| && forall i, j :: 0 <= i < j < |nodes| ==> nodes[i].id != nodes[j].id
    ensures EndpointsExact(nodes, groups, Gather(nodes, groups)) && KeysAmong(nodes, Gather(nodes, groups))
  {
    if nodes != [] {
      var n := |nodes| - 1;
      GatherEndpoints(nodes[..n], groups[..n]);
      WithChildEndpoints(nodes[..n], groups[..n], nodes[n], Gather(nodes[..n], groups[..n]), groups[n]);
      assert nodes[..n] + [nodes[n]] == nodes && groups[..n] + [groups[n]] == groups;
    }
  }

  /** Groups of different nodes share no id. */
  lemma {:induction false} GatherApartIds(nodes: seq<SourceNode>, groups: seq<Embedded>, i: nat, id: string)
    requires |nodes| == |groups| && i < |nodes|
    requires Distinct(NodeIds(Gather(nodes, groups).nodes)) && id in NodeIds(groups[i].nodes)
    ensures forall j :: 0 <= j < |groups| && j != i ==> id !in NodeIds(groups[j].nodes)
  {
    var n := |nodes| - 1;
    GatherSplits(nodes, groups);
    forall j | 0 <= j < n && j != i
      ensures id !in NodeIds(groups[..n][j].nodes)
    {
      if i == n {
        GatherHolds(nodes[..n], groups[..n], j, id);
      } else {
        GatherApartIds(nodes[..n], groups[..n], i, id);
      }
    }
    if i < n { GatherHolds(nodes[..n], groups[..n], i, id); }
  }

  lemma {:induction false} GatherSplits(nodes: seq<SourceNode>, groups: seq<Embedded>)
    requires |nodes| == |groups| && nodes != [] && Distinct(NodeIds(Gather(nodes, groups).nodes))
    ensures var n := |nodes| - 1; Distinct(NodeIds(Gather(nodes[..n], groups[..n]).nodes))
    ensures var n := |nodes| - 1; forall id :: id in NodeIds(Gather(nodes[..n], groups[..n]).nodes) ==>
      id !in NodeIds(groups[n].nodes)
  {
    var n := |nodes| - 1;
    NodeIdsConcat(Gather(nodes[..n], groups[..n]).nodes, groups[n].nodes);
    DistinctParts(NodeIds(Gather(nodes[..n], groups[..n]).nodes), NodeIds(groups[n].nodes));
  }

  lemma {:induction false} NewNodeSuccessors(p: Expanded, key: string, group: Embedded, id: string)
    requires EndsKnown(p.nodes, p.edges) && id !in NodeIds(p.nodes)
    ensures OutEdges(WithChild(p, key, group).edges, id) == OutEdges(group.edges, id)
  {
    OutEdgesConcat(p.edges, group.edges, id);
    NoneFromOutside(p.nodes, p.edges, id);
  }

  lemma {:induction false} OldNodeSuccessors(p: Expanded, key: string, group: Embedded, id: string)
    requires EndsKnown(group.nodes, group.edges) && id !in NodeIds(group.nodes)
    ensures OutEdges(WithChild(p, key, group).edges, id) == OutEdges(p.edges, id)
  {
    OutEdgesConcat(p.edges, group.edges, id);
    NoneFromOutside(group.nodes, group.edges, id);
  }

  /** A group's nodes keep just the group's edges. */
  lemma {:induction false} GatherSuccessors(nodes: seq<SourceNode>, groups: seq<Embedded>, i: nat, id: string)
    requires |nodes| == |groups| && i < |nodes| && AllKnown(groups)
    requires Distinct(NodeIds(Gather(nodes, groups).nodes)) && id in NodeIds(groups[i].nodes)
    ensures OutEdges(Gather(nodes, groups).edges, id) == OutEdges(groups[i].edges, id)
  {
    var n := |nodes| - 1;
    var p := Gather(nodes[..n], groups[..n]);
    GatherSplits(nodes, groups);
    AllKnownSplit(groups);
    if i == n {
      GatherKnown(nodes[..n], groups[..n]);
      NewNodeSuccessors(p, nodes[n].id, groups[n], id);
    } else {
      GatherSuccessors(nodes[..n], groups[..n], i, id);
      GatherHolds(nodes[..n], groups[..n], i, id);
      OldNodeSuccessors(p, nodes[n].id, groups[n], id);
    }
  }

  lemma {:induction false} DistinctParts(a: seq<string>, b: seq<string>)
    requires Distinct(a + b)
    ensures Distinct(a) && Distinct(b) && forall x :: x in a ==> x !in b
  {
    var all := a + b;
    forall i, j | 0 <= i < j < |a| ensures a[i] != a[j] { assert all[i] == a[i] && all[j] == a[j]; }
    forall i, j | 0 <= i < j < |b| ensures b[i] != b[j] { assert all[|a| + i] == b[i] && all[|a| + j] == b[j]; }
    forall i, j | 0 <= i < |a| && 0 <= j < |b| ensures a[i] != b[j] { assert all[i] == a[i] && all[|a| + j] == b[j]; }
  }

  lemma {:induction false} GatherHolds(nodes: seq<SourceNode>, groups: seq<Embedded>, j: nat, id: string)
    requires |nodes| == |groups| && j < |nodes|
    ensures id in NodeIds(groups[j].nodes) ==> id in NodeIds(Gather(nodes, groups).nodes)
  {
    var n := |nodes| - 1;
    NodeIdsConcat(Gather(nodes[..n], groups[..n]).nodes, groups[n].nodes);
    if j < n { GatherHolds(nodes[..n], groups[..n], j, id); }
  }

  /** The part of an expansion's edges a Workflow adds itself. */
  ghost function OwnEdgesIn(table: seq<Workflow>, w: nat, path: seq<string>, stack: set<nat>): seq<FlatEdge>
    requires ChildrenExist(table) && w < |table|
  {
    var p := NodesOf(table, w, path, stack + {w});
    EdgesOf(table[w], path, p.inputs, p.outputs)
  }

  ghost function GroupIn(table: seq<Workflow>, w: nat, i: nat, path: seq<string>, stack: set<nat>): Embedded
    requires ChildrenExist(table) && w < |table| && i < |table[w].nodes|
  {
    GroupOf(table, table[w].nodes[i], path, stack + {w})
  }

  /** Every edge of a Workflow leads from the exit of what its source was expanded to, to
      the entry of what its target was expanded to. */
  lemma {:induction false} OwnEdgeJoins(table: seq<Workflow>, w: nat, path: seq<string>, stack: set<nat>, k: nat,
      i: nat, j: nat)
    requires ChildrenExist(table) && AllUnique(table) && AllRefsKnown(table) && w < |table| && w !in stack
    requires Expand(table, w, path, stack).problems == []
    requires k < |table[w].edges| && i < |table[w].nodes| && j < |table[w].nodes|
    requires table[w].edges[k].from == table[w].nodes[i].id && table[w].edges[k].into == table[w].nodes[j].id
    ensures k < |OwnEdgesIn(table, w, path, stack)|
    ensures Some(OwnEdgesIn(table, w, path, stack)[k].from) == GroupIn(table, w, i, path, stack).exit
    ensures Some(OwnEdgesIn(table, w, path, stack)[k].into) == GroupIn(table, w, j, path, stack).entry
  {
    var nodes, inner := table[w].nodes, stack + {w};
    var groups := GroupsUpTo(table, w, |nodes|, path, inner);
    var p := NodesOf(table, w, path, inner);
    GroupsUpToAt(table, w, |nodes|, path, inner, i);
    GroupsUpToAt(table, w, |nodes|, path, inner, j);
    GatherEndpoints(nodes, groups);
    OwnEdgeAt(table[w].edges, LocalIdsOf(table[w].edges, ExplicitIds(table[w].edges)), path, p.inputs, p.outputs, k);
    GroupsKnown(table, w, path, inner);
    NoProblems(nodes, groups);
    GatherKnown(nodes, groups);
  }

  lemma {:induction false} OutOfOwnEdges(edges: seq<SourceEdge>, locals: seq<string>, path: seq<string>,
      inputs: map<string, string>, outputs: map<string, string>, id: string)
    requires |locals| == |edges|
    requires forall k :: 0 <= k < |edges| ==> Resolve(outputs, edges[k].from) != id
    ensures OutEdges(OwnEdges(edges, locals, path, inputs, outputs), id) == []
  {
    if edges != [] {
      var n := |edges| - 1;
      OutOfOwnEdges(edges[..n], locals[..n], path, inputs, outputs, id);
    }
  }

  /** The flattened Workflow keeps the outgoing edges of every node of an expanded node;
      only at its exit they are followed by the edges its Workflow draws from that node. */
  lemma {:induction false} FlattenedSuccessors(table: seq<Workflow>, w: nat, path: seq<string>, stack: set<nat>,
      i: nat, id: string)
    requires ChildrenExist(table) && AllUnique(table) && AllRefsKnown(table) && w < |table| && i < |table[w].nodes|
    requires Expand(table, w, path, stack).problems == [] && Distinct(NodeIds(Expand(table, w, path, stack).nodes))
    requires id in NodeIds(GroupIn(table, w, i, path, stack).nodes)
    ensures var group, own := GroupIn(table, w, i, path, stack), OwnEdgesIn(table, w, path, stack);
      OutEdges(Expand(table, w, path, stack).edges, id) ==
      OutEdges(group.edges, id) + if group.exit == Some(id) then OutEdges(own, id) else []
  {
    var nodes, inner := table[w].nodes, stack + {w};
    var groups := GroupsUpTo(table, w, |nodes|, path, inner);
    var p, own := NodesOf(table, w, path, inner), OwnEdgesIn(table, w, path, stack);
    GroupsUpToAt(table, w, |nodes|, path, inner, i);
    GroupsKnown(table, w, path, inner);
    NoProblems(nodes, groups);
    GatherSuccessors(nodes, groups, i, id);
    OutEdgesConcat(p.edges, own, id);
    if groups[i].exit != Some(id) {
      NoOwnEdgeFrom(table[w], groups, path, i, id);
    }
  }

  /** An edge of a Workflow starts at a node of a group only if that is the group's exit. */
  lemma {:induction false} NoOwnEdgeFrom(w: Workflow, groups: seq<Embedded>, path: seq<string>, i: nat, id: string)
    requires UniqueIds(w) && RefsKnown(w) && |groups| == |w.nodes| && i < |w.nodes| &&
      Gather(w.nodes, groups).problems == []
    requires forall j :: 0 <= j < |groups| ==> GroupKnown(groups[j])
    requires id in NodeIds(groups[i].nodes) && groups[i].exit != Some(id)
    requires Distinct(NodeIds(Gather(w.nodes, groups).nodes))
    ensures var p := Gather(w.nodes, groups); OutEdges(EdgesOf(w, path, p.inputs, p.outputs), id) == []
  {
    var p := Gather(w.nodes, groups);
    GatherApartIds(w.nodes, groups, i, id);
    GatherEndpoints(w.nodes, groups);
    NoProblems(w.nodes, groups);
    forall k | 0 <= k < |w.edges|
      ensures Resolve(p.outputs, w.edges[k].from) != id
    {
      var j :| 0 <= j < |w.nodes| && w.nodes[j].id == w.edges[k].from;
      assert GroupKnown(groups[j]);
    }
    OutOfOwnEdges(w.edges, LocalIdsOf(w.edges, ExplicitIds(w.edges)), path, p.inputs, p.outputs, id);
  }

  /** Seen from a placeholder: the nodes its child's entry reaches are all there, each with
      the outgoing edges it has in the child alone, and only the exit gets more. */
  lemma {:induction false} ChildSuccessorsKept(table: seq<Workflow>, w: nat, path: seq<string>, stack: set<nat>,
      i: nat, id: string)
    requires ChildrenExist(table) && AllUnique(table) && AllRefsKnown(table) && w < |table| && i < |table[w].nodes|
    requires Expand(table, w, path, stack).problems == [] && Distinct(NodeIds(Expand(table, w, path, stack).nodes))
    requires table[w].nodes[i].capability.Child?
    ensures var source := table[w].nodes[i];
      var e, sub, group := Expand(table, w, path, stack),
        Expand(table, source.capability.workflow, path + [source.id], stack + {w}), GroupIn(table, w, i, path, stack);
      && group.entry.Some? && group.exit.Some?
      && (id in LeastClosed(group.entry.value, sub.nodes, sub.edges) ==>
          && id in NodeIds(e.nodes)
          && OutEdges(e.edges, id) == OutEdges(sub.edges, id) +
            if group.exit == Some(id) then OutEdges(OwnEdgesIn(table, w, path, stack), id) else [])
  {
    var source, inner := table[w].nodes[i], stack + {w};
    var sub, group := Expand(table, source.capability.workflow, path + [source.id], inner),
      GroupIn(table, w, i, path, stack);
    GroupInKnown(table, w, path, stack, i, id);
    EmbeddingChosen(source, sub);
    if id in LeastClosed(group.entry.value, sub.nodes, sub.edges) {
      ExpansionKnown(table, source.capability.workflow, path + [source.id], inner);
      ReachedIsNode(group.entry.value, sub, id);
      EmbeddingKeepsSuccessors(source, sub, id);
      FlattenedSuccessors(table, w, path, stack, i, id);
    }
  }

  lemma {:induction false} GroupInKnown(table: seq<Workflow>, w: nat, path: seq<string>, stack: set<nat>, i: nat,
      id: string)
    requires ChildrenExist(table) && AllRefsKnown(table) && w < |table| && i < |table[w].nodes|
    requires Expand(table, w, path, stack).problems == []
    ensures GroupKnown(GroupIn(table, w, i, path, stack)) && GroupIn(table, w, i, path, stack).problems == []
    ensures id in NodeIds(GroupIn(table, w, i, path, stack).nodes) ==>
      id in NodeIds(Expand(table, w, path, stack).nodes)
  {
    var nodes, inner := table[w].nodes, stack + {w};
    var groups := GroupsUpTo(table, w, |nodes|, path, inner);
    GroupsUpToAt(table, w, |nodes|, path, inner, i);
    GroupsKnown(table, w, path, inner);
    NoProblems(nodes, groups);
    GatherHolds(nodes, groups, i, id);
  }

  /** What an entry node reaches consists of nodes. */
  lemma {:induction false} ReachedIsNode(entry: string, sub: Expanded, id: string)
    requires EndsKnown(sub.nodes, sub.edges) && entry in NodeIds(sub.nodes)
    requires id in LeastClosed(entry, sub.nodes, sub.edges)
    ensures id in NodeIds(sub.nodes)
  {
  }

  // ----- a whole Workflow -----

  /** The flattened nodes and edges of a Workflow and all its children. Their ids are all
      different exactly when no two addresses agree part by part; unique local ids without
      slashes suffice. Without problems every edge joins two of the nodes. */
  method ExpandChildWorkflows(table: seq<Workflow>, root: nat)
      returns (nodes: seq<FlatNode>, edges: seq<FlatEdge>, problems: seq<Problem>)
    requires ChildrenExist(table) && root < |table|
    ensures var e := Expand(table, root, [], {}); nodes == e.nodes && edges == e.edges && problems == e.problems
    ensures Distinct(NodeIds(nodes)) <==> ApartBySegments(NodeAddresses(nodes))
    ensures Distinct(EdgeIds(edges)) <==> ApartBySegments(EdgeAddresses(edges))
    ensures AllUnique(table) ==> Distinct(NodeAddresses(nodes)) && Distinct(EdgeAddresses(edges))
    ensures AllUnique(table) && AllPlain(table) ==> Distinct(NodeIds(nodes)) && Distinct(EdgeIds(edges))
    ensures AllRefsKnown(table) && problems == [] ==> EndsKnown(nodes, edges)
  {
    var e := ExpandWorkflow(table, root, [], {});
    DistinctExactly(table, root, [], {});
    if AllUnique(table) {
      AddressesDistinct(table, root, [], {});
      if AllPlain(table) { PlainIdsDistinct(table, root, [], {}); }
    }
    if AllRefsKnown(table) && e.problems == [] { ExpansionKnown(table, root, [], {}); }
    return e.nodes, e.edges, e.problems;
  }
}
