/** Where expanded nodes and edges come from, and when their ids are all different. */
module ExpansionNames {
  import opened Options
  import opened Lists
  import opened ExpandedIds
  import opened FreshIds
  import opened Expansion

  function NodeAddress(n: FlatNode): seq<string> {
    n.path + [n.local]
  }

  function EdgeAddress(e: FlatEdge): seq<string> {
    e.path + [e.local]
  }

  function NodeAddresses(nodes: seq<FlatNode>): (r: seq<seq<string>>)
    ensures |r| == |nodes| && forall i :: 0 <= i < |r| ==> r[i] == NodeAddress(nodes[i])
  {
    seq(|nodes|, i requires 0 <= i < |nodes| => NodeAddress(nodes[i]))
  }

  function EdgeAddresses(edges: seq<FlatEdge>): (r: seq<seq<string>>)
    ensures |r| == |edges| && forall i :: 0 <= i < |r| ==> r[i] == EdgeAddress(edges[i])
  {
    seq(|edges|, i requires 0 <= i < |edges| => EdgeAddress(edges[i]))
  }

  // ----- conditions on the source -----

  /** No two nodes of a Workflow share an id, nor two edges an id given by the author. */
  ghost predicate UniqueIds(w: Workflow) {
    && (forall i, j :: 0 <= i < j < |w.nodes| ==> w.nodes[i].id != w.nodes[j].id)
    && (forall i, j :: 0 <= i < j < |w.edges| && IdGiven(w.edges[i]) ==> w.edges[i].id != w.edges[j].id)
  }

  ghost predicate AllUnique(table: seq<Workflow>) {
    forall i :: 0 <= i < |table| ==> UniqueIds(table[i])
  }

  ghost predicate PlainEdge(edge: SourceEdge) {
    (edge.id.Some? ==> '/' !in edge.id.value) && '/' !in edge.from && '/' !in edge.into
  }

  ghost predicate Plain(w: Workflow) {
    (forall i :: 0 <= i < |w.nodes| ==> '/' !in w.nodes[i].id) && forall i :: 0 <= i < |w.edges| ==>
      PlainEdge(w.edges[i])
  }

  ghost predicate AllPlain(table: seq<Workflow>) {
    forall i :: 0 <= i < |table| ==> Plain(table[i])
  }

  // ----- every id is the joined address -----

  ghost predicate Placed(path: seq<string>, plain: bool, id: string, address: seq<string>) {
    id == Join(address) && |address| > |path| && address[..|path|] == path && (plain ==> SlashFree(address))
  }

  ghost predicate AllPlaced(path: seq<string>, plain: bool, nodes: seq<FlatNode>, edges: seq<FlatEdge>) {
    && (forall n :: n in nodes ==> Placed(path, plain, n.id, NodeAddress(n)))
    && (forall e :: e in edges ==> Placed(path, plain, e.id, EdgeAddress(e)))
  }

  lemma {:induction false} PlacedAbove(path: seq<string>, key: string, plain: bool, id: string, address: seq<string>)
    requires Placed(path + [key], plain, id, address)
    ensures Placed(path, plain, id, address) && address[|path|] == key
  {
    assert address[..|path| + 1] == path + [key];
    assert address[..|path|] == address[..|path| + 1][..|path|];
  }

  lemma {:induction false} OwnPlaced(path: seq<string>, plain: bool, local: string)
    requires plain ==> SlashFree(path) && '/' !in local
    ensures Placed(path, plain, Qualify(path, local), path + [local])
  {
  }

  lemma {:induction false} MarkedFrom(nodes: seq<FlatNode>, entry: string, flag: bool, n: FlatNode)
    requires n in MarkEntry(nodes, entry, flag)
    ensures exists m :: m in nodes && m.id == n.id && NodeAddress(m) == NodeAddress(n)
  {
    var i :| 0 <= i < |nodes| && MarkEntry(nodes, entry, flag)[i] == n;
    assert NodeIds(nodes)[i] == n.id;
    assert nodes[i] in nodes;
  }

  lemma {:induction false} EmbeddingPlaced(path: seq<string>, plain: bool, node: SourceNode, sub: Expanded)
    requires AllPlaced(path + [node.id], plain, sub.nodes, sub.edges)
    ensures AllPlaced(path + [node.id], plain, EmbeddingOf(node, sub).nodes, EmbeddingOf(node, sub).edges)
    ensures AllPlaced(path, plain, EmbeddingOf(node, sub).nodes, EmbeddingOf(node, sub).edges)
  {
    var child := EmbeddingOf(node, sub);
    forall n | n in child.nodes
      ensures Placed(path + [node.id], plain, n.id, NodeAddress(n)) && Placed(path, plain, n.id, NodeAddress(n))
    {
      var kept := LeastClosed(child.entry.value, sub.nodes, sub.edges);
      MarkedFrom(KeepNodes(sub.nodes, kept), child.entry.value, node.entry, n);
      PlacedAbove(path, node.id, plain, n.id, NodeAddress(n));
    }
    forall e | e in child.edges
      ensures Placed(path + [node.id], plain, e.id, EdgeAddress(e)) && Placed(path, plain, e.id, EdgeAddress(e))
    {
      PlacedAbove(path, node.id, plain, e.id, EdgeAddress(e));
    }
  }

  lemma {:induction false} LocalIdPlain(edges: seq<SourceEdge>, explicit: set<string>, k: nat)
    requires k < |edges| && forall i :: 0 <= i < |edges| ==> PlainEdge(edges[i])
    ensures '/' !in LocalIdsOf(edges, explicit)[k]
  {
    var n := |edges| - 1;
    if k < n {
      LocalIdPlain(edges[..n], explicit, k);
    } else if !IdGiven(edges[n]) {
      FreshIdPlain(BaseId(edges[n]), explicit + Elements(LocalIdsOf(edges[..n], explicit)));
    }
  }

  lemma {:induction false} OwnEdgeAt(edges: seq<SourceEdge>, locals: seq<string>, path: seq<string>,
      inputs: map<string, string>, outputs: map<string, string>, k: nat)
    requires k < |edges| == |locals|
    ensures OwnEdges(edges, locals, path, inputs, outputs)[k] == FlatEdgeOf(path, edges[k], locals[k], inputs, outputs)
  {
    var n := |edges| - 1;
    if k < n {
      OwnEdgeAt(edges[..n], locals[..n], path, inputs, outputs, k);
    }
  }

  lemma {:induction false} OwnEdgesPlaced(w: Workflow, path: seq<string>, plain: bool, inputs: map<string, string>,
      outputs: map<string, string>)
    requires plain ==> Plain(w) && SlashFree(path)
    ensures AllPlaced(path, plain, [], EdgesOf(w, path, inputs, outputs))
  {
    var locals, own := LocalIdsOf(w.edges, ExplicitIds(w.edges)), EdgesOf(w, path, inputs, outputs);
    forall e | e in own
      ensures Placed(path, plain, e.id, EdgeAddress(e))
    {
      var k :| 0 <= k < |own| && own[k] == e;
      OwnEdgeAt(w.edges, locals, path, inputs, outputs, k);
      if plain { LocalIdPlain(w.edges, ExplicitIds(w.edges), k); }
      OwnPlaced(path, plain, locals[k]);
    }
  }

  lemma {:induction false} GatherPlaced(nodes: seq<SourceNode>, groups: seq<Embedded>, path: seq<string>, plain: bool)
    requires |nodes| == |groups| && forall i :: 0 <= i < |groups| ==>
      AllPlaced(path, plain, groups[i].nodes, groups[i].edges)
    ensures AllPlaced(path, plain, Gather(nodes, groups).nodes, Gather(nodes, groups).edges)
  {
    if nodes != [] {
      var n := |nodes| - 1;
      GatherPlaced(nodes[..n], groups[..n], path, plain);
      assert AllPlaced(path, plain, groups[n].nodes, groups[n].edges);
    }
  }

  lemma {:induction false} GroupPlaced(table: seq<Workflow>, source: SourceNode, path: seq<string>, stack: set<nat>,
      plain: bool)
    requires ChildrenExist(table) && (source.capability.Child? ==> source.capability.workflow < |table|)
    requires plain ==> AllPlain(table) && SlashFree(path) && '/' !in source.id
    ensures AllPlaced(path, plain, GroupOf(table, source, path, stack).nodes, GroupOf(table, source, path, stack).edges)
    decreases |Unvisited(table, stack)|, 1, 0
  {
    if source.capability.Child? {
      ExpansionPlaced(table, source.capability.workflow, path + [source.id], stack, plain);
      EmbeddingPlaced(path, plain, source, Expand(table, source.capability.workflow, path + [source.id], stack));
    } else {
      OwnPlaced(path, plain, source.id);
    }
  }

  /** Every id is the joined address, which starts with the path; without slashes in the
      source there are none in the addresses. */
  lemma {:induction false} ExpansionPlaced(table: seq<Workflow>, w: nat, path: seq<string>, stack: set<nat>,
      plain: bool)
    requires ChildrenExist(table) && w < |table| && (plain ==> AllPlain(table) && SlashFree(path))
    ensures AllPlaced(path, plain, Expand(table, w, path, stack).nodes, Expand(table, w, path, stack).edges)
    decreases |Unvisited(table, stack)|, 0, 0
  {
    if w !in stack {
      UnvisitedShrinks(table, stack, w);
      var nodes, inner := table[w].nodes, stack + {w};
      var groups := GroupsUpTo(table, w, |nodes|, path, inner);
      forall i | 0 <= i < |groups|
        ensures AllPlaced(path, plain, groups[i].nodes, groups[i].edges)
      {
        GroupsUpToAt(table, w, |nodes|, path, inner, i);
        GroupPlaced(table, nodes[i], path, inner, plain);
      }
      GatherPlaced(nodes, groups, path, plain);
      var p := Gather(nodes, groups);
      OwnEdgesPlaced(table[w], path, plain, p.inputs, p.outputs);
    }
  }

  // ----- addresses are all different -----

  /** The addresses lie under the path, each in or below a local node of keys. */
  ghost predicate Among(path: seq<string>, keys: set<string>, addresses: seq<seq<string>>) {
    forall i :: 0 <= i < |addresses| ==> |addresses[i]| > |path| && addresses[i][|path|] in keys
  }

  ghost predicate Deep(path: seq<string>, addresses: seq<seq<string>>) {
    forall i :: 0 <= i < |addresses| ==> |addresses[i]| > |path| + 1
  }

  lemma {:induction false} GroupJoins(path: seq<string>, keys: set<string>, before: seq<seq<string>>, key: string,
      group: seq<seq<string>>)
    requires key !in keys && Distinct(before) && Distinct(group)
    requires Among(path, keys, before) && Among(path, {key}, group)
    ensures Distinct(before + group) && Among(path, keys + {key}, before + group)
  {
    forall x | x in before
      ensures x !in group
    {
      var i :| 0 <= i < |before| && before[i] == x;
      assert x[|path|] in keys;
    }
    DistinctConcat(before, group);
  }

  ghost function Keys(nodes: seq<SourceNode>): set<string> {
    set i | 0 <= i < |nodes| :: nodes[i].id
  }

  lemma {:induction false} KeysGrow(nodes: seq<SourceNode>)
    requires nodes != [] && forall i, j :: 0 <= i < j < |nodes| ==> nodes[i].id != nodes[j].id
    ensures var n := |nodes| - 1; Keys(nodes) == Keys(nodes[..n]) + {nodes[n].id} && nodes[n].id !in Keys(nodes[..n])
  {
  }

  lemma {:induction false} NodeAddressesConcat(a: seq<FlatNode>, b: seq<FlatNode>)
    ensures NodeAddresses(a + b) == NodeAddresses(a) + NodeAddresses(b)
  {
  }

  lemma {:induction false} EdgeAddressesConcat(a: seq<FlatEdge>, b: seq<FlatEdge>)
    ensures EdgeAddresses(a + b) == EdgeAddresses(a) + EdgeAddresses(b)
  {
  }

  lemma {:induction false} DistinctSnoc<T>(s: seq<T>, x: T)
    ensures Distinct(s + [x]) <==> Distinct(s) && x !in s
  {
    var all := s + [x];
    if Distinct(all) {
      forall i, j | 0 <= i < j < |s| ensures s[i] != s[j] { assert all[i] == s[i] && all[j] == s[j]; }
      forall i | 0 <= i < |s| ensures s[i] != x { assert all[i] == s[i] && all[|s|] == x; }
    }
  }

  lemma {:induction false} KeepNodesDistinct(nodes: seq<FlatNode>, ids: set<string>)
    requires Distinct(NodeAddresses(nodes))
    ensures Distinct(NodeAddresses(KeepNodes(nodes, ids)))
    ensures forall a :: a in NodeAddresses(KeepNodes(nodes, ids)) ==> a in NodeAddresses(nodes)
  {
    if nodes != [] {
      var init, last := nodes[..|nodes| - 1], nodes[|nodes| - 1];
      assert nodes == init + [last] && NodeAddresses([last]) == [NodeAddress(last)];
      NodeAddressesConcat(init, [last]);
      DistinctSnoc(NodeAddresses(init), NodeAddress(last));
      KeepNodesDistinct(init, ids);
      NodeAddressesConcat(KeepNodes(init, ids), [last]);
      DistinctSnoc(NodeAddresses(KeepNodes(init, ids)), NodeAddress(last));
    }
  }

  lemma {:induction false} KeepEdgesDistinct(edges: seq<FlatEdge>, ids: set<string>)
    requires Distinct(EdgeAddresses(edges))
    ensures Distinct(EdgeAddresses(KeepEdges(edges, ids)))
    ensures forall a :: a in EdgeAddresses(KeepEdges(edges, ids)) ==> a in EdgeAddresses(edges)
  {
    if edges != [] {
      var init, last := edges[..|edges| - 1], edges[|edges| - 1];
      assert edges == init + [last] && EdgeAddresses([last]) == [EdgeAddress(last)];
      EdgeAddressesConcat(init, [last]);
      DistinctSnoc(EdgeAddresses(init), EdgeAddress(last));
      KeepEdgesDistinct(init, ids);
      EdgeAddressesConcat(KeepEdges(init, ids), [last]);
      DistinctSnoc(EdgeAddresses(KeepEdges(init, ids)), EdgeAddress(last));
    }
  }

  lemma {:induction false} EmbeddingDistinct(node: SourceNode, sub: Expanded)
    requires Distinct(NodeAddresses(sub.nodes)) && Distinct(EdgeAddresses(sub.edges))
    ensures Distinct(NodeAddresses(EmbeddingOf(node, sub).nodes)) &&
      Distinct(EdgeAddresses(EmbeddingOf(node, sub).edges))
  {
    var child := EmbeddingOf(node, sub);
    if child.entry.Some? {
      var kept := LeastClosed(child.entry.value, sub.nodes, sub.edges);
      KeepNodesDistinct(sub.nodes, kept);
      KeepEdgesDistinct(sub.edges, kept);
      assert NodeAddresses(MarkEntry(KeepNodes(sub.nodes, kept), child.entry.value, node.entry)) ==
        NodeAddresses(KeepNodes(sub.nodes, kept));
    }
  }

  /** Everything embedded at a placeholder lies below its id. */
  lemma {:induction false} EmbeddingAmong(path: seq<string>, node: SourceNode, sub: Expanded)
    requires AllPlaced(path + [node.id], false, sub.nodes, sub.edges)
    ensures Among(path, {node.id}, NodeAddresses(EmbeddingOf(node, sub).nodes))
    ensures Among(path, {node.id}, EdgeAddresses(EmbeddingOf(node, sub).edges)) &&
      Deep(path, EdgeAddresses(EmbeddingOf(node, sub).edges))
  {
    var child := EmbeddingOf(node, sub);
    EmbeddingPlaced(path, false, node, sub);
    forall i | 0 <= i < |child.nodes|
      ensures |NodeAddress(child.nodes[i])| > |path| && NodeAddress(child.nodes[i])[|path|] == node.id
    {
      assert child.nodes[i] in child.nodes;
      PlacedAbove(path, node.id, false, child.nodes[i].id, NodeAddress(child.nodes[i]));
    }
    forall i | 0 <= i < |child.edges|
      ensures |EdgeAddress(child.edges[i])| > |path| + 1 && EdgeAddress(child.edges[i])[|path|] == node.id
    {
      assert child.edges[i] in child.edges;
      PlacedAbove(path, node.id, false, child.edges[i].id, EdgeAddress(child.edges[i]));
    }
  }

  /** A local edge id is new: no earlier edge has it and no author gave it to a later one. */
  lemma {:induction false} LocalsDistinct(w: Workflow, k: nat)
    requires UniqueIds(w) && k <= |w.edges|
    ensures Distinct(LocalIdsOf(w.edges[..k], ExplicitIds(w.edges)))
    ensures forall m :: k <= m < |w.edges| && IdGiven(w.edges[m]) ==>
      w.edges[m].id.value !in LocalIdsOf(w.edges[..k], ExplicitIds(w.edges))
  {
    if k > 0 {
      var explicit, last := ExplicitIds(w.edges), w.edges[k - 1];
      var before := LocalIdsOf(w.edges[..k - 1], explicit);
      var local := LocalId(last, explicit + Elements(before));
      assert w.edges[..k] == w.edges[..k - 1] + [last];
      LocalIdsNext(w.edges[..k - 1], last, explicit);
      LocalsDistinct(w, k - 1);
      DistinctSnoc(before, local);
      forall m | k <= m < |w.edges| && IdGiven(w.edges[m])
        ensures w.edges[m].id.value !in before + [local]
      {
        assert w.edges[m].id.value in explicit;
      }
    }
  }

  lemma {:induction false} OwnEdgesDistinct(w: Workflow, path: seq<string>, inputs: map<string, string>,
      outputs: map<string, string>)
    requires UniqueIds(w)
    ensures Distinct(EdgeAddresses(EdgesOf(w, path, inputs, outputs)))
    ensures forall a :: a in EdgeAddresses(EdgesOf(w, path, inputs, outputs)) ==> |a| == |path| + 1
  {
    var locals, own := LocalIdsOf(w.edges, ExplicitIds(w.edges)), EdgesOf(w, path, inputs, outputs);
    assert w.edges[..|w.edges|] == w.edges;
    LocalsDistinct(w, |w.edges|);
    forall k | 0 <= k < |own|
      ensures EdgeAddresses(own)[k] == path + [locals[k]]
    {
      OwnEdgeAt(w.edges, locals, path, inputs, outputs, k);
    }
    forall i, j | 0 <= i < j < |own|
      ensures EdgeAddresses(own)[i] != EdgeAddresses(own)[j]
    {
      assert (path + [locals[i]])[|path|] == locals[i] && (path + [locals[j]])[|path|] == locals[j];
    }
  }

  /** A group lies in or below its source node, its edges strictly below. */
  ghost predicate GroupApart(path: seq<string>, keys: set<string>, nodes: seq<FlatNode>, edges: seq<FlatEdge>) {
    && Distinct(NodeAddresses(nodes)) && Among(path, keys, NodeAddresses(nodes))
    && Distinct(EdgeAddresses(edges)) && Among(path, keys, EdgeAddresses(edges)) && Deep(path, EdgeAddresses(edges))
  }

  lemma {:induction false} GatherApart(nodes: seq<SourceNode>, groups: seq<Embedded>, path: seq<string>)
    requires |nodes| == |groups| && forall i, j :: 0 <= i < j < |nodes| ==> nodes[i].id != nodes[j].id
    requires forall i :: 0 <= i < |groups| ==> GroupApart(path, {nodes[i].id}, groups[i].nodes, groups[i].edges)
    ensures GroupApart(path, Keys(nodes), Gather(nodes, groups).nodes, Gather(nodes, groups).edges)
  {
    if nodes != [] {
      var n := |nodes| - 1;
      var p, group := Gather(nodes[..n], groups[..n]), groups[n];
      GatherApart(nodes[..n], groups[..n], path);
      KeysGrow(nodes);
      assert GroupApart(path, {nodes[n].id}, group.nodes, group.edges);
      NodeAddressesConcat(p.nodes, group.nodes);
      EdgeAddressesConcat(p.edges, group.edges);
      GroupJoins(path, Keys(nodes[..n]), NodeAddresses(p.nodes), nodes[n].id, NodeAddresses(group.nodes));
      GroupJoins(path, Keys(nodes[..n]), EdgeAddresses(p.edges), nodes[n].id, EdgeAddresses(group.edges));
    }
  }

  lemma {:induction false} EmbeddingApart(path: seq<string>, node: SourceNode, sub: Expanded)
    requires Distinct(NodeAddresses(sub.nodes)) && Distinct(EdgeAddresses(sub.edges))
    requires AllPlaced(path + [node.id], false, sub.nodes, sub.edges)
    ensures GroupApart(path, {node.id}, EmbeddingOf(node, sub).nodes, EmbeddingOf(node, sub).edges)
  {
    EmbeddingDistinct(node, sub);
    EmbeddingAmong(path, node, sub);
  }

  lemma {:induction false} GroupIsApart(table: seq<Workflow>, source: SourceNode, path: seq<string>, stack: set<nat>)
    requires ChildrenExist(table) && AllUnique(table) &&
      (source.capability.Child? ==> source.capability.workflow < |table|)
    ensures GroupApart(path, {source.id}, GroupOf(table, source, path, stack).nodes,
      GroupOf(table, source, path, stack).edges)
    decreases |Unvisited(table, stack)|, 1, 0
  {
    if source.capability.Child? {
      AddressesDistinct(table, source.capability.workflow, path + [source.id], stack);
      ExpansionPlaced(table, source.capability.workflow, path + [source.id], stack, false);
      EmbeddingApart(path, source, Expand(table, source.capability.workflow, path + [source.id], stack));
    }
  }

  /** No two nodes and no two edges of an expansion were written at one address. */
  lemma {:induction false} AddressesDistinct(table: seq<Workflow>, w: nat, path: seq<string>, stack: set<nat>)
    requires ChildrenExist(table) && w < |table| && AllUnique(table)
    ensures Distinct(NodeAddresses(Expand(table, w, path, stack).nodes)) &&
      Distinct(EdgeAddresses(Expand(table, w, path, stack).edges))
    decreases |Unvisited(table, stack)|, 0, 0
  {
    if w !in stack {
      UnvisitedShrinks(table, stack, w);
      var nodes, inner := table[w].nodes, stack + {w};
      var groups := GroupsUpTo(table, w, |nodes|, path, inner);
      forall i | 0 <= i < |groups|
        ensures GroupApart(path, {nodes[i].id}, groups[i].nodes, groups[i].edges)
      {
        GroupsUpToAt(table, w, |nodes|, path, inner, i);
        GroupIsApart(table, nodes[i], path, inner);
      }
      GatherApart(nodes, groups, path);
      var p := Gather(nodes, groups);
      var own := EdgesOf(table[w], path, p.inputs, p.outputs);
      OwnEdgesDistinct(table[w], path, p.inputs, p.outputs);
      EdgeAddressesConcat(p.edges, own);
      DistinctConcat(EdgeAddresses(p.edges), EdgeAddresses(own));
    }
  }

  // ----- ids are all different -----

  /** Ids are all different exactly when the addresses differ part by part. */
  lemma {:induction false} DistinctExactly(table: seq<Workflow>, w: nat, path: seq<string>, stack: set<nat>)
    requires ChildrenExist(table) && w < |table|
    ensures var e := Expand(table, w, path, stack);
      && (Distinct(NodeIds(e.nodes)) <==> ApartBySegments(NodeAddresses(e.nodes)))
      && (Distinct(EdgeIds(e.edges)) <==> ApartBySegments(EdgeAddresses(e.edges)))
  {
    var e := Expand(table, w, path, stack);
    ExpansionPlaced(table, w, path, stack, false);
    forall i | 0 <= i < |e.nodes|
      ensures NodeIds(e.nodes)[i] == Join(NodeAddresses(e.nodes)[i])
    {
      assert e.nodes[i] in e.nodes;
    }
    forall i | 0 <= i < |e.edges|
      ensures EdgeIds(e.edges)[i] == Join(EdgeAddresses(e.edges)[i])
    {
      assert e.edges[i] in e.edges;
    }
    IdsDistinctExactly(NodeAddresses(e.nodes), NodeIds(e.nodes));
    IdsDistinctExactly(EdgeAddresses(e.edges), EdgeIds(e.edges));
  }

  /** Without slashes unique local ids give unique ids at every depth. */
  lemma {:induction false} PlainIdsDistinct(table: seq<Workflow>, w: nat, path: seq<string>, stack: set<nat>)
    requires ChildrenExist(table) && w < |table| && AllUnique(table) && AllPlain(table) && SlashFree(path)
    ensures Distinct(NodeIds(Expand(table, w, path, stack).nodes)) &&
      Distinct(EdgeIds(Expand(table, w, path, stack).edges))
  {
    var e := Expand(table, w, path, stack);
    ExpansionPlaced(table, w, path, stack, true);
    AddressesDistinct(table, w, path, stack);
    DistinctExactly(table, w, path, stack);
    forall i | 0 <= i < |e.nodes|
      ensures SlashFree(NodeAddresses(e.nodes)[i])
    {
      assert e.nodes[i] in e.nodes;
    }
    forall i | 0 <= i < |e.edges|
      ensures SlashFree(EdgeAddresses(e.edges)[i])
    {
      assert e.edges[i] in e.edges;
    }
    SlashFreeApart(NodeAddresses(e.nodes));
    SlashFreeApart(EdgeAddresses(e.edges));
  }

  // ----- slashes in local ids -----

  function Plainly(id: string, capability: Capability): SourceNode {
    SourceNode(id, capability, None, None, false, false)
  }

  /** A node s/t beside a placeholder s whose child has a node t. */
  function Colliding(s: string, t: string): seq<Workflow> {
    [Workflow([Plainly(s + "/" + t, Operator), Plainly(s, Child(1))], []), Workflow([Plainly(t, Operator)], [])]
  }

  function Lone(id: string, local: string, path: seq<string>): Expanded {
    Expanded([FlatNode(id, local, path, false)], [], map[local := id], map[local := id], [])
  }

  lemma {:induction false} GatherOne(a: SourceNode, ga: Embedded)
    ensures Gather([a], [ga]) == WithChild(Nothing, a.id, ga)
  {
    GatherNext([], [], a, ga);
    assert [] + [a] == [a] && [] + [ga] == [ga];
  }

  lemma {:induction false} GatherTwo(a: SourceNode, ga: Embedded, b: SourceNode, gb: Embedded)
    ensures Gather([a, b], [ga, gb]) == WithChild(WithChild(Nothing, a.id, ga), b.id, gb)
  {
    GatherOne(a, ga);
    GatherNext([a], [ga], b, gb);
    assert [a] + [b] == [a, b] && [ga] + [gb] == [ga, gb];
  }

  lemma {:induction false} LoneCompleted(w: Workflow, id: string, local: string, path: seq<string>)
    requires w.edges == []
    ensures Completed(w, path, Lone(id, local, path)) == Lone(id, local, path)
  {
    var p := Lone(id, local, path);
    assert EntryProblems(p.nodes, []) == [] + EntryProblems(p.nodes[1..], []);
  }

  lemma {:induction false} LoneBoundary(id: string, local: string, path: seq<string>)
    ensures EntriesOf(Lone(id, local, path)) == map[local := id] && ExitsOf(Lone(id, local, path)) == map[local := id]
  {
    assert NodeIds(Lone(id, local, path).nodes)[0] == id;
  }

  /** A child with one node and no edges is embedded whole. */
  lemma {:induction false} LoneEmbedding(node: SourceNode, id: string, local: string, path: seq<string>)
    requires node.entrySelector.None? && node.exitSelector.None? && !node.hasBehavior && !node.entry
    ensures EmbeddingOf(node, Lone(id, local, path)) ==
      Embedded([FlatNode(id, local, path, false)], [], Some(id), Some(id), [])
  {
    var own, sub := FlatNode(id, local, path, false), Lone(id, local, path);
    LoneBoundary(id, local, path);
    LoneKept(own);
    LonePruned(node, id, local, path);
    OnlyBoundary(local, id);
    assert EmbeddingOf(node, sub) == PrunedTo(node, sub, id, {id}, []);
  }

  lemma {:induction false} OnlyBoundary(local: string, id: string)
    ensures BoundaryOf(None, map[local := id]) == Some(id) && BoundaryProblems(None, map[local := id]) == []
  {
  }

  lemma {:induction false} LoneExit(id: string, local: string, path: seq<string>)
    ensures Within(ExitsOf(Lone(id, local, path)), {id}) == map[local := id]
  {
    LoneBoundary(id, local, path);
  }

  lemma {:induction false} PrunedWithExit(node: SourceNode, sub: Expanded, entry: string, kept: set<string>,
      exit: string)
    requires BoundaryOf(node.exitSelector, Within(ExitsOf(sub), kept)) == Some(exit)
    ensures PrunedTo(node, sub, entry, kept, []) ==
      Embedded(MarkEntry(KeepNodes(sub.nodes, kept), entry, node.entry), KeepEdges(sub.edges, kept), Some(entry),
        Some(exit), [])
  {
  }

  lemma {:induction false} LonePruned(node: SourceNode, id: string, local: string, path: seq<string>)
    requires node.exitSelector.None? && !node.entry
    ensures PrunedTo(node, Lone(id, local, path), id, {id}, []) ==
      Embedded([FlatNode(id, local, path, false)], [], Some(id), Some(id), [])
  {
    var own := FlatNode(id, local, path, false);
    LoneExit(id, local, path);
    OnlyBoundary(local, id);
    PrunedWithExit(node, Lone(id, local, path), id, {id}, id);
    LoneKept(own);
    LoneMarked(own);
  }

  lemma {:induction false} LoneMarked(own: FlatNode)
    ensures MarkEntry([own], own.id, false) == [own.(entry := false)]
  {
  }

  lemma {:induction false} LoneKept(own: FlatNode)
    ensures var kept := LeastClosed(own.id, [own], []);
      kept == {own.id} && KeepNodes([own], kept) == [own] && KeepEdges([], kept) == []
  {
    LeastClosedFacts(own.id, [own], []);
    assert ClosedUnder([own], [], {own.id});
    assert [own][..0] == [] && KeepNodes([], {own.id}) == [];
    assert [] + [own] == [own];
  }

  lemma {:induction false} CollidingChild(s: string, t: string)
    ensures ChildrenExist(Colliding(s, t)) && Expand(Colliding(s, t), 1, [s], {0}) == Lone(Qualify([s], t), t, [s])
  {
    var table, source := Colliding(s, t), Plainly(t, Operator);
    var group := GroupOf(table, source, [s], {0} + {1});
    GatherOne(source, group);
    assert GroupsUpTo(table, 1, 0, [s], {0} + {1}) == [];
    assert GroupsUpTo(table, 1, 1, [s], {0} + {1}) == [group];
    assert WithChild(Nothing, t, group) == Lone(Qualify([s], t), t, [s]);
    LoneCompleted(table[1], Qualify([s], t), t, [s]);
  }

  lemma {:induction false} CollidingGroups(s: string, t: string)
    ensures var table := Colliding(s, t);
      ChildrenExist(table) && GroupsUpTo(table, 0, 2, [], {} + {0}) ==
      [GroupOf(table, table[0].nodes[0], [], {} + {0}), GroupOf(table, table[0].nodes[1], [], {} + {0})]
  {
    var table := Colliding(s, t);
    assert GroupsUpTo(table, 0, 0, [], {} + {0}) == [];
    assert GroupsUpTo(table, 0, 1, [], {} + {0}) == [GroupOf(table, table[0].nodes[0], [], {} + {0})];
  }

  lemma {:induction false} CollidingIds(s: string, t: string)
    ensures Qualify([], s + "/" + t) == s + "/" + t && Qualify([s], t) == s + "/" + t
  {
    assert [s] + [t] == [s, t] && [] + [s + "/" + t] == [s + "/" + t];
    JoinStep([s, t]);
    assert [s, t][..1] == [s];
  }

  lemma {:induction false} CollidingSecond(s: string, t: string)
    ensures var table, id := Colliding(s, t), s + "/" + t;
      ChildrenExist(table) && GroupOf(table, table[0].nodes[1], [], {} + {0}) ==
        Embedded([FlatNode(id, t, [s], false)], [], Some(id), Some(id), [])
  {
    CollidingIds(s, t);
    CollidingChild(s, t);
    assert [] + [s] == [s] && {} + {0} == {0};
    LoneEmbedding(Plainly(s, Child(1)), s + "/" + t, t, [s]);
  }

  lemma {:induction false} PairGathered(a: SourceNode, ga: Embedded, b: SourceNode, gb: Embedded)
    requires ga.problems == [] && gb.problems == []
    ensures Gather([a, b], [ga, gb]).nodes == ga.nodes + gb.nodes && Gather([a, b], [ga, gb]).problems == []
  {
    GatherTwo(a, ga, b, gb);
    assert [] + ga.nodes == ga.nodes;
  }

  lemma {:induction false} CollidingNodes(s: string, t: string)
    ensures var table, id := Colliding(s, t), s + "/" + t;
      && ChildrenExist(table)
      && NodesOf(table, 0, [], {} + {0}).nodes == [FlatNode(id, id, [], false)] + [FlatNode(id, t, [s], false)]
      && NodesOf(table, 0, [], {} + {0}).problems == []
  {
    var table := Colliding(s, t);
    CollidingIds(s, t);
    CollidingSecond(s, t);
    CollidingGroups(s, t);
    PairGathered(table[0].nodes[0], GroupOf(table, table[0].nodes[0], [], {} + {0}), table[0].nodes[1],
      GroupOf(table, table[0].nodes[1], [], {} + {0}));
  }

  lemma {:induction false} CollidingUnique(s: string, t: string)
    ensures AllUnique(Colliding(s, t))
  {
    assert |s + "/" + t| == |s| + 1 + |t|;
  }

  /** Whenever a slash in a local id is allowed, unique local ids are not enough: the ids
      of this expansion, which meets no problem, are not all different. */
  lemma {:induction false} SlashesCollide(s: string, t: string)
    ensures ChildrenExist(Colliding(s, t)) && AllUnique(Colliding(s, t))
    ensures var e := Expand(Colliding(s, t), 0, [], {});
      e.problems == [] && NodeIds(e.nodes) == [s + "/" + t, s + "/" + t] && !Distinct(NodeIds(e.nodes))
  {
    CollidingNodes(s, t);
    CollidingUnique(s, t);
    var e, p := Expand(Colliding(s, t), 0, [], {}), NodesOf(Colliding(s, t), 0, [], {} + {0});
    assert e.nodes == p.nodes;
    assert NodeIds(e.nodes)[0] == NodeIds(e.nodes)[1];
  }
}
