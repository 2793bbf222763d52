/** The whole loop compilation and what an accepted graph is guaranteed. */
module LoopCompiler {
  import opened Digraph
  import opened NaturalLoops
  import opened WorkflowGraph
  import opened LoopPasses
  import opened AcyclicityPass
  import opened ComponentSearch
  import opened LoopRegions
  import opened LoopNesting
  import opened Options

  /** A region's id is its position, one less than the number in its name. */
  datatype LoopRegion = LoopRegion(
    nodeIds: seq<nat>,
    header: nat,
    internalEdges: seq<nat>,
    entryEdges: seq<nat>,
    backEdges: seq<nat>,
    exitEdges: seq<nat>,
    parent: Option<nat>,
    children: seq<nat>,
    depth: nat)

  datatype CompileResult =
    | Compiled(regions: seq<LoopRegion>, stacks: seq<seq<nat>>)
    | Rejected(diagnostic: Diagnostic)

  function NodesIn(n: nat, keep: set<nat>): (r: seq<nat>)
    ensures Ascending(r) && forall x: nat :: x in r <==> x < n && x in keep
  {
    if n == 0 then []
    else
      var r := NodesIn(n - 1, keep);
      AppendAscending(r, n - 1);
      if n - 1 in keep then r + [n - 1] else r
  }

  function ChildrenOf(parents: seq<Option<nat>>, i: nat): (r: seq<nat>)
    ensures Ascending(r) && forall c: nat :: c in r <==> c < |parents| && parents[c] == Some(i)
  {
    if parents == [] then []
    else
      var last := |parents| - 1;
      var r := ChildrenOf(parents[..last], i);
      assert forall c: nat :: c in r ==> c < last;
      AppendAscending(r, last);
      assert forall c: nat :: c < last ==> parents[..last][c] == parents[c];
      if parents[last] == Some(i) then r + [last] else r
  }

  function MakeRegion(n: nat, edges: seq<EdgeIR>, c: Candidate, parents: seq<Option<nat>>, i: nat,
      depth: nat): LoopRegion
    requires i < |parents|
  {
    var nodes := c.nodes;
    LoopRegion(
      NodesIn(n, nodes), c.header,
      EdgeIdsWhere(edges, (e: EdgeIR) => e.source in nodes && e.target in nodes),
      ExternalEntries(edges, nodes),
      c.backEdges,
      EdgeIdsWhere(edges, (e: EdgeIR) => e.source in nodes && e.target !in nodes),
      parents[i], ChildrenOf(parents, i), depth)
  }

  /** The region is the natural loop of its header: reachable nodes dominated by
      the header, entered from outside only at the header, and no workflow entry. Each
      list names every node or edge once, in the order of the Workflow. */
  ghost predicate RegionExact(edges: seq<EdgeIR>, entries: seq<nat>, r: LoopRegion) {
    var arcs, es := ArcsOf(edges), Elements(entries);
    && IsHeader(arcs, es, r.header) && r.header !in entries
    && Ascending(r.nodeIds) && Ascending(r.backEdges)
    && Ascending(r.internalEdges) && Ascending(r.entryEdges) && Ascending(r.exitEdges)
    && (forall x: nat :: x in r.nodeIds <==> InLoop(arcs, es, r.header, x))
    && (forall x: nat :: x in r.nodeIds ==> ReachableFrom(arcs, es, x) && Dominates(arcs, es, r.header, x))
    && (forall k: nat :: k in r.backEdges <==> IsBackEdge(edges, entries, k) && edges[k].target == r.header)
    && (forall k: nat :: k in r.internalEdges <==>
      (k < |edges| && edges[k].source in r.nodeIds && edges[k].target in r.nodeIds))
    && (forall k: nat :: k in r.entryEdges <==>
      (k < |edges| && edges[k].source !in r.nodeIds && edges[k].target in r.nodeIds))
    && (forall k: nat :: k in r.entryEdges ==> edges[k].target == r.header)
    && (forall k: nat :: k in r.exitEdges <==>
      (k < |edges| && edges[k].source in r.nodeIds && edges[k].target !in r.nodeIds))
  }

  ghost predicate StrictlyInside(a: LoopRegion, b: LoopRegion) {
    Elements(a.nodeIds) < Elements(b.nodeIds)
  }

  /** The parent is the unique smallest region around region i, one level up. */
  ghost predicate NestingExact(regions: seq<LoopRegion>, i: nat)
    requires i < |regions|
  {
    && Ascending(regions[i].children)
    && (forall c: nat :: c in regions[i].children <==> c < |regions| && regions[c].parent == Some(i))
    && match regions[i].parent
       case None => regions[i].depth == 0 && forall j :: 0 <= j < |regions| ==> !StrictlyInside(regions[i], regions[j])
       case Some(p) =>
         && p < |regions| && StrictlyInside(regions[i], regions[p]) && regions[i].depth == regions[p].depth + 1
         && forall j :: 0 <= j < |regions| && j != p && StrictlyInside(regions[i], regions[j]) ==>
           StrictlyInside(regions[p], regions[j])
  }

  /** The loop stack of v lists all regions around v from depth 0 downwards. */
  ghost predicate StackExact(regions: seq<LoopRegion>, v: nat, stack: seq<nat>) {
    && (forall i: nat :: i in stack <==> i < |regions| && v in regions[i].nodeIds)
    && (forall k :: 0 <= k < |stack| ==> stack[k] < |regions| && regions[stack[k]].depth == k)
    && (forall k :: 0 < k < |stack| ==> regions[stack[k]].parent == Some(stack[k - 1]))
  }

  /** Closed walk c lies inside the region and passes its header, which dominates all of c. */
  ghost predicate Captures(edges: seq<EdgeIR>, entries: seq<nat>, r: LoopRegion, c: seq<nat>) {
    r.header in c && forall x: nat :: x in c ==>
      x in r.nodeIds && Dominates(ArcsOf(edges), Elements(entries), r.header, x)
  }

  ghost predicate EveryCycleCaptured(edges: seq<EdgeIR>, entries: seq<nat>, regions: seq<LoopRegion>) {
    forall c :: ClosedWalk(ArcsOf(edges), c) && ReachableFrom(ArcsOf(edges), Elements(entries), c[0]) ==>
      exists i :: 0 <= i < |regions| && Captures(edges, entries, regions[i], c)
  }

  /** stacks[v] is the stack of node v. */
  ghost predicate StacksExact(regions: seq<LoopRegion>, stacks: seq<seq<nat>>) {
    forall v: nat :: v < |stacks| ==> StackExact(regions, v, stacks[v])
  }

  ghost predicate CompiledOk(n: nat, edges: seq<EdgeIR>, entries: seq<nat>, regions: seq<LoopRegion>,
      stacks: seq<seq<nat>>) {
    && (forall i :: 0 <= i < |regions| ==> RegionExact(edges, entries, regions[i]) && NestingExact(regions, i))
    && (forall i, j :: 0 <= i < j < |regions| ==> regions[i].header < regions[j].header)
    && (forall i, j :: 0 <= i < j < |regions| ==>
      DisjointOrNested(Elements(regions[i].nodeIds), Elements(regions[j].nodeIds)))
    && |stacks| == n && StacksExact(regions, stacks)
    && EveryCycleCaptured(edges, entries, regions)
  }

  /** The arcs kept by the acyclicity check are the forward arcs. */
  lemma {:induction false} KeptAreForward(n: nat, edges: seq<EdgeIR>, entries: seq<nat>, reachable: set<nat>,
      all: set<nat>)
    requires ValidEdges(n, edges)
    requires forall v: nat :: v in reachable <==> ReachableFrom(ArcsOf(edges), Elements(entries), v)
    requires forall k: nat :: k in all <==> IsBackEdge(edges, entries, k)
    ensures KeptArcs(edges, reachable, all) == ForwardArcs(ArcsOf(edges), Elements(entries))
  {
    var arcs, es := ArcsOf(edges), Elements(entries);
    var kept, fwd := KeptArcs(edges, reachable, all), ForwardArcs(arcs, es);
    forall a | a in kept
      ensures a in fwd
    {
      var k: nat :| k < |edges| && Kept(edges, reachable, all, k) && a == (edges[k].source, edges[k].target);
      assert !IsBackEdge(edges, entries, k);
    }
    forall a | a in fwd
      ensures a in kept
    {
      var k: nat :| k < |edges| && a == (edges[k].source, edges[k].target);
      assert !IsBackEdge(edges, entries, k);
      ReachesArc(arcs, a.0, a.1);
      ReachableExtends(arcs, es, a.0, a.1);
      assert Kept(edges, reachable, all, k);
    }
  }

  /** With a topological order of the forward arcs every reachable cycle has a dominating node. */
  lemma {:induction false} OrderedIsReducible(arcs: Arcs, es: set<nat>, order: seq<nat>)
    requires TopologicalOrder(ForwardArcs(arcs, es), order)
    requires forall x: nat :: ReachableFrom(arcs, es, x) ==> x in order
    ensures Reducible(arcs, es)
  {
    forall c | ClosedWalk(arcs, c) && ReachableFrom(arcs, es, c[0])
      ensures exists h :: h in c && forall x :: x in c ==> Dominates(arcs, es, h, x)
    {
      var h := CycleCaptured(arcs, es, order, c);
    }
  }

  /** In a reducible graph each candidate is an exact region, entered only at its header. */
  lemma {:induction false} CandidateMakesRegion(n: nat, edges: seq<EdgeIR>, entries: seq<nat>, c: Candidate,
      parents: seq<Option<nat>>, i: nat, depth: nat)
    requires ValidEdges(n, edges) && i < |parents| && CandidateOk(edges, entries, c) && c.nodes <= NodeSet(n)
    requires SingleEntry(ArcsOf(edges), Elements(entries))
    requires forall e, u: nat :: e in entries ==> (u, e) !in ArcsOf(edges)
    ensures RegionExact(edges, entries, MakeRegion(n, edges, c, parents, i, depth))
    ensures forall k: nat :: k in ExternalEntries(edges, c.nodes) ==> edges[k].target == c.header
    ensures forall e :: e in entries ==> e !in c.nodes
  {
    var arcs, es := ArcsOf(edges), Elements(entries);
    var r := MakeRegion(n, edges, c, parents, i, depth);
    forall x: nat
      ensures x in r.nodeIds <==> x in c.nodes
      ensures x in c.nodes ==> ReachableFrom(arcs, es, x) && Dominates(arcs, es, c.header, x)
    {
      if x in c.nodes {
        LoopReachable(arcs, es, c.header, x);
        LoopDominated(arcs, es, c.header, x);
      }
    }
    forall k: nat | k in ExternalEntries(edges, c.nodes)
      ensures edges[k].target == c.header
    {
      assert (edges[k].source, edges[k].target) in arcs;
      if edges[k].target != c.header {
        LoopClosedUnderPredecessors(arcs, es, c.header, edges[k].source, edges[k].target);
      }
    }
    var s :| BackArc(arcs, es, s, c.header);
    forall e | e in entries
      ensures e !in c.nodes
    {
      if e in c.nodes { EntryInLoopIsHeader(arcs, es, c.header, e); }
    }
  }

  lemma {:induction false} LoopInRange(n: nat, edges: seq<EdgeIR>, entries: seq<nat>, h: nat, x: nat)
    requires ValidEdges(n, edges) && IsHeader(ArcsOf(edges), Elements(entries), h) &&
      InLoop(ArcsOf(edges), Elements(entries), h, x)
    ensures x < n
  {
    var arcs := ArcsOf(edges);
    ArcsInRange(n, edges);
    if x != h {
      LoopReachesHeader(arcs, Elements(entries), h, x);
      var p :| WalkFromTo(arcs, p, x, h);
      assert (p[0], p[0 + 1]) in arcs;
    }
  }

  lemma {:induction false} CandidatesNested(n: nat, edges: seq<EdgeIR>, entries: seq<nat>, cs: seq<Candidate>)
    requires ValidEdges(n, edges) && CandidatesOk(edges, entries, cs) && SingleEntry(ArcsOf(edges), Elements(entries))
    ensures NestedLoops(cs, n)
  {
    LoopsAreLaminar(edges, entries, cs);
    forall i | 0 <= i < |cs|
      ensures cs[i].nodes != {} && cs[i].nodes <= NodeSet(n)
    {
      assert cs[i].header in cs[i].nodes;
      forall x | x in cs[i].nodes ensures x in NodeSet(n) { LoopInRange(n, edges, entries, cs[i].header, x); }
    }
  }

  /** Region i was made from candidate i with the computed parents and depths. */
  ghost predicate RegionsFrom(n: nat, edges: seq<EdgeIR>, cs: seq<Candidate>, parents: seq<Option<nat>>,
      regions: seq<LoopRegion>, upTo: nat)
    requires NestedLoops(cs, n) && ParentsOk(cs, parents) && upTo <= |cs|
  {
    |regions| == upTo && forall i :: 0 <= i < upTo ==>
      regions[i] == MakeRegion(n, edges, cs[i], parents, i, DepthOf(cs, n, parents, i))
  }

  lemma {:induction false} RegionNodes(n: nat, edges: seq<EdgeIR>, cs: seq<Candidate>, parents: seq<Option<nat>>,
      regions: seq<LoopRegion>, i: nat)
    requires NestedLoops(cs, n) && ParentsOk(cs, parents) && RegionsFrom(n, edges, cs, parents, regions, |cs|) &&
      i < |cs|
    ensures Elements(regions[i].nodeIds) == cs[i].nodes
  {
  }

  lemma {:induction false} RegionsNest(n: nat, edges: seq<EdgeIR>, cs: seq<Candidate>, parents: seq<Option<nat>>,
      regions: seq<LoopRegion>, i: nat)
    requires NestedLoops(cs, n) && ParentsOk(cs, parents) && RegionsFrom(n, edges, cs, parents, regions, |cs|) &&
      i < |cs|
    ensures NestingExact(regions, i)
  {
    assert IsParent(cs, i, parents[i]);
    forall j | 0 <= j < |cs|
      ensures Elements(regions[j].nodeIds) == cs[j].nodes
    {
      RegionNodes(n, edges, cs, parents, regions, j);
    }
    if parents[i].Some? {
      var p := parents[i].value;
      forall j | 0 <= j < |regions| && j != p && StrictlyInside(regions[i], regions[j])
        ensures StrictlyInside(regions[p], regions[j])
      {
        ParentInnermost(cs, n, i, p, j);
      }
    }
  }

  lemma {:induction false} StackTransfers(n: nat, edges: seq<EdgeIR>, cs: seq<Candidate>, parents: seq<Option<nat>>,
      regions: seq<LoopRegion>, v: nat, stack: seq<nat>)
    requires NestedLoops(cs, n) && ParentsOk(cs, parents) && RegionsFrom(n, edges, cs, parents, regions, |cs|)
    requires LoopStack(cs, n, parents, v, stack)
    ensures StackExact(regions, v, stack)
  {
    forall i: nat | i < |cs|
      ensures v in regions[i].nodeIds <==> v in cs[i].nodes
    {
      RegionNodes(n, edges, cs, parents, regions, i);
    }
  }

  lemma {:induction false} CyclesCaptured(n: nat, edges: seq<EdgeIR>, entries: seq<nat>, cs: seq<Candidate>,
      parents: seq<Option<nat>>, regions: seq<LoopRegion>, order: seq<nat>)
    requires CandidatesOk(edges, entries, cs)
    requires NestedLoops(cs, n) && ParentsOk(cs, parents) && RegionsFrom(n, edges, cs, parents, regions, |cs|)
    requires TopologicalOrder(ForwardArcs(ArcsOf(edges), Elements(entries)), order)
    requires forall x: nat :: ReachableFrom(ArcsOf(edges), Elements(entries), x) ==> x in order
    ensures EveryCycleCaptured(edges, entries, regions)
  {
    var arcs, es := ArcsOf(edges), Elements(entries);
    forall c | ClosedWalk(arcs, c) && ReachableFrom(arcs, es, c[0])
      ensures exists i :: 0 <= i < |regions| && Captures(edges, entries, regions[i], c)
    {
      var h := CycleCaptured(arcs, es, order, c);
      var i :| 0 <= i < |cs| && cs[i].header == h;
      RegionNodes(n, edges, cs, parents, regions, i);
      forall x: nat | x in c
        ensures x in regions[i].nodeIds
      {
        assert x in cs[i].nodes;
        assert x in Elements(regions[i].nodeIds);
      }
      assert Captures(edges, entries, regions[i], c);
    }
  }

  method BuildRegion(n: nat, edges: seq<EdgeIR>, entries: seq<nat>, c: Candidate, parents: seq<Option<nat>>, i: nat,
      depth: nat)
    returns (region: LoopRegion)
    requires ValidEdges(n, edges) && i < |parents| && CandidateOk(edges, entries, c) && c.nodes <= NodeSet(n)
    requires SingleEntry(ArcsOf(edges), Elements(entries))
    requires forall e, u: nat :: e in entries ==> (u, e) !in ArcsOf(edges)
    ensures region == MakeRegion(n, edges, c, parents, i, depth)
  {
    CandidateMakesRegion(n, edges, entries, c, parents, i, depth);
    var external := ExternalEntries(edges, c.nodes);
    if (exists k | k in external :: edges[k].target != c.header) ||
      (exists e | e in entries :: e in c.nodes && e != c.header) {
      // the second LOOP_ENTRY_INVALID report: its condition can never hold here
      assert false;
    }
    region := MakeRegion(n, edges, c, parents, i, depth);
  }

  method ComputeDepths(cs: seq<Candidate>, n: nat, parents: seq<Option<nat>>) returns (depths: seq<nat>)
    requires NestedLoops(cs, n) && ParentsOk(cs, parents)
    ensures |depths| == |cs| && forall i :: 0 <= i < |cs| ==> depths[i] == DepthOf(cs, n, parents, i)
  {
    depths := [];
    for i := 0 to |cs|
      invariant |depths| == i && forall j :: 0 <= j < i ==> depths[j] == DepthOf(cs, n, parents, j)
    {
      var depth := ComputeDepth(cs, n, parents, i);
      depths := depths + [depth];
    }
  }

  lemma {:induction false} RegionsFromNext(n: nat, edges: seq<EdgeIR>, cs: seq<Candidate>, parents: seq<Option<nat>>,
      regions: seq<LoopRegion>, i: nat, region: LoopRegion)
    requires NestedLoops(cs, n) && ParentsOk(cs, parents) && i < |cs| && RegionsFrom(n, edges, cs, parents, regions, i)
    requires region == MakeRegion(n, edges, cs[i], parents, i, DepthOf(cs, n, parents, i))
    ensures RegionsFrom(n, edges, cs, parents, regions + [region], i + 1)
  {
    var all := regions + [region];
    forall j | 0 <= j < i + 1
      ensures all[j] == MakeRegion(n, edges, cs[j], parents, j, DepthOf(cs, n, parents, j))
    {
      if j < i { assert all[j] == regions[j]; }
    }
  }

  method BuildRegions(n: nat, edges: seq<EdgeIR>, entries: seq<nat>, cs: seq<Candidate>, parents: seq<Option<nat>>,
      depths: seq<nat>)
    returns (regions: seq<LoopRegion>)
    requires ValidEdges(n, edges) && CandidatesOk(edges, entries, cs) && NestedLoops(cs, n) && ParentsOk(cs, parents)
    requires SingleEntry(ArcsOf(edges), Elements(entries))
    requires forall e, u: nat :: e in entries ==> (u, e) !in ArcsOf(edges)
    requires |depths| == |cs| && forall i :: 0 <= i < |cs| ==> depths[i] == DepthOf(cs, n, parents, i)
    ensures RegionsFrom(n, edges, cs, parents, regions, |cs|)
  {
    regions := [];
    for i := 0 to |cs|
      invariant RegionsFrom(n, edges, cs, parents, regions, i)
    {
      var region := BuildRegion(n, edges, entries, cs[i], parents, i, depths[i]);
      RegionsFromNext(n, edges, cs, parents, regions, i, region);
      regions := regions + [region];
    }
  }

  lemma {:induction false} RegionsExact(n: nat, edges: seq<EdgeIR>, entries: seq<nat>, cs: seq<Candidate>,
      parents: seq<Option<nat>>, regions: seq<LoopRegion>)
    requires ValidEdges(n, edges) && CandidatesOk(edges, entries, cs) && NestedLoops(cs, n) && ParentsOk(cs, parents)
    requires SingleEntry(ArcsOf(edges), Elements(entries))
    requires forall e, u: nat :: e in entries ==> (u, e) !in ArcsOf(edges)
    requires RegionsFrom(n, edges, cs, parents, regions, |cs|)
    ensures forall i :: 0 <= i < |cs| ==> RegionExact(edges, entries, regions[i])
  {
    forall i | 0 <= i < |cs|
      ensures RegionExact(edges, entries, regions[i])
    {
      CandidateMakesRegion(n, edges, entries, cs[i], parents, i, DepthOf(cs, n, parents, i));
    }
  }

  method BuildStack(n: nat, edges: seq<EdgeIR>, cs: seq<Candidate>, ghost parents: seq<Option<nat>>,
      ghost regions: seq<LoopRegion>, depths: seq<nat>, v: nat)
    returns (stack: seq<nat>)
    requires NestedLoops(cs, n) && ParentsOk(cs, parents) && RegionsFrom(n, edges, cs, parents, regions, |cs|)
    requires |depths| == |cs| && forall i :: 0 <= i < |cs| ==> depths[i] == DepthOf(cs, n, parents, i)
    ensures StackExact(regions, v, stack)
  {
    stack := StackFor(cs, n, parents, depths, v);
    StackTransfers(n, edges, cs, parents, regions, v, stack);
  }

  lemma {:induction false} StacksGrow(regions: seq<LoopRegion>, stacks: seq<seq<nat>>, stack: seq<nat>)
    requires StacksExact(regions, stacks) && StackExact(regions, |stacks|, stack)
    ensures StacksExact(regions, stacks + [stack])
  {
  }

  method BuildStacks(n: nat, edges: seq<EdgeIR>, cs: seq<Candidate>, ghost parents: seq<Option<nat>>,
      ghost regions: seq<LoopRegion>, depths: seq<nat>)
    returns (stacks: seq<seq<nat>>)
    requires NestedLoops(cs, n) && ParentsOk(cs, parents) && RegionsFrom(n, edges, cs, parents, regions, |cs|)
    requires |depths| == |cs| && forall i :: 0 <= i < |cs| ==> depths[i] == DepthOf(cs, n, parents, i)
    ensures |stacks| == n && StacksExact(regions, stacks)
  {
    stacks := [];
    for v := 0 to n
      invariant |stacks| == v && StacksExact(regions, stacks)
    {
      var stack := BuildStack(n, edges, cs, parents, regions, depths, v);
      StacksGrow(regions, stacks, stack);
      stacks := stacks + [stack];
    }
  }

  /** Regions and stacks of a graph that passed the entry and acyclicity checks. */
  method NestCandidates(n: nat, edges: seq<EdgeIR>, entries: seq<nat>, candidates: seq<Candidate>,
      ghost order: seq<nat>)
    returns (regions: seq<LoopRegion>, stacks: seq<seq<nat>>)
    requires ValidEdges(n, edges) && CandidatesOk(edges, entries, candidates)
    requires SingleEntry(ArcsOf(edges), Elements(entries))
    requires forall e, u: nat :: e in entries ==> (u, e) !in ArcsOf(edges)
    requires TopologicalOrder(ForwardArcs(ArcsOf(edges), Elements(entries)), order)
    requires forall x: nat :: ReachableFrom(ArcsOf(edges), Elements(entries), x) ==> x in order
    ensures CompiledOk(n, edges, entries, regions, stacks)
  {
    LoopsAreLaminar(edges, entries, candidates);
    var overlap := HasOverlap(candidates);
    if overlap {
      // the LOOP_OVERLAP_INVALID report: natural loops never overlap here
      assert false;
    }
    var cs := SortCandidates(edges, entries, candidates);
    CandidatesNested(n, edges, entries, cs);
    var parents := FindParents(cs);
    var depths := ComputeDepths(cs, n, parents);
    regions := BuildRegions(n, edges, entries, cs, parents, depths);
    RegionsExact(n, edges, entries, cs, parents, regions);
    stacks := BuildStacks(n, edges, cs, parents, regions, depths);
    CyclesCaptured(n, edges, entries, cs, parents, regions, order);
    Assemble(n, edges, entries, cs, parents, regions, stacks);
  }

  lemma {:induction false} Assemble(n: nat, edges: seq<EdgeIR>, entries: seq<nat>, cs: seq<Candidate>,
      parents: seq<Option<nat>>, regions: seq<LoopRegion>, stacks: seq<seq<nat>>)
    requires NestedLoops(cs, n) && ParentsOk(cs, parents) && RegionsFrom(n, edges, cs, parents, regions, |cs|)
    requires forall i, j :: 0 <= i < j < |cs| ==> cs[i].header < cs[j].header
    requires forall i :: 0 <= i < |cs| ==> RegionExact(edges, entries, regions[i])
    requires |stacks| == n && StacksExact(regions, stacks)
    requires EveryCycleCaptured(edges, entries, regions)
    ensures CompiledOk(n, edges, entries, regions, stacks)
  {
    forall i | 0 <= i < |regions|
      ensures NestingExact(regions, i)
    {
      RegionsNest(n, edges, cs, parents, regions, i);
    }
    forall i, j | 0 <= i < j < |regions|
      ensures DisjointOrNested(Elements(regions[i].nodeIds), Elements(regions[j].nodeIds))
    {
      RegionNodes(n, edges, cs, parents, regions, i);
      RegionNodes(n, edges, cs, parents, regions, j);
    }
  }

  /** Compiles the loop regions of a graph.  It is rejected for its entries exactly
      when some component is entered at two nodes, as irreducible exactly when its
      components are entered once but some reachable cycle has no dominating node,
      and otherwise compiled to exact, nested regions that capture every cycle. */
  method CompileLoopRegions(n: nat, edges: seq<EdgeIR>, g: GraphIR, entries: seq<nat>) returns (r: CompileResult)
    requires ValidEdges(n, edges) && Indexes(g, n, edges)
    requires forall v: nat :: v in entries <==> v < n && forall u: nat :: (u, v) !in ArcsOf(edges)
    ensures r.Rejected? && r.diagnostic.LoopEntryInvalid? <==> !SingleEntry(ArcsOf(edges), Elements(entries))
    ensures r.Rejected? && r.diagnostic.LoopEntryInvalid? ==> AccurateEntryReport(edges, entries, r.diagnostic)
    ensures r.Compiled? <==>
      SingleEntry(ArcsOf(edges), Elements(entries)) && Reducible(ArcsOf(edges), Elements(entries))
    ensures r.Compiled? ==> CompiledOk(n, edges, entries, r.regions, r.stacks)
  {
    ghost var arcs, es := ArcsOf(edges), Elements(entries);
    var reachable := ReachableNodes(n, edges, g, entries);
    var doms := ComputeDominators(n, edges, g, entries, reachable);
    var groups, all := CollectBackEdges(n, edges, entries, reachable, doms);
    var conflict := CheckEntries(n, edges, g, entries);
    if conflict.Some? {
      return Rejected(conflict.value);
    }
    var visited, order := CheckAcyclic(n, edges, g, reachable, all);
    KeptAreForward(n, edges, entries, reachable, all);
    if visited != |reachable| {
      if Reducible(arcs, es) { ReducibleLeavesNoCycle(arcs, es); }
      return Rejected(LoopIrreducible);
    }
    OrderedIsReducible(arcs, es, order);
    var candidates := CollectCandidates(n, edges, g, entries, all, groups);
    var regions, stacks := NestCandidates(n, edges, entries, candidates, order);
    return Compiled(regions, stacks);
  }
}
