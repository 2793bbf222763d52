/** Loop compilation: from the graph to nested loop regions, or a diagnostic. */
module LoopRegions {
  import opened Digraph
  import opened NaturalLoops
  import opened WorkflowGraph
  import opened LoopPasses
  import opened AcyclicityPass
  import opened ComponentSearch
  import opened Sorting
  import opened Options

  /** The back edges that share one header, in edge order. */
  datatype HeaderGroup = HeaderGroup(header: nat, edgeIds: seq<nat>)

  datatype Candidate = Candidate(header: nat, nodes: set<nat>, backEdges: seq<nat>)

  ghost predicate IsBackEdge(edges: seq<EdgeIR>, entries: seq<nat>, k: nat) {
    k < |edges| && BackArc(ArcsOf(edges), Elements(entries), edges[k].source, edges[k].target)
  }

  /** Every back edge seen so far is listed, once, under its own header. */
  ghost predicate GroupsOk(edges: seq<EdgeIR>, all: set<nat>, groups: seq<HeaderGroup>) {
    && (forall i, j :: 0 <= i < j < |groups| ==> groups[i].header != groups[j].header)
    && (forall i :: 0 <= i < |groups| ==> groups[i].edgeIds != [] && Ascending(groups[i].edgeIds))
    && (forall i, k: nat {:trigger k in groups[i].edgeIds} :: 0 <= i < |groups| && k in groups[i].edgeIds ==>
      k in all && k < |edges| && edges[k].target == groups[i].header)
    && (forall k: nat :: k in all ==> exists i :: 0 <= i < |groups| && k in groups[i].edgeIds)
  }

  method FindGroup(groups: seq<HeaderGroup>, header: nat) returns (i: nat)
    ensures i <= |groups| && (i < |groups| ==> groups[i].header == header)
    ensures i == |groups| ==> forall j :: 0 <= j < |groups| ==> groups[j].header != header
  {
    i := 0;
    while i < |groups| && groups[i].header != header
      invariant i <= |groups| && forall j :: 0 <= j < i ==> groups[j].header != header
    {
      i := i + 1;
    }
  }

  lemma {:induction false} ExtendGroup(edges: seq<EdgeIR>, all: set<nat>, groups: seq<HeaderGroup>, i: nat, k: nat)
    requires GroupsOk(edges, all, groups) && k < |edges| && i < |groups| && groups[i].header == edges[k].target
    requires forall m: nat :: m in all ==> m < k
    ensures GroupsOk(edges, all + {k}, groups[i := HeaderGroup(edges[k].target, groups[i].edgeIds + [k])])
  {
    var groups' := groups[i := HeaderGroup(edges[k].target, groups[i].edgeIds + [k])];
    forall y: nat | y in groups[i].edgeIds ensures y < k { assert y in all; }
    AppendAscending(groups[i].edgeIds, k);
    forall m: nat | m in all + {k}
      ensures exists j :: 0 <= j < |groups'| && m in groups'[j].edgeIds
    {
      if m == k { assert k in groups'[i].edgeIds; } else {
        var j :| 0 <= j < |groups| && m in groups[j].edgeIds;
        assert m in groups'[j].edgeIds;
      }
    }
  }

  lemma {:induction false} NewGroup(edges: seq<EdgeIR>, all: set<nat>, groups: seq<HeaderGroup>, k: nat)
    requires GroupsOk(edges, all, groups) && k < |edges|
    requires forall j :: 0 <= j < |groups| ==> groups[j].header != edges[k].target
    ensures GroupsOk(edges, all + {k}, groups + [HeaderGroup(edges[k].target, [k])])
  {
    var groups' := groups + [HeaderGroup(edges[k].target, [k])];
    forall m: nat | m in all + {k}
      ensures exists j :: 0 <= j < |groups'| && m in groups'[j].edgeIds
    {
      if m == k { assert k in groups'[|groups|].edgeIds; } else {
        var j :| 0 <= j < |groups| && m in groups[j].edgeIds;
        assert m in groups'[j].edgeIds;
      }
    }
  }

  /** Groups the edges whose target dominates their source by header. */
  method CollectBackEdges(n: nat, edges: seq<EdgeIR>, entries: seq<nat>, reachable: set<nat>, doms: seq<set<nat>>)
    returns (groups: seq<HeaderGroup>, all: set<nat>)
    requires ValidEdges(n, edges) && |doms| == n
    requires forall v: nat :: v in reachable <==> ReachableFrom(ArcsOf(edges), Elements(entries), v)
    requires forall v: nat, d: nat :: v < n && v in reachable ==>
      (d in doms[v] <==> Dominates(ArcsOf(edges), Elements(entries), d, v))
    ensures forall k: nat :: k in all <==> IsBackEdge(edges, entries, k)
    ensures GroupsOk(edges, all, groups)
  {
    groups, all := [], {};
    for k := 0 to |edges|
      invariant forall m: nat :: m in all <==> m < k && IsBackEdge(edges, entries, m)
      invariant GroupsOk(edges, all, groups)
    {
      var e := edges[k];
      BackEdgeTest(n, edges, entries, reachable, k);
      if e.source in reachable && e.target in reachable && e.target in doms[e.source] {
        var i := FindGroup(groups, e.target);
        if i < |groups| {
          ExtendGroup(edges, all, groups, i, k);
          groups := groups[i := HeaderGroup(e.target, groups[i].edgeIds + [k])];
        } else {
          NewGroup(edges, all, groups, k);
          groups := groups + [HeaderGroup(e.target, [k])];
        }
        all := all + {k};
      }
    }
  }

  lemma {:induction false} BackEdgeTest(n: nat, edges: seq<EdgeIR>, entries: seq<nat>, reachable: set<nat>, k: nat)
    requires ValidEdges(n, edges) && k < |edges|
    requires forall v: nat :: v in reachable <==> ReachableFrom(ArcsOf(edges), Elements(entries), v)
    ensures IsBackEdge(edges, entries, k) <==>
      edges[k].source in reachable && edges[k].target in reachable &&
      Dominates(ArcsOf(edges), Elements(entries), edges[k].target, edges[k].source)
  {
    assert (edges[k].source, edges[k].target) in ArcsOf(edges);
    if edges[k].source in reachable {
      ReachesArc(ArcsOf(edges), edges[k].source, edges[k].target);
      ReachableExtends(ArcsOf(edges), Elements(entries), edges[k].source, edges[k].target);
    }
  }

  // ----- the entry check on strongly connected components -----

  datatype Diagnostic =
    | LoopEntryInvalid(loopNodes: set<nat>, expectedEntry: nat, invalidEdges: seq<nat>)
    | LoopIrreducible

  function EdgeIdsWhere(edges: seq<EdgeIR>, f: EdgeIR -> bool): (r: seq<nat>)
    ensures Ascending(r)
    ensures forall k: nat :: k in r <==> k < |edges| && f(edges[k])
  {
    if edges == [] then []
    else
      var last := |edges| - 1;
      var r := EdgeIdsWhere(edges[..last], f);
      assert forall k: nat :: k in r ==> k < last;
      AppendAscending(r, last);
      assert forall k: nat :: k < last ==> edges[..last][k] == edges[k];
      if f(edges[last]) then r + [last] else r
  }

  function ExternalEntries(edges: seq<EdgeIR>, inside: set<nat>): seq<nat> {
    EdgeIdsWhere(edges, (e: EdgeIR) => e.source !in inside && e.target in inside)
  }

  /** Where the component is entered: by an edge from outside or as a workflow entry. */
  function EntryTargets(edges: seq<EdgeIR>, entries: seq<nat>, inside: set<nat>): set<nat> {
    (set k | k in ExternalEntries(edges, inside) :: edges[k].target) + (Elements(entries) * inside)
  }

  lemma {:induction false} EntryTargetsExact(n: nat, edges: seq<EdgeIR>, entries: seq<nat>, components: seq<seq<nat>>,
      i: nat, x: nat)
    requires PartitionsByMutualReach(ArcsOf(edges), n, components) && i < |components| && x in components[i]
    ensures x in EntryTargets(edges, entries, Elements(components[i])) <==>
      EntryTarget(ArcsOf(edges), Elements(entries), x)
  {
    var arcs, inside := ArcsOf(edges), Elements(components[i]);
    if x !in entries {
      if x in EntryTargets(edges, entries, inside) {
        var k: nat :| k in ExternalEntries(edges, inside) && edges[k].target == x;
        assert (edges[k].source, x) in arcs;
        ReachesArc(arcs, edges[k].source, x);
      }
      if u: nat :| (u, x) in arcs && !Reaches(arcs, x, u) {
        var k: nat :| k < |edges| && (u, x) == (edges[k].source, edges[k].target);
        assert k in ExternalEntries(edges, inside);
      }
    }
  }

  lemma {:induction false} LeastOf(s: set<nat>) returns (m: nat)
    requires s != {}
    ensures m in s && forall x :: x in s ==> m <= x
  {
    var x :| x in s;
    if s == {x} { m := x; } else {
      var rest := LeastOf(s - {x});
      m := if x < rest then x else rest;
      forall y | y in s ensures m <= y { if y != x { assert y in s - {x}; } }
    }
  }

  method Least(s: set<nat>) returns (m: nat)
    requires s != {}
    ensures m in s && forall x :: x in s ==> m <= x
  {
    ghost var least := LeastOf(s);
    m :| m in s && forall x :: x in s ==> m <= x;
  }

  predicate IsCycle(g: GraphIR, component: seq<nat>)
    requires forall x: nat :: x in component ==> x < |g.successors|
  {
    |component| > 1 || exists x | x in component :: x in g.successors[x]
  }

  /** The report names one whole strongly connected component, its first entry
      node, another entry node exists, and lists exactly the edges that enter elsewhere. */
  ghost predicate AccurateEntryReport(edges: seq<EdgeIR>, entries: seq<nat>, d: Diagnostic) {
    && d.LoopEntryInvalid? && d.expectedEntry in d.loopNodes
    && (forall x, y: nat :: x in d.loopNodes ==>
      (y in d.loopNodes <==> Reaches(ArcsOf(edges), x, y) && Reaches(ArcsOf(edges), y, x)))
    && EntryTarget(ArcsOf(edges), Elements(entries), d.expectedEntry)
    && (forall y :: y in d.loopNodes && EntryTarget(ArcsOf(edges), Elements(entries), y) ==> d.expectedEntry <= y)
    && (exists y :: y in d.loopNodes && EntryTarget(ArcsOf(edges), Elements(entries), y) && y != d.expectedEntry)
    && (forall k: nat :: k in d.invalidEdges <==>
      (k < |edges| && edges[k].source !in d.loopNodes && edges[k].target in d.loopNodes &&
        edges[k].target != d.expectedEntry))
  }

  function EntryReport(edges: seq<EdgeIR>, inside: set<nat>, canonical: nat): Diagnostic {
    LoopEntryInvalid(inside, canonical,
      EdgeIdsWhere(edges, (e: EdgeIR) => e.source !in inside && e.target in inside && e.target != canonical))
  }

  /** The computed targets are exactly the component's entry nodes. */
  lemma {:induction false} TargetsAre(n: nat, edges: seq<EdgeIR>, entries: seq<nat>, components: seq<seq<nat>>, i: nat)
    requires PartitionsByMutualReach(ArcsOf(edges), n, components) && i < |components|
    ensures var targets := EntryTargets(edges, entries, Elements(components[i]));
      forall x: nat :: x in targets <==> x in components[i] && EntryTarget(ArcsOf(edges), Elements(entries), x)
  {
    var targets := EntryTargets(edges, entries, Elements(components[i]));
    assert targets <= Elements(components[i]);
    forall x: nat
      ensures x in targets <==> x in components[i] && EntryTarget(ArcsOf(edges), Elements(entries), x)
    {
      if x in components[i] { EntryTargetsExact(n, edges, entries, components, i, x); }
    }
  }

  lemma {:induction false} ReportAccurate(n: nat, edges: seq<EdgeIR>, entries: seq<nat>, component: seq<nat>,
      targets: set<nat>, canonical: nat)
    requires forall x: nat, y: nat :: x in component ==>
      (y in component <==> Reaches(ArcsOf(edges), x, y) && Reaches(ArcsOf(edges), y, x))
    requires forall x: nat :: x in targets <==> x in component && EntryTarget(ArcsOf(edges), Elements(entries), x)
    requires |targets| > 1 && canonical in targets && forall y :: y in targets ==> canonical <= y
    ensures AccurateEntryReport(edges, entries, EntryReport(edges, Elements(component), canonical))
    ensures !SingleEntry(ArcsOf(edges), Elements(entries))
  {
    SecondTarget(targets, canonical);
    var other :| other in targets && other != canonical;
    assert other in component && canonical in component;
  }

  lemma {:induction false} EntryTargetInRange(n: nat, edges: seq<EdgeIR>, entries: seq<nat>, x: nat)
    requires ValidEdges(n, edges) && forall e: nat :: e in entries ==> e < n
    requires EntryTarget(ArcsOf(edges), Elements(entries), x)
    ensures x < n
  {
    ArcsInRange(n, edges);
  }

  lemma {:induction false} NoConflictIsSingleEntry(n: nat, edges: seq<EdgeIR>, entries: seq<nat>,
      components: seq<seq<nat>>)
    requires ValidEdges(n, edges) && forall e: nat :: e in entries ==> e < n
    requires PartitionsByMutualReach(ArcsOf(edges), n, components)
    requires forall j :: 0 <= j < |components| ==> AgreeOnEntry(edges, entries, components[j])
    ensures SingleEntry(ArcsOf(edges), Elements(entries))
  {
    var arcs, es := ArcsOf(edges), Elements(entries);
    forall x, y | EntryTarget(arcs, es, x) && EntryTarget(arcs, es, y) && Reaches(arcs, x, y) && Reaches(arcs, y, x)
      ensures x == y
    {
      EntryTargetInRange(n, edges, entries, x);
      assert x in NodeSet(n);
      var j :| 0 <= j < |components| && x in components[j];
      assert AgreeOnEntry(edges, entries, components[j]);
    }
  }

  ghost predicate AgreeOnEntry(edges: seq<EdgeIR>, entries: seq<nat>, component: seq<nat>) {
    forall x: nat, y: nat :: x in component && y in component ==>
      EntryTarget(ArcsOf(edges), Elements(entries), x) && EntryTarget(ArcsOf(edges), Elements(entries), y) ==> x == y
  }

  lemma {:induction false} ComponentAgrees(n: nat, edges: seq<EdgeIR>, entries: seq<nat>, components: seq<seq<nat>>,
      i: nat)
    requires PartitionsByMutualReach(ArcsOf(edges), n, components) && i < |components|
    requires |components[i]| <= 1 || |EntryTargets(edges, entries, Elements(components[i]))| <= 1
    ensures AgreeOnEntry(edges, entries, components[i])
  {
    var targets := EntryTargets(edges, entries, Elements(components[i]));
    forall x: nat, y: nat | x in components[i] && y in components[i] &&
        EntryTarget(ArcsOf(edges), Elements(entries), x) && EntryTarget(ArcsOf(edges), Elements(entries), y)
      ensures x == y
    {
      EntryTargetsExact(n, edges, entries, components, i, x);
      EntryTargetsExact(n, edges, entries, components, i, y);
      if x != y { AtLeastTwo(targets, x, y); }
    }
  }

  /** Reports the first component that is entered at two different nodes. */
  method CheckEntries(n: nat, edges: seq<EdgeIR>, g: GraphIR, entries: seq<nat>) returns (d: Option<Diagnostic>)
    requires ValidEdges(n, edges) && Indexes(g, n, edges) && forall e: nat :: e in entries ==> e < n
    ensures d.None? <==> SingleEntry(ArcsOf(edges), Elements(entries))
    ensures d.Some? ==> AccurateEntryReport(edges, entries, d.value)
  {
    var components := StronglyConnectedComponents(n, edges, g);
    for i := 0 to |components|
      invariant forall j :: 0 <= j < i ==> AgreeOnEntry(edges, entries, components[j])
    {
      var inside := Elements(components[i]);
      var targets := EntryTargets(edges, entries, inside);
      if IsCycle(g, components[i]) && |targets| > 1 {
        var canonical := Least(targets);
        TargetsAre(n, edges, entries, components, i);
        ReportAccurate(n, edges, entries, components[i], targets, canonical);
        return Some(EntryReport(edges, inside, canonical));
      }
      ComponentAgrees(n, edges, entries, components, i);
    }
    NoConflictIsSingleEntry(n, edges, entries, components);
    return None;
  }

  lemma {:induction false} SecondTarget(targets: set<nat>, x: nat)
    requires x in targets && |targets| > 1
    ensures exists y :: y in targets && y != x
  {
    assert |targets - {x}| > 0;
    var y :| y in targets - {x};
  }

  lemma {:induction false} AtLeastTwo(targets: set<nat>, x: nat, y: nat)
    requires x in targets && y in targets && x != y
    ensures |targets| > 1
  {
    assert targets == {x} + (targets - {x});
    assert y in targets - {x};
  }

  // ----- candidate loops and their nesting -----

  /** The candidate holds exactly the natural loop of its header. */
  ghost predicate CandidateOk(edges: seq<EdgeIR>, entries: seq<nat>, c: Candidate) {
    && IsHeader(ArcsOf(edges), Elements(entries), c.header)
    && (forall x: nat :: x in c.nodes <==> InLoop(ArcsOf(edges), Elements(entries), c.header, x))
    && Ascending(c.backEdges)
    && (forall k: nat :: k in c.backEdges <==> IsBackEdge(edges, entries, k) && edges[k].target == c.header)
  }

  /** One candidate per header. */
  ghost predicate CandidatesOk(edges: seq<EdgeIR>, entries: seq<nat>, cs: seq<Candidate>) {
    && (forall i :: 0 <= i < |cs| ==> CandidateOk(edges, entries, cs[i]))
    && (forall i, j :: 0 <= i < j < |cs| ==> cs[i].header != cs[j].header)
    && (forall h :: IsHeader(ArcsOf(edges), Elements(entries), h) ==> exists i :: 0 <= i < |cs| && cs[i].header == h)
  }

  lemma {:induction false} CollectedIsNaturalLoop(edges: seq<EdgeIR>, entries: seq<nat>, all: set<nat>,
      groups: seq<HeaderGroup>, i: nat, loop: set<nat>, sources: seq<nat>)
    requires GroupsOk(edges, all, groups) && i < |groups|
    requires forall k: nat :: k in all <==> IsBackEdge(edges, entries, k)
    requires |sources| == |groups[i].edgeIds|
    requires forall j :: 0 <= j < |sources| ==>
      groups[i].edgeIds[j] < |edges| && sources[j] == edges[groups[i].edgeIds[j]].source
    requires forall x: nat :: x in loop <==>
      x == groups[i].header || exists s :: s in sources && ReachesAvoiding(ArcsOf(edges), x, s, groups[i].header)
    ensures CandidateOk(edges, entries, Candidate(groups[i].header, loop, groups[i].edgeIds))
  {
    var arcs, es, h := ArcsOf(edges), Elements(entries), groups[i].header;
    assert groups[i].edgeIds[0] in groups[i].edgeIds;
    forall k: nat | IsBackEdge(edges, entries, k) && edges[k].target == h
      ensures k in groups[i].edgeIds
    {
      var j :| 0 <= j < |groups| && k in groups[j].edgeIds;
    }
    forall s: nat
      ensures s in sources <==> BackArc(arcs, es, s, h)
    {
      if BackArc(arcs, es, s, h) {
        var k: nat :| k < |edges| && (s, h) == (edges[k].source, edges[k].target);
        assert IsBackEdge(edges, entries, k);
        var j :| 0 <= j < |sources| && groups[i].edgeIds[j] == k;
        assert sources[j] == s;
      }
      if s in sources {
        var j :| 0 <= j < |sources| && sources[j] == s;
        assert groups[i].edgeIds[j] in groups[i].edgeIds;
      }
    }
  }

  lemma {:induction false} EveryHeaderGrouped(edges: seq<EdgeIR>, entries: seq<nat>, all: set<nat>,
      groups: seq<HeaderGroup>, h: nat)
    requires GroupsOk(edges, all, groups) && IsHeader(ArcsOf(edges), Elements(entries), h)
    requires forall k: nat :: k in all <==> IsBackEdge(edges, entries, k)
    ensures exists i :: 0 <= i < |groups| && groups[i].header == h
  {
    var s: nat :| BackArc(ArcsOf(edges), Elements(entries), s, h);
    var k: nat :| k < |edges| && (s, h) == (edges[k].source, edges[k].target);
    assert IsBackEdge(edges, entries, k);
    var i :| 0 <= i < |groups| && k in groups[i].edgeIds;
  }

  function SourcesOf(edges: seq<EdgeIR>, edgeIds: seq<nat>): (r: seq<nat>)
    requires forall i :: 0 <= i < |edgeIds| ==> edgeIds[i] < |edges|
  {
    seq(|edgeIds|, i requires 0 <= i < |edgeIds| => edges[edgeIds[i]].source)
  }

  lemma {:induction false} GroupInRange(n: nat, edges: seq<EdgeIR>, all: set<nat>, groups: seq<HeaderGroup>, i: nat)
    requires ValidEdges(n, edges) && GroupsOk(edges, all, groups) && i < |groups|
    ensures groups[i].header < n
    ensures forall j :: 0 <= j < |groups[i].edgeIds| ==>
      groups[i].edgeIds[j] < |edges| && edges[groups[i].edgeIds[j]].source < n
  {
    forall j | 0 <= j < |groups[i].edgeIds|
      ensures groups[i].edgeIds[j] < |edges| && edges[groups[i].edgeIds[j]].target == groups[i].header
    {
      var k: nat := groups[i].edgeIds[j];
      assert k in groups[i].edgeIds;
    }
    assert groups[i].edgeIds[0] < |edges|;
  }

  method CollectCandidates(n: nat, edges: seq<EdgeIR>, g: GraphIR, ghost entries: seq<nat>, ghost all: set<nat>,
      groups: seq<HeaderGroup>)
    returns (cs: seq<Candidate>)
    requires ValidEdges(n, edges) && Indexes(g, n, edges) && GroupsOk(edges, all, groups)
    requires forall k: nat :: k in all <==> IsBackEdge(edges, entries, k)
    ensures CandidatesOk(edges, entries, cs)
  {
    cs := [];
    for i := 0 to |groups|
      invariant |cs| == i
      invariant forall j :: 0 <= j < i ==> cs[j].header == groups[j].header && CandidateOk(edges, entries, cs[j])
    {
      var header, ids := groups[i].header, groups[i].edgeIds;
      GroupInRange(n, edges, all, groups, i);
      var sources := SourcesOf(edges, ids);
      var loop := CollectLoop(n, edges, g, header, sources);
      CollectedIsNaturalLoop(edges, entries, all, groups, i, loop, sources);
      cs := cs + [Candidate(header, loop, ids)];
    }
    HeadersCovered(edges, entries, all, groups, cs);
  }

  lemma {:induction false} HeadersCovered(edges: seq<EdgeIR>, entries: seq<nat>, all: set<nat>,
      groups: seq<HeaderGroup>, cs: seq<Candidate>)
    requires GroupsOk(edges, all, groups) && forall k: nat :: k in all <==> IsBackEdge(edges, entries, k)
    requires |cs| == |groups| && forall j :: 0 <= j < |groups| ==>
      cs[j].header == groups[j].header && CandidateOk(edges, entries, cs[j])
    ensures CandidatesOk(edges, entries, cs)
  {
    forall h | IsHeader(ArcsOf(edges), Elements(entries), h)
      ensures exists i :: 0 <= i < |cs| && cs[i].header == h
    {
      EveryHeaderGrouped(edges, entries, all, groups, h);
      var i :| 0 <= i < |groups| && groups[i].header == h;
      assert cs[i].header == h;
    }
  }

  predicate DisjointOrNested(a: set<nat>, b: set<nat>) {
    a * b == {} || a < b || b < a
  }

  ghost predicate Laminar(cs: seq<Candidate>) {
    forall i, j :: 0 <= i < j < |cs| ==> DisjointOrNested(cs[i].nodes, cs[j].nodes)
  }

  lemma {:induction false} LoopsAreLaminar(edges: seq<EdgeIR>, entries: seq<nat>, cs: seq<Candidate>)
    requires CandidatesOk(edges, entries, cs) && SingleEntry(ArcsOf(edges), Elements(entries))
    ensures Laminar(cs)
  {
    forall i, j | 0 <= i < j < |cs|
      ensures DisjointOrNested(cs[i].nodes, cs[j].nodes)
    {
      CandidatePairLaminar(edges, entries, cs[i], cs[j]);
    }
  }

  lemma {:induction false} CandidatePairLaminar(edges: seq<EdgeIR>, entries: seq<nat>, a: Candidate, b: Candidate)
    requires CandidateOk(edges, entries, a) && CandidateOk(edges, entries, b) && a.header != b.header
    requires SingleEntry(ArcsOf(edges), Elements(entries))
    ensures DisjointOrNested(a.nodes, b.nodes)
  {
    if a.nodes * b.nodes != {} {
      var x :| x in a.nodes * b.nodes;
      LoopsLaminar(ArcsOf(edges), Elements(entries), a.header, b.header, x);
    }
  }

  /** The pairwise overlap test over all candidates. */
  method HasOverlap(cs: seq<Candidate>) returns (overlap: bool)
    ensures overlap <==> !Laminar(cs)
  {
    for i := 0 to |cs|
      invariant forall k, j :: 0 <= k < i && k < j < |cs| ==> DisjointOrNested(cs[k].nodes, cs[j].nodes)
    {
      for j := i + 1 to |cs|
        invariant forall m :: i < m < j ==> DisjointOrNested(cs[i].nodes, cs[m].nodes)
      {
        if !DisjointOrNested(cs[i].nodes, cs[j].nodes) {
          return true;
        }
      }
    }
    return false;
  }

  method SortCandidates(edges: seq<EdgeIR>, entries: seq<nat>, cs: seq<Candidate>) returns (sorted: seq<Candidate>)
    requires CandidatesOk(edges, entries, cs)
    ensures CandidatesOk(edges, entries, sorted)
    ensures forall i, j :: 0 <= i < j < |sorted| ==> sorted[i].header < sorted[j].header
  {
    var key := (c: Candidate) => c.header as real;
    sorted := SortBy(key, cs);
    forall i | 0 <= i < |sorted|
      ensures CandidateOk(edges, entries, sorted[i])
    {
      assert sorted[i] in cs;
    }
    assert forall i, j :: 0 <= i < j < |sorted| ==> key(sorted[i]) < key(sorted[j]);
    forall h | IsHeader(ArcsOf(edges), Elements(entries), h)
      ensures exists i :: 0 <= i < |sorted| && sorted[i].header == h
    {
      var i :| 0 <= i < |cs| && cs[i].header == h;
      assert cs[i] in sorted;
    }
  }
}
