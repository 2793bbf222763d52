/** The compiled workflow graph and its lookup tables.

    Nodes and edges are dictionaries in the program; a node or edge id is
    modelled by its insertion position, so the node order is the order of nat. */
module WorkflowGraph {
  import opened Digraph
  import opened Lists

  datatype EdgeIR = EdgeIR(source: nat, target: nat)

  datatype GraphIR = GraphIR(
    outgoing: seq<seq<nat>>,
    incoming: seq<seq<nat>>,
    predecessors: seq<seq<nat>>,
    successors: seq<seq<nat>>)

  ghost predicate ValidEdges(n: nat, edges: seq<EdgeIR>) {
    forall k :: 0 <= k < |edges| ==> edges[k].source < n && edges[k].target < n
  }

  ghost function ArcsOf(edges: seq<EdgeIR>): Arcs {
    set k | 0 <= k < |edges| :: (edges[k].source, edges[k].target)
  }

  ghost predicate Ascending(s: seq<nat>) {
    forall i, j :: 0 <= i < j < |s| ==> s[i] < s[j]
  }

  function Elements(s: seq<nat>): set<nat> {
    set x | x in s
  }

  /** The tables list, per node, exactly its edges in order and its distinct neighbours. */
  ghost predicate Indexes(g: GraphIR, n: nat, edges: seq<EdgeIR>) {
    && |g.outgoing| == |g.incoming| == |g.predecessors| == |g.successors| == n
    && (forall v: nat, u: nat {:trigger u in g.predecessors[v]} :: v < n && u in g.predecessors[v] ==> u < n)
    && (forall v: nat, u: nat {:trigger u in g.successors[v]} :: v < n && u in g.successors[v] ==> u < n)
    && (forall v :: 0 <= v < n ==>
      && Ascending(g.outgoing[v]) && Ascending(g.incoming[v])
      && Distinct(g.predecessors[v]) && Distinct(g.successors[v]))
    && (forall v: nat, k: nat {:trigger k in g.outgoing[v]} :: v < n ==>
      (k in g.outgoing[v] <==> k < |edges| && edges[k].source == v))
    && (forall v: nat, k: nat {:trigger k in g.incoming[v]} :: v < n ==>
      (k in g.incoming[v] <==> k < |edges| && edges[k].target == v))
    && (forall v: nat, u: nat {:trigger u in g.predecessors[v]} :: v < n ==>
      (u in g.predecessors[v] <==> (u, v) in ArcsOf(edges)))
    && (forall v: nat, u: nat {:trigger u in g.successors[v]} :: v < n ==>
      (u in g.successors[v] <==> (v, u) in ArcsOf(edges)))
  }

  lemma {:induction false} AppendAscending(s: seq<nat>, x: nat)
    requires Ascending(s) && forall y: nat :: y in s ==> y < x
    ensures Ascending(s + [x])
  {
    forall i | 0 <= i < |s| ensures s[i] < x { assert s[i] in s; }
  }

  /** Keeps the first occurrence of every element. */
  function FirstOccurrences(s: seq<nat>): (r: seq<nat>)
    ensures Distinct(r) && forall x :: x in r <==> x in s
  {
    if s == [] then []
    else
      var r := FirstOccurrences(s[..|s| - 1]);
      assert s == s[..|s| - 1] + [s[|s| - 1]];
      if s[|s| - 1] in r then r else r + [s[|s| - 1]]
  }

  lemma {:induction false} ArcsOfPrefix(edges: seq<EdgeIR>, k: nat)
    requires k < |edges|
    ensures ArcsOf(edges[..k + 1]) == ArcsOf(edges[..k]) + {(edges[k].source, edges[k].target)}
  {
    var p, q := edges[..k], edges[..k + 1];
    forall a | a in ArcsOf(q)
      ensures a in ArcsOf(p) + {(edges[k].source, edges[k].target)}
    {
      var i :| 0 <= i < |q| && a == (q[i].source, q[i].target);
      if i < k { assert p[i] == q[i]; }
    }
    forall a | a in ArcsOf(p)
      ensures a in ArcsOf(q)
    {
      var i :| 0 <= i < |p| && a == (p[i].source, p[i].target);
      assert q[i] == p[i];
    }
    assert q[k] == edges[k];
  }

  /** Row v of t lists in order those of the first k edges that leave (out) or enter v. */
  ghost predicate EdgeTable(t: seq<seq<nat>>, n: nat, edges: seq<EdgeIR>, k: nat, out: bool)
    requires k <= |edges|
  {
    && |t| == n
    && forall v: nat :: v < n ==>
      && Ascending(t[v])
      && forall i: nat :: i in t[v] <==> i < k && (if out then edges[i].source else edges[i].target) == v
  }

  lemma {:induction false} EdgeTableStep(t: seq<seq<nat>>, n: nat, edges: seq<EdgeIR>, k: nat, out: bool, row: nat)
    requires k < |edges| && EdgeTable(t, n, edges, k, out) && row < n
    requires row == if out then edges[k].source else edges[k].target
    ensures EdgeTable(t[row := t[row] + [k]], n, edges, k + 1, out)
  {
    AppendAscending(t[row], k);
  }

  /** Row v of t lists the successors (out) or predecessors of v, possibly repeated. */
  ghost predicate NeighbourTable(t: seq<seq<nat>>, n: nat, arcs: Arcs, out: bool) {
    && |t| == n
    && forall v: nat, u: nat :: v < n ==> (u in t[v] <==> (if out then (v, u) else (u, v)) in arcs)
  }

  lemma {:induction false} NeighbourTableStep(t: seq<seq<nat>>, n: nat, arcs: Arcs, out: bool, a: (nat, nat),
      row: nat, x: nat)
    requires NeighbourTable(t, n, arcs, out) && row < n
    requires (row, x) == if out then a else (a.1, a.0)
    ensures NeighbourTable(t[row := t[row] + [x]], n, arcs + {a}, out)
  {
    var t' := t[row := t[row] + [x]];
    forall v: nat, u: nat | v < n
      ensures u in t'[v] <==> (if out then (v, u) else (u, v)) in arcs + {a}
    {
      assert u in t[v] <==> (if out then (v, u) else (u, v)) in arcs;
    }
  }

  /** What the four tables hold after the first k edges. */
  ghost predicate TablesUpTo(t: GraphIR, n: nat, edges: seq<EdgeIR>, k: nat)
    requires k <= |edges|
  {
    && EdgeTable(t.outgoing, n, edges, k, true) && EdgeTable(t.incoming, n, edges, k, false)
    && NeighbourTable(t.successors, n, ArcsOf(edges[..k]), true)
    && NeighbourTable(t.predecessors, n, ArcsOf(edges[..k]), false)
  }

  function AddEdge(t: GraphIR, k: nat, e: EdgeIR): GraphIR
    requires e.source < |t.outgoing| == |t.incoming| == |t.successors| == |t.predecessors|
    requires e.target < |t.outgoing|
  {
    GraphIR(
      t.outgoing[e.source := t.outgoing[e.source] + [k]],
      t.incoming[e.target := t.incoming[e.target] + [k]],
      t.predecessors[e.target := t.predecessors[e.target] + [e.source]],
      t.successors[e.source := t.successors[e.source] + [e.target]])
  }

  lemma {:induction false} AddEdgeKeepsTables(t: GraphIR, n: nat, edges: seq<EdgeIR>, k: nat)
    requires k < |edges| && ValidEdges(n, edges) && TablesUpTo(t, n, edges, k)
    ensures TablesUpTo(AddEdge(t, k, edges[k]), n, edges, k + 1)
  {
    var e := edges[k];
    ArcsOfPrefix(edges, k);
    EdgeTableStep(t.outgoing, n, edges, k, true, e.source);
    EdgeTableStep(t.incoming, n, edges, k, false, e.target);
    NeighbourTableStep(t.successors, n, ArcsOf(edges[..k]), true, (e.source, e.target), e.source, e.target);
    NeighbourTableStep(t.predecessors, n, ArcsOf(edges[..k]), false, (e.source, e.target), e.target, e.source);
  }

  method BuildGraph(n: nat, edges: seq<EdgeIR>) returns (g: GraphIR)
    requires ValidEdges(n, edges)
    ensures Indexes(g, n, edges)
  {
    var t := GraphIR(seq(n, _ => []), seq(n, _ => []), seq(n, _ => []), seq(n, _ => []));
    assert edges[..0] == [];
    for k := 0 to |edges|
      invariant TablesUpTo(t, n, edges, k)
    {
      AddEdgeKeepsTables(t, n, edges, k);
      t := AddEdge(t, k, edges[k]);
    }
    assert edges[..|edges|] == edges;
    g := GraphIR(t.outgoing, t.incoming,
                 seq(n, v requires 0 <= v < |t.predecessors| => FirstOccurrences(t.predecessors[v])),
                 seq(n, v requires 0 <= v < |t.successors| => FirstOccurrences(t.successors[v])));
    TablesIndex(n, edges, g, t.predecessors, t.successors);
  }

  lemma {:induction false} TablesIndex(n: nat, edges: seq<EdgeIR>, g: GraphIR, predecessors: seq<seq<nat>>,
      successors: seq<seq<nat>>)
    requires ValidEdges(n, edges) && |g.predecessors| == |g.successors| == n
    requires EdgeTable(g.outgoing, n, edges, |edges|, true) && EdgeTable(g.incoming, n, edges, |edges|, false)
    requires NeighbourTable(successors, n, ArcsOf(edges), true)
    requires NeighbourTable(predecessors, n, ArcsOf(edges), false)
    requires forall v: nat :: v < n ==> g.predecessors[v] == FirstOccurrences(predecessors[v])
    requires forall v: nat :: v < n ==> g.successors[v] == FirstOccurrences(successors[v])
    ensures Indexes(g, n, edges)
  {
    forall v: nat, u: nat | v < n
      ensures u in g.predecessors[v] <==> (u, v) in ArcsOf(edges)
      ensures u in g.successors[v] <==> (v, u) in ArcsOf(edges)
    {
      assert u in predecessors[v] <==> (u, v) in ArcsOf(edges);
      assert u in successors[v] <==> (v, u) in ArcsOf(edges);
    }
  }

  /** An entry is exactly a node without incoming edges. */
  method InferEntries(n: nat, edges: seq<EdgeIR>, g: GraphIR) returns (entries: seq<nat>)
    requires Indexes(g, n, edges)
    ensures Ascending(entries)
    ensures forall v: nat :: v in entries <==> v < n && forall u: nat :: (u, v) !in ArcsOf(edges)
  {
    entries := [];
    for v := 0 to n
      invariant Ascending(entries)
      invariant forall x: nat :: x in entries <==> x < v && g.incoming[x] == []
    {
      if g.incoming[v] == [] {
        AppendAscending(entries, v);
        entries := entries + [v];
      }
    }
    forall v: nat | v < n
      ensures g.incoming[v] == [] <==> forall u: nat :: (u, v) !in ArcsOf(edges)
    {
      if g.incoming[v] != [] {
        var k: nat := g.incoming[v][0];
        assert k in g.incoming[v];
        assert k < |edges| && edges[k].target == v;
        assert (edges[k].source, v) in ArcsOf(edges);
      }
      forall u: nat | (u, v) in ArcsOf(edges)
        ensures g.incoming[v] != []
      {
        var k :| 0 <= k < |edges| && (u, v) == (edges[k].source, edges[k].target);
        assert k in g.incoming[v];
      }
    }
  }
}
