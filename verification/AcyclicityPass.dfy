/** The acyclicity check on the reachable graph without its back edges: nodes are
    visited once no unprocessed edge enters them. */
module AcyclicityPass {
  import opened Digraph
  import opened Lists
  import opened NaturalLoops
  import opened WorkflowGraph
  import opened LoopPasses

  /** Edge k survives the removal of back edges and joins reachable nodes. */
  ghost predicate Kept(edges: seq<EdgeIR>, reachable: set<nat>, back: set<nat>, k: nat) {
    k < |edges| && k !in back && edges[k].source in reachable && edges[k].target in reachable
  }

  ghost function KeptArcs(edges: seq<EdgeIR>, reachable: set<nat>, back: set<nat>): Arcs {
    set k | 0 <= k < |edges| && Kept(edges, reachable, back, k) :: (edges[k].source, edges[k].target)
  }

  /** The kept edges into t among the first m that have not been processed. */
  ghost function Waiting(edges: seq<EdgeIR>, reachable: set<nat>, back: set<nat>, done: set<nat>, t: nat,
      m: nat): set<nat>
    requires m <= |edges|
  {
    set k | 0 <= k < m && Kept(edges, reachable, back, k) && k !in done && edges[k].target == t
  }

  /** indegree counts, for every reachable node, its unprocessed kept edges. */
  ghost predicate Counts(edges: seq<EdgeIR>, reachable: set<nat>, back: set<nat>, done: set<nat>, m: nat,
      indegree: map<nat, nat>)
    requires m <= |edges|
  {
    && indegree.Keys == reachable
    && forall t :: t in reachable ==> indegree[t] == |Waiting(edges, reachable, back, done, t, m)|
  }

  lemma {:induction false} WaitingNext(edges: seq<EdgeIR>, reachable: set<nat>, back: set<nat>, t: nat, m: nat)
    requires m < |edges|
    ensures |Waiting(edges, reachable, back, {}, t, m + 1)| ==
      |Waiting(edges, reachable, back, {}, t, m)| +
      if Kept(edges, reachable, back, m) && edges[m].target == t then 1 else 0
  {
    var extra: set<nat> := if Kept(edges, reachable, back, m) && edges[m].target == t then {m} else {};
    assert Waiting(edges, reachable, back, {}, t, m + 1) == Waiting(edges, reachable, back, {}, t, m) + extra;
  }

  lemma {:induction false} CountsNext(edges: seq<EdgeIR>, reachable: set<nat>, back: set<nat>, m: nat,
      indegree: map<nat, nat>)
    requires m < |edges| && Counts(edges, reachable, back, {}, m, indegree)
    ensures Kept(edges, reachable, back, m) ==>
      Counts(edges, reachable, back, {}, m + 1, indegree[edges[m].target := indegree[edges[m].target] + 1])
    ensures !Kept(edges, reachable, back, m) ==> Counts(edges, reachable, back, {}, m + 1, indegree)
  {
    forall t: nat | t in reachable
      ensures |Waiting(edges, reachable, back, {}, t, m + 1)| ==
        indegree[t] + if Kept(edges, reachable, back, m) && edges[m].target == t then 1 else 0
    {
      WaitingNext(edges, reachable, back, t, m);
    }
  }

  /** Processing edge k lowers the count of its target by one and no other. */
  lemma {:induction false} CountsRelease(edges: seq<EdgeIR>, reachable: set<nat>, back: set<nat>, done: set<nat>,
      indegree: map<nat, nat>, k: nat)
    requires Counts(edges, reachable, back, done, |edges|, indegree)
    requires Kept(edges, reachable, back, k) && k !in done
    ensures indegree[edges[k].target] > 0
    ensures Counts(edges, reachable, back, done + {k}, |edges|,
      indegree[edges[k].target := indegree[edges[k].target] - 1])
    ensures forall t :: t in reachable && t != edges[k].target ==>
      Waiting(edges, reachable, back, done + {k}, t, |edges|) == Waiting(edges, reachable, back, done, t, |edges|)
  {
    var target := edges[k].target;
    assert k in Waiting(edges, reachable, back, done, target, |edges|);
    forall t | t in reachable
      ensures Waiting(edges, reachable, back, done + {k}, t, |edges|) ==
        Waiting(edges, reachable, back, done, t, |edges|) - (if t == target then {k} else {})
    {
    }
  }

  lemma {:induction false} CountsIgnore(edges: seq<EdgeIR>, reachable: set<nat>, back: set<nat>, done: set<nat>,
      indegree: map<nat, nat>, k: nat)
    requires Counts(edges, reachable, back, done, |edges|, indegree)
    requires !Kept(edges, reachable, back, k)
    ensures Counts(edges, reachable, back, done + {k}, |edges|, indegree)
    ensures forall t :: t in reachable ==>
      Waiting(edges, reachable, back, done + {k}, t, |edges|) == Waiting(edges, reachable, back, done, t, |edges|)
  {
    forall t | t in reachable
      ensures Waiting(edges, reachable, back, done + {k}, t, |edges|) ==
        Waiting(edges, reachable, back, done, t, |edges|)
    {
    }
  }

  /** Exactly the visited and the pending nodes have no unprocessed edge left. */
  ghost predicate Released(edges: seq<EdgeIR>, reachable: set<nat>, back: set<nat>, done: set<nat>, listed: seq<nat>) {
    && Distinct(listed)
    && (forall t: nat :: t in listed ==> t in reachable)
    && (forall t: nat :: t in reachable ==> (t in listed <==> Waiting(edges, reachable, back, done, t, |edges|) == {}))
  }

  /** Each visited node comes after the sources of all its kept edges. */
  ghost predicate SourcesFirst(arcs: Arcs, order: seq<nat>) {
    forall i, u: nat :: 0 <= i < |order| && (u, order[i]) in arcs ==> u in order[..i]
  }

  lemma {:induction false} SourcesFirstIsTopological(arcs: Arcs, order: seq<nat>)
    requires Distinct(order) && SourcesFirst(arcs, order)
    ensures TopologicalOrder(arcs, order)
  {
    forall i, j | 0 <= i < |order| && 0 <= j < |order| && (order[i], order[j]) in arcs
      ensures i < j
    {
      assert order[i] in order[..j];
    }
  }

  /** Processing edge k may release its target, and releases nothing else. */
  lemma {:induction false} ReleasedAfter(edges: seq<EdgeIR>, reachable: set<nat>, back: set<nat>, done: set<nat>,
      listed: seq<nat>, k: nat)
    requires Released(edges, reachable, back, done, listed)
    requires Kept(edges, reachable, back, k) && k !in done
    requires forall t :: t in reachable && t != edges[k].target ==>
      Waiting(edges, reachable, back, done + {k}, t, |edges|) == Waiting(edges, reachable, back, done, t, |edges|)
    ensures Released(edges, reachable, back, done + {k}, listed +
      if |Waiting(edges, reachable, back, done + {k}, edges[k].target, |edges|)| == 0 then [edges[k].target] else [])
  {
    assert k in Waiting(edges, reachable, back, done, edges[k].target, |edges|);
    assert listed + [] == listed;
  }

  method ReleaseOne(edges: seq<EdgeIR>, reachable: set<nat>, back: set<nat>, ghost done: set<nat>,
                    ghost order: seq<nat>, pending0: seq<nat>, indegree0: map<nat, nat>, k: nat)
    returns (pending: seq<nat>, indegree: map<nat, nat>)
    requires k < |edges| && edges[k].source in reachable && k !in done
    requires Counts(edges, reachable, back, done, |edges|, indegree0)
    requires Released(edges, reachable, back, done, order + pending0)
    ensures Counts(edges, reachable, back, done + {k}, |edges|, indegree)
    ensures Released(edges, reachable, back, done + {k}, order + pending)
    ensures pending0 <= pending
  {
    pending, indegree := pending0, indegree0;
    var target := edges[k].target;
    if k !in back && target in indegree {
      CountsRelease(edges, reachable, back, done, indegree, k);
      ReleasedAfter(edges, reachable, back, done, order + pending, k);
      indegree := indegree[target := indegree[target] - 1];
      if indegree[target] == 0 {
        assert order + (pending + [target]) == (order + pending) + [target];
        pending := pending + [target];
      } else {
        assert (order + pending) + [] == order + pending;
      }
    } else {
      CountsIgnore(edges, reachable, back, done, indegree, k);
    }
  }

  lemma {:induction false} PrefixStep(s: seq<nat>, j: nat)
    requires j < |s|
    ensures forall k: nat :: k in s[..j + 1] <==> k in s[..j] || k == s[j]
  {
    assert s[..j + 1] == s[..j] + [s[j]];
  }

  /** Processes the outgoing edges of one visited node. */
  method ReleaseTargets(edges: seq<EdgeIR>, reachable: set<nat>, back: set<nat>, ghost done0: set<nat>,
                        ghost order: seq<nat>, pending0: seq<nat>, indegree0: map<nat, nat>, out: seq<nat>)
    returns (ghost done: set<nat>, pending: seq<nat>, indegree: map<nat, nat>)
    requires Ascending(out)
    requires forall k: nat :: k in out ==> k < |edges| && edges[k].source in reachable && k !in done0
    requires Counts(edges, reachable, back, done0, |edges|, indegree0)
    requires Released(edges, reachable, back, done0, order + pending0)
    ensures forall k: nat :: k in done <==> k in done0 || k in out
    ensures Counts(edges, reachable, back, done, |edges|, indegree)
    ensures Released(edges, reachable, back, done, order + pending)
    ensures pending0 <= pending
  {
    done, pending, indegree := done0, pending0, indegree0;
    for j := 0 to |out|
      invariant forall k: nat :: k in done <==> k in done0 || k in out[..j]
      invariant Counts(edges, reachable, back, done, |edges|, indegree)
      invariant Released(edges, reachable, back, done, order + pending)
      invariant pending0 <= pending
    {
      var k: nat := out[j];
      assert k in out;
      PrefixStep(out, j);
      assert k !in out[..j];
      pending, indegree := ReleaseOne(edges, reachable, back, done, order, pending, indegree, k);
      done := done + {k};
    }
    assert out[..|out|] == out;
  }

  /** Counts the kept edges entering each reachable node. */
  method CountIncoming(edges: seq<EdgeIR>, reachable: set<nat>, back: set<nat>) returns (indegree: map<nat, nat>)
    ensures Counts(edges, reachable, back, {}, |edges|, indegree)
  {
    indegree := map v | v in reachable :: 0;
    for m := 0 to |edges|
      invariant Counts(edges, reachable, back, {}, m, indegree)
    {
      CountsNext(edges, reachable, back, m, indegree);
      if m !in back && edges[m].source in reachable && edges[m].target in reachable {
        indegree := indegree[edges[m].target := indegree[edges[m].target] + 1];
      }
    }
  }

  method InitiallyReleased(n: nat, edges: seq<EdgeIR>, reachable: set<nat>, back: set<nat>, indegree: map<nat, nat>)
      returns (pending: seq<nat>)
    requires reachable <= NodeSet(n) && Counts(edges, reachable, back, {}, |edges|, indegree)
    ensures Released(edges, reachable, back, {}, pending)
  {
    pending := [];
    for v := 0 to n
      invariant forall t: nat :: t in pending <==> t < v && t in reachable && indegree[t] == 0
      invariant Ascending(pending)
    {
      if v in reachable && indegree[v] == 0 {
        AppendAscending(pending, v);
        pending := pending + [v];
      }
    }
  }

  /** Every kept edge out of a visited node has been processed, and no other. */
  ghost predicate DoneIsOutOf(edges: seq<EdgeIR>, done: set<nat>, order: seq<nat>) {
    forall k: nat :: k in done <==> k < |edges| && edges[k].source in order
  }

  lemma {:induction false} DistinctSize(s: seq<nat>)
    requires Distinct(s)
    ensures |Elements(s)| == |s|
  {
    if s != [] {
      DistinctSize(s[1..]);
      assert Elements(s) == {s[0]} + Elements(s[1..]);
    }
  }

  /** A released node's kept edges all come from visited nodes. */
  lemma {:induction false} NextSourcesVisited(edges: seq<EdgeIR>, reachable: set<nat>, back: set<nat>, done: set<nat>,
      order: seq<nat>, pending: seq<nat>)
    requires Released(edges, reachable, back, done, order + pending) && pending != []
    requires DoneIsOutOf(edges, done, order) && SourcesFirst(KeptArcs(edges, reachable, back), order)
    ensures SourcesFirst(KeptArcs(edges, reachable, back), order + [pending[0]])
  {
    var node, arcs := pending[0], KeptArcs(edges, reachable, back);
    assert node in order + pending;
    forall u: nat | (u, node) in arcs
      ensures u in order
    {
      var k :| 0 <= k < |edges| && Kept(edges, reachable, back, k) && (u, node) == (edges[k].source, edges[k].target);
      assert k !in Waiting(edges, reachable, back, done, node, |edges|);
    }
    var order' := order + [node];
    forall i, u: nat | 0 <= i < |order'| && (u, order'[i]) in arcs
      ensures u in order'[..i]
    {
      if i < |order| { assert order'[..i] == order[..i]; } else { assert order'[..i] == order; }
    }
  }

  /** With nothing pending, an unvisited reachable node sits on a cycle of kept arcs. */
  lemma {:induction false} StuckOnCycle(edges: seq<EdgeIR>, reachable: set<nat>, back: set<nat>, done: set<nat>,
      order: seq<nat>, v: nat)
    requires Released(edges, reachable, back, done, order + []) && DoneIsOutOf(edges, done, order)
    requires v in reachable && v !in order
    ensures !Acyclic(KeptArcs(edges, reachable, back))
  {
    var arcs := KeptArcs(edges, reachable, back);
    assert order + [] == order;
    var stuck := set t | t in reachable && t !in order;
    forall t | t in stuck
      ensures exists u :: u in stuck && (u, t) in arcs
    {
      var k :| k in Waiting(edges, reachable, back, done, t, |edges|);
      assert (edges[k].source, t) in arcs && edges[k].source in stuck;
    }
    assert v in stuck;
    var p := CycleInClosedSet(arcs, stuck);
  }

  /** Visits nodes in dependency order.  The visit covers all reachable nodes
      exactly when the kept arcs have no cycle; order is then a topological order. */
  method CheckAcyclic(n: nat, edges: seq<EdgeIR>, g: GraphIR, reachable: set<nat>, back: set<nat>)
      returns (visited: nat, ghost order: seq<nat>)
    requires ValidEdges(n, edges) && Indexes(g, n, edges) && reachable <= NodeSet(n)
    ensures visited == |reachable| <==> Acyclic(KeptArcs(edges, reachable, back))
    ensures visited == |reachable| ==>
      TopologicalOrder(KeptArcs(edges, reachable, back), order) && forall x: nat :: x in reachable <==> x in order
  {
    ghost var arcs := KeptArcs(edges, reachable, back);
    var indegree := CountIncoming(edges, reachable, back);
    var pending := InitiallyReleased(n, edges, reachable, back, indegree);
    visited, order := 0, [];
    ghost var done := {};
    assert [] + pending == pending;
    while pending != []
      invariant Counts(edges, reachable, back, done, |edges|, indegree)
      invariant Released(edges, reachable, back, done, order + pending)
      invariant DoneIsOutOf(edges, done, order) && SourcesFirst(arcs, order)
      invariant visited == |order|
      decreases |reachable| - |order|
    {
      done, pending, indegree, order := VisitOne(n, edges, g, reachable, back, done, order, pending, indegree);
      visited := visited + 1;
    }
    ConcludeVisit(edges, reachable, back, done, order);
  }

  /** One turn of the visit: takes the first pending node and releases its targets. */
  method VisitOne(n: nat, edges: seq<EdgeIR>, g: GraphIR, reachable: set<nat>, back: set<nat>, ghost done0: set<nat>,
                  ghost order0: seq<nat>, pending0: seq<nat>, indegree0: map<nat, nat>)
    returns (ghost done: set<nat>, pending: seq<nat>, indegree: map<nat, nat>, ghost order: seq<nat>)
    requires ValidEdges(n, edges) && Indexes(g, n, edges) && reachable <= NodeSet(n) && pending0 != []
    requires Counts(edges, reachable, back, done0, |edges|, indegree0)
    requires Released(edges, reachable, back, done0, order0 + pending0)
    requires DoneIsOutOf(edges, done0, order0) && SourcesFirst(KeptArcs(edges, reachable, back), order0)
    ensures Counts(edges, reachable, back, done, |edges|, indegree)
    ensures Released(edges, reachable, back, done, order + pending)
    ensures DoneIsOutOf(edges, done, order) && SourcesFirst(KeptArcs(edges, reachable, back), order)
    ensures |order| == |order0| + 1 && |order0| < |reachable|
  {
    var node: nat := pending0[0];
    VisitNext(n, edges, g, reachable, back, done0, order0, pending0);
    order := order0 + [node];
    done, pending, indegree := ReleaseTargets(edges, reachable, back, done0, order, pending0[1..], indegree0,
      g.outgoing[node]);
  }

  lemma {:induction false} VisitNext(n: nat, edges: seq<EdgeIR>, g: GraphIR, reachable: set<nat>, back: set<nat>,
      done: set<nat>, order: seq<nat>, pending: seq<nat>)
    requires ValidEdges(n, edges) && Indexes(g, n, edges) && reachable <= NodeSet(n) && pending != []
    requires Released(edges, reachable, back, done, order + pending)
    requires DoneIsOutOf(edges, done, order) && SourcesFirst(KeptArcs(edges, reachable, back), order)
    ensures pending[0] in reachable && pending[0] < n && |order| < |reachable|
    ensures Released(edges, reachable, back, done, (order + [pending[0]]) + pending[1..])
    ensures SourcesFirst(KeptArcs(edges, reachable, back), order + [pending[0]])
    ensures Ascending(g.outgoing[pending[0]])
    ensures forall k: nat :: k in g.outgoing[pending[0]] ==> k < |edges| && edges[k].source in reachable && k !in done
    ensures forall k: nat :: k < |edges| && edges[k].source in order + [pending[0]] <==>
      k in done || k in g.outgoing[pending[0]]
  {
    var node := pending[0];
    assert (order + pending)[|order|] == node;
    assert (order + [node]) + pending[1..] == order + pending;
    NextSourcesVisited(edges, reachable, back, done, order, pending);
    assert node !in order by {
      forall i | 0 <= i < |order| ensures order[i] != node { assert (order + pending)[i] == order[i]; }
    }
    assert Distinct(order + [node]) by {
      forall i, j | 0 <= i < j < |order + [node]| ensures (order + [node])[i] != (order + [node])[j] {
        assert (order + [node])[i] == (order + pending)[i] && (order + [node])[j] == (order + pending)[j];
      }
    }
    DistinctSize(order + [node]);
    assert Elements(order + [node]) <= reachable by {
      forall x: nat | x in order + [node] ensures x in reachable { assert x in order + pending; }
    }
    SubsetSize(Elements(order + [node]), reachable);
  }

  lemma {:induction false} SubsetSize(a: set<nat>, b: set<nat>)
    requires a <= b
    ensures |a| <= |b| && (|a| == |b| ==> a == b)
  {
    if a != b { SubsetSmaller(a, b); }
  }

  lemma {:induction false} SomeMissing(reachable: set<nat>, order: seq<nat>) returns (v: nat)
    requires Elements(order) <= reachable && Elements(order) != reachable
    ensures v in reachable && v !in order
  {
    assert reachable == Elements(order) + (reachable - Elements(order));
    v :| v in reachable - Elements(order);
  }

  lemma {:induction false} ConcludeVisit(edges: seq<EdgeIR>, reachable: set<nat>, back: set<nat>, done: set<nat>,
      order: seq<nat>)
    requires Released(edges, reachable, back, done, order + [])
    requires DoneIsOutOf(edges, done, order) && SourcesFirst(KeptArcs(edges, reachable, back), order)
    ensures |order| == |reachable| <==> Acyclic(KeptArcs(edges, reachable, back))
    ensures |order| == |reachable| ==>
      TopologicalOrder(KeptArcs(edges, reachable, back), order) && forall x: nat :: x in reachable <==> x in order
  {
    var arcs := KeptArcs(edges, reachable, back);
    assert order + [] == order;
    DistinctSize(order);
    SubsetSize(Elements(order), reachable);
    SourcesFirstIsTopological(arcs, order);
    if |order| == |reachable| {
      assert forall x: nat :: x in reachable <==> x in order by { assert reachable == Elements(order); }
      OrderedIsAcyclic(arcs, order);
    } else {
      var v := SomeMissing(reachable, order);
      StuckOnCycle(edges, reachable, back, done, order, v);
    }
  }
}
