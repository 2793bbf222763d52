/** The first passes of loop compilation: reachability, the dominator fixpoint,
    back edges, the acyclicity check and the reverse walk that collects a loop. */
module LoopPasses {
  import opened Digraph
  import opened NaturalLoops
  import opened WorkflowGraph

  ghost function NodeSet(n: nat): (r: set<nat>)
    ensures forall v: nat :: v in r <==> v < n
  {
    if n == 0 then {} else NodeSet(n - 1) + {n - 1}
  }

  /** The worklist state: what is marked or pending is reachable, the entries are
      marked or pending, and so is every successor of a marked node. */
  ghost predicate Frontier(arcs: Arcs, entries: seq<nat>, reachable: set<nat>, pending: seq<nat>) {
    && (forall v: nat :: v in reachable || v in pending ==> ReachableFrom(arcs, Elements(entries), v))
    && (forall e: nat :: e in entries ==> e in reachable || e in pending)
    && (forall u, v :: (u, v) in arcs && u in reachable ==> v in reachable || v in pending)
  }

  lemma {:induction false} FrontierStep(arcs: Arcs, entries: seq<nat>, reachable: set<nat>, rest: seq<nat>, node: nat,
      next: seq<nat>)
    requires Frontier(arcs, entries, reachable, rest + [node])
    requires node !in reachable ==> forall v: nat :: v in next <==> (node, v) in arcs
    requires node in reachable ==> next == []
    ensures Frontier(arcs, entries, reachable + {node}, rest + next)
  {
    var pending := rest + [node];
    assert node in pending;
    forall v: nat | v in next
      ensures ReachableFrom(arcs, Elements(entries), v)
    {
      ReachesArc(arcs, node, v);
      ReachableExtends(arcs, Elements(entries), node, v);
    }
    assert forall v: nat :: v in pending <==> v in rest || v == node;
    assert forall v: nat :: v in rest + next <==> v in rest || v in next;
  }

  lemma {:induction false} FrontierDone(arcs: Arcs, entries: seq<nat>, reachable: set<nat>, v: nat)
    requires Frontier(arcs, entries, reachable, [])
    ensures v in reachable <==> ReachableFrom(arcs, Elements(entries), v)
  {
    if ReachableFrom(arcs, Elements(entries), v) {
      var e :| e in Elements(entries) && Reaches(arcs, e, v);
      var p :| WalkFromTo(arcs, p, e, v);
      ClosedContains(arcs, reachable, p);
    }
  }

  ghost predicate AllBelow(n: nat, s: seq<nat>) {
    forall v: nat :: v in s ==> v < n
  }

  lemma {:induction false} AllBelowSplit(n: nat, s: seq<nat>, x: nat)
    requires AllBelow(n, s + [x])
    ensures AllBelow(n, s) && x < n
  {
    assert forall v: nat :: v in s ==> v in s + [x];
    assert x in s + [x];
  }

  lemma {:induction false} InitLast(s: seq<nat>)
    requires s != []
    ensures s == s[..|s| - 1] + [s[|s| - 1]]
  {
  }

  lemma {:induction false} AllBelowConcat(n: nat, s: seq<nat>, t: seq<nat>)
    requires AllBelow(n, s) && AllBelow(n, t)
    ensures AllBelow(n, s + t)
  {
    assert forall v: nat :: v in s + t ==> v in s || v in t;
  }

  /** Depth-first worklist from the entries. */
  method ReachableNodes(n: nat, edges: seq<EdgeIR>, g: GraphIR, entries: seq<nat>) returns (reachable: set<nat>)
    requires ValidEdges(n, edges) && Indexes(g, n, edges) && forall e: nat :: e in entries ==> e < n
    ensures forall v: nat :: v in reachable <==> ReachableFrom(ArcsOf(edges), Elements(entries), v)
    ensures reachable <= NodeSet(n)
  {
    ghost var arcs := ArcsOf(edges);
    reachable := {};
    var pending := entries;
    forall e: nat | e in entries ensures ReachableFrom(arcs, Elements(entries), e) { ReachesSelf(arcs, e); }
    while pending != []
      invariant reachable <= NodeSet(n) && AllBelow(n, pending)
      invariant Frontier(arcs, entries, reachable, pending)
      decreases NodeSet(n) - reachable, |pending|
    {
      var node: nat := pending[|pending| - 1];
      var rest := pending[..|pending| - 1];
      InitLast(pending);
      AllBelowSplit(n, rest, node);
      if node in reachable {
        FrontierStep(arcs, entries, reachable, rest, node, []);
        assert rest + [] == rest && reachable + {node} == reachable;
        pending := rest;
      } else {
        FrontierStep(arcs, entries, reachable, rest, node, g.successors[node]);
        reachable := reachable + {node};
        pending := rest + g.successors[node];
        AllBelowConcat(n, rest, g.successors[node]);
      }
    }
    forall v: nat ensures v in reachable <==> ReachableFrom(arcs, Elements(entries), v) {
      FrontierDone(arcs, entries, reachable, v);
    }
  }

  ghost predicate BackFrontier(arcs: Arcs, header: nat, sources: seq<nat>, loop: set<nat>, pending: seq<nat>) {
    && header in loop
    && (forall s: nat :: s in sources ==> s in loop || s in pending)
    && (forall x: nat :: x in loop || x in pending ==> WalksBack(arcs, header, sources, x))
    && (forall u, v :: (u, v) in arcs && v in loop && v != header ==> u in loop || u in pending)
  }

  lemma {:induction false} BackFrontierStep(arcs: Arcs, header: nat, sources: seq<nat>, loop: set<nat>,
      rest: seq<nat>, node: nat, next: seq<nat>)
    requires BackFrontier(arcs, header, sources, loop, rest + [node])
    requires node !in loop ==> forall u: nat :: u in next <==> (u, node) in arcs
    requires node in loop ==> next == []
    ensures BackFrontier(arcs, header, sources, loop + {node}, rest + next)
  {
    var pending := rest + [node];
    assert node in pending;
    forall u: nat | u in next
      ensures WalksBack(arcs, header, sources, u)
    {
      WalksBackStep(arcs, header, sources, u, node);
    }
    assert forall v: nat :: v in pending <==> v in rest || v == node;
    assert forall v: nat :: v in rest + next <==> v in rest || v in next;
  }

  lemma {:induction false} BackFrontierDone(arcs: Arcs, header: nat, sources: seq<nat>, loop: set<nat>, x: nat)
    requires BackFrontier(arcs, header, sources, loop, [])
    ensures x in loop <==> x == header || exists s :: s in sources && ReachesAvoiding(arcs, x, s, header)
  {
    if x in sources && x != header {
      assert WalkFromTo(arcs, [x], x, x) && header !in [x];
    }
    if s :| s in sources && ReachesAvoiding(arcs, x, s, header) {
      var q :| WalkFromTo(arcs, q, x, s) && header !in q;
      LoopHoldsWalk(arcs, header, loop, q);
    }
  }

  /** Reverse worklist of one loop: from the back-edge sources, stopping at the header. */
  method CollectLoop(n: nat, edges: seq<EdgeIR>, g: GraphIR, header: nat, sources: seq<nat>) returns (loop: set<nat>)
    requires ValidEdges(n, edges) && Indexes(g, n, edges)
    requires header < n && forall s: nat :: s in sources ==> s < n
    ensures loop <= NodeSet(n)
    ensures forall x: nat :: x in loop <==>
      x == header || exists s :: s in sources && ReachesAvoiding(ArcsOf(edges), x, s, header)
  {
    ghost var arcs := ArcsOf(edges);
    loop := {header};
    var pending := sources;
    while pending != []
      invariant loop <= NodeSet(n) && AllBelow(n, pending)
      invariant BackFrontier(arcs, header, sources, loop, pending)
      decreases NodeSet(n) - loop, |pending|
    {
      var node: nat := pending[|pending| - 1];
      var rest := pending[..|pending| - 1];
      InitLast(pending);
      AllBelowSplit(n, rest, node);
      if node in loop {
        BackFrontierStep(arcs, header, sources, loop, rest, node, []);
        assert rest + [] == rest && loop + {node} == loop;
        pending := rest;
      } else {
        BackFrontierStep(arcs, header, sources, loop, rest, node, g.predecessors[node]);
        loop := loop + {node};
        pending := rest + g.predecessors[node];
        AllBelowConcat(n, rest, g.predecessors[node]);
      }
    }
    forall x: nat
      ensures x in loop <==> x == header || exists s :: s in sources && ReachesAvoiding(arcs, x, s, header)
    {
      BackFrontierDone(arcs, header, sources, loop, x);
    }
  }

  ghost predicate WalksBack(arcs: Arcs, header: nat, sources: seq<nat>, x: nat) {
    x == header || x in sources || exists s :: s in sources && ReachesAvoiding(arcs, x, s, header)
  }

  lemma {:induction false} WalksBackStep(arcs: Arcs, header: nat, sources: seq<nat>, u: nat, x: nat)
    requires WalksBack(arcs, header, sources, x) && x != header && (u, x) in arcs
    ensures WalksBack(arcs, header, sources, u)
  {
    if u != header {
      if x in sources {
        assert WalkFromTo(arcs, [u, x], u, x);
      } else {
        var s :| s in sources && ReachesAvoiding(arcs, x, s, header);
        var q :| WalkFromTo(arcs, q, x, s) && header !in q;
        var r := Join(arcs, [u, x], q, u, x, s);
      }
    }
  }

  lemma {:induction false} LoopHoldsWalk(arcs: Arcs, header: nat, loop: set<nat>, q: seq<nat>)
    requires Walk(arcs, q) && header !in q && q[|q| - 1] in loop
    requires forall u, v :: (u, v) in arcs && v in loop && v != header ==> u in loop
    ensures q[0] in loop
  {
    if |q| > 1 {
      LoopHoldsWalk(arcs, header, loop, q[1..]);
      assert (q[0], q[0 + 1]) in arcs;
    }
  }

  /** Which of the listed nodes are reachable, in order. */
  function OnlyIn(s: seq<nat>, keep: set<nat>): (r: seq<nat>)
    ensures forall x :: x in r <==> x in s && x in keep
  {
    if s == [] then [] else (if s[0] in keep then [s[0]] else []) + OnlyIn(s[1..], keep)
  }

  /** The intersection of the dominator sets of the listed predecessors. */
  function Inherited(doms: seq<set<nat>>, preds: seq<nat>): (r: set<nat>)
    requires forall p :: p in preds ==> p < |doms|
    ensures preds == [] ==> r == {}
    ensures preds != [] ==> forall d :: d in r <==> forall p :: p in preds ==> d in doms[p]
  {
    if preds == [] then {}
    else
      assert preds[0] in preds;
      set d | d in doms[preds[0]] && forall p :: p in preds ==> d in doms[p]
  }

  function Updated(g: GraphIR, reachable: set<nat>, doms: seq<set<nat>>, v: nat): set<nat>
    requires v < |g.predecessors| && forall p :: p in g.predecessors[v] ==> p < |doms|
  {
    {v} + Inherited(doms, OnlyIn(g.predecessors[v], reachable))
  }

  ghost function Total(doms: seq<set<nat>>): nat {
    if doms == [] then 0 else |doms[0]| + Total(doms[1..])
  }

  lemma {:induction false} TotalUpdate(doms: seq<set<nat>>, v: nat, s: set<nat>)
    requires v < |doms| && s < doms[v]
    ensures Total(doms[v := s]) < Total(doms)
  {
    if v == 0 {
      SubsetSmaller(s, doms[0]);
      assert doms[0 := s][1..] == doms[1..];
    } else {
      TotalUpdate(doms[1..], v - 1, s);
      assert doms[v := s][1..] == doms[1..][v - 1 := s];
    }
  }

  lemma {:induction false} SubsetSmaller(a: set<nat>, b: set<nat>)
    requires a < b
    ensures |a| < |b|
  {
    assert b == a + (b - a);
    assert |b - a| > 0 by { var x :| x in b && x !in a; assert x in b - a; }
  }

  /** What every pass over the nodes keeps: no dominator is ever lost, and each
      set still holds what its predecessors would give it. */
  ghost predicate DominatorsAbove(n: nat, edges: seq<EdgeIR>, g: GraphIR, entries: seq<nat>, reachable: set<nat>,
      doms: seq<set<nat>>) {
    && Indexes(g, n, edges) && ValidEdges(n, edges) && |doms| == n
    && forall v: nat :: v < n ==>
      if v in entries then doms[v] == {v}
      else if v in reachable then
        Updated(g, reachable, doms, v) <= doms[v] && HoldsDominators(edges, entries, v, doms[v])
      else doms[v] == reachable
  }

  ghost predicate HoldsDominators(edges: seq<EdgeIR>, entries: seq<nat>, v: nat, s: set<nat>) {
    forall d: nat :: Dominates(ArcsOf(edges), Elements(entries), d, v) ==> d in s
  }

  /** A strict dominator of v dominates each of its reachable predecessors, of
      which a reachable non-entry node has one. */
  lemma {:induction false} DominatesPredecessors(arcs: Arcs, es: set<nat>, v: nat, preds: seq<nat>, d: nat)
    requires ReachableFrom(arcs, es, v) && v !in es && Dominates(arcs, es, d, v) && d != v
    requires forall p: nat :: p in preds <==> (p, v) in arcs && ReachableFrom(arcs, es, p)
    ensures preds != [] && forall p: nat :: p in preds ==> Dominates(arcs, es, d, p)
  {
    var e :| e in es && Reaches(arcs, e, v);
    var w :| WalkFromTo(arcs, w, e, v);
    assert (w[|w| - 2], w[|w| - 2 + 1]) in arcs;
    WalkReaches(arcs, w, 0, |w| - 2);
    assert w[|w| - 2] in preds;
    forall p: nat | p in preds
      ensures Dominates(arcs, es, d, p)
    {
      if d == p { DominatesSelf(arcs, es, d); } else {
        assert WalkFromTo(arcs, [p, v], p, v) && d !in [p, v];
        DominatesBackward(arcs, es, d, p, v);
      }
    }
  }

  lemma {:induction false} EntryDominators(arcs: Arcs, es: set<nat>, e: nat, d: nat)
    requires e in es
    ensures Dominates(arcs, es, d, e) <==> d == e
  {
    assert Walk(arcs, [e]);
    DominatesSelf(arcs, es, e);
  }

  lemma {:induction false} TrueDominatorsInherited(n: nat, edges: seq<EdgeIR>, g: GraphIR, entries: seq<nat>,
      reachable: set<nat>, doms: seq<set<nat>>, v: nat, d: nat)
    requires DominatorsAbove(n, edges, g, entries, reachable, doms)
    requires forall x: nat :: x in reachable <==> ReachableFrom(ArcsOf(edges), Elements(entries), x)
    requires v < n && v in reachable && v !in entries
    requires Dominates(ArcsOf(edges), Elements(entries), d, v)
    ensures d in Updated(g, reachable, doms, v)
  {
    var arcs, es := ArcsOf(edges), Elements(entries);
    var preds := OnlyIn(g.predecessors[v], reachable);
    if d != v {
      DominatesPredecessors(arcs, es, v, preds, d);
      forall p: nat | p in preds
        ensures d in doms[p]
      {
        if p in entries { EntryDominators(arcs, es, p, d); }
      }
    }
  }

  /** Shrinking one set keeps the others above what their predecessors give them. */
  lemma {:induction false} UpdatedMonotone(g: GraphIR, reachable: set<nat>, doms: seq<set<nat>>, doms': seq<set<nat>>,
      v: nat)
    requires v < |g.predecessors| && |doms| == |doms'| && forall p :: p in g.predecessors[v] ==> p < |doms|
    requires forall p: nat :: p < |doms| ==> doms'[p] <= doms[p]
    ensures Updated(g, reachable, doms', v) <= Updated(g, reachable, doms, v)
  {
    var preds := OnlyIn(g.predecessors[v], reachable);
    forall d | d in Inherited(doms', preds)
      ensures d in Inherited(doms, preds)
    {
      assert forall p :: p in preds ==> d in doms'[p];
    }
  }

  lemma {:induction false} InitialDominators(n: nat, edges: seq<EdgeIR>, g: GraphIR, entries: seq<nat>,
      reachable: set<nat>, doms: seq<set<nat>>)
    requires Indexes(g, n, edges) && ValidEdges(n, edges) && |doms| == n
    requires forall v: nat :: v < n ==> doms[v] == if v in entries then {v} else reachable
    requires forall v: nat :: v in reachable <==> ReachableFrom(ArcsOf(edges), Elements(entries), v)
    ensures DominatorsAbove(n, edges, g, entries, reachable, doms)
  {
    var arcs, es := ArcsOf(edges), Elements(entries);
    forall v: nat | v < n && v !in entries && v in reachable
      ensures Updated(g, reachable, doms, v) <= doms[v]
      ensures forall d: nat :: Dominates(arcs, es, d, v) ==> d in doms[v]
    {
      forall d: nat | Dominates(arcs, es, d, v)
        ensures d in reachable
      {
        DominatorReaches(arcs, es, d, v);
      }
      var preds := OnlyIn(g.predecessors[v], reachable);
      if preds != [] {
        assert preds[0] in preds;
        assert doms[preds[0]] <= reachable;
        assert forall d :: d in Inherited(doms, preds) ==> d in doms[preds[0]];
      }
    }
  }

  lemma {:induction false} ShrinkOne(n: nat, edges: seq<EdgeIR>, g: GraphIR, entries: seq<nat>, reachable: set<nat>,
      doms: seq<set<nat>>, v: nat)
    requires DominatorsAbove(n, edges, g, entries, reachable, doms)
    requires forall x: nat :: x in reachable <==> ReachableFrom(ArcsOf(edges), Elements(entries), x)
    requires v < n && v in reachable && v !in entries
    ensures DominatorsAbove(n, edges, g, entries, reachable, doms[v := Updated(g, reachable, doms, v)])
  {
    var doms' := doms[v := Updated(g, reachable, doms, v)];
    forall u: nat | u < n && u !in entries && u in reachable
      ensures Updated(g, reachable, doms', u) <= doms'[u]
    {
      UpdatedMonotone(g, reachable, doms, doms', u);
    }
    forall d: nat | Dominates(ArcsOf(edges), Elements(entries), d, v)
      ensures d in doms'[v]
    {
      TrueDominatorsInherited(n, edges, g, entries, reachable, doms, v, d);
    }
  }

  lemma {:induction false} PredecessorOnWalk(n: nat, edges: seq<EdgeIR>, g: GraphIR, entries: seq<nat>,
      reachable: set<nat>, w: seq<nat>)
    requires ValidEdges(n, edges) && Indexes(g, n, edges)
    requires forall x: nat :: x in reachable <==> ReachableFrom(ArcsOf(edges), Elements(entries), x)
    requires Walk(ArcsOf(edges), w) && w[0] in entries && |w| > 1 && w[|w| - 1] < n
    ensures w[|w| - 2] in OnlyIn(g.predecessors[w[|w| - 1]], reachable)
  {
    var p, v := w[|w| - 2], w[|w| - 1];
    assert (w[|w| - 2], w[|w| - 2 + 1]) in ArcsOf(edges);
    WalkReaches(ArcsOf(edges), w, 0, |w| - 2);
    assert w[0] in Elements(entries) && p in reachable;
    assert p in g.predecessors[v];
  }

  /** At the fixpoint a listed dominator lies on every walk from an entry. */
  lemma {:induction false} FixpointOnWalk(n: nat, edges: seq<EdgeIR>, g: GraphIR, entries: seq<nat>,
      reachable: set<nat>, doms: seq<set<nat>>, w: seq<nat>, d: nat)
    requires DominatorsAbove(n, edges, g, entries, reachable, doms)
    requires forall x: nat :: x in reachable <==> ReachableFrom(ArcsOf(edges), Elements(entries), x)
    requires forall v: nat :: v < n && v in reachable && v !in entries ==> doms[v] == Updated(g, reachable, doms, v)
    requires Walk(ArcsOf(edges), w) && w[0] in entries && w[|w| - 1] < n && d in doms[w[|w| - 1]]
    ensures d in w
  {
    var arcs := ArcsOf(edges);
    var v := w[|w| - 1];
    if v !in entries && d != v {
      var w' := w[..|w| - 1];
      var p := w[|w| - 2];
      WalkReaches(arcs, w, 0, |w| - 1);
      assert w[0] in Elements(entries);
      PredecessorOnWalk(n, edges, g, entries, reachable, w);
      FixpointOnWalk(n, edges, g, entries, reachable, doms, w', d);
    }
  }

  ghost predicate Settled(g: GraphIR, entries: seq<nat>, reachable: set<nat>, doms: seq<set<nat>>, upTo: nat)
    requires upTo <= |doms| == |g.predecessors|
    requires forall v: nat, p: nat :: v < |doms| && p in g.predecessors[v] ==> p < |doms|
  {
    forall v: nat :: v < upTo && v in reachable && v !in entries ==> doms[v] == Updated(g, reachable, doms, v)
  }

  lemma {:induction false} SettledStep(n: nat, g: GraphIR, entries: seq<nat>, reachable: set<nat>,
      doms: seq<set<nat>>, v: nat)
    requires v < n == |doms| == |g.predecessors|
    requires forall u: nat, p: nat :: u < n && p in g.predecessors[u] ==> p < n
    requires Settled(g, entries, reachable, doms, v)
    requires v in reachable && v !in entries ==> doms[v] == Updated(g, reachable, doms, v)
    ensures Settled(g, entries, reachable, doms, v + 1)
  {
  }

  /** One pass over the nodes in order, each update seeing the earlier ones. */
  method DominatorPass(n: nat, edges: seq<EdgeIR>, g: GraphIR, entries: seq<nat>, reachable: set<nat>,
      start: seq<set<nat>>)
    returns (doms: seq<set<nat>>, changed: bool)
    requires DominatorsAbove(n, edges, g, entries, reachable, start)
    requires forall v: nat :: v in reachable <==> ReachableFrom(ArcsOf(edges), Elements(entries), v)
    ensures DominatorsAbove(n, edges, g, entries, reachable, doms)
    ensures changed ==> Total(doms) < Total(start)
    ensures !changed ==> doms == start && Settled(g, entries, reachable, doms, n)
  {
    doms, changed := start, false;
    for v := 0 to n
      invariant DominatorsAbove(n, edges, g, entries, reachable, doms)
      invariant Total(doms) <= Total(start) && (changed ==> Total(doms) < Total(start))
      invariant !changed ==> doms == start && Settled(g, entries, reachable, doms, v)
    {
      var moved;
      doms, moved := UpdateNode(n, edges, g, entries, reachable, doms, v);
      changed := changed || moved;
      if !changed { SettledStep(n, g, entries, reachable, doms, v); }
    }
  }

  method UpdateNode(n: nat, edges: seq<EdgeIR>, g: GraphIR, entries: seq<nat>, reachable: set<nat>,
      start: seq<set<nat>>, v: nat)
    returns (doms: seq<set<nat>>, changed: bool)
    requires DominatorsAbove(n, edges, g, entries, reachable, start) && v < n
    requires forall x: nat :: x in reachable <==> ReachableFrom(ArcsOf(edges), Elements(entries), x)
    ensures DominatorsAbove(n, edges, g, entries, reachable, doms)
    ensures changed ==> Total(doms) < Total(start)
    ensures !changed ==> doms == start
    ensures !changed && v in reachable && v !in entries ==> doms[v] == Updated(g, reachable, doms, v)
  {
    doms, changed := start, false;
    if v in reachable && v !in entries {
      var updated := Updated(g, reachable, start, v);
      if updated != start[v] {
        assert updated < start[v];
        TotalUpdate(start, v, updated);
        ShrinkOne(n, edges, g, entries, reachable, start, v);
        doms, changed := start[v := updated], true;
      }
    }
  }

  /** The in-place iteration: for reachable v the result is exactly the set of
      nodes lying on every walk from an entry to v. */
  method ComputeDominators(n: nat, edges: seq<EdgeIR>, g: GraphIR, entries: seq<nat>, reachable: set<nat>)
      returns (doms: seq<set<nat>>)
    requires ValidEdges(n, edges) && Indexes(g, n, edges) && forall e :: e in entries ==> e < n
    requires forall v: nat :: v in reachable <==> ReachableFrom(ArcsOf(edges), Elements(entries), v)
    ensures |doms| == n
    ensures forall v: nat, d: nat :: v < n && v in reachable ==>
      (d in doms[v] <==> Dominates(ArcsOf(edges), Elements(entries), d, v))
  {
    doms := seq(n, v requires 0 <= v < n => if v in entries then {v} else reachable);
    InitialDominators(n, edges, g, entries, reachable, doms);
    var changed := true;
    while changed
      invariant DominatorsAbove(n, edges, g, entries, reachable, doms)
      invariant !changed ==> Settled(g, entries, reachable, doms, n)
      decreases Total(doms), changed
    {
      doms, changed := DominatorPass(n, edges, g, entries, reachable, doms);
    }
    forall v: nat, d: nat | v < n && v in reachable
      ensures d in doms[v] <==> Dominates(ArcsOf(edges), Elements(entries), d, v)
    {
      FixpointExact(n, edges, g, entries, reachable, doms, v, d);
    }
  }

  lemma {:induction false} FixpointExact(n: nat, edges: seq<EdgeIR>, g: GraphIR, entries: seq<nat>,
      reachable: set<nat>, doms: seq<set<nat>>, v: nat, d: nat)
    requires DominatorsAbove(n, edges, g, entries, reachable, doms)
    requires forall x: nat :: x in reachable <==> ReachableFrom(ArcsOf(edges), Elements(entries), x)
    requires forall u: nat :: u < n && u in reachable && u !in entries ==> doms[u] == Updated(g, reachable, doms, u)
    requires v < n && v in reachable
    ensures d in doms[v] <==> Dominates(ArcsOf(edges), Elements(entries), d, v)
  {
    if v in entries {
      EntryDominators(ArcsOf(edges), Elements(entries), v, d);
    } else if d in doms[v] {
      forall w | Walk(ArcsOf(edges), w) && w[0] in Elements(entries) && w[|w| - 1] == v
        ensures d in w
      {
        FixpointOnWalk(n, edges, g, entries, reachable, doms, w, d);
      }
    }
  }
}
