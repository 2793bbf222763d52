/** Natural loops of a flow graph: the graph theory behind loop regions.

    A back arc is an arc between reachable nodes whose target dominates its
    source.  The natural loop of a header h holds h and every node from which
    some source of a back arc to h can be reached without passing h. */
module NaturalLoops {
  import opened Digraph

  ghost predicate BackArc(arcs: Arcs, entries: set<nat>, s: nat, h: nat) {
    && (s, h) in arcs
    && ReachableFrom(arcs, entries, s)
    && Dominates(arcs, entries, h, s)
  }

  ghost predicate IsHeader(arcs: Arcs, entries: set<nat>, h: nat) {
    exists s :: BackArc(arcs, entries, s, h)
  }

  /** What is left of the reachable graph when every back arc is removed. */
  ghost function ForwardArcs(arcs: Arcs, entries: set<nat>): Arcs {
    set a | a in arcs && ReachableFrom(arcs, entries, a.0) && !BackArc(arcs, entries, a.0, a.1)
  }

  ghost predicate InLoop(arcs: Arcs, entries: set<nat>, h: nat, x: nat) {
    x == h || exists s :: BackArc(arcs, entries, s, h) && ReachesAvoiding(arcs, x, s, h)
  }

  /** x is where its strongly connected component is entered from outside. */
  ghost predicate EntryTarget(arcs: Arcs, entries: set<nat>, x: nat) {
    x in entries || exists u :: (u, x) in arcs && !Reaches(arcs, x, u)
  }

  /** No strongly connected component is entered at two different nodes. */
  ghost predicate SingleEntry(arcs: Arcs, entries: set<nat>) {
    forall x, y :: EntryTarget(arcs, entries, x) && EntryTarget(arcs, entries, y) ==>
      Reaches(arcs, x, y) && Reaches(arcs, y, x) ==> x == y
  }

  /** Every reachable cycle has a node that dominates the whole cycle. */
  ghost predicate Reducible(arcs: Arcs, entries: set<nat>) {
    forall c :: ClosedWalk(arcs, c) && ReachableFrom(arcs, entries, c[0]) ==>
      exists h :: h in c && forall x :: x in c ==> Dominates(arcs, entries, h, x)
  }

  /** order lists nodes without repetition and every arc between listed nodes
      goes from an earlier to a later position. */
  ghost predicate TopologicalOrder(arcs: Arcs, order: seq<nat>) {
    && (forall i, j :: 0 <= i < j < |order| ==> order[i] != order[j])
    && (forall i, j :: 0 <= i < |order| && 0 <= j < |order| && (order[i], order[j]) in arcs ==> i < j)
  }

  lemma {:induction false} HeaderReachable(arcs: Arcs, entries: set<nat>, h: nat)
    requires IsHeader(arcs, entries, h)
    ensures ReachableFrom(arcs, entries, h)
  {
    var s :| BackArc(arcs, entries, s, h);
    ReachesArc(arcs, s, h);
    ReachableExtends(arcs, entries, s, h);
  }

  lemma {:induction false} LoopDominated(arcs: Arcs, entries: set<nat>, h: nat, x: nat)
    requires InLoop(arcs, entries, h, x)
    ensures Dominates(arcs, entries, h, x)
  {
    if x == h {
      DominatesSelf(arcs, entries, h);
    } else {
      var s :| BackArc(arcs, entries, s, h) && ReachesAvoiding(arcs, x, s, h);
      DominatesBackward(arcs, entries, h, x, s);
    }
  }

  lemma {:induction false} LoopReachesHeader(arcs: Arcs, entries: set<nat>, h: nat, x: nat)
    requires InLoop(arcs, entries, h, x)
    ensures Reaches(arcs, x, h)
  {
    if x == h {
      ReachesSelf(arcs, h);
    } else {
      var s :| BackArc(arcs, entries, s, h) && ReachesAvoiding(arcs, x, s, h);
      ReachesArc(arcs, s, h);
      ReachesTransitive(arcs, x, s, h);
    }
  }

  /** Only the header of a natural loop has arcs coming in from outside. */
  lemma {:induction false} LoopClosedUnderPredecessors(arcs: Arcs, entries: set<nat>, h: nat, u: nat, x: nat)
    requires InLoop(arcs, entries, h, x) && x != h && (u, x) in arcs
    ensures InLoop(arcs, entries, h, u)
  {
    if u != h {
      var s :| BackArc(arcs, entries, s, h) && ReachesAvoiding(arcs, x, s, h);
      var q :| WalkFromTo(arcs, q, x, s) && h !in q;
      var r := Join(arcs, [u, x], q, u, x, s);
    }
  }

  /** A natural loop entered nowhere but at its header: an entry node inside it is the header. */
  lemma {:induction false} EntryInLoopIsHeader(arcs: Arcs, entries: set<nat>, h: nat, x: nat)
    requires InLoop(arcs, entries, h, x) && x in entries
    ensures x == h
  {
    LoopDominated(arcs, entries, h, x);
    assert Walk(arcs, [x]);
  }

  /** A component of a reachable node is entered at the first of its nodes on any walk from an entry. */
  lemma {:induction false} ComponentEntry(arcs: Arcs, entries: set<nat>, p: seq<nat>) returns (k: nat)
    requires Walk(arcs, p) && p[0] in entries
    ensures k < |p| && EntryTarget(arcs, entries, p[k])
    ensures Reaches(arcs, p[k], p[|p| - 1]) && Reaches(arcs, p[|p| - 1], p[k])
  {
    var h := p[|p| - 1];
    k := |p| - 1;
    ReachesSelf(arcs, h);
    while k > 0 && Reaches(arcs, h, p[k - 1])
      invariant k < |p| && Reaches(arcs, h, p[k])
      decreases k
    {
      k := k - 1;
    }
    WalkReaches(arcs, p, k, |p| - 1);
    if k > 0 {
      assert (p[k - 1], p[k - 1 + 1]) in arcs;
      if Reaches(arcs, p[k], p[k - 1]) {
        ReachesTransitive(arcs, h, p[k], p[k - 1]);
      }
    }
  }

  /** When every component has a single entry, no natural loop holds an unreachable node. */
  lemma {:induction false} LoopReachable(arcs: Arcs, entries: set<nat>, h: nat, x: nat)
    requires SingleEntry(arcs, entries) && IsHeader(arcs, entries, h) && InLoop(arcs, entries, h, x)
    ensures ReachableFrom(arcs, entries, x)
  {
    if x == h {
      HeaderReachable(arcs, entries, h);
    } else {
      var s :| BackArc(arcs, entries, s, h) && ReachesAvoiding(arcs, x, s, h);
      var q :| WalkFromTo(arcs, q, x, s) && h !in q;
      LoopWalkReachable(arcs, entries, h, s, q, 0);
    }
  }

  lemma {:induction false} LoopWalkReachable(arcs: Arcs, entries: set<nat>, h: nat, s: nat, q: seq<nat>, i: nat)
    requires SingleEntry(arcs, entries) && BackArc(arcs, entries, s, h)
    requires Walk(arcs, q) && q[|q| - 1] == s && h !in q && i < |q|
    ensures ReachableFrom(arcs, entries, q[i])
    decreases |q| - i
  {
    if i < |q| - 1 {
      LoopWalkReachable(arcs, entries, h, s, q, i + 1);
      if !ReachableFrom(arcs, entries, q[i]) {
        LoopWalkInside(arcs, entries, h, s, q, q[i + 1]);
        EnteredAtHeader(arcs, entries, h, q[i], q[i + 1]);
      }
    }
  }

  /** An arc from an unreachable node into a natural loop can only target the header. */
  lemma {:induction false} EnteredAtHeader(arcs: Arcs, entries: set<nat>, h: nat, u: nat, y: nat)
    requires SingleEntry(arcs, entries) && InLoop(arcs, entries, h, y) && IsHeader(arcs, entries, h)
    requires (u, y) in arcs && !ReachableFrom(arcs, entries, u) && ReachableFrom(arcs, entries, y)
    ensures y == h
  {
    LoopDominated(arcs, entries, h, y);
    LoopReachesHeader(arcs, entries, h, y);
    DominatorReaches(arcs, entries, h, y);
    if Reaches(arcs, y, u) { ReachableExtends(arcs, entries, y, u); }
    assert EntryTarget(arcs, entries, y);
    forall p | Walk(arcs, p) && p[0] in entries && p[|p| - 1] == h
      ensures y in p
    {
      var k := ComponentEntry(arcs, entries, p);
      ReachesTransitive(arcs, p[k], h, y);
      ReachesTransitive(arcs, y, h, p[k]);
    }
    assert Dominates(arcs, entries, y, h);
    DominatesAntisymmetric(arcs, entries, y, h);
  }

  /** A walk to the source of a back arc that avoids the header stays in the loop. */
  lemma {:induction false} LoopWalkInside(arcs: Arcs, entries: set<nat>, h: nat, s: nat, q: seq<nat>, x: nat)
    requires BackArc(arcs, entries, s, h) && Walk(arcs, q) && q[|q| - 1] == s && h !in q && x in q
    ensures InLoop(arcs, entries, h, x)
  {
    var k :| 0 <= k < |q| && q[k] == x;
    Split(arcs, q, k);
    assert WalkFromTo(arcs, q[k..], x, s) && h !in q[k..];
  }

  /** Of two different headers whose loops share a reachable node, the dominating
      one has the larger loop: it holds all of the other, which lacks its header. */
  lemma {:induction false} DominatingLoopContains(arcs: Arcs, entries: set<nat>, h: nat, g: nat, x: nat, y: nat)
    requires h != g && Dominates(arcs, entries, h, g) && ReachableFrom(arcs, entries, x)
    requires InLoop(arcs, entries, h, x) && InLoop(arcs, entries, g, x)
    requires InLoop(arcs, entries, g, y) && ReachableFrom(arcs, entries, y)
    ensures InLoop(arcs, entries, h, y) && !InLoop(arcs, entries, g, h)
  {
    LoopDominated(arcs, entries, g, x);
    DominatorReaches(arcs, entries, g, x);
    if InLoop(arcs, entries, g, h) {
      LoopDominated(arcs, entries, g, h);
      DominatesAntisymmetric(arcs, entries, g, h);
    }
    assert x != h;
    SuffixAvoids(arcs, entries, h, g, x);
    InnerHeaderInLoop(arcs, entries, h, g, x);
    if y != g {
      var t :| BackArc(arcs, entries, t, g) && ReachesAvoiding(arcs, y, t, g);
      var q :| WalkFromTo(arcs, q, y, t) && g !in q;
      if h in q {
        LoopWalkInside(arcs, entries, g, t, q, h);
      }
      var toG := Join(arcs, q, [t, g], y, t, g);
      var s :| BackArc(arcs, entries, s, h) && ReachesAvoiding(arcs, g, s, h);
      var w :| WalkFromTo(arcs, w, g, s) && h !in w;
      var r := Join(arcs, toG, w, y, g, s);
    }
  }

  lemma {:induction false} InnerHeaderInLoop(arcs: Arcs, entries: set<nat>, h: nat, g: nat, x: nat)
    requires h != g && InLoop(arcs, entries, h, x) && x != h && ReachesAvoiding(arcs, g, x, h)
    ensures exists s :: BackArc(arcs, entries, s, h) && ReachesAvoiding(arcs, g, s, h)
  {
    var s :| BackArc(arcs, entries, s, h) && ReachesAvoiding(arcs, x, s, h);
    var p :| WalkFromTo(arcs, p, g, x) && h !in p;
    var q :| WalkFromTo(arcs, q, x, s) && h !in q;
    var r := Join(arcs, p, q, g, x, s);
  }

  ghost predicate LoopWithin(arcs: Arcs, entries: set<nat>, inner: nat, outer: nat) {
    && (forall y :: InLoop(arcs, entries, inner, y) ==> InLoop(arcs, entries, outer, y))
    && !InLoop(arcs, entries, inner, outer)
  }

  /** In a graph whose components have one entry each, natural loops with different
      headers are disjoint or strictly nested. */
  lemma {:induction false} LoopsLaminar(arcs: Arcs, entries: set<nat>, h: nat, g: nat, x: nat)
    requires SingleEntry(arcs, entries)
    requires IsHeader(arcs, entries, h) && IsHeader(arcs, entries, g) && h != g
    requires InLoop(arcs, entries, h, x) && InLoop(arcs, entries, g, x)
    ensures LoopWithin(arcs, entries, g, h) || LoopWithin(arcs, entries, h, g)
  {
    LoopReachable(arcs, entries, h, x);
    LoopDominated(arcs, entries, h, x);
    LoopDominated(arcs, entries, g, x);
    DominatorsComparable(arcs, entries, h, g, x);
    var outer, inner := if Dominates(arcs, entries, h, g) then h else g,
                        if Dominates(arcs, entries, h, g) then g else h;
    forall y | InLoop(arcs, entries, inner, y)
      ensures InLoop(arcs, entries, outer, y) && !InLoop(arcs, entries, inner, outer)
    {
      LoopReachable(arcs, entries, inner, y);
      DominatingLoopContains(arcs, entries, outer, inner, x, y);
    }
    assert InLoop(arcs, entries, inner, inner);
  }

  /** A topological order of the forward arcs leaves no cycle among them. */
  lemma {:induction false} OrderedIsAcyclic(fwd: Arcs, order: seq<nat>)
    requires TopologicalOrder(fwd, order)
    requires forall a :: a in fwd ==> a.0 in order && a.1 in order
    ensures Acyclic(fwd)
  {
    forall p ensures !ClosedWalk(fwd, p) {
      if ClosedWalk(fwd, p) {
        assert (p[0], p[0 + 1]) in fwd;
        var i :| 0 <= i < |order| && order[i] == p[0];
        var j := Climbs(fwd, order, p, 0, i, |p| - 1);
      }
    }
  }

  lemma {:induction false} Climbs(fwd: Arcs, order: seq<nat>, p: seq<nat>, from: nat, i: nat, to: nat) returns (j: nat)
    requires TopologicalOrder(fwd, order) && forall a :: a in fwd ==> a.0 in order && a.1 in order
    requires Walk(fwd, p) && from <= to < |p| && i < |order| && order[i] == p[from]
    ensures j < |order| && order[j] == p[to] && (from < to ==> i < j)
    decreases |p| - from
  {
    if from == to {
      j := i;
    } else {
      assert (p[from], p[from + 1]) in fwd;
      var k :| 0 <= k < |order| && order[k] == p[from + 1];
      j := Climbs(fwd, order, p, from + 1, k, to);
    }
  }

  /** The node of a closed walk that comes first in the order. */
  lemma {:induction false} EarliestOnWalk(order: seq<nat>, c: seq<nat>) returns (m: nat, r: nat)
    requires |c| > 0 && forall x :: x in c ==> x in order
    ensures m in c && r < |order| && order[r] == m && forall i :: 0 <= i < r ==> order[i] !in c
  {
    r := 0;
    assert c[0] in order;
    while order[r] !in c
      invariant r < |order| && forall i :: 0 <= i < r ==> order[i] !in c
      invariant exists i :: r <= i < |order| && order[i] in c
      decreases |order| - r
    {
      r := r + 1;
    }
    m := order[r];
  }

  /** Every reachable cycle of an accepted graph lies inside the natural loop of
      one of its own nodes, which dominates all of it. */
  lemma {:induction false} CycleCaptured(arcs: Arcs, entries: set<nat>, order: seq<nat>, c: seq<nat>) returns (h: nat)
    requires ClosedWalk(arcs, c) && ReachableFrom(arcs, entries, c[0])
    requires TopologicalOrder(ForwardArcs(arcs, entries), order)
    requires forall x :: ReachableFrom(arcs, entries, x) ==> x in order
    ensures h in c && IsHeader(arcs, entries, h)
    ensures forall x :: x in c ==> InLoop(arcs, entries, h, x) && Dominates(arcs, entries, h, x)
  {
    forall x | x in c
      ensures ReachableFrom(arcs, entries, x)
    {
      ClosedWalkConnected(arcs, c, c[0], x);
      ReachableExtends(arcs, entries, c[0], x);
    }
    var r: nat;
    h, r := EarliestOnWalk(order, c);
    var cc := Join(arcs, c, c, c[0], c[0], c[0]);
    forall i | 0 <= i < |cc| - 1 && cc[i + 1] == h
      ensures BackArc(arcs, entries, cc[i], h)
    {
      assert cc[i] in c && (cc[i], cc[i + 1]) in arcs;
      var k :| 0 <= k < |order| && order[k] == cc[i];
      assert k >= r;
      assert (order[k], order[r]) !in ForwardArcs(arcs, entries);
    }
    forall x | x in c
      ensures InLoop(arcs, entries, h, x) && Dominates(arcs, entries, h, x)
    {
      var i :| 0 <= i < |c| && c[i] == x;
      var j :| 0 <= j < |c| && c[j] == h;
      assert cc[i] == x;
      assert h in cc[i..] by { assert cc[|c| - 1 + j] == h; assert cc[i..][|c| - 1 + j - i] == h; }
      LoopAlongWalk(arcs, entries, h, cc, i);
      LoopDominated(arcs, entries, h, x);
    }
    var j :| 0 <= j < |c| && c[j] == h;
    var k := |c| - 2 + j;
    assert cc[k + 1] == c[j];
    assert BackArc(arcs, entries, cc[k], h);
  }

  lemma {:induction false} LoopAlongWalk(arcs: Arcs, entries: set<nat>, h: nat, w: seq<nat>, i: nat)
    requires Walk(arcs, w) && i < |w| && h in w[i..]
    requires forall k :: 0 <= k < |w| - 1 && w[k + 1] == h ==> BackArc(arcs, entries, w[k], h)
    ensures InLoop(arcs, entries, h, w[i])
  {
    var j := FirstIndex(w[i..], h);
    if j > 0 {
      var seg := w[i..i + j];
      assert w[i + j - 1 + 1] == h && seg == w[i..][..j];
      assert WalkFromTo(arcs, seg, w[i], w[i + j - 1]);
    }
  }

  /** No node of a cycle made of forward arcs dominates the whole cycle. */
  lemma {:induction false} ForwardCycleUndominated(arcs: Arcs, entries: set<nat>, p: seq<nat>, h: nat) returns (x: nat)
    requires ClosedWalk(ForwardArcs(arcs, entries), p) && h in p
    ensures x in p && !Dominates(arcs, entries, h, x)
  {
    var k :| 0 <= k < |p| && p[k] == h;
    var i := if k == 0 then |p| - 2 else k - 1;
    assert (p[i], p[i + 1]) in ForwardArcs(arcs, entries) && p[i + 1] == h;
    x := p[i];
  }

  /** A graph in which every reachable cycle has a dominating node keeps no cycle
      when its back arcs are dropped. */
  lemma {:induction false} ReducibleLeavesNoCycle(arcs: Arcs, entries: set<nat>)
    requires Reducible(arcs, entries)
    ensures Acyclic(ForwardArcs(arcs, entries))
  {
    var fwd := ForwardArcs(arcs, entries);
    forall p ensures !ClosedWalk(fwd, p) {
      if ClosedWalk(fwd, p) {
        assert forall i :: 0 <= i < |p| - 1 ==> (p[i], p[i + 1]) in fwd;
        assert ClosedWalk(arcs, p);
        assert (p[0], p[0 + 1]) in fwd;
        var h :| h in p && forall x :: x in p ==> Dominates(arcs, entries, h, x);
        var x := ForwardCycleUndominated(arcs, entries, p, h);
      }
    }
  }
}
