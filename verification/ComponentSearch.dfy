/** Strongly connected components by depth-first search with low links.

    Search is the state the recursive visit updates: discovery numbers, low
    links, the node stack and the components emitted so far. */
module ComponentSearch {
  import opened Digraph
  import opened WorkflowGraph
  import opened LoopPasses

  datatype Search = Search(
    index: nat,
    indices: map<nat, nat>,
    lowlinks: map<nat, nat>,
    stack: seq<nat>,
    onStack: set<nat>,
    components: seq<seq<nat>>)

  /** r is the reachability relation among the first n nodes. */
  ghost predicate Closes(arcs: Arcs, n: nat, r: Arcs) {
    forall x: nat, y: nat :: (x, y) in r <==> x < n && y < n && Reaches(arcs, x, y)
  }

  ghost predicate Mutual(r: Arcs, x: nat, y: nat) {
    (x, y) in r && (y, x) in r
  }

  ghost predicate Emitted(s: Search, x: nat) {
    x in s.indices && x !in s.onStack
  }

  ghost predicate NumbersOk(n: nat, s: Search) {
    && s.lowlinks.Keys == s.indices.Keys <= NodeSet(n)
    && forall x :: x in s.indices ==> s.indices[x] < s.index
  }

  /** The stack holds distinct visited nodes in discovery order. */
  ghost predicate StackOk(s: Search) {
    && (forall x: nat :: x in s.stack <==> x in s.onStack)
    && s.onStack <= s.indices.Keys
    && (forall i, j :: 0 <= i < j < |s.stack| ==> s.indices[s.stack[i]] < s.indices[s.stack[j]])
  }

  /** Emitted components are whole, disjoint strongly connected components. */
  ghost predicate ComponentsOk(r: Arcs, s: Search) {
    && (forall i, x: nat :: 0 <= i < |s.components| && x in s.components[i] ==> Emitted(s, x))
    && (forall x: nat :: Emitted(s, x) ==> exists i :: 0 <= i < |s.components| && x in s.components[i])
    && (forall i, x: nat, y: nat :: 0 <= i < |s.components| && x in s.components[i] ==>
      (y in s.components[i] <==> Mutual(r, x, y)))
    && (forall i, j, x: nat :: 0 <= i < j < |s.components| && x in s.components[i] ==> x !in s.components[j])
  }

  /** Successors of a finished node are visited, of an emitted node emitted. */
  ghost predicate ClosedOk(arcs: Arcs, s: Search, path: set<nat>) {
    && (forall x, y :: (x, y) in arcs && x in s.indices && x !in path ==> y in s.indices)
    && (forall x, y :: (x, y) in arcs && Emitted(s, x) ==> Emitted(s, y))
  }

  /** Every finished node on the stack reaches some node whose visit is in progress. */
  ghost predicate ClimbsOk(r: Arcs, s: Search, path: set<nat>) {
    forall x :: x in s.onStack && x !in path ==> exists g :: g in path && (x, g) in r
  }

  /** path is the set of nodes whose visit is in progress. */
  ghost predicate Inv(arcs: Arcs, r: Arcs, n: nat, s: Search, path: set<nat>) {
    && NumbersOk(n, s) && StackOk(s) && ComponentsOk(r, s) && path <= s.onStack
    && ClosedOk(arcs, s, path) && ClimbsOk(r, s, path)
  }

  /** The later state keeps every number given and the stack below. */
  ghost predicate Extends(s0: Search, s: Search) {
    && s0.index <= s.index
    && s0.indices.Keys <= s.indices.Keys && s0.lowlinks.Keys <= s.lowlinks.Keys
    && (forall x :: x in s0.indices ==> s.indices[x] == s0.indices[x])
    && (forall x :: x in s0.lowlinks ==> s.lowlinks[x] == s0.lowlinks[x])
    && (forall x :: x in s.indices && x !in s0.indices ==> s.indices[x] >= s0.index)
    && s0.stack <= s.stack
  }

  /** The stack grown since s0 holds fresh nodes that v reaches. */
  ghost predicate GrownFrom(r: Arcs, s0: Search, s: Search, v: nat)
    requires s0.stack <= s.stack
  {
    forall x: nat :: x in s.stack[|s0.stack|..] ==> x !in s0.indices && (v, x) in r
  }

  /** No arc from the grown stack, except from the given nodes, leads to a node
      below numbered less than low. */
  ghost predicate LowBounds(arcs: Arcs, s0: Search, s: Search, low: nat, except: set<nat>)
    requires s0.stack <= s.stack && s0.onStack <= s.indices.Keys
  {
    forall x, y :: (x, y) in arcs && x in s.stack[|s0.stack|..] && x !in except && y in s0.onStack ==>
      low <= s.indices[y]
  }

  /** low is the number of a node below that v reaches. */
  ghost predicate LowWitness(r: Arcs, s0: Search, s: Search, v: nat, low: nat)
    requires s0.onStack <= s.indices.Keys
  {
    exists u :: u in s0.onStack && s.indices[u] == low && (v, u) in r
  }

  /** What a completed visit of v establishes. */
  ghost predicate Visited(arcs: Arcs, r: Arcs, s0: Search, s: Search, v: nat) {
    && Extends(s0, s) && v in s.indices && v in s.lowlinks && s0.onStack <= s.indices.Keys
    && GrownFrom(r, s0, s, v) && LowBounds(arcs, s0, s, s.lowlinks[v], {})
    && (if v in s.onStack then LowWitness(r, s0, s, v, s.lowlinks[v])
        else s.lowlinks[v] == s.indices[v] && s.stack == s0.stack)
  }

  /** What holds while v scans its successors; seen are those already scanned. */
  ghost predicate Scanning(arcs: Arcs, r: Arcs, s0: Search, s: Search, v: nat, seen: seq<nat>) {
    && Extends(s0, s)
    && v !in s0.indices && v !in s0.lowlinks && v in s.indices && v in s.lowlinks && s.indices[v] == s0.index
    && s0.onStack <= s.indices.Keys
    && |s0.stack| < |s.stack| && s.stack[|s0.stack|] == v
    && GrownFrom(r, s0, s, v)
    && s.lowlinks[v] <= s.indices[v]
    && (s.lowlinks[v] < s.indices[v] ==> LowWitness(r, s0, s, v, s.lowlinks[v]))
    && LowBounds(arcs, s0, s, s.lowlinks[v], {v})
    && (forall y: nat :: y in seen ==> y in s.indices)
    && (forall y: nat :: y in seen && y in s0.onStack ==> s.lowlinks[v] <= s.indices[y])
  }

  lemma {:induction false} Transitive(arcs: Arcs, n: nat, r: Arcs, a: nat, b: nat, c: nat)
    requires Closes(arcs, n, r) && (a, b) in r && (b, c) in r
    ensures (a, c) in r
  {
    ReachesTransitive(arcs, a, b, c);
  }

  function Begin(s: Search, v: nat): Search {
    Search(s.index + 1, s.indices[v := s.index], s.lowlinks[v := s.index],
           s.stack + [v], s.onStack + {v}, s.components)
  }

  lemma {:induction false} ComponentsUnchanged(r: Arcs, s0: Search, s: Search)
    requires ComponentsOk(r, s0) && s.components == s0.components
    requires forall x: nat :: Emitted(s, x) <==> Emitted(s0, x)
    ensures ComponentsOk(r, s)
  {
  }

  lemma {:induction false} PushKeepsStack(s0: Search, v: nat)
    requires StackOk(s0) && v !in s0.indices && forall x :: x in s0.indices ==> s0.indices[x] < s0.index
    ensures StackOk(Begin(s0, v))
  {
    var s := Begin(s0, v);
    assert forall x: nat :: x in s.stack <==> x in s0.stack || x == v;
    forall i, j | 0 <= i < j < |s.stack|
      ensures s.indices[s.stack[i]] < s.indices[s.stack[j]]
    {
      assert s.stack[i] == s0.stack[i] && s0.stack[i] in s0.stack;
      if j < |s0.stack| { assert s.stack[j] == s0.stack[j] && s0.stack[j] in s0.stack; }
    }
  }

  lemma {:induction false} PushKeepsEmitted(s0: Search, v: nat)
    requires v !in s0.indices && s0.onStack <= s0.indices.Keys
    ensures forall x: nat :: Emitted(Begin(s0, v), x) <==> Emitted(s0, x)
  {
  }

  lemma {:induction false} PushKeepsComponents(r: Arcs, s0: Search, v: nat)
    requires ComponentsOk(r, s0) && v !in s0.indices && s0.onStack <= s0.indices.Keys
    ensures ComponentsOk(r, Begin(s0, v))
  {
    PushKeepsEmitted(s0, v);
    ComponentsUnchanged(r, s0, Begin(s0, v));
  }

  lemma {:induction false} PushKeepsClimbs(r: Arcs, s0: Search, v: nat, path: set<nat>)
    requires ClimbsOk(r, s0, path)
    ensures ClimbsOk(r, Begin(s0, v), path + {v})
  {
    forall x | x in Begin(s0, v).onStack && x !in path + {v}
      ensures exists g :: g in path + {v} && (x, g) in r
    {
      var g :| g in path && (x, g) in r;
      assert g in path + {v};
    }
  }

  lemma {:induction false} PushKeepsClosed(arcs: Arcs, s0: Search, v: nat, path: set<nat>)
    requires ClosedOk(arcs, s0, path) && v !in s0.indices && s0.onStack <= s0.indices.Keys
    ensures ClosedOk(arcs, Begin(s0, v), path + {v})
  {
    PushKeepsEmitted(s0, v);
  }

  lemma {:induction false} BeginKeepsInv(arcs: Arcs, r: Arcs, n: nat, s0: Search, v: nat, path: set<nat>)
    requires Inv(arcs, r, n, s0, path) && v !in s0.indices && v < n && (v, v) in r
    ensures Inv(arcs, r, n, Begin(s0, v), path + {v})
  {
    PushKeepsStack(s0, v);
    PushKeepsComponents(r, s0, v);
    PushKeepsClimbs(r, s0, v, path);
    PushKeepsClosed(arcs, s0, v, path);
  }

  lemma {:induction false} BeginScans(arcs: Arcs, r: Arcs, s0: Search, v: nat)
    requires v !in s0.indices && (v, v) in r && s0.onStack <= s0.indices.Keys && s0.lowlinks.Keys == s0.indices.Keys
    ensures Scanning(arcs, r, s0, Begin(s0, v), v, [])
  {
    var s := Begin(s0, v);
    assert s.stack[|s0.stack|..] == [v];
  }

  ghost function SetLow(s: Search, v: nat, low: nat): Search {
    s.(lowlinks := s.lowlinks[v := low])
  }

  /** The invariant does not depend on the values of the low links. */
  lemma {:induction false} SetLowKeepsInv(arcs: Arcs, r: Arcs, n: nat, s: Search, path: set<nat>, v: nat, low: nat)
    requires Inv(arcs, r, n, s, path) && v in s.lowlinks
    ensures Inv(arcs, r, n, SetLow(s, v, low), path)
  {
    var s' := SetLow(s, v, low);
    assert forall x: nat :: Emitted(s', x) <==> Emitted(s, x);
    ComponentsUnchanged(r, s, s');
  }

  lemma {:induction false} SuffixOfStack(s0: Search, s1: Search, s2: Search, x: nat)
    requires s0.stack <= s1.stack <= s2.stack
    ensures x in s2.stack[|s0.stack|..] <==> x in s1.stack[|s0.stack|..] || x in s2.stack[|s1.stack|..]
  {
    assert s2.stack[|s0.stack|..] == s1.stack[|s0.stack|..] + s2.stack[|s1.stack|..];
  }

  /** A node stacked before v is below it exactly when its number is smaller. */
  lemma {:induction false} BelowByNumber(s0: Search, s: Search, v: nat, u: nat)
    requires Extends(s0, s) && StackOk(s) && s0.onStack <= s.indices.Keys
    requires forall x: nat :: x in s0.stack <==> x in s0.onStack
    requires |s0.stack| < |s.stack| && s.stack[|s0.stack|] == v && v in s.indices && u in s.onStack
    ensures u in s0.onStack <==> s.indices[u] < s.indices[v]
  {
    var i :| 0 <= i < |s.stack| && s.stack[i] == u;
    if i < |s0.stack| { assert s0.stack[i] in s0.stack; }
    if u in s0.onStack {
      var j :| 0 <= j < |s0.stack| && s0.stack[j] == u;
      assert s.stack[j] == u;
    }
  }

  /** Scanning a successor already on the stack. */
  lemma {:induction false} ScanStacked(arcs: Arcs, r: Arcs, s0: Search, s: Search, v: nat, seen: seq<nat>, w: nat,
      low: nat)
    requires Scanning(arcs, r, s0, s, v, seen) && StackOk(s) && (v, w) in r && w in s.onStack
    requires forall x: nat :: x in s0.stack <==> x in s0.onStack
    requires low == if s.indices[w] < s.lowlinks[v] then s.indices[w] else s.lowlinks[v]
    ensures Scanning(arcs, r, s0, SetLow(s, v, low), v, seen + [w])
  {
    BelowByNumber(s0, s, v, w);
    var s' := SetLow(s, v, low);
    assert low < s.indices[v] ==> LowWitness(r, s0, s', v, low);
    assert forall y: nat :: y in seen + [w] <==> y in seen || y == w;
  }

  /** Scanning a successor whose component has already been emitted. */
  lemma {:induction false} ScanEmitted(arcs: Arcs, r: Arcs, s0: Search, s: Search, v: nat, seen: seq<nat>, w: nat)
    requires Scanning(arcs, r, s0, s, v, seen) && StackOk(s) && w in s.indices && w !in s.onStack
    requires forall x: nat :: x in s0.stack <==> x in s0.onStack
    ensures Scanning(arcs, r, s0, s, v, seen + [w])
  {
    StackedStays(s0, s);
    assert forall y: nat :: y in seen + [w] <==> y in seen || y == w;
  }

  /** The low link of a child that stays stacked, when it goes below v, is v's witness. */
  lemma {:induction false} ChildWitness(arcs: Arcs, n: nat, r: Arcs, s0: Search, s1: Search, s2: Search, v: nat, w: nat)
    requires Closes(arcs, n, r) && (v, w) in r
    requires Extends(s0, s1) && Extends(s1, s2) && StackOk(s1) && StackOk(s2)
    requires forall x: nat :: x in s0.stack <==> x in s0.onStack
    requires |s0.stack| < |s1.stack| && s1.stack[|s0.stack|] == v && v in s1.indices
    requires s0.onStack <= s2.indices.Keys && s1.onStack <= s2.indices.Keys && w in s2.lowlinks
    requires LowWitness(r, s1, s2, w, s2.lowlinks[w]) && s2.lowlinks[w] < s2.indices[v]
    ensures LowWitness(r, s0, s2, v, s2.lowlinks[w])
  {
    var u :| u in s1.onStack && s2.indices[u] == s2.lowlinks[w] && (w, u) in r;
    Transitive(arcs, n, r, v, w, u);
    assert u in s2.onStack by {
      var j :| 0 <= j < |s1.stack| && s1.stack[j] == u;
      assert s2.stack[j] == u;
    }
    assert s2.stack[|s0.stack|] == v;
    BelowByNumber(s0, s2, v, u);
  }

  lemma {:induction false} ChildGrowth(arcs: Arcs, n: nat, r: Arcs, s0: Search, s1: Search, s2: Search, v: nat, w: nat)
    requires Closes(arcs, n, r) && (v, w) in r
    requires s0.stack <= s1.stack <= s2.stack && s0.indices.Keys <= s1.indices.Keys
    requires GrownFrom(r, s0, s1, v) && GrownFrom(r, s1, s2, w)
    ensures GrownFrom(r, s0, s2, v)
  {
    forall x: nat | x in s2.stack[|s0.stack|..]
      ensures x !in s0.indices && (v, x) in r
    {
      SuffixOfStack(s0, s1, s2, x);
      if x in s2.stack[|s1.stack|..] { Transitive(arcs, n, r, v, w, x); }
    }
  }

  lemma {:induction false} ChildBounds(arcs: Arcs, s0: Search, s1: Search, s2: Search, v: nat, low1: nat, low2: nat,
      low: nat)
    requires Extends(s0, s1) && Extends(s1, s2) && s0.onStack <= s1.onStack <= s2.indices.Keys
    requires s0.onStack <= s1.indices.Keys
    requires LowBounds(arcs, s0, s1, low1, {v}) && LowBounds(arcs, s1, s2, low2, {})
    requires low <= low1 && low <= low2
    ensures LowBounds(arcs, s0, s2, low, {v})
  {
    forall x, y | (x, y) in arcs && x in s2.stack[|s0.stack|..] && x !in {v} && y in s0.onStack
      ensures low <= s2.indices[y]
    {
      SuffixOfStack(s0, s1, s2, x);
      if x in s1.stack[|s0.stack|..] { assert low1 <= s1.indices[y]; }
    }
  }

  lemma {:induction false} ExtendsTransitive(s0: Search, s1: Search, s2: Search)
    requires Extends(s0, s1) && Extends(s1, s2)
    ensures Extends(s0, s2)
  {
  }

  lemma {:induction false} StackedStays(s0: Search, s1: Search)
    requires s0.stack <= s1.stack
    requires forall x: nat :: x in s0.stack <==> x in s0.onStack
    requires forall x: nat :: x in s1.stack <==> x in s1.onStack
    ensures s0.onStack <= s1.onStack
  {
    forall x | x in s0.onStack
      ensures x in s1.onStack
    {
      var j :| 0 <= j < |s0.stack| && s0.stack[j] == x;
      assert s1.stack[j] == x;
    }
  }

  /** After a child's visit the lowered link of v is still the number of a node
      below v, unless it is v's own number. */
  lemma {:induction false} LowerLink(arcs: Arcs, n: nat, r: Arcs, s0: Search, s1: Search, s2: Search, v: nat,
      seen: seq<nat>, w: nat, low: nat)
    requires Closes(arcs, n, r) && (v, w) in r
    requires Scanning(arcs, r, s0, s1, v, seen) && StackOk(s1) && w !in s1.indices && s1.index > s1.indices[v]
    requires forall x: nat :: x in s0.stack <==> x in s0.onStack
    requires Visited(arcs, r, s1, s2, w) && StackOk(s2)
    requires low == if s2.lowlinks[w] < s2.lowlinks[v] then s2.lowlinks[w] else s2.lowlinks[v]
    requires low < s2.indices[v]
    ensures LowWitness(r, s0, s2, v, low)
  {
    if low == s1.lowlinks[v] {
      var u :| u in s0.onStack && s1.indices[u] == low && (v, u) in r;
      assert s2.indices[u] == low;
    } else {
      assert s2.indices[w] >= s1.index;
      ChildWitness(arcs, n, r, s0, s1, s2, v, w);
    }
  }

  /** Scanning a successor that had to be visited first. */
  lemma {:induction false} ScanChild(arcs: Arcs, n: nat, r: Arcs, s0: Search, s1: Search, s2: Search, v: nat,
      seen: seq<nat>, w: nat, low: nat)
    requires Closes(arcs, n, r) && (v, w) in r
    requires Scanning(arcs, r, s0, s1, v, seen) && StackOk(s1) && w !in s1.indices && s1.index > s1.indices[v]
    requires forall x: nat :: x in s0.stack <==> x in s0.onStack
    requires Visited(arcs, r, s1, s2, w) && StackOk(s2)
    requires low == if s2.lowlinks[w] < s2.lowlinks[v] then s2.lowlinks[w] else s2.lowlinks[v]
    ensures Scanning(arcs, r, s0, SetLow(s2, v, low), v, seen + [w])
  {
    ExtendsTransitive(s0, s1, s2);
    StackedStays(s0, s1);
    ChildGrowth(arcs, n, r, s0, s1, s2, v, w);
    ChildBounds(arcs, s0, s1, s2, v, s1.lowlinks[v], s2.lowlinks[w], low);
    if low < s2.indices[v] { LowerLink(arcs, n, r, s0, s1, s2, v, seen, w, low); }
    ScanChildAssemble(arcs, r, s0, s1, s2, v, seen, w, low);
  }

  lemma {:induction false} ScanChildAssemble(arcs: Arcs, r: Arcs, s0: Search, s1: Search, s2: Search, v: nat,
      seen: seq<nat>, w: nat, low: nat)
    requires Scanning(arcs, r, s0, s1, v, seen) && Extends(s1, s2) && Extends(s0, s2)
    requires s0.onStack <= s1.onStack <= s1.indices.Keys && w !in s1.indices && w in s2.indices
    requires low <= s1.lowlinks[v] && GrownFrom(r, s0, s2, v) && LowBounds(arcs, s0, s2, low, {v})
    requires low < s2.indices[v] ==> LowWitness(r, s0, s2, v, low)
    ensures Scanning(arcs, r, s0, SetLow(s2, v, low), v, seen + [w])
  {
    var s' := SetLow(s2, v, low);
    assert s'.stack[|s0.stack|] == s1.stack[|s0.stack|];
    assert forall y: nat :: y in seen + [w] <==> y in seen || y == w;
    if low < s2.indices[v] {
      var u :| u in s0.onStack && s2.indices[u] == low && (v, u) in r;
      assert s'.indices[u] == low;
    }
  }

  /** All successors of v have been scanned. */
  ghost predicate AllScanned(arcs: Arcs, v: nat, seen: seq<nat>) {
    forall y: nat :: (v, y) in arcs ==> y in seen
  }

  /** Every node in progress reaches the node about to be visited. */
  ghost predicate PathReaches(r: Arcs, path: set<nat>, v: nat) {
    forall g :: g in path ==> (g, v) in r
  }

  lemma {:induction false} FinishClosed(arcs: Arcs, s: Search, v: nat, path: set<nat>, seen: seq<nat>)
    requires ClosedOk(arcs, s, path + {v}) && AllScanned(arcs, v, seen)
    requires forall y: nat :: y in seen ==> y in s.indices
    ensures ClosedOk(arcs, s, path)
  {
  }

  lemma {:induction false} FinishVisited(arcs: Arcs, r: Arcs, s0: Search, s: Search, v: nat, seen: seq<nat>)
    requires Scanning(arcs, r, s0, s, v, seen) && AllScanned(arcs, v, seen) && s.lowlinks[v] != s.indices[v]
    requires v in s.onStack
    ensures Visited(arcs, r, s0, s, v)
  {
  }

  lemma {:induction false} WitnessClimbs(arcs: Arcs, n: nat, r: Arcs, s0: Search, s: Search, v: nat, path: set<nat>)
      returns (g0: nat)
    requires Closes(arcs, n, r) && ClimbsOk(r, s0, path)
    requires s0.onStack <= s.indices.Keys && v in s.lowlinks && LowWitness(r, s0, s, v, s.lowlinks[v])
    ensures g0 in path && (v, g0) in r
  {
    var u :| u in s0.onStack && s.indices[u] == s.lowlinks[v] && (v, u) in r;
    if u in path { return u; }
    g0 :| g0 in path && (u, g0) in r;
    Transitive(arcs, n, r, v, u, g0);
  }

  /** A visit whose low link fell below its number leaves v on the stack. */
  lemma {:induction false} FinishStacked(arcs: Arcs, n: nat, r: Arcs, s0: Search, s: Search, v: nat, path: set<nat>,
      seen: seq<nat>)
    requires Closes(arcs, n, r) && ClosedOk(arcs, s, path + {v}) && ClimbsOk(r, s, path + {v}) && ClimbsOk(r, s0, path)
    requires Scanning(arcs, r, s0, s, v, seen) && AllScanned(arcs, v, seen) && s.lowlinks[v] != s.indices[v]
    ensures ClosedOk(arcs, s, path) && ClimbsOk(r, s, path)
  {
    var g0 := WitnessClimbs(arcs, n, r, s0, s, v, path);
    FinishClimbs(arcs, n, r, s, v, path, g0);
    FinishClosed(arcs, s, v, path, seen);
  }

  lemma {:induction false} FinishClimbs(arcs: Arcs, n: nat, r: Arcs, s: Search, v: nat, path: set<nat>, g0: nat)
    requires Closes(arcs, n, r) && ClimbsOk(r, s, path + {v}) && g0 in path && (v, g0) in r
    ensures ClimbsOk(r, s, path)
  {
    forall x | x in s.onStack && x !in path && x != v
      ensures exists g :: g in path && (x, g) in r
    {
      var g :| g in path + {v} && (x, g) in r;
      if g == v { Transitive(arcs, n, r, x, v, g0); }
    }
  }

  function Emit(s: Search, stack: seq<nat>, onStack: set<nat>, component: seq<nat>): Search {
    s.(stack := stack, onStack := onStack, components := s.components + [component])
  }

  /** What the end of a visit knows when the low link of v equals its number. */
  ghost predicate AtRoot(arcs: Arcs, r: Arcs, n: nat, s0: Search, s: Search, v: nat, path: set<nat>, seen: seq<nat>) {
    && Closes(arcs, n, r) && PathReaches(r, path, v) && (v, v) in r
    && NumbersOk(n, s0) && StackOk(s0) && StackOk(s)
    && ClosedOk(arcs, s, path + {v}) && ClimbsOk(r, s, path + {v}) && path <= s0.onStack
    && Scanning(arcs, r, s0, s, v, seen) && AllScanned(arcs, v, seen) && s.lowlinks[v] == s.indices[v]
  }

  lemma {:induction false} BelowStacked(s0: Search, s: Search)
    requires s0.stack <= s.stack && StackOk(s0)
    ensures forall i :: 0 <= i < |s0.stack| ==> s.stack[i] in s0.onStack
  {
    forall i | 0 <= i < |s0.stack| ensures s.stack[i] in s0.onStack { assert s0.stack[i] in s0.stack; }
  }

  lemma {:induction false} NotBelow(s0: Search, s: Search, y: nat)
    requires s0.stack <= s.stack && StackOk(s0) && StackOk(s) && y in s.onStack && y !in s0.onStack
    ensures y in s.stack[|s0.stack|..]
  {
    var i :| 0 <= i < |s.stack| && s.stack[i] == y;
    BelowStacked(s0, s);
    assert s.stack[|s0.stack|..][i - |s0.stack|] == y;
  }

  /** The grown stack together with the emitted nodes is closed under arcs. */
  lemma {:induction false} RootClosed(arcs: Arcs, r: Arcs, n: nat, s0: Search, s: Search, v: nat, path: set<nat>,
      seen: seq<nat>, x: nat, y: nat)
    requires AtRoot(arcs, r, n, s0, s, v, path, seen)
    requires (x, y) in arcs && (x in s.stack[|s0.stack|..] || Emitted(s, x))
    ensures y in s.stack[|s0.stack|..] || Emitted(s, y)
  {
    if !Emitted(s, x) {
      GrownStacked(s0, s, x);
      assert x !in s0.indices && x !in path;
      assert y in s.indices;
      if y in s.onStack { NotBelow(s0, s, y); }
    }
  }

  lemma {:induction false} RootReaches(arcs: Arcs, n: nat, r: Arcs, s0: Search, s: Search, v: nat, path: set<nat>,
      x: nat)
    requires Closes(arcs, n, r) && PathReaches(r, path, v) && (v, v) in r
    requires s0.stack <= s.stack && StackOk(s0) && StackOk(s) && ClimbsOk(r, s, path + {v}) && path <= s0.onStack
    requires x in s.stack[|s0.stack|..]
    ensures (x, v) in r
  {
    GrownStacked(s0, s, x);
    GrownFresh(s0, s, x);
    if x != v {
      var g :| g in path + {v} && (x, g) in r;
      if g != v { Transitive(arcs, n, r, x, g, v); }
    }
  }

  /** The popped nodes are exactly the strongly connected component of v. */
  lemma {:induction false} RootComponent(arcs: Arcs, n: nat, r: Arcs, s0: Search, s: Search, v: nat, path: set<nat>,
      seen: seq<nat>, x: nat, y: nat)
    requires AtRoot(arcs, r, n, s0, s, v, path, seen) && x in s.stack[|s0.stack|..]
    ensures y in s.stack[|s0.stack|..] <==> Mutual(r, x, y)
  {
    RootReaches(arcs, n, r, s0, s, v, path, x);
    if y in s.stack[|s0.stack|..] {
      RootReaches(arcs, n, r, s0, s, v, path, y);
      Transitive(arcs, n, r, x, v, y);
      Transitive(arcs, n, r, y, v, x);
    } else if Mutual(r, x, y) {
      RootMaximal(arcs, n, r, s0, s, v, path, seen, x, y);
    }
  }

  lemma {:induction false} RootMaximal(arcs: Arcs, n: nat, r: Arcs, s0: Search, s: Search, v: nat, path: set<nat>,
      seen: seq<nat>, x: nat, y: nat)
    requires AtRoot(arcs, r, n, s0, s, v, path, seen) && x in s.stack[|s0.stack|..] && Mutual(r, x, y)
    ensures y in s.stack[|s0.stack|..]
  {
    var grown := s.stack[|s0.stack|..];
    var closed := set z: nat | z in s.indices && (z in grown || Emitted(s, z));
    forall a, b | (a, b) in arcs && a in closed
      ensures b in closed
    {
      RootClosed(arcs, r, n, s0, s, v, path, seen, a, b);
      if b in grown { GrownStacked(s0, s, b); }
    }
    GrownStacked(s0, s, x);
    var p :| WalkFromTo(arcs, p, x, y);
    ClosedContains(arcs, closed, p);
    if Emitted(s, y) {
      var q :| WalkFromTo(arcs, q, y, x);
      EmittedClosed(arcs, s, path + {v}, q);
    }
  }

  lemma {:induction false} GrownStacked(s0: Search, s: Search, x: nat)
    requires s0.stack <= s.stack && StackOk(s) && x in s.stack[|s0.stack|..]
    ensures x in s.onStack && x in s.indices
  {
    var i :| 0 <= i < |s.stack[|s0.stack|..]| && s.stack[|s0.stack|..][i] == x;
    assert s.stack[|s0.stack| + i] == x;
  }

  lemma {:induction false} EmittedClosed(arcs: Arcs, s: Search, path: set<nat>, q: seq<nat>)
    requires ClosedOk(arcs, s, path) && Walk(arcs, q) && Emitted(s, q[0])
    ensures Emitted(s, q[|q| - 1])
  {
    var closed := set z: nat | z in s.indices && Emitted(s, z);
    ClosedContains(arcs, closed, q);
  }

  /** component lists exactly the nodes stacked since s0. */
  ghost predicate Popped(s0: Search, s: Search, component: seq<nat>)
    requires s0.stack <= s.stack
  {
    forall x: nat :: x in component <==> x in s.stack[|s0.stack|..]
  }

  lemma {:induction false} EmittedAfter(s0: Search, s: Search, component: seq<nat>, x: nat)
    requires s0.stack <= s.stack && StackOk(s0) && StackOk(s) && Popped(s0, s, component)
    ensures Emitted(Emit(s, s0.stack, s0.onStack, component), x) <==> Emitted(s, x) || x in component
    ensures x in component ==> x in s.onStack && x !in s0.onStack
  {
    if x in component { GrownStacked(s0, s, x); GrownFresh(s0, s, x); }
    if x in s.onStack && x !in s0.onStack { NotBelow(s0, s, x); }
    StackedStays(s0, s);
  }

  lemma {:induction false} GrownFresh(s0: Search, s: Search, x: nat)
    requires s0.stack <= s.stack && StackOk(s0) && StackOk(s) && x in s.stack[|s0.stack|..]
    ensures x !in s0.onStack
  {
    var i :| 0 <= i < |s.stack[|s0.stack|..]| && s.stack[|s0.stack|..][i] == x;
    assert s.stack[|s0.stack| + i] == x;
    forall j | 0 <= j < |s0.stack| ensures s0.stack[j] != x { assert s.stack[j] == s0.stack[j]; }
  }

  lemma {:induction false} EmitKeepsComponents(arcs: Arcs, n: nat, r: Arcs, s0: Search, s: Search, v: nat,
      path: set<nat>, seen: seq<nat>, component: seq<nat>)
    requires AtRoot(arcs, r, n, s0, s, v, path, seen) && ComponentsOk(r, s) && Popped(s0, s, component)
    ensures ComponentsOk(r, Emit(s, s0.stack, s0.onStack, component))
  {
    forall x: nat
      ensures Emitted(Emit(s, s0.stack, s0.onStack, component), x) <==> Emitted(s, x) || x in component
      ensures x in component ==> !Emitted(s, x)
    {
      EmittedAfter(s0, s, component, x);
    }
    forall x: nat, y: nat | x in component
      ensures y in component <==> Mutual(r, x, y)
    {
      RootComponent(arcs, n, r, s0, s, v, path, seen, x, y);
    }
    AppendComponent(r, s, Emit(s, s0.stack, s0.onStack, component), component);
  }

  lemma {:induction false} AppendComponent(r: Arcs, s: Search, s': Search, component: seq<nat>)
    requires ComponentsOk(r, s) && s'.components == s.components + [component]
    requires forall x: nat :: Emitted(s', x) <==> Emitted(s, x) || x in component
    requires forall x: nat :: x in component ==> !Emitted(s, x)
    requires forall x: nat, y: nat :: x in component ==> (y in component <==> Mutual(r, x, y))
    ensures ComponentsOk(r, s')
  {
    forall x: nat | Emitted(s', x)
      ensures exists i :: 0 <= i < |s'.components| && x in s'.components[i]
    {
      if x in component { assert s'.components[|s.components|] == component; } else {
        var i :| 0 <= i < |s.components| && x in s.components[i];
        assert s'.components[i] == s.components[i];
      }
    }
  }

  lemma {:induction false} EmitKeepsClosed(arcs: Arcs, n: nat, r: Arcs, s0: Search, s: Search, v: nat, path: set<nat>,
      seen: seq<nat>, component: seq<nat>)
    requires AtRoot(arcs, r, n, s0, s, v, path, seen) && Popped(s0, s, component)
    ensures ClosedOk(arcs, Emit(s, s0.stack, s0.onStack, component), path)
  {
    var s' := Emit(s, s0.stack, s0.onStack, component);
    forall x, y | (x, y) in arcs && Emitted(s', x)
      ensures Emitted(s', y)
    {
      EmittedAfter(s0, s, component, x);
      EmittedAfter(s0, s, component, y);
      RootClosed(arcs, r, n, s0, s, v, path, seen, x, y);
    }
    FinishClosed(arcs, s, v, path, seen);
  }

  lemma {:induction false} EmitKeepsInv(arcs: Arcs, n: nat, r: Arcs, s0: Search, s: Search, v: nat, path: set<nat>,
      seen: seq<nat>, component: seq<nat>)
    requires AtRoot(arcs, r, n, s0, s, v, path, seen) && ComponentsOk(r, s) && NumbersOk(n, s)
    requires ClimbsOk(r, s0, path) && Popped(s0, s, component)
    ensures Inv(arcs, r, n, Emit(s, s0.stack, s0.onStack, component), path)
  {
    EmitKeepsComponents(arcs, n, r, s0, s, v, path, seen, component);
    EmitKeepsClosed(arcs, n, r, s0, s, v, path, seen, component);
    RestoredStack(s0, Emit(s, s0.stack, s0.onStack, component));
  }

  lemma {:induction false} RestoredStack(s0: Search, s: Search)
    requires StackOk(s0) && s.stack == s0.stack && s.onStack == s0.onStack
    requires s0.indices.Keys <= s.indices.Keys && forall x :: x in s0.indices ==> s.indices[x] == s0.indices[x]
    ensures StackOk(s)
  {
    forall i, j | 0 <= i < j < |s.stack|
      ensures s.indices[s.stack[i]] < s.indices[s.stack[j]]
    {
      assert s0.stack[i] in s0.stack && s0.stack[j] in s0.stack;
    }
  }

  lemma {:induction false} EmitVisited(arcs: Arcs, r: Arcs, s0: Search, s: Search, v: nat, seen: seq<nat>,
      component: seq<nat>)
    requires Scanning(arcs, r, s0, s, v, seen) && s.lowlinks[v] == s.indices[v] && s0.onStack <= s0.indices.Keys
    ensures Visited(arcs, r, s0, Emit(s, s0.stack, s0.onStack, component), v)
  {
  }

  /** The recursive search; its fields are the variables the visit closes over. */
  class Finder {
    var index: nat
    var indices: map<nat, nat>
    var lowlinks: map<nat, nat>
    var stack: seq<nat>
    var onStack: set<nat>
    var components: seq<seq<nat>>

    function State(): Search
      reads this
    {
      Search(index, indices, lowlinks, stack, onStack, components)
    }

    constructor ()
      ensures State() == Search(0, map[], map[], [], {}, [])
    {
      index, indices, lowlinks, stack, onStack, components := 0, map[], map[], [], {}, [];
    }

    method Lower(node: nat, other: nat)
      requires node in lowlinks
      modifies this`lowlinks
      ensures State() == SetLow(old(State()), node, if other < old(lowlinks)[node] then other else old(lowlinks)[node])
    {
      lowlinks := lowlinks[node := if other < lowlinks[node] then other else lowlinks[node]];
    }

    /** Emits the nodes popped down to node as one component. */
    method PopComponent(node: nat, ghost s0: Search) returns (component: seq<nat>)
      requires s0.stack <= stack && |s0.stack| < |stack| && stack[|s0.stack|] == node
      requires StackOk(State()) && StackOk(s0)
      modifies this`stack, this`onStack, this`components
      ensures State() == Emit(old(State()), s0.stack, s0.onStack, component)
      ensures Popped(s0, old(State()), component)
    {
      ghost var s := State();
      stack, onStack, component := PopDown(stack, onStack, node, s, |s0.stack|);
      PoppedToBase(s0, s, onStack, component);
      components := components + [component];
    }

    method Start(node: nat)
      modifies this
      ensures State() == Begin(old(State()), node)
    {
      indices := indices[node := index];
      lowlinks := lowlinks[node := index];
      index := index + 1;
      stack := stack + [node];
      onStack := onStack + {node};
    }

    /** Visits one unvisited node and everything first reached through it. */
    method Visit(node: nat, successors: seq<seq<nat>>, ghost arcs: Arcs, ghost r: Arcs, ghost path: set<nat>)
      requires SearchGraph(arcs, r, successors) && node < |successors|
      requires Inv(arcs, r, |successors|, State(), path) && node !in indices && PathReaches(r, path, node)
      modifies this
      ensures Inv(arcs, r, |successors|, State(), path) && Visited(arcs, r, old(State()), State(), node)
      decreases NodeSet(|successors|) - indices.Keys, 1
    {
      ghost var s0 := State();
      SelfReach(arcs, r, successors, node);
      BeginKeepsInv(arcs, r, |successors|, s0, node, path);
      BeginScans(arcs, r, s0, node);
      Start(node);
      var next := successors[node];
      for j := 0 to |next|
        invariant Inv(arcs, r, |successors|, State(), path + {node}) && Scanning(arcs, r, s0, State(), node, next[..j])
      {
        TakeNext(next, j);
        Scan(node, next[j], successors, arcs, r, path, s0, next[..j]);
      }
      TakeAll(next);
      Finish(node, arcs, r, |successors|, path, s0, next);
    }

    /** Ends a visit: emits the component when node is its root. */
    method Finish(node: nat, ghost arcs: Arcs, ghost r: Arcs, ghost n: nat, ghost path: set<nat>, ghost s0: Search,
        ghost next: seq<nat>)
      requires Closes(arcs, n, r) && (node, node) in r && PathReaches(r, path, node)
      requires Inv(arcs, r, n, s0, path) && Inv(arcs, r, n, State(), path + {node})
      requires Scanning(arcs, r, s0, State(), node, next) && AllScanned(arcs, node, next)
      modifies this`stack, this`onStack, this`components
      ensures Inv(arcs, r, n, State(), path) && Visited(arcs, r, s0, State(), node)
    {
      ghost var s := State();
      if lowlinks[node] != indices[node] {
        StackedStays(s0, s);
        FinishStacked(arcs, n, r, s0, s, node, path, next);
        FinishVisited(arcs, r, s0, s, node, next);
      } else {
        var component := PopComponent(node, s0);
        EmitKeepsInv(arcs, n, r, s0, s, node, path, next, component);
        EmitVisited(arcs, r, s0, s, node, next, component);
      }
    }

    /** One step of node's loop over its successors. */
    method Scan(node: nat, w: nat, successors: seq<seq<nat>>, ghost arcs: Arcs, ghost r: Arcs, ghost path: set<nat>,
        ghost s0: Search, ghost seen: seq<nat>)
      requires SearchGraph(arcs, r, successors) && (node, w) in arcs && PathReaches(r, path, node)
      requires Inv(arcs, r, |successors|, State(), path + {node}) && Scanning(arcs, r, s0, State(), node, seen)
      requires StackOk(s0)
      modifies this
      ensures Inv(arcs, r, |successors|, State(), path + {node}) && Scanning(arcs, r, s0, State(), node, seen + [w])
      ensures old(indices).Keys <= indices.Keys
      decreases NodeSet(|successors|) - indices.Keys, 2
    {
      ghost var n, s1 := |successors|, State();
      ArcReach(arcs, r, successors, path, node, w);
      if w !in indices {
        Visit(w, successors, arcs, r, path + {node});
        ghost var s2 := State();
        SetLowKeepsInv(arcs, r, n, s2, path + {node}, node,
          if s2.lowlinks[w] < s2.lowlinks[node] then s2.lowlinks[w] else s2.lowlinks[node]);
        ScanChild(arcs, n, r, s0, s1, s2, node, seen, w,
          if s2.lowlinks[w] < s2.lowlinks[node] then s2.lowlinks[w] else s2.lowlinks[node]);
        Lower(node, lowlinks[w]);
      } else if w in onStack {
        SetLowKeepsInv(arcs, r, n, s1, path + {node}, node,
          if s1.indices[w] < s1.lowlinks[node] then s1.indices[w] else s1.lowlinks[node]);
        ScanStacked(arcs, r, s0, s1, node, seen, w,
          if s1.indices[w] < s1.lowlinks[node] then s1.indices[w] else s1.lowlinks[node]);
        Lower(node, indices[w]);
      } else {
        ScanEmitted(arcs, r, s0, s1, node, seen, w);
      }
    }
  }

  lemma {:induction false} TakeNext(s: seq<nat>, j: nat)
    requires j < |s|
    ensures s[..j + 1] == s[..j] + [s[j]] && s[j] in s
  {
  }

  lemma {:induction false} TakeAll(s: seq<nat>)
    ensures s[..|s|] == s
  {
  }

  /** The successor table and r describe the arcs among the nodes. */
  ghost predicate SearchGraph(arcs: Arcs, r: Arcs, successors: seq<seq<nat>>) {
    && Closes(arcs, |successors|, r)
    && (forall a :: a in arcs ==> a.0 < |successors| && a.1 < |successors|)
    && (forall v: nat, u: nat :: v < |successors| ==> (u in successors[v] <==> (v, u) in arcs))
  }

  lemma {:induction false} SelfReach(arcs: Arcs, r: Arcs, successors: seq<seq<nat>>, v: nat)
    requires SearchGraph(arcs, r, successors) && v < |successors|
    ensures (v, v) in r
  {
    ReachesSelf(arcs, v);
  }

  lemma {:induction false} ArcReach(arcs: Arcs, r: Arcs, successors: seq<seq<nat>>, path: set<nat>, v: nat, w: nat)
    requires SearchGraph(arcs, r, successors) && (v, w) in arcs && PathReaches(r, path, v)
    ensures v < |successors| && w < |successors| && (v, w) in r && PathReaches(r, path + {v}, w)
  {
    ReachesArc(arcs, v, w);
    forall g | g in path + {v}
      ensures (g, w) in r
    {
      if g != v { Transitive(arcs, |successors|, r, g, v, w); }
    }
  }

  /** The pop loop: members leave the stack one by one until node has left. */
  method PopDown(stack0: seq<nat>, onStack0: set<nat>, node: nat, ghost s: Search, ghost base: nat)
    returns (stack: seq<nat>, onStack: set<nat>, component: seq<nat>)
    requires StackOk(s) && stack0 == s.stack && onStack0 == s.onStack
    requires base < |s.stack| && s.stack[base] == node
    ensures stack == s.stack[..base] && Popping(s, base, onStack, component)
  {
    stack, onStack, component := stack0, onStack0, [];
    while true
      invariant base < |stack| <= |s.stack| && stack == s.stack[..|stack|]
      invariant Popping(s, |stack|, onStack, component)
      decreases |stack|
    {
      var member: nat := stack[|stack| - 1];
      PoppingStep(s, |stack| - 1, onStack, component);
      AtBase(s, base, |stack| - 1);
      stack := stack[..|stack| - 1];
      onStack := onStack - {member};
      component := component + [member];
      if member == node {
        break;
      }
    }
  }

  /** The top of the stack down to position k has moved into component. */
  ghost predicate Popping(s: Search, k: nat, onStack: set<nat>, component: seq<nat>) {
    && k <= |s.stack|
    && (forall x: nat :: x in onStack <==> x in s.stack[..k])
    && (forall x: nat :: x in component <==> x in s.stack[k..])
  }

  lemma {:induction false} PoppingStep(s: Search, k: nat, onStack: set<nat>, component: seq<nat>)
    requires StackOk(s) && k < |s.stack| && Popping(s, k + 1, onStack, component)
    ensures Popping(s, k, onStack - {s.stack[k]}, component + [s.stack[k]])
  {
    assert s.stack[..k + 1] == s.stack[..k] + [s.stack[k]];
    assert s.stack[k..] == [s.stack[k]] + s.stack[k + 1..];
  }

  lemma {:induction false} PoppedToBase(s0: Search, s: Search, onStack: set<nat>, component: seq<nat>)
    requires s0.stack <= s.stack && StackOk(s0) && Popping(s, |s0.stack|, onStack, component)
    ensures onStack == s0.onStack && s.stack[..|s0.stack|] == s0.stack && Popped(s0, s, component)
  {
    assert s.stack[..|s0.stack|] == s0.stack;
    forall x: nat ensures x in onStack <==> x in s0.onStack { }
  }

  lemma {:induction false} AtBase(s: Search, base: nat, k: nat)
    requires StackOk(s) && base < |s.stack| && k < |s.stack|
    ensures s.stack[k] == s.stack[base] <==> k == base
  {
  }

  /** The components are disjoint, cover the nodes, and two nodes share a
      component exactly when each reaches the other. */
  ghost predicate PartitionsByMutualReach(arcs: Arcs, n: nat, components: seq<seq<nat>>) {
    && (forall i, x: nat :: 0 <= i < |components| && x in components[i] ==> x < n)
    && (forall x: nat :: x in NodeSet(n) ==> exists i :: 0 <= i < |components| && x in components[i])
    && (forall i, x: nat, y: nat :: 0 <= i < |components| && x in components[i] ==>
      (y in components[i] <==> Reaches(arcs, x, y) && Reaches(arcs, y, x)))
    && (forall i, j, x: nat :: 0 <= i < j < |components| && x in components[i] ==> x !in components[j])
  }

  lemma {:induction false} ArcsInRange(n: nat, edges: seq<EdgeIR>)
    requires ValidEdges(n, edges)
    ensures forall a :: a in ArcsOf(edges) ==> a.0 < n && a.1 < n
  {
  }

  ghost function ReachRelation(arcs: Arcs, n: nat): (r: Arcs)
    ensures Closes(arcs, n, r)
  {
    set x: nat, y: nat | x in NodeSet(n) && y in NodeSet(n) && Reaches(arcs, x, y) :: (x, y)
  }

  lemma {:induction false} ReachStaysInRange(arcs: Arcs, n: nat, x: nat, y: nat)
    requires forall a :: a in arcs ==> a.0 < n && a.1 < n
    requires x < n && Reaches(arcs, x, y)
    ensures y < n
  {
    var p :| WalkFromTo(arcs, p, x, y);
    ClosedContains(arcs, NodeSet(n), p);
  }

  lemma {:induction false} EmptyStateInv(arcs: Arcs, r: Arcs, n: nat)
    ensures Inv(arcs, r, n, Search(0, map[], map[], [], {}, []), {})
  {
  }

  lemma {:induction false} FinalPartition(arcs: Arcs, r: Arcs, n: nat, s: Search)
    requires Closes(arcs, n, r) && forall a :: a in arcs ==> a.0 < n && a.1 < n
    requires Inv(arcs, r, n, s, {}) && NodeSet(n) <= s.indices.Keys
    ensures PartitionsByMutualReach(arcs, n, s.components)
  {
    forall x: nat
      ensures Emitted(s, x) <==> x in NodeSet(n)
    {
    }
    forall i, x: nat | 0 <= i < |s.components| && x in s.components[i]
      ensures x < n
    {
      assert Emitted(s, x);
    }
    forall x: nat | x in NodeSet(n)
      ensures exists i :: 0 <= i < |s.components| && x in s.components[i]
    {
      assert Emitted(s, x);
    }
    forall i, x: nat, y: nat | 0 <= i < |s.components| && x in s.components[i]
      ensures y in s.components[i] <==> Reaches(arcs, x, y) && Reaches(arcs, y, x)
    {
      assert Emitted(s, x);
      if Reaches(arcs, x, y) { ReachStaysInRange(arcs, n, x, y); }
      assert Mutual(r, x, y) <==> y < n && Reaches(arcs, x, y) && Reaches(arcs, y, x);
    }
  }

  method StronglyConnectedComponents(n: nat, edges: seq<EdgeIR>, g: GraphIR) returns (components: seq<seq<nat>>)
    requires ValidEdges(n, edges) && Indexes(g, n, edges)
    ensures PartitionsByMutualReach(ArcsOf(edges), n, components)
  {
    ghost var arcs := ArcsOf(edges);
    ghost var r := ReachRelation(arcs, n);
    ArcsInRange(n, edges);
    EmptyStateInv(arcs, r, n);
    var finder := new Finder();
    for v := 0 to n
      invariant Inv(arcs, r, n, finder.State(), {})
      invariant NodeSet(v) <= finder.indices.Keys
    {
      if v !in finder.indices {
        finder.Visit(v, g.successors, arcs, r, {});
      }
    }
    FinalPartition(arcs, r, n, finder.State());
    components := finder.components;
  }
}
