/** Nesting of loop regions: parents, depths and the loop stack of a node. */
module LoopNesting {
  import opened WorkflowGraph
  import opened LoopPasses
  import opened LoopRegions
  import opened Sorting
  import opened Options

  /** Pairwise disjoint or strictly nested non-empty loops over the first n nodes. */
  ghost predicate NestedLoops(cs: seq<Candidate>, n: nat) {
    && Laminar(cs)
    && forall i :: 0 <= i < |cs| ==> cs[i].nodes != {} && cs[i].nodes <= NodeSet(n)
  }

  /** p is a smallest loop strictly around loop i, or there is none. */
  ghost predicate IsParent(cs: seq<Candidate>, i: nat, p: Option<nat>)
    requires i < |cs|
  {
    match p
    case None => forall j :: 0 <= j < |cs| ==> !(cs[i].nodes < cs[j].nodes)
    case Some(q) =>
      && q < |cs| && cs[i].nodes < cs[q].nodes
      && forall j :: 0 <= j < |cs| && cs[i].nodes < cs[j].nodes ==> |cs[q].nodes| <= |cs[j].nodes|
  }

  ghost predicate ParentsOk(cs: seq<Candidate>, parents: seq<Option<nat>>) {
    |parents| == |cs| && forall i :: 0 <= i < |cs| ==> IsParent(cs, i, parents[i])
  }

  method FindParent(cs: seq<Candidate>, i: nat) returns (p: Option<nat>)
    requires i < |cs|
    ensures IsParent(cs, i, p)
  {
    p := None;
    for j := 0 to |cs|
      invariant p.None? ==> forall k :: 0 <= k < j ==> !(cs[i].nodes < cs[k].nodes)
      invariant p.Some? ==> p.value < |cs| && cs[i].nodes < cs[p.value].nodes
      invariant p.Some? ==> forall k :: 0 <= k < j && cs[i].nodes < cs[k].nodes ==> |cs[p.value].nodes| <= |cs[k].nodes|
    {
      if cs[i].nodes < cs[j].nodes && (p.None? || |cs[j].nodes| < |cs[p.value].nodes|) {
        p := Some(j);
      }
    }
  }

  method FindParents(cs: seq<Candidate>) returns (parents: seq<Option<nat>>)
    ensures ParentsOk(cs, parents)
  {
    parents := [];
    for i := 0 to |cs|
      invariant |parents| == i && forall j :: 0 <= j < i ==> IsParent(cs, j, parents[j])
    {
      var p := FindParent(cs, i);
      parents := parents + [p];
    }
  }

  lemma {:induction false} LaminarPair(cs: seq<Candidate>, n: nat, i: nat, j: nat, x: nat)
    requires NestedLoops(cs, n) && i < |cs| && j < |cs| && i != j && x in cs[i].nodes && x in cs[j].nodes
    ensures cs[i].nodes < cs[j].nodes || cs[j].nodes < cs[i].nodes
  {
    assert x in cs[i].nodes * cs[j].nodes && x in cs[j].nodes * cs[i].nodes;
    assert if i < j then DisjointOrNested(cs[i].nodes, cs[j].nodes) else DisjointOrNested(cs[j].nodes, cs[i].nodes);
  }

  /** The parent is the unique smallest loop around i: every other one encloses it. */
  lemma {:induction false} ParentInnermost(cs: seq<Candidate>, n: nat, i: nat, p: nat, k: nat)
    requires NestedLoops(cs, n) && i < |cs| && IsParent(cs, i, Some(p)) && k < |cs| && k != p
    requires cs[i].nodes < cs[k].nodes
    ensures cs[p].nodes < cs[k].nodes
  {
    var x :| x in cs[i].nodes;
    LaminarPair(cs, n, p, k, x);
    if cs[k].nodes < cs[p].nodes { SubsetSmaller(cs[k].nodes, cs[p].nodes); }
  }

  lemma {:induction false} LoopSize(cs: seq<Candidate>, n: nat, i: nat)
    requires NestedLoops(cs, n) && i < |cs|
    ensures |cs[i].nodes| <= n
  {
    NodeSetSize(n);
    if cs[i].nodes != NodeSet(n) { SubsetSmaller(cs[i].nodes, NodeSet(n)); }
  }

  lemma {:induction false} NodeSetSize(n: nat)
    ensures |NodeSet(n)| == n
  {
    if n > 0 { NodeSetSize(n - 1); }
  }

  /** The number of loops passed on the way up from i. */
  ghost function DepthOf(cs: seq<Candidate>, n: nat, parents: seq<Option<nat>>, i: nat): nat
    requires NestedLoops(cs, n) && ParentsOk(cs, parents) && i < |cs|
    decreases n - |cs[i].nodes|
  {
    match parents[i]
    case None => 0
    case Some(p) =>
      assert IsParent(cs, i, Some(p));
      SubsetSmaller(cs[i].nodes, cs[p].nodes);
      LoopSize(cs, n, p);
      1 + DepthOf(cs, n, parents, p)
  }

  method ComputeDepth(cs: seq<Candidate>, n: nat, parents: seq<Option<nat>>, i: nat) returns (depth: nat)
    requires NestedLoops(cs, n) && ParentsOk(cs, parents) && i < |cs|
    ensures depth == DepthOf(cs, n, parents, i)
  {
    depth := 0;
    var ancestor: Option<nat> := parents[i];
    assert IsParent(cs, i, ancestor);
    while ancestor.Some?
      invariant ancestor.Some? ==> ancestor.value < |cs|
      invariant DepthOf(cs, n, parents, i) == depth +
        if ancestor.None? then 0 else 1 + DepthOf(cs, n, parents, ancestor.value)
      decreases if ancestor.Some? then 1 + n - |cs[ancestor.value].nodes| else 0
    {
      ghost var a := ancestor.value;
      assert IsParent(cs, a, parents[a]);
      LoopSize(cs, n, a);
      depth := depth + 1;
      ancestor := parents[ancestor.value];
      if ancestor.Some? {
        SubsetSmaller(cs[a].nodes, cs[ancestor.value].nodes);
        LoopSize(cs, n, ancestor.value);
      }
    }
  }

  /** Inner loops are strictly deeper than the loops around them. */
  lemma {:induction false} InnerIsDeeper(cs: seq<Candidate>, n: nat, parents: seq<Option<nat>>, i: nat, k: nat)
    requires NestedLoops(cs, n) && ParentsOk(cs, parents) && i < |cs| && k < |cs|
    requires cs[i].nodes < cs[k].nodes
    ensures DepthOf(cs, n, parents, k) < DepthOf(cs, n, parents, i)
    decreases n - |cs[i].nodes|
  {
    assert IsParent(cs, i, parents[i]);
    var p := parents[i].value;
    if p != k {
      ParentInnermost(cs, n, i, p, k);
      SubsetSmaller(cs[i].nodes, cs[p].nodes);
      LoopSize(cs, n, p);
      InnerIsDeeper(cs, n, parents, p, k);
    }
  }

  /** stack is the full chain of loops around v, outermost first. */
  ghost predicate LoopStack(cs: seq<Candidate>, n: nat, parents: seq<Option<nat>>, v: nat, stack: seq<nat>)
    requires NestedLoops(cs, n) && ParentsOk(cs, parents)
  {
    && (forall i: nat :: i in stack <==> i < |cs| && v in cs[i].nodes)
    && (forall k :: 0 <= k < |stack| ==> stack[k] < |cs| && DepthOf(cs, n, parents, stack[k]) == k)
    && (forall k :: 0 < k < |stack| ==> parents[stack[k]] == Some(stack[k - 1]))
  }

  /** Ordered by depth, the loops around v have depths 0, 1, 2, ... and each is
      the parent of the next. */
  lemma {:induction false} SortedStackIsChain(cs: seq<Candidate>, n: nat, parents: seq<Option<nat>>, v: nat,
      stack: seq<nat>, k: nat)
    requires NestedLoops(cs, n) && ParentsOk(cs, parents)
    requires forall i: nat :: i in stack <==> i < |cs| && v in cs[i].nodes
    requires forall i :: 0 <= i < |stack| ==> stack[i] < |cs|
    requires forall i, j :: 0 <= i < j < |stack| ==>
      DepthOf(cs, n, parents, stack[i]) < DepthOf(cs, n, parents, stack[j])
    requires k < |stack|
    ensures DepthOf(cs, n, parents, stack[k]) == k
    ensures k > 0 ==> parents[stack[k]] == Some(stack[k - 1])
    decreases k
  {
    var i := stack[k];
    assert i in stack;
    assert IsParent(cs, i, parents[i]);
    if k > 0 { SortedStackIsChain(cs, n, parents, v, stack, k - 1); }
    if parents[i].Some? {
      var j := ParentBelow(cs, n, parents, v, stack, k);
    }
  }

  /** The parent of a loop of the stack comes before it. */
  lemma {:induction false} ParentBelow(cs: seq<Candidate>, n: nat, parents: seq<Option<nat>>, v: nat, stack: seq<nat>,
      k: nat) returns (j: nat)
    requires NestedLoops(cs, n) && ParentsOk(cs, parents)
    requires forall i: nat :: i in stack <==> i < |cs| && v in cs[i].nodes
    requires forall i :: 0 <= i < |stack| ==> stack[i] < |cs|
    requires forall i, j :: 0 <= i < j < |stack| ==>
      DepthOf(cs, n, parents, stack[i]) < DepthOf(cs, n, parents, stack[j])
    requires k < |stack| && parents[stack[k]].Some?
    ensures j < k && Some(stack[j]) == parents[stack[k]] &&
      DepthOf(cs, n, parents, stack[j]) + 1 == DepthOf(cs, n, parents, stack[k])
  {
    var i := stack[k];
    assert i in stack;
    assert IsParent(cs, i, parents[i]);
    var p := parents[i].value;
    assert p in stack;
    j :| 0 <= j < |stack| && stack[j] == p;
    assert DepthOf(cs, n, parents, p) + 1 == DepthOf(cs, n, parents, i);
  }

  function ContainingLoops(cs: seq<Candidate>, v: nat): (r: seq<nat>)
    ensures Ascending(r) && forall i: nat :: i in r <==> i < |cs| && v in cs[i].nodes
  {
    if cs == [] then []
    else
      var last := |cs| - 1;
      var r := ContainingLoops(cs[..last], v);
      assert forall i: nat :: i in r ==> i < last;
      AppendAscending(r, last);
      assert forall i: nat :: i < last ==> cs[..last][i] == cs[i];
      if v in cs[last].nodes then r + [last] else r
  }

  method StackFor(cs: seq<Candidate>, n: nat, ghost parents: seq<Option<nat>>, depths: seq<nat>, v: nat)
      returns (stack: seq<nat>)
    requires NestedLoops(cs, n) && ParentsOk(cs, parents) && |depths| == |cs|
    requires forall i :: 0 <= i < |cs| ==> depths[i] == DepthOf(cs, n, parents, i)
    ensures LoopStack(cs, n, parents, v, stack)
  {
    var containing := ContainingLoops(cs, v);
    var key := (i: nat) => if i < |depths| then depths[i] as real else 0.0;
    forall i, j | 0 <= i < j < |containing|
      ensures key(containing[i]) != key(containing[j])
    {
      var a, b := containing[i], containing[j];
      assert a in containing && b in containing;
      LaminarPair(cs, n, a, b, v);
      if cs[a].nodes < cs[b].nodes {
        InnerIsDeeper(cs, n, parents, a, b);
      } else {
        InnerIsDeeper(cs, n, parents, b, a);
      }
    }
    stack := SortBy(key, containing);
    forall i | 0 <= i < |stack|
      ensures stack[i] < |cs|
    {
      var id: nat := stack[i];
      assert id in stack && id in containing;
    }
    assert forall i, j :: 0 <= i < j < |stack| ==> key(stack[i]) < key(stack[j]);
    forall k: nat | k < |stack|
      ensures DepthOf(cs, n, parents, stack[k]) == k
      ensures k > 0 ==> parents[stack[k]] == Some(stack[k - 1])
    {
      SortedStackIsChain(cs, n, parents, v, stack, k);
    }
  }
}
