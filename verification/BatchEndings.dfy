/** How a batch of ready requests ends, said of its requests one by one. */
module BatchEndings {
  import opened Options
  import opened InvocationLifecycle
  import opened DriveLoop

  /** The k-th request is known and its replay, if it is one, is allowed. */
  ghost predicate MayStart(w: Workflow, requests: seq<Request>, recovery: bool, k: nat) {
    k < |requests| && requests[k].node in w.nodes && !Forbidden(w, requests[k], recovery)
  }

  /** The earlier requests for a node that may start. */
  ghost function Earlier(w: Workflow, requests: seq<Request>, recovery: bool, k: nat, node: nat): set<nat> {
    set j: nat | j < k && MayStart(w, requests, recovery, j) && requests[j].node == node
  }

  /** The k-th request cannot go through: its node is unknown, its replay is forbidden
      under fail-fast, or its node has had as many executions as it may, counting those
      that earlier requests of the batch start. */
  ghost predicate StopsAt(w: Workflow, executions: seq<NodeExecution>, requests: seq<Request>, recovery: bool, k: nat) {
    k < |requests| && (requests[k].node in w.nodes ==>
      if Forbidden(w, requests[k], recovery) then w.failFast
      else OverLimit(w, executions, requests, recovery, k))
  }

  ghost predicate OverLimit(w: Workflow, executions: seq<NodeExecution>, requests: seq<Request>, recovery: bool,
      k: nat)
    requires k < |requests| && requests[k].node in w.nodes
  {
    var node := requests[k].node;
    w.nodes[node].maxExecutions.Some? &&
    |set i | 0 <= i < |executions| && executions[i].node == node| + |Earlier(w, requests, recovery, k, node)| >=
      w.nodes[node].maxExecutions.value
  }

  ghost predicate FirstStop(w: Workflow, executions: seq<NodeExecution>, requests: seq<Request>, recovery: bool,
      k: nat) {
    StopsAt(w, executions, requests, recovery, k) && forall j: nat :: j < k ==>
      !StopsAt(w, executions, requests, recovery, j)
  }

  /** The executions after the first k requests, when none of them stops. */
  ghost function AfterStarts(w: Workflow, executions: seq<NodeExecution>, requests: seq<Request>, recovery: bool,
      k: nat): seq<NodeExecution>
    requires k <= |requests|
  {
    if k == 0 then executions
    else
      var before := AfterStarts(w, executions, requests, recovery, k - 1);
      if MayStart(w, requests, recovery, k - 1) then Begun(before, requests[k - 1]) else before
  }

  lemma {:induction false} EarlierNext(w: Workflow, requests: seq<Request>, recovery: bool, k: nat, node: nat)
    ensures |Earlier(w, requests, recovery, k + 1, node)| == |Earlier(w, requests, recovery, k, node)| +
      if MayStart(w, requests, recovery, k) && requests[k].node == node then 1 else 0
  {
    var before, after := Earlier(w, requests, recovery, k, node), Earlier(w, requests, recovery, k + 1, node);
    if MayStart(w, requests, recovery, k) && requests[k].node == node {
      assert after == before + {k};
    } else {
      assert after == before;
    }
  }

  lemma {:induction false} CountAfterStarts(w: Workflow, executions: seq<NodeExecution>, requests: seq<Request>,
      recovery: bool, k: nat, node: nat)
    requires k <= |requests|
    ensures CountFor(AfterStarts(w, executions, requests, recovery, k), node) ==
      CountFor(executions, node) + |Earlier(w, requests, recovery, k, node)|
  {
    if k > 0 {
      CountAfterStarts(w, executions, requests, recovery, k - 1, node);
      EarlierNext(w, requests, recovery, k - 1, node);
      var before := AfterStarts(w, executions, requests, recovery, k - 1);
      assert Begun(before, requests[k - 1])[..|before|] == before;
    } else {
      assert Earlier(w, requests, recovery, 0, node) == {};
    }
  }

  /** The verdict that falls on the k-th request when none before it stopped. */
  lemma {:induction false} VerdictAt(w: Workflow, executions: seq<NodeExecution>, requests: seq<Request>,
      recovery: bool, k: nat)
    requires k < |requests|
    ensures var verdict := VerdictOn(w, AfterStarts(w, executions, requests, recovery, k), requests[k], recovery);
      if StopsAt(w, executions, requests, recovery, k) then
        verdict == Stops(if requests[k].node in w.nodes && Forbidden(w, requests[k], recovery) then Interrupts
          else Fails)
      else verdict == if MayStart(w, requests, recovery, k) then Starts else Skips
  {
    var before := AfterStarts(w, executions, requests, recovery, k);
    VerdictMeans(w, before, requests[k], recovery);
    CountAfterStarts(w, executions, requests, recovery, k, requests[k].node);
    CountForIsSize(executions, requests[k].node);
    CountForIsSize(before, requests[k].node);
  }

  lemma {:induction false} EndFrom(w: Workflow, executions: seq<NodeExecution>, requests: seq<Request>, recovery: bool,
      k: nat)
    requires k <= |requests| && forall j: nat :: j < k ==> !StopsAt(w, executions, requests, recovery, j)
    ensures EndOf(w, executions, requests, recovery) ==
      EndOf(w, AfterStarts(w, executions, requests, recovery, k), requests[k..], recovery)
  {
    if k > 0 {
      EndFrom(w, executions, requests, recovery, k - 1);
      VerdictAt(w, executions, requests, recovery, k - 1);
      assert requests[k - 1..][0] == requests[k - 1] && requests[k - 1..][1..] == requests[k..];
    } else {
      assert requests[0..] == requests;
    }
  }

  /** A batch goes through exactly when no request stops it; otherwise the first that does
      interrupts it if it is a forbidden replay, and fails it if not. */
  lemma {:induction false} EndMeans(w: Workflow, executions: seq<NodeExecution>, requests: seq<Request>, recovery: bool)
    ensures EndOf(w, executions, requests, recovery).Through? <==>
      forall k: nat :: !StopsAt(w, executions, requests, recovery, k)
    ensures forall k: nat :: FirstStop(w, executions, requests, recovery, k) ==>
      EndOf(w, executions, requests, recovery) ==
        if requests[k].node in w.nodes && Forbidden(w, requests[k], recovery) then Interrupts else Fails
  {
    forall k: nat | FirstStop(w, executions, requests, recovery, k)
      ensures EndOf(w, executions, requests, recovery) ==
        if requests[k].node in w.nodes && Forbidden(w, requests[k], recovery) then Interrupts else Fails
    {
      EndFrom(w, executions, requests, recovery, k);
      VerdictAt(w, executions, requests, recovery, k);
      assert requests[k..][0] == requests[k];
    }
    if k: nat :| StopsAt(w, executions, requests, recovery, k) {
      var first := LeastStop(w, executions, requests, recovery, k);
    } else {
      EndFrom(w, executions, requests, recovery, |requests|);
      assert requests[|requests|..] == [];
    }
  }

  lemma {:induction false} LeastStop(w: Workflow, executions: seq<NodeExecution>, requests: seq<Request>,
      recovery: bool, k: nat) returns (first: nat)
    requires StopsAt(w, executions, requests, recovery, k)
    ensures FirstStop(w, executions, requests, recovery, first) && first <= k
    decreases k
  {
    if j: nat :| j < k && StopsAt(w, executions, requests, recovery, j) {
      first := LeastStop(w, executions, requests, recovery, j);
    } else {
      first := k;
    }
  }
}
