/** Walks, reachability and dominance in a finite directed graph.

    A graph is a set of arcs between node positions.  A walk is a non-empty
    sequence of nodes in which consecutive nodes are joined by an arc. */
module Digraph {

  type Arcs = set<(nat, nat)>

  ghost predicate Walk(arcs: Arcs, p: seq<nat>) {
    && |p| > 0
    && forall i :: 0 <= i < |p| - 1 ==> (p[i], p[i + 1]) in arcs
  }

  ghost predicate WalkFromTo(arcs: Arcs, p: seq<nat>, a: nat, b: nat) {
    Walk(arcs, p) && p[0] == a && p[|p| - 1] == b
  }

  ghost predicate Reaches(arcs: Arcs, a: nat, b: nat) {
    exists p :: WalkFromTo(arcs, p, a, b)
  }

  /** Some walk from a to b visits no node of the given set. */
  ghost predicate ReachesAvoiding(arcs: Arcs, a: nat, b: nat, h: nat) {
    exists p :: WalkFromTo(arcs, p, a, b) && h !in p
  }

  ghost predicate ReachableFrom(arcs: Arcs, entries: set<nat>, n: nat) {
    exists e :: e in entries && Reaches(arcs, e, n)
  }

  /** Every walk from an entry to n passes through d. */
  ghost predicate Dominates(arcs: Arcs, entries: set<nat>, d: nat, n: nat) {
    forall p :: Walk(arcs, p) && p[0] in entries && p[|p| - 1] == n ==> d in p
  }

  /** A closed walk takes at least one arc and ends where it starts. */
  ghost predicate ClosedWalk(arcs: Arcs, p: seq<nat>) {
    Walk(arcs, p) && |p| > 1 && p[0] == p[|p| - 1]
  }

  ghost predicate Acyclic(arcs: Arcs) {
    forall p :: !ClosedWalk(arcs, p)
  }

  lemma {:induction false} Join(arcs: Arcs, p: seq<nat>, q: seq<nat>, a: nat, b: nat, c: nat) returns (r: seq<nat>)
    requires WalkFromTo(arcs, p, a, b) && WalkFromTo(arcs, q, b, c)
    ensures r == p + q[1..]
    ensures WalkFromTo(arcs, r, a, c)
    ensures forall x :: x in r <==> x in p || x in q
  {
    r := p + q[1..];
    forall i | 0 <= i < |r| - 1
      ensures (r[i], r[i + 1]) in arcs
    {
      if i < |p| - 1 {
      } else {
        assert r[i] == q[i - (|p| - 1)] && r[i + 1] == q[i + 1 - (|p| - 1)];
      }
    }
    forall x | x in q
      ensures x in r
    {
      var k :| 0 <= k < |q| && q[k] == x;
      if k == 0 { assert p[|p| - 1] == x; assert r[|p| - 1] == x; } else { assert r[|p| + k - 1] == x; }
    }
  }

  lemma {:induction false} ReachesTransitive(arcs: Arcs, a: nat, b: nat, c: nat)
    requires Reaches(arcs, a, b) && Reaches(arcs, b, c)
    ensures Reaches(arcs, a, c)
  {
    var p :| WalkFromTo(arcs, p, a, b);
    var q :| WalkFromTo(arcs, q, b, c);
    var _ := Join(arcs, p, q, a, b, c);
  }

  lemma {:induction false} ReachesSelf(arcs: Arcs, a: nat)
    ensures Reaches(arcs, a, a)
  {
    assert WalkFromTo(arcs, [a], a, a);
  }

  lemma {:induction false} ReachesArc(arcs: Arcs, a: nat, b: nat)
    requires (a, b) in arcs
    ensures Reaches(arcs, a, b)
  {
    assert WalkFromTo(arcs, [a, b], a, b);
  }

  /** Every node of a walk splits it into two walks. */
  lemma {:induction false} Split(arcs: Arcs, p: seq<nat>, k: nat)
    requires Walk(arcs, p) && k < |p|
    ensures WalkFromTo(arcs, p[..k + 1], p[0], p[k])
    ensures WalkFromTo(arcs, p[k..], p[k], p[|p| - 1])
  {
  }

  lemma {:induction false} WalkReaches(arcs: Arcs, p: seq<nat>, i: nat, j: nat)
    requires Walk(arcs, p) && i <= j < |p|
    ensures Reaches(arcs, p[i], p[j])
  {
    assert WalkFromTo(arcs, p[i..j + 1], p[i], p[j]);
  }

  lemma {:induction false} ReachableExtends(arcs: Arcs, entries: set<nat>, a: nat, b: nat)
    requires ReachableFrom(arcs, entries, a) && Reaches(arcs, a, b)
    ensures ReachableFrom(arcs, entries, b)
  {
    var e :| e in entries && Reaches(arcs, e, a);
    ReachesTransitive(arcs, e, a, b);
  }

  /** A set that holds a and is closed under arcs holds everything a reaches. */
  lemma {:induction false} ClosedContains(arcs: Arcs, s: set<nat>, p: seq<nat>)
    requires Walk(arcs, p) && p[0] in s
    requires forall u, v :: (u, v) in arcs && u in s ==> v in s
    ensures p[|p| - 1] in s
  {
    if |p| > 1 {
      ClosedContains(arcs, s, p[..|p| - 1]);
      assert (p[|p| - 2], p[|p| - 2 + 1]) in arcs;
    }
  }

  lemma {:induction false} FirstIndex(p: seq<nat>, x: nat) returns (k: nat)
    requires x in p
    ensures k < |p| && p[k] == x && x !in p[..k]
  {
    k := 0;
    while p[k] != x
      invariant k < |p| && x !in p[..k]
      decreases |p| - k
      invariant exists j :: k <= j < |p| && p[j] == x
    {
      k := k + 1;
    }
  }

  lemma {:induction false} LastIndex(p: seq<nat>, x: nat) returns (k: nat)
    requires x in p
    ensures k < |p| && p[k] == x && x !in p[k + 1..]
    ensures forall m :: k < m < |p| ==> p[m] != x
  {
    k := |p| - 1;
    while p[k] != x
      invariant k < |p| && x !in p[k + 1..]
      invariant forall m :: k < m < |p| ==> p[m] != x
      decreases k
      invariant exists j :: 0 <= j <= k && p[j] == x
    {
      assert p[k..] == [p[k]] + p[k + 1..];
      k := k - 1;
    }
  }

  lemma {:induction false} DominatesSelf(arcs: Arcs, entries: set<nat>, n: nat)
    ensures Dominates(arcs, entries, n, n)
  {
    forall p | Walk(arcs, p) && p[0] in entries && p[|p| - 1] == n
      ensures n in p
    {
    }
  }

  /** A dominator of b that some walk from a to b avoids already dominates a. */
  lemma {:induction false} DominatesBackward(arcs: Arcs, entries: set<nat>, d: nat, a: nat, b: nat)
    requires Dominates(arcs, entries, d, b) && ReachesAvoiding(arcs, a, b, d)
    ensures Dominates(arcs, entries, d, a)
  {
    var q :| WalkFromTo(arcs, q, a, b) && d !in q;
    forall p | Walk(arcs, p) && p[0] in entries && p[|p| - 1] == a
      ensures d in p
    {
      var r := Join(arcs, p, q, p[0], a, b);
    }
  }

  lemma {:induction false} DominatesAntisymmetric(arcs: Arcs, entries: set<nat>, a: nat, b: nat)
    requires Dominates(arcs, entries, a, b) && Dominates(arcs, entries, b, a)
    requires ReachableFrom(arcs, entries, a)
    ensures a == b
  {
    var e :| e in entries && Reaches(arcs, e, a);
    var p :| WalkFromTo(arcs, p, e, a);
    var k := FirstIndex(p, a);
    Split(arcs, p, k);
    var p' := p[..k + 1];
    assert b in p';
    var j := FirstIndex(p', b);
    if j < k {
      NotBeforeFirst(arcs, entries, p', j, a);
    }
  }

  lemma {:induction false} NotBeforeFirst(arcs: Arcs, entries: set<nat>, p: seq<nat>, j: nat, a: nat)
    requires Walk(arcs, p) && p[0] in entries && j < |p| - 1 && a !in p[..|p| - 1]
    ensures !Dominates(arcs, entries, a, p[j])
  {
    Split(arcs, p, j);
    var q := p[..j + 1];
    assert forall x :: x in q ==> x in p[..|p| - 1];
  }

  /** Reaching d, and dominated by d, gives a walk from d to n. */
  lemma {:induction false} DominatorReaches(arcs: Arcs, entries: set<nat>, d: nat, n: nat)
    requires Dominates(arcs, entries, d, n) && ReachableFrom(arcs, entries, n)
    ensures Reaches(arcs, d, n) && ReachableFrom(arcs, entries, d)
  {
    var e :| e in entries && Reaches(arcs, e, n);
    var p :| WalkFromTo(arcs, p, e, n);
    var k :| 0 <= k < |p| && p[k] == d;
    WalkReaches(arcs, p, k, |p| - 1);
    WalkReaches(arcs, p, 0, k);
  }

  /** A dominator of n that does not occur after position j of some walk to n
      dominates the node at position j. */
  lemma {:induction false} DominatesAtPosition(arcs: Arcs, entries: set<nat>, d: nat, w: seq<nat>, j: nat)
    requires Walk(arcs, w) && j < |w| && Dominates(arcs, entries, d, w[|w| - 1])
    requires d !in w[j + 1..]
    ensures Dominates(arcs, entries, d, w[j])
  {
    if d == w[j] {
      DominatesSelf(arcs, entries, d);
    } else {
      Split(arcs, w, j);
      assert w[j..] == [w[j]] + w[j + 1..];
      assert WalkFromTo(arcs, w[j..], w[j], w[|w| - 1]) && d !in w[j..];
      DominatesBackward(arcs, entries, d, w[j], w[|w| - 1]);
    }
  }

  /** When c strictly dominates d and d dominates n, some walk from d to n avoids c. */
  lemma {:induction false} SuffixAvoids(arcs: Arcs, entries: set<nat>, c: nat, d: nat, n: nat)
    requires Dominates(arcs, entries, d, n)
    requires Dominates(arcs, entries, c, d) && c != d
    requires ReachableFrom(arcs, entries, n)
    ensures ReachesAvoiding(arcs, d, n, c)
  {
    DominatorReaches(arcs, entries, d, n);
    var e :| e in entries && Reaches(arcs, e, n);
    var p :| WalkFromTo(arcs, p, e, n);
    var k := LastIndex(p, d);
    Split(arcs, p, k);
    if c in p[k..] {
      var j := LastIndex(p, c);
      assert k < j by {
        var i :| 0 <= i < |p[k..]| && p[k..][i] == c;
        assert p[k + i] == c && i > 0;
      }
      assert d !in p[j + 1..] by { assert p[j + 1..] == p[k + 1..][j - k..]; }
      DominatesAtPosition(arcs, entries, d, p, j);
      DominatesAntisymmetric(arcs, entries, d, c);
    }
  }

  /** The dominators of a reachable node form a chain. */
  lemma {:induction false} DominatorsComparable(arcs: Arcs, entries: set<nat>, a: nat, b: nat, n: nat)
    requires Dominates(arcs, entries, a, n) && Dominates(arcs, entries, b, n)
    requires ReachableFrom(arcs, entries, n)
    ensures Dominates(arcs, entries, a, b) || Dominates(arcs, entries, b, a)
  {
    var e :| e in entries && Reaches(arcs, e, n);
    var w :| WalkFromTo(arcs, w, e, n);
    var i := LastIndex(w, a);
    var j := LastIndex(w, b);
    if i <= j {
      assert a !in w[j + 1..] by { assert w[j + 1..] == w[i + 1..][j - i..]; }
      DominatesAtPosition(arcs, entries, a, w, j);
    } else {
      assert b !in w[i + 1..] by { assert w[i + 1..] == w[j + 1..][i - j..]; }
      DominatesAtPosition(arcs, entries, b, w, i);
    }
  }

  /** Along a closed walk every node reaches every other. */
  lemma {:induction false} ClosedWalkConnected(arcs: Arcs, p: seq<nat>, x: nat, y: nat)
    requires ClosedWalk(arcs, p) && x in p && y in p
    ensures Reaches(arcs, x, y)
  {
    var i :| 0 <= i < |p| && p[i] == x;
    var j :| 0 <= j < |p| && p[j] == y;
    WalkReaches(arcs, p, i, |p| - 1);
    WalkReaches(arcs, p, 0, j);
    ReachesTransitive(arcs, x, p[0], y);
  }

  /** A finite non-empty set in which every node has a predecessor inside the
      set holds a closed walk. */
  lemma {:induction false} CycleInClosedSet(arcs: Arcs, s: set<nat>) returns (p: seq<nat>)
    requires s != {}
    requires forall v :: v in s ==> exists u :: u in s && (u, v) in arcs
    ensures ClosedWalk(arcs, p) && forall x :: x in p ==> x in s
  {
    var start :| start in s;
    p := [start];
    ghost var seen := {start};
    while true
      invariant Walk(arcs, p)
      invariant forall x :: x in p <==> x in seen
      invariant seen <= s && p[0] in seen
      decreases s - seen
    {
      var u :| u in s && (u, p[0]) in arcs;
      var q := [u] + p;
      assert Walk(arcs, q) by {
        forall i | 0 <= i < |q| - 1
          ensures (q[i], q[i + 1]) in arcs
        {
          if i > 0 { assert q[i] == p[i - 1] && q[i + 1] == p[i]; }
        }
      }
      if u in seen {
        var k :| 0 <= k < |p| && p[k] == u;
        Split(arcs, q, k + 1);
        p := q[..k + 2];
        return;
      }
      p, seen := q, seen + {u};
    }
  }
}
