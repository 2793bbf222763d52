/** A binary heap in one list, ordered by a score, with the hole-moving sifts. */
module BinaryHeap {
  import opened Options

  function Parent(i: nat): nat
    requires i > 0
  {
    (i - 1) / 2
  }

  ghost predicate HeapOrdered<T>(score: T -> real, s: seq<T>) {
    forall i :: 0 < i < |s| ==> score(s[Parent(i)]) <= score(s[i])
  }

  /** Ordered except perhaps between hole and its parent; what is below the hole
      is not smaller than what is above it. */
  ghost predicate OrderedAbove<T>(score: T -> real, s: seq<T>, hole: nat)
    requires hole < |s|
  {
    && (forall i :: 0 < i < |s| && i != hole ==> score(s[Parent(i)]) <= score(s[i]))
    && (hole > 0 ==> forall i :: 0 < i < |s| && Parent(i) == hole ==> score(s[Parent(hole)]) <= score(s[i]))
  }

  /** Ordered except perhaps between hole and its children. */
  ghost predicate OrderedBelow<T>(score: T -> real, s: seq<T>, hole: nat)
    requires hole < |s|
  {
    && (forall i :: 0 < i < |s| && Parent(i) != hole ==> score(s[Parent(i)]) <= score(s[i]))
    && (hole > 0 ==> forall i :: 0 < i < |s| && Parent(i) == hole ==> score(s[Parent(hole)]) <= score(s[i]))
  }

  function Swapped<T>(s: seq<T>, i: nat, j: nat): seq<T>
    requires i < |s| && j < |s|
  {
    s[i := s[j]][j := s[i]]
  }

  lemma {:induction false} SwapKeepsElements<T>(s: seq<T>, i: nat, j: nat)
    requires i < |s| && j < |s|
    ensures multiset(Swapped(s, i, j)) == multiset(s)
  {
  }

  lemma {:induction false} SiftUpStep<T>(score: T -> real, s: seq<T>, hole: nat)
    requires 0 < hole < |s| && OrderedAbove(score, s, hole) && score(s[Parent(hole)]) > score(s[hole])
    ensures OrderedAbove(score, Swapped(s, hole, Parent(hole)), Parent(hole))
  {
    var p, t := Parent(hole), Swapped(s, hole, Parent(hole));
    forall i | 0 < i < |s| && i != p
      ensures score(t[Parent(i)]) <= score(t[i])
    {
      if i != hole && Parent(i) == p { assert score(s[p]) <= score(s[i]); }
    }
    if p > 0 {
      forall i | 0 < i < |s| && Parent(i) == p
        ensures score(t[Parent(p)]) <= score(t[i])
      {
        assert score(s[Parent(p)]) <= score(s[p]);
        if i != hole { assert score(s[p]) <= score(s[i]); }
      }
    }
  }

  /** Moving the hole is swapping the element that will fill it. */
  lemma {:induction false} HoleMoves<T>(s: seq<T>, hole: nat, next: nat, x: T)
    requires hole < |s| && next < |s| && hole != next
    ensures Swapped(s[hole := x], hole, next) == s[hole := s[next]][next := x]
  {
  }

  /** The child the downward sift follows: the smaller one. */
  ghost predicate SmallestChild<T>(score: T -> real, s: seq<T>, hole: nat, child: nat) {
    && hole < |s| && 0 < child < |s| && Parent(child) == hole
    && forall i :: 0 < i < |s| && Parent(i) == hole ==> score(s[child]) <= score(s[i])
  }

  lemma {:induction false} SiftDownStep<T>(score: T -> real, s: seq<T>, hole: nat, child: nat)
    requires SmallestChild(score, s, hole, child) && OrderedBelow(score, s, hole) && score(s[child]) < score(s[hole])
    ensures OrderedBelow(score, Swapped(s, hole, child), child)
  {
    var t := Swapped(s, hole, child);
    forall i | 0 < i < |s| && Parent(i) != child
      ensures score(t[Parent(i)]) <= score(t[i])
    {
      if i != hole && Parent(i) == hole { assert score(s[child]) <= score(s[i]); }
      if i == hole { assert score(s[Parent(hole)]) <= score(s[child]); }
    }
    forall i | 0 < i < |s| && Parent(i) == child
      ensures score(t[Parent(child)]) <= score(t[i])
    {
      assert score(s[Parent(i)]) <= score(s[i]);
    }
  }

  lemma {:induction false} PickedSmallest<T>(score: T -> real, s: seq<T>, hole: nat, child: nat)
    requires hole * 2 + 1 < |s|
    requires child == if hole * 2 + 2 < |s| && score(s[hole * 2 + 2]) < score(s[hole * 2 + 1]) then hole * 2 + 2
      else hole * 2 + 1
    ensures SmallestChild(score, s, hole, child)
  {
    forall i | 0 < i < |s| && Parent(i) == hole
      ensures score(s[child]) <= score(s[i])
    {
      assert i == hole * 2 + 1 || i == hole * 2 + 2;
    }
  }

  lemma {:induction false} LeafSettles<T>(score: T -> real, s: seq<T>, hole: nat)
    requires hole < |s| && OrderedBelow(score, s, hole) && hole * 2 + 1 >= |s|
    ensures HeapOrdered(score, s)
  {
  }

  lemma {:induction false} SmallestSettles<T>(score: T -> real, s: seq<T>, hole: nat, child: nat)
    requires hole < |s| && OrderedBelow(score, s, hole) && SmallestChild(score, s, hole, child) &&
      score(s[child]) >= score(s[hole])
    ensures HeapOrdered(score, s)
  {
    forall i | 0 < i < |s|
      ensures score(s[Parent(i)]) <= score(s[i])
    {
      if Parent(i) == hole { assert score(s[child]) <= score(s[i]); }
    }
  }

  /** The root of an ordered heap has the least score. */
  lemma {:induction false} RootIsLeast<T>(score: T -> real, s: seq<T>, i: nat)
    requires HeapOrdered(score, s) && i < |s|
    ensures score(s[0]) <= score(s[i])
  {
    if i > 0 {
      RootIsLeast(score, s, Parent(i));
      assert score(s[Parent(i)]) <= score(s[i]);
    }
  }

  class MinHeap<T(==)> {
    var values: seq<T>
    const score: T -> real

    ghost predicate Valid()
      reads this
    {
      HeapOrdered(score, values)
    }

    ghost function Contents(): multiset<T>
      reads this
    {
      multiset(values)
    }

    constructor (score: T -> real)
      ensures Valid() && values == [] && this.score == score
    {
      this.score := score;
      values := [];
    }

    method Push(value: T)
      requires Valid()
      modifies this
      ensures Valid() && |values| == |old(values)| + 1
      ensures Contents() == old(Contents()) + multiset{value}
    {
      values := values + [value];
      var index: nat := |values| - 1;
      ghost var filled := values;
      while index > 0
        invariant index < |values| == |filled| && filled == values[index := value]
        invariant OrderedAbove(score, filled, index)
        invariant multiset(filled) == old(Contents()) + multiset{value}
        invariant |values| == |old(values)| + 1
      {
        var parent := Parent(index);
        if score(values[parent]) <= score(value) {
          break;
        }
        SiftUpStep(score, filled, index);
        SwapKeepsElements(filled, index, parent);
        HoleMoves(values, index, parent, value);
        filled := Swapped(filled, index, parent);
        values := values[index := values[parent]];
        index := parent;
      }
      values := values[index := value];
      assert values == filled;
    }

    method Pop() returns (first: Option<T>)
      requires Valid()
      modifies this
      ensures Valid()
      ensures first.None? <==> old(values) == []
      ensures first.None? ==> values == []
      ensures first.Some? ==> first.value in old(Contents()) && |values| == |old(values)| - 1
      ensures first.Some? ==> Contents() == old(Contents()) - multiset{first.value}
      ensures first.Some? ==> forall x :: x in old(Contents()) ==> score(first.value) <= score(x)
    {
      if values == [] {
        return None;
      }
      forall i | 0 <= i < |values| ensures score(values[0]) <= score(values[i]) { RootIsLeast(score, values, i); }
      first := Some(values[0]);
      var last := values[|values| - 1];
      RemoveLast(values);
      values := values[..|values| - 1];
      if values == [] {
        return;
      }
      SiftDown(last);
    }

    /** Moves the hole at the root down to where last belongs. */
    method SiftDown(last: T)
      requires values != [] && OrderedBelow(score, values[0 := last], 0)
      modifies this
      ensures Valid() && |values| == |old(values)|
      ensures Contents() == multiset(old(values)[0 := last])
    {
      var index: nat := 0;
      ghost var filled := values[0 := last];
      while true
        invariant index < |values| == |filled| == |old(values)| && filled == values[index := last]
        invariant OrderedBelow(score, filled, index)
        invariant multiset(filled) == multiset(old(values)[0 := last])
        decreases |filled| - index
      {
        var left := index * 2 + 1;
        var right := left + 1;
        if left >= |values| {
          LeafSettles(score, filled, index);
          break;
        }
        var child := left;
        if right < |values| && score(values[right]) < score(values[left]) {
          child := right;
        }
        PickedSmallest(score, filled, index, child);
        if score(values[child]) >= score(last) {
          SmallestSettles(score, filled, index, child);
          break;
        }
        SiftDownStep(score, filled, index, child);
        SwapKeepsElements(filled, index, child);
        HoleMoves(values, index, child, last);
        filled := Swapped(filled, index, child);
        values := values[index := values[child]];
        index := child;
      }
      values := values[index := last];
    }
  }

  /** Replacing the root by the last element removes exactly the root. */
  lemma {:induction false} RemoveLast<T>(s: seq<T>)
    requires s != []
    ensures |s| > 1 ==> multiset(s[..|s| - 1][0 := s[|s| - 1]]) == multiset(s) - multiset{s[0]}
    ensures |s| == 1 ==> multiset(s[..|s| - 1]) == multiset(s) - multiset{s[0]}
  {
    assert s == s[..|s| - 1] + [s[|s| - 1]];
    if |s| > 1 {
      var t := s[..|s| - 1];
      assert t == [s[0]] + t[1..];
      assert t[0 := s[|s| - 1]] == [s[|s| - 1]] + t[1..];
    }
  }
}
