/** Sorting by a key that is different for every element, the only use the modelled
    code makes of the library sort. */
module Sorting {

  predicate StrictBy<T>(key: T -> real, s: seq<T>) {
    forall i, j :: 0 <= i < j < |s| ==> key(s[i]) < key(s[j])
  }

  predicate KeysDiffer<T>(key: T -> real, s: seq<T>) {
    forall i, j :: 0 <= i < j < |s| ==> key(s[i]) != key(s[j])
  }

  lemma {:induction false} StrictCons<T(!new)>(key: T -> real, x: T, s: seq<T>)
    requires StrictBy(key, s) && forall y :: y in s ==> key(x) < key(y)
    ensures StrictBy(key, [x] + s)
  {
    assert forall i :: 0 <= i < |s| ==> s[i] in s;
  }

  function InsertBy<T(!new)>(key: T -> real, s: seq<T>, x: T): (r: seq<T>)
    requires StrictBy(key, s) && forall y :: y in s ==> key(y) != key(x)
    ensures StrictBy(key, r) && |r| == |s| + 1
    ensures forall y :: y in r <==> y in s || y == x
  {
    if s == [] then [x]
    else if key(x) < key(s[0]) then [x] + s
    else
      assert s == [s[0]] + s[1..];
      var rest := InsertBy(key, s[1..], x);
      StrictCons(key, s[0], rest);
      [s[0]] + rest
  }

  function SortBy<T(!new)>(key: T -> real, s: seq<T>): (r: seq<T>)
    requires KeysDiffer(key, s)
    ensures StrictBy(key, r) && |r| == |s|
    ensures forall y :: y in r <==> y in s
  {
    if s == [] then []
    else
      var last := |s| - 1;
      assert s == s[..last] + [s[last]];
      assert forall y :: y in s[..last] ==> key(y) != key(s[last]);
      InsertBy(key, SortBy(key, s[..last]), s[last])
  }
}
