/** Context data as trees: which locations a hook changed, and putting those
    changes into another copy. */
module ContextTree {
  import opened Options
  import opened Lists
  import opened ContextPaths

  datatype Scalar = Null | Flag(flag: bool) | Number(number: real) | Text(text: string)

  datatype Value = Dict(entries: map<string, Value>) | List(items: seq<Value>) | Leaf(scalar: Scalar)

  // ----- keys in order -----

  predicate Before(a: string, b: string) {
    b != "" && (a == "" || a[0] < b[0] || (a[0] == b[0] && Before(a[1..], b[1..])))
  }

  lemma {:induction false} BeforeTotal(a: string, b: string)
    ensures a != b ==> Before(a, b) || Before(b, a)
    ensures !(Before(a, b) && Before(b, a))
  {
    if a != "" && b != "" {
      BeforeTotal(a[1..], b[1..]);
      if a[0] == b[0] && a[1..] == b[1..] {
        assert a == [a[0]] + a[1..] && b == [b[0]] + b[1..];
      }
    }
  }

  lemma {:induction false} BeforeTransitive(a: string, b: string, c: string)
    requires Before(a, b) && Before(b, c)
    ensures Before(a, c)
  {
    if a != "" && a[0] == b[0] && b[0] == c[0] { BeforeTransitive(a[1..], b[1..], c[1..]); }
  }

  predicate IsLeast(m: string, s: set<string>) {
    m in s && forall k :: k in s && k != m ==> Before(m, k)
  }

  lemma {:induction false} LeastExists(s: set<string>)
    requires s != {}
    ensures exists m :: IsLeast(m, s)
  {
    var x :| x in s;
    if s == {x} {
      assert IsLeast(x, s);
    } else {
      LeastExists(s - {x});
      var y :| IsLeast(y, s - {x});
      BeforeTotal(x, y);
      var m := if Before(x, y) then x else y;
      forall k | k in s && k != m
        ensures Before(m, k)
      {
        if m == x && k != y { BeforeTransitive(x, y, k); }
      }
      assert IsLeast(m, s);
    }
  }

  lemma {:induction false} LeastUnique(s: set<string>, m: string, k: string)
    requires IsLeast(m, s) && IsLeast(k, s)
    ensures m == k
  {
    BeforeTotal(m, k);
  }

  function Least(s: set<string>): (m: string)
    requires s != {}
    ensures IsLeast(m, s)
  {
    LeastExists(s);
    assert forall m, k :: IsLeast(m, s) && IsLeast(k, s) ==> m == k by {
      forall m, k | IsLeast(m, s) && IsLeast(k, s) ensures m == k { LeastUnique(s, m, k); }
    }
    var m :| IsLeast(m, s);
    m
  }

  /** A set of keys in ascending order. */
  function SortedKeys(s: set<string>): (keys: seq<string>)
    ensures forall k :: k in keys <==> k in s
    ensures forall i, j :: 0 <= i < j < |keys| ==> Before(keys[i], keys[j])
  {
    if s == {} then [] else [Least(s)] + SortedKeys(s - {Least(s)})
  }

  // ----- finding what changed -----

  function ChangedPaths(previous: Value, current: Value, prefix: string): (paths: seq<string>)
    decreases previous, 1, 0
  {
    if previous.Dict? && current.Dict? then
      ChangedUnder(previous, current, SortedKeys(previous.entries.Keys + current.entries.Keys), prefix)
    else if previous == current then []
    else [if prefix == "" then "/" else prefix]
  }

  function ChangedUnder(previous: Value, current: Value, keys: seq<string>, prefix: string): (paths: seq<string>)
    requires previous.Dict? && current.Dict?
    decreases previous, 0, |keys|
  {
    if keys == [] then []
    else
      var key, path := keys[0], prefix + "/" + EscapePath(keys[0]);
      (if key !in previous.entries || key !in current.entries then [path]
       else ChangedPaths(previous.entries[key], current.entries[key], path))
      + ChangedUnder(previous, current, keys[1..], prefix)
  }

  /** The location p changed from a to b, and nothing above it can be blamed:
      its dictionary is a dictionary on both sides. */
  ghost predicate ChangedAt(a: Value, b: Value, p: seq<string>)
    decreases |p|
  {
    if p == [] then a != b && !(a.Dict? && b.Dict?)
    else
      && a.Dict? && b.Dict?
      && if p[0] in a.entries && p[0] in b.entries then ChangedAt(a.entries[p[0]], b.entries[p[0]], p[1..])
         else |p| == 1 && (p[0] in a.entries || p[0] in b.entries)
  }

  // ----- what the changed paths are -----

  /** Different changed locations never lie one above the other. */
  lemma {:induction false} ChangesApart(a: Value, b: Value, p: seq<string>, q: seq<string>)
    requires ChangedAt(a, b, p) && ChangedAt(a, b, q) && p <= q
    ensures p == q
    decreases |p|
  {
    if p != [] {
      if p[0] in a.entries && p[0] in b.entries {
        ChangesApart(a.entries[p[0]], b.entries[p[0]], p[1..], q[1..]);
        assert p == [p[0]] + p[1..] && q == [q[0]] + q[1..];
      }
    }
  }

  /** Trees without a changed location are equal. */
  lemma {:induction false} UnchangedEqual(a: Value, b: Value)
    requires forall p :: !ChangedAt(a, b, p)
    ensures a == b
    decreases a
  {
    if a.Dict? && b.Dict? {
      forall k | k in a.entries || k in b.entries
        ensures k in a.entries && k in b.entries && a.entries[k] == b.entries[k]
      {
        assert !ChangedAt(a, b, [k]);
        if k in a.entries && k in b.entries {
          forall p
            ensures !ChangedAt(a.entries[k], b.entries[k], p)
          {
            assert ([k] + p)[1..] == p && !ChangedAt(a, b, [k] + p);
          }
          UnchangedEqual(a.entries[k], b.entries[k]);
        }
      }
      assert a.entries == b.entries;
    } else {
      assert !ChangedAt(a, b, []);
    }
  }

  /** What is found at a location, if anything is. */
  ghost function Lookup(v: Value, p: seq<string>): Option<Value>
    decreases |p|
  {
    if p == [] then Some(v)
    else if v.Dict? && p[0] in v.entries then Lookup(v.entries[p[0]], p[1..])
    else None
  }

  /** A location that overlaps no changed one reads the same in both trees. */
  lemma {:induction false} UntouchedReadsSame(a: Value, b: Value, q: seq<string>)
    requires forall p :: ChangedAt(a, b, p) ==> !(p <= q) && !(q <= p)
    ensures Lookup(a, q) == Lookup(b, q)
    decreases |q|
  {
    if q == [] {
      forall p ensures !ChangedAt(a, b, p) { assert q <= p; }
      UnchangedEqual(a, b);
    } else if a.Dict? && b.Dict? {
      assert [q[0]] <= q;
      assert !ChangedAt(a, b, [q[0]]);
      if q[0] in a.entries && q[0] in b.entries {
        forall p | ChangedAt(a.entries[q[0]], b.entries[q[0]], p)
          ensures !(p <= q[1..]) && !(q[1..] <= p)
        {
          var p' := [q[0]] + p;
          assert p'[1..] == p && ChangedAt(a, b, p');
          assert q == [q[0]] + q[1..];
        }
        UntouchedReadsSame(a.entries[q[0]], b.entries[q[0]], q[1..]);
      }
    } else {
      assert [] <= q;
      assert !ChangedAt(a, b, []);
    }
  }

  /** A changed location reads differently in the two trees. */
  lemma {:induction false} ChangedReadsDiffer(a: Value, b: Value, p: seq<string>)
    requires ChangedAt(a, b, p)
    ensures Lookup(a, p) != Lookup(b, p)
    decreases |p|
  {
    if p != [] && p[0] in a.entries && p[0] in b.entries {
      ChangedReadsDiffer(a.entries[p[0]], b.entries[p[0]], p[1..]);
    }
  }

  /** The string x is the path, under a prefix, of a location changed from a to b,
      beginning with one of the keys. */
  ghost predicate NamesChange(a: Value, b: Value, prefix: seq<string>, x: string) {
    exists p :: ChangedAt(a, b, p) && x == PathOf(prefix + p)
  }

  ghost predicate NamesChangeUnder(a: Value, b: Value, keys: seq<string>, prefix: seq<string>, x: string) {
    exists p :: p != [] && p[0] in keys && ChangedAt(a, b, p) && x == PathOf(prefix + p)
  }

  lemma {:induction false} PathStep(prefix: seq<string>, key: string)
    ensures PathOf(prefix + [key]) == PathOf(prefix) + "/" + EscapePath(key)
  {
    assert (prefix + [key])[..|prefix|] == prefix;
  }

  /** What changed at or below one key. */
  lemma {:induction false} ChangesBelowKey(a: Value, b: Value, key: string, prefix: seq<string>, x: string)
    requires a.Dict? && b.Dict? && key in a.entries && key in b.entries
    ensures NamesChangeUnder(a, b, [key], prefix, x) <==> NamesChange(a.entries[key], b.entries[key], prefix + [key], x)
  {
    if NamesChangeUnder(a, b, [key], prefix, x) {
      var p :| p != [] && p[0] in [key] && ChangedAt(a, b, p) && x == PathOf(prefix + p);
      assert prefix + p == prefix + [key] + p[1..];
      assert ChangedAt(a.entries[key], b.entries[key], p[1..]);
    }
    if NamesChange(a.entries[key], b.entries[key], prefix + [key], x) {
      var p :| ChangedAt(a.entries[key], b.entries[key], p) && x == PathOf(prefix + [key] + p);
      var q := [key] + p;
      assert q[1..] == p && prefix + q == prefix + [key] + p;
      assert ChangedAt(a, b, q);
    }
  }

  lemma {:induction false} ChangeAtKey(a: Value, b: Value, key: string, prefix: seq<string>, x: string)
    requires a.Dict? && b.Dict? && (key in a.entries) != (key in b.entries)
    ensures NamesChangeUnder(a, b, [key], prefix, x) <==> x == PathOf(prefix + [key])
  {
    if NamesChangeUnder(a, b, [key], prefix, x) {
      var p :| p != [] && p[0] in [key] && ChangedAt(a, b, p) && x == PathOf(prefix + p);
      assert p == [key];
    }
    assert ChangedAt(a, b, [key]);
  }

  lemma {:induction false} UnderSplits(a: Value, b: Value, keys: seq<string>, prefix: seq<string>, x: string)
    requires keys != []
    ensures NamesChangeUnder(a, b, keys, prefix, x) <==>
      NamesChangeUnder(a, b, [keys[0]], prefix, x) || NamesChangeUnder(a, b, keys[1..], prefix, x)
  {
    assert keys == [keys[0]] + keys[1..];
    if NamesChangeUnder(a, b, keys, prefix, x) {
      var p :| p != [] && p[0] in keys && ChangedAt(a, b, p) && x == PathOf(prefix + p);
      assert p[0] in [keys[0]] || p[0] in keys[1..];
    }
  }

  /** The listed paths are exactly the paths of the changed locations. */
  lemma {:induction false} ChangedPathsExact(a: Value, b: Value, prefix: seq<string>, x: string)
    requires prefix != [] || (a.Dict? && b.Dict?)
    ensures x in ChangedPaths(a, b, PathOf(prefix)) <==> NamesChange(a, b, prefix, x)
    decreases a, 1, 0
  {
    if a.Dict? && b.Dict? {
      var keys := SortedKeys(a.entries.Keys + b.entries.Keys);
      ChangedUnderExact(a, b, keys, prefix, x);
      if NamesChange(a, b, prefix, x) {
        var p :| ChangedAt(a, b, p) && x == PathOf(prefix + p);
        assert p[0] in keys;
      }
    } else {
      PathStartsWithSlash(prefix);
      assert prefix + [] == prefix;
      if a != b { assert ChangedAt(a, b, []); }
    }
  }

  lemma {:induction false} ChangedUnderExact(a: Value, b: Value, keys: seq<string>, prefix: seq<string>, x: string)
    requires a.Dict? && b.Dict? && forall k :: k in keys ==> k in a.entries || k in b.entries
    ensures x in ChangedUnder(a, b, keys, PathOf(prefix)) <==> NamesChangeUnder(a, b, keys, prefix, x)
    decreases a, 0, |keys|
  {
    if keys != [] {
      var key := keys[0];
      PathStep(prefix, key);
      UnderSplits(a, b, keys, prefix, x);
      ChangedUnderExact(a, b, keys[1..], prefix, x);
      if key in a.entries && key in b.entries {
        ChangedPathsExact(a.entries[key], b.entries[key], prefix + [key], x);
        ChangesBelowKey(a, b, key, prefix, x);
      } else {
        ChangeAtKey(a, b, key, prefix, x);
      }
    }
  }

  // ----- no path twice -----

  lemma {:induction false} ChangedPathsDistinct(a: Value, b: Value, prefix: seq<string>)
    requires prefix != [] || (a.Dict? && b.Dict?)
    ensures Distinct(ChangedPaths(a, b, PathOf(prefix)))
    decreases a, 1, 0
  {
    if a.Dict? && b.Dict? {
      ChangedUnderDistinct(a, b, SortedKeys(a.entries.Keys + b.entries.Keys), prefix);
    }
  }

  lemma {:induction false} BeforeDiffers(a: string, b: string)
    requires Before(a, b)
    ensures a != b
  {
    BeforeTotal(a, b);
  }

  lemma {:induction false} ChangedUnderDistinct(a: Value, b: Value, keys: seq<string>, prefix: seq<string>)
    requires a.Dict? && b.Dict? && forall k :: k in keys ==> k in a.entries || k in b.entries
    requires forall i, j :: 0 <= i < j < |keys| ==> Before(keys[i], keys[j])
    ensures Distinct(ChangedUnder(a, b, keys, PathOf(prefix)))
    decreases a, 0, |keys|
  {
    if keys != [] {
      var key := keys[0];
      PathStep(prefix, key);
      ChangedUnderDistinct(a, b, keys[1..], prefix);
      var first := if key !in a.entries || key !in b.entries then [PathOf(prefix + [key])]
                   else ChangedPaths(a.entries[key], b.entries[key], PathOf(prefix + [key]));
      if key in a.entries && key in b.entries {
        ChangedPathsDistinct(a.entries[key], b.entries[key], prefix + [key]);
      }
      forall x | x in first
        ensures x !in ChangedUnder(a, b, keys[1..], PathOf(prefix))
      {
        KeysApart(a, b, keys, prefix, x);
      }
      DistinctConcat(first, ChangedUnder(a, b, keys[1..], PathOf(prefix)));
    }
  }

  lemma {:induction false} KeysApart(a: Value, b: Value, keys: seq<string>, prefix: seq<string>, x: string)
    requires a.Dict? && b.Dict? && keys != [] && forall k :: k in keys ==> k in a.entries || k in b.entries
    requires forall i, j :: 0 <= i < j < |keys| ==> Before(keys[i], keys[j])
    requires if keys[0] in a.entries && keys[0] in b.entries
             then x in ChangedPaths(a.entries[keys[0]], b.entries[keys[0]], PathOf(prefix + [keys[0]]))
             else x == PathOf(prefix + [keys[0]])
    ensures x !in ChangedUnder(a, b, keys[1..], PathOf(prefix))
  {
    var key := keys[0];
    if key in a.entries && key in b.entries {
      ChangedPathsExact(a.entries[key], b.entries[key], prefix + [key], x);
      ChangesBelowKey(a, b, key, prefix, x);
    } else {
      ChangeAtKey(a, b, key, prefix, x);
    }
    var p :| p != [] && p[0] in [key] && ChangedAt(a, b, p) && x == PathOf(prefix + p);
    ChangedUnderExact(a, b, keys[1..], prefix, x);
    if NamesChangeUnder(a, b, keys[1..], prefix, x) {
      var q :| q != [] && q[0] in keys[1..] && ChangedAt(a, b, q) && x == PathOf(prefix + q);
      PathInjective(prefix + p, prefix + q);
      assert (prefix + p)[|prefix|] == p[0] && (prefix + q)[|prefix|] == q[0];
      var j :| 1 <= j < |keys| && keys[j] == q[0];
      BeforeDiffers(keys[0], keys[j]);
    }
  }

  // ----- merging -----

  /** Copies the location p of working into authoritative, or deletes it when
      working no longer has it; None when a lookup on the way fails. */
  function MergeAt(authoritative: Value, working: Value, p: seq<string>): Option<Value>
    decreases |p|
  {
    if p == [] || !authoritative.Dict? || !working.Dict? then None
    else if |p| == 1 then
      if p[0] in working.entries then Some(Dict(authoritative.entries[p[0] := working.entries[p[0]]]))
      else if p[0] in authoritative.entries then Some(Dict(authoritative.entries - {p[0]}))
      else None
    else if p[0] in authoritative.entries && p[0] in working.entries then
      match MergeAt(authoritative.entries[p[0]], working.entries[p[0]], p[1..])
      case None => None
      case Some(child) => Some(Dict(authoritative.entries[p[0] := child]))
    else None
  }

  function MergeChangedPath(authoritative: Value, working: Value, path: string): Option<Value> {
    MergeAt(authoritative, working, SegmentsOf(path))
  }

  function MergeAll(authoritative: Value, working: Value, paths: seq<string>): Option<Value>
    decreases |paths|
  {
    if paths == [] then Some(authoritative)
    else
      match MergeChangedPath(authoritative, working, paths[0])
      case None => None
      case Some(next) => MergeAll(next, working, paths[1..])
  }

  /** Merging a changed location succeeds and removes it, and nothing else, from
      what still differs. */
  lemma {:induction false} MergeRemoves(a: Value, b: Value, p: seq<string>, q: seq<string>)
    requires ChangedAt(a, b, p) && p != []
    ensures MergeAt(a, b, p).Some? && MergeAt(a, b, p).value.Dict?
    ensures ChangedAt(MergeAt(a, b, p).value, b, q) <==> ChangedAt(a, b, q) && q != p
    decreases |p|
  {
    var k := p[0];
    if |p| == 1 {
      assert p == [k];
      if q != [] && k in b.entries && q[0] == k {
        NothingChanged(b.entries[k], q[1..]);
        if k in a.entries { ChangesFromRoot(a, b, k, q); }
      }
    } else {
      assert k in a.entries && k in b.entries;
      assert p == [k] + p[1..];
      MergeRemoves(a.entries[k], b.entries[k], p[1..], if q == [] then [] else q[1..]);
      if q != [] && q[0] == k { assert q == [k] + q[1..]; }
    }
  }

  /** A value does not differ from itself. */
  lemma {:induction false} NothingChanged(a: Value, p: seq<string>)
    ensures !ChangedAt(a, a, p)
    decreases |p|
  {
    if p != [] && a.Dict? && p[0] in a.entries { NothingChanged(a.entries[p[0]], p[1..]); }
  }

  lemma {:induction false} ChangesFromRoot(a: Value, b: Value, k: string, q: seq<string>)
    requires a.Dict? && b.Dict? && k in a.entries && k in b.entries && ChangedAt(a, b, [k])
    requires q != [] && q[0] == k
    ensures ChangedAt(a, b, q) ==> q == [k]
  {
    if ChangedAt(a, b, q) { ChangesApart(a, b, [k], q); }
  }

  /** paths lists exactly the paths of the changed locations, each once. */
  ghost predicate ListsChanges(a: Value, b: Value, paths: seq<string>) {
    Distinct(paths) && forall x :: x in paths <==> NamesChange(a, b, [], x)
  }

  lemma {:induction false} ChangedPathsListChanges(a: Value, b: Value)
    requires a.Dict? && b.Dict?
    ensures ListsChanges(a, b, ChangedPaths(a, b, ""))
  {
    assert PathOf([]) == "";
    ChangedPathsDistinct(a, b, []);
    forall x
      ensures x in ChangedPaths(a, b, "") <==> NamesChange(a, b, [], x)
    {
      ChangedPathsExact(a, b, [], x);
    }
  }

  lemma {:induction false} NamedAfterMerge(a: Value, b: Value, p: seq<string>, x: string)
    requires ChangedAt(a, b, p) && p != []
    ensures MergeAt(a, b, p).Some?
    ensures NamesChange(MergeAt(a, b, p).value, b, [], x) <==> NamesChange(a, b, [], x) && x != PathOf(p)
  {
    MergeRemoves(a, b, p, p);
    var next := MergeAt(a, b, p).value;
    if NamesChange(next, b, [], x) {
      var q :| ChangedAt(next, b, q) && x == PathOf([] + q);
      assert [] + q == q;
      MergeRemoves(a, b, p, q);
      if x == PathOf(p) { PathInjective(p, q); }
    }
    if NamesChange(a, b, [], x) && x != PathOf(p) {
      var q :| ChangedAt(a, b, q) && x == PathOf([] + q);
      assert [] + q == q;
      MergeRemoves(a, b, p, q);
    }
  }

  lemma {:induction false} DistinctTail(paths: seq<string>, x: string)
    requires paths != [] && Distinct(paths)
    ensures Distinct(paths[1..]) && (x in paths[1..] <==> x in paths && x != paths[0])
  {
    assert paths == [paths[0]] + paths[1..];
  }

  lemma {:induction false} ListsAfterMerge(a: Value, b: Value, paths: seq<string>)
    requires a.Dict? && b.Dict? && paths != [] && ListsChanges(a, b, paths)
    ensures MergeChangedPath(a, b, paths[0]).Some? && MergeChangedPath(a, b, paths[0]).value.Dict?
    ensures ListsChanges(MergeChangedPath(a, b, paths[0]).value, b, paths[1..])
  {
    assert NamesChange(a, b, [], paths[0]);
    var p :| ChangedAt(a, b, p) && paths[0] == PathOf([] + p);
    assert [] + p == p;
    PathRoundTrip(p);
    MergeRemoves(a, b, p, p);
    DistinctTail(paths, "");
    forall x
      ensures x in paths[1..] <==> NamesChange(MergeAt(a, b, p).value, b, [], x)
    {
      DistinctTail(paths, x);
      NamedAfterMerge(a, b, p, x);
    }
  }

  /** Merging the changed paths, in any order, turns the one tree into the other. */
  lemma {:induction false} DiffThenMerge(a: Value, b: Value, paths: seq<string>)
    requires a.Dict? && b.Dict? && ListsChanges(a, b, paths)
    ensures MergeAll(a, b, paths) == Some(b)
    decreases |paths|
  {
    if paths == [] {
      forall p
        ensures !ChangedAt(a, b, p)
      {
        if ChangedAt(a, b, p) {
          assert [] + p == p;
          assert NamesChange(a, b, [], PathOf(p));
        }
      }
      UnchangedEqual(a, b);
    } else {
      ListsAfterMerge(a, b, paths);
      DiffThenMerge(MergeChangedPath(a, b, paths[0]).value, b, paths[1..]);
    }
  }

  lemma {:induction false} ChangedPathListed(a: Value, b: Value, q: seq<string>)
    requires a.Dict? && b.Dict?
    ensures PathOf(q) in ChangedPaths(a, b, "") <==> ChangedAt(a, b, q)
  {
    assert PathOf([]) == "" && [] + q == q;
    ChangedPathsExact(a, b, [], PathOf(q));
    if NamesChange(a, b, [], PathOf(q)) {
      var p :| ChangedAt(a, b, p) && PathOf(q) == PathOf([] + p);
      assert [] + p == p;
      PathInjective(p, q);
    }
  }

  lemma {:induction false} NothingListedWhenEqual(a: Value, b: Value)
    requires a.Dict? && b.Dict?
    ensures ChangedPaths(a, b, "") == [] <==> a == b
  {
    var changed := ChangedPaths(a, b, "");
    ChangedPathsListChanges(a, b);
    if changed == [] {
      DiffThenMerge(a, b, changed);
    } else {
      assert NamesChange(a, b, [], changed[0]);
      var p :| ChangedAt(a, b, p) && changed[0] == PathOf([] + p);
      if a == b { NothingChanged(a, p); }
    }
  }
}
