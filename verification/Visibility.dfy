/** The visibility graph: the grid of the sides of all node boxes, the free points on it,
    and which of them see each other. */
module Visibility {
  import opened Sorting
  import opened RouteSearch
  import opened RouteGeometry

  // ----- the visibility graph -----

  predicate Blocked(a: Point, b: Point, obstacles: seq<Rect>) {
    exists r :: r in obstacles && SegmentIntersectsRect(a, b, r)
  }

  lemma {:induction false} BlockedSymmetric(a: Point, b: Point, obstacles: seq<Rect>)
    ensures Blocked(a, b, obstacles) <==> Blocked(b, a, obstacles)
  {
    assert forall r :: SegmentIntersectsRect(a, b, r) == SegmentIntersectsRect(b, a, r);
  }

  /** The coordinate that varies along a row or column, and the one that does not. */
  function Along(p: Point, horizontal: bool): real {
    if horizontal then p.x else p.y
  }

  function Across(p: Point, horizontal: bool): real {
    if horizontal then p.y else p.x
  }

  ghost predicate PointsDistinct(points: seq<Point>) {
    forall i, j :: 0 <= i < j < |points| ==> points[i] != points[j]
  }

  /** a and b are on one row (or column) with no other point between them. */
  ghost predicate NextOnLine(points: seq<Point>, horizontal: bool, a: nat, b: nat) {
    && a < |points| && b < |points| && a != b && Across(points[a], horizontal) == Across(points[b], horizontal)
    && !exists c: nat :: StrictlyBetween(points, horizontal, a, c, b)
  }

  ghost predicate StrictlyBetween(points: seq<Point>, horizontal: bool, a: nat, c: nat, b: nat)
    requires a < |points| && b < |points|
  {
    && c < |points| && Across(points[c], horizontal) == Across(points[a], horizontal)
    && (Along(points[a], horizontal) < Along(points[c], horizontal) < Along(points[b], horizontal)
        || Along(points[b], horizontal) < Along(points[c], horizontal) < Along(points[a], horizontal))
  }

  /** Exactly the pairs that see each other along a row or column. */
  ghost predicate Neighbors(points: seq<Point>, obstacles: seq<Rect>, a: nat, b: nat) {
    && (NextOnLine(points, true, a, b) || NextOnLine(points, false, a, b))
    && !Blocked(points[a], points[b], obstacles)
  }

  function AlongKey(points: seq<Point>, horizontal: bool): nat -> real {
    (i: nat) => if i < |points| then Along(points[i], horizontal) else 0.0
  }

  /** The indexes of all points with one coordinate in common, ascending. */
  ghost predicate IsLine(points: seq<Point>, horizontal: bool, line: seq<nat>, across: real) {
    && (forall i: nat :: i in line <==> i < |points| && Across(points[i], horizontal) == across)
    && (forall i, j :: 0 <= i < j < |line| ==> line[i] < line[j])
  }

  lemma {:induction false} LineKeysDiffer(points: seq<Point>, horizontal: bool, line: seq<nat>, across: real)
    requires PointsDistinct(points) && IsLine(points, horizontal, line, across)
    ensures KeysDiffer(AlongKey(points, horizontal), line)
  {
    forall i, j | 0 <= i < j < |line|
      ensures AlongKey(points, horizontal)(line[i]) != AlongKey(points, horizontal)(line[j])
    {
      assert line[i] in line && line[j] in line && points[line[i]] != points[line[j]];
    }
  }

  /** a and b are consecutive in the list, one way or the other. */
  ghost predicate ConsecutiveAt(s: seq<nat>, i: int, a: nat, b: nat) {
    0 < i < |s| && ((s[i - 1] == a && s[i] == b) || (s[i - 1] == b && s[i] == a))
  }

  ghost predicate SortedLine(points: seq<Point>, horizontal: bool, s: seq<nat>, across: real) {
    && StrictBy(AlongKey(points, horizontal), s)
    && forall i: nat :: i in s <==> i < |points| && Across(points[i], horizontal) == across
  }

  lemma {:induction false} SortedOrder(points: seq<Point>, horizontal: bool, s: seq<nat>, across: real, m: nat, n: nat)
    requires SortedLine(points, horizontal, s, across) && m < |s| && n < |s|
    ensures s[m] < |points| && s[n] < |points|
    ensures Along(points[s[m]], horizontal) < Along(points[s[n]], horizontal) <==> m < n
  {
    assert s[m] in s && s[n] in s;
    var key := AlongKey(points, horizontal);
    if m < n { assert key(s[m]) < key(s[n]); }
    if n < m { assert key(s[n]) < key(s[m]); }
  }

  lemma {:induction false} ConsecutiveIsNext(points: seq<Point>, horizontal: bool, s: seq<nat>, across: real, i: nat)
    requires SortedLine(points, horizontal, s, across) && 0 < i < |s|
    ensures NextOnLine(points, horizontal, s[i - 1], s[i]) && NextOnLine(points, horizontal, s[i], s[i - 1])
  {
    var a, b := s[i - 1], s[i];
    SortedOrder(points, horizontal, s, across, i - 1, i);
    assert a in s && b in s;
    forall c: nat | c < |points| && Across(points[c], horizontal) == across
      ensures !StrictlyBetween(points, horizontal, a, c, b) && !StrictlyBetween(points, horizontal, b, c, a)
    {
      assert c in s;
      var m: nat :| m < |s| && s[m] == c;
      SortedOrder(points, horizontal, s, across, i - 1, m);
      SortedOrder(points, horizontal, s, across, m, i);
    }
  }

  lemma {:induction false} NextIsConsecutive(points: seq<Point>, horizontal: bool, s: seq<nat>, across: real, a: nat,
      b: nat)
    requires SortedLine(points, horizontal, s, across) && a in s && NextOnLine(points, horizontal, a, b)
    ensures exists i :: ConsecutiveAt(s, i, a, b)
  {
    assert b in s;
    var m: nat :| m < |s| && s[m] == a;
    var n: nat :| n < |s| && s[n] == b;
    var low, high := if m < n then m else n, if m < n then n else m;
    if low + 1 < high {
      SortedOrder(points, horizontal, s, across, low, low + 1);
      SortedOrder(points, horizontal, s, across, low + 1, high);
      assert s[low + 1] in s;
      assert StrictlyBetween(points, horizontal, a, s[low + 1], b);
    }
    assert ConsecutiveAt(s, high, a, b);
  }

  ghost predicate AllBelow(s: seq<nat>, n: nat) {
    forall k :: 0 <= k < |s| ==> s[k] < n
  }

  /** Connects consecutive indexes that see each other, both ways. */
  ghost predicate Linked(s: seq<nat>, upTo: int, points: seq<Point>, obstacles: seq<Rect>, a: nat, b: nat)
    requires AllBelow(s, |points|)
  {
    exists i :: i < upTo && ConsecutiveAt(s, i, a, b) && !Blocked(points[s[i - 1]], points[s[i]], obstacles)
  }

  lemma {:induction false} LinkedNext(s: seq<nat>, i: int, points: seq<Point>, obstacles: seq<Rect>, a: nat, b: nat)
    requires AllBelow(s, |points|) && 0 < i < |s|
    ensures Linked(s, i + 1, points, obstacles, a, b) <==>
      Linked(s, i, points, obstacles, a, b) ||
        (ConsecutiveAt(s, i, a, b) && !Blocked(points[s[i - 1]], points[s[i]], obstacles))
  {
  }

  method ConnectVisibleNeighbors(indexes: seq<nat>, points: seq<Point>, obstacles: seq<Rect>,
      neighbors: array<seq<nat>>)
    requires neighbors.Length == |points| && AllBelow(indexes, |points|)
    requires forall i, j :: 0 <= i < j < |indexes| ==> indexes[i] != indexes[j]
    modifies neighbors
    ensures forall a: nat, b: nat :: a < |points| ==>
      (b in neighbors[a] <==> b in old(neighbors[a]) || Linked(indexes, |indexes|, points, obstacles, a, b))
  {
    if |indexes| == 0 {
      return;
    }
    var index := 1;
    while index < |indexes|
      invariant 1 <= index <= |indexes|
      invariant forall a: nat, b: nat :: a < |points| ==>
        (b in neighbors[a] <==> b in old(neighbors[a]) || Linked(indexes, index, points, obstacles, a, b))
    {
      var previous, current := indexes[index - 1], indexes[index];
      ghost var before := neighbors[..];
      assert previous in indexes && current in indexes;
      forall a: nat, b: nat
        ensures Linked(indexes, index + 1, points, obstacles, a, b) <==>
          Linked(indexes, index, points, obstacles, a, b) ||
            (ConsecutiveAt(indexes, index, a, b) && !Blocked(points[previous], points[current], obstacles))
      {
        LinkedNext(indexes, index, points, obstacles, a, b);
      }
      if !Blocked(points[previous], points[current], obstacles) {
        neighbors[previous] := neighbors[previous] + [current];
        neighbors[current] := neighbors[current] + [previous];
      }
      index := index + 1;
    }
  }

  /** The rows (or columns) in the order their first points appear. */
  method GroupLines(points: seq<Point>, horizontal: bool) returns (lines: seq<seq<nat>>, ghost keys: seq<real>)
    ensures |lines| == |keys| && forall k :: 0 <= k < |lines| ==> IsLine(points, horizontal, lines[k], keys[k])
    ensures forall i: nat :: i < |points| ==> Across(points[i], horizontal) in keys
    ensures forall k, l :: 0 <= k < l < |keys| ==> keys[k] != keys[l]
  {
    var groups: map<real, seq<nat>> := map[];
    var order: seq<real> := [];
    var i := 0;
    while i < |points|
      invariant 0 <= i <= |points|
      invariant (forall k :: 0 <= k < |order| ==> order[k] in groups) && forall k :: k in groups ==> k in order
      invariant forall k, l :: 0 <= k < l < |order| ==> order[k] != order[l]
      invariant forall k :: k in groups ==> IsLine(points[..i], horizontal, groups[k], k)
      invariant forall j :: 0 <= j < i ==> Across(points[j], horizontal) in groups
    {
      var key := Across(points[i], horizontal);
      ghost var before := groups;
      if key in groups {
        groups := groups[key := groups[key] + [i]];
      } else {
        groups := groups[key := [i]];
        order := order + [key];
      }
      forall k | k in groups
        ensures IsLine(points[..i + 1], horizontal, groups[k], k)
      {
        LineGrows(points, horizontal, i, if k in before then before[k] else [], k);
      }
      i := i + 1;
    }
    assert points[..i] == points;
    keys := order;
    lines := seq(|order|, k requires 0 <= k < |order| && order[k] in groups => groups[order[k]]);
  }

  lemma {:induction false} LineGrows(points: seq<Point>, horizontal: bool, i: nat, line: seq<nat>, across: real)
    requires i < |points|
    requires IsLine(points[..i], horizontal, line, across) ||
      (line == [] && forall j :: 0 <= j < i ==> Across(points[j], horizontal) != across)
    ensures IsLine(points[..i + 1], horizontal, if Across(points[i], horizontal) == across then line + [i] else line,
      across)
  {
    if line == [] { assert IsLine(points[..i], horizontal, line, across); }
    assert points[..i + 1] == points[..i] + [points[i]];
    forall k | 0 <= k < |line| ensures line[k] < i { assert line[k] in line; }
  }

  ghost predicate SeenAlong(points: seq<Point>, obstacles: seq<Rect>, horizontal: bool, a: nat, b: nat) {
    NextOnLine(points, horizontal, a, b) && !Blocked(points[a], points[b], obstacles)
  }

  lemma {:induction false} LineLinks(points: seq<Point>, obstacles: seq<Rect>, horizontal: bool, s: seq<nat>,
      across: real, a: nat, b: nat)
    requires SortedLine(points, horizontal, s, across) && AllBelow(s, |points|)
    ensures Linked(s, |s|, points, obstacles, a, b) <==>
      a < |points| && Across(points[a], horizontal) == across && SeenAlong(points, obstacles, horizontal, a, b)
  {
    if Linked(s, |s|, points, obstacles, a, b) {
      var i :| i < |s| && ConsecutiveAt(s, i, a, b) && !Blocked(points[s[i - 1]], points[s[i]], obstacles);
      ConsecutiveIsNext(points, horizontal, s, across, i);
      BlockedSymmetric(points[a], points[b], obstacles);
      assert s[i] in s && s[i - 1] in s;
    }
    if a < |points| && Across(points[a], horizontal) == across && SeenAlong(points, obstacles, horizontal, a, b) {
      NextIsConsecutive(points, horizontal, s, across, a, b);
      var i :| ConsecutiveAt(s, i, a, b);
      BlockedSymmetric(points[a], points[b], obstacles);
    }
  }

  method ConnectLine(points: seq<Point>, obstacles: seq<Rect>, horizontal: bool, line: seq<nat>, ghost across: real,
      neighbors: array<seq<nat>>)
    requires PointsDistinct(points) && IsLine(points, horizontal, line, across) && neighbors.Length == |points|
    modifies neighbors
    ensures forall a: nat, b: nat :: a < |points| ==>
      (b in neighbors[a] <==>
        b in old(neighbors[a]) || (Across(points[a], horizontal) == across &&
        SeenAlong(points, obstacles, horizontal, a, b)))
  {
    LineKeysDiffer(points, horizontal, line, across);
    var sorted := SortBy(AlongKey(points, horizontal), line);
    forall k | 0 <= k < |sorted| ensures sorted[k] < |points| { assert sorted[k] in sorted; }
    assert forall i, j :: 0 <= i < j < |sorted| ==>
      AlongKey(points, horizontal)(sorted[i]) < AlongKey(points, horizontal)(sorted[j]);
    ConnectVisibleNeighbors(sorted, points, obstacles, neighbors);
    forall a: nat, b: nat | a < |points|
      ensures Linked(sorted, |sorted|, points, obstacles, a, b) <==>
        Across(points[a], horizontal) == across && SeenAlong(points, obstacles, horizontal, a, b)
    {
      LineLinks(points, obstacles, horizontal, sorted, across, a, b);
    }
  }

  method ConnectLines(points: seq<Point>, obstacles: seq<Rect>, horizontal: bool, neighbors: array<seq<nat>>)
    requires PointsDistinct(points) && neighbors.Length == |points|
    modifies neighbors
    ensures forall a: nat, b: nat :: a < |points| ==>
      (b in neighbors[a] <==> b in old(neighbors[a]) || SeenAlong(points, obstacles, horizontal, a, b))
  {
    var lines, keys := GroupLines(points, horizontal);
    var l := 0;
    while l < |lines|
      invariant 0 <= l <= |lines|
      invariant forall a: nat, b: nat :: a < |points| ==>
        (b in neighbors[a] <==>
          b in old(neighbors[a]) || (Across(points[a], horizontal) in keys[..l] &&
          SeenAlong(points, obstacles, horizontal, a, b)))
    {
      ConnectLine(points, obstacles, horizontal, lines[l], keys[l], neighbors);
      assert keys[..l + 1] == keys[..l] + [keys[l]];
      l := l + 1;
    }
    assert keys[..l] == keys;
  }

  /** Neighbours are exactly the points that see each other along a row or column. */
  method BuildVisibilityNeighbors(points: seq<Point>, obstacles: seq<Rect>) returns (neighbors: seq<seq<nat>>)
    requires PointsDistinct(points)
    ensures ValidGraph(points, neighbors)
    ensures forall a: nat, b: nat :: a < |points| ==> (b in neighbors[a] <==> Neighbors(points, obstacles, a, b))
  {
    var table := new seq<nat>[|points|](_ => []);
    ConnectLines(points, obstacles, true, table);
    ConnectLines(points, obstacles, false, table);
    neighbors := table[..];
    assert forall a: nat, b: nat :: a < |points| && b in neighbors[a] ==> Neighbors(points, obstacles, a, b);
  }

  // ----- the grid -----

  function Unique(values: seq<real>): (r: seq<real>)
    ensures forall v :: v in r <==> v in values
    ensures KeysDiffer(Identity(), r)
  {
    if values == [] then []
    else
      var last := values[|values| - 1];
      assert values == values[..|values| - 1] + [last];
      var init := Unique(values[..|values| - 1]);
      if last in init then init else init + [last]
  }

  function Identity(): real -> real {
    (v: real) => v
  }

  function UniqueSorted(values: seq<real>): (r: seq<real>)
    ensures forall v :: v in r <==> v in values
    ensures forall i, j :: 0 <= i < j < |r| ==> r[i] < r[j]
  {
    var r := SortBy(Identity(), Unique(values));
    assert forall i, j :: 0 <= i < j < |r| ==> Identity()(r[i]) < Identity()(r[j]);
    r
  }

  function SidesX(obstacles: seq<Rect>): (r: seq<real>)
    ensures forall x :: x in r <==> SideX(x, obstacles)
  {
    if obstacles == [] then [] else [obstacles[0].left, obstacles[0].right] + SidesX(obstacles[1..])
  }

  function SidesY(obstacles: seq<Rect>): (r: seq<real>)
    ensures forall y :: y in r <==> SideY(y, obstacles)
  {
    if obstacles == [] then [] else [obstacles[0].top, obstacles[0].bottom] + SidesY(obstacles[1..])
  }

  ghost predicate SideX(x: real, obstacles: seq<Rect>) {
    exists r :: r in obstacles && (x == r.left || x == r.right)
  }

  ghost predicate SideY(y: real, obstacles: seq<Rect>) {
    exists r :: r in obstacles && (y == r.top || y == r.bottom)
  }

  /** On a line through start, end or the side of an obstacle, in both coordinates. */
  ghost predicate OnGrid(p: Point, start: Point, end: Point, obstacles: seq<Rect>) {
    && (p.x == start.x || p.x == end.x || SideX(p.x, obstacles))
    && (p.y == start.y || p.y == end.y || SideY(p.y, obstacles))
  }

  /** Beside, above, below or on the edge of every obstacle. */
  ghost predicate Free(p: Point, obstacles: seq<Rect>) {
    forall r :: r in obstacles ==> p.x <= r.left || r.right <= p.x || p.y <= r.top || r.bottom <= p.y
  }

  predicate InsideAny(p: Point, obstacles: seq<Rect>) {
    exists r :: r in obstacles && StrictlyInside(p, r)
  }

  /** index holds exactly the points, each with its position. */
  ghost predicate Indexed(points: seq<Point>, index: map<Point, nat>) {
    && PointsDistinct(points)
    && (forall p :: p in index ==> index[p] < |points| && points[index[p]] == p)
    && (forall i :: 0 <= i < |points| ==> points[i] in index)
  }

  /** The free points of one more column. */
  method AddColumn(x: real, ys: seq<real>, obstacles: seq<Rect>, points: seq<Point>, index: map<Point, nat>)
      returns (points': seq<Point>, index': map<Point, nat>)
    requires Indexed(points, index) && forall p :: p in index ==> p.x != x
    requires forall i, j :: 0 <= i < j < |ys| ==> ys[i] < ys[j]
    ensures Indexed(points', index')
    ensures forall p :: p in index' <==> p in index || (p.x == x && p.y in ys && Free(p, obstacles))
  {
    points', index' := points, index;
    var j := 0;
    while j < |ys|
      invariant 0 <= j <= |ys| && Indexed(points', index')
      invariant forall p :: p in index' <==> p in index || (p.x == x && p.y in ys[..j] && Free(p, obstacles))
    {
      var point := Point(x, ys[j]);
      assert ys[..j + 1] == ys[..j] + [ys[j]];
      if !InsideAny(point, obstacles) {
        index' := index'[point := |points'|];
        points' := points' + [point];
      }
      j := j + 1;
    }
    assert ys[..j] == ys;
  }

  /** The free grid points, column by column. */
  method GridPoints(xs: seq<real>, ys: seq<real>, obstacles: seq<Rect>)
      returns (points: seq<Point>, index: map<Point, nat>)
    requires (forall i, j :: 0 <= i < j < |xs| ==> xs[i] < xs[j]) && forall i, j :: 0 <= i < j < |ys| ==> ys[i] < ys[j]
    ensures Indexed(points, index)
    ensures forall p :: p in index <==> p.x in xs && p.y in ys && Free(p, obstacles)
  {
    points, index := [], map[];
    var i := 0;
    while i < |xs|
      invariant 0 <= i <= |xs| && Indexed(points, index)
      invariant forall p :: p in index <==> p.x in xs[..i] && p.y in ys && Free(p, obstacles)
    {
      assert xs[..i + 1] == xs[..i] + [xs[i]];
      points, index := AddColumn(xs[i], ys, obstacles, points, index);
      i := i + 1;
    }
    assert xs[..i] == xs;
  }

  lemma {:induction false} GridAt(p: Point, start: Point, end: Point, obstacles: seq<Rect>)
    ensures p.x in [start.x, end.x] + SidesX(obstacles) && p.y in [start.y, end.y] + SidesY(obstacles) <==>
      OnGrid(p, start, end, obstacles)
  {
  }

  /** The free points of the grid of start, end and all sides. */
  method Grid(start: Point, end: Point, obstacles: seq<Rect>) returns (points: seq<Point>, index: map<Point, nat>)
    ensures Indexed(points, index)
    ensures forall p :: p in index <==> OnGrid(p, start, end, obstacles) && Free(p, obstacles)
    ensures forall p :: p in points <==> p in index
  {
    var xs := UniqueSorted([start.x, end.x] + SidesX(obstacles));
    var ys := UniqueSorted([start.y, end.y] + SidesY(obstacles));
    points, index := GridPoints(xs, ys, obstacles);
    forall p: Point
      ensures p.x in xs && p.y in ys <==> OnGrid(p, start, end, obstacles)
    {
      GridAt(p, start, end, obstacles);
    }
  }

  // ----- routes over the graph -----

  /** A route over visible neighbours draws an axis-aligned line that stays outside
      every obstacle. */
  lemma {:induction false} VisibleRouteIsClear(points: seq<Point>, neighbors: seq<seq<nat>>, obstacles: seq<Rect>,
      r: seq<nat>)
    requires ValidGraph(points, neighbors) && Route(points, neighbors, r) && InRange(points, r)
    requires forall a: nat, b: nat :: a < |points| ==> (b in neighbors[a] <==> Neighbors(points, obstacles, a, b))
    ensures AxisAlignedPath(PointsAt(points, r)) && ClearOf(PointsAt(points, r), obstacles)
  {
    var path := PointsAt(points, r);
    forall i | 0 <= i < |path| - 1
      ensures AxisAligned(path[i], path[i + 1]) && !Blocked(path[i], path[i + 1], obstacles)
    {
      assert r[i + 1] in neighbors[r[i]];
      assert Neighbors(points, obstacles, r[i], r[i + 1]);
    }
    forall p, rect | OnPath(p, path) && rect in obstacles
      ensures !StrictlyInside(p, rect)
    {
      var i :| OnPiece(p, path, i);
      SegmentIntersectsExact(path[i], path[i + 1], rect);
    }
  }

  /** The free points of the grid of start, end and all sides, and who sees whom. */
  ghost predicate VisibilityGraph(points: seq<Point>, neighbors: seq<seq<nat>>, start: Point, end: Point,
      obstacles: seq<Rect>) {
    && PointsDistinct(points) && ValidGraph(points, neighbors)
    && (forall p :: p in points <==>
      OnGrid(p, start, end, obstacles) && Free(p, obstacles))
    && forall a: nat, b: nat :: a < |points| ==> (b in neighbors[a] <==> Neighbors(points, obstacles, a, b))
  }


  // ----- lines along the grid -----

  ghost predicate AllProper(obstacles: seq<Rect>) {
    forall r :: r in obstacles ==> Proper(r)
  }

  /** Every piece of the line moves along one axis. */
  ghost predicate Moves(line: seq<Point>) {
    forall i :: 0 <= i < |line| - 1 ==> MovesAlongX(line[i], line[i + 1]) || MovesAlongY(line[i], line[i + 1])
  }

  /** A line from start to end along the axes with no part of it inside an obstacle. */
  ghost predicate Avoids(line: seq<Point>, start: Point, end: Point, obstacles: seq<Rect>) {
    && line != [] && line[0] == start && line[|line| - 1] == end && Moves(line)
    && (forall i :: 0 <= i < |line| ==> Free(line[i], obstacles))
    && ClearOf(line, obstacles)
  }

  /** Such a line with all its points on the grid. */
  ghost predicate GridLine(line: seq<Point>, start: Point, end: Point, obstacles: seq<Rect>) {
    Avoids(line, start, end, obstacles) && forall i :: 0 <= i < |line| ==> OnGrid(line[i], start, end, obstacles)
  }

  /** The points of one row (or column) between two others. */
  ghost function Between(points: seq<Point>, horizontal: bool, a: nat, b: nat): set<nat>
    requires a < |points| && b < |points|
  {
    set c: nat | c < |points| && StrictlyBetween(points, horizontal, a, c, b)
  }

  lemma {:induction false} BetweenShrinks(points: seq<Point>, horizontal: bool, a: nat, c: nat, b: nat)
    requires a < |points| && b < |points| && Across(points[a], horizontal) == Across(points[b], horizontal)
    requires StrictlyBetween(points, horizontal, a, c, b)
    ensures Between(points, horizontal, a, c) < Between(points, horizontal, a, b)
    ensures Between(points, horizontal, c, b) < Between(points, horizontal, a, b)
  {
    assert c in Between(points, horizontal, a, b);
    assert c !in Between(points, horizontal, a, c) && c !in Between(points, horizontal, c, b);
  }

  lemma {:induction false} SmallerSet(s: set<nat>, t: set<nat>)
    requires s < t
    ensures |s| < |t|
  {
    assert t == s + (t - s) && |t - s| > 0;
  }

  /** A part of a segment that hits no obstacle hits none. */
  lemma {:induction false} PartUnblocked(points: seq<Point>, horizontal: bool, a: nat, c: nat, b: nat,
      obstacles: seq<Rect>)
    requires a < |points| && b < |points| && Across(points[a], horizontal) == Across(points[b], horizontal)
    requires StrictlyBetween(points, horizontal, a, c, b) && !Blocked(points[a], points[b], obstacles)
    ensures !Blocked(points[a], points[c], obstacles) && !Blocked(points[c], points[b], obstacles)
  {
    forall r | r in obstacles
      ensures !SegmentIntersectsRect(points[a], points[c], r) && !SegmentIntersectsRect(points[c], points[b], r)
    {
      assert !SegmentIntersectsRect(points[a], points[b], r);
    }
  }

  /** What going straight on to b adds to the cost of a line. */
  ghost function GoingOn(line: seq<Point>, b: Point, horizontal: bool): real
    requires line != []
  {
    var a := line[|line| - 1];
    Gap(a.x, b.x) + Gap(a.y, b.y) + if |line| >= 2 && (line[|line| - 2].x == a.x) == horizontal then 24.0 else 0.0
  }

  /** t is r carried on along one axis until b. */
  ghost predicate CarriedOn(points: seq<Point>, neighbors: seq<seq<nat>>, r: seq<nat>, t: seq<nat>, b: nat,
      horizontal: bool)
    requires ValidGraph(points, neighbors) && r != [] && InRange(points, r) && b < |points|
  {
    && |t| >= 2 && RouteFromTo(points, neighbors, t, r[0], b) && InRange(points, t)
    && (points[t[|t| - 2]].x == points[b].x) == !horizontal
    && LineCost(PointsAt(points, t)) ==
      LineCost(PointsAt(points, r)) + GoingOn(PointsAt(points, r), points[b], horizontal)
  }

  ghost predicate ShowsNeighbors(points: seq<Point>, neighbors: seq<seq<nat>>, obstacles: seq<Rect>)
    requires ValidGraph(points, neighbors)
  {
    forall a: nat, b: nat :: a < |points| ==> (b in neighbors[a] <==> Neighbors(points, obstacles, a, b))
  }

  lemma {:induction false} CostNext(line: seq<Point>, b: Point, horizontal: bool)
    requires line != []
    requires if horizontal then MovesAlongX(line[|line| - 1], b) else MovesAlongY(line[|line| - 1], b)
    ensures LineCost(line + [b]) == LineCost(line) + GoingOn(line, b, horizontal)
  {
    assert (line + [b])[..|line|] == line;
  }

  lemma {:induction false} StepTo(points: seq<Point>, neighbors: seq<seq<nat>>, r: seq<nat>, b: nat, horizontal: bool)
    returns (t: seq<nat>)
    requires ValidGraph(points, neighbors) && Route(points, neighbors, r) && InRange(points, r) && b < |points|
    requires b in neighbors[r[|r| - 1]]
    requires var a := points[r[|r| - 1]];
      if horizontal then MovesAlongX(a, points[b]) else MovesAlongY(a, points[b])
    ensures CarriedOn(points, neighbors, r, t, b, horizontal)
  {
    t := r + [b];
    RouteExtend(points, neighbors, r, b);
    assert PointsAt(points, t) == PointsAt(points, r) + [points[b]];
    CostNext(PointsAt(points, r), points[b], horizontal);
  }

  /** Whatever lies in between, a segment that hits no obstacle can be walked. */
  lemma {:induction false} WalkOn(points: seq<Point>, neighbors: seq<seq<nat>>, obstacles: seq<Rect>, r: seq<nat>,
      b: nat, horizontal: bool)
    returns (t: seq<nat>)
    requires ValidGraph(points, neighbors) && ShowsNeighbors(points, neighbors, obstacles)
    requires Route(points, neighbors, r) && InRange(points, r) && b < |points|
    requires var a := points[r[|r| - 1]];
      (if horizontal then MovesAlongX(a, points[b]) else MovesAlongY(a, points[b])) && !Blocked(a, points[b], obstacles)
    ensures CarriedOn(points, neighbors, r, t, b, horizontal)
    decreases |Between(points, horizontal, r[|r| - 1], b)|
  {
    var a := r[|r| - 1];
    if c: nat :| StrictlyBetween(points, horizontal, a, c, b) {
      BetweenShrinks(points, horizontal, a, c, b);
      SmallerSet(Between(points, horizontal, a, c), Between(points, horizontal, a, b));
      SmallerSet(Between(points, horizontal, c, b), Between(points, horizontal, a, b));
      PartUnblocked(points, horizontal, a, c, b, obstacles);
      var s := WalkOn(points, neighbors, obstacles, r, c, horizontal);
      t := WalkOn(points, neighbors, obstacles, s, b, horizontal);
      StraightThrough(PointsAt(points, r), PointsAt(points, s), points[c], points[b], horizontal);
    } else {
      assert NextOnLine(points, horizontal, a, b);
      assert Neighbors(points, obstacles, a, b);
      t := StepTo(points, neighbors, r, b, horizontal);
    }
  }

  lemma {:induction false} StraightThrough(line: seq<Point>, further: seq<Point>, c: Point, b: Point, horizontal: bool)
    requires line != [] && |further| >= 2 && further[|further| - 1] == c
    requires (further[|further| - 2].x == c.x) == !horizontal
    requires var a := line[|line| - 1]; if horizontal
      then a.y == c.y == b.y && (a.x < c.x < b.x || b.x < c.x < a.x)
      else a.x == c.x == b.x && (a.y < c.y < b.y || b.y < c.y < a.y)
    ensures GoingOn(line, c, horizontal) + GoingOn(further, b, horizontal) == GoingOn(line, b, horizontal)
  {
  }

  ghost predicate Unblocked(line: seq<Point>, obstacles: seq<Rect>) {
    forall i :: 0 <= i < |line| - 1 ==> !Blocked(line[i], line[i + 1], obstacles)
  }

  /** t costs what the line costs, ends where it ends and arrives there the same way. */
  ghost predicate Follows(points: seq<Point>, neighbors: seq<seq<nat>>, t: seq<nat>, line: seq<Point>)
    requires ValidGraph(points, neighbors) && line != []
  {
    && Route(points, neighbors, t) && InRange(points, t) && points[t[0]] == line[0]
    && points[t[|t| - 1]] == line[|line| - 1] && LineCost(PointsAt(points, t)) == LineCost(line)
    && (|t| >= 2 <==> |line| >= 2)
    && (|line| >= 2 ==> (points[t[|t| - 2]].x == line[|line| - 1].x) == (line[|line| - 2].x == line[|line| - 1].x))
  }

  /** Every line along the axes between points of the graph that hits no obstacle is
      drawn by a route over visible neighbours of the same cost. */
  lemma {:induction false} LineIsWalked(points: seq<Point>, neighbors: seq<seq<nat>>, obstacles: seq<Rect>,
      line: seq<Point>)
    returns (t: seq<nat>)
    requires ValidGraph(points, neighbors) && ShowsNeighbors(points, neighbors, obstacles)
    requires line != [] && Moves(line) && Unblocked(line, obstacles) && forall i :: 0 <= i < |line| ==>
      line[i] in points
    ensures Follows(points, neighbors, t, line)
  {
    var n := |line| - 1;
    var b: nat :| b < |points| && points[b] == line[n];
    if n == 0 {
      t := [b];
      return;
    }
    var s := LineIsWalked(points, neighbors, obstacles, line[..n]);
    var horizontal := line[n - 1].x != line[n].x;
    assert MovesAlongX(line[n - 1], line[n - 1 + 1]) || MovesAlongY(line[n - 1], line[n - 1 + 1]);
    assert !Blocked(line[n - 1], line[n - 1 + 1], obstacles);
    t := WalkOn(points, neighbors, obstacles, s, b, horizontal);
    FollowsOn(points, neighbors, s, t, line, b, horizontal);
  }

  lemma {:induction false} FollowsOn(points: seq<Point>, neighbors: seq<seq<nat>>, s: seq<nat>, t: seq<nat>,
      line: seq<Point>, b: nat, horizontal: bool)
    requires ValidGraph(points, neighbors) && |line| > 1 && b < |points| && points[b] == line[|line| - 1]
    requires Follows(points, neighbors, s, line[..|line| - 1]) && CarriedOn(points, neighbors, s, t, b, horizontal)
    requires var a := line[|line| - 2]; if horizontal then MovesAlongX(a, points[b]) else MovesAlongY(a, points[b])
    ensures Follows(points, neighbors, t, line)
  {
    var n := |line| - 1;
    assert line == line[..n] + [line[n]];
    CostNext(line[..n], line[n], horizontal);
  }

  lemma {:induction false} ClearIsUnblocked(line: seq<Point>, obstacles: seq<Rect>)
    requires AllProper(obstacles) && Moves(line) && ClearOf(line, obstacles)
    ensures Unblocked(line, obstacles)
  {
    forall i, r | 0 <= i < |line| - 1 && r in obstacles
      ensures !SegmentIntersectsRect(line[i], line[i + 1], r)
    {
      SegmentIntersectsExact(line[i], line[i + 1], r);
      if p :| OnSegment(p, line[i], line[i + 1]) && StrictlyInside(p, r) {
        assert OnPiece(p, line, i);
      }
    }
  }

  /** A line along the grid that avoids the obstacles is a route of the visibility graph
      of the same cost. */
  lemma {:induction false} GridLineIsRoute(points: seq<Point>, neighbors: seq<seq<nat>>, a: nat, b: nat, start: Point,
      end: Point, obstacles: seq<Rect>, line: seq<Point>)
    returns (t: seq<nat>)
    requires VisibilityGraph(points, neighbors, start, end, obstacles) && AllProper(obstacles)
    requires a < |points| && b < |points| && points[a] == start && points[b] == end
    requires GridLine(line, start, end, obstacles)
    ensures RouteFromTo(points, neighbors, t, a, b) && InRange(points, t)
    ensures LineCost(PointsAt(points, t)) == LineCost(line)
  {
    ClearIsUnblocked(line, obstacles);
    t := LineIsWalked(points, neighbors, obstacles, line);
    assert t[0] == a && t[|t| - 1] == b;
  }

  /** A route of the visibility graph draws a line along the grid that avoids the
      obstacles. */
  lemma {:induction false} RouteIsGridLine(points: seq<Point>, neighbors: seq<seq<nat>>, a: nat, b: nat, start: Point,
      end: Point, obstacles: seq<Rect>, t: seq<nat>)
    requires VisibilityGraph(points, neighbors, start, end, obstacles)
    requires a < |points| && b < |points| && points[a] == start && points[b] == end
    requires RouteFromTo(points, neighbors, t, a, b) && InRange(points, t)
    ensures GridLine(PointsAt(points, t), start, end, obstacles)
  {
    var line := PointsAt(points, t);
    VisibleRouteIsClear(points, neighbors, obstacles, t);
    forall i | 0 <= i < |line| - 1
      ensures MovesAlongX(line[i], line[i + 1]) || MovesAlongY(line[i], line[i + 1])
    {
      assert t[i + 1] in neighbors[t[i]];
      assert Neighbors(points, obstacles, t[i], t[i + 1]) && points[t[i]] != points[t[i + 1]];
    }
    forall i | 0 <= i < |line|
      ensures OnGrid(line[i], start, end, obstacles) && Free(line[i], obstacles)
    {
      assert line[i] in points;
    }
  }
}
