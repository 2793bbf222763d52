/** Routes of workflow edges around node boxes: the search on the visibility graph, and
    the detour when the search cannot be used. */
module EdgeRouting {
  import opened Options
  import opened RouteSearch
  import opened RouteGeometry
  import opened Visibility
  import opened GridSuffices

  const NODE_WIDTH := 224.0
  const NODE_HEIGHT := 104.0
  const CLEARANCE := 18.0

  // ----- the route between two points -----

  ghost predicate Joins(route: seq<Point>, start: Point, end: Point) {
    route != [] && route[0] == start && route[|route| - 1] == end && AxisAlignedPath(route)
  }

  function MinOver(value: real, values: seq<real>): (m: real)
    ensures m <= value && (m == value || m in values) && forall v :: v in values ==> m <= v
  {
    if values == [] then value
    else
      var m := MinOver(value, values[1..]);
      assert values == [values[0]] + values[1..];
      Min(m, values[0])
  }

  function MaxOver(value: real, values: seq<real>): (m: real)
    ensures m >= value && (m == value || m in values) && forall v :: v in values ==> m >= v
  {
    if values == [] then value
    else
      var m := MaxOver(value, values[1..]);
      assert values == [values[0]] + values[1..];
      Max(m, values[0])
  }

  function Tops(obstacles: seq<Rect>): seq<real> {
    seq(|obstacles|, i requires 0 <= i < |obstacles| => obstacles[i].top)
  }

  function Bottoms(obstacles: seq<Rect>): seq<real> {
    seq(|obstacles|, i requires 0 <= i < |obstacles| => obstacles[i].bottom)
  }

  /** The height at which the detour crosses: above or below everything. */
  function OuterLevel(start: Point, end: Point, obstacles: seq<Rect>): real {
    var top := MinOver(Min(start.y, end.y), Tops(obstacles)) - CLEARANCE;
    var bottom := MaxOver(Max(start.y, end.y), Bottoms(obstacles)) + CLEARANCE;
    if Abs(start.y - top) + Abs(end.y - top) <= Abs(start.y - bottom) + Abs(end.y - bottom) then top else bottom
  }

  function FallbackOuterRoute(start: Point, end: Point, obstacles: seq<Rect>): seq<Point> {
    var y := OuterLevel(start, end, obstacles);
    SimplifyOrthogonalPoints([start, Point(start.x, y), Point(end.x, y), end])
  }

  /** 18 above the highest of the ends and the tops. */
  ghost predicate JustAbove(y: real, start: Point, end: Point, obstacles: seq<Rect>) {
    && y + 18.0 <= start.y && y + 18.0 <= end.y && (forall r :: r in obstacles ==> y + 18.0 <= r.top)
    && (y + 18.0 == start.y || y + 18.0 == end.y || exists r :: r in obstacles && y + 18.0 == r.top)
  }

  /** 18 below the lowest of the ends and the bottoms. */
  ghost predicate JustBelow(y: real, start: Point, end: Point, obstacles: seq<Rect>) {
    && y - 18.0 >= start.y && y - 18.0 >= end.y && (forall r :: r in obstacles ==> y - 18.0 >= r.bottom)
    && (y - 18.0 == start.y || y - 18.0 == end.y || exists r :: r in obstacles && y - 18.0 == r.bottom)
  }

  /** The nearer of the two, the one above when they are equally near. */
  ghost predicate CrossesAt(y: real, start: Point, end: Point, obstacles: seq<Rect>) {
    exists above, below :: NearerOf(y, above, below, start, end, obstacles)
  }

  ghost predicate NearerOf(y: real, above: real, below: real, start: Point, end: Point, obstacles: seq<Rect>) {
    && JustAbove(above, start, end, obstacles) && JustBelow(below, start, end, obstacles)
    && y == if (start.y - above) + (end.y - above) <= (below - start.y) + (below - end.y) then above else below
  }

  ghost predicate DetourAt(y: real, route: seq<Point>, start: Point, end: Point, obstacles: seq<Rect>) {
    && CrossesAt(y, start, end, obstacles)
    && route == SimplifyOrthogonalPoints([start, Point(start.x, y), Point(end.x, y), end])
  }

  /** Straight up or down from start, across, and straight to end. */
  ghost predicate Detour(route: seq<Point>, start: Point, end: Point, obstacles: seq<Rect>) {
    exists y :: DetourAt(y, route, start, end, obstacles)
  }

  lemma {:induction false} OuterLevelCrosses(start: Point, end: Point, obstacles: seq<Rect>)
    ensures CrossesAt(OuterLevel(start, end, obstacles), start, end, obstacles)
  {
    var tops, bottoms := Tops(obstacles), Bottoms(obstacles);
    var above := MinOver(Min(start.y, end.y), tops) - CLEARANCE;
    var below := MaxOver(Max(start.y, end.y), bottoms) + CLEARANCE;
    forall r | r in obstacles
      ensures above + 18.0 <= r.top && below - 18.0 >= r.bottom
    {
      var i :| 0 <= i < |obstacles| && obstacles[i] == r;
      assert tops[i] == r.top && bottoms[i] == r.bottom;
      assert r.top in tops && r.bottom in bottoms;
    }
    assert above + 18.0 in tops ==> exists r :: r in obstacles && above + 18.0 == r.top;
    assert below - 18.0 in bottoms ==> exists r :: r in obstacles && below - 18.0 == r.bottom;
    assert NearerOf(OuterLevel(start, end, obstacles), above, below, start, end, obstacles);
  }

  /** The detour joins the points, and its crossing part touches no obstacle's inside. */
  lemma {:induction false} FallbackJoins(start: Point, end: Point, obstacles: seq<Rect>)
    ensures Joins(FallbackOuterRoute(start, end, obstacles), start, end)
    ensures Detour(FallbackOuterRoute(start, end, obstacles), start, end, obstacles)
    ensures forall y, p: Point, r :: r in obstacles && p.y == y && CrossesAt(y, start, end, obstacles) ==>
      !StrictlyInside(p, r)
  {
    var y := OuterLevel(start, end, obstacles);
    SimplifyKeepsShape([start, Point(start.x, y), Point(end.x, y), end]);
    OuterLevelCrosses(start, end, obstacles);
    assert DetourAt(y, FallbackOuterRoute(start, end, obstacles), start, end, obstacles);
  }

  /** The route found by searching: no obstacle contains any of its points, and no
      route over the visibility graph costs less. */
  ghost predicate SearchedRoute(route: seq<Point>, start: Point, end: Point, obstacles: seq<Rect>) {
    exists points, neighbors, a: nat, b: nat, r :: BestVisible(points, neighbors, a, b, r, route, start, end, obstacles)
  }

  ghost predicate BestVisible(points: seq<Point>, neighbors: seq<seq<nat>>, a: nat, b: nat, r: seq<nat>,
      route: seq<Point>, start: Point, end: Point, obstacles: seq<Rect>) {
    && VisibilityGraph(points, neighbors, start, end, obstacles) && a < |points| && b < |points| &&
      points[a] == start && points[b] == end
    && CheapestRoute(points, neighbors, a, b, r) && InRange(points, r) && route == PointsAt(points, r)
  }

  /** On the visibility graph no route leads from start to end. */
  ghost predicate NoVisibleRoute(start: Point, end: Point, obstacles: seq<Rect>) {
    exists points, neighbors, a: nat, b: nat :: Disconnected(points, neighbors, a, b, start, end, obstacles)
  }

  ghost predicate Disconnected(points: seq<Point>, neighbors: seq<seq<nat>>, a: nat, b: nat, start: Point, end: Point,
      obstacles: seq<Rect>) {
    && VisibilityGraph(points, neighbors, start, end, obstacles) && a < |points| && b < |points| &&
      points[a] == start && points[b] == end
    && !exists r :: RouteFromTo(points, neighbors, r, a, b)
  }

  lemma {:induction false} BestVisibleIsClear(points: seq<Point>, neighbors: seq<seq<nat>>, a: nat, b: nat,
      r: seq<nat>, route: seq<Point>, start: Point, end: Point, obstacles: seq<Rect>)
    requires BestVisible(points, neighbors, a, b, r, route, start, end, obstacles)
    ensures Joins(route, start, end) && ClearOf(route, obstacles)
  {
    VisibleRouteIsClear(points, neighbors, obstacles, r);
  }

  lemma {:induction false} SearchedIsClear(route: seq<Point>, start: Point, end: Point, obstacles: seq<Rect>)
    requires SearchedRoute(route, start, end, obstacles)
    ensures Joins(route, start, end) && ClearOf(route, obstacles)
  {
    var points, neighbors, a: nat, b: nat, r :| BestVisible(points, neighbors, a, b, r, route, start, end, obstacles);
    BestVisibleIsClear(points, neighbors, a, b, r, route, start, end, obstacles);
  }

  /** The line avoids the obstacles, and no other that does so costs less. */
  ghost predicate Cheapest(route: seq<Point>, start: Point, end: Point, obstacles: seq<Rect>) {
    && Avoids(route, start, end, obstacles)
    && forall line :: Avoids(line, start, end, obstacles) ==> LineCost(route) <= LineCost(line)
  }

  /** The search undercuts every line along the axes, not only the routes it looks at. */
  lemma {:induction false} SearchedIsCheapest(route: seq<Point>, start: Point, end: Point, obstacles: seq<Rect>)
    requires AllProper(obstacles) && SearchedRoute(route, start, end, obstacles)
    ensures Cheapest(route, start, end, obstacles)
  {
    var points, neighbors, a: nat, b: nat, r :| BestVisible(points, neighbors, a, b, r, route, start, end, obstacles);
    RouteIsGridLine(points, neighbors, a, b, start, end, obstacles, r);
    forall line | Avoids(line, start, end, obstacles)
      ensures LineCost(route) <= LineCost(line)
    {
      var g := GridIsEnough(line, start, end, obstacles);
      var t := GridLineIsRoute(points, neighbors, a, b, start, end, obstacles, g);
    }
  }

  lemma {:induction false} NoVisibleRouteMeansNoLine(start: Point, end: Point, obstacles: seq<Rect>, line: seq<Point>)
    requires AllProper(obstacles) && NoVisibleRoute(start, end, obstacles)
    ensures !Avoids(line, start, end, obstacles)
  {
    var points, neighbors, a: nat, b: nat :| Disconnected(points, neighbors, a, b, start, end, obstacles);
    if Avoids(line, start, end, obstacles) {
      var g := GridIsEnough(line, start, end, obstacles);
      var t := GridLineIsRoute(points, neighbors, a, b, start, end, obstacles, g);
    }
  }

  /** A cheapest of all lines along the axes that avoid the obstacles when there is one, and
      the detour when there is none. */
  method RouteBetween(start: Point, end: Point, obstacles: seq<Rect>) returns (route: seq<Point>, ghost searched: bool)
    ensures Joins(route, start, end)
    ensures searched ==> SearchedRoute(route, start, end, obstacles) && ClearOf(route, obstacles)
    ensures !searched ==> Detour(route, start, end, obstacles)
    ensures !searched ==>
      !Free(start, obstacles) || !Free(end, obstacles) || NoVisibleRoute(start, end, obstacles)
    ensures AllProper(obstacles) ==> (searched <==> exists line :: Avoids(line, start, end, obstacles))
    ensures AllProper(obstacles) && searched ==> Cheapest(route, start, end, obstacles)
  {
    route, searched := SearchBetween(start, end, obstacles);
    if AllProper(obstacles) {
      if searched { SearchedIsCheapest(route, start, end, obstacles); }
      forall line | Avoids(line, start, end, obstacles)
        ensures searched
      {
        assert line[0] == start && line[|line| - 1] == end;
        if NoVisibleRoute(start, end, obstacles) { NoVisibleRouteMeansNoLine(start, end, obstacles, line); }
      }
    }
  }

  /** The searched route, or the outer detour when an end is inside an obstacle or no
      route exists. */
  method SearchBetween(start: Point, end: Point, obstacles: seq<Rect>) returns (route: seq<Point>, ghost searched: bool)
    ensures Joins(route, start, end)
    ensures searched ==> SearchedRoute(route, start, end, obstacles) && ClearOf(route, obstacles)
    ensures !searched ==> Detour(route, start, end, obstacles)
    ensures !Free(start, obstacles) || !Free(end, obstacles) ==> !searched
    ensures !searched ==>
      !Free(start, obstacles) || !Free(end, obstacles) || NoVisibleRoute(start, end, obstacles)
  {
    var points, index := Grid(start, end, obstacles);
    FallbackJoins(start, end, obstacles);
    if start !in index || end !in index {
      return FallbackOuterRoute(start, end, obstacles), false;
    }
    var neighbors := BuildVisibilityNeighbors(points, obstacles);
    var path := SearchOrthogonalPath(points, neighbors, index[start], index[end]);
    assert forall p :: p in points <==> p in index;
    assert VisibilityGraph(points, neighbors, start, end, obstacles);
    if path.None? {
      assert Disconnected(points, neighbors, index[start], index[end], start, end, obstacles);
      return FallbackOuterRoute(start, end, obstacles), false;
    }
    ghost var r :| CheapestRoute(points, neighbors, index[start], index[end], r) && path.value == PointsAt(points, r);
    assert BestVisible(points, neighbors, index[start], index[end], r, path.value, start, end, obstacles);
    SearchedIsClear(path.value, start, end, obstacles);
    return path.value, true;
  }

  // ----- the route of one edge -----

  function SourcePort(position: Point): Point {
    Point(position.x + NODE_WIDTH, position.y + NODE_HEIGHT / 2.0)
  }

  function TargetPort(position: Point): Point {
    Point(position.x, position.y + NODE_HEIGHT / 2.0)
  }

  /** All but both ends. */
  function Inner(routed: seq<Point>): seq<Point> {
    if |routed| <= 2 then [] else routed[1..|routed| - 1]
  }

  lemma {:induction false} JoinPaths(left: seq<Point>, right: seq<Point>, p: Point)
    requires left != [] && right != [] && left[|left| - 1] == right[0]
    ensures AxisAlignedPath(left) && AxisAlignedPath(right) ==> AxisAlignedPath(left + right[1..])
    ensures OnPath(p, left + right[1..]) ==> OnPath(p, left) || OnPath(p, right)
  {
    var whole := left + right[1..];
    forall i | 0 <= i < |whole| - 1
      ensures i < |left| - 1 ==> whole[i] == left[i] && whole[i + 1] == left[i + 1]
      ensures i >= |left| - 1 ==> whole[i] == right[i - (|left| - 1)] && whole[i + 1] == right[i - (|left| - 1) + 1]
    {
    }
    if OnPath(p, whole) {
      var i :| OnPiece(p, whole, i);
      if i < |left| - 1 { assert OnPiece(p, left, i); } else { assert OnPiece(p, right, i - (|left| - 1)); }
    }
  }

  function LeavingStub(source: Point, outside: Point): seq<Point> {
    [source, Point(outside.x, source.y), outside]
  }

  function ArrivingStub(outside: Point, target: Point): seq<Point> {
    [outside, Point(outside.x, target.y), target]
  }

  /** The list of points handed to simplification is the stub out of the source, the
      route, and the stub into the target, joined at their shared points; when the
      route is a single point, that point is there twice. */
  lemma {:induction false} EdgePointsJoin(source: Point, outside: Point, routed: seq<Point>, outside': Point,
      target: Point, p: Point)
    requires Joins(routed, outside, outside')
    ensures var points := LeavingStub(source, outside) + Inner(routed) + ArrivingStub(outside', target);
      AxisAlignedPath(points) &&
      (OnPath(p, points) ==>
        OnPath(p, LeavingStub(source, outside)) || OnPath(p, routed) || OnPath(p, ArrivingStub(outside', target)) ||
        (|routed| == 1 && p == outside))
  {
    var leaving, arriving := LeavingStub(source, outside), ArrivingStub(outside', target);
    var middle := if |routed| == 1 then [outside, outside'] else routed;
    assert leaving + Inner(routed) + arriving == leaving + middle[1..] + arriving[1..];
    JoinPaths(leaving, middle, p);
    JoinPaths(leaving + middle[1..], arriving, p);
    if |routed| == 1 && OnPath(p, middle) {
      var i :| OnPiece(p, middle, i);
      assert p == outside;
    }
  }

  function EdgePoints(source: Point, outside: Point, routed: seq<Point>, outside': Point, target: Point): seq<Point> {
    LeavingStub(source, outside) + Inner(routed) + ArrivingStub(outside', target)
  }

  lemma {:induction false} EdgeJoins(source: Point, outside: Point, routed: seq<Point>, outside': Point, target: Point)
    requires Joins(routed, outside, outside')
    ensures Joins(SimplifyOrthogonalPoints(EdgePoints(source, outside, routed, outside', target)), source, target)
  {
    EdgePointsJoin(source, outside, routed, outside', target, source);
    SimplifyKeepsShape(EdgePoints(source, outside, routed, outside', target));
  }

  lemma {:induction false} EdgeIsClear(source: Point, outside: Point, routed: seq<Point>, outside': Point,
      target: Point, obstacles: seq<Rect>, p: Point, r: Rect)
    requires Joins(routed, outside, outside') && ClearOf(routed, obstacles) && r in obstacles && StrictlyInside(p, r)
    requires OnPath(p, SimplifyOrthogonalPoints(EdgePoints(source, outside, routed, outside', target)))
    ensures OnPath(p, LeavingStub(source, outside)) || OnPath(p, ArrivingStub(outside', target))
  {
    var points := EdgePoints(source, outside, routed, outside', target);
    EdgePointsJoin(source, outside, routed, outside', target, p);
    SimplifyAddsNothing(points, p);
    if |routed| == 1 && p == outside { assert OnPiece(p, LeavingStub(source, outside), 1); }
  }

  function SourceOutside(sourcePosition: Point, laneOffset: real): Point {
    Point(SourcePort(sourcePosition).x + CLEARANCE, SourcePort(sourcePosition).y + laneOffset)
  }

  function TargetOutside(targetPosition: Point, laneOffset: real): Point {
    Point(TargetPort(targetPosition).x - CLEARANCE, TargetPort(targetPosition).y + laneOffset)
  }

  /** Inside an obstacle only where a stub is. */
  ghost predicate ClearApartFromStubs(points: seq<Point>, obstacles: seq<Rect>, leaving: seq<Point>,
      arriving: seq<Point>) {
    forall p, r {:trigger StrictlyInside(p, r)} :: OnPath(p, points) && r in obstacles && StrictlyInside(p, r) ==>
      OnPath(p, leaving) || OnPath(p, arriving)
  }

  lemma {:induction false} EdgeClear(source: Point, outside: Point, routed: seq<Point>, outside': Point,
      target: Point, obstacles: seq<Rect>)
    requires Joins(routed, outside, outside') && ClearOf(routed, obstacles)
    ensures ClearApartFromStubs(SimplifyOrthogonalPoints(EdgePoints(source, outside, routed, outside', target)),
      obstacles, LeavingStub(source, outside), ArrivingStub(outside', target))
  {
    var points := SimplifyOrthogonalPoints(EdgePoints(source, outside, routed, outside', target));
    forall p, r | OnPath(p, points) && r in obstacles && StrictlyInside(p, r)
      ensures OnPath(p, LeavingStub(source, outside)) || OnPath(p, ArrivingStub(outside', target))
    {
      EdgeIsClear(source, outside, routed, outside', target, obstacles, p, r);
    }
  }

  /** The line of an edge: out of the source, along the route without its ends, into the
      target, with repeats and points on the way straight ahead left out. */
  ghost predicate Drawn(points: seq<Point>, leaving: seq<Point>, routed: seq<Point>, arriving: seq<Point>) {
    points == SimplifyOrthogonalPoints(
      leaving + (if |routed| > 2 then routed[1..|routed| - 1] else []) + arriving)
  }

  /** A cheapest line that avoids the obstacles if there is one, otherwise the detour. */
  ghost predicate BestOrDetour(routed: seq<Point>, searched: bool, start: Point, end: Point, obstacles: seq<Rect>) {
    && (searched <==> exists line :: Avoids(line, start, end, obstacles))
    && (searched ==> Cheapest(routed, start, end, obstacles))
    && (!searched ==> Detour(routed, start, end, obstacles))
  }

  method RouteOutside(source: Point, outside: Point, outside': Point, target: Point, obstacles: seq<Rect>)
    returns (points: seq<Point>, ghost routed: seq<Point>, ghost searched: bool)
    ensures Joins(points, source, target) && Joins(routed, outside, outside')
    ensures Drawn(points, LeavingStub(source, outside), routed, ArrivingStub(outside', target))
    ensures searched ==>
      ClearApartFromStubs(points, obstacles, LeavingStub(source, outside), ArrivingStub(outside', target))
    ensures searched || !Free(outside, obstacles) || !Free(outside', obstacles) ||
      NoVisibleRoute(outside, outside', obstacles)
    ensures AllProper(obstacles) ==> BestOrDetour(routed, searched, outside, outside', obstacles)
  {
    var line;
    line, searched := RouteBetween(outside, outside', obstacles);
    EdgeJoins(source, outside, line, outside', target);
    if searched { EdgeClear(source, outside, line, outside', target, obstacles); }
    points := SimplifyOrthogonalPoints(EdgePoints(source, outside, line, outside', target));
    routed := line;
  }

  /** Out of the middle of the right side of the 224 by 104 box at p: 18 straight on, then
      up or down to the lane. */
  ghost function Leaving(p: Point, lane: real): seq<Point> {
    [Point(p.x + 224.0, p.y + 52.0), Point(p.x + 242.0, p.y + 52.0), Point(p.x + 242.0, p.y + 52.0 + lane)]
  }

  /** From the lane, 18 before the box at p, into the middle of its left side. */
  ghost function Arriving(p: Point, lane: real): seq<Point> {
    [Point(p.x - 18.0, p.y + 52.0 + lane), Point(p.x - 18.0, p.y + 52.0), Point(p.x, p.y + 52.0)]
  }

  /** An axis-aligned line from the middle of the source's right side to the middle of
      the target's left side. Between its two stubs it is a cheapest of all lines
      along the axes that avoid the obstacles, or the detour when there is none; in the first
      case only the stubs can enter an obstacle. */
  method RouteSingleEdge(sourcePosition: Point, targetPosition: Point, obstacles: seq<Rect>, laneOffset: real)
    returns (points: seq<Point>, ghost routed: seq<Point>, ghost searched: bool)
    ensures Joins(points, Leaving(sourcePosition, laneOffset)[0], Arriving(targetPosition, laneOffset)[2])
    ensures Joins(routed, Leaving(sourcePosition, laneOffset)[2], Arriving(targetPosition, laneOffset)[0])
    ensures Drawn(points, Leaving(sourcePosition, laneOffset), routed, Arriving(targetPosition, laneOffset))
    ensures searched ==> ClearApartFromStubs(points, obstacles, Leaving(sourcePosition, laneOffset),
      Arriving(targetPosition, laneOffset))
    ensures AllProper(obstacles) ==> BestOrDetour(routed, searched, Leaving(sourcePosition, laneOffset)[2],
      Arriving(targetPosition, laneOffset)[0], obstacles)
    ensures searched || !Free(Leaving(sourcePosition, laneOffset)[2], obstacles) ||
      !Free(Arriving(targetPosition, laneOffset)[0], obstacles) ||
      NoVisibleRoute(Leaving(sourcePosition, laneOffset)[2], Arriving(targetPosition, laneOffset)[0], obstacles)
  {
    var source, target := SourcePort(sourcePosition), TargetPort(targetPosition);
    var outside, outside' := SourceOutside(sourcePosition, laneOffset), TargetOutside(targetPosition, laneOffset);
    assert LeavingStub(source, outside) == Leaving(sourcePosition, laneOffset);
    assert ArrivingStub(outside', target) == Arriving(targetPosition, laneOffset);
    assert outside == Leaving(sourcePosition, laneOffset)[2] && outside' == Arriving(targetPosition, laneOffset)[0];
    points, routed, searched := RouteOutside(source, outside, outside', target, obstacles);
  }
}
