/** The grid of the sides of all boxes is enough: every line along the axes that avoids
    the boxes can be moved onto the grid, piece by piece, without costing more. */
module GridSuffices {
  import opened RouteSearch
  import opened RouteGeometry
  import opened Visibility

  ghost predicate AllFree(line: seq<Point>, obstacles: seq<Rect>) {
    forall p :: p in line ==> Free(p, obstacles)
  }

  // ----- moving all points of one column to another -----

  ghost function Slid(x: real, v: real, w: real): real {
    if x == v then w else x
  }

  ghost function SlidPoint(p: Point, v: real, w: real): Point {
    Point(Slid(p.x, v, w), p.y)
  }

  ghost function SlidLine(line: seq<Point>, v: real, w: real): (s: seq<Point>)
    ensures |s| == |line| && forall i :: 0 <= i < |s| ==> s[i] == SlidPoint(line[i], v, w)
  {
    seq(|line|, i requires 0 <= i < |line| => SlidPoint(line[i], v, w))
  }

  /** x is v, or not passed on the way from v to w. */
  ghost predicate NotPassed(x: real, v: real, w: real) {
    (x < v ==> x <= w) && (x > v ==> x >= w)
  }

  /** How much longer a piece gets for each step its points at v make to the right. */
  ghost function Pull(a: real, b: real, v: real): int {
    if a == v && b != v then if b < v then 1 else -1
    else if b == v && a != v then if a < v then 1 else -1
    else 0
  }

  ghost function Slope(line: seq<Point>, v: real): int {
    if |line| <= 1 then 0
    else
      var n := |line| - 1;
      Slope(line[..n], v) + Pull(line[n - 1].x, line[n].x, v)
  }

  /** k steps of d each, backwards if k is negative. */
  ghost function Steps(k: int, d: real): real
    decreases if k < 0 then -k else k
  {
    if k == 0 then 0.0 else if k > 0 then Steps(k - 1, d) + d else Steps(k + 1, d) - d
  }

  lemma {:induction false} StepsNext(k: int, d: real)
    ensures Steps(k + 1, d) == Steps(k, d) + d
  {
  }

  lemma {:induction false} StepsSign(k: int, d: real)
    requires (k >= 0 && d <= 0.0) || (k <= 0 && d >= 0.0)
    ensures Steps(k, d) <= 0.0
    decreases if k < 0 then -k else k
  {
    if k > 0 { StepsSign(k - 1, d); } else if k < 0 { StepsSign(k + 1, d); }
  }

  lemma {:induction false} GapSlid(a: real, b: real, v: real, w: real)
    requires NotPassed(a, v, w) && NotPassed(b, v, w)
    ensures var gain, pull := Gap(Slid(a, v, w), Slid(b, v, w)) - Gap(a, b), Pull(a, b, v);
      (pull == 0 && gain == 0.0) || (pull == 1 && gain == w - v) || (pull == -1 && gain == v - w)
  {
  }

  /** The last piece of the line is vertical. */
  ghost predicate EndsVertical(line: seq<Point>)
    requires |line| >= 2
  {
    line[|line| - 2].x == line[|line| - 1].x
  }

  /** The slid line without repeats costs at most the bound; less by a turn if it ends in
      another direction. */
  ghost predicate CostsAtMost(slid: seq<Point>, line: seq<Point>, bound: real) {
    && |slid| <= |line| && LineCost(slid) <= bound
    && (|slid| >= 2 && |line| >= 2 && EndsVertical(slid) != EndsVertical(line) ==> LineCost(slid) + 24.0 <= bound)
  }

  lemma {:induction false} CostSnoc(line: seq<Point>, b: Point)
    requires line != []
    ensures var a := line[|line| - 1];
      LineCost(line + [b]) == LineCost(line) + Gap(a.x, b.x) + Gap(a.y, b.y) +
        if |line| >= 2 && EndsVertical(line) != (a.x == b.x) then 24.0 else 0.0
  {
    assert (line + [b])[..|line|] == line;
  }

  /** One more piece, which becomes longer by the pull; if it vanishes only a turn can be
      saved. */
  lemma {:induction false} SlidStep(d: seq<Point>, init: seq<Point>, b: Point, v: real, w: real, bound: real)
    requires d != [] && init != [] && CostsAtMost(d, init, bound)
    requires var a := init[|init| - 1];
      d[|d| - 1] == SlidPoint(a, v, w) && (MovesAlongX(a, b) || MovesAlongY(a, b))
    ensures var a := init[|init| - 1];
      CostsAtMost(if SlidPoint(b, v, w) == d[|d| - 1] then d else d + [SlidPoint(b, v, w)], init + [b],
        bound + LineCost(init + [b]) - LineCost(init) + Gap(Slid(a.x, v, w), Slid(b.x, v, w)) - Gap(a.x, b.x))
  {
    CostSnoc(init, b);
    CostSnoc(d, SlidPoint(b, v, w));
  }

  /** How much longer the line becomes. */
  ghost function Drift(line: seq<Point>, v: real, w: real): real {
    if |line| <= 1 then 0.0
    else
      var n := |line| - 1;
      Drift(line[..n], v, w) + Gap(Slid(line[n - 1].x, v, w), Slid(line[n].x, v, w)) - Gap(line[n - 1].x, line[n].x)
  }

  lemma {:induction false} DriftIsSlope(line: seq<Point>, v: real, w: real)
    requires forall i :: 0 <= i < |line| ==> NotPassed(line[i].x, v, w)
    ensures Drift(line, v, w) == Steps(Slope(line, v), w - v)
  {
    if |line| > 1 {
      var n := |line| - 1;
      DriftIsSlope(line[..n], v, w);
      GapSlid(line[n - 1].x, line[n].x, v, w);
      StepsNext(Slope(line[..n], v), w - v);
      StepsNext(Slope(line[..n], v) - 1, w - v);
    }
  }

  lemma {:induction false} DropRepeatsNext(points: seq<Point>)
    requires |points| > 1
    ensures var n := |points| - 1; var d := DropRepeats(points[..n]);
      d != [] && d[|d| - 1] == points[n - 1] &&
      DropRepeats(points) == if points[n] == points[n - 1] then d else d + [points[n]]
  {
    DropRepeatsOk(points[..|points| - 1]);
  }

  lemma {:induction false} SlidNext(line: seq<Point>, v: real, w: real)
    requires |line| > 1
    ensures var n := |line| - 1;
      var init, a, b := line[..n], line[n - 1], line[n];
      var d := DropRepeats(SlidLine(init, v, w));
      && line == init + [b] && d != [] && d[|d| - 1] == SlidPoint(a, v, w)
      && DropRepeats(SlidLine(line, v, w)) ==
        (if SlidPoint(b, v, w) == d[|d| - 1] then d else d + [SlidPoint(b, v, w)])
      && LineCost(line) + Drift(line, v, w) == LineCost(init) + Drift(init, v, w) + LineCost(init + [b]) -
        LineCost(init) + Gap(Slid(a.x, v, w), Slid(b.x, v, w)) - Gap(a.x, b.x)
  {
    var n := |line| - 1;
    assert SlidLine(line, v, w)[..n] == SlidLine(line[..n], v, w) && line == line[..n] + [line[n]];
    DropRepeatsNext(SlidLine(line, v, w));
  }

  lemma {:induction false} SlidCostNext(line: seq<Point>, slid: seq<Point>, bound: real, v: real, w: real)
    requires |line| > 1 && Moves(line)
    requires slid == DropRepeats(SlidLine(line, v, w)) && bound == LineCost(line) + Drift(line, v, w)
    requires var init := line[..|line| - 1];
      CostsAtMost(DropRepeats(SlidLine(init, v, w)), init, LineCost(init) + Drift(init, v, w))
    ensures CostsAtMost(slid, line, bound)
  {
    var n := |line| - 1;
    var init, b := line[..n], line[n];
    SlidNext(line, v, w);
    assert MovesAlongX(line[n - 1], line[n - 1 + 1]) || MovesAlongY(line[n - 1], line[n - 1 + 1]);
    SlidStep(DropRepeats(SlidLine(init, v, w)), init, b, v, w, LineCost(init) + Drift(init, v, w));
  }

  /** Sliding changes the cost of a line by its drift, and drops turns at most. */
  lemma {:induction false} SlidCost(line: seq<Point>, v: real, w: real)
    requires line != [] && Moves(line)
    ensures CostsAtMost(DropRepeats(SlidLine(line, v, w)), line, LineCost(line) + Drift(line, v, w))
  {
    if |line| > 1 {
      SlidCost(line[..|line| - 1], v, w);
      SlidCostNext(line, DropRepeats(SlidLine(line, v, w)), LineCost(line) + Drift(line, v, w), v, w);
    }
  }

  // ----- the slid line avoids what the line avoids -----

  lemma {:induction false} SegmentSlid(a: Point, b: Point, v: real, w: real, r: Rect)
    requires MovesAlongX(a, b) || MovesAlongY(a, b)
    requires !SegmentIntersectsRect(a, b, r)
    requires v != r.left && v != r.right && NotPassed(r.left, v, w) && NotPassed(r.right, v, w)
    ensures SlidPoint(a, v, w) == SlidPoint(b, v, w) ||
      !SegmentIntersectsRect(SlidPoint(a, v, w), SlidPoint(b, v, w), r)
  {
  }

  /** v is no side, and no side is passed on the way to w. */
  ghost predicate NoSidePassed(obstacles: seq<Rect>, v: real, w: real) {
    forall r :: r in obstacles ==>
      v != r.left && v != r.right && NotPassed(r.left, v, w) && NotPassed(r.right, v, w)
  }

  lemma {:induction false} PieceSlid(a: Point, b: Point, v: real, w: real, obstacles: seq<Rect>)
    requires (MovesAlongX(a, b) || MovesAlongY(a, b)) && !Blocked(a, b, obstacles) && NoSidePassed(obstacles, v, w)
    ensures SlidPoint(a, v, w) == SlidPoint(b, v, w) || !Blocked(SlidPoint(a, v, w), SlidPoint(b, v, w), obstacles)
  {
    forall r | r in obstacles
      ensures SlidPoint(a, v, w) == SlidPoint(b, v, w) ||
        !SegmentIntersectsRect(SlidPoint(a, v, w), SlidPoint(b, v, w), r)
    {
      SegmentSlid(a, b, v, w, r);
    }
  }

  lemma {:induction false} UnblockedNext(d: seq<Point>, a: Point, b: Point, v: real, w: real, obstacles: seq<Rect>)
    requires d != [] && d[|d| - 1] == SlidPoint(a, v, w) && Unblocked(d, obstacles)
    requires (MovesAlongX(a, b) || MovesAlongY(a, b)) && !Blocked(a, b, obstacles) && NoSidePassed(obstacles, v, w)
    ensures Unblocked(if SlidPoint(b, v, w) == d[|d| - 1] then d else d + [SlidPoint(b, v, w)], obstacles)
  {
    PieceSlid(a, b, v, w, obstacles);
  }

  lemma {:induction false} SlidUnblockedNext(line: seq<Point>, d: seq<Point>, e: seq<Point>, v: real, w: real,
      obstacles: seq<Rect>)
    requires |line| > 1 && Moves(line) && Unblocked(line, obstacles) && NoSidePassed(obstacles, v, w)
    requires d != [] && d[|d| - 1] == SlidPoint(line[|line| - 2], v, w) && Unblocked(d, obstacles)
    requires var b := SlidPoint(line[|line| - 1], v, w); e == if b == d[|d| - 1] then d else d + [b]
    ensures Unblocked(e, obstacles)
  {
    var n := |line| - 1;
    assert !Blocked(line[n - 1], line[n - 1 + 1], obstacles);
    assert MovesAlongX(line[n - 1], line[n - 1 + 1]) || MovesAlongY(line[n - 1], line[n - 1 + 1]);
    UnblockedNext(d, line[n - 1], line[n], v, w, obstacles);
  }

  lemma {:induction false} PrefixUnblocked(line: seq<Point>, n: nat, obstacles: seq<Rect>)
    requires n <= |line| && Moves(line) && Unblocked(line, obstacles)
    ensures Moves(line[..n]) && Unblocked(line[..n], obstacles)
  {
  }

  lemma {:induction false} SlidUnblocked(line: seq<Point>, v: real, w: real, obstacles: seq<Rect>)
    requires line != [] && Moves(line) && Unblocked(line, obstacles) && NoSidePassed(obstacles, v, w)
    ensures Unblocked(DropRepeats(SlidLine(line, v, w)), obstacles)
  {
    if |line| > 1 {
      var init := line[..|line| - 1];
      PrefixUnblocked(line, |line| - 1, obstacles);
      SlidUnblocked(init, v, w, obstacles);
      SlidNext(line, v, w);
      SlidUnblockedNext(line, DropRepeats(SlidLine(init, v, w)), DropRepeats(SlidLine(line, v, w)), v, w, obstacles);
    }
  }

  lemma {:induction false} DropRepeatsKeepsPoints(points: seq<Point>)
    ensures forall p :: p in DropRepeats(points) ==> p in points
  {
    if |points| > 1 {
      DropRepeatsKeepsPoints(points[..|points| - 1]);
    }
  }

  lemma {:induction false} SlidFree(line: seq<Point>, v: real, w: real, obstacles: seq<Rect>)
    requires AllFree(line, obstacles) && NoSidePassed(obstacles, v, w)
    ensures AllFree(SlidLine(line, v, w), obstacles)
  {
    forall p | p in SlidLine(line, v, w)
      ensures Free(p, obstacles)
    {
      var i :| 0 <= i < |line| && p == SlidPoint(line[i], v, w);
      assert line[i] in line;
    }
  }

  lemma {:induction false} SlidMoves(line: seq<Point>, v: real, w: real)
    requires line != [] && Moves(line)
    ensures Moves(DropRepeats(SlidLine(line, v, w)))
  {
    var slid := SlidLine(line, v, w);
    forall i | 0 <= i < |slid| - 1
      ensures AxisAligned(slid[i], slid[i + 1])
    {
      assert MovesAlongX(line[i], line[i + 1]) || MovesAlongY(line[i], line[i + 1]);
    }
    DropRepeatsOk(slid);
    var d := DropRepeats(slid);
    forall i | 0 <= i < |d| - 1
      ensures MovesAlongX(d[i], d[i + 1]) || MovesAlongY(d[i], d[i + 1])
    {
      assert AxisAligned(d[i], d[i + 1]) && d[i] != d[i + 1];
    }
  }

  // ----- where to -----

  ghost function Xs(line: seq<Point>): set<real> {
    set p | p in line :: p.x
  }

  ghost function Ys(line: seq<Point>): set<real> {
    set p | p in line :: p.y
  }

  lemma {:induction false} NearestAbove(s: set<real>, v: real, x: real) returns (w: real)
    requires x in s && x > v
    ensures w in s && w > v && forall y :: y in s && y > v ==> y >= w
    decreases s
  {
    if y :| y in s && v < y < x {
      w := NearestAbove(s - {x}, v, y);
      assert w <= y && forall z :: z in s ==> z == x || z in s - {x};
    } else {
      w := x;
    }
  }

  lemma {:induction false} NearestBelow(s: set<real>, v: real, x: real) returns (w: real)
    requires x in s && x < v
    ensures w in s && w < v && forall y :: y in s && y < v ==> y <= w
    decreases s
  {
    if y :| y in s && x < y < v {
      w := NearestBelow(s - {x}, v, y);
      assert w >= y && forall z :: z in s ==> z == x || z in s - {x};
    } else {
      w := x;
    }
  }

  /** At the edge of a line everything pulls inwards. */
  lemma {:induction false} SlopeAtEdge(line: seq<Point>, v: real)
    ensures (forall i :: 0 <= i < |line| ==> line[i].x >= v) ==> Slope(line, v) <= 0
    ensures (forall i :: 0 <= i < |line| ==> line[i].x <= v) ==> Slope(line, v) >= 0
  {
    if |line| > 1 { SlopeAtEdge(line[..|line| - 1], v); }
  }

  /** A place next to v, of the line or the grid, where sliding does not lengthen the line. */
  lemma {:induction false} Target(line: seq<Point>, grid: set<real>, v: real) returns (w: real)
    requires line != [] && line[0].x in grid && v !in grid
    ensures w in Xs(line) + grid && w != v && forall x :: x in Xs(line) + grid ==> NotPassed(x, v, w)
    ensures Drift(line, v, w) <= 0.0
  {
    var all, slope, start := Xs(line) + grid, Slope(line, v), line[0].x;
    SlopeAtEdge(line, v);
    assert forall i :: 0 <= i < |line| ==> line[i] in line && line[i].x in all;
    if slope >= 0 && exists x :: x in all && x < v {
      var x :| x in all && x < v;
      w := NearestBelow(all, v, x);
    } else {
      assert start in all;
      var x :| x in all && x > v;
      w := NearestAbove(all, v, x);
    }
    DriftIsSlope(line, v, w);
    StepsSign(slope, w - v);
  }

  // ----- onto the grid in one direction -----

  ghost predicate HasSides(grid: set<real>, obstacles: seq<Rect>) {
    forall r :: r in obstacles ==> r.left in grid && r.right in grid
  }

  ghost predicate OpenLine(line: seq<Point>, obstacles: seq<Rect>) {
    line != [] && Moves(line) && Unblocked(line, obstacles) && AllFree(line, obstacles)
  }

  /** g has the ends of the line, avoids what it avoids, costs no more and uses none but its
      rows. */
  ghost predicate NoWorse(g: seq<Point>, line: seq<Point>, obstacles: seq<Rect>)
    requires line != []
  {
    && OpenLine(g, obstacles) && g[0] == line[0] && g[|g| - 1] == line[|line| - 1]
    && LineCost(g) <= LineCost(line) && Ys(g) <= Ys(line)
  }

  lemma {:induction false} SlidValues(line: seq<Point>, v: real, w: real)
    ensures Xs(SlidLine(line, v, w)) <= Xs(line) - {v} + {w} && Ys(SlidLine(line, v, w)) <= Ys(line)
  {
    forall p | p in SlidLine(line, v, w)
      ensures (p.x == w || (p.x in Xs(line) && p.x != v)) && p.y in Ys(line)
    {
      var i :| 0 <= i < |line| && p == SlidPoint(line[i], v, w);
      assert line[i] in line;
    }
  }

  lemma {:induction false} DroppedValues(points: seq<Point>)
    ensures Xs(DropRepeats(points)) <= Xs(points) && Ys(DropRepeats(points)) <= Ys(points)
  {
    DropRepeatsKeepsPoints(points);
  }

  /** Sliding to a place where nothing is passed and the line gets no longer. */
  lemma {:induction false} SlidNoWorse(line: seq<Point>, obstacles: seq<Rect>, v: real, w: real)
    requires OpenLine(line, obstacles) && NoSidePassed(obstacles, v, w)
    requires Drift(line, v, w) <= 0.0 && line[0].x != v && line[|line| - 1].x != v
    ensures NoWorse(DropRepeats(SlidLine(line, v, w)), line, obstacles)
  {
    var slid := SlidLine(line, v, w);
    DropRepeatsOk(slid);
    SlidCost(line, v, w);
    SlidOpen(line, obstacles, v, w);
    SlidValues(line, v, w);
    DroppedValues(slid);
  }

  lemma {:induction false} SlidOpen(line: seq<Point>, obstacles: seq<Rect>, v: real, w: real)
    requires OpenLine(line, obstacles) && NoSidePassed(obstacles, v, w)
    ensures OpenLine(DropRepeats(SlidLine(line, v, w)), obstacles)
  {
    var slid := SlidLine(line, v, w);
    DropRepeatsOk(slid);
    SlidUnblocked(line, v, w, obstacles);
    SlidFree(line, v, w, obstacles);
    SlidMoves(line, v, w);
    DropRepeatsKeepsPoints(slid);
  }

  /** One column less off the grid. */
  lemma {:induction false} SlideOne(line: seq<Point>, grid: set<real>, obstacles: seq<Rect>, v: real)
    returns (d: seq<Point>)
    requires OpenLine(line, obstacles) && HasSides(grid, obstacles)
    requires line[0].x in grid && line[|line| - 1].x in grid && v in Xs(line) && v !in grid
    ensures NoWorse(d, line, obstacles) && Xs(d) - grid < Xs(line) - grid
  {
    var w := Target(line, grid, v);
    var all := Xs(line) + grid;
    forall i | 0 <= i < |line|
      ensures NotPassed(line[i].x, v, w)
    {
      assert line[i] in line && line[i].x in all;
    }
    assert forall r :: r in obstacles ==> r.left in all && r.right in all;
    SlidNoWorse(line, obstacles, v, w);
    d := DropRepeats(SlidLine(line, v, w));
    ColumnGone(line, grid, v, w);
  }

  lemma {:induction false} ColumnGone(line: seq<Point>, grid: set<real>, v: real, w: real)
    requires v in Xs(line) && v !in grid && w in Xs(line) + grid && w != v
    ensures Xs(DropRepeats(SlidLine(line, v, w))) - grid < Xs(line) - grid
  {
    DroppedValues(SlidLine(line, v, w));
    SlidValues(line, v, w);
    assert v in Xs(line) - grid && v !in Xs(DropRepeats(SlidLine(line, v, w)));
  }

  lemma {:induction false} ToColumns(line: seq<Point>, grid: set<real>, obstacles: seq<Rect>) returns (g: seq<Point>)
    requires OpenLine(line, obstacles) && HasSides(grid, obstacles)
    requires line[0].x in grid && line[|line| - 1].x in grid
    ensures NoWorse(g, line, obstacles) && Xs(g) <= grid
    decreases Xs(line) - grid
  {
    if v :| v in Xs(line) && v !in grid {
      var d := SlideOne(line, grid, obstacles, v);
      g := ToColumns(d, grid, obstacles);
    } else {
      g := line;
    }
  }

  // ----- rows instead of columns -----

  ghost function Flip(p: Point): Point {
    Point(p.y, p.x)
  }

  ghost function Flipped(line: seq<Point>): (f: seq<Point>)
    ensures |f| == |line| && forall i :: 0 <= i < |f| ==> f[i] == Flip(line[i])
  {
    seq(|line|, i requires 0 <= i < |line| => Flip(line[i]))
  }

  ghost function FlipRect(r: Rect): Rect {
    Rect(r.top, r.left, r.bottom, r.right)
  }

  ghost function FlippedRects(obstacles: seq<Rect>): (f: seq<Rect>)
    ensures |f| == |obstacles| && forall i :: 0 <= i < |f| ==> f[i] == FlipRect(obstacles[i])
  {
    seq(|obstacles|, i requires 0 <= i < |obstacles| => FlipRect(obstacles[i]))
  }

  lemma {:induction false} FlipTwice(line: seq<Point>, obstacles: seq<Rect>)
    ensures Flipped(Flipped(line)) == line && FlippedRects(FlippedRects(obstacles)) == obstacles
  {
  }

  lemma {:induction false} FlippedMoves(line: seq<Point>)
    requires Moves(line)
    ensures Moves(Flipped(line))
  {
    var f := Flipped(line);
    forall i | 0 <= i < |f| - 1
      ensures MovesAlongX(f[i], f[i + 1]) || MovesAlongY(f[i], f[i + 1])
    {
      assert MovesAlongX(line[i], line[i + 1]) || MovesAlongY(line[i], line[i + 1]);
    }
  }

  lemma {:induction false} FlippedCost(line: seq<Point>)
    requires Moves(line)
    ensures LineCost(Flipped(line)) == LineCost(line)
  {
    if |line| > 1 {
      var n := |line| - 1;
      FlippedCost(line[..n]);
      assert Flipped(line)[..n] == Flipped(line[..n]);
      assert MovesAlongX(line[n - 1], line[n - 1 + 1]) || MovesAlongY(line[n - 1], line[n - 1 + 1]);
      if n >= 2 { assert MovesAlongX(line[n - 2], line[n - 2 + 1]) || MovesAlongY(line[n - 2], line[n - 2 + 1]); }
    }
  }

  lemma {:induction false} FlippedOpen(line: seq<Point>, obstacles: seq<Rect>)
    requires OpenLine(line, obstacles)
    ensures OpenLine(Flipped(line), FlippedRects(obstacles))
  {
    var f, rects := Flipped(line), FlippedRects(obstacles);
    FlippedMoves(line);
    forall i, r | 0 <= i < |f| - 1 && r in rects
      ensures !SegmentIntersectsRect(f[i], f[i + 1], r)
    {
      var k :| 0 <= k < |obstacles| && r == FlipRect(obstacles[k]);
      assert obstacles[k] in obstacles && !Blocked(line[i], line[i + 1], obstacles);
      assert MovesAlongX(line[i], line[i + 1]) || MovesAlongY(line[i], line[i + 1]);
      assert !SegmentIntersectsRect(line[i], line[i + 1], obstacles[k]);
    }
    forall p | p in f
      ensures Free(p, rects)
    {
      var i :| 0 <= i < |line| && p == Flip(line[i]);
      assert line[i] in line;
    }
  }

  lemma {:induction false} FlippedValues(line: seq<Point>)
    ensures Xs(Flipped(line)) == Ys(line) && Ys(Flipped(line)) == Xs(line)
  {
    var f := Flipped(line);
    assert forall i :: 0 <= i < |line| ==> line[i] in line && f[i] in f;
    assert forall p :: p in f ==> exists i :: 0 <= i < |line| && p == Flip(line[i]);
  }

  lemma {:induction false} ToRows(line: seq<Point>, grid: set<real>, obstacles: seq<Rect>) returns (g: seq<Point>)
    requires OpenLine(line, obstacles) && forall r :: r in obstacles ==> r.top in grid && r.bottom in grid
    requires line[0].y in grid && line[|line| - 1].y in grid
    ensures OpenLine(g, obstacles) && g[0] == line[0] && g[|g| - 1] == line[|line| - 1]
    ensures LineCost(g) <= LineCost(line) && Ys(g) <= grid && Xs(g) <= Xs(line)
  {
    var f, rects := Flipped(line), FlippedRects(obstacles);
    FlippedOpen(line, obstacles);
    FlippedValues(line);
    FlippedCost(line);
    assert HasSides(grid, rects);
    var h := ToColumns(f, grid, rects);
    g := Flipped(h);
    FlippedOpen(h, rects);
    FlippedValues(h);
    FlippedCost(h);
    FlipTwice(line, obstacles);
  }

  // ----- onto the grid -----

  ghost function SetOf(s: seq<real>): (r: set<real>)
    ensures forall x :: x in r <==> x in s
  {
    set x | x in s
  }

  lemma {:induction false} UnblockedIsClear(line: seq<Point>, obstacles: seq<Rect>)
    requires Moves(line) && Unblocked(line, obstacles)
    ensures ClearOf(line, obstacles)
  {
    forall p, r | OnPath(p, line) && r in obstacles
      ensures !StrictlyInside(p, r)
    {
      var i :| OnPiece(p, line, i);
      assert !Blocked(line[i], line[i + 1], obstacles);
      assert MovesAlongX(line[i], line[i + 1]) || MovesAlongY(line[i], line[i + 1]);
      SegmentIntersectsExact(line[i], line[i + 1], r);
    }
  }

  /** For every line along the axes that avoids the obstacles, one along the grid does so
      too and costs no more. */
  lemma {:induction false} GridIsEnough(line: seq<Point>, start: Point, end: Point, obstacles: seq<Rect>)
    returns (g: seq<Point>)
    requires AllProper(obstacles) && Avoids(line, start, end, obstacles)
    ensures GridLine(g, start, end, obstacles) && LineCost(g) <= LineCost(line)
  {
    var columns, rows := SetOf([start.x, end.x] + SidesX(obstacles)), SetOf([start.y, end.y] + SidesY(obstacles));
    ClearIsUnblocked(line, obstacles);
    assert forall r :: r in obstacles ==> SideX(r.left, obstacles) && SideX(r.right, obstacles);
    assert forall r :: r in obstacles ==> SideY(r.top, obstacles) && SideY(r.bottom, obstacles);
    var h := ToColumns(line, columns, obstacles);
    g := ToRows(h, rows, obstacles);
    UnblockedIsClear(g, obstacles);
    ValuesOnGrid(g, start, end, obstacles, columns, rows);
  }

  lemma {:induction false} ValuesOnGrid(g: seq<Point>, start: Point, end: Point, obstacles: seq<Rect>,
      columns: set<real>, rows: set<real>)
    requires Xs(g) <= columns && Ys(g) <= rows
    requires columns == SetOf([start.x, end.x] + SidesX(obstacles))
    requires rows == SetOf([start.y, end.y] + SidesY(obstacles))
    ensures forall i :: 0 <= i < |g| ==> OnGrid(g[i], start, end, obstacles)
  {
    forall i | 0 <= i < |g|
      ensures OnGrid(g[i], start, end, obstacles)
    {
      assert g[i] in g && g[i].x in Xs(g) && g[i].y in Ys(g);
      GridAt(g[i], start, end, obstacles);
    }
  }
}
