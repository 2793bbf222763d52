/** Axis-aligned polylines, rectangular obstacles, and simplification of polylines. */
module RouteGeometry {
  import opened RouteSearch

  datatype Rect = Rect(left: real, top: real, right: real, bottom: real)

  ghost predicate Proper(r: Rect) {
    r.left < r.right && r.top < r.bottom
  }

  predicate StrictlyInside(p: Point, r: Rect) {
    r.left < p.x < r.right && r.top < p.y < r.bottom
  }

  function Min(a: real, b: real): real {
    if b < a then b else a
  }

  function Max(a: real, b: real): real {
    if b > a then b else a
  }

  predicate AxisAligned(a: Point, b: Point) {
    a.x == b.x || a.y == b.y
  }

  /** p lies on the axis-aligned segment from a to b. */
  predicate OnSegment(p: Point, a: Point, b: Point) {
    Min(a.x, b.x) <= p.x <= Max(a.x, b.x) && Min(a.y, b.y) <= p.y <= Max(a.y, b.y)
  }

  function SegmentIntersectsRect(from: Point, to: Point, rect: Rect): bool {
    if from.x == to.x then
      if from.x <= rect.left || from.x >= rect.right then false
      else Max(from.y, to.y) > rect.top && Min(from.y, to.y) < rect.bottom
    else if from.y == to.y then
      if from.y <= rect.top || from.y >= rect.bottom then false
      else Max(from.x, to.x) > rect.left && Min(from.x, to.x) < rect.right
    else true
  }

  /** A value strictly between two bounds and within two others, if there is room. */
  function Within(low: real, high: real, lower: real, upper: real): real {
    if low > lower then low
    else if high < upper then high
    else (lower + upper) / 2.0
  }

  /** The test finds an intersection exactly when some real point of the segment is
      strictly inside; an inclined segment always counts as intersecting. */
  lemma {:induction false} SegmentIntersectsExact(a: Point, b: Point, r: Rect)
    ensures AxisAligned(a, b) && Proper(r) ==>
      (SegmentIntersectsRect(a, b, r) <==>
        exists p {:trigger StrictlyInside(p, r)} :: OnSegment(p, a, b) && StrictlyInside(p, r))
    ensures !AxisAligned(a, b) ==> SegmentIntersectsRect(a, b, r)
    ensures AxisAligned(a, b) && !SegmentIntersectsRect(a, b, r) ==> forall p :: OnSegment(p, a, b) ==>
      !StrictlyInside(p, r)
  {
    if AxisAligned(a, b) && Proper(r) && SegmentIntersectsRect(a, b, r) {
      if a.x == b.x {
        var p := Point(a.x, Within(Min(a.y, b.y), Max(a.y, b.y), r.top, r.bottom));
        assert OnSegment(p, a, b) && StrictlyInside(p, r);
      } else {
        var p := Point(Within(Min(a.x, b.x), Max(a.x, b.x), r.left, r.right), a.y);
        assert OnSegment(p, a, b) && StrictlyInside(p, r);
      }
    }
  }

  // ----- polylines -----

  ghost predicate AxisAlignedPath(points: seq<Point>) {
    forall i :: 0 <= i < |points| - 1 ==> AxisAligned(points[i], points[i + 1])
  }

  /** p lies on the segment that begins at index i. */
  ghost predicate OnPiece(p: Point, points: seq<Point>, i: int) {
    0 <= i < |points| - 1 && OnSegment(p, points[i], points[i + 1])
  }

  ghost predicate OnPath(p: Point, points: seq<Point>) {
    exists i :: OnPiece(p, points, i)
  }

  ghost predicate ClearOf(points: seq<Point>, obstacles: seq<Rect>) {
    forall p, r :: OnPath(p, points) && r in obstacles ==> !StrictlyInside(p, r)
  }

  lemma {:induction false} OnPathPrefix(p: Point, points: seq<Point>, more: seq<Point>)
    requires OnPath(p, points)
    ensures OnPath(p, points + more)
  {
    var i :| OnPiece(p, points, i);
    assert OnPiece(p, points + more, i);
  }

  /** A path with one more point: the points of the old one and of the new segment. */
  lemma {:induction false} OnPathSnoc(p: Point, points: seq<Point>, q: Point)
    requires points != []
    ensures OnPath(p, points + [q]) <==> OnPath(p, points) || OnSegment(p, points[|points| - 1], q)
  {
    var next := points + [q];
    if OnPath(p, next) {
      var i :| OnPiece(p, next, i);
      if i < |points| - 1 { assert OnPiece(p, points, i); }
    }
    if OnPath(p, points) { OnPathPrefix(p, points, [q]); }
    if OnSegment(p, points[|points| - 1], q) { assert OnPiece(p, next, |points| - 1); }
  }

  lemma {:induction false} AlignedSnoc(points: seq<Point>, q: Point)
    requires points != [] && AxisAlignedPath(points) && AxisAligned(points[|points| - 1], q)
    ensures AxisAlignedPath(points + [q])
  {
  }

  // ----- simplification -----

  /** Drops every point equal to the one before it. */
  function DropRepeats(points: seq<Point>): (r: seq<Point>)
  {
    if |points| <= 1 then points
    else
      var last := points[|points| - 1];
      DropRepeats(points[..|points| - 1]) + if last == points[|points| - 2] then [] else [last]
  }

  /** The point at i turns, or is an end. */
  predicate Kept(d: seq<Point>, i: nat)
    requires i < |d|
  {
    i == 0 || i == |d| - 1 ||
    !((d[i - 1].x == d[i].x && d[i].x == d[i + 1].x) || (d[i - 1].y == d[i].y && d[i].y == d[i + 1].y))
  }

  function KeptUpTo(d: seq<Point>, k: nat): seq<Point>
    requires k <= |d|
  {
    if k == 0 then [] else KeptUpTo(d, k - 1) + if Kept(d, k - 1) then [d[k - 1]] else []
  }

  function SimplifyOrthogonalPoints(points: seq<Point>): seq<Point> {
    var d := DropRepeats(points);
    KeptUpTo(d, |d|)
  }

  ghost predicate NoRepeats(d: seq<Point>) {
    forall i :: 0 <= i < |d| - 1 ==> d[i] != d[i + 1]
  }

  lemma {:induction false} DropRepeatsOk(points: seq<Point>)
    requires points != []
    ensures var d := DropRepeats(points);
      d != [] && d[0] == points[0] && d[|d| - 1] == points[|points| - 1] && NoRepeats(d)
    ensures AxisAlignedPath(points) ==> AxisAlignedPath(DropRepeats(points))
    decreases |points|
  {
    if |points| > 1 { DropRepeatsOk(points[..|points| - 1]); }
  }

  lemma {:induction false} DropRepeatsOn(points: seq<Point>, p: Point)
    requires points != [] && OnPath(p, DropRepeats(points))
    ensures OnPath(p, points)
    decreases |points|
  {
    if |points| > 1 {
      var init, last := points[..|points| - 1], points[|points| - 1];
      assert points == init + [last];
      DropRepeatsOk(init);
      if last != init[|init| - 1] {
        OnPathSnoc(p, DropRepeats(init), last);
      } else {
        assert DropRepeats(points) == DropRepeats(init);
      }
      OnPathSnoc(p, init, last);
      if OnPath(p, DropRepeats(init)) { DropRepeatsOn(init, p); }
    }
  }

  ghost predicate SameX(d: seq<Point>, j: nat, k: nat)
    requires j <= k < |d|
  {
    forall i :: j <= i <= k ==> d[i].x == d[j].x
  }

  ghost predicate SameY(d: seq<Point>, j: nat, k: nat)
    requires j <= k < |d|
  {
    forall i :: j <= i <= k ==> d[i].y == d[j].y
  }

  ghost function LastKept(d: seq<Point>, k: nat): (j: nat)
    requires 0 < k <= |d|
    ensures j < k && Kept(d, j) && forall i :: j < i < k ==> !Kept(d, i)
  {
    if Kept(d, k - 1) then k - 1 else LastKept(d, k - 1)
  }

  /** From the last kept point the dropped ones and the next lie on one line: repeats
      are gone, so the line cannot change direction where a point is dropped. */
  lemma {:induction false} DroppedOnOneLine(d: seq<Point>, j: nat, k: nat)
    requires j < k < |d| && NoRepeats(d) && AxisAlignedPath(d) && forall i :: j < i < k ==> !Kept(d, i)
    ensures SameX(d, j, k) || SameY(d, j, k)
  {
    if k > j + 1 {
      DroppedOnOneLine(d, j, k - 1);
      assert !Kept(d, k - 1) && d[k - 2] != d[k - 1];
    } else {
      assert AxisAligned(d[j], d[j + 1]);
    }
  }

  /** A point between the ends of points on one line is on one of the pieces. */
  lemma {:induction false} LineCovered(d: seq<Point>, j: nat, k: nat, p: Point)
    requires j < k < |d| && (SameX(d, j, k) || SameY(d, j, k)) && OnSegment(p, d[j], d[k])
    ensures OnPath(p, d)
  {
    if OnSegment(p, d[k - 1], d[k]) {
      assert OnPiece(p, d, k - 1);
    } else {
      assert k - 1 > j;
      LineCovered(d, j, k - 1, p);
    }
  }

  lemma {:induction false} KeptUpToOk(d: seq<Point>, k: nat)
    requires 0 < k <= |d| && NoRepeats(d) && AxisAlignedPath(d)
    ensures var s := KeptUpTo(d, k);
      s != [] && s[0] == d[0] && s[|s| - 1] == d[LastKept(d, k)] && AxisAlignedPath(s)
  {
    if k > 1 {
      KeptUpToOk(d, k - 1);
      if Kept(d, k - 1) {
        var j := LastKept(d, k - 1);
        DroppedOnOneLine(d, j, k - 1);
        AlignedSnoc(KeptUpTo(d, k - 1), d[k - 1]);
      }
    } else {
      assert KeptUpTo(d, 0) == [];
    }
  }

  lemma {:induction false} KeptUpToOn(d: seq<Point>, k: nat, p: Point)
    requires 0 < k <= |d| && NoRepeats(d) && AxisAlignedPath(d) && OnPath(p, KeptUpTo(d, k))
    ensures OnPath(p, d)
  {
    KeptUpToOk(d, k);
    if k > 1 {
      KeptUpToOk(d, k - 1);
      if Kept(d, k - 1) {
        var j := LastKept(d, k - 1);
        OnPathSnoc(p, KeptUpTo(d, k - 1), d[k - 1]);
        DroppedOnOneLine(d, j, k - 1);
        if OnPath(p, KeptUpTo(d, k - 1)) { KeptUpToOn(d, k - 1, p); } else { LineCovered(d, j, k - 1, p); }
      } else {
        assert KeptUpTo(d, k) == KeptUpTo(d, k - 1);
        KeptUpToOn(d, k - 1, p);
      }
    }
  }

  /** Simplifying keeps both ends and axis alignment. */
  lemma {:induction false} SimplifyKeepsShape(points: seq<Point>)
    requires points != [] && AxisAlignedPath(points)
    ensures var s := SimplifyOrthogonalPoints(points);
      s != [] && s[0] == points[0] && s[|s| - 1] == points[|points| - 1] && AxisAlignedPath(s)
  {
    DropRepeatsOk(points);
    var d := DropRepeats(points);
    KeptUpToOk(d, |d|);
    assert Kept(d, |d| - 1);
  }

  /** Simplifying adds no point to the drawn line. */
  lemma {:induction false} SimplifyAddsNothing(points: seq<Point>, p: Point)
    requires points != [] && AxisAlignedPath(points) && OnPath(p, SimplifyOrthogonalPoints(points))
    ensures OnPath(p, points)
  {
    DropRepeatsOk(points);
    var d := DropRepeats(points);
    KeptUpToOn(d, |d|, p);
    DropRepeatsOn(points, p);
  }

  // ----- what is left turns -----

  /** The line comes in along one axis at point i and leaves along the other. */
  ghost predicate TurnsHere(s: seq<Point>, i: nat)
    requires 0 < i < |s| - 1
  {
    || (s[i - 1].y == s[i].y && s[i].y != s[i + 1].y && s[i].x == s[i + 1].x && s[i - 1].x != s[i].x)
    || (s[i - 1].x == s[i].x && s[i].x != s[i + 1].x && s[i].y == s[i + 1].y && s[i - 1].y != s[i].y)
  }

  ghost predicate TurnsEverywhere(s: seq<Point>) {
    forall i :: 0 < i < |s| - 1 ==> TurnsHere(s, i)
  }

  /** From j to k the line runs straight, turns or ends at both, and comes back to where
      it was. */
  ghost predicate ThereAndBack(d: seq<Point>, j: nat, k: nat) {
    && j + 1 < k < |d| && d[j] == d[k] && (SameX(d, j, k) || SameY(d, j, k))
    && (j == 0 || TurnsHere(d, j)) && (k == |d| - 1 || TurnsHere(d, k))
  }

  /** On a line without repeats that follows the axes, the points kept between the ends
      are those where it turns. */
  lemma {:induction false} KeptTurns(d: seq<Point>, i: nat)
    requires NoRepeats(d) && AxisAlignedPath(d) && 0 < i < |d| - 1
    ensures Kept(d, i) <==> TurnsHere(d, i)
  {
    assert d[i - 1] != d[i - 1 + 1] && AxisAligned(d[i - 1], d[i - 1 + 1]) && AxisAligned(d[i], d[i + 1]);
  }

  /** What is kept of the first k points: s[m] is the point at place at[m]. */
  ghost predicate Places(d: seq<Point>, k: nat, at: seq<nat>) {
    && (forall m :: 0 <= m < |at| ==> at[m] < k) && k <= |d|
    && (forall m, n :: 0 <= m < n < |at| ==> at[m] < at[n])
    && (forall i: nat :: i < k ==> (i in at <==> Kept(d, i)))
  }

  ghost predicate Picks(d: seq<Point>, s: seq<Point>, at: seq<nat>) {
    |at| == |s| && forall m :: 0 <= m < |s| ==> at[m] < |d| && s[m] == d[at[m]]
  }

  lemma {:induction false} KeptPlaces(d: seq<Point>, k: nat) returns (at: seq<nat>)
    requires k <= |d|
    ensures Places(d, k, at) && Picks(d, KeptUpTo(d, k), at)
  {
    at := [];
    if k > 0 {
      at := KeptPlaces(d, k - 1);
      if Kept(d, k - 1) { at := at + [k - 1]; }
    }
  }

  /** The first point, or one that differs from the one before it. */
  ghost predicate Fresh(points: seq<Point>, i: nat) {
    i < |points| && (i == 0 || points[i] != points[i - 1])
  }

  ghost predicate Ascending(at: seq<nat>) {
    forall m, n :: 0 <= m < n < |at| ==> at[m] < at[n]
  }

  ghost predicate FreshPlaces(points: seq<Point>, at: seq<nat>) {
    Ascending(at) && forall i: nat :: i in at <==> Fresh(points, i)
  }

  lemma {:induction false} FreshPlacesNext(points: seq<Point>, at: seq<nat>)
    requires |points| > 1 && FreshPlaces(points[..|points| - 1], at)
    ensures FreshPlaces(points, at + if Fresh(points, |points| - 1) then [|points| - 1] else [])
  {
    var n := |points| - 1;
    forall m | 0 <= m < |at| ensures at[m] < n { assert at[m] in at; }
    forall i: nat ensures Fresh(points, i) <==> Fresh(points[..n], i) || (i == n && Fresh(points, n)) {}
  }

  /** Dropping repeats keeps exactly the first point and every point that differs from
      the one before it, in order. */
  lemma {:induction false} RepeatsDropped(points: seq<Point>) returns (at: seq<nat>)
    ensures Picks(points, DropRepeats(points), at) && FreshPlaces(points, at)
  {
    if |points| <= 1 {
      at := if points == [] then [] else [0];
    } else {
      var n := |points| - 1;
      at := RepeatsDropped(points[..n]);
      FreshPlacesNext(points, at);
      at := at + if Fresh(points, n) then [n] else [];
    }
  }

  /** Neighbours in the result are the ends of a straight run of the line. */
  lemma {:induction false} NeighborsKept(d: seq<Point>, at: seq<nat>, m: nat)
    requires d != [] && NoRepeats(d) && AxisAlignedPath(d) && Places(d, |d|, at) && m + 1 < |at|
    ensures var j, k := at[m], at[m + 1];
      j < k && Kept(d, j) && Kept(d, k) && (forall i :: j < i < k ==> !Kept(d, i)) &&
      (SameX(d, j, k) || SameY(d, j, k))
  {
    var j, k := at[m], at[m + 1];
    assert j in at && k in at;
    forall i: nat | j < i < k
      ensures i !in at
    {
      forall n | 0 <= n < |at|
        ensures at[n] <= j || at[n] >= k
      {
        if n < m { assert at[n] < at[m]; } else if n > m + 1 { assert at[n] > at[m + 1]; }
      }
    }
    DroppedOnOneLine(d, j, k);
  }

  /** The straight run starts and ends the way the result's segment does. */
  lemma {:induction false} RunDirection(d: seq<Point>, j: nat, k: nat)
    requires j < k < |d| && NoRepeats(d) && (SameX(d, j, k) || SameY(d, j, k)) && d[j] != d[k]
    ensures d[j].x == d[k].x <==> d[j].x == d[j + 1].x
    ensures d[j].x == d[k].x <==> d[k - 1].x == d[k].x
  {
    assert d[j] != d[j + 1] && d[k - 1] != d[k - 1 + 1];
  }

  lemma {:induction false} ResultTurnsAt(d: seq<Point>, at: seq<nat>, s: seq<Point>, m: nat)
    requires d != [] && NoRepeats(d) && AxisAlignedPath(d) && Places(d, |d|, at) && Picks(d, s, at) && NoRepeats(s)
    requires 0 < m < |s| - 1
    ensures TurnsHere(s, m)
  {
    NeighborsKept(d, at, m - 1);
    NeighborsKept(d, at, m);
    var j, i, k := at[m - 1], at[m], at[m + 1];
    assert s[m - 1] != s[m - 1 + 1];
    RunDirection(d, j, i);
    RunDirection(d, i, k);
    KeptTurns(d, i);
  }

  lemma {:induction false} RepeatIsThereAndBack(d: seq<Point>, at: seq<nat>, s: seq<Point>, m: nat)
    requires d != [] && NoRepeats(d) && AxisAlignedPath(d) && Places(d, |d|, at) && Picks(d, s, at)
    requires m + 1 < |s| && s[m] == s[m + 1]
    ensures ThereAndBack(d, at[m], at[m + 1])
  {
    NeighborsKept(d, at, m);
    var j, k := at[m], at[m + 1];
    assert d[j] != d[j + 1];
    if j > 0 { KeptTurns(d, j); }
    if k < |d| - 1 { KeptTurns(d, k); }
  }

  lemma {:induction false} ThereAndBackDrops(d: seq<Point>, j: nat, k: nat, i: nat)
    requires NoRepeats(d) && AxisAlignedPath(d) && ThereAndBack(d, j, k)
    ensures Kept(d, j) && Kept(d, k) && (j < i < k ==> !Kept(d, i))
  {
    if j > 0 { KeptTurns(d, j); }
    if k < |d| - 1 { KeptTurns(d, k); }
  }

  lemma {:induction false} ThereAndBackRepeats(d: seq<Point>, at: seq<nat>, s: seq<Point>, j: nat, k: nat)
    requires d != [] && NoRepeats(d) && AxisAlignedPath(d) && Places(d, |d|, at) && Picks(d, s, at)
    requires ThereAndBack(d, j, k)
    ensures !NoRepeats(s)
  {
    ThereAndBackDrops(d, j, k, j);
    assert j in at && k in at;
    var m: nat :| m < |at| && at[m] == j;
    var n: nat :| n < |at| && at[n] == k;
    assert m < n;
    if m + 1 < n {
      assert j < at[m + 1] < k && at[m + 1] in at;
      ThereAndBackDrops(d, j, k, at[m + 1]);
    }
    assert s[m] == s[m + 1];
  }

  /** A simplified line turns at every point between its ends and repeats none exactly
      when no straight run of the line, repeats aside, ends where it began: such a run is
      reduced to its two equal ends. */
  lemma {:induction false} SimplifiedTurnsExactly(points: seq<Point>)
    requires points != [] && AxisAlignedPath(points)
    ensures var s := SimplifyOrthogonalPoints(points);
      NoRepeats(s) && TurnsEverywhere(s) <==> !exists j: nat, k: nat :: ThereAndBack(DropRepeats(points), j, k)
  {
    DropRepeatsOk(points);
    var d, s := DropRepeats(points), SimplifyOrthogonalPoints(points);
    var at := KeptPlaces(d, |d|);
    if NoRepeats(s) {
      forall m: nat | 0 < m < |s| - 1
        ensures TurnsHere(s, m)
      {
        ResultTurnsAt(d, at, s, m);
      }
      if j: nat, k: nat :| ThereAndBack(d, j, k) { ThereAndBackRepeats(d, at, s, j, k); }
    } else {
      var m: nat :| m < |s| - 1 && s[m] == s[m + 1];
      RepeatIsThereAndBack(d, at, s, m);
    }
  }

  /** Out and back along one row: two equal points are left. */
  lemma {:induction false} SpikeCollapses()
    ensures var a, b := Point(0.0, 0.0), Point(1.0, 0.0);
      SimplifyOrthogonalPoints([a, b, a]) == [a, a] && ThereAndBack(DropRepeats([a, b, a]), 0, 2)
  {
    var a, b := Point(0.0, 0.0), Point(1.0, 0.0);
    assert [a, b, a][..2] == [a, b] && [a, b][..1] == [a];
    assert DropRepeats([a, b]) == [a, b];
    var d := DropRepeats([a, b, a]);
    assert d == [a, b, a];
    assert KeptUpTo(d, 0) == [] && KeptUpTo(d, 1) == [a] && KeptUpTo(d, 2) == [a];
    assert KeptUpTo(d, 3) == [a, a];
    assert SameY(d, 0, 2);
  }

  // ----- the middle of a route -----

  function PathLength(points: seq<Point>): (l: real)
    ensures l >= 0.0
  {
    if |points| <= 1 then 0.0
    else PathLength(points[..|points| - 1]) + ManhattanDistance(points[|points| - 2], points[|points| - 1])
  }

  lemma {:induction false} PathLengthNext(points: seq<Point>, i: nat)
    requires i + 1 < |points|
    ensures PathLength(points[..i + 2]) == PathLength(points[..i + 1]) + ManhattanDistance(points[i], points[i + 1])
  {
    assert points[..i + 2][..i + 1] == points[..i + 1];
  }

  lemma {:induction false} NonNegativeProduct(a: real, b: real)
    requires a >= 0.0 && b >= 0.0
    ensures a * b >= 0.0
  {
  }

  lemma {:induction false} Shrinks(d: real, ratio: real, t: real)
    requires d >= 0.0 && 0.0 <= ratio <= 1.0 && t == d * ratio
    ensures 0.0 <= t <= d
  {
    NonNegativeProduct(d, ratio);
    NonNegativeProduct(d, 1.0 - ratio);
    var rest := d * (1.0 - ratio);
    assert rest == d - t;
  }

  lemma {:induction false} NegatedProduct(d: real, ratio: real)
    ensures (-d) * ratio == -(d * ratio)
  {
  }

  lemma {:induction false} Scaled(d: real, ratio: real, t: real)
    requires 0.0 <= ratio <= 1.0 && t == d * ratio
    ensures (d >= 0.0 ==> 0.0 <= t <= d) && (d <= 0.0 ==> d <= t <= 0.0)
  {
    NegatedProduct(d, ratio);
    if d >= 0.0 { Shrinks(d, ratio, t); } else { Shrinks(-d, ratio, -t); }
  }

  lemma {:induction false} ScaledAbs(d: real, ratio: real)
    requires 0.0 <= ratio
    ensures Abs(d * ratio) == Abs(d) * ratio
  {
    NegatedProduct(d, ratio);
    if d >= 0.0 { NonNegativeProduct(d, ratio); } else { NonNegativeProduct(-d, ratio); }
  }

  lemma {:induction false} Offset(a: real, b: real, d: real, t: real)
    requires d == b - a && (d >= 0.0 ==> 0.0 <= t <= d) && (d <= 0.0 ==> d <= t <= 0.0)
    ensures Min(a, b) <= a + t <= Max(a, b)
  {
  }

  /** m lies on piece i, at half the length of the whole path. */
  ghost predicate HalfwayAt(points: seq<Point>, m: Point, i: nat) {
    OnPiece(m, points, i) && PathLength(points[..i + 1]) + ManhattanDistance(points[i], m) == PathLength(points) / 2.0
  }

  lemma {:induction false} RatioOk(remaining: real, length: real)
    requires 0.0 <= remaining <= length && length > 0.0
    ensures 0.0 <= remaining / length <= 1.0 && length * (remaining / length) == remaining
  {
  }

  lemma {:induction false} PointAt(from: Point, to: Point, dx: real, dy: real, ratio: real, tx: real, ty: real)
    requires 0.0 <= ratio <= 1.0 && dx == to.x - from.x && dy == to.y - from.y && tx == dx * ratio && ty == dy * ratio
    ensures OnSegment(Point(from.x + tx, from.y + ty), from, to)
  {
    Scaled(dx, ratio, tx);
    Scaled(dy, ratio, ty);
    Offset(from.x, to.x, dx, tx);
    Offset(from.y, to.y, dy, ty);
  }

  lemma {:induction false} DistanceAt(from: Point, to: Point, dx: real, dy: real, ratio: real, tx: real, ty: real)
    requires 0.0 <= ratio && dx == to.x - from.x && dy == to.y - from.y && tx == dx * ratio && ty == dy * ratio
    ensures ManhattanDistance(from, Point(from.x + tx, from.y + ty)) == ManhattanDistance(from, to) * ratio
  {
    ScaledAbs(dx, ratio);
    ScaledAbs(dy, ratio);
    Distributes(Abs(dx), Abs(dy), ratio);
    AbsSwap(from, to, dx, dy);
    AbsSwap(from, Point(from.x + tx, from.y + ty), tx, ty);
  }

  lemma {:induction false} Distributes(a: real, b: real, ratio: real)
    ensures (a + b) * ratio == a * ratio + b * ratio
  {
  }

  lemma {:induction false} AbsSwap(from: Point, to: Point, dx: real, dy: real)
    requires dx == to.x - from.x && dy == to.y - from.y
    ensures ManhattanDistance(from, to) == Abs(dx) + Abs(dy)
  {
  }

  method PointAlong(from: Point, to: Point, length: real, remaining: real) returns (m: Point)
    requires length == ManhattanDistance(from, to) && 0.0 <= remaining <= length
    ensures OnSegment(m, from, to) && ManhattanDistance(from, m) == remaining
  {
    if length == 0.0 {
      return from;
    }
    var ratio := remaining / length;
    var dx, dy := to.x - from.x, to.y - from.y;
    RatioOk(remaining, length);
    var tx, ty := dx * ratio, dy * ratio;
    PointAt(from, to, dx, dy, ratio, tx, ty);
    DistanceAt(from, to, dx, dy, ratio, tx, ty);
    return Point(from.x + tx, from.y + ty);
  }

  /** The point halfway along the route. */
  method RouteMidpoint(points: seq<Point>) returns (m: Point)
    ensures points == [] ==> m == Point(0.0, 0.0)
    ensures |points| == 1 ==> m == points[0]
    ensures |points| >= 2 ==> exists i: nat :: HalfwayAt(points, m, i)
  {
    var remaining := PathLength(points) / 2.0;
    var i := 0;
    while i + 1 < |points|
      invariant 0 <= i && (points != [] ==> i < |points|)
      invariant i > 0 ==> remaining > 0.0
      invariant remaining >= 0.0 &&
        (points != [] ==> remaining + PathLength(points[..i + 1]) == PathLength(points) / 2.0)
    {
      var from, to := points[i], points[i + 1];
      var length := ManhattanDistance(from, to);
      if remaining <= length {
        m := PointAlong(from, to, length, remaining);
        assert HalfwayAt(points, m, i);
        return;
      }
      PathLengthNext(points, i);
      remaining := remaining - length;
      i := i + 1;
    }
    if points == [] {
      return Point(0.0, 0.0);
    }
    assert points[..i + 1] == points;
    m := points[|points| - 1];
  }
}
