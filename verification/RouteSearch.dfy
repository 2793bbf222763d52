/** Least-cost orthogonal routes over a visibility graph: A* over pairs of a
    point and the direction it was entered in, with a charge for every bend. */
module RouteSearch {
  import opened BinaryHeap
  import opened Options

  datatype Point = Point(x: real, y: real)

  datatype Direction = Horizontal | Vertical | Start

  /** The key of a search state. */
  datatype Key = Key(point: nat, direction: Direction)

  datatype SearchState = SearchState(point: nat, direction: Direction, cost: real, estimate: real,
    previous: Option<Key>)

  const BEND_COST: real := 24.0

  function Abs(r: real): real {
    if r < 0.0 then -r else r
  }

  function ManhattanDistance(a: Point, b: Point): real {
    Abs(a.x - b.x) + Abs(a.y - b.y)
  }

  lemma {:induction false} Triangle(a: Point, b: Point, c: Point)
    ensures ManhattanDistance(a, c) <= ManhattanDistance(a, b) + ManhattanDistance(b, c)
    ensures ManhattanDistance(a, b) >= 0.0 && ManhattanDistance(a, a) == 0.0
  {
  }

  function SegmentDirection(a: Point, b: Point): Direction {
    if a.x == b.x then Vertical else Horizontal
  }

  // ----- routes and their cost, independently of the search -----

  ghost predicate ValidGraph(points: seq<Point>, neighbors: seq<seq<nat>>) {
    |neighbors| == |points| && forall a: nat, b: nat :: a < |points| && b in neighbors[a] ==> b < |points|
  }

  /** A route visits neighbours one after another. */
  ghost predicate Route(points: seq<Point>, neighbors: seq<seq<nat>>, r: seq<nat>)
    requires ValidGraph(points, neighbors)
  {
    && |r| > 0 && r[0] < |points|
    && forall i :: 0 <= i < |r| - 1 ==> r[i] < |points| && r[i + 1] in neighbors[r[i]]
  }

  ghost predicate RouteFromTo(points: seq<Point>, neighbors: seq<seq<nat>>, r: seq<nat>, a: nat, b: nat)
    requires ValidGraph(points, neighbors)
  {
    Route(points, neighbors, r) && r[0] == a && r[|r| - 1] == b
  }

  ghost predicate InRange(points: seq<Point>, r: seq<nat>) {
    forall i :: 0 <= i < |r| ==> r[i] < |points|
  }

  /** Total length of the segments. */
  ghost function Length(points: seq<Point>, r: seq<nat>): real
    requires InRange(points, r)
  {
    if |r| <= 1 then 0.0
    else Length(points, r[..|r| - 1]) + ManhattanDistance(points[r[|r| - 2]], points[r[|r| - 1]])
  }

  /** Number of places where the direction changes. */
  ghost function Bends(points: seq<Point>, r: seq<nat>): nat
    requires InRange(points, r)
  {
    if |r| <= 2 then 0
    else
      var before := SegmentDirection(points[r[|r| - 3]], points[r[|r| - 2]]);
      var after := SegmentDirection(points[r[|r| - 2]], points[r[|r| - 1]]);
      Bends(points, r[..|r| - 1]) + (if before == after then 0 else 1)
  }

  ghost function RouteCost(points: seq<Point>, r: seq<nat>): real
    requires InRange(points, r)
  {
    Length(points, r) + BEND_COST * (Bends(points, r) as real)
  }

  /** The point a route ends at and the direction of its last segment. */
  ghost function KeyOf(points: seq<Point>, r: seq<nat>): Key
    requires InRange(points, r) && |r| > 0
  {
    Key(r[|r| - 1], if |r| == 1 then Start else SegmentDirection(points[r[|r| - 2]], points[r[|r| - 1]]))
  }

  function NextKey(points: seq<Point>, k: Key, b: nat): Key
    requires k.point < |points| && b < |points|
  {
    Key(b, SegmentDirection(points[k.point], points[b]))
  }

  function StepCost(points: seq<Point>, k: Key, b: nat): real
    requires k.point < |points| && b < |points|
  {
    ManhattanDistance(points[k.point], points[b]) +
    if k.direction == Start || k.direction == SegmentDirection(points[k.point], points[b]) then 0.0 else BEND_COST
  }

  lemma {:induction false} RouteInRange(points: seq<Point>, neighbors: seq<seq<nat>>, r: seq<nat>)
    requires ValidGraph(points, neighbors) && Route(points, neighbors, r)
    ensures InRange(points, r)
  {
    forall i | 0 <= i < |r|
      ensures r[i] < |points|
    {
      if i > 0 { assert r[i - 1 + 1] in neighbors[r[i - 1]]; }
    }
  }

  lemma {:induction false} RouteExtend(points: seq<Point>, neighbors: seq<seq<nat>>, r: seq<nat>, b: nat)
    requires ValidGraph(points, neighbors) && Route(points, neighbors, r) && InRange(points, r) &&
      b in neighbors[r[|r| - 1]]
    ensures b < |points| && InRange(points, r + [b]) && Route(points, neighbors, r + [b])
    ensures KeyOf(points, r + [b]) == NextKey(points, KeyOf(points, r), b)
    ensures RouteCost(points, r + [b]) == RouteCost(points, r) + StepCost(points, KeyOf(points, r), b)
  {
    var t := r + [b];
    assert t[..|t| - 1] == r;
    forall i | 0 <= i < |t| - 1
      ensures t[i] < |points| && t[i + 1] in neighbors[t[i]]
    {
      if i < |r| - 1 { assert t[i] == r[i] && t[i + 1] == r[i + 1]; }
    }
  }

  lemma {:induction false} RoutePrefix(points: seq<Point>, neighbors: seq<seq<nat>>, r: seq<nat>)
    requires ValidGraph(points, neighbors) && Route(points, neighbors, r) && |r| > 1
    ensures Route(points, neighbors, r[..|r| - 1]) && r[|r| - 2] < |points| && r[|r| - 1] in neighbors[r[|r| - 2]]
    ensures r == r[..|r| - 1] + [r[|r| - 1]]
  {
    assert r[|r| - 2 + 1] in neighbors[r[|r| - 2]];
  }

  // ----- what the search maintains -----

  /** best, states: the program's maps; settled and routes: which keys have been
      expanded and, for each known key, a route that attains its cost. */
  datatype Progress = Progress(best: map<Key, real>, states: map<Key, SearchState>, settled: set<Key>,
    routes: map<Key, seq<nat>>)

  function StateKey(s: SearchState): Key {
    Key(s.point, s.direction)
  }

  /** route attains cost with key k, and state records that cost and the distance left. */
  ghost predicate KnownOk(points: seq<Point>, neighbors: seq<seq<nat>>, start: nat, end: nat, k: Key, cost: real,
      state: SearchState, route: seq<nat>)
    requires ValidGraph(points, neighbors) && end < |points|
  {
    && k.point < |points| && cost >= 0.0
    && RouteFromTo(points, neighbors, route, start, k.point) && InRange(points, route)
    && KeyOf(points, route) == k && RouteCost(points, route) == cost
    && StateKey(state) == k && state.cost == cost
    && state.estimate == cost + ManhattanDistance(points[k.point], points[end])
  }

  /** The previous link of a known key leads to a settled key one step back. */
  ghost predicate LinkOk(p: Progress, k: Key)
    requires k in p.states && k in p.routes
  {
    match p.states[k].previous
    case None => |p.routes[k]| == 1
    case Some(q) => q in p.settled && q in p.routes && p.routes[k] == p.routes[q] + [k.point]
  }

  ghost predicate Sound(points: seq<Point>, neighbors: seq<seq<nat>>, start: nat, end: nat, p: Progress)
    requires ValidGraph(points, neighbors) && end < |points|
  {
    && p.best.Keys == p.states.Keys == p.routes.Keys && p.settled <= p.best.Keys
    && Key(start, Start) in p.best && p.best[Key(start, Start)] == 0.0
    && (forall k {:trigger KnownOk(points, neighbors, start, end, k, p.best[k], p.states[k], p.routes[k])} ::
      k in p.best ==>
      KnownOk(points, neighbors, start, end, k, p.best[k], p.states[k], p.routes[k]))
    && (forall k {:trigger LinkOk(p, k)} :: k in p.best ==> LinkOk(p, k))
  }

  /** Key k has offered its cost to the listed neighbours. */
  ghost predicate Offered(points: seq<Point>, p: Progress, k: Key, to: seq<nat>)
    requires k in p.best && k.point < |points|
  {
    forall b: nat :: b in to && b < |points| ==>
      NextKey(points, k, b) in p.best && p.best[NextKey(points, k, b)] <= p.best[k] + StepCost(points, k, b)
  }

  /** No settled key is an end, and apart from except all have offered to all neighbours. */
  ghost predicate Expanded(points: seq<Point>, neighbors: seq<seq<nat>>, end: nat, p: Progress, except: set<Key>)
    requires |neighbors| == |points|
  {
    forall k :: k in p.settled ==>
      && k.point != end && k in p.best && k.point < |points|
      && (k !in except ==> Offered(points, p, k, neighbors[k.point]))
  }

  /** A settled key's cost is the least over all routes with that key. */
  ghost predicate Optimal(points: seq<Point>, neighbors: seq<seq<nat>>, start: nat, p: Progress)
    requires ValidGraph(points, neighbors)
  {
    forall r :: Route(points, neighbors, r) && InRange(points, r) && r[0] == start && KeyOf(points, r) in p.settled ==>
      KeyOf(points, r) in p.best && p.best[KeyOf(points, r)] <= RouteCost(points, r)
  }

  ghost predicate FreshEntry(p: Progress, q: multiset<SearchState>, s: SearchState) {
    StateKey(s) !in p.settled && StateKey(s) in p.states && s == p.states[StateKey(s)] && q[s] == 1
  }

  /** The queue holds the state of every known unsettled key, once; every other
      entry costs more than its key's best and is stale. */
  ghost predicate QueueOk(points: seq<Point>, end: nat, p: Progress, q: multiset<SearchState>)
    requires end < |points|
  {
    && (forall s {:trigger EntryOk(points, end, p, q, s)} :: s in q ==> EntryOk(points, end, p, q, s))
    && (forall k {:trigger Waiting(p, q, k)} :: k in p.best && k !in p.settled ==> Waiting(p, q, k))
  }

  ghost predicate EntryOk(points: seq<Point>, end: nat, p: Progress, q: multiset<SearchState>, s: SearchState)
    requires end < |points|
  {
    && StateKey(s) in p.best && s.point < |points| && s.cost >= p.best[StateKey(s)]
    && s.estimate == s.cost + ManhattanDistance(points[s.point], points[end])
    && (s.cost == p.best[StateKey(s)] ==> FreshEntry(p, q, s))
  }

  ghost predicate Waiting(p: Progress, q: multiset<SearchState>, k: Key) {
    k in p.states && p.states[k] in q
  }

  /** What the search maintains between expansions. */
  ghost predicate Searching(points: seq<Point>, neighbors: seq<seq<nat>>, start: nat, end: nat, p: Progress,
      q: multiset<SearchState>)
    requires ValidGraph(points, neighbors) && end < |points|
  {
    && Sound(points, neighbors, start, end, p) && Expanded(points, neighbors, end, p, {})
    && Optimal(points, neighbors, start, p) && QueueOk(points, end, p, q)
  }

  /** A known unsettled key is queued with its cost plus the distance to the end. */
  lemma {:induction false} QueuedEstimate(points: seq<Point>, neighbors: seq<seq<nat>>, start: nat, end: nat,
      p: Progress, q: multiset<SearchState>, k: Key)
    returns (s: SearchState)
    requires ValidGraph(points, neighbors) && end < |points| && Searching(points, neighbors, start, end, p, q)
    requires k in p.best && k !in p.settled
    ensures k.point < |points|
    ensures s in q && s.estimate == p.best[k] + ManhattanDistance(points[k.point], points[end])
  {
    assert KnownOk(points, neighbors, start, end, k, p.best[k], p.states[k], p.routes[k]);
    assert Waiting(p, q, k);
    s := p.states[k];
    assert EntryOk(points, end, p, q, s);
  }

  /** One step beyond a settled key the known cost is within the route's. */
  lemma {:induction false} StepBound(points: seq<Point>, neighbors: seq<seq<nat>>, start: nat, end: nat, p: Progress,
      q: multiset<SearchState>, prefix: seq<nat>, b: nat)
    requires ValidGraph(points, neighbors) && end < |points| && Searching(points, neighbors, start, end, p, q)
    requires Route(points, neighbors, prefix) && InRange(points, prefix) && prefix[0] == start
    requires KeyOf(points, prefix) in p.settled && b in neighbors[prefix[|prefix| - 1]] && b < |points|
    ensures NextKey(points, KeyOf(points, prefix), b) in p.best
    ensures p.best[NextKey(points, KeyOf(points, prefix), b)] <= RouteCost(points, prefix) +
      StepCost(points, KeyOf(points, prefix), b)
  {
    var k := KeyOf(points, prefix);
    assert Offered(points, p, k, neighbors[k.point]);
    assert p.best[k] <= RouteCost(points, prefix);
  }

  /** Cost plus distance to the end never falls along a route: the heuristic is consistent. */
  lemma {:induction false} ConsistentStep(points: seq<Point>, neighbors: seq<seq<nat>>, prefix: seq<nat>, b: nat,
      end: nat)
    requires ValidGraph(points, neighbors) && end < |points|
    requires Route(points, neighbors, prefix) && InRange(points, prefix) && b in neighbors[prefix[|prefix| - 1]]
    ensures b < |points| && InRange(points, prefix + [b])
    ensures RouteCost(points, prefix) + ManhattanDistance(points[prefix[|prefix| - 1]], points[end])
      <= RouteCost(points, prefix + [b]) + ManhattanDistance(points[b], points[end])
  {
    RouteExtend(points, neighbors, prefix, b);
    Triangle(points[prefix[|prefix| - 1]], points[b], points[end]);
  }

  lemma {:induction false} SettledFrontier(points: seq<Point>, neighbors: seq<seq<nat>>, start: nat, end: nat,
      p: Progress, q: multiset<SearchState>, prefix: seq<nat>, b: nat)
    returns (s: SearchState)
    requires ValidGraph(points, neighbors) && end < |points| && Searching(points, neighbors, start, end, p, q)
    requires Route(points, neighbors, prefix) && InRange(points, prefix) && prefix[0] == start
    requires KeyOf(points, prefix) in p.settled && b in neighbors[prefix[|prefix| - 1]] && b < |points|
    requires NextKey(points, KeyOf(points, prefix), b) !in p.settled
    ensures s in q
    ensures s.estimate <= RouteCost(points, prefix) + StepCost(points, KeyOf(points, prefix), b) +
      ManhattanDistance(points[b], points[end])
  {
    StepBound(points, neighbors, start, end, p, q, prefix, b);
    s := QueuedEstimate(points, neighbors, start, end, p, q, NextKey(points, KeyOf(points, prefix), b));
  }

  /** Any route whose key is unsettled is bounded below by some queued estimate. */
  lemma {:induction false} FrontierBound(points: seq<Point>, neighbors: seq<seq<nat>>, start: nat, end: nat,
      p: Progress, q: multiset<SearchState>, r: seq<nat>)
    returns (s: SearchState)
    requires ValidGraph(points, neighbors) && start < |points| && end < |points|
    requires Searching(points, neighbors, start, end, p, q)
    requires Route(points, neighbors, r) && InRange(points, r) && r[0] == start && KeyOf(points, r) !in p.settled
    ensures s in q && s.estimate <= RouteCost(points, r) + ManhattanDistance(points[r[|r| - 1]], points[end])
    decreases |r|
  {
    if |r| == 1 {
      s := QueuedEstimate(points, neighbors, start, end, p, q, Key(start, Start));
    } else {
      RoutePrefix(points, neighbors, r);
      var prefix, b := r[..|r| - 1], r[|r| - 1];
      RouteExtend(points, neighbors, prefix, b);
      if KeyOf(points, prefix) in p.settled {
        s := SettledFrontier(points, neighbors, start, end, p, q, prefix, b);
      } else {
        ConsistentStep(points, neighbors, prefix, b, end);
        s := FrontierBound(points, neighbors, start, end, p, q, prefix);
      }
    }
  }

  // ----- settling and relaxing -----

  /** What holds while key offers its cost to its neighbours, done so far. */
  ghost predicate Relaxing(points: seq<Point>, neighbors: seq<seq<nat>>, start: nat, end: nat, p: Progress,
      q: multiset<SearchState>, key: Key, done: seq<nat>)
    requires ValidGraph(points, neighbors) && end < |points|
  {
    && Sound(points, neighbors, start, end, p) && Expanded(points, neighbors, end, p, {key})
    && Optimal(points, neighbors, start, p) && QueueOk(points, end, p, q)
    && key in p.settled && key in p.best && key.point < |points| && Offered(points, p, key, done)
  }

  function Settle(p: Progress, key: Key): Progress {
    p.(settled := p.settled + {key})
  }

  /** The cheapest queued state is optimal for every route with an unsettled key. */
  lemma {:induction false} PopIsOptimal(points: seq<Point>, neighbors: seq<seq<nat>>, start: nat, end: nat,
      p: Progress, q: multiset<SearchState>, current: SearchState, r: seq<nat>)
    requires ValidGraph(points, neighbors) && start < |points| && end < |points|
    requires Searching(points, neighbors, start, end, p, q) && current in q
    requires forall s :: s in q ==> current.estimate <= s.estimate
    requires Route(points, neighbors, r) && InRange(points, r) && r[0] == start && KeyOf(points, r) !in p.settled
    ensures current.point < |points|
    ensures current.cost + ManhattanDistance(points[current.point], points[end])
      <= RouteCost(points, r) + ManhattanDistance(points[r[|r| - 1]], points[end])
  {
    assert EntryOk(points, end, p, q, current);
    var s := FrontierBound(points, neighbors, start, end, p, q, r);
  }

  lemma {:induction false} SettleOptimal(points: seq<Point>, neighbors: seq<seq<nat>>, start: nat, end: nat,
      p: Progress, q: multiset<SearchState>, current: SearchState)
    requires ValidGraph(points, neighbors) && start < |points| && end < |points|
    requires Searching(points, neighbors, start, end, p, q) && current in q
    requires forall s :: s in q ==> current.estimate <= s.estimate
    requires StateKey(current) in p.best && current.cost == p.best[StateKey(current)]
    ensures Optimal(points, neighbors, start, Settle(p, StateKey(current)))
  {
    forall r | Route(points, neighbors, r) && InRange(points, r) && r[0] == start &&
      KeyOf(points, r) in p.settled + {StateKey(current)}
      ensures KeyOf(points, r) in p.best && p.best[KeyOf(points, r)] <= RouteCost(points, r)
    {
      if KeyOf(points, r) !in p.settled {
        PopIsOptimal(points, neighbors, start, end, p, q, current, r);
      }
    }
  }

  lemma {:induction false} SettleQueue(points: seq<Point>, end: nat, p: Progress, q: multiset<SearchState>,
      current: SearchState)
    requires end < |points| && QueueOk(points, end, p, q) && current in q
    requires StateKey(current) in p.best && current.cost == p.best[StateKey(current)]
    requires p.best.Keys == p.states.Keys && forall k :: k in p.best ==> StateKey(p.states[k]) == k
    ensures QueueOk(points, end, Settle(p, StateKey(current)), q - multiset{current})
  {
    var p', q' := Settle(p, StateKey(current)), q - multiset{current};
    assert EntryOk(points, end, p, q, current);
    forall s | s in q'
      ensures EntryOk(points, end, p', q', s)
    {
      assert EntryOk(points, end, p, q, s);
    }
    forall k | k in p.best && k !in p'.settled
      ensures Waiting(p', q', k)
    {
      assert Waiting(p, q, k);
    }
  }

  /** Popping a stale state, one whose key has since been given a lower cost. */
  lemma {:induction false} DropStale(points: seq<Point>, end: nat, p: Progress, q: multiset<SearchState>,
      current: SearchState)
    requires end < |points| && QueueOk(points, end, p, q) && current in q
    requires p.best.Keys == p.states.Keys && forall k :: k in p.best ==>
      StateKey(p.states[k]) == k && p.states[k].cost == p.best[k]
    requires StateKey(current) in p.best && current.cost != p.best[StateKey(current)]
    ensures QueueOk(points, end, p, q - multiset{current})
  {
    var q' := q - multiset{current};
    forall s | s in q'
      ensures EntryOk(points, end, p, q', s)
    {
      assert EntryOk(points, end, p, q, s);
    }
    forall k | k in p.best && k !in p.settled
      ensures Waiting(p, q', k)
    {
      assert Waiting(p, q, k);
    }
  }

  lemma {:induction false} StatesRecord(points: seq<Point>, neighbors: seq<seq<nat>>, start: nat, end: nat, p: Progress)
    requires ValidGraph(points, neighbors) && end < |points| && Sound(points, neighbors, start, end, p)
    ensures forall k :: k in p.best ==> StateKey(p.states[k]) == k && p.states[k].cost == p.best[k]
  {
    forall k | k in p.best
      ensures StateKey(p.states[k]) == k && p.states[k].cost == p.best[k]
    {
      assert KnownOk(points, neighbors, start, end, k, p.best[k], p.states[k], p.routes[k]);
    }
  }

  /** Settling the popped state, then relaxing starts with no neighbour done. */
  lemma {:induction false} SettleStarts(points: seq<Point>, neighbors: seq<seq<nat>>, start: nat, end: nat,
      p: Progress, q: multiset<SearchState>, current: SearchState)
    requires ValidGraph(points, neighbors) && start < |points| && end < |points|
    requires Searching(points, neighbors, start, end, p, q) && current in q && current.point != end
    requires forall s :: s in q ==> current.estimate <= s.estimate
    requires StateKey(current) in p.best && current.cost == p.best[StateKey(current)]
    ensures Relaxing(points, neighbors, start, end, Settle(p, StateKey(current)), q - multiset{current},
      StateKey(current), [])
  {
    var key := StateKey(current);
    assert EntryOk(points, end, p, q, current);
    SettleOptimal(points, neighbors, start, end, p, q, current);
    StatesRecord(points, neighbors, start, end, p);
    SettleQueue(points, end, p, q, current);
    SettleSound(points, neighbors, start, end, p, key);
  }

  lemma {:induction false} SettleKeepsLink(p: Progress, key: Key, k: Key)
    requires k in p.states && k in p.routes && LinkOk(p, k)
    ensures LinkOk(Settle(p, key), k)
  {
  }

  lemma {:induction false} SettleSound(points: seq<Point>, neighbors: seq<seq<nat>>, start: nat, end: nat,
      p: Progress, key: Key)
    requires ValidGraph(points, neighbors) && end < |points| && Sound(points, neighbors, start, end, p) && key in p.best
    ensures Sound(points, neighbors, start, end, Settle(p, key))
  {
    var p' := Settle(p, key);
    assert p'.best == p.best && p'.states == p.states && p'.routes == p.routes;
    forall k | k in p.best
      ensures LinkOk(p', k)
    {
      assert LinkOk(p, k);
      SettleKeepsLink(p, key, k);
    }
  }

  /** The new state for neighbour b reached from key. */
  function NextState(points: seq<Point>, end: nat, key: Key, cost: real, b: nat): SearchState
    requires key.point < |points| && b < |points| && end < |points|
  {
    SearchState(b, SegmentDirection(points[key.point], points[b]), cost,
                cost + ManhattanDistance(points[b], points[end]), Some(key))
  }

  ghost function Improve(p: Progress, key: Key, next: SearchState): Progress
    requires key in p.routes
  {
    var k := StateKey(next);
    Progress(p.best[k := next.cost], p.states[k := next], p.settled, p.routes[k := p.routes[key] + [next.point]])
  }

  /** A settled key is never reopened. */
  lemma {:induction false} SettledNotImproved(points: seq<Point>, neighbors: seq<seq<nat>>, start: nat, end: nat,
      p: Progress, q: multiset<SearchState>, key: Key, done: seq<nat>, b: nat)
    requires ValidGraph(points, neighbors) && end < |points|
    requires Relaxing(points, neighbors, start, end, p, q, key, done) && b in neighbors[key.point] && b < |points|
    requires NextKey(points, key, b) in p.settled
    ensures NextKey(points, key, b) in p.best &&
      p.best[NextKey(points, key, b)] <= p.best[key] + StepCost(points, key, b)
  {
    assert KnownOk(points, neighbors, start, end, key, p.best[key], p.states[key], p.routes[key]);
    RouteExtend(points, neighbors, p.routes[key], b);
  }

  /** The route to the neighbour is the settled key's route with one more step. */
  lemma {:induction false} ImproveKnown(points: seq<Point>, neighbors: seq<seq<nat>>, start: nat, end: nat, key: Key,
      cost: real, state: SearchState, route: seq<nat>, b: nat)
    requires ValidGraph(points, neighbors) && end < |points| &&
      KnownOk(points, neighbors, start, end, key, cost, state, route)
    requires b in neighbors[key.point] && b < |points|
    ensures var c := cost + StepCost(points, key, b);
      KnownOk(points, neighbors, start, end, NextKey(points, key, b), c, NextState(points, end, key, c, b), route + [b])
  {
    RouteExtend(points, neighbors, route, b);
    Triangle(points[key.point], points[b], points[end]);
  }

  lemma {:induction false} ImproveKeepsLink(p: Progress, key: Key, next: SearchState, k: Key)
    requires key in p.routes && key in p.settled && StateKey(next) !in p.settled && next.previous == Some(key)
    requires k == StateKey(next) || (k in p.states && k in p.routes && LinkOk(p, k))
    ensures LinkOk(Improve(p, key, next), k)
  {
  }

  lemma {:induction false} ImproveSound(points: seq<Point>, neighbors: seq<seq<nat>>, start: nat, end: nat,
      p: Progress, key: Key, b: nat)
    requires ValidGraph(points, neighbors) && end < |points| && Sound(points, neighbors, start, end, p)
    requires key in p.settled && key in p.best && key.point < |points| && b in neighbors[key.point] && b < |points|
    requires NextKey(points, key, b) !in p.settled && NextKey(points, key, b) != Key(start, Start)
    ensures Sound(points, neighbors, start, end,
      Improve(p, key, NextState(points, end, key, p.best[key] + StepCost(points, key, b), b)))
  {
    var next := NextState(points, end, key, p.best[key] + StepCost(points, key, b), b);
    ImproveAllKnown(points, neighbors, start, end, p, key, b);
    ImproveAllLinked(p, key, next);
  }

  lemma {:induction false} ImproveAllLinked(p: Progress, key: Key, next: SearchState)
    requires p.best.Keys == p.states.Keys == p.routes.Keys && forall k {:trigger LinkOk(p, k)} :: k in p.best ==>
      LinkOk(p, k)
    requires key in p.routes && key in p.settled && StateKey(next) !in p.settled && next.previous == Some(key)
    ensures forall k {:trigger LinkOk(Improve(p, key, next), k)} :: k in Improve(p, key, next).best ==>
      LinkOk(Improve(p, key, next), k)
  {
    forall k | k in Improve(p, key, next).best
      ensures LinkOk(Improve(p, key, next), k)
    {
      if k != StateKey(next) { assert LinkOk(p, k); }
      ImproveKeepsLink(p, key, next, k);
    }
  }

  lemma {:induction false} ImproveAllKnown(points: seq<Point>, neighbors: seq<seq<nat>>, start: nat, end: nat,
      p: Progress, key: Key, b: nat)
    requires ValidGraph(points, neighbors) && end < |points| && Sound(points, neighbors, start, end, p)
    requires key in p.best && key.point < |points| && b in neighbors[key.point] && b < |points|
    ensures var p' := Improve(p, key, NextState(points, end, key, p.best[key] + StepCost(points, key, b), b));
      forall k :: k in p'.best ==> KnownOk(points, neighbors, start, end, k, p'.best[k], p'.states[k], p'.routes[k])
  {
    var next := NextState(points, end, key, p.best[key] + StepCost(points, key, b), b);
    var p' := Improve(p, key, next);
    ImproveKnown(points, neighbors, start, end, key, p.best[key], p.states[key], p.routes[key], b);
    forall k | k in p'.best
      ensures KnownOk(points, neighbors, start, end, k, p'.best[k], p'.states[k], p'.routes[k])
    {
      if k != StateKey(next) {
        assert KnownOk(points, neighbors, start, end, k, p.best[k], p.states[k], p.routes[k]);
      }
    }
  }

  lemma {:induction false} ImproveExpanded(points: seq<Point>, neighbors: seq<seq<nat>>, end: nat, p: Progress,
      key: Key, next: SearchState, except: set<Key>)
    requires |neighbors| == |points| && Expanded(points, neighbors, end, p, except) && key in p.routes
    requires StateKey(next) !in p.settled && (StateKey(next) in p.best ==> next.cost < p.best[StateKey(next)])
    ensures Expanded(points, neighbors, end, Improve(p, key, next), except)
  {
    forall k | k in p.settled && k !in except
      ensures Offered(points, Improve(p, key, next), k, neighbors[k.point])
    {
      assert Offered(points, p, k, neighbors[k.point]);
    }
  }

  lemma {:induction false} ImproveQueue(points: seq<Point>, end: nat, p: Progress, q: multiset<SearchState>, key: Key,
      next: SearchState)
    requires end < |points| && QueueOk(points, end, p, q) && key in p.routes && StateKey(next) !in p.settled
    requires next.point < |points| && next.estimate == next.cost + ManhattanDistance(points[next.point], points[end])
    requires StateKey(next) in p.best ==> next.cost < p.best[StateKey(next)]
    ensures QueueOk(points, end, Improve(p, key, next), q + multiset{next})
  {
    var p', q' := Improve(p, key, next), q + multiset{next};
    forall s | s in q'
      ensures EntryOk(points, end, p', q', s)
    {
      if s in q { assert EntryOk(points, end, p, q, s); }
      if q[next] > 0 { assert EntryOk(points, end, p, q, next); }
    }
    forall k | k in p'.best && k !in p'.settled
      ensures Waiting(p', q', k)
    {
      if k != StateKey(next) { assert Waiting(p, q, k); }
    }
  }

  /** The neighbour's state improves on what was known: it is recorded and queued. */
  lemma {:induction false} RelaxImproves(points: seq<Point>, neighbors: seq<seq<nat>>, start: nat, end: nat,
      p: Progress, q: multiset<SearchState>, key: Key, done: seq<nat>, b: nat, next: SearchState)
    requires ValidGraph(points, neighbors) && end < |points|
    requires Relaxing(points, neighbors, start, end, p, q, key, done) && b in neighbors[key.point] && b < |points|
    requires next == NextState(points, end, key, p.best[key] + StepCost(points, key, b), b)
    requires StateKey(next) in p.best ==> next.cost < p.best[StateKey(next)]
    ensures key in p.routes && StateKey(next) != key
    ensures Relaxing(points, neighbors, start, end, Improve(p, key, next), q + multiset{next}, key, done + [b])
  {
    var nk := NextKey(points, key, b);
    if nk in p.settled { SettledNotImproved(points, neighbors, start, end, p, q, key, done, b); }
    ImproveSound(points, neighbors, start, end, p, key, b);
    ImproveExpanded(points, neighbors, end, p, key, next, {key});
    ImproveQueue(points, end, p, q, key, next);
    ImproveOffered(points, p, key, next, done, b);
  }

  lemma {:induction false} ImproveOffered(points: seq<Point>, p: Progress, key: Key, next: SearchState,
      done: seq<nat>, b: nat)
    requires key in p.best && key in p.routes && key.point < |points| && b < |points| && Offered(points, p, key, done)
    requires StateKey(next) == NextKey(points, key, b) != key && next.cost == p.best[key] + StepCost(points, key, b)
    requires StateKey(next) in p.best ==> next.cost < p.best[StateKey(next)]
    ensures Offered(points, Improve(p, key, next), key, done + [b])
  {
  }

  /** A neighbour that is already as cheap needs no new state. */
  lemma {:induction false} RelaxSkips(points: seq<Point>, neighbors: seq<seq<nat>>, start: nat, end: nat, p: Progress,
      q: multiset<SearchState>, key: Key, done: seq<nat>, b: nat)
    requires ValidGraph(points, neighbors) && end < |points| && b < |points|
    requires Relaxing(points, neighbors, start, end, p, q, key, done)
    requires NextKey(points, key, b) in p.best &&
      p.best[NextKey(points, key, b)] <= p.best[key] + StepCost(points, key, b)
    ensures Relaxing(points, neighbors, start, end, p, q, key, done + [b])
  {
  }

  lemma {:induction false} RelaxDone(points: seq<Point>, neighbors: seq<seq<nat>>, start: nat, end: nat, p: Progress,
      q: multiset<SearchState>, key: Key)
    requires ValidGraph(points, neighbors) && end < |points|
    requires key.point < |points| && Relaxing(points, neighbors, start, end, p, q, key, neighbors[key.point])
    ensures Searching(points, neighbors, start, end, p, q)
  {
  }

  // ----- the search -----

  ghost function AllKeys(points: seq<Point>): set<Key> {
    set i: nat, d: Direction | i < |points| :: Key(i, d)
  }

  /** A route from start to end that no other such route undercuts. */
  ghost predicate CheapestRoute(points: seq<Point>, neighbors: seq<seq<nat>>, start: nat, end: nat, r: seq<nat>)
    requires ValidGraph(points, neighbors)
  {
    && RouteFromTo(points, neighbors, r, start, end) && InRange(points, r)
    && forall t :: RouteFromTo(points, neighbors, t, start, end) && InRange(points, t) ==>
      LineCost(PointsAt(points, r)) <= LineCost(PointsAt(points, t))
  }

  // ----- the cost of a line of points, from its coordinates -----

  ghost function Gap(a: real, b: real): real {
    if a <= b then b - a else a - b
  }

  /** One of the segments that meet at place i is vertical and the other is not. */
  ghost predicate TurnsAt(line: seq<Point>, i: nat)
    requires 0 < i < |line| - 1
  {
    (line[i - 1].x == line[i].x) != (line[i].x == line[i + 1].x)
  }

  /** The length of the line, and 24 for every turn. */
  ghost function LineCost(line: seq<Point>): real {
    if |line| <= 1 then 0.0
    else
      var n := |line| - 1;
      LineCost(line[..n]) + Gap(line[n - 1].x, line[n].x) + Gap(line[n - 1].y, line[n].y) +
      if n >= 2 && TurnsAt(line, n - 1) then 24.0 else 0.0
  }

  ghost predicate MovesAlongX(a: Point, b: Point) {
    a.y == b.y && a.x != b.x
  }

  ghost predicate MovesAlongY(a: Point, b: Point) {
    a.x == b.x && a.y != b.y
  }

  /** On a line that follows the axes and stands still nowhere, a turn is where it moves
      along one axis and then along the other. */
  lemma {:induction false} TurnsExactly(line: seq<Point>, i: nat)
    requires 0 < i < |line| - 1
    requires forall j :: 0 <= j < |line| - 1 ==>
      MovesAlongX(line[j], line[j + 1]) || MovesAlongY(line[j], line[j + 1])
    ensures TurnsAt(line, i) <==>
      || (MovesAlongX(line[i - 1], line[i]) && MovesAlongY(line[i], line[i + 1]))
      || (MovesAlongY(line[i - 1], line[i]) && MovesAlongX(line[i], line[i + 1]))
  {
    assert MovesAlongX(line[i - 1], line[i - 1 + 1]) || MovesAlongY(line[i - 1], line[i - 1 + 1]);
  }

  /** An L costs its length and 24; three points on one line cost the length alone. */
  lemma {:induction false} ThreePoints(a: Point, b: Point, c: Point)
    ensures MovesAlongX(a, b) && MovesAlongY(b, c) ==> LineCost([a, b, c]) == Gap(a.x, b.x) + Gap(b.y, c.y) + 24.0
    ensures MovesAlongY(a, b) && MovesAlongX(b, c) ==> LineCost([a, b, c]) == Gap(a.y, b.y) + Gap(b.x, c.x) + 24.0
    ensures MovesAlongX(a, b) && MovesAlongX(b, c) ==> LineCost([a, b, c]) == Gap(a.x, b.x) + Gap(b.x, c.x)
    ensures MovesAlongY(a, b) && MovesAlongY(b, c) ==> LineCost([a, b, c]) == Gap(a.y, b.y) + Gap(b.y, c.y)
  {
    assert [a, b, c][..2] == [a, b] && [a, b][..1] == [a];
    assert LineCost([a, b]) == Gap(a.x, b.x) + Gap(a.y, b.y);
  }

  /** What the search adds up along a route is the cost of its points. */
  lemma {:induction false} CostFromCoordinates(points: seq<Point>, r: seq<nat>)
    requires InRange(points, r)
    ensures RouteCost(points, r) == LineCost(PointsAt(points, r))
  {
    if |r| > 1 {
      var n := |r| - 1;
      CostFromCoordinates(points, r[..n]);
      assert PointsAt(points, r)[..n] == PointsAt(points, r[..n]);
      BendNext(points, r);
    }
  }

  lemma {:induction false} BendNext(points: seq<Point>, r: seq<nat>)
    requires InRange(points, r) && |r| > 1
    ensures BEND_COST * (Bends(points, r) as real) == BEND_COST * (Bends(points, r[..|r| - 1]) as real) +
      if |r| > 2 && TurnsAt(PointsAt(points, r), |r| - 2) then 24.0 else 0.0
  {
  }

  function PointsAt(points: seq<Point>, r: seq<nat>): seq<Point>
    requires InRange(points, r)
  {
    seq(|r|, i requires 0 <= i < |r| => points[r[i]])
  }

  function Reversed<T>(s: seq<T>): seq<T> {
    if s == [] then [] else Reversed(s[1..]) + [s[0]]
  }

  lemma {:induction false} ReversedAppend<T>(s: seq<T>, x: T)
    ensures Reversed(s + [x]) == [x] + Reversed(s)
  {
    if s != [] {
      assert (s + [x])[1..] == s[1..] + [x];
      ReversedAppend(s[1..], x);
    }
  }

  /** At the start only the start key is known. */
  lemma {:induction false} SearchStarts(points: seq<Point>, neighbors: seq<seq<nat>>, start: nat, end: nat,
      initial: SearchState)
    requires ValidGraph(points, neighbors) && start < |points| && end < |points|
    requires initial == SearchState(start, Start, 0.0, ManhattanDistance(points[start], points[end]), None)
    ensures var k := Key(start, Start);
      Searching(points, neighbors, start, end, Progress(map[k := 0.0], map[k := initial], {}, map[k := [start]]),
        multiset{initial})
  {
    var k := Key(start, Start);
    var p := Progress(map[k := 0.0], map[k := initial], {}, map[k := [start]]);
    assert KnownOk(points, neighbors, start, end, k, p.best[k], p.states[k], p.routes[k]);
    assert LinkOk(p, k);
  }

  lemma {:induction false} SettlingIsProgress(points: seq<Point>, settled: set<Key>, k: Key)
    requires k.point < |points| && k !in settled && settled <= AllKeys(points)
    ensures settled + {k} <= AllKeys(points)
    ensures |AllKeys(points) - (settled + {k})| < |AllKeys(points) - settled|
  {
    assert AllKeys(points) - (settled + {k}) == (AllKeys(points) - settled) - {k};
  }

  lemma {:induction false} NeighborInRange(points: seq<Point>, neighbors: seq<seq<nat>>, a: nat, i: nat)
    requires ValidGraph(points, neighbors) && a < |points| && i < |neighbors[a]|
    ensures neighbors[a][i] < |points| && neighbors[a][i] in neighbors[a]
    ensures neighbors[a][..i + 1] == neighbors[a][..i] + [neighbors[a][i]]
  {
  }

  function OfferedCost(points: seq<Point>, current: SearchState, b: nat): (c: real)
    requires current.point < |points| && b < |points|
    ensures c == current.cost + StepCost(points, StateKey(current), b)
  {
    var bendCost := if current.direction == Start ||
      current.direction == SegmentDirection(points[current.point], points[b]) then 0.0 else BEND_COST;
    current.cost + ManhattanDistance(points[current.point], points[b]) + bendCost
  }

  /** Offers the popped state's cost to its i-th neighbour; an improvement is
      recorded and returned for queueing. */
  method Offer(points: seq<Point>, neighbors: seq<seq<nat>>, ghost start: nat, end: nat, ghost q: multiset<SearchState>,
      current: SearchState, i: nat, best: map<Key, real>, states: map<Key, SearchState>, ghost p: Progress)
    returns (queued: Option<SearchState>, best': map<Key, real>, states': map<Key, SearchState>, ghost p': Progress)
    requires ValidGraph(points, neighbors) && end < |points| && current.point < |points| &&
      i < |neighbors[current.point]|
    requires StateKey(current) in p.best && current.cost == p.best[StateKey(current)]
    requires Relaxing(points, neighbors, start, end, p, q, StateKey(current), neighbors[current.point][..i])
    requires best == p.best && states == p.states
    ensures best' == p'.best && states' == p'.states && p'.settled == p.settled
    ensures StateKey(current) in p'.best && current.cost == p'.best[StateKey(current)]
    ensures Relaxing(points, neighbors, start, end, p', q + Queued(queued), StateKey(current),
      neighbors[current.point][..i + 1])
  {
    ghost var key, done := StateKey(current), neighbors[current.point][..i];
    NeighborInRange(points, neighbors, current.point, i);
    var neighbor := neighbors[current.point][i];
    var direction := SegmentDirection(points[current.point], points[neighbor]);
    var cost := OfferedCost(points, current, neighbor);
    var nextKey := Key(neighbor, direction);
    if nextKey in best && cost >= best[nextKey] {
      RelaxSkips(points, neighbors, start, end, p, q, key, done, neighbor);
      assert q + Queued(None) == q;
      return None, best, states, p;
    }
    var next := SearchState(neighbor, direction, cost, cost + ManhattanDistance(points[neighbor], points[end]),
      Some(StateKey(current)));
    RelaxImproves(points, neighbors, start, end, p, q, key, done, neighbor, next);
    return Some(next), best[nextKey := cost], states[nextKey := next], Improve(p, key, next);
  }

  ghost function Queued(o: Option<SearchState>): multiset<SearchState> {
    match o
    case None => multiset{}
    case Some(s) => multiset{s}
  }

  /** Offers the popped state's cost to all its neighbours. */
  method Expand(points: seq<Point>, neighbors: seq<seq<nat>>, ghost start: nat, end: nat, queue: MinHeap<SearchState>,
      current: SearchState, best0: map<Key, real>, states0: map<Key, SearchState>, ghost p0: Progress)
    returns (best: map<Key, real>, states: map<Key, SearchState>, ghost p: Progress)
    requires ValidGraph(points, neighbors) && end < |points| && current.point < |points| && queue.Valid()
    requires StateKey(current) in p0.best && current.cost == p0.best[StateKey(current)]
    requires Relaxing(points, neighbors, start, end, p0, queue.Contents(), StateKey(current), [])
    requires best0 == p0.best && states0 == p0.states
    modifies queue
    ensures queue.Valid() && best == p.best && states == p.states && p.settled == p0.settled
    ensures Searching(points, neighbors, start, end, p, queue.Contents())
  {
    best, states, p := best0, states0, p0;
    var i := 0;
    assert neighbors[current.point][..0] == [];
    while i < |neighbors[current.point]|
      invariant 0 <= i <= |neighbors[current.point]| && queue.Valid()
      invariant best == p.best && states == p.states && p.settled == p0.settled
      invariant StateKey(current) in p.best && current.cost == p.best[StateKey(current)]
      invariant Relaxing(points, neighbors, start, end, p, queue.Contents(), StateKey(current),
        neighbors[current.point][..i])
    {
      var queued;
      ghost var q := queue.Contents();
      queued, best, states, p := Offer(points, neighbors, start, end, q, current, i, best, states, p);
      if queued.Some? {
        queue.Push(queued.value);
      }
      assert queue.Contents() == q + Queued(queued);
      i := i + 1;
    }
    assert neighbors[current.point][..i] == neighbors[current.point];
    RelaxDone(points, neighbors, start, end, p, queue.Contents(), StateKey(current));
  }

  /** With the queue empty no route leads to the end. */
  lemma {:induction false} ExhaustedMeansNoRoute(points: seq<Point>, neighbors: seq<seq<nat>>, start: nat, end: nat,
      p: Progress)
    requires ValidGraph(points, neighbors) && start < |points| && end < |points|
    requires Searching(points, neighbors, start, end, p, multiset{})
    ensures !exists r :: RouteFromTo(points, neighbors, r, start, end)
  {
    forall r | RouteFromTo(points, neighbors, r, start, end)
      ensures false
    {
      RouteInRange(points, neighbors, r);
      var s := FrontierBound(points, neighbors, start, end, p, multiset{}, r);
    }
  }

  /** When a state at the end is popped, its route is a cheapest one. */
  lemma {:induction false} EndIsCheapest(points: seq<Point>, neighbors: seq<seq<nat>>, start: nat, end: nat,
      p: Progress, q: multiset<SearchState>, current: SearchState)
    requires ValidGraph(points, neighbors) && start < |points| && end < |points|
    requires Searching(points, neighbors, start, end, p, q) && current in q && current.point == end
    requires forall s :: s in q ==> current.estimate <= s.estimate
    requires StateKey(current) in p.best && current.cost == p.best[StateKey(current)]
    ensures StateKey(current) in p.routes && CheapestRoute(points, neighbors, start, end, p.routes[StateKey(current)])
  {
    var k := StateKey(current);
    assert KnownOk(points, neighbors, start, end, k, p.best[k], p.states[k], p.routes[k]);
    forall t | RouteFromTo(points, neighbors, t, start, end) && InRange(points, t)
      ensures LineCost(PointsAt(points, p.routes[k])) <= LineCost(PointsAt(points, t))
    {
      PopIsOptimal(points, neighbors, start, end, p, q, current, t);
      CostFromCoordinates(points, p.routes[k]);
      CostFromCoordinates(points, t);
    }
  }

  lemma {:induction false} PointsPrepend(points: seq<Point>, a: nat, r: seq<nat>)
    requires a < |points| && InRange(points, r)
    ensures InRange(points, [a] + r) && PointsAt(points, [a] + r) == [points[a]] + PointsAt(points, r)
  {
  }

  /** A previous link leads to the route without its last point. */
  lemma {:induction false} LinkStep(points: seq<Point>, neighbors: seq<seq<nat>>, start: nat, end: nat, p: Progress,
      k: Key)
    requires ValidGraph(points, neighbors) && end < |points| && Sound(points, neighbors, start, end, p) && k in p.best
    ensures var r, state := p.routes[k], p.states[k];
      && |r| > 0 && r[|r| - 1] == state.point < |points|
      && match state.previous
         case None => |r| == 1
         case Some(k') => k' in p.best && p.routes[k'] == r[..|r| - 1]
  {
    assert KnownOk(points, neighbors, start, end, k, p.best[k], p.states[k], p.routes[k]) && LinkOk(p, k);
  }

  /** Follows the previous links back from a known key. */
  method TracePath(points: seq<Point>, ghost neighbors: seq<seq<nat>>, ghost start: nat, ghost end: nat,
      states: map<Key, SearchState>, finalKey: Key, ghost p: Progress)
    returns (path: seq<Point>)
    requires ValidGraph(points, neighbors) && end < |points| && Sound(points, neighbors, start, end, p)
    requires states == p.states && finalKey in p.best
    ensures InRange(points, p.routes[finalKey]) && path == PointsAt(points, p.routes[finalKey])
  {
    path := [];
    var cursor := Some(finalKey);
    ghost var rest := p.routes[finalKey];
    ghost var tail := [];
    while cursor.Some?
      invariant cursor.Some? ==> cursor.value in p.best && rest == p.routes[cursor.value]
      invariant cursor.None? ==> rest == []
      invariant p.routes[finalKey] == rest + tail && InRange(points, tail)
      invariant Reversed(path) == PointsAt(points, tail)
      decreases |rest|
    {
      var state := states[cursor.value];
      LinkStep(points, neighbors, start, end, p, cursor.value);
      ReversedAppend(path, points[state.point]);
      PointsPrepend(points, state.point, tail);
      assert rest == rest[..|rest| - 1] + [state.point];
      rest, tail := rest[..|rest| - 1], [state.point] + tail;
      path := path + [points[state.point]];
      cursor := state.previous;
    }
    path := Reversed(path);
  }

  /** None exactly when no route leads from start to end; otherwise the points of a
      route whose length plus 24 for every turn is least among all such routes. */
  method SearchOrthogonalPath(points: seq<Point>, neighbors: seq<seq<nat>>, start: nat, end: nat)
      returns (path: Option<seq<Point>>)
    requires ValidGraph(points, neighbors) && start < |points| && end < |points|
    ensures path.None? <==> !exists r :: RouteFromTo(points, neighbors, r, start, end)
    ensures path.Some? ==>
      exists r :: CheapestRoute(points, neighbors, start, end, r) && path.value == PointsAt(points, r)
    ensures path.Some? ==> forall t :: RouteFromTo(points, neighbors, t, start, end) && InRange(points, t) ==>
      LineCost(path.value) <= LineCost(PointsAt(points, t))
  {
    var queue := new MinHeap<SearchState>((s: SearchState) => s.estimate);
    var initial := SearchState(start, Start, 0.0, ManhattanDistance(points[start], points[end]), None);
    queue.Push(initial);
    var best := map[Key(start, Start) := 0.0];
    var states := map[Key(start, Start) := initial];
    ghost var p := Progress(best, states, {}, map[Key(start, Start) := [start]]);
    SearchStarts(points, neighbors, start, end, initial);
    var finalKey: Option<Key> := None;
    while |queue.values| > 0
      invariant fresh(queue) && queue.Valid() && queue.score == ((s: SearchState) => s.estimate)
      invariant best == p.best && states == p.states && p.settled <= AllKeys(points)
      invariant finalKey.None?
      invariant Searching(points, neighbors, start, end, p, queue.Contents())
      decreases |AllKeys(points) - p.settled|, |queue.values|
    {
      ghost var q := queue.Contents();
      var popped := queue.Pop();
      var current := popped.value;
      var currentKey := StateKey(current);
      assert forall s :: s in q ==> current.estimate <= s.estimate;
      assert EntryOk(points, end, p, q, current);
      if current.cost != best[currentKey] {
        StatesRecord(points, neighbors, start, end, p);
        DropStale(points, end, p, q, current);
        continue;
      }
      if current.point == end {
        EndIsCheapest(points, neighbors, start, end, p, q, current);
        finalKey := Some(currentKey);
        break;
      }
      SettleStarts(points, neighbors, start, end, p, q, current);
      SettlingIsProgress(points, p.settled, currentKey);
      p := Settle(p, currentKey);
      best, states, p := Expand(points, neighbors, start, end, queue, current, best, states, p);
    }
    if finalKey.None? {
      ExhaustedMeansNoRoute(points, neighbors, start, end, p);
      return None;
    }
    var traced := TracePath(points, neighbors, start, end, states, finalKey.value, p);
    assert RouteFromTo(points, neighbors, p.routes[finalKey.value], start, end);
    path := Some(traced);
  }
}
