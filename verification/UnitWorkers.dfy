/** Workers that share one list of units, one budget of Operator attempts and one
    counter of call numbers, and stop at the first unit that fails. */
module UnitWorkers {
  import opened Options
  import opened Sorting

  /** operators and maxAttempts bound the fallback ladder of one unit; base is the
      last call number used before. */
  datatype Config = Config(units: nat, limit: nat, operators: nat, maxAttempts: nat, recovery: bool,
    budget: Option<nat>, base: nat)

  datatype Reason = Normal | Recovery | Retry | Fallback

  datatype Attempt = Attempt(sequence: nat, operator: nat, reason: Reason, succeeded: bool)

  /** output is None when the unit failed. */
  datatype UnitResult = UnitResult(index: nat, output: Option<int>, attempts: seq<Attempt>)

  /** A worker looks for a unit, is between two attempts at one (perhaps backing off),
      waits for an Operator, has returned (with or without a failed unit), or was cancelled. */
  datatype Worker =
    | Idle
    | Between(unit: nat, operator: nat, attempt: nat, attempts: seq<Attempt>)
    | Calling(unit: nat, operator: nat, attempt: nat, attempts: seq<Attempt>, sequence: nat)
    | Finished(failed: bool)
    | Stopped

  /** dropped are the workers as they were when they were cancelled. */
  datatype Pool = Pool(next: nat, active: int, peak: int, results: seq<UnitResult>, workers: seq<Worker>,
    remaining: Option<nat>, current: nat, dropped: seq<Worker>)

  predicate Busy(w: Worker) {
    w.Between? || w.Calling?
  }

  function AttemptReason(operator: nat, attempt: nat, recovery: bool): Reason {
    if attempt > 0 then Retry
    else if operator > 0 then Fallback
    else if recovery then Recovery
    else Normal
  }

  // ----- counting over workers and results -----

  ghost function Sum(ws: seq<Worker>, f: Worker -> nat): nat {
    if ws == [] then 0 else Sum(ws[..|ws| - 1], f) + f(ws[|ws| - 1])
  }

  lemma {:induction false} SumUpdate(ws: seq<Worker>, i: nat, w: Worker, f: Worker -> nat)
    requires i < |ws|
    ensures Sum(ws[i := w], f) + f(ws[i]) == Sum(ws, f) + f(w)
  {
    var n := |ws| - 1;
    if i < n {
      assert ws[i := w][..n] == ws[..n][i := w];
      SumUpdate(ws[..n], i, w, f);
    } else {
      assert ws[i := w][..n] == ws[..n];
    }
  }

  lemma {:induction false} SumAppend(a: seq<Worker>, b: seq<Worker>, f: Worker -> nat)
    ensures Sum(a + b, f) == Sum(a, f) + Sum(b, f)
  {
    if b == [] {
      assert a + b == a;
    } else {
      assert (a + b)[..|a + b| - 1] == a + b[..|b| - 1];
      SumAppend(a, b[..|b| - 1], f);
    }
  }

  lemma {:induction false} SumZero(ws: seq<Worker>, f: Worker -> nat)
    requires forall i :: 0 <= i < |ws| ==> f(ws[i]) == 0
    ensures Sum(ws, f) == 0
  {
    if ws != [] { SumZero(ws[..|ws| - 1], f); }
  }

  lemma {:induction false} SumAtMost(ws: seq<Worker>, f: Worker -> nat)
    requires forall i :: 0 <= i < |ws| ==> f(ws[i]) <= 1
    ensures Sum(ws, f) <= |ws|
  {
    if ws != [] { SumAtMost(ws[..|ws| - 1], f); }
  }

  ghost function Holding(unit: nat): Worker -> nat {
    (w: Worker) => if Busy(w) && w.unit == unit then 1 else 0
  }

  ghost function Working(): Worker -> nat {
    (w: Worker) => if Busy(w) then 1 else 0
  }

  ghost function CountCall(attempts: seq<Attempt>, sequence: nat): nat {
    if attempts == [] then 0
    else
      var n := |attempts| - 1;
      CountCall(attempts[..n], sequence) + if attempts[n].sequence == sequence then 1 else 0
  }

  ghost function Calls(sequence: nat): Worker -> nat {
    (w: Worker) => (if Busy(w) then CountCall(w.attempts, sequence) else 0) +
      (if w.Calling? && w.sequence == sequence then 1 else 0)
  }

  ghost function ResultsFor(results: seq<UnitResult>, unit: nat): nat {
    if results == [] then 0
    else ResultsFor(results[..|results| - 1], unit) + if results[|results| - 1].index == unit then 1 else 0
  }

  ghost function CallsIn(results: seq<UnitResult>, sequence: nat): nat {
    if results == [] then 0
    else CallsIn(results[..|results| - 1], sequence) + CountCall(results[|results| - 1].attempts, sequence)
  }

  /** In how many places a unit is: held by a worker, dropped, or in a result. */
  ghost function PlacesOf(p: Pool, unit: nat): nat {
    Sum(p.workers, Holding(unit)) + Sum(p.dropped, Holding(unit)) + ResultsFor(p.results, unit)
  }

  /** How many attempts carry a call number. */
  ghost function AttemptsNumbered(p: Pool, sequence: nat): nat {
    Sum(p.workers, Calls(sequence)) + Sum(p.dropped, Calls(sequence)) + CallsIn(p.results, sequence)
  }

  // ----- the fallback ladder -----

  /** Where the k-th attempt at a unit stands: its operator and its try at it. */
  ghost function Rung(maxAttempts: nat, k: nat): (nat, nat) {
    if k == 0 then (0, 0)
    else
      var (operator, attempt) := Rung(maxAttempts, k - 1);
      if attempt + 1 < maxAttempts then (operator, attempt + 1) else (operator + 1, 0)
  }

  /** Another try at an operator is a retry; the first try at a later operator is a
      fallback; the very first attempt is normal, or part of a recovery. */
  ghost predicate ReasonFor(reason: Reason, operator: nat, attempt: nat, recovery: bool) {
    && (reason == Retry <==> attempt > 0)
    && (reason == Fallback <==> attempt == 0 && operator > 0)
    && (reason == Recovery <==> attempt == 0 && operator == 0 && recovery)
  }

  ghost predicate OnLadder(c: Config, attempts: seq<Attempt>) {
    forall k: nat :: k < |attempts| ==>
      && attempts[k].operator == Rung(c.maxAttempts, k).0 < c.operators
      && ReasonFor(attempts[k].reason, Rung(c.maxAttempts, k).0, Rung(c.maxAttempts, k).1, c.recovery)
  }

  /** How often each operator is tried: a policy without retries tries once. */
  ghost function Tries(maxAttempts: nat): nat {
    if maxAttempts == 0 then 1 else maxAttempts
  }

  lemma {:induction false} RungExact(maxAttempts: nat, k: nat)
    ensures var (operator, attempt) := Rung(maxAttempts, k);
      operator == k / Tries(maxAttempts) && attempt == k % Tries(maxAttempts)
  {
    if k > 0 {
      RungExact(maxAttempts, k - 1);
      NextQuotient(k - 1, Tries(maxAttempts));
    }
  }

  lemma {:induction false} NextQuotient(k: nat, n: nat)
    requires n > 0
    ensures k % n + 1 < n ==> (k + 1) / n == k / n && (k + 1) % n == k % n + 1
    ensures k % n + 1 >= n ==> (k + 1) / n == k / n + 1 && (k + 1) % n == 0
  {
    var q, m := k / n, k % n;
    assert k == n * q + m;
    if m + 1 < n { QuotientIs(k + 1, n, q, m + 1); } else { QuotientIs(k + 1, n, q + 1, 0); }
  }

  lemma {:induction false} QuotientIs(k: nat, n: nat, q: nat, m: nat)
    requires n > 0 && k == n * q + m && m < n
    ensures k / n == q && k % n == m
  {
    var d := k / n;
    assert k == n * d + k % n;
    Distribute(n, q, d);
    Multiples(n, q - d);
  }

  lemma {:induction false} Distribute(n: int, q: int, d: int)
    ensures n * (q - d) == n * q - n * d
  {
  }

  lemma {:induction false} Multiples(n: int, x: int)
    requires n > 0
    ensures (x >= 1 ==> n * x >= n) && (x <= -1 ==> n * x <= -n)
  {
    if x >= 1 {
      Distribute(n, x, 1);
      assert n * (x - 1) >= 0;
    } else if x <= -1 {
      Distribute(n, -1, x);
      assert n * (-1 - x) >= 0;
    }
  }

  /** The k-th attempt of a result: every operator gets its full number of tries before
      the next one; the reason is retry except at an operator's first try, which is a
      fallback except at the first operator. */
  lemma {:induction false} AttemptsByPlace(c: Config, remaining: Option<nat>, r: UnitResult, k: nat)
    requires ResultOk(c, remaining, r) && k < |r.attempts|
    ensures r.attempts[k].operator == k / Tries(c.maxAttempts) < c.operators
    ensures r.attempts[k].reason == Retry <==> k % Tries(c.maxAttempts) != 0
    ensures r.attempts[k].reason == Fallback <==> k % Tries(c.maxAttempts) == 0 && k != 0
    ensures r.attempts[k].reason == (if c.recovery then Recovery else Normal) <==> k == 0
    ensures r.attempts[k].succeeded <==> r.output.Some? && k == |r.attempts| - 1
  {
    RungExact(c.maxAttempts, k);
    if k != 0 && k % Tries(c.maxAttempts) == 0 && k / Tries(c.maxAttempts) == 0 { assert false; }
    if r.output.Some? && k < |r.attempts| - 1 { assert r.attempts[..|r.attempts| - 1][k] == r.attempts[k]; }
  }

  ghost predicate AllFailed(attempts: seq<Attempt>) {
    forall k :: 0 <= k < |attempts| ==> !attempts[k].succeeded
  }

  /** The attempts climb the ladder rung by rung; a unit succeeds with its last
      attempt, or fails at the ladder's end or for want of budget. */
  ghost predicate ResultOk(c: Config, remaining: Option<nat>, r: UnitResult) {
    && OnLadder(c, r.attempts)
    && match r.output
       case Some(_) =>
         && |r.attempts| > 0 && AllFailed(r.attempts[..|r.attempts| - 1])
         && r.attempts[|r.attempts| - 1].succeeded
       case None =>
         && AllFailed(r.attempts)
         && (Rung(c.maxAttempts, |r.attempts|).0 >= c.operators || remaining == Some(0))
  }

  ghost predicate WorkerOk(c: Config, w: Worker) {
    Busy(w) ==>
      && OnLadder(c, w.attempts) && AllFailed(w.attempts)
      && (w.operator, w.attempt) == Rung(c.maxAttempts, |w.attempts|)
      && (w.Calling? ==> w.operator < c.operators)
  }

  // ----- what holds throughout -----

  ghost predicate EachUnitOnce(p: Pool) {
    forall u: nat {:trigger PlacesOf(p, u)} :: PlacesOf(p, u) == if u < p.next then 1 else 0
  }

  ghost predicate EachCallOnce(c: Config, p: Pool) {
    forall s: nat {:trigger AttemptsNumbered(p, s)} :: AttemptsNumbered(p, s) ==
      if c.base < s <= p.current then 1 else 0
  }

  ghost predicate BudgetKept(c: Config, p: Pool) {
    && p.current >= c.base
    && match c.budget
       case None => p.remaining == None
       case Some(b) => p.remaining.Some? && p.remaining.value + (p.current - c.base) == b
  }

  ghost predicate ParallelismKept(c: Config, p: Pool) {
    && |p.workers| == (if c.limit < c.units then c.limit else c.units)
    && p.active == Sum(p.workers, Working()) && p.active <= p.peak <= |p.workers|
  }

  /** A failed result is why some worker returned; a worker that returned otherwise
      found no unit left; only a failure cancels workers. */
  ghost predicate EndingsOk(c: Config, p: Pool) {
    && ((exists r :: r in p.results && r.output.None?) <==> Finished(true) in p.workers)
    && (Finished(false) in p.workers ==> p.next == c.units)
    && (Stopped in p.workers ==> Finished(true) in p.workers)
    && (p.dropped != [] ==> Finished(true) in p.workers)
  }

  ghost predicate PoolOk(c: Config, p: Pool) {
    && p.next <= c.units && EachUnitOnce(p) && EachCallOnce(c, p) && BudgetKept(c, p) && ParallelismKept(c, p) &&
      EndingsOk(c, p)
    && (forall w :: w in p.workers ==> WorkerOk(c, w))
    && (forall r :: r in p.results ==> ResultOk(c, p.remaining, r))
  }

  // ----- every step keeps it -----

  lemma {:induction false} StillIn(ws: seq<Worker>, i: nat, w: Worker, x: Worker)
    requires i < |ws| && ws[i] != x
    ensures x in ws[i := w] <==> x in ws || x == w
  {
    if x in ws {
      var j :| 0 <= j < |ws| && ws[j] == x;
      assert ws[i := w][j] == x;
    }
    assert ws[i := w][i] == w;
  }

  lemma {:induction false} AllStillOk(c: Config, ws: seq<Worker>, i: nat, w: Worker)
    requires i < |ws| && WorkerOk(c, w) && forall x :: x in ws ==> WorkerOk(c, x)
    ensures forall x :: x in ws[i := w] ==> WorkerOk(c, x)
  {
  }

  /** The pool after worker i changed into w, other fields as in next. */
  lemma {:induction false} UnitsAfter(p: Pool, i: nat, w: Worker, u: nat)
    requires i < |p.workers|
    ensures PlacesOf(p.(workers := p.workers[i := w]), u) + Holding(u)(p.workers[i]) == PlacesOf(p, u) + Holding(u)(w)
  {
    SumUpdate(p.workers, i, w, Holding(u));
  }

  lemma {:induction false} CallsAfter(p: Pool, i: nat, w: Worker, s: nat)
    requires i < |p.workers|
    ensures AttemptsNumbered(p.(workers := p.workers[i := w]), s) + Calls(s)(p.workers[i]) ==
      AttemptsNumbered(p, s) + Calls(s)(w)
  {
    SumUpdate(p.workers, i, w, Calls(s));
  }

  /** What a changed worker leaves as it was, when the unit it holds and its calls stay
      the same but for a unit taken or a call begun. */
  lemma {:induction false} WorkerChanged(c: Config, p: Pool, p': Pool, i: nat, w: Worker)
    requires i < |p.workers| && EachUnitOnce(p) && EachCallOnce(c, p) && WorkerOk(c, w) &&
      forall x :: x in p.workers ==> WorkerOk(c, x)
    requires p'.workers == p.workers[i := w] && p'.results == p.results && p'.dropped == p.dropped
    requires forall u: nat {:trigger Holding(u)} ::
      Holding(u)(w) + (if u < p.next then 1 else 0) == Holding(u)(p.workers[i]) + if u < p'.next then 1 else 0
    requires forall s: nat {:trigger Calls(s)} ::
      Calls(s)(w) + (if c.base < s <= p.current then 1 else 0) == Calls(s)(p.workers[i]) +
        if c.base < s <= p'.current then 1 else 0
    ensures EachUnitOnce(p') && EachCallOnce(c, p')
    ensures Sum(p'.workers, Working()) + Working()(p.workers[i]) == Sum(p.workers, Working()) + Working()(w)
    ensures forall x :: x in p'.workers ==> WorkerOk(c, x)
    ensures forall x :: x in p'.workers && x != w ==> x in p.workers
    ensures forall x :: x in p.workers && x != p.workers[i] ==> x in p'.workers
  {
    forall u: nat
      ensures PlacesOf(p', u) == if u < p'.next then 1 else 0
    {
      UnitsAfter(p, i, w, u);
      assert PlacesOf(p, u) == if u < p.next then 1 else 0;
    }
    forall s: nat
      ensures AttemptsNumbered(p', s) == if c.base < s <= p'.current then 1 else 0
    {
      CallsAfter(p, i, w, s);
      assert AttemptsNumbered(p, s) == if c.base < s <= p.current then 1 else 0;
    }
    SumUpdate(p.workers, i, w, Working());
    AllStillOk(c, p.workers, i, w);
    forall x | x in p.workers && x != p.workers[i]
      ensures x in p'.workers
    {
      StillIn(p.workers, i, w, x);
    }
  }

  function Took(p: Pool, i: nat): Pool
    requires i < |p.workers|
  {
    p.(next := p.next + 1, active := p.active + 1, peak := if p.peak < p.active + 1 then p.active + 1 else p.peak,
       workers := p.workers[i := Between(p.next, 0, 0, [])])
  }

  lemma {:induction false} ActiveAtMostWorkers(ws: seq<Worker>)
    ensures Sum(ws, Working()) <= |ws|
  {
    SumAtMost(ws, Working());
  }

  lemma {:induction false} TookOk(c: Config, p: Pool, i: nat)
    requires PoolOk(c, p) && i < |p.workers| && p.workers[i] == Idle && p.next < c.units
    ensures PoolOk(c, Took(p, i))
  {
    var p', w := Took(p, i), Between(p.next, 0, 0, []);
    WorkerChanged(c, p, p', i, w);
    ActiveAtMostWorkers(p'.workers);
  }

  /** A worker that finds no unit returns. */
  lemma {:induction false} ExhaustedOk(c: Config, p: Pool, i: nat)
    requires PoolOk(c, p) && i < |p.workers| && p.workers[i] == Idle && p.next == c.units
    ensures PoolOk(c, p.(workers := p.workers[i := Finished(false)]))
  {
    var w := Finished(false);
    var p' := p.(workers := p.workers[i := w]);
    WorkerChanged(c, p, p', i, w);
  }

  function Called(p: Pool, i: nat): Pool
    requires i < |p.workers| && p.workers[i].Between? && p.remaining != Some(0)
  {
    var w := p.workers[i];
    p.(remaining := if p.remaining.None? then None else Some(p.remaining.value - 1), current := p.current + 1,
       workers := p.workers[i := Calling(w.unit, w.operator, w.attempt, w.attempts, p.current + 1)])
  }

  lemma {:induction false} CalledOk(c: Config, p: Pool, i: nat)
    requires PoolOk(c, p) && i < |p.workers| && p.workers[i].Between? && p.remaining != Some(0) &&
      p.workers[i].operator < c.operators
    ensures PoolOk(c, Called(p, i))
  {
    var p', before := Called(p, i), p.workers[i];
    var w := p'.workers[i];
    assert WorkerOk(c, before);
    WorkerChanged(c, p, p', i, w);
  }

  lemma {:induction false} CountCallSnoc(attempts: seq<Attempt>, a: Attempt, s: nat)
    ensures CountCall(attempts + [a], s) == CountCall(attempts, s) + if a.sequence == s then 1 else 0
  {
    assert (attempts + [a])[..|attempts|] == attempts;
  }

  /** The next rung after a failed attempt. */
  function NextRung(c: Config, operator: nat, attempt: nat): (nat, nat) {
    if attempt + 1 < c.maxAttempts then (operator, attempt + 1) else (operator + 1, 0)
  }

  function AttemptOf(c: Config, w: Worker, succeeded: bool): Attempt
    requires w.Calling?
  {
    Attempt(w.sequence, w.operator, AttemptReason(w.operator, w.attempt, c.recovery), succeeded)
  }

  /** The attempt that w waited for, as it is put on record. */
  ghost predicate Records(a: Attempt, w: Worker, succeeded: bool, recovery: bool)
    requires w.Calling?
  {
    a.sequence == w.sequence && a.operator == w.operator && a.succeeded == succeeded &&
    ReasonFor(a.reason, w.operator, w.attempt, recovery)
  }

  function AfterFailure(c: Config, w: Worker): Worker
    requires w.Calling?
  {
    var (operator, attempt) := NextRung(c, w.operator, w.attempt);
    Between(w.unit, operator, attempt, w.attempts + [AttemptOf(c, w, false)])
  }

  lemma {:induction false} AfterFailureOk(c: Config, w: Worker)
    requires w.Calling? && WorkerOk(c, w)
    ensures WorkerOk(c, AfterFailure(c, w))
  {
  }

  lemma {:induction false} FailureOk(c: Config, p: Pool, i: nat)
    requires PoolOk(c, p) && i < |p.workers| && p.workers[i].Calling?
    ensures PoolOk(c, p.(workers := p.workers[i := AfterFailure(c, p.workers[i])]))
  {
    var w0 := p.workers[i];
    var w := AfterFailure(c, w0);
    var p' := p.(workers := p.workers[i := w]);
    AfterFailureOk(c, w0);
    forall s: nat
      ensures Calls(s)(w) == Calls(s)(w0)
    {
      CountCallSnoc(w0.attempts, AttemptOf(c, w0, false), s);
    }
    WorkerChanged(c, p, p', i, w);
  }

  /** The unit worker i holds ends with the result, and the worker becomes w. */
  function Ended(p: Pool, i: nat, r: UnitResult, w: Worker): Pool
    requires i < |p.workers|
  {
    p.(active := p.active - 1, results := p.results + [r], workers := p.workers[i := w])
  }

  lemma {:induction false} EndedCounts(c: Config, p: Pool, i: nat, r: UnitResult, w: Worker)
    requires PoolOk(c, p) && i < |p.workers| && Busy(p.workers[i]) && !Busy(w) && r.index == p.workers[i].unit
    requires forall s: nat :: CountCall(r.attempts, s) == Calls(s)(p.workers[i])
    ensures EachUnitOnce(Ended(p, i, r, w)) && EachCallOnce(c, Ended(p, i, r, w)) &&
      ParallelismKept(c, Ended(p, i, r, w))
  {
    var p' := Ended(p, i, r, w);
    assert (p.results + [r])[..|p.results|] == p.results;
    forall u: nat
      ensures PlacesOf(p', u) == if u < p'.next then 1 else 0
    {
      UnitsAfter(p, i, w, u);
      assert PlacesOf(p, u) == if u < p.next then 1 else 0;
    }
    forall s: nat
      ensures AttemptsNumbered(p', s) == if c.base < s <= p'.current then 1 else 0
    {
      CallsAfter(p, i, w, s);
      assert AttemptsNumbered(p, s) == if c.base < s <= p.current then 1 else 0;
    }
    SumUpdate(p.workers, i, w, Working());
  }

  lemma {:induction false} SuccessResultOk(c: Config, remaining: Option<nat>, w: Worker, value: int)
    requires w.Calling? && WorkerOk(c, w)
    ensures ResultOk(c, remaining, UnitResult(w.unit, Some(value), w.attempts + [AttemptOf(c, w, true)]))
  {
    var attempts := w.attempts + [AttemptOf(c, w, true)];
    assert attempts[..|attempts| - 1] == w.attempts;
  }

  lemma {:induction false} SucceededOk(c: Config, p: Pool, i: nat, value: int)
    requires PoolOk(c, p) && i < |p.workers| && p.workers[i].Calling?
    ensures var w := p.workers[i];
      PoolOk(c, Ended(p, i, UnitResult(w.unit, Some(value), w.attempts + [AttemptOf(c, w, true)]), Idle))
  {
    var w := p.workers[i];
    var r := UnitResult(w.unit, Some(value), w.attempts + [AttemptOf(c, w, true)]);
    assert WorkerOk(c, w);
    forall s: nat
      ensures CountCall(r.attempts, s) == Calls(s)(w)
    {
      CountCallSnoc(w.attempts, AttemptOf(c, w, true), s);
    }
    EndedCounts(c, p, i, r, Idle);
    SuccessResultOk(c, p.remaining, w, value);
    StillIn(p.workers, i, Idle, Finished(true));
    StillIn(p.workers, i, Idle, Finished(false));
    StillIn(p.workers, i, Idle, Stopped);
    AllStillOk(c, p.workers, i, Idle);
    FailuresAfter(p.results, r);
  }

  lemma {:induction false} FailuresAfter(results: seq<UnitResult>, r: UnitResult)
    ensures (exists x :: x in results + [r] && x.output.None?) <==>
      (exists x :: x in results && x.output.None?) || r.output.None?
  {
    if x :| x in results && x.output.None? { assert x in results + [r]; }
    if r.output.None? { assert r in results + [r]; }
  }

  lemma {:induction false} FailedOk(c: Config, p: Pool, i: nat)
    requires PoolOk(c, p) && i < |p.workers| && p.workers[i].Between?
    requires p.workers[i].operator >= c.operators || p.remaining == Some(0)
    ensures PoolOk(c, Ended(p, i, UnitResult(p.workers[i].unit, None, p.workers[i].attempts), Finished(true)))
  {
    var w := p.workers[i];
    var r := UnitResult(w.unit, None, w.attempts);
    assert WorkerOk(c, w);
    EndedCounts(c, p, i, r, Finished(true));
    StillIn(p.workers, i, Finished(true), Finished(true));
    StillIn(p.workers, i, Finished(true), Finished(false));
    StillIn(p.workers, i, Finished(true), Stopped);
    AllStillOk(c, p.workers, i, Finished(true));
    FailuresAfter(p.results, r);
  }

  function StopAll(ws: seq<Worker>): (r: seq<Worker>)
    ensures |r| == |ws| && forall i :: 0 <= i < |r| ==> r[i] == if ws[i].Finished? then ws[i] else Stopped
  {
    seq(|ws|, i requires 0 <= i < |ws| => if ws[i].Finished? then ws[i] else Stopped)
  }

  function Cancelled(p: Pool): Pool {
    p.(active := 0, workers := StopAll(p.workers), dropped := p.dropped + p.workers)
  }

  lemma {:induction false} CancelledOk(c: Config, p: Pool)
    requires PoolOk(c, p) && Finished(true) in p.workers
    ensures PoolOk(c, Cancelled(p))
  {
    var p' := Cancelled(p);
    forall u: nat
      ensures PlacesOf(p', u) == if u < p'.next then 1 else 0
    {
      SumAppend(p.dropped, p.workers, Holding(u));
      SumZero(p'.workers, Holding(u));
      assert PlacesOf(p, u) == if u < p.next then 1 else 0;
    }
    forall s: nat
      ensures AttemptsNumbered(p', s) == if c.base < s <= p'.current then 1 else 0
    {
      SumAppend(p.dropped, p.workers, Calls(s));
      SumZero(p'.workers, Calls(s));
      assert AttemptsNumbered(p, s) == if c.base < s <= p.current then 1 else 0;
    }
    SumZero(p'.workers, Working());
    StoppedKeepsFinished(p.workers);
  }

  lemma {:induction false} StoppedKeepsFinished(ws: seq<Worker>)
    ensures forall b :: Finished(b) in StopAll(ws) <==> Finished(b) in ws
  {
    forall b
      ensures Finished(b) in StopAll(ws) <==> Finished(b) in ws
    {
      if Finished(b) in ws {
        var j :| 0 <= j < |ws| && ws[j] == Finished(b);
        assert StopAll(ws)[j] == Finished(b);
      }
    }
  }

  // ----- the shared objects -----

  class CallBudget {
    var remaining: Option<nat>

    constructor (remaining: Option<nat>)
      ensures this.remaining == remaining
    {
      this.remaining := remaining;
    }

    method Consume() returns (ok: bool)
      modifies this
      ensures ok <==> old(remaining) != Some(0)
      ensures remaining == if ok && old(remaining).Some? then Some(old(remaining).value - 1) else old(remaining)
    {
      if remaining.None? {
        return true;
      }
      if remaining.value <= 0 {
        return false;
      }
      remaining := Some(remaining.value - 1);
      return true;
    }
  }

  class CallSequence {
    var current: nat

    constructor (current: nat)
      ensures this.current == current
    {
      this.current := current;
    }

    method Next() returns (n: nat)
      modifies this
      ensures n == current == old(current) + 1
    {
      current := current + 1;
      return current;
    }
  }

  class UnitPool {
    const config: Config
    const budget: CallBudget
    const calls: CallSequence
    var next: nat
    var active: int
    var peak: int
    var results: seq<UnitResult>
    var workers: seq<Worker>
    ghost var dropped: seq<Worker>

    ghost function Now(): Pool
      reads this, budget, calls
    {
      Pool(next, active, peak, results, workers, budget.remaining, calls.current, dropped)
    }

    ghost predicate Valid()
      reads this, budget, calls
    {
      PoolOk(config, Now())
    }

    /** As many workers as units, but not more than the limit. */
    constructor (config: Config)
      ensures Valid() && this.config == config && fresh(budget) && fresh(calls) && results == []
    {
      this.config := config;
      budget := new CallBudget(config.budget);
      calls := new CallSequence(config.base);
      next, active, peak, results, dropped := 0, 0, 0, [], [];
      workers := seq(if config.limit < config.units then config.limit else config.units, _ => Idle);
      new;
      NewPoolOk(config, Now());
    }

    /** Worker i looks for the next unit, and returns when there is none. */
    method Take(i: nat)
      requires Valid() && i < |workers| && workers[i].Idle?
      modifies this
      ensures Valid()
      ensures Now() == if old(next) < config.units then Took(old(Now()), i)
        else old(Now()).(workers := old(workers)[i := Finished(false)])
      ensures old(next) < config.units ==>
        workers[i] == Between(old(next), 0, 0, []) && next == old(next) + 1 && active == old(active) + 1
      ensures results == old(results) && forall j :: 0 <= j < |workers| && j != i ==> workers[j] == old(workers)[j]
    {
      if next == config.units {
        ExhaustedOk(config, Now(), i);
        workers := workers[i := Finished(false)];
        return;
      }
      TookOk(config, Now(), i);
      workers := workers[i := Between(next, 0, 0, [])];
      next := next + 1;
      active := active + 1;
      peak := if peak < active then active else peak;
    }

    /** Worker i starts the next attempt at its unit; with the ladder or the budget
        exhausted the unit has failed and the worker returns. */
    method Begin(i: nat)
      requires Valid() && i < |workers| && workers[i].Between?
      modifies this, budget, calls
      ensures Valid()
      ensures Now() ==
        if old(workers[i]).operator >= config.operators || old(budget.remaining) == Some(0)
        then Ended(old(Now()), i, UnitResult(old(workers[i]).unit, None, old(workers[i]).attempts), Finished(true))
        else Called(old(Now()), i)
      ensures var w := old(workers[i]);
        if w.operator < config.operators && old(budget.remaining) != Some(0)
        then workers[i] == Calling(w.unit, w.operator, w.attempt, w.attempts, old(calls.current) + 1) &&
          results == old(results) && calls.current == old(calls.current) + 1 &&
          (old(budget.remaining).Some? ==> budget.remaining == Some(old(budget.remaining).value - 1))
        else workers[i] == Finished(true) && results == old(results) + [UnitResult(w.unit, None, w.attempts)]
    {
      if workers[i].operator < config.operators {
        ghost var before := Now();
        if budget.remaining != Some(0) { CalledOk(config, before, i); }
        var ok := budget.Consume();
        if ok {
          Call(i);
          assert Now() == Called(before, i);
          return;
        }
      }
      FailedOk(config, Now(), i);
      FailUnit(i);
    }

    method Call(i: nat)
      requires i < |workers| && workers[i].Between?
      modifies this`workers, calls
      ensures calls.current == old(calls.current) + 1
      ensures var w := old(workers[i]);
        workers == old(workers)[i := Calling(w.unit, w.operator, w.attempt, w.attempts, calls.current)]
    {
      var w := workers[i];
      var sequence := calls.Next();
      workers := workers[i := Calling(w.unit, w.operator, w.attempt, w.attempts, sequence)];
    }

    method FailUnit(i: nat)
      requires i < |workers| && workers[i].Between?
      modifies this
      ensures Now() == Ended(old(Now()), i, UnitResult(old(workers[i]).unit, None, old(workers[i]).attempts),
        Finished(true))
    {
      var w := workers[i];
      active := active - 1;
      results := results + [UnitResult(w.unit, None, w.attempts)];
      workers := workers[i := Finished(true)];
    }

    /** The Operator that worker i waits for answers or fails. */
    method AttemptEnds(i: nat, output: Option<int>) returns (ghost a: Attempt)
      requires Valid() && i < |workers| && workers[i].Calling?
      modifies this
      ensures Valid()
      ensures output.None? ==> Now() == old(Now()).(workers := old(workers)[i := AfterFailure(config, old(workers[i]))])
      ensures output.Some? ==>
        Now() == Ended(old(Now()), i,
          UnitResult(old(workers[i]).unit, output,
          old(workers[i]).attempts + [AttemptOf(config, old(workers[i]), true)]), Idle)
      ensures output.None? ==> results == old(results) && workers[i].Between? && workers[i].unit == old(workers[i]).unit
      ensures Records(a, old(workers[i]), output.Some?, config.recovery)
      ensures output.None? ==> workers[i].attempts == old(workers[i]).attempts + [a]
      ensures output.Some? ==>
        results == old(results) + [UnitResult(old(workers[i]).unit, output, old(workers[i]).attempts + [a])]
    {
      var w := workers[i];
      a := AttemptOf(config, w, output.Some?);
      if output.None? {
        FailureOk(config, Now(), i);
        workers := workers[i := AfterFailure(config, w)];
        return;
      }
      SucceededOk(config, Now(), i, output.value);
      active := active - 1;
      results := results + [UnitResult(w.unit, output, w.attempts + [AttemptOf(config, w, true)])];
      workers := workers[i := Idle];
    }

    /** A failed unit cancels every worker that has not returned. */
    method CancelOthers()
      requires Valid() && Finished(true) in workers
      modifies this
      ensures Valid() && Now() == Cancelled(old(Now()))
      ensures active == 0 && results == old(results) && |workers| == old(|workers|)
      ensures forall i :: 0 <= i < |workers| ==>
        workers[i] == if old(workers)[i].Finished? then old(workers)[i] else Stopped
    {
      CancelledOk(config, Now());
      active := 0;
      dropped := dropped + workers;
      workers := StopAll(workers);
    }
  }

  lemma {:induction false} SumOfIdle(ws: seq<Worker>, f: Worker -> nat)
    requires f(Idle) == 0 && forall w :: w in ws ==> w == Idle
    ensures Sum(ws, f) == 0
  {
    forall i | 0 <= i < |ws|
      ensures f(ws[i]) == 0
    {
      assert ws[i] in ws;
    }
    SumZero(ws, f);
  }

  lemma {:induction false} NewPoolOk(c: Config, p: Pool)
    requires |p.workers| == (if c.limit < c.units then c.limit else c.units) && forall w :: w in p.workers ==> w == Idle
    requires p == Pool(0, 0, 0, [], p.workers, c.budget, c.base, [])
    ensures PoolOk(c, p)
  {
    forall u: nat
      ensures PlacesOf(p, u) == 0
    {
      SumOfIdle(p.workers, Holding(u));
    }
    forall s: nat
      ensures AttemptsNumbered(p, s) == 0
    {
      SumOfIdle(p.workers, Calls(s));
    }
    SumOfIdle(p.workers, Working());
  }

  /** One event: worker i goes on, an Operator that answers being given the output,
      or the failure of a unit is noticed. */
  datatype Turn = WorkerTurn(i: nat, output: Option<int>) | CancelTurn

  /** Any interleaving of the workers keeps all of it. */
  method Run(pool: UnitPool, turns: seq<Turn>)
    requires pool.Valid()
    modifies pool, pool.budget, pool.calls
    ensures pool.Valid()
  {
    var k := 0;
    while k < |turns|
      invariant pool.Valid()
    {
      match turns[k] {
        case WorkerTurn(i, output) =>
          if i < |pool.workers| {
            match pool.workers[i] {
              case Idle => pool.Take(i);
              case Between(_, _, _, _) => pool.Begin(i);
              case Calling(_, _, _, _, _) =>
                ghost var a := pool.AttemptEnds(i, output);
              case _ =>
            }
          }
        case CancelTurn =>
          if Finished(true) in pool.workers {
            pool.CancelOthers();
          }
      }
      k := k + 1;
    }
  }

  // ----- the outcome of the node -----

  /** Every worker has returned or was cancelled. */
  ghost predicate Settled(p: Pool) {
    forall w :: w in p.workers ==> w.Finished? || w.Stopped?
  }

  lemma {:induction false} ResultIndexes(results: seq<UnitResult>, i: nat, j: nat)
    requires i < j < |results|
    ensures results[i].index == results[j].index ==> ResultsFor(results, results[i].index) >= 2
    decreases |results|
  {
    var init := results[..|results| - 1];
    if j < |init| {
      ResultIndexes(init, i, j);
    } else {
      ResultPresent(init, i);
    }
  }

  lemma {:induction false} ResultPresent(results: seq<UnitResult>, i: nat)
    requires i < |results|
    ensures ResultsFor(results, results[i].index) >= 1
    decreases |results|
  {
    if i < |results| - 1 { ResultPresent(results[..|results| - 1], i); }
  }

  lemma {:induction false} ResultFound(results: seq<UnitResult>, u: nat)
    requires ResultsFor(results, u) >= 1
    ensures exists r :: r in results && r.index == u
  {
    var init, last := results[..|results| - 1], results[|results| - 1];
    if last.index != u {
      ResultFound(init, u);
      var r :| r in init && r.index == u;
      assert r in results;
    } else {
      assert last in results;
    }
  }

  function IndexKey(): UnitResult -> real {
    (r: UnitResult) => r.index as real
  }

  /** Results are for different units, all below the number of units. */
  lemma {:induction false} ResultsApart(c: Config, p: Pool)
    requires PoolOk(c, p)
    ensures KeysDiffer(IndexKey(), p.results)
    ensures forall r :: r in p.results ==> r.index < c.units
  {
    forall i, j | 0 <= i < j < |p.results|
      ensures p.results[i].index != p.results[j].index
    {
      ResultIndexes(p.results, i, j);
      assert PlacesOf(p, p.results[i].index) <= 1;
    }
    forall r | r in p.results
      ensures r.index < c.units
    {
      var i :| 0 <= i < |p.results| && p.results[i] == r;
      ResultPresent(p.results, i);
      assert PlacesOf(p, r.index) >= 1;
    }
  }

  /** Without a failure every unit has a result once all workers have returned. */
  lemma {:induction false} AllUnitsAnswered(c: Config, p: Pool, u: nat)
    requires PoolOk(c, p) && Settled(p) && c.limit > 0 && u < c.units
    requires forall r :: r in p.results ==> r.output.Some?
    ensures exists r :: r in p.results && r.index == u && r.output.Some?
  {
    assert Finished(true) !in p.workers;
    forall i | 0 <= i < |p.workers|
      ensures p.workers[i] == Finished(false)
    {
      assert p.workers[i] in p.workers;
    }
    assert p.workers[0] in p.workers;
    SumZero(p.workers, Holding(u));
    assert PlacesOf(p, u) == 1;
    ResultFound(p.results, u);
  }

  /** sorted holds each unit's result at its index. */
  lemma {:induction false} SortedIndexes(sorted: seq<UnitResult>, n: nat, i: nat)
    requires StrictBy(IndexKey(), sorted) && i < |sorted| && (forall r :: r in sorted ==> r.index < n)
    ensures sorted[i].index >= i && sorted[i].index + (|sorted| - 1 - i) < n
    decreases |sorted| - i
  {
    LowestFirst(sorted, i);
    if i + 1 < |sorted| {
      SortedIndexes(sorted, n, i + 1);
      assert IndexKey()(sorted[i]) < IndexKey()(sorted[i + 1]);
    } else {
      assert sorted[i] in sorted;
    }
  }

  lemma {:induction false} LowestFirst(sorted: seq<UnitResult>, i: nat)
    requires StrictBy(IndexKey(), sorted) && i < |sorted|
    ensures sorted[i].index >= i
  {
    if i > 0 {
      LowestFirst(sorted, i - 1);
      assert IndexKey()(sorted[i - 1]) < IndexKey()(sorted[i]);
    }
  }

  datatype NodeOutcome = Outputs(values: seq<int>) | UnitFailed(index: nat)

  ghost predicate FirstFailure(sorted: seq<UnitResult>, j: int) {
    0 <= j < |sorted| && sorted[j].output.None? && forall k :: 0 <= k < j ==> sorted[k].output.Some?
  }

  method CollectOutputs(sorted: seq<UnitResult>) returns (outcome: NodeOutcome)
    requires StrictBy(IndexKey(), sorted)
    ensures outcome.Outputs? ==> |outcome.values| == |sorted| && forall j :: 0 <= j < |sorted| ==>
      sorted[j].output == Some(outcome.values[j])
    ensures outcome.UnitFailed? ==> exists j :: FirstFailure(sorted, j) && sorted[j].index == outcome.index
  {
    var outputs: seq<int> := [];
    var i := 0;
    while i < |sorted|
      invariant 0 <= i <= |sorted| && |outputs| == i
      invariant forall j :: 0 <= j < i ==> sorted[j].output == Some(outputs[j])
    {
      if sorted[i].output.None? {
        assert FirstFailure(sorted, i);
        return UnitFailed(sorted[i].index);
      }
      outputs := outputs + [sorted[i].output.value];
      i := i + 1;
    }
    return Outputs(outputs);
  }

  lemma {:induction false} FirstFailureLowest(sorted: seq<UnitResult>, j: nat, r: UnitResult)
    requires StrictBy(IndexKey(), sorted) && FirstFailure(sorted, j)
    requires r in sorted && r.output.None?
    ensures sorted[j].index <= r.index
  {
    var k :| 0 <= k < |sorted| && sorted[k] == r;
    IndexOrder(sorted, j, k);
  }

  lemma {:induction false} IndexOrder(sorted: seq<UnitResult>, i: nat, j: nat)
    requires StrictBy(IndexKey(), sorted) && i < |sorted| && j < |sorted|
    ensures i <= j ==> sorted[i].index <= sorted[j].index
  {
    if i < j { assert IndexKey()(sorted[i]) < IndexKey()(sorted[j]); }
  }

  /** The outputs in unit order, or the failure of the lowest unit that failed. */
  method Aggregate(ghost c: Config, results: seq<UnitResult>, ghost p: Pool) returns (outcome: NodeOutcome)
    requires PoolOk(c, p) && Settled(p) && c.limit > 0 && results == p.results
    ensures outcome.Outputs? <==> forall r :: r in results ==> r.output.Some?
    ensures outcome.Outputs? ==> |outcome.values| == c.units == |results|
    ensures outcome.Outputs? ==> forall r :: r in results ==>
      r.index < c.units && r.output == Some(outcome.values[r.index])
    ensures outcome.UnitFailed? ==> (exists r :: r in results && r.output.None? && r.index == outcome.index)
    ensures outcome.UnitFailed? ==> forall r :: r in results && r.output.None? ==> outcome.index <= r.index
  {
    ResultsApart(c, p);
    var sorted := SortBy(IndexKey(), results);
    outcome := CollectOutputs(sorted);
    if outcome.Outputs? {
      assert forall r :: r in results ==> r in sorted;
      SortedCoverUnits(c, p, sorted);
    } else {
      ghost var j :| FirstFailure(sorted, j) && sorted[j].index == outcome.index;
      assert sorted[j] in sorted;
      forall r | r in results && r.output.None?
        ensures outcome.index <= r.index
      {
        FirstFailureLowest(sorted, j, r);
      }
    }
  }

  lemma {:induction false} SortedCoverUnits(c: Config, p: Pool, sorted: seq<UnitResult>)
    requires PoolOk(c, p) && Settled(p) && c.limit > 0 && StrictBy(IndexKey(), sorted) && |sorted| == |p.results|
    requires forall r :: r in sorted <==> r in p.results
    requires forall r :: r in p.results ==> r.output.Some? && r.index < c.units
    ensures |sorted| == c.units && forall j :: 0 <= j < |sorted| ==> sorted[j].index == j
  {
    if |sorted| > 0 { SortedIndexes(sorted, c.units, 0); }
    forall u: nat | u < c.units
      ensures HasIndex(sorted, u)
    {
      AllUnitsAnswered(c, p, u);
      var r :| r in p.results && r.index == u;
      assert r in sorted;
    }
    EnoughSorted(sorted, c.units, c.units);
    forall j | 0 <= j < |sorted|
      ensures sorted[j].index == j
    {
      SortedIndexes(sorted, c.units, j);
    }
  }

  ghost predicate HasIndex(sorted: seq<UnitResult>, u: nat) {
    exists j :: 0 <= j < |sorted| && sorted[j].index == u
  }

  /** With every index below n present, the first u places hold the first u indexes. */
  lemma {:induction false} EnoughSorted(sorted: seq<UnitResult>, n: nat, u: nat)
    requires StrictBy(IndexKey(), sorted) && u <= n && forall k: nat :: k < n ==> HasIndex(sorted, k)
    ensures |sorted| >= u && (u > 0 ==> sorted[u - 1].index == u - 1)
  {
    if u > 0 {
      EnoughSorted(sorted, n, u - 1);
      assert HasIndex(sorted, u - 1);
      var j: nat :| j < |sorted| && sorted[j].index == u - 1;
      LowestFirst(sorted, j);
      if u >= 2 { IndexOrder(sorted, j, u - 2); }
    }
  }

  /** How many results failed or succeeded. */
  function CountOf(results: seq<UnitResult>, failed: bool): nat {
    if results == [] then 0
    else CountOf(results[..|results| - 1], failed) + if results[|results| - 1].output.None? == failed then 1 else 0
  }

  ghost predicate UnitSucceeded(results: seq<UnitResult>, u: nat) {
    exists r :: r in results && r.index == u && r.output.Some?
  }

  ghost predicate UnitHasFailed(results: seq<UnitResult>, u: nat) {
    exists r :: r in results && r.index == u && r.output.None?
  }

  ghost predicate Covers(units: set<nat>, results: seq<UnitResult>, failed: bool) {
    forall u: nat :: u in units <==> if failed then UnitHasFailed(results, u) else UnitSucceeded(results, u)
  }

  lemma {:induction false} CoversNext(results: seq<UnitResult>, units: set<nat>, failed: bool)
    requires results != [] && Covers(units, results[..|results| - 1], failed)
    ensures Covers(units + (if results[|results| - 1].output.None? == failed then {results[|results| - 1].index}
      else {}),
      results, failed)
  {
    var n := |results| - 1;
    var last := results[n];
    assert results == results[..n] + [last];
    forall u: nat
      ensures UnitHasFailed(results, u) <==> UnitHasFailed(results[..n], u) || (last.index == u && last.output.None?)
      ensures UnitSucceeded(results, u) <==> UnitSucceeded(results[..n], u) || (last.index == u && last.output.Some?)
    {
      assert last in results;
      assert forall r :: r in results <==> r in results[..n] || r == last;
    }
  }

  lemma {:induction false} LastIsNew(results: seq<UnitResult>)
    requires KeysDiffer(IndexKey(), results) && results != []
    ensures forall r :: r in results[..|results| - 1] ==> r.index != results[|results| - 1].index
  {
    var n := |results| - 1;
    forall r | r in results[..n]
      ensures r.index != results[n].index
    {
      var i :| 0 <= i < n && results[i] == r;
      assert IndexKey()(results[i]) != IndexKey()(results[n]);
    }
  }

  /** Results for different units: as many units succeeded, or failed, as results did. */
  lemma {:induction false} CountedUnits(results: seq<UnitResult>, failed: bool) returns (units: set<nat>)
    requires KeysDiffer(IndexKey(), results)
    ensures Covers(units, results, failed) && |units| == CountOf(results, failed)
  {
    if results == [] {
      units := {};
    } else {
      var n := |results| - 1;
      var before := CountedUnits(results[..n], failed);
      var last := results[n];
      CoversNext(results, before, failed);
      units := before + if last.output.None? == failed then {last.index} else {};
      LastIsNew(results);
    }
  }

  ghost function UnitsBelow(n: nat): (units: set<nat>)
    ensures |units| == n && forall u: nat :: u in units <==> u < n
  {
    if n == 0 then {} else UnitsBelow(n - 1) + {n - 1}
  }

  lemma {:induction false} OneOutcome(results: seq<UnitResult>, u: nat)
    requires KeysDiffer(IndexKey(), results) && UnitSucceeded(results, u)
    ensures !UnitHasFailed(results, u)
  {
    var r :| r in results && r.index == u && r.output.Some?;
    var i :| 0 <= i < |results| && results[i] == r;
    forall t | t in results && t.index == u
      ensures t == r
    {
      var j :| 0 <= j < |results| && results[j] == t;
      assert IndexKey()(results[i]) == IndexKey()(results[j]);
    }
  }

  /** No unit both succeeds and fails, and none is out of range. */
  lemma {:induction false} OutcomesApart(c: Config, p: Pool, succeeded: set<nat>, failed: set<nat>)
    requires PoolOk(c, p) && Covers(succeeded, p.results, false) && Covers(failed, p.results, true)
    ensures succeeded !! failed && succeeded + failed <= UnitsBelow(c.units)
  {
    ResultsApart(c, p);
    forall u | u in succeeded
      ensures u !in failed
    {
      OneOutcome(p.results, u);
    }
  }

  lemma {:induction false} Parts(all: set<nat>, a: set<nat>, b: set<nat>)
    requires a !! b && a + b <= all
    ensures |a| + |b| + |all - a - b| == |all|
  {
    assert all == (a + b) + (all - a - b);
  }

  /** The summary counts units: those that succeeded, those that failed, and, as the rest,
      those without a result; no unit is counted twice or left out. */
  lemma {:induction false} SummaryAddsUp(c: Config, p: Pool) returns (succeeded: set<nat>, failed: set<nat>,
      unanswered: set<nat>)
    requires PoolOk(c, p)
    ensures forall u: nat :: u in succeeded <==> UnitSucceeded(p.results, u)
    ensures forall u: nat :: u in failed <==> UnitHasFailed(p.results, u)
    ensures forall u: nat :: u in unanswered <==>
      u < c.units && !UnitSucceeded(p.results, u) && !UnitHasFailed(p.results, u)
    ensures var success, failure := CountOf(p.results, false), CountOf(p.results, true);
      var rest := c.units - success - failure;
      var cancelled := if rest > 0 then rest else 0;
      success == |succeeded| && failure == |failed| && cancelled == |unanswered| &&
      success + failure + cancelled == c.units
  {
    ResultsApart(c, p);
    succeeded := CountedUnits(p.results, false);
    failed := CountedUnits(p.results, true);
    OutcomesApart(c, p, succeeded, failed);
    unanswered := UnitsBelow(c.units) - succeeded - failed;
    Parts(UnitsBelow(c.units), succeeded, failed);
  }

  /** Attempts started never exceed the budget, and workers never exceed the limit. */
  lemma {:induction false} WithinBudgetAndLimit(c: Config, p: Pool)
    requires PoolOk(c, p)
    ensures c.budget.Some? ==> p.current - c.base <= c.budget.value
    ensures p.active <= p.peak <= c.limit
  {
  }
}
