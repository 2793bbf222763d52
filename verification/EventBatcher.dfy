/** Batching of user events that a stream produces, between the thread that produces
    them, the event loop's callbacks and timers, and the mailbox. */
module EventBatcher {
  import opened Options
  import opened Lists

  type Spec = nat

  const MAX_ITEMS := 32

  /** What is asked of the event loop to run later, in the order asked. Ended is the
      news that the producing thread has returned. */
  datatype Callback = Deliver(batch: seq<Spec>) | Schedule(generation: nat) | Ended

  ghost function Flatten(batches: seq<seq<Spec>>): seq<Spec> {
    if batches == [] then [] else Flatten(batches[..|batches| - 1]) + batches[|batches| - 1]
  }

  /** The batches among the callbacks not run yet. */
  ghost function Deliveries(queue: seq<Callback>): seq<seq<Spec>> {
    if queue == [] then []
    else (if queue[0].Deliver? then [queue[0].batch] else []) + Deliveries(queue[1..])
  }

  lemma {:induction false} DeliveriesAppend(a: seq<Callback>, b: seq<Callback>)
    ensures Deliveries(a + b) == Deliveries(a) + Deliveries(b)
  {
    if a == [] {
      assert a + b == b;
    } else {
      assert (a + b)[1..] == a[1..] + b && (a + b)[0] == a[0];
      DeliveriesAppend(a[1..], b);
    }
  }

  lemma {:induction false} NoDeliveries(queue: seq<Callback>)
    requires forall i :: 0 <= i < |queue| ==> !queue[i].Deliver?
    ensures Deliveries(queue) == []
  {
    if queue != [] { NoDeliveries(queue[1..]); }
  }

  lemma {:induction false} FlattenSnoc(batches: seq<seq<Spec>>, batch: seq<Spec>)
    ensures Flatten(batches + [batch]) == Flatten(batches) + batch
  {
    assert (batches + [batch])[..|batches|] == batches;
  }

  /** Everything about the batcher, the loop and the mailbox. toSchedule and
      toPublish belong to the producing thread between its locked section and its requests
      to the loop; ended says that it has returned; appended and taken record the history. */
  datatype State = State(
    specs: seq<Spec>,
    generation: nat,
    toSchedule: Option<nat>,
    toPublish: seq<Spec>,
    queue: seq<Callback>,
    timers: set<nat>,
    delivered: seq<seq<Spec>>,
    ended: bool,
    appended: seq<Spec>,
    taken: seq<seq<Spec>>)

  /** Taken batches that have not reached the mailbox, oldest first. */
  ghost function InFlight(s: State): seq<seq<Spec>> {
    Deliveries(s.queue) + if s.toPublish == [] then [] else [s.toPublish]
  }

  /** Every appended spec is in one batch or still pending, in order; batches are small. */
  ghost predicate Cut(specs: seq<Spec>, appended: seq<Spec>, taken: seq<seq<Spec>>) {
    && Flatten(taken) + specs == appended
    && |specs| < 32
    && forall b :: b in taken ==> 0 < |b| <= 32
  }

  /** How often a batch occurs. */
  ghost function Copies(batches: seq<seq<Spec>>, b: seq<Spec>): nat {
    if batches == [] then 0 else Copies(batches[..|batches| - 1], b) + if batches[|batches| - 1] == b then 1 else 0
  }

  lemma {:induction false} CopiesSnoc(batches: seq<seq<Spec>>, x: seq<Spec>, b: seq<Spec>)
    ensures Copies(batches + [x], b) == Copies(batches, b) + if x == b then 1 else 0
  {
    assert (batches + [x])[..|batches|] == batches;
  }

  lemma {:induction false} CopiesCons(x: seq<Spec>, batches: seq<seq<Spec>>, b: seq<Spec>)
    ensures Copies([x] + batches, b) == Copies(batches, b) + if x == b then 1 else 0
  {
    if batches == [] {
      assert [x] + [] == [] + [x];
      CopiesSnoc([], x, b);
    } else {
      var init, last := batches[..|batches| - 1], batches[|batches| - 1];
      assert [x] + batches == [x] + init + [last] && batches == init + [last];
      CopiesCons(x, init, b);
      CopiesSnoc([x] + init, last, b);
      CopiesSnoc(init, last, b);
    }
  }

  lemma {:induction false} CopiesCount(batches: seq<seq<Spec>>, b: seq<Spec>)
    ensures Copies(batches, b) == multiset(batches)[b]
  {
    if batches != [] {
      var init, last := batches[..|batches| - 1], batches[|batches| - 1];
      assert batches == init + [last];
      CopiesCount(init, b);
    }
  }

  /** Every batch is delivered or in flight, once, and full while it is in flight. */
  ghost predicate Conserved(delivered: seq<seq<Spec>>, inFlight: seq<seq<Spec>>, taken: seq<seq<Spec>>) {
    && |delivered| + |inFlight| == |taken|
    && (forall b {:trigger Copies(taken, b)} :: Copies(delivered, b) + Copies(inFlight, b) == Copies(taken, b))
    && forall b :: b in inFlight ==> |b| == 32
  }

  /** The mailbox has the batches in the order they were taken, and will get those in
      flight so. */
  ghost predicate InOrder(s: State) {
    s.delivered + InFlight(s) == s.taken
  }

  /** The mailbox has a batch at a place where another one was taken; this stays so. */
  ghost predicate Misplaced(delivered: seq<seq<Spec>>, taken: seq<seq<Spec>>) {
    exists k: nat {:trigger delivered[k]} :: k < |delivered| <= |taken| && delivered[k] != taken[k]
  }

  ghost predicate NoDeliveryFrom(queue: seq<Callback>, i: nat) {
    forall j :: i <= j < |queue| ==> !queue[j].Deliver?
  }

  /** A deadline on its way is for a generation begun; no batch follows the one of the
      pending specs, nor the news that the thread has returned. */
  ghost predicate CallbackOk(queue: seq<Callback>, i: nat, generation: nat, pending: bool, ended: bool)
    requires i < |queue|
  {
    match queue[i]
    case Deliver(_) => true
    case Schedule(g) => g <= generation && (g == generation && pending ==> NoDeliveryFrom(queue, i + 1))
    case Ended => ended && NoDeliveryFrom(queue, i + 1)
  }

  ghost predicate QueueOk(queue: seq<Callback>, generation: nat, pending: bool, ended: bool) {
    forall i: nat {:trigger CallbackOk(queue, i, generation, pending, ended)} :: i < |queue| ==>
      CallbackOk(queue, i, generation, pending, ended)
  }

  /** Likewise for the deadlines that are running. */
  ghost predicate TimersOk(queue: seq<Callback>, timers: set<nat>, generation: nat, pending: bool) {
    forall g :: g in timers ==> g <= generation && (g == generation && pending ==> NoDeliveryFrom(queue, 0))
  }

  /** Pending specs have a deadline for the current generation on its way or running. */
  ghost predicate DeadlineComing(queue: seq<Callback>, timers: set<nat>, toSchedule: Option<nat>, generation: nat) {
    toSchedule == Some(generation) || generation in timers || Schedule(generation) in queue
  }

  ghost predicate RequestsOk(queue: seq<Callback>, timers: set<nat>, toSchedule: Option<nat>, generation: nat,
      pending: bool, publishing: bool, ended: bool) {
    && QueueOk(queue, generation, pending, ended) && TimersOk(queue, timers, generation, pending)
    && (toSchedule.Some? ==> toSchedule.value <= generation && !ended)
    && (publishing ==> !pending && !ended)
    && (pending ==> DeadlineComing(queue, timers, toSchedule, generation))
  }

  ghost predicate Requests(s: State) {
    RequestsOk(s.queue, s.timers, s.toSchedule, s.generation, s.specs != [], s.toPublish != [], s.ended)
  }

  ghost predicate BatcherOk(s: State) {
    Cut(s.specs, s.appended, s.taken) && Conserved(s.delivered, InFlight(s), s.taken) && Requests(s)
  }

  // ----- how the requests move -----

  lemma {:induction false} QueueNewGeneration(queue: seq<Callback>, generation: nat, pending: bool, ended: bool,
      pending': bool)
    requires QueueOk(queue, generation, pending, ended)
    ensures QueueOk(queue, generation + 1, pending', ended)
  {
    forall i: nat {:trigger CallbackOk(queue, i, generation + 1, pending', ended)} | i < |queue|
      ensures CallbackOk(queue, i, generation + 1, pending', ended)
    {
      assert CallbackOk(queue, i, generation, pending, ended);
    }
  }

  /** Taking the pending specs begins a generation with nothing pending. */
  lemma {:induction false} RequestsTaken(queue: seq<Callback>, timers: set<nat>, toSchedule: Option<nat>,
      generation: nat, pending: bool, publishing: bool, ended: bool, publishing': bool)
    requires RequestsOk(queue, timers, toSchedule, generation, pending, publishing, ended) && (publishing' ==> !ended)
    ensures RequestsOk(queue, timers, toSchedule, generation + 1, false, publishing', ended)
  {
    QueueNewGeneration(queue, generation, pending, ended, false);
  }

  lemma {:induction false} RequestsFired(queue: seq<Callback>, timers: set<nat>, toSchedule: Option<nat>,
      generation: nat, pending: bool, publishing: bool, ended: bool, g: nat)
    requires RequestsOk(queue, timers, toSchedule, generation, pending, publishing, ended) &&
      (g == generation ==> !pending)
    ensures RequestsOk(queue, timers - {g}, toSchedule, generation, pending, publishing, ended)
  {
  }

  lemma {:induction false} RequestsAdded(queue: seq<Callback>, timers: set<nat>, generation: nat, pending: bool)
    requires RequestsOk(queue, timers, None, generation, pending, false, false)
    ensures pending ==> RequestsOk(queue, timers, None, generation, true, false, false)
    ensures !pending ==> RequestsOk(queue, timers, Some(generation + 1), generation + 1, true, false, false)
  {
    if !pending { QueueNewGeneration(queue, generation, pending, false, true); }
  }

  lemma {:induction false} QueueNext(queue: seq<Callback>, generation: nat, pending: bool, ended: bool, c: Callback,
      ended': bool)
    requires QueueOk(queue, generation, pending, ended) && CallbackOk([c], 0, generation, pending, ended') &&
      (ended ==> ended')
    requires c.Deliver? ==> !pending && !ended
    ensures QueueOk(queue + [c], generation, pending, ended')
  {
    var queue' := queue + [c];
    forall i: nat | i < |queue'|
      ensures CallbackOk(queue', i, generation, pending, ended')
    {
      if i < |queue| { assert CallbackOk(queue, i, generation, pending, ended); }
    }
  }

  lemma {:induction false} RequestsAsked(queue: seq<Callback>, timers: set<nat>, toSchedule: Option<nat>,
      generation: nat, pending: bool, publishing: bool, ended: bool)
    requires RequestsOk(queue, timers, toSchedule, generation, pending, publishing, ended) && toSchedule.Some?
    ensures RequestsOk(queue + [Schedule(toSchedule.value)], timers, None, generation, pending, publishing, ended)
  {
    QueueNext(queue, generation, pending, ended, Schedule(toSchedule.value), ended);
  }

  lemma {:induction false} RequestsDelivery(queue: seq<Callback>, timers: set<nat>, toSchedule: Option<nat>,
      generation: nat, batch: seq<Spec>, ended: bool)
    requires RequestsOk(queue, timers, toSchedule, generation, false, true, ended)
    ensures RequestsOk(queue + [Deliver(batch)], timers, toSchedule, generation, false, false, ended)
  {
    QueueNext(queue, generation, false, ended, Deliver(batch), ended);
  }

  lemma {:induction false} RequestsEnd(queue: seq<Callback>, timers: set<nat>, generation: nat, pending: bool)
    requires RequestsOk(queue, timers, None, generation, pending, false, false)
    ensures RequestsOk(queue + [Ended], timers, None, generation, pending, false, true)
  {
    QueueNext(queue, generation, pending, false, Ended, true);
  }

  lemma {:induction false} QueuePopped(queue: seq<Callback>, generation: nat, pending: bool, ended: bool)
    requires QueueOk(queue, generation, pending, ended) && queue != []
    ensures QueueOk(queue[1..], generation, pending, ended)
  {
    var rest := queue[1..];
    forall i: nat | i < |rest|
      ensures CallbackOk(rest, i, generation, pending, ended)
    {
      assert CallbackOk(queue, i + 1, generation, pending, ended);
      assert forall j :: 0 <= j < |rest| ==> rest[j] == queue[j + 1];
    }
  }

  /** Taking the oldest callback out; a deadline taken out starts running. */
  lemma {:induction false} RequestsPopped(queue: seq<Callback>, timers: set<nat>, toSchedule: Option<nat>,
      generation: nat, pending: bool, publishing: bool, ended: bool)
    requires RequestsOk(queue, timers, toSchedule, generation, pending, publishing, ended) && queue != []
    ensures !queue[0].Schedule? ==> RequestsOk(queue[1..], timers, toSchedule, generation, pending, publishing, ended)
    ensures queue[0].Schedule? ==>
      RequestsOk(queue[1..], timers + {queue[0].generation}, toSchedule, generation, pending, publishing, ended)
    ensures queue[0].Ended? ==> NoDeliveryFrom(queue[1..], 0) && !publishing
  {
    var rest := queue[1..];
    QueuePopped(queue, generation, pending, ended);
    assert CallbackOk(queue, 0, generation, pending, ended);
    assert forall j :: 0 <= j < |rest| ==> rest[j] == queue[j + 1];
    assert queue == [queue[0]] + rest;
  }

  // ----- the loop takes the pending specs -----

  /** The pending specs leave as one batch delivered by the loop itself. */
  ghost function DeliveredNow(s: State): State {
    if s.specs == [] then s
    else s.(specs := [], generation := s.generation + 1, delivered := s.delivered + [s.specs],
            taken := s.taken + [s.specs])
  }

  lemma {:induction false} OvertakingConserves(delivered: seq<seq<Spec>>, inFlight: seq<seq<Spec>>,
      taken: seq<seq<Spec>>, batch: seq<Spec>)
    requires Conserved(delivered, inFlight, taken)
    ensures Conserved(delivered + [batch], inFlight, taken + [batch])
  {
    forall b
      ensures Copies(delivered + [batch], b) + Copies(inFlight, b) == Copies(taken + [batch], b)
    {
      CopiesSnoc(delivered, batch, b);
      CopiesSnoc(taken, batch, b);
      assert Copies(delivered, b) + Copies(inFlight, b) == Copies(taken, b);
    }
  }

  lemma {:induction false} CutTakes(specs: seq<Spec>, appended: seq<Spec>, taken: seq<seq<Spec>>)
    requires Flatten(taken) + specs == appended && 0 < |specs| <= MAX_ITEMS && forall b :: b in taken ==>
      0 < |b| <= MAX_ITEMS
    ensures Cut([], appended, taken + [specs])
  {
    FlattenSnoc(taken, specs);
  }

  /** Delivering what is pending, up to a full batch. */
  lemma {:induction false} PendingDelivered(s: State)
    requires Flatten(s.taken) + s.specs == s.appended && 0 < |s.specs| <= MAX_ITEMS &&
      (forall b :: b in s.taken ==> 0 < |b| <= MAX_ITEMS)
    requires Conserved(s.delivered, InFlight(s), s.taken) && Requests(s)
    ensures BatcherOk(DeliveredNow(s)) && InFlight(DeliveredNow(s)) == InFlight(s)
    ensures InOrder(s) && InFlight(s) == [] ==> InOrder(DeliveredNow(s))
  {
    CutTakes(s.specs, s.appended, s.taken);
    OvertakingConserves(s.delivered, InFlight(s), s.taken, s.specs);
    assert InFlight(DeliveredNow(s)) == InFlight(s);
    RequestsTaken(s.queue, s.timers, s.toSchedule, s.generation, true, s.toPublish != [], s.ended, s.toPublish != []);
  }

  lemma {:induction false} DeliveredNowOk(s: State)
    requires BatcherOk(s)
    ensures BatcherOk(DeliveredNow(s)) && InFlight(DeliveredNow(s)) == InFlight(s)
    ensures InOrder(s) && (s.specs == [] || InFlight(s) == []) ==> InOrder(DeliveredNow(s))
  {
    if s.specs != [] { PendingDelivered(s); }
  }

  /** When the running deadline of the current generation fires, nothing is in flight. */
  lemma {:induction false} DeadlineOvertakesNothing(s: State)
    requires BatcherOk(s) && s.specs != [] && s.generation in s.timers
    ensures InFlight(s) == []
  {
    NoDeliveries(s.queue);
  }

  /** A deadline that fired is gone. */
  lemma {:induction false} FiredOk(s: State, g: nat)
    requires BatcherOk(s) && (g == s.generation ==> s.specs == [])
    ensures BatcherOk(s.(timers := s.timers - {g})) && (InOrder(s) ==> InOrder(s.(timers := s.timers - {g})))
  {
    RequestsFired(s.queue, s.timers, s.toSchedule, s.generation, s.specs != [], s.toPublish != [], s.ended, g);
  }

  // ----- the producing thread -----

  /** One spec is added under the lock, before any batch is taken. */
  ghost function Added(s: State, spec: Spec): State {
    var first := s.specs == [];
    s.(specs := s.specs + [spec], appended := s.appended + [spec],
       generation := if first then s.generation + 1 else s.generation,
       toSchedule := if first then Some(s.generation + 1) else s.toSchedule)
  }

  /** One spec added by the producing thread; a full batch is taken to be published. */
  ghost function AddedByThread(s: State, spec: Spec): State {
    var t := Added(s, spec);
    if |t.specs| < MAX_ITEMS then t else BatchTaken(t)
  }

  ghost function BatchTaken(t: State): State {
    t.(specs := [], generation := t.generation + 1, toPublish := t.specs, taken := t.taken + [t.specs])
  }

  lemma {:induction false} TakenConserves(delivered: seq<seq<Spec>>, inFlight: seq<seq<Spec>>, taken: seq<seq<Spec>>,
      batch: seq<Spec>)
    requires Conserved(delivered, inFlight, taken) && |batch| == MAX_ITEMS
    ensures Conserved(delivered, inFlight + [batch], taken + [batch])
    ensures delivered + inFlight == taken ==> delivered + (inFlight + [batch]) == taken + [batch]
  {
    forall b
      ensures Copies(delivered, b) + Copies(inFlight + [batch], b) == Copies(taken + [batch], b)
    {
      CopiesSnoc(inFlight, batch, b);
      CopiesSnoc(taken, batch, b);
      assert Copies(delivered, b) + Copies(inFlight, b) == Copies(taken, b);
    }
    assert delivered + (inFlight + [batch]) == delivered + inFlight + [batch];
  }

  lemma {:induction false} CutAdds(specs: seq<Spec>, appended: seq<Spec>, taken: seq<seq<Spec>>, spec: Spec)
    requires Cut(specs, appended, taken)
    ensures Flatten(taken) + (specs + [spec]) == appended + [spec]
    ensures |specs| + 1 < MAX_ITEMS ==> Cut(specs + [spec], appended + [spec], taken)
  {
    assert Flatten(taken) + (specs + [spec]) == Flatten(taken) + specs + [spec];
  }

  lemma {:induction false} BatchTakenOk(t: State)
    requires Flatten(t.taken) + t.specs == t.appended && |t.specs| == MAX_ITEMS &&
      (forall b :: b in t.taken ==> 0 < |b| <= MAX_ITEMS)
    requires Conserved(t.delivered, InFlight(t), t.taken) && Requests(t) && !t.ended && t.toPublish == []
    ensures BatcherOk(BatchTaken(t)) && (InOrder(t) ==> InOrder(BatchTaken(t)))
  {
    CutTakes(t.specs, t.appended, t.taken);
    TakenConserves(t.delivered, InFlight(t), t.taken, t.specs);
    RequestsTaken(t.queue, t.timers, t.toSchedule, t.generation, true, false, false, true);
    assert InFlight(t) == Deliveries(t.queue);
  }

  lemma {:induction false} AddedRequests(s: State, spec: Spec)
    requires Requests(s) && !s.ended && s.toSchedule == None && s.toPublish == []
    ensures Requests(Added(s, spec)) && InFlight(Added(s, spec)) == InFlight(s)
  {
    RequestsAdded(s.queue, s.timers, s.generation, s.specs != []);
  }

  lemma {:induction false} AddedByThreadOk(s: State, spec: Spec)
    requires BatcherOk(s) && !s.ended && s.toSchedule == None && s.toPublish == []
    ensures BatcherOk(AddedByThread(s, spec)) && (InOrder(s) ==> InOrder(AddedByThread(s, spec)))
  {
    var t := Added(s, spec);
    CutAdds(s.specs, s.appended, s.taken, spec);
    AddedRequests(s, spec);
    if |t.specs| >= MAX_ITEMS { BatchTakenOk(t); }
  }

  ghost function DeadlineRequested(s: State): State
    requires s.toSchedule.Some?
  {
    s.(toSchedule := None, queue := s.queue + [Schedule(s.toSchedule.value)])
  }

  lemma {:induction false} DeadlineRequestedOk(s: State)
    requires BatcherOk(s) && s.toSchedule.Some?
    ensures BatcherOk(DeadlineRequested(s)) && InFlight(DeadlineRequested(s)) == InFlight(s)
  {
    var c := Schedule(s.toSchedule.value);
    DeliveriesAppend(s.queue, [c]);
    NoDeliveries([c]);
    assert InFlight(DeadlineRequested(s)) == InFlight(s);
    RequestsAsked(s.queue, s.timers, s.toSchedule, s.generation, s.specs != [], s.toPublish != [], s.ended);
  }

  ghost function DeliveryRequested(s: State): State {
    s.(toPublish := [], queue := s.queue + [Deliver(s.toPublish)])
  }

  lemma {:induction false} DeliveryRequestedOk(s: State)
    requires BatcherOk(s) && s.toPublish != []
    ensures BatcherOk(DeliveryRequested(s)) && InFlight(DeliveryRequested(s)) == InFlight(s)
  {
    var c := Deliver(s.toPublish);
    DeliveriesAppend(s.queue, [c]);
    assert Deliveries([c]) == [s.toPublish] by { assert [c][1..] == []; }
    assert InFlight(DeliveryRequested(s)) == InFlight(s);
    RequestsDelivery(s.queue, s.timers, s.toSchedule, s.generation, s.toPublish, s.ended);
  }

  /** One spec added by the loop: the deadline is asked for and a full batch delivered
      before anything else happens. */
  ghost function AddedOnLoop(s: State, spec: Spec): State {
    var t := Added(s, spec);
    var u := if |t.specs| < MAX_ITEMS then t else DeliveredNow(t);
    if u.toSchedule.Some? then DeadlineRequested(u) else u
  }

  lemma {:induction false} AddedOnLoopOk(s: State, spec: Spec)
    requires BatcherOk(s) && !s.ended && s.toSchedule == None && s.toPublish == []
    ensures BatcherOk(AddedOnLoop(s, spec)) && InFlight(AddedOnLoop(s, spec)) == InFlight(s)
    ensures InOrder(s) && (|s.specs| + 1 < MAX_ITEMS || InFlight(s) == []) ==> InOrder(AddedOnLoop(s, spec))
    ensures AddedOnLoop(s, spec).toSchedule == None && AddedOnLoop(s, spec).toPublish == []
  {
    var t := Added(s, spec);
    CutAdds(s.specs, s.appended, s.taken, spec);
    AddedRequests(s, spec);
    if |t.specs| >= MAX_ITEMS { PendingDelivered(t); }
    var u := if |t.specs| < MAX_ITEMS then t else DeliveredNow(t);
    assert InFlight(u) == InFlight(s);
    if u.toSchedule.Some? { DeadlineRequestedOk(u); }
  }

  /** The producing thread returns once it has made all its requests. */
  ghost function ThreadEnded(s: State): State {
    s.(ended := true, queue := s.queue + [Ended])
  }

  lemma {:induction false} ThreadEndedOk(s: State)
    requires BatcherOk(s) && !s.ended && s.toSchedule == None && s.toPublish == []
    ensures BatcherOk(ThreadEnded(s)) && (InOrder(s) ==> InOrder(ThreadEnded(s)))
  {
    DeliveriesAppend(s.queue, [Ended]);
    NoDeliveries([Ended]);
    assert InFlight(ThreadEnded(s)) == InFlight(s);
    RequestsEnd(s.queue, s.timers, s.generation, s.specs != []);
  }

  // ----- the loop runs a callback -----

  /** The loop takes the oldest callback out of the queue and does what it asks for; at
      the news that the thread has returned it flushes. */
  ghost function CallbackRun(s: State): State
    requires s.queue != []
  {
    var t := s.(queue := s.queue[1..]);
    match s.queue[0]
    case Deliver(batch) => t.(delivered := s.delivered + [batch])
    case Schedule(g) => t.(timers := s.timers + {g})
    case Ended => DeliveredNow(t)
  }

  lemma {:induction false} DeliveryConserves(delivered: seq<seq<Spec>>, inFlight: seq<seq<Spec>>,
      taken: seq<seq<Spec>>, batch: seq<Spec>)
    requires Conserved(delivered, [batch] + inFlight, taken)
    ensures Conserved(delivered + [batch], inFlight, taken)
    ensures delivered + ([batch] + inFlight) == delivered + [batch] + inFlight
  {
    forall b
      ensures Copies(delivered + [batch], b) + Copies(inFlight, b) == Copies(taken, b)
    {
      CopiesSnoc(delivered, batch, b);
      CopiesCons(batch, inFlight, b);
      assert Copies(delivered, b) + Copies([batch] + inFlight, b) == Copies(taken, b);
    }
    assert forall b :: b in inFlight ==> b in [batch] + inFlight;
  }

  lemma {:induction false} PoppedInFlight(s: State)
    requires s.queue != []
    ensures InFlight(s) == (if s.queue[0].Deliver? then [s.queue[0].batch] else []) +
      InFlight(s.(queue := s.queue[1..]))
  {
  }

  lemma {:induction false} DeliverRunOk(s: State)
    requires BatcherOk(s) && s.queue != [] && s.queue[0].Deliver?
    ensures BatcherOk(CallbackRun(s)) && (InOrder(s) ==> InOrder(CallbackRun(s)))
  {
    var t := s.(queue := s.queue[1..]);
    RequestsPopped(s.queue, s.timers, s.toSchedule, s.generation, s.specs != [], s.toPublish != [], s.ended);
    PoppedInFlight(s);
    DeliveryConserves(s.delivered, InFlight(t), s.taken, s.queue[0].batch);
  }

  lemma {:induction false} PoppedOk(s: State)
    requires BatcherOk(s) && s.queue != [] && !s.queue[0].Deliver?
    ensures var t := s.(queue := s.queue[1..]);
      InFlight(t) == InFlight(s) && Conserved(t.delivered, InFlight(t), t.taken)
  {
    PoppedInFlight(s);
    assert [] + InFlight(s.(queue := s.queue[1..])) == InFlight(s.(queue := s.queue[1..]));
  }

  lemma {:induction false} ScheduleRunOk(s: State)
    requires BatcherOk(s) && s.queue != [] && s.queue[0].Schedule?
    ensures BatcherOk(CallbackRun(s)) && (InOrder(s) ==> InOrder(CallbackRun(s)))
  {
    RequestsPopped(s.queue, s.timers, s.toSchedule, s.generation, s.specs != [], s.toPublish != [], s.ended);
    PoppedOk(s);
  }

  /** What the thread asked to be delivered is delivered before the news of its return,
      so the flush at that news overtakes nothing. */
  lemma {:induction false} EndedRunOk(s: State)
    requires BatcherOk(s) && s.queue != [] && s.queue[0].Ended?
    ensures BatcherOk(CallbackRun(s)) && (InOrder(s) ==> InOrder(CallbackRun(s)))
  {
    var t := s.(queue := s.queue[1..]);
    RequestsPopped(s.queue, s.timers, s.toSchedule, s.generation, s.specs != [], s.toPublish != [], s.ended);
    PoppedOk(s);
    NoDeliveries(t.queue);
    DeliveredNowOk(t);
  }

  /** Running a callback keeps all accounts and never delivers ahead of a batch. */
  lemma {:induction false} CallbackRunOk(s: State)
    requires BatcherOk(s) && s.queue != []
    ensures BatcherOk(CallbackRun(s)) && (InOrder(s) ==> InOrder(CallbackRun(s)))
  {
    match s.queue[0] {
      case Deliver(_) => DeliverRunOk(s);
      case Schedule(_) => ScheduleRunOk(s);
      case Ended => EndedRunOk(s);
    }
  }

  // ----- turns and runs -----

  /** FlushTurn is a flush the loop makes for a stream it consumes itself, or for one that
      is given up while its thread still runs. */
  datatype Turn =
    | ThreadTurn(spec: Spec) | ThreadEndTurn | LoopAppendTurn(spec: Spec) | CallbackTurn | TimerTurn(generation: nat)
    | FlushTurn

  /** What a turn does; one that is not possible does nothing. */
  ghost function StepOf(s: State, t: Turn): State {
    match t
    case ThreadTurn(spec) =>
      if s.ended then s
      else if s.toSchedule.Some? then DeadlineRequested(s)
      else if s.toPublish != [] then DeliveryRequested(s)
      else AddedByThread(s, spec)
    case ThreadEndTurn => if s.ended || s.toSchedule.Some? || s.toPublish != [] then s else ThreadEnded(s)
    case LoopAppendTurn(spec) => if s.ended || s.toSchedule.Some? || s.toPublish != [] then s else AddedOnLoop(s, spec)
    case CallbackTurn => if s.queue == [] then s else CallbackRun(s)
    case TimerTurn(g) => if g in s.timers then Fired(s, g) else s
    case FlushTurn => DeliveredNow(s)
  }

  /** A deadline fires; only that of the current generation flushes anything. */
  ghost function Fired(s: State, g: nat): State {
    (if g == s.generation then DeliveredNow(s) else s).(timers := s.timers - {g})
  }

  lemma {:induction false} FiredKeeps(s: State, g: nat)
    requires BatcherOk(s) && g in s.timers
    ensures BatcherOk(Fired(s, g)) && (InOrder(s) ==> InOrder(Fired(s, g)))
  {
    if g == s.generation {
      DeliveredNowOk(s);
      if s.specs != [] { DeadlineOvertakesNothing(s); }
      FiredOk(DeliveredNow(s), g);
    } else {
      FiredOk(s, g);
    }
  }

  ghost function After(s: State, turns: seq<Turn>): State {
    if turns == [] then s else StepOf(After(s, turns[..|turns| - 1]), turns[|turns| - 1])
  }

  /** The turn delivers pending specs while a batch is on its way. */
  ghost predicate Overtakes(s: State, t: Turn) {
    match t
    case FlushTurn => s.specs != [] && InFlight(s) != []
    case LoopAppendTurn(_) => !s.ended && s.toSchedule.None? && s.toPublish == [] && |s.specs| + 1 >= MAX_ITEMS &&
      InFlight(s) != []
    case _ => false
  }

  lemma {:induction false} StepKeeps(s: State, t: Turn)
    requires BatcherOk(s)
    ensures BatcherOk(StepOf(s, t)) && (InOrder(s) && !Overtakes(s, t) ==> InOrder(StepOf(s, t)))
  {
    match t {
      case ThreadTurn(spec) => ThreadStepKeeps(s, spec);
      case ThreadEndTurn => if StepOf(s, t) != s { ThreadEndedOk(s); }
      case LoopAppendTurn(spec) => LoopAppendKeeps(s, spec);
      case CallbackTurn => if s.queue != [] { CallbackRunOk(s); }
      case TimerTurn(g) => if g in s.timers { FiredKeeps(s, g); }
      case FlushTurn => FlushKeeps(s);
    }
  }

  lemma {:induction false} LoopAppendKeeps(s: State, spec: Spec)
    requires BatcherOk(s)
    ensures BatcherOk(StepOf(s, LoopAppendTurn(spec)))
    ensures InOrder(s) && !Overtakes(s, LoopAppendTurn(spec)) ==> InOrder(StepOf(s, LoopAppendTurn(spec)))
  {
    if !s.ended && s.toSchedule.None? && s.toPublish == [] { AddedOnLoopOk(s, spec); }
  }

  lemma {:induction false} FlushKeeps(s: State)
    requires BatcherOk(s)
    ensures BatcherOk(DeliveredNow(s))
    ensures InOrder(s) && !Overtakes(s, FlushTurn) ==> InOrder(DeliveredNow(s))
  {
    DeliveredNowOk(s);
  }

  lemma {:induction false} ThreadStepKeeps(s: State, spec: Spec)
    requires BatcherOk(s)
    ensures BatcherOk(StepOf(s, ThreadTurn(spec))) && (InOrder(s) ==> InOrder(StepOf(s, ThreadTurn(spec))))
  {
    if !s.ended {
      if s.toSchedule.Some? {
        DeadlineRequestedOk(s);
      } else if s.toPublish != [] {
        DeliveryRequestedOk(s);
      } else {
        AddedByThreadOk(s, spec);
      }
    }
  }

  ghost predicate OvertakesAt(s: State, turns: seq<Turn>, k: nat)
    requires k < |turns|
  {
    Overtakes(After(s, turns[..k]), turns[k])
  }

  ghost predicate NoneOvertakes(s: State, turns: seq<Turn>) {
    forall k: nat {:trigger OvertakesAt(s, turns, k)} :: k < |turns| ==> !OvertakesAt(s, turns, k)
  }

  lemma {:induction false} PrefixOvertakes(s: State, turns: seq<Turn>, n: nat, k: nat)
    requires k < n <= |turns|
    ensures OvertakesAt(s, turns[..n], k) == OvertakesAt(s, turns, k)
  {
    assert turns[..n][..k] == turns[..k];
  }

  lemma {:induction false} NoneOvertakesNext(s: State, turns: seq<Turn>)
    requires turns != []
    ensures NoneOvertakes(s, turns) <==>
      NoneOvertakes(s, turns[..|turns| - 1]) && !OvertakesAt(s, turns, |turns| - 1)
  {
    var n := |turns| - 1;
    forall k: nat {:trigger OvertakesAt(s, turns[..n], k)} {:trigger OvertakesAt(s, turns, k)} | k < n
      ensures OvertakesAt(s, turns[..n], k) == OvertakesAt(s, turns, k)
    {
      PrefixOvertakes(s, turns, n, k);
    }
  }

  /** Over every run all accounts hold, and order is kept when no turn overtakes. */
  lemma {:induction false} RunKeeps(s: State, turns: seq<Turn>)
    requires BatcherOk(s)
    ensures BatcherOk(After(s, turns))
    ensures InOrder(s) && NoneOvertakes(s, turns) ==> InOrder(After(s, turns))
  {
    if turns != [] {
      RunKeeps(s, turns[..|turns| - 1]);
      StepKeeps(After(s, turns[..|turns| - 1]), turns[|turns| - 1]);
      NoneOvertakesNext(s, turns);
    }
  }

  // ----- what turns append and take -----

  /** The producer has made its requests to the loop and can append. */
  ghost predicate CanAppend(s: State) {
    !s.ended && s.toSchedule == None && s.toPublish == []
  }

  /** Every append that can happen is recorded, and nothing else. */
  lemma {:induction false} StepAppends(s: State, t: Turn)
    ensures StepOf(s, t).appended == s.appended +
      if (t.ThreadTurn? || t.LoopAppendTurn?) && CanAppend(s) then [t.spec] else []
  {
  }

  /** The pending specs leave with this turn: a full batch, with the spec that fills it, or
      whatever is pending when the stream is flushed, the current deadline fires, or the
      loop learns that the thread has returned. */
  ghost predicate TakesPending(s: State, t: Turn) {
    match t
    case ThreadTurn(_) => CanAppend(s) && |s.specs| >= 31
    case LoopAppendTurn(_) => CanAppend(s) && |s.specs| >= 31
    case ThreadEndTurn => false
    case CallbackTurn => s.queue != [] && s.queue[0] == Ended && s.specs != []
    case TimerTurn(g) => g in s.timers && g == s.generation && s.specs != []
    case FlushTurn => s.specs != []
  }

  lemma {:induction false} StepTakes(s: State, t: Turn)
    ensures var added := StepOf(s, t).appended[|s.appended|..];
      StepOf(s, t).taken == (if TakesPending(s, t) then s.taken + [s.specs + added] else s.taken) &&
      StepOf(s, t).specs == if TakesPending(s, t) then [] else s.specs + added
  {
    StepAppends(s, t);
    assert s.specs + [] == s.specs;
  }

  /** The loop delivers itself what it takes, and the batches asked for; the thread's full
      batches wait. */
  lemma {:induction false} StepDelivers(s: State, t: Turn)
    ensures StepOf(s, t).delivered ==
      if t.CallbackTurn? && s.queue != [] && s.queue[0].Deliver? then s.delivered + [s.queue[0].batch]
      else if TakesPending(s, t) && !t.ThreadTurn?
      then s.delivered + [StepOf(s, t).taken[|StepOf(s, t).taken| - 1]]
      else s.delivered
  {
    StepTakes(s, t);
  }

  // ----- streams consumed by the loop -----

  ghost predicate LoopFed(turns: seq<Turn>) {
    forall k :: 0 <= k < |turns| ==> !turns[k].ThreadTurn? && !turns[k].ThreadEndTurn?
  }

  /** A stream that the loop consumes has no batch on its way and stays in order,
      through any number of flushes. */
  lemma {:induction false} LoopStreamInOrder(s: State, turns: seq<Turn>)
    requires BatcherOk(s) && LoopFed(turns) && InFlight(s) == [] && s.toPublish == []
    ensures InFlight(After(s, turns)) == [] && After(s, turns).toPublish == []
    ensures InOrder(s) ==> InOrder(After(s, turns))
  {
    if turns != [] {
      var init, last := turns[..|turns| - 1], turns[|turns| - 1];
      LoopStreamInOrder(s, init);
      RunKeeps(s, init);
      LoopStep(After(s, init), last);
      StepKeeps(After(s, init), last);
    }
  }

  lemma {:induction false} LoopCallback(s: State)
    requires InFlight(s) == [] && s.toPublish == [] && s.queue != []
    ensures InFlight(CallbackRun(s)) == [] && CallbackRun(s).toPublish == []
  {
    PoppedInFlight(s);
  }

  lemma {:induction false} LoopStep(s: State, t: Turn)
    requires BatcherOk(s) && InFlight(s) == [] && s.toPublish == [] && !t.ThreadTurn? && !t.ThreadEndTurn?
    ensures InFlight(StepOf(s, t)) == [] && StepOf(s, t).toPublish == []
  {
    match t {
      case LoopAppendTurn(spec) => if !s.ended && s.toSchedule.None? && s.toPublish == [] { AddedOnLoopOk(s, spec); }
      case CallbackTurn => if s.queue != [] { LoopCallback(s); }
      case TimerTurn(_) => assert InFlight(StepOf(s, t)) == InFlight(s);
      case FlushTurn => assert InFlight(StepOf(s, t)) == InFlight(s);
    }
  }

  // ----- streams fed by a thread -----

  /** The turns of a stream whose thread is let run to its end. */
  ghost predicate ThreadFed(turns: seq<Turn>) {
    forall k :: 0 <= k < |turns| ==> !turns[k].FlushTurn? && !turns[k].LoopAppendTurn?
  }

  /** Once the thread has returned, either the news is still in the queue, last, or
      everything was flushed and the queue is empty. */
  ghost predicate EndingQueue(queue: seq<Callback>, ended: bool, pending: bool) {
    && (ended ==> (queue == [] && !pending) || (queue != [] && queue[|queue| - 1].Ended?))
    && (forall i :: 0 <= i < |queue| && queue[i].Ended? ==> ended && i == |queue| - 1)
  }

  ghost predicate Ending(s: State) {
    EndingQueue(s.queue, s.ended, s.specs != [])
  }

  lemma {:induction false} EndingNext(queue: seq<Callback>, pending: bool, c: Callback, pending': bool)
    requires EndingQueue(queue, false, pending)
    ensures EndingQueue(queue + [c], c.Ended?, pending')
  {
  }

  lemma {:induction false} EndingPopped(queue: seq<Callback>, ended: bool, pending: bool)
    requires EndingQueue(queue, ended, pending) && queue != []
    ensures EndingQueue(queue[1..], ended, pending && !queue[0].Ended?)
  {
    assert forall j :: 0 <= j < |queue[1..]| ==> queue[1..][j] == queue[j + 1];
  }

  lemma {:induction false} EndingThread(s: State, spec: Spec)
    requires Ending(s) && !s.ended
    ensures Ending(StepOf(s, ThreadTurn(spec)))
  {
    if s.toSchedule.Some? {
      EndingNext(s.queue, s.specs != [], Schedule(s.toSchedule.value), s.specs != []);
    } else if s.toPublish != [] {
      EndingNext(s.queue, s.specs != [], Deliver(s.toPublish), s.specs != []);
    }
  }

  lemma {:induction false} EndingCallback(s: State)
    requires Ending(s) && s.queue != []
    ensures Ending(CallbackRun(s))
  {
    EndingPopped(s.queue, s.ended, s.specs != []);
  }

  lemma {:induction false} EndingStep(s: State, t: Turn)
    requires Ending(s) && !t.FlushTurn? && !t.LoopAppendTurn?
    ensures Ending(StepOf(s, t))
  {
    match t {
      case ThreadTurn(spec) => if !s.ended { EndingThread(s, spec); }
      case ThreadEndTurn => if !s.ended { EndingNext(s.queue, s.specs != [], Ended, s.specs != []); }
      case CallbackTurn => if s.queue != [] { EndingCallback(s); }
      case TimerTurn(g) =>
    }
  }

  lemma {:induction false} EndingKept(s: State, turns: seq<Turn>)
    requires Ending(s) && ThreadFed(turns)
    ensures Ending(After(s, turns))
  {
    if turns != [] {
      EndingKept(s, turns[..|turns| - 1]);
      EndingStep(After(s, turns[..|turns| - 1]), turns[|turns| - 1]);
    }
  }

  ghost function Fresh(): (s: State)
    ensures BatcherOk(s) && Ending(s) && InOrder(s)
  {
    State([], 0, None, [], [], {}, [], false, [], [])
  }

  /** A stream whose thread runs to its end stays in order; once the loop has run all
      that was asked of it, the mailbox holds exactly what was appended. */
  lemma {:induction false} ThreadStreamComplete(turns: seq<Turn>)
    requires ThreadFed(turns)
    ensures var s := After(Fresh(), turns);
      InOrder(s) && (s.ended && s.queue == [] ==> Flatten(s.delivered) == s.appended)
  {
    RunKeeps(Fresh(), turns);
    EndingKept(Fresh(), turns);
    var s := After(Fresh(), turns);
    if s.ended && s.queue == [] { DrainedIsComplete(s); }
  }

  /** Any run from a fresh batcher that leaves nothing pending or on its way has delivered
      every appended spec; in order of appending if no turn overtook. */
  lemma {:induction false} FinishedIsComplete(turns: seq<Turn>)
    ensures var s := After(Fresh(), turns);
      s.specs == [] && InFlight(s) == [] ==>
        multiset(s.delivered) == multiset(s.taken) && Flatten(s.taken) == s.appended
        && (NoneOvertakes(Fresh(), turns) ==> Flatten(s.delivered) == s.appended)
  {
    RunKeeps(Fresh(), turns);
    var s := After(Fresh(), turns);
    if s.specs == [] && InFlight(s) == [] { DrainedIsComplete(s); }
  }

  lemma {:induction false} DrainedIsComplete(s: State)
    requires BatcherOk(s) && s.specs == [] && InFlight(s) == []
    ensures multiset(s.delivered) == multiset(s.taken) && Flatten(s.taken) == s.appended
    ensures InOrder(s) ==> Flatten(s.delivered) == s.appended
  {
    assert s.delivered + [] == s.delivered;
    assert Flatten(s.taken) + [] == Flatten(s.taken);
    forall b
      ensures multiset(s.delivered)[b] == multiset(s.taken)[b]
    {
      CopiesCount(s.delivered, b);
      CopiesCount(s.taken, b);
      assert Copies(s.delivered, b) + Copies([], b) == Copies(s.taken, b);
    }
  }

  // ----- overtaking -----

  lemma {:induction false} SamePastAll(x: seq<Spec>, f: seq<seq<Spec>>)
    ensures [x] + f == f + [x] <==> forall b :: b in f ==> b == x
  {
    if f == [] {
      assert [x] + f == f + [x];
    } else {
      var rest := f[1..];
      assert f == [f[0]] + rest;
      SamePastAll(x, rest);
      if [x] + f == f + [x] {
        assert ([x] + f)[0] == (f + [x])[0];
        assert f[0] == x;
        assert ([x] + f)[1..] == f && (f + [x])[1..] == rest + [x];
      }
      if forall b :: b in f ==> b == x {
        assert f[0] in f && forall b :: b in rest ==> b in f;
        assert f + [x] == [f[0]] + (rest + [x]);
      }
    }
  }

  lemma {:induction false} AppendedOrder(d: seq<seq<Spec>>, f: seq<seq<Spec>>, x: seq<Spec>)
    ensures d + [x] + f == d + f + [x] <==> [x] + f == f + [x]
  {
    assert d + [x] + f == d + ([x] + f) && d + f + [x] == d + (f + [x]);
    if d + ([x] + f) == d + (f + [x]) {
      assert [x] + f == (d + ([x] + f))[|d|..];
      assert f + [x] == (d + (f + [x]))[|d|..];
    }
  }

  /** A flush keeps the order exactly when no batch is in flight: one in flight is full,
      the flushed one is not. */
  lemma {:induction false} FlushKeepsOrderExactly(s: State)
    requires BatcherOk(s) && InOrder(s) && s.specs != []
    ensures InOrder(DeliveredNow(s)) <==> InFlight(s) == []
  {
    DeliveredNowOk(s);
    if InFlight(s) != [] {
      FlushMisplaces(s);
      MisplacedNotInOrder(DeliveredNow(s));
    }
  }

  /** A full batch that the loop delivers itself keeps the order exactly when every batch
      in flight equals it. */
  lemma {:induction false} LoopAppendKeepsOrderExactly(s: State, spec: Spec)
    requires BatcherOk(s) && InOrder(s) && !s.ended && s.toSchedule == None && s.toPublish == []
    requires |s.specs| + 1 >= MAX_ITEMS
    ensures InOrder(StepOf(s, LoopAppendTurn(spec))) <==> forall b :: b in InFlight(s) ==> b == s.specs + [spec]
  {
    AddedOnLoopOk(s, spec);
    AppendedOrder(s.delivered, InFlight(s), s.specs + [spec]);
    SamePastAll(s.specs + [spec], InFlight(s));
  }

  lemma {:induction false} MisplacedNotInOrder(s: State)
    requires Misplaced(s.delivered, s.taken)
    ensures !InOrder(s)
  {
    var k: nat :| k < |s.delivered| <= |s.taken| && s.delivered[k] != s.taken[k];
    assert (s.delivered + InFlight(s))[k] == s.delivered[k];
  }

  lemma {:induction false} OvertakenMisplaced(d: seq<seq<Spec>>, f: seq<seq<Spec>>, x: seq<Spec>)
    requires f != [] && f[0] != x
    ensures Misplaced(d + [x], d + f + [x])
  {
    assert (d + [x])[|d|] == x && (d + f + [x])[|d|] == f[0];
  }

  lemma {:induction false} FlushMisplaces(s: State)
    requires BatcherOk(s) && InOrder(s) && s.specs != [] && InFlight(s) != []
    ensures Misplaced(DeliveredNow(s).delivered, DeliveredNow(s).taken)
  {
    assert InFlight(s)[0] in InFlight(s);
    OvertakenMisplaced(s.delivered, InFlight(s), s.specs);
  }

  lemma {:induction false} MisplacedStays(d: seq<seq<Spec>>, t: seq<seq<Spec>>, d': seq<seq<Spec>>, t': seq<seq<Spec>>)
    requires Misplaced(d, t) && d <= d' && t <= t' && |d'| <= |t'|
    ensures Misplaced(d', t')
  {
    var k: nat :| k < |d| <= |t| && d[k] != t[k];
    assert d'[k] == d[k] && t'[k] == t[k];
  }

  /** Nothing is taken back from the mailbox or the history. */
  lemma {:induction false} StepGrows(s: State, t: Turn)
    ensures s.delivered <= StepOf(s, t).delivered && s.taken <= StepOf(s, t).taken &&
      s.appended <= StepOf(s, t).appended
  {
  }

  /** A loop append that overtakes delivers another batch than the next one in flight. */
  ghost predicate Visible(s: State, t: Turn) {
    Overtakes(s, t) && t.LoopAppendTurn? ==> InFlight(s)[0] != s.specs + [t.spec]
  }

  lemma {:induction false} OvertakingMisplaces(s: State, t: Turn)
    requires BatcherOk(s) && InOrder(s) && Overtakes(s, t) && Visible(s, t)
    ensures Misplaced(StepOf(s, t).delivered, StepOf(s, t).taken)
  {
    match t {
      case FlushTurn => FlushMisplaces(s);
      case LoopAppendTurn(spec) => OvertakenMisplaced(s.delivered, InFlight(s), s.specs + [spec]);
    }
  }

  lemma {:induction false} StepOrder(s: State, t: Turn)
    requires BatcherOk(s) && Visible(s, t) && (InOrder(s) || Misplaced(s.delivered, s.taken))
    ensures BatcherOk(StepOf(s, t))
    ensures InOrder(StepOf(s, t)) || Misplaced(StepOf(s, t).delivered, StepOf(s, t).taken)
    ensures InOrder(StepOf(s, t)) <==> InOrder(s) && !Overtakes(s, t)
  {
    var next := StepOf(s, t);
    StepKeeps(s, t);
    if Misplaced(s.delivered, s.taken) {
      StepGrows(s, t);
      MisplacedStays(s.delivered, s.taken, next.delivered, next.taken);
      MisplacedNotInOrder(s);
      MisplacedNotInOrder(next);
    } else if Overtakes(s, t) {
      OvertakingMisplaces(s, t);
      MisplacedNotInOrder(next);
    }
  }

  lemma {:induction false} InFlightTaken(s: State, b: seq<Spec>)
    requires BatcherOk(s) && b in InFlight(s)
    ensures b in s.taken && b != []
  {
    CopiesCount(InFlight(s), b);
    CopiesCount(s.taken, b);
    assert Copies(s.delivered, b) + Copies(InFlight(s), b) == Copies(s.taken, b);
  }

  lemma {:induction false} InFlatten(batches: seq<seq<Spec>>, b: seq<Spec>, x: Spec)
    requires b in batches && x in b
    ensures x in Flatten(batches)
  {
    var init, last := batches[..|batches| - 1], batches[|batches| - 1];
    assert batches == init + [last];
    if x !in last { InFlatten(init, b, x); }
  }

  lemma {:induction false} DistinctApart(a: seq<Spec>, b: seq<Spec>, x: Spec)
    requires Distinct(a + b) && x in a
    ensures x !in b
  {
    var i :| 0 <= i < |a| && a[i] == x;
    forall j | 0 <= j < |b| ensures b[j] != x { assert (a + b)[i] == x && (a + b)[|a| + j] == b[j]; }
  }

  /** With all specs different no two batches are equal. */
  lemma {:induction false} DistinctVisible(s: State, t: Turn)
    requires BatcherOk(s) && Distinct(StepOf(s, t).appended)
    ensures Visible(s, t)
  {
    if Overtakes(s, t) && t.LoopAppendTurn? {
      var first, batch := InFlight(s)[0], s.specs + [t.spec];
      InFlightTaken(s, first);
      InFlatten(s.taken, first, first[0]);
      assert StepOf(s, t).appended == Flatten(s.taken) + batch;
      DistinctApart(Flatten(s.taken), batch, first[0]);
    }
  }

  ghost predicate NoLoopAppends(turns: seq<Turn>) {
    forall k :: 0 <= k < |turns| ==> !turns[k].LoopAppendTurn?
  }

  lemma {:induction false} DistinctPrefix(a: seq<Spec>, b: seq<Spec>)
    requires a <= b && Distinct(b)
    ensures Distinct(a)
  {
    forall i, j | 0 <= i < j < |a| ensures a[i] != a[j] { assert a[i] == b[i] && a[j] == b[j]; }
  }

  /** Batches can be told apart: the loop appends none, or no spec occurs twice. */
  ghost predicate Telling(s: State, turns: seq<Turn>) {
    NoLoopAppends(turns) || Distinct(After(s, turns).appended)
  }

  lemma {:induction false} TellingPrefix(s: State, turns: seq<Turn>)
    requires turns != [] && Telling(s, turns) && BatcherOk(After(s, turns[..|turns| - 1]))
    ensures Telling(s, turns[..|turns| - 1]) && Visible(After(s, turns[..|turns| - 1]), turns[|turns| - 1])
  {
    var init, last := turns[..|turns| - 1], turns[|turns| - 1];
    if NoLoopAppends(turns) {
      assert NoLoopAppends(init);
    } else {
      StepGrows(After(s, init), last);
      DistinctPrefix(After(s, init).appended, After(s, turns).appended);
      DistinctVisible(After(s, init), last);
    }
  }

  lemma {:induction false} RunOrder(s: State, turns: seq<Turn>)
    requires BatcherOk(s) && InOrder(s) && Telling(s, turns)
    ensures InOrder(After(s, turns)) || Misplaced(After(s, turns).delivered, After(s, turns).taken)
    ensures InOrder(After(s, turns)) <==> NoneOvertakes(s, turns)
  {
    if turns != [] {
      var init := turns[..|turns| - 1];
      RunKeeps(s, init);
      TellingPrefix(s, turns);
      RunOrder(s, init);
      StepOrder(After(s, init), turns[|turns| - 1]);
      NoneOvertakesNext(s, turns);
    }
  }

  /** The mailbox and what is on its way to it have the batches in the order they were
      taken exactly when no turn overtook: for streams fed by a thread whatever the specs
      are, and for all turns when no spec occurs twice. */
  lemma {:induction false} OrderExactly(turns: seq<Turn>)
    requires Telling(Fresh(), turns)
    ensures var s := After(Fresh(), turns); s.delivered + InFlight(s) == s.taken <==> NoneOvertakes(Fresh(), turns)
  {
    RunOrder(Fresh(), turns);
  }

  lemma {:induction false} LastOfFlatten(d: seq<seq<Spec>>)
    requires d != [] && d[|d| - 1] != []
    ensures var last := d[|d| - 1]; Flatten(d) != [] && Flatten(d)[|Flatten(d)| - 1] == last[|last| - 1]
  {
  }

  /** Specs that are all different can be cut in one way only into batches of a set. */
  lemma {:induction false} SameCut(d: seq<seq<Spec>>, t: seq<seq<Spec>>)
    requires Flatten(d) == Flatten(t) && Distinct(Flatten(t))
    requires (forall b :: b in t ==> b != []) && forall b :: b in d ==> b in t
    ensures d == t
  {
    if t != [] {
      assert t[|t| - 1] in t;
      LastOfFlatten(t);
    }
    if d != [] {
      var d0, x := d[..|d| - 1], d[|d| - 1];
      assert d == d0 + [x] && x in d;
      LastOfFlatten(d);
      assert t != [];
      var t0, y := t[..|t| - 1], t[|t| - 1];
      assert t == t0 + [y] && y in t;
      if x in t0 {
        InFlatten(t0, x, x[|x| - 1]);
        DistinctApart(Flatten(t0), y, x[|x| - 1]);
      }
      assert x == y;
      SameFront(Flatten(d0), Flatten(t0), x);
      DistinctPrefix(Flatten(t0), Flatten(t));
      forall b | b in d0
        ensures b in t0
      {
        assert b in d;
        if b == y {
          InFlatten(d0, b, b[0]);
          DistinctApart(Flatten(d0), y, b[0]);
        }
      }
      assert forall b :: b in t0 ==> b in t;
      SameCut(d0, t0);
    }
  }

  lemma {:induction false} SameFront(a: seq<Spec>, b: seq<Spec>, x: seq<Spec>)
    requires a + x == b + x
    ensures a == b
  {
    assert |a + x| == |b + x|;
    assert a == (a + x)[..|a|] && b == (b + x)[..|b|];
  }

  /** With all specs different, a run that leaves nothing pending or on its way has filled
      the mailbox in the order of appending exactly when no turn overtook. */
  lemma {:induction false} FinishedExactly(turns: seq<Turn>)
    requires Distinct(After(Fresh(), turns).appended)
    requires After(Fresh(), turns).specs == [] && InFlight(After(Fresh(), turns)) == []
    ensures var s := After(Fresh(), turns); Flatten(s.delivered) == s.appended <==> NoneOvertakes(Fresh(), turns)
  {
    var s := After(Fresh(), turns);
    RunKeeps(Fresh(), turns);
    RunOrder(Fresh(), turns);
    DrainedIsComplete(s);
    if Flatten(s.delivered) == s.appended {
      forall b | b in s.delivered
        ensures b in s.taken
      {
        assert multiset(s.delivered)[b] == multiset(s.taken)[b];
      }
      SameCut(s.delivered, s.taken);
    }
  }

  lemma {:induction false} AfterNext(s: State, turns: seq<Turn>, t: Turn)
    ensures After(s, turns + [t]) == StepOf(After(s, turns), t)
  {
    assert (turns + [t])[..|turns|] == turns;
  }

  lemma {:induction false} AfterConcat(s: State, a: seq<Turn>, b: seq<Turn>)
    ensures After(s, a + b) == After(After(s, a), b)
  {
    if b == [] {
      assert a + b == a;
    } else {
      assert (a + b)[..|a + b| - 1] == a + b[..|b| - 1];
      AfterConcat(s, a, b[..|b| - 1]);
    }
  }

  ghost function Zeros(n: nat): (r: seq<Spec>)
    ensures |r| == n && forall i :: 0 <= i < n ==> r[i] == 0
  {
    if n == 0 then [] else Zeros(n - 1) + [0]
  }

  /** The thread has no request outstanding and a batch begun with room for n more. */
  ghost predicate Room(s: State, n: nat) {
    !s.ended && s.toSchedule == None && s.toPublish == [] && s.specs != [] && |s.specs| + n < MAX_ITEMS
  }

  ghost function Piled(s: State, n: nat): State {
    s.(specs := s.specs + Zeros(n), appended := s.appended + Zeros(n))
  }

  /** Appends below the batch size just pile up. */
  lemma {:induction false} PilesUp(s: State)
    requires !s.ended && s.toSchedule == None && s.toPublish == [] && s.specs != [] && |s.specs| + 1 < MAX_ITEMS
    ensures StepOf(s, ThreadTurn(0)) == Piled(s, 1)
  {
    assert Zeros(1) == [0];
  }

  lemma {:induction false} PiledTwice(s: State, n: nat)
    ensures Piled(Piled(s, n), 1) == Piled(s, n + 1)
  {
    assert Zeros(n) + Zeros(1) == Zeros(n + 1);
    assert s.specs + Zeros(n) + Zeros(1) == s.specs + Zeros(n + 1);
    assert s.appended + Zeros(n) + Zeros(1) == s.appended + Zeros(n + 1);
  }

  lemma {:induction false} PiledNext(s: State, n: nat)
    requires Room(s, n + 1)
    ensures StepOf(Piled(s, n), ThreadTurn(0)) == Piled(s, n + 1)
  {
    PilesUp(Piled(s, n));
    PiledTwice(s, n);
  }

  lemma {:induction false} PiledNone(s: State)
    ensures Piled(s, 0) == s
  {
    assert s.specs + [] == s.specs && s.appended + [] == s.appended;
  }

  lemma {:induction false} Fills(s: State, turns: seq<Turn>)
    requires Room(s, |turns|) && forall k :: 0 <= k < |turns| ==> turns[k] == ThreadTurn(0)
    ensures After(s, turns) == Piled(s, |turns|)
  {
    if turns == [] {
      PiledNone(s);
    } else {
      Fills(s, turns[..|turns| - 1]);
      PiledNext(s, |turns| - 1);
    }
  }

  ghost function ThreadTurns(n: nat): (turns: seq<Turn>)
    ensures |turns| == n && forall k :: 0 <= k < n ==> turns[k] == ThreadTurn(0)
  {
    seq(n, _ => ThreadTurn(0))
  }

  ghost function FilledTurns(): seq<Turn> {
    [ThreadTurn(0), ThreadTurn(0)] + ThreadTurns(30)
  }

  /** A run that overtakes: a thread fills one batch with zeros and asks for its delivery,
      appends x, and then the stream is given up before the loop gets to the batch. */
  ghost function OvertakingTurns(x: Spec): seq<Turn> {
    FilledTurns() + [ThreadTurn(0), ThreadTurn(0)] + [ThreadTurn(x), FlushTurn] + [CallbackTurn, CallbackTurn]
  }

  lemma {:induction false} TwoTurns(s: State, t: Turn, u: Turn)
    ensures After(s, [t, u]) == StepOf(StepOf(s, t), u)
  {
    assert [] + [t] == [t] && [t] + [u] == [t, u];
    AfterNext(s, [], t);
    AfterNext(s, [t], u);
  }

  lemma {:induction false} FirstOne()
    ensures StepOf(Fresh(), ThreadTurn(0)) == State([0], 1, Some(1), [], [], {}, [], false, [0], [])
  {
  }

  lemma {:induction false} FirstTwo()
    ensures After(Fresh(), [ThreadTurn(0), ThreadTurn(0)]) ==
      State([0], 1, None, [], [Schedule(1)], {}, [], false, [0], [])
  {
    FirstOne();
    TwoTurns(Fresh(), ThreadTurn(0), ThreadTurn(0));
    assert [] + [Schedule(1)] == [Schedule(1)];
  }

  lemma {:induction false} FilledBatch(s: State)
    requires s == After(Fresh(), FilledTurns())
    ensures s == State(Zeros(31), 1, None, [], [Schedule(1)], {}, [], false, Zeros(31), [])
  {
    FirstTwo();
    AfterConcat(Fresh(), [ThreadTurn(0), ThreadTurn(0)], ThreadTurns(30));
    Fills(State([0], 1, None, [], [Schedule(1)], {}, [], false, [0], []), ThreadTurns(30));
    ZerosFirst(30);
  }

  lemma {:induction false} ZerosFirst(n: nat)
    ensures [0] + Zeros(n) == Zeros(n + 1)
  {
  }

  lemma {:induction false} ZerosFlat(x: Spec)
    ensures Flatten([[x], Zeros(32)]) == [x] + Zeros(32)
  {
    FlattenSnoc([[x]], Zeros(32));
    FlattenSnoc([], [x]);
    assert [[x]] + [Zeros(32)] == [[x], Zeros(32)] && [] + [[x]] == [[x]];
  }

  lemma {:induction false} OvertakingRun(x: Spec)
    ensures var s := After(Fresh(), OvertakingTurns(x));
      && s.specs == [] && InFlight(s) == [] && s.delivered == [[x], Zeros(32)]
      && s.appended == Zeros(32) + [x] && s.taken == [Zeros(32), [x]]
  {
    var taken := FilledTurns() + [ThreadTurn(0), ThreadTurn(0)];
    var over := taken + [ThreadTurn(x), FlushTurn];
    FilledBatch(After(Fresh(), FilledTurns()));
    AfterConcat(Fresh(), FilledTurns(), [ThreadTurn(0), ThreadTurn(0)]);
    TakesBatch(After(Fresh(), FilledTurns()));
    AfterConcat(Fresh(), taken, [ThreadTurn(x), FlushTurn]);
    GivenUp(After(Fresh(), taken), x);
    AfterConcat(Fresh(), over, [CallbackTurn, CallbackTurn]);
    DrainsTwo(After(Fresh(), over), x);
  }

  /** x reaches the mailbox before the zeros, in a batch of its own; only when x is itself
      a zero the specs come as they were appended. */
  lemma {:induction false} OvertakingHappens(x: Spec)
    ensures !NoneOvertakes(Fresh(), OvertakingTurns(x))
    ensures var s := After(Fresh(), OvertakingTurns(x));
      && s.specs == [] && InFlight(s) == [] && s.delivered == [[x], Zeros(32)] && s.appended == Zeros(32) + [x]
      && (Flatten(s.delivered) == s.appended <==> x == 0)
  {
    var s := After(Fresh(), OvertakingTurns(x));
    OvertakingRun(x);
    NoAppendsThere(x);
    OrderExactly(OvertakingTurns(x));
    FirstDiffers(s, x);
    ZerosFlat(x);
    OneMoreZero(x);
  }

  lemma {:induction false} NoAppendsThere(x: Spec)
    ensures NoLoopAppends(OvertakingTurns(x))
  {
  }

  lemma {:induction false} FirstDiffers(s: State, x: Spec)
    requires s.delivered == [[x], Zeros(32)] && s.taken == [Zeros(32), [x]]
    ensures !InOrder(s)
  {
    assert (s.delivered + InFlight(s))[0] == [x] && |s.taken[0]| == 32;
  }

  lemma {:induction false} OneMoreZero(x: Spec)
    ensures [x] + Zeros(32) == Zeros(32) + [x] <==> x == 0
  {
    assert ([x] + Zeros(32))[0] == x && (Zeros(32) + [x])[0] == 0;
    if x == 0 { ZerosFirst(32); }
  }

  lemma {:induction false} TakesBatch(s0: State)
    requires s0 == State(Zeros(31), 1, None, [], [Schedule(1)], {}, [], false, Zeros(31), [])
    ensures After(s0, [ThreadTurn(0), ThreadTurn(0)]) ==
      State([], 2, None, [], [Schedule(1), Deliver(Zeros(32))], {}, [], false, Zeros(32), [Zeros(32)])
  {
    assert Zeros(31) + [0] == Zeros(32);
    var s1 := StepOf(s0, ThreadTurn(0));
    assert s1 == State([], 2, None, Zeros(32), [Schedule(1)], {}, [], false, Zeros(32), [Zeros(32)]);
    TwoTurns(s0, ThreadTurn(0), ThreadTurn(0));
  }

  lemma {:induction false} GivenUp(s2: State, x: Spec)
    requires s2 == State([], 2, None, [], [Schedule(1), Deliver(Zeros(32))], {}, [], false, Zeros(32), [Zeros(32)])
    ensures After(s2, [ThreadTurn(x), FlushTurn]) == Given(x)
  {
    var s3 := StepOf(s2, ThreadTurn(x));
    assert s3.specs == [x] && s3.generation == 3 && s3.toSchedule == Some(3) && s3.queue == s2.queue;
    QueuedDelivery();
    TwoTurns(s2, ThreadTurn(x), FlushTurn);
  }

  /** The stream is given up: x is in the mailbox, the full batch is not. */
  ghost function Given(x: Spec): State {
    State([], 4, Some(3), [], [Schedule(1), Deliver(Zeros(32))], {}, [[x]], false, Zeros(32) + [x], [Zeros(32), [x]])
  }

  lemma {:induction false} QueuedDelivery()
    ensures Deliveries([Schedule(1), Deliver(Zeros(32))]) == [Zeros(32)]
  {
    assert [Schedule(1), Deliver(Zeros(32))][1..] == [Deliver(Zeros(32))];
    assert [Deliver(Zeros(32))][1..] == [];
  }

  lemma {:induction false} DrainsTwo(s: State, x: Spec)
    requires s == Given(x)
    ensures var t := After(s, [CallbackTurn, CallbackTurn]);
      && t.specs == [] && InFlight(t) == [] && t.delivered == [[x], Zeros(32)]
      && t.appended == Zeros(32) + [x] && t.taken == [Zeros(32), [x]]
  {
    TwoTurns(s, CallbackTurn, CallbackTurn);
    assert [Schedule(1), Deliver(Zeros(32))][1..] == [Deliver(Zeros(32))] && [Deliver(Zeros(32))][1..] == [];
    assert [[x]] + [Zeros(32)] == [[x], Zeros(32)];
  }

  // ----- the batcher -----

  class StreamEventBatcher {
    var specs: seq<Spec>
    var generation: nat
    var toSchedule: Option<nat>
    var toPublish: seq<Spec>
    var queue: seq<Callback>
    var timers: set<nat>
    var delivered: seq<seq<Spec>>
    var ended: bool
    ghost var appended: seq<Spec>
    ghost var taken: seq<seq<Spec>>

    ghost function Now(): State
      reads this
    {
      State(specs, generation, toSchedule, toPublish, queue, timers, delivered, ended, appended, taken)
    }

    ghost predicate Valid()
      reads this
    {
      BatcherOk(Now())
    }

    constructor ()
      ensures Valid() && Now() == Fresh()
    {
      specs, generation, toSchedule, toPublish, queue, timers, delivered, ended := [], 0, None, [], [], {}, [], false;
      appended, taken := [], [];
    }

    /** The locked part of an append on the producing thread. */
    method AppendLocked(spec: Spec)
      modifies this
      ensures Now() == AddedByThread(old(Now()), spec)
      ensures appended == old(appended) + [spec] && delivered == old(delivered)
      ensures |old(specs)| < 31 ==>
        specs == old(specs) + [spec] && toPublish == old(toPublish) && taken == old(taken)
      ensures |old(specs)| >= 31 ==>
        specs == [] && toPublish == old(specs) + [spec] && taken == old(taken) + [toPublish]
    {
      Append(spec);
      if |specs| >= MAX_ITEMS {
        var batch := TakeLocked();
        toPublish := batch;
      }
    }

    /** An append from the loop itself, for a stream consumed there. */
    method AppendOnLoop(spec: Spec)
      modifies this
      ensures Now() == AddedOnLoop(old(Now()), spec)
      ensures appended == old(appended) + [spec] && toPublish == old(toPublish)
      ensures |old(specs)| < 31 ==> specs == old(specs) + [spec] && delivered == old(delivered)
      ensures |old(specs)| >= 31 ==> specs == [] && delivered == old(delivered) + [old(specs) + [spec]]
    {
      Append(spec);
      if |specs| >= MAX_ITEMS {
        FlushNow();
      }
      if toSchedule.Some? {
        RequestDeadline();
      }
    }

    method Append(spec: Spec)
      modifies this
      ensures Now() == Added(old(Now()), spec)
    {
      if specs == [] {
        generation := generation + 1;
        toSchedule := Some(generation);
      }
      specs := specs + [spec];
      appended := appended + [spec];
    }

    method TakeLocked() returns (batch: seq<Spec>)
      modifies this
      ensures batch == old(specs)
      ensures Now() == if old(specs) == [] then old(Now())
        else old(Now()).(specs := [], generation := old(generation) + 1, taken := old(taken) + [old(specs)])
    {
      batch := specs;
      if specs != [] {
        taken := taken + [specs];
        specs := [];
        generation := generation + 1;
      }
    }

    /** After the lock the thread first asks for the deadline. */
    method RequestDeadline()
      requires toSchedule.Some?
      modifies this
      ensures Now() == DeadlineRequested(old(Now()))
    {
      queue := queue + [Schedule(toSchedule.value)];
      toSchedule := None;
    }

    /** Then it asks for the taken batch to be delivered. */
    method RequestDelivery()
      modifies this
      ensures Now() == DeliveryRequested(old(Now()))
    {
      queue := queue + [Deliver(toPublish)];
      toPublish := [];
    }

    /** The thread returns, which the loop learns like everything else. */
    method EndThread()
      modifies this
      ensures Now() == ThreadEnded(old(Now()))
    {
      ended := true;
      queue := queue + [Ended];
    }

    /** The loop runs its oldest callback. */
    method RunCallback()
      requires queue != []
      modifies this
      ensures Now() == CallbackRun(old(Now())) && queue == old(queue)[1..] && appended == old(appended)
      ensures old(queue)[0].Deliver? ==> delivered == old(delivered) + [old(queue)[0].batch] && specs == old(specs)
      ensures old(queue)[0].Schedule? ==> timers == old(timers) + {old(queue)[0].generation} && specs == old(specs)
    {
      var callback := queue[0];
      queue := queue[1..];
      match callback {
        case Deliver(batch) => delivered := delivered + [batch];
        case Schedule(g) => timers := timers + {g};
        case Ended => FlushNow();
      }
    }

    /** A deadline fires; a running one overtakes nothing. */
    method FlushGeneration(g: nat)
      modifies this
      ensures Now() == Fired(old(Now()), g)
      ensures g != old(generation) || old(specs) == [] ==> specs == old(specs) && delivered == old(delivered)
      ensures g == old(generation) && old(specs) != [] ==> specs == [] && delivered == old(delivered) + [old(specs)]
      ensures old(Valid()) && g in old(timers) ==> Valid() && (InOrder(old(Now())) ==> InOrder(Now()))
    {
      ghost var before := Now();
      if g == generation {
        FlushNow();
      }
      timers := timers - {g};
      if BatcherOk(before) && g in before.timers { FiredKeeps(before, g); }
    }

    /** The loop takes what is pending and delivers it at once. */
    method FlushNow()
      modifies this
      ensures Now() == DeliveredNow(old(Now())) && specs == [] && appended == old(appended)
      ensures delivered == if old(specs) == [] then old(delivered) else old(delivered) + [old(specs)]
    {
      var batch := TakeLocked();
      if batch != [] {
        delivered := delivered + [batch];
      }
    }
  }

  /** The thread makes its outstanding requests, then appends. */
  method ThreadStep(batcher: StreamEventBatcher, spec: Spec)
    modifies batcher
    ensures batcher.Now() == StepOf(old(batcher.Now()), ThreadTurn(spec))
  {
    if batcher.ended {
      return;
    }
    if batcher.toSchedule.Some? {
      batcher.RequestDeadline();
    } else if batcher.toPublish != [] {
      batcher.RequestDelivery();
    } else {
      batcher.AppendLocked(spec);
    }
  }

  method TakeTurn(batcher: StreamEventBatcher, turn: Turn)
    modifies batcher
    ensures batcher.Now() == StepOf(old(batcher.Now()), turn)
  {
    match turn {
      case ThreadTurn(spec) => ThreadStep(batcher, spec);
      case ThreadEndTurn =>
        if !(batcher.ended || batcher.toSchedule.Some? || batcher.toPublish != []) {
          batcher.EndThread();
        }
      case LoopAppendTurn(spec) =>
        if !(batcher.ended || batcher.toSchedule.Some? || batcher.toPublish != []) {
          batcher.AppendOnLoop(spec);
        }
      case CallbackTurn =>
        if batcher.queue != [] {
          batcher.RunCallback();
        }
      case TimerTurn(g) =>
        if g in batcher.timers {
          batcher.FlushGeneration(g);
        }
      case FlushTurn => batcher.FlushNow();
    }
  }

  /** Any interleaving of the producing thread, the loop's appends, callbacks, timers and
      flushes: all accounts hold. From a batcher in order the run stays in order when no
      turn overtakes, and only then if no spec occurs twice or the loop appends none. */
  method Run(batcher: StreamEventBatcher, turns: seq<Turn>)
    requires batcher.Valid()
    modifies batcher
    ensures batcher.Valid() && batcher.Now() == After(old(batcher.Now()), turns)
    ensures InOrder(old(batcher.Now())) && NoneOvertakes(old(batcher.Now()), turns) ==> InOrder(batcher.Now())
    ensures InOrder(old(batcher.Now())) && Telling(old(batcher.Now()), turns) ==>
      (InOrder(batcher.Now()) <==> NoneOvertakes(old(batcher.Now()), turns))
  {
    ghost var start := batcher.Now();
    var k := 0;
    while k < |turns|
      invariant 0 <= k <= |turns| && batcher.Now() == After(start, turns[..k])
    {
      TakeTurn(batcher, turns[k]);
      assert turns[..k + 1][..k] == turns[..k];
      k := k + 1;
    }
    assert turns[..k] == turns;
    RunOutcome(start, turns);
  }

  lemma {:induction false} RunOutcome(s: State, turns: seq<Turn>)
    requires BatcherOk(s)
    ensures BatcherOk(After(s, turns))
    ensures InOrder(s) && NoneOvertakes(s, turns) ==> InOrder(After(s, turns))
    ensures InOrder(s) && Telling(s, turns) ==> (InOrder(After(s, turns)) <==> NoneOvertakes(s, turns))
  {
    RunKeeps(s, turns);
    if InOrder(s) && Telling(s, turns) { RunOrder(s, turns); }
  }
}
