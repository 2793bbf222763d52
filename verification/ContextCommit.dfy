/** Optimistic commits to a Context: a working copy is published unless it changed a
    location that overlaps one changed after the copy's base revision. */
module ContextCommit {
  import opened Options
  import opened ContextPaths
  import opened ContextTree

  datatype Outcome = Unchanged | Published(paths: seq<string>) | Conflict(paths: seq<string>)

  /** One published commit: the revision it created and the paths it changed. */
  datatype Commit = Commit(revision: nat, paths: seq<string>)

  /** A Context and the commits that led to it. */
  datatype State = State(data: map<string, Value>, metadata: map<string, Value>, revision: nat,
    stamps: map<string, nat>, log: seq<Commit>)

  function Root(data: map<string, Value>, metadata: map<string, Value>): Value {
    Dict(map["data" := Dict(data), "metadata" := Dict(metadata)])
  }

  /** The paths a working copy changed, in order. */
  function Differences(data: map<string, Value>, metadata: map<string, Value>, workingData: map<string, Value>,
      workingMetadata: map<string, Value>): seq<string> {
    ChangedPaths(Root(data, metadata), Root(workingData, workingMetadata), "")
  }

  function Stamp(stamps: map<string, nat>, paths: seq<string>, revision: nat): map<string, nat> {
    if paths == [] then stamps
    else Stamp(stamps, paths[..|paths| - 1], revision)[paths[|paths| - 1] := revision]
  }

  /** Some path stamped above the base overlaps this one. */
  predicate OverlapsLater(stamps: map<string, nat>, base: int, path: string) {
    exists previous :: previous in stamps && stamps[previous] > base && PathsOverlap(path, previous)
  }

  function Conflicts(stamps: map<string, nat>, base: int, changed: seq<string>): seq<string> {
    if changed == [] then []
    else (if OverlapsLater(stamps, base, changed[0]) then [changed[0]] else []) + Conflicts(stamps, base, changed[1..])
  }

  /** What a commit does to the Context, said without merging: the working copy replaces it. */
  ghost function CommitStep(s: State, data: map<string, Value>, metadata: map<string, Value>,
      base: int): (State, Outcome) {
    var changed := Differences(s.data, s.metadata, data, metadata);
    if changed == [] then (s, Unchanged)
    else if Conflicts(s.stamps, base, changed) != [] then (s, Conflict(Conflicts(s.stamps, base, changed)))
    else (State(data, metadata, s.revision + 1, Stamp(s.stamps, changed, s.revision + 1),
      s.log + [Commit(s.revision + 1, changed)]), Published(changed))
  }

  /** The changed paths have the revision, the others what they had. */
  ghost predicate Restamped(before: map<string, nat>, after: map<string, nat>, changed: seq<string>, revision: nat) {
    && (forall path :: path in after <==> path in before || path in changed)
    && (forall path :: path in changed ==> after[path] == revision)
    && (forall path :: path in before && path !in changed ==> after[path] == before[path])
  }

  lemma {:induction false} CommitUnchanged(s: State, data: map<string, Value>, metadata: map<string, Value>, base: int)
    ensures CommitStep(s, data, metadata, base).1.Unchanged? <==> s.data == data && s.metadata == metadata
  {
    NothingListedWhenEqual(Root(s.data, s.metadata), Root(data, metadata));
    RootInjective(s.data, s.metadata, data, metadata);
  }

  /** A published commit replaces the Context by the working copy, one revision on; another
      changes nothing. */
  lemma {:induction false} CommitReplaces(s: State, data: map<string, Value>, metadata: map<string, Value>, base: int)
    ensures var (t, outcome) := CommitStep(s, data, metadata, base);
      if outcome.Published?
      then t.data == data && t.metadata == metadata && t.revision == s.revision + 1 &&
        t.log == s.log + [Commit(t.revision, outcome.paths)] && outcome.paths ==
          Differences(s.data, s.metadata, data, metadata) && t.stamps == Stamp(s.stamps, outcome.paths, t.revision)
      else t == s
  {
  }

  lemma {:induction false} StampsMean(stamps: map<string, nat>, changed: seq<string>, revision: nat)
    ensures Restamped(stamps, Stamp(stamps, changed, revision), changed, revision)
  {
    forall path
      ensures path in Stamp(stamps, changed, revision) <==> path in stamps || path in changed
      ensures path in changed ==> Stamp(stamps, changed, revision)[path] == revision
      ensures path in stamps && path !in changed ==> Stamp(stamps, changed, revision)[path] == stamps[path]
    {
      StampExact(stamps, changed, revision, path);
    }
  }

  lemma {:induction false} DifferencesMean(s: State, data: map<string, Value>, metadata: map<string, Value>)
    ensures forall q :: PathOf(q) in Differences(s.data, s.metadata, data, metadata) <==>
      ChangedAt(Root(s.data, s.metadata), Root(data, metadata), q)
  {
    forall q
      ensures PathOf(q) in Differences(s.data, s.metadata, data, metadata) <==>
        ChangedAt(Root(s.data, s.metadata), Root(data, metadata), q)
    {
      ChangedPathListed(Root(s.data, s.metadata), Root(data, metadata), q);
    }
  }

  /** The changed paths that overlap one stamped above the base. */
  ghost predicate Clashing(stamps: map<string, nat>, base: int, changed: seq<string>, clashes: seq<string>) {
    clashes != [] && forall path :: path in clashes <==>
      && path in changed
      && exists previous :: previous in stamps && stamps[previous] > base && PathsOverlap(path, previous)
  }

  lemma {:induction false} ConflictMeans(s: State, data: map<string, Value>, metadata: map<string, Value>, base: int)
    requires CommitStep(s, data, metadata, base).1.Conflict?
    ensures Clashing(s.stamps, base, Differences(s.data, s.metadata, data, metadata),
      CommitStep(s, data, metadata, base).1.paths)
  {
    var changed := Differences(s.data, s.metadata, data, metadata);
    forall path
      ensures path in Conflicts(s.stamps, base, changed) <==> path in changed && OverlapsLater(s.stamps, base, path)
    {
      ConflictsExact(s.stamps, base, changed, path);
    }
  }

  /** What a commit does, field by field. */
  lemma {:induction false} CommitMeans(s: State, data: map<string, Value>, metadata: map<string, Value>, base: int)
    ensures var (t, outcome) := CommitStep(s, data, metadata, base);
      && (outcome.Unchanged? <==> s.data == data && s.metadata == metadata)
      && (!outcome.Published? ==> t == s)
      && (outcome.Published? ==>
        && t.data == data && t.metadata == metadata && t.revision == s.revision + 1
        && Restamped(s.stamps, t.stamps, outcome.paths, t.revision) &&
          t.log == s.log + [Commit(t.revision, outcome.paths)]
        && forall q :: PathOf(q) in outcome.paths <==> ChangedAt(Root(s.data, s.metadata), Root(data, metadata), q))
      && (outcome.Conflict? ==>
        Clashing(s.stamps, base, Differences(s.data, s.metadata, data, metadata), outcome.paths))
  {
    var outcome := CommitStep(s, data, metadata, base).1;
    CommitUnchanged(s, data, metadata, base);
    CommitReplaces(s, data, metadata, base);
    if outcome.Published? {
      StampsMean(s.stamps, outcome.paths, s.revision + 1);
      DifferencesMean(s, data, metadata);
    }
    if outcome.Conflict? { ConflictMeans(s, data, metadata, base); }
  }

  class RuntimeContext {
    var data: map<string, Value>
    var metadata: map<string, Value>
    var revision: nat
    var pathRevisions: map<string, nat>
    ghost var log: seq<Commit>

    ghost function Contents(): State
      reads this
    {
      State(data, metadata, revision, pathRevisions, log)
    }

    constructor ()
      ensures Contents() == State(map[], map[], 0, map[], [])
    {
      data, metadata, revision, pathRevisions, log := map[], map[], 0, map[], [];
    }

    constructor Copy(source: RuntimeContext)
      ensures Contents() == source.Contents()
    {
      data, metadata, revision, pathRevisions, log :=
        source.data, source.metadata, source.revision, source.pathRevisions, source.log;
    }

    /** Published, the Context is the working copy, one revision on, with that revision on
        every changed path; otherwise it stays as it was. */
    method CommitIsolated(working: RuntimeContext, baseRevision: int) returns (outcome: Outcome)
      modifies this
      ensures (Contents(), outcome) ==
        CommitStep(old(Contents()), old(working.data), old(working.metadata), baseRevision)
      ensures outcome.Unchanged? <==> old(data == working.data && metadata == working.metadata)
      ensures !outcome.Published? ==> Contents() == old(Contents())
      ensures outcome.Published? ==>
        && data == old(working.data) && metadata == old(working.metadata) && revision == old(revision) + 1
        && Restamped(old(pathRevisions), pathRevisions, outcome.paths, revision)
        && log == old(log) + [Commit(revision, outcome.paths)]
      ensures outcome.Published? ==> forall q :: PathOf(q) in outcome.paths <==>
        ChangedAt(Root(old(data), old(metadata)), Root(old(working.data), old(working.metadata)), q)
      ensures outcome.Conflict? ==> Clashing(old(pathRevisions), baseRevision,
        Differences(old(data), old(metadata), old(working.data), old(working.metadata)), outcome.paths)
    {
      CommitMeans(Contents(), working.data, working.metadata, baseRevision);
      var changed := Differences(data, metadata, working.data, working.metadata);
      if changed == [] {
        return Unchanged;
      }
      var conflicts := Conflicts(pathRevisions, baseRevision, changed);
      if conflicts != [] {
        return Conflict(conflicts);
      }
      var mergedData, mergedMetadata := MergeChanges(data, metadata, working.data, working.metadata, changed);
      revision := revision + 1;
      data := mergedData;
      metadata := mergedMetadata;
      pathRevisions := StampChanges(pathRevisions, changed, revision);
      log := log + [Commit(revision, changed)];
      return Published(changed);
    }
  }

  lemma {:induction false} RootParts(data: map<string, Value>, metadata: map<string, Value>, root: Value)
    requires root == Root(data, metadata)
    ensures root.Dict? && root.entries.Keys == {"data", "metadata"}
    ensures root.entries["data"] == Dict(data) && root.entries["metadata"] == Dict(metadata)
  {
  }

  lemma {:induction false} RootInjective(data: map<string, Value>, metadata: map<string, Value>,
      data': map<string, Value>, metadata': map<string, Value>)
    ensures Root(data, metadata) == Root(data', metadata') <==> data == data' && metadata == metadata'
  {
    RootParts(data, metadata, Root(data, metadata));
    RootParts(data', metadata', Root(data', metadata'));
  }

  /** Merging path by path arrives at the working copy, and no lookup on the way fails. */
  method MergeChanges(data: map<string, Value>, metadata: map<string, Value>, workingData: map<string, Value>,
      workingMetadata: map<string, Value>, changed: seq<string>)
    returns (mergedData: map<string, Value>, mergedMetadata: map<string, Value>)
    requires changed == Differences(data, metadata, workingData, workingMetadata)
    ensures mergedData == workingData && mergedMetadata == workingMetadata
  {
    var authoritative := MergeEach(Root(data, metadata), Root(workingData, workingMetadata), changed);
    RootParts(workingData, workingMetadata, authoritative);
    return authoritative.entries["data"].entries, authoritative.entries["metadata"].entries;
  }

  method MergeEach(base: Value, working: Value, changed: seq<string>) returns (authoritative: Value)
    requires base.Dict? && working.Dict? && changed == ChangedPaths(base, working, "")
    ensures authoritative == working
  {
    authoritative := base;
    var i := 0;
    ChangedPathsListChanges(base, working);
    while i < |changed|
      invariant 0 <= i <= |changed| && authoritative.Dict?
      invariant ListsChanges(authoritative, working, changed[i..])
    {
      ListsAfterMerge(authoritative, working, changed[i..]);
      assert changed[i..][0] == changed[i] && changed[i..][1..] == changed[i + 1..];
      authoritative := MergeChangedPath(authoritative, working, changed[i]).value;
      i := i + 1;
    }
    DiffThenMerge(authoritative, working, changed[i..]);
  }

  method StampChanges(stamps: map<string, nat>, changed: seq<string>, revision: nat) returns (r: map<string, nat>)
    ensures r == Stamp(stamps, changed, revision)
  {
    r := stamps;
    var i := 0;
    assert changed[..0] == [];
    while i < |changed|
      invariant 0 <= i <= |changed| && r == Stamp(stamps, changed[..i], revision)
    {
      assert changed[..i + 1][..i] == changed[..i];
      r := r[changed[i] := revision];
      i := i + 1;
    }
    assert changed[..i] == changed;
  }

  // ----- histories -----

  ghost function StampsOf(log: seq<Commit>): map<string, nat> {
    if log == [] then map[]
    else Stamp(StampsOf(log[..|log| - 1]), log[|log| - 1].paths, log[|log| - 1].revision)
  }

  ghost predicate IsPath(path: string) {
    exists p :: path == PathOf(p)
  }

  /** The stamps summarise the log, whose revisions count up to the current one. */
  ghost predicate Consistent(s: State) {
    && s.stamps == StampsOf(s.log) && |s.log| == s.revision
    && (forall i :: 0 <= i < |s.log| ==> s.log[i].revision == i + 1)
    && (forall i, path :: 0 <= i < |s.log| && path in s.log[i].paths ==> IsPath(path))
  }

  datatype Request = Request(data: map<string, Value>, metadata: map<string, Value>, base: int)

  /** The state after commits tried one after another, from an empty Context. */
  ghost function After(requests: seq<Request>): State {
    if requests == [] then State(map[], map[], 0, map[], [])
    else
      var r := requests[|requests| - 1];
      CommitStep(After(requests[..|requests| - 1]), r.data, r.metadata, r.base).0
  }

  lemma {:induction false} ChangedIsPath(s: State, data: map<string, Value>, metadata: map<string, Value>, path: string)
    requires path in Differences(s.data, s.metadata, data, metadata)
    ensures IsPath(path)
  {
    assert PathOf([]) == "";
    ChangedPathsExact(Root(s.data, s.metadata), Root(data, metadata), [], path);
    var p :| ChangedAt(Root(s.data, s.metadata), Root(data, metadata), p) && path == PathOf([] + p);
  }

  lemma {:induction false} StepKeepsConsistent(s: State, data: map<string, Value>, metadata: map<string, Value>,
      base: int)
    requires Consistent(s)
    ensures Consistent(CommitStep(s, data, metadata, base).0)
  {
    var t := CommitStep(s, data, metadata, base).0;
    if t.log != s.log {
      assert t.log[..|t.log| - 1] == s.log;
      forall i, path | 0 <= i < |t.log| && path in t.log[i].paths
        ensures IsPath(path)
      {
        if i == |s.log| { ChangedIsPath(s, data, metadata, path); }
      }
    }
  }

  lemma {:induction false} AlwaysConsistent(requests: seq<Request>)
    ensures Consistent(After(requests))
  {
    if requests != [] {
      AlwaysConsistent(requests[..|requests| - 1]);
      var r := requests[|requests| - 1];
      StepKeepsConsistent(After(requests[..|requests| - 1]), r.data, r.metadata, r.base);
    }
  }

  lemma {:induction false} StampExact(stamps: map<string, nat>, paths: seq<string>, revision: nat, path: string)
    ensures path in Stamp(stamps, paths, revision) <==> path in stamps || path in paths
    ensures path in paths ==> Stamp(stamps, paths, revision)[path] == revision
    ensures path in stamps && path !in paths ==> Stamp(stamps, paths, revision)[path] == stamps[path]
  {
    if paths != [] {
      StampExact(stamps, paths[..|paths| - 1], revision, path);
      assert paths == paths[..|paths| - 1] + [paths[|paths| - 1]];
    }
  }

  /** Some commit above the base changed exactly this path. */
  ghost predicate ChangedLater(log: seq<Commit>, base: int, path: string) {
    exists i :: 0 <= i < |log| && log[i].revision > base && path in log[i].paths
  }

  /** Keeping only the latest revision of each path loses nothing. */
  lemma {:induction false} StampsSuffice(log: seq<Commit>, base: int, path: string)
    requires forall i :: 0 <= i < |log| ==> log[i].revision == i + 1
    ensures path in StampsOf(log) && StampsOf(log)[path] > base <==> ChangedLater(log, base, path)
    ensures path in StampsOf(log) ==> StampsOf(log)[path] <= |log|
  {
    if log != [] {
      var init, last := log[..|log| - 1], log[|log| - 1];
      StampsSuffice(init, base, path);
      StampExact(StampsOf(init), last.paths, last.revision, path);
      if ChangedLater(log, base, path) {
        var i :| 0 <= i < |log| && log[i].revision > base && path in log[i].paths;
        if i < |init| { assert init[i] == log[i]; }
      }
      if ChangedLater(init, base, path) {
        var i :| 0 <= i < |init| && init[i].revision > base && path in init[i].paths;
        assert log[i] == init[i];
      }
      if path in last.paths && last.revision > base { assert log[|log| - 1] == last; }
    }
  }

  lemma {:induction false} ConflictsExact(stamps: map<string, nat>, base: int, changed: seq<string>, path: string)
    ensures path in Conflicts(stamps, base, changed) <==> path in changed && OverlapsLater(stamps, base, path)
  {
    if changed != [] {
      ConflictsExact(stamps, base, changed[1..], path);
      assert changed == [changed[0]] + changed[1..];
    }
  }

  /** p was changed by a commit above the base. */
  ghost predicate LocationChangedLater(log: seq<Commit>, base: int, p: seq<string>) {
    ChangedLater(log, base, PathOf(p))
  }

  lemma {:induction false} OverlapsLaterExact(s: State, base: int, q: seq<string>)
    requires Consistent(s)
    ensures OverlapsLater(s.stamps, base, PathOf(q)) <==>
      exists p {:trigger LocationChangedLater(s.log, base, p)} ::
        LocationChangedLater(s.log, base, p) && (p <= q || q <= p)
  {
    if OverlapsLater(s.stamps, base, PathOf(q)) {
      var previous :| previous in s.stamps && s.stamps[previous] > base && PathsOverlap(PathOf(q), previous);
      StampsSuffice(s.log, base, previous);
      var i :| 0 <= i < |s.log| && s.log[i].revision > base && previous in s.log[i].paths;
      assert IsPath(previous);
      var p :| previous == PathOf(p);
      OverlapExact(q, p);
      assert LocationChangedLater(s.log, base, p);
    }
    if p :| LocationChangedLater(s.log, base, p) && (p <= q || q <= p) {
      StampsSuffice(s.log, base, PathOf(p));
      OverlapExact(q, p);
    }
  }

  /** The request changes location q. */
  ghost predicate Changes(s: State, r: Request, q: seq<string>) {
    ChangedAt(Root(s.data, s.metadata), Root(r.data, r.metadata), q)
  }

  /** The request changes q, and a commit above its base changed a location overlapping q. */
  ghost predicate Clash(s: State, r: Request, q: seq<string>) {
    Changes(s, r, q) && exists p {:trigger LocationChangedLater(s.log, r.base, p)} ::
      LocationChangedLater(s.log, r.base, p) && (p <= q || q <= p)
  }

  lemma {:induction false} DifferenceListed(s: State, r: Request, q: seq<string>)
    ensures PathOf(q) in Differences(s.data, s.metadata, r.data, r.metadata) <==> Changes(s, r, q)
  {
    ChangedPathListed(Root(s.data, s.metadata), Root(r.data, r.metadata), q);
  }

  lemma {:induction false} DifferencesEmpty(s: State, r: Request)
    ensures Differences(s.data, s.metadata, r.data, r.metadata) == [] <==>
      Root(s.data, s.metadata) == Root(r.data, r.metadata)
  {
    NothingListedWhenEqual(Root(s.data, s.metadata), Root(r.data, r.metadata));
  }

  lemma {:induction false} ConflictingPath(s: State, r: Request, q: seq<string>)
    requires Consistent(s)
    ensures PathOf(q) in Conflicts(s.stamps, r.base, Differences(s.data, s.metadata, r.data, r.metadata)) <==>
      Clash(s, r, q)
  {
    DifferenceListed(s, r, q);
    ConflictsExact(s.stamps, r.base, Differences(s.data, s.metadata, r.data, r.metadata), PathOf(q));
    OverlapsLaterExact(s, r.base, q);
  }

  /** After any history, a request is refused exactly when it clashes, the refusal
      names exactly the clashing locations, and it changes nothing. */
  lemma {:induction false} RefusedExactlyOnClash(requests: seq<Request>, r: Request)
    ensures var s := After(requests);
      var (t, outcome) := CommitStep(s, r.data, r.metadata, r.base);
      && (outcome.Conflict? <==> exists q :: Clash(s, r, q))
      && (outcome.Conflict? ==> t == s && forall q :: PathOf(q) in outcome.paths <==> Clash(s, r, q))
  {
    AlwaysConsistent(requests);
    var s := After(requests);
    var a, b := Root(s.data, s.metadata), Root(r.data, r.metadata);
    var changed := Differences(s.data, s.metadata, r.data, r.metadata);
    var conflicts := Conflicts(s.stamps, r.base, changed);
    forall q
      ensures PathOf(q) in conflicts <==> Clash(s, r, q)
    {
      ConflictingPath(s, r, q);
    }
    if conflicts != [] {
      ConflictsExact(s.stamps, r.base, changed, conflicts[0]);
      ChangedIsPath(s, r.data, r.metadata, conflicts[0]);
      var q :| conflicts[0] == PathOf(q);
      assert Clash(s, r, q);
    }
    if changed == [] { assert conflicts == []; }
  }

  /** After any history, publishing a request keeps what commits above its base wrote:
      their locations read the same before and after. */
  lemma {:induction false} NoLostUpdate(requests: seq<Request>, r: Request, p: seq<string>)
    requires LocationChangedLater(After(requests).log, r.base, p)
    ensures var s := After(requests);
      var t := CommitStep(s, r.data, r.metadata, r.base).0;
      Lookup(Root(t.data, t.metadata), p) == Lookup(Root(s.data, s.metadata), p)
  {
    var s := After(requests);
    var (t, outcome) := CommitStep(s, r.data, r.metadata, r.base);
    RefusedExactlyOnClash(requests, r);
    if outcome.Published? {
      forall q | ChangedAt(Root(s.data, s.metadata), Root(r.data, r.metadata), q)
        ensures !(q <= p) && !(p <= q)
      {
        assert Changes(s, r, q) && !Clash(s, r, q);
      }
      UntouchedReadsSame(Root(s.data, s.metadata), Root(r.data, r.metadata), p);
    }
  }

  /** The k-th request was published. */
  ghost predicate WasPublished(requests: seq<Request>, k: nat)
    requires k < |requests|
  {
    CommitStep(After(requests[..k]), requests[k].data, requests[k].metadata, requests[k].base).1.Published?
  }

  /** No commit above the revision changed a location overlapping p. */
  ghost predicate UntouchedSince(s: State, revision: int, p: seq<string>) {
    forall q {:trigger LocationChangedLater(s.log, revision, q)} ::
      LocationChangedLater(s.log, revision, q) ==> !(q <= p) && !(p <= q)
  }

  lemma {:induction false} LogGrows(requests: seq<Request>, revision: int, q: seq<string>)
    requires requests != []
    ensures LocationChangedLater(After(requests[..|requests| - 1]).log, revision, q) ==>
      LocationChangedLater(After(requests).log, revision, q)
  {
    var s, t := After(requests[..|requests| - 1]), After(requests);
    if LocationChangedLater(s.log, revision, q) {
      var i :| 0 <= i < |s.log| && s.log[i].revision > revision && PathOf(q) in s.log[i].paths;
      assert t.log[i] == s.log[i];
    }
  }

  lemma {:induction false} RevisionGrows(requests: seq<Request>, k: nat)
    requires k < |requests|
    ensures After(requests[..k + 1]).revision <= After(requests).revision
  {
    if k + 1 == |requests| {
      assert requests[..k + 1] == requests;
    } else {
      RevisionGrows(requests[..|requests| - 1], k);
      assert requests[..|requests| - 1][..k + 1] == requests[..k + 1];
    }
  }

  lemma {:induction false} PrefixPublished(requests: seq<Request>, k: nat)
    requires k < |requests| - 1
    ensures var init := requests[..|requests| - 1];
      init[..k + 1] == requests[..k + 1] && init[k] == requests[k] &&
      (WasPublished(init, k) <==> WasPublished(requests, k))
  {
    assert requests[..|requests| - 1][..k] == requests[..k];
  }

  /** A published write is read until a later commit changes a location that overlaps it. */
  lemma {:induction false} PublishedIsRead(requests: seq<Request>, k: nat, p: seq<string>)
    requires k < |requests| && WasPublished(requests, k)
    requires UntouchedSince(After(requests), After(requests[..k + 1]).revision, p)
    ensures Lookup(Root(After(requests).data, After(requests).metadata), p) ==
      Lookup(Root(requests[k].data, requests[k].metadata), p)
  {
    if k == |requests| - 1 {
      LastIsRead(requests);
    } else {
      var init, revision := requests[..|requests| - 1], After(requests[..k + 1]).revision;
      PrefixPublished(requests, k);
      UntouchedBefore(requests, revision, p);
      PublishedIsRead(init, k, p);
      RevisionGrows(init, k);
      StillRead(requests, revision, p);
    }
  }

  lemma {:induction false} LastIsRead(requests: seq<Request>)
    requires requests != [] && WasPublished(requests, |requests| - 1)
    ensures After(requests).data == requests[|requests| - 1].data
    ensures After(requests).metadata == requests[|requests| - 1].metadata
  {
    var init, r := requests[..|requests| - 1], requests[|requests| - 1];
    CommitReplaces(After(init), r.data, r.metadata, r.base);
  }

  lemma {:induction false} UntouchedBefore(requests: seq<Request>, revision: nat, p: seq<string>)
    requires requests != [] && UntouchedSince(After(requests), revision, p)
    ensures UntouchedSince(After(requests[..|requests| - 1]), revision, p)
  {
    var log := After(requests[..|requests| - 1]).log;
    forall q | LocationChangedLater(log, revision, q)
      ensures !(q <= p) && !(p <= q)
    {
      LogGrows(requests, revision, q);
    }
  }

  /** The last request leaves what is read at a location no later commit overlaps. */
  lemma {:induction false} StillRead(requests: seq<Request>, revision: nat, p: seq<string>)
    requires requests != [] && UntouchedSince(After(requests), revision, p)
    requires revision <= After(requests[..|requests| - 1]).revision
    ensures var s, t := After(requests[..|requests| - 1]), After(requests);
      Lookup(Root(t.data, t.metadata), p) == Lookup(Root(s.data, s.metadata), p)
  {
    var s, r := After(requests[..|requests| - 1]), requests[|requests| - 1];
    CommitReplaces(s, r.data, r.metadata, r.base);
    if CommitStep(s, r.data, r.metadata, r.base).1.Published? { LastCommitApart(s, r, revision, p); }
  }

  /** A commit that touched nothing overlapping p leaves what is read there. */
  lemma {:induction false} LastCommitApart(s: State, r: Request, revision: nat, p: seq<string>)
    requires revision <= s.revision && CommitStep(s, r.data, r.metadata, r.base).1.Published?
    requires UntouchedSince(CommitStep(s, r.data, r.metadata, r.base).0, revision, p)
    ensures var t := CommitStep(s, r.data, r.metadata, r.base).0;
      Lookup(Root(t.data, t.metadata), p) == Lookup(Root(s.data, s.metadata), p)
  {
    var (t, outcome) := CommitStep(s, r.data, r.metadata, r.base);
    CommitReplaces(s, r.data, r.metadata, r.base);
    DifferencesMean(s, r.data, r.metadata);
    forall q | ChangedAt(Root(s.data, s.metadata), Root(r.data, r.metadata), q)
      ensures !(q <= p) && !(p <= q)
    {
      assert t.log[|s.log|] == Commit(t.revision, outcome.paths);
      assert LocationChangedLater(t.log, revision, q);
    }
    UntouchedReadsSame(Root(s.data, s.metadata), Root(r.data, r.metadata), p);
  }

  /** Publishing makes the Context equal to the working copy; only an equal working
      copy publishes nothing. */
  lemma {:induction false} UnchangedExactlyWhenEqual(s: State, r: Request)
    ensures CommitStep(s, r.data, r.metadata, r.base).1.Unchanged? <==> r.data == s.data && r.metadata == s.metadata
  {
    DifferencesEmpty(s, r);
    RootInjective(s.data, s.metadata, r.data, r.metadata);
  }

  // ----- output bindings -----

  /** An Invocation or a Session, as far as its Context goes. */
  class ContextHolder {
    var context: RuntimeContext

    constructor (context: RuntimeContext)
      ensures this.context == context
    {
      this.context := context;
    }
  }

  /** One revision on if anything was written, otherwise the same state. */
  ghost predicate NextRevision(before: State, after: State) {
    if before.data == after.data && before.metadata == after.metadata then after == before
    else after.revision == before.revision + 1
  }

  /** Publishes what an output binding wrote to its working copies of the invocation's
      and the session's Context: both or neither. The Contexts themselves are never
      edited, only replaced. */
  method PublishBinding(invocation: ContextHolder, session: ContextHolder,
      workingInvocation: RuntimeContext, workingSession: RuntimeContext, baseInvocation: int, baseSession: int)
    returns (conflict: Option<seq<string>>)
    requires invocation != session
    modifies invocation, session
    ensures var (nextInvocation, first) :=
      CommitStep(old(invocation.context.Contents()), workingInvocation.data, workingInvocation.metadata,
        baseInvocation);
      var (nextSession, second) := CommitStep(old(session.context.Contents()), workingSession.data,
        workingSession.metadata, baseSession);
      if first.Conflict? then conflict == Some(first.paths)
      else if second.Conflict? then conflict == Some(second.paths)
      else
        && conflict == None
        && invocation.context.Contents() == nextInvocation && session.context.Contents() == nextSession
    ensures conflict.Some? ==> invocation.context == old(invocation.context) && session.context == old(session.context)
    ensures conflict.None? ==>
      && invocation.context.data == old(workingInvocation.data)
      && invocation.context.metadata == old(workingInvocation.metadata)
      && session.context.data == old(workingSession.data) && session.context.metadata == old(workingSession.metadata)
    ensures conflict.None? ==>
      && NextRevision(old(invocation.context.Contents()), invocation.context.Contents())
      && NextRevision(old(session.context.Contents()), session.context.Contents())
  {
    var candidateInvocation := new RuntimeContext.Copy(invocation.context);
    var candidateSession := new RuntimeContext.Copy(session.context);
    var first := candidateInvocation.CommitIsolated(workingInvocation, baseInvocation);
    if first.Conflict? {
      return Some(first.paths);
    }
    var second := candidateSession.CommitIsolated(workingSession, baseSession);
    if second.Conflict? {
      return Some(second.paths);
    }
    invocation.context := candidateInvocation;
    session.context := candidateSession;
    return None;
  }
}
