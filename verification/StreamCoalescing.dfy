/** Coalescing of a language model's stream of deltas before it is published. */
module StreamCoalescing {
  import opened Options

  datatype LLMResponse = LLMResponse(content: string)

  /** A stream chunk with the payload its kind is validated to carry. */
  datatype Chunk =
    | TextDelta(text: string)
    | ReasoningDelta(text: string)
    | ToolCallDelta(index: int, id: Option<string>, name: Option<string>, arguments: Option<string>)
    | Completed(response: LLMResponse)

  const TARGET_CHARS := 32

  predicate Compatible(left: Option<string>, right: Option<string>) {
    left.None? || right.None? || left == right
  }

  predicate CanMerge(left: Chunk, right: Chunk) {
    match (left, right)
    case (TextDelta(_), TextDelta(_)) => true
    case (ReasoningDelta(_), ReasoningDelta(_)) => true
    case (ToolCallDelta(i, id, name, _), ToolCallDelta(j, id', name', _)) => i == j && Compatible(id, id') &&
      Compatible(name, name')
    case _ => false
  }

  /** The first operand unless it is absent or empty. */
  function Or(left: Option<string>, right: Option<string>): Option<string> {
    if left.Some? && left.value != "" then left else right
  }

  function OrEmpty(o: Option<string>): string {
    if o.Some? then o.value else ""
  }

  function Merge(left: Chunk, right: Chunk): Chunk
    requires CanMerge(left, right)
  {
    match left
    case TextDelta(s) => TextDelta(s + right.text)
    case ReasoningDelta(s) => ReasoningDelta(s + right.text)
    case ToolCallDelta(i, id, name, arguments) =>
      ToolCallDelta(i, Or(id, right.id), Or(name, right.name), Some(OrEmpty(arguments) + OrEmpty(right.arguments)))
  }

  function CharCount(c: Chunk): nat {
    match c
    case TextDelta(s) => |s|
    case ReasoningDelta(s) => |s|
    case ToolCallDelta(_, _, _, arguments) => |OrEmpty(arguments)|
    case Completed(_) => 0
  }

  // ----- what a consumer reads from a stream -----

  datatype Atom =
    | TextChar(c: char) | ReasoningChar(c: char) | ArgumentChar(index: int, c: char) | Done(response: LLMResponse)

  /** The ids and names one tool call was given, repetitions dropped. */
  datatype Call = Call(ids: seq<string>, names: seq<string>)

  /** Every character in order with its kind, the tool calls so far, and the tool
      calls as they stood at each completed response. */
  datatype Reading = Reading(atoms: seq<Atom>, calls: map<int, Call>, atCompletion: seq<map<int, Call>>)

  function Nothing(): Reading {
    Reading([], map[], [])
  }

  ghost function AtomsOf(c: Chunk): seq<Atom> {
    match c
    case TextDelta(s) => seq(|s|, i requires 0 <= i < |s| => TextChar(s[i]))
    case ReasoningDelta(s) => seq(|s|, i requires 0 <= i < |s| => ReasoningChar(s[i]))
    case ToolCallDelta(index, _, _, arguments) =>
      var s := OrEmpty(arguments);
      seq(|s|, i requires 0 <= i < |s| => ArgumentChar(index, s[i]))
    case Completed(response) => [Done(response)]
  }

  /** The given labels, after one more was or was not given. */
  ghost function Given(labels: seq<string>, o: Option<string>): seq<string> {
    if o.None? || o.value == "" || (labels != [] && labels[|labels| - 1] == o.value) then labels
    else labels + [o.value]
  }

  ghost function CallsWith(calls: map<int, Call>, c: Chunk): map<int, Call> {
    if !c.ToolCallDelta? then calls
    else
      var call := if c.index in calls then calls[c.index] else Call([], []);
      calls[c.index := Call(Given(call.ids, c.id), Given(call.names, c.name))]
  }

  ghost function Read(r: Reading, c: Chunk): Reading {
    Reading(r.atoms + AtomsOf(c), CallsWith(r.calls, c),
      if c.Completed? then r.atCompletion + [r.calls] else r.atCompletion)
  }

  ghost function ReadAll(r: Reading, chunks: seq<Chunk>): Reading {
    if chunks == [] then r
    else Read(ReadAll(r, chunks[..|chunks| - 1]), chunks[|chunks| - 1])
  }

  lemma {:induction false} GivenTwice(labels: seq<string>, left: Option<string>, right: Option<string>)
    requires Compatible(left, right)
    ensures Given(Given(labels, left), right) == Given(labels, Or(left, right))
  {
  }

  lemma {:induction false} AtomsMerge(left: Chunk, right: Chunk)
    requires CanMerge(left, right)
    ensures AtomsOf(Merge(left, right)) == AtomsOf(left) + AtomsOf(right)
  {
  }

  lemma {:induction false} CallsMerge(calls: map<int, Call>, left: Chunk, right: Chunk)
    requires CanMerge(left, right)
    ensures CallsWith(CallsWith(calls, left), right) == CallsWith(calls, Merge(left, right))
  {
    if left.ToolCallDelta? {
      var call := if left.index in calls then calls[left.index] else Call([], []);
      GivenTwice(call.ids, left.id, right.id);
      GivenTwice(call.names, left.name, right.name);
    }
  }

  /** Reading two mergeable chunks is reading their merge. */
  lemma {:induction false} ReadMerge(r: Reading, left: Chunk, right: Chunk)
    requires CanMerge(left, right)
    ensures Read(Read(r, left), right) == Read(r, Merge(left, right))
  {
    AtomsMerge(left, right);
    CallsMerge(r.calls, left, right);
    assert r.atoms + AtomsOf(left) + AtomsOf(right) == r.atoms + (AtomsOf(left) + AtomsOf(right));
  }

  lemma {:induction false} ReadAppend(r: Reading, a: seq<Chunk>, b: seq<Chunk>)
    ensures ReadAll(r, a + b) == ReadAll(ReadAll(r, a), b)
  {
    if b == [] {
      assert a + b == a;
    } else {
      assert (a + b)[..|a + b| - 1] == a + b[..|b| - 1];
      ReadAppend(r, a, b[..|b| - 1]);
    }
  }

  lemma {:induction false} ReadSnoc(r: Reading, a: seq<Chunk>, c: Chunk)
    ensures ReadAll(r, a + [c]) == Read(ReadAll(r, a), c)
  {
    assert (a + [c])[..|a|] == a;
  }

  // ----- groups of chunks emitted as one -----

  /** The chunks merge one after another, and none joined a chunk that already had
      the target number of characters. */
  ghost predicate Coalesced(group: seq<Chunk>)
    decreases |group|, 0
  {
    && group != []
    && (|group| > 1 ==>
      var init, last := group[..|group| - 1], group[|group| - 1];
      Coalesced(init) && CharCount(Merged(init)) < TARGET_CHARS && CanMerge(Merged(init), last))
  }

  ghost function Merged(group: seq<Chunk>): Chunk
    requires Coalesced(group)
    decreases |group|, 1
  {
    if |group| == 1 then group[0]
    else Merge(Merged(group[..|group| - 1]), group[|group| - 1])
  }

  lemma {:induction false} ReadGroup(r: Reading, group: seq<Chunk>)
    requires Coalesced(group)
    ensures ReadAll(r, group) == Read(r, Merged(group))
    decreases |group|
  {
    if |group| == 1 {
      assert group[..0] == [];
    } else {
      ReadGroup(r, group[..|group| - 1]);
      ReadMerge(r, Merged(group[..|group| - 1]), group[|group| - 1]);
    }
  }

  ghost predicate GroupAt(chunks: seq<Chunk>, out: seq<Chunk>, cuts: seq<nat>, i: nat)
    requires i < |out| && |cuts| == |out| + 1
  {
    && cuts[i] < cuts[i + 1] <= |chunks| && Coalesced(chunks[cuts[i]..cuts[i + 1]])
    && out[i] == Merged(chunks[cuts[i]..cuts[i + 1]])
  }

  /** The output chunks are the merges of consecutive groups of input chunks. */
  ghost predicate Grouped(chunks: seq<Chunk>, out: seq<Chunk>, cuts: seq<nat>) {
    && |cuts| == |out| + 1 && cuts[0] == 0 && cuts[|out|] <= |chunks|
    && forall i: nat {:trigger GroupAt(chunks, out, cuts, i)} :: i < |out| ==> GroupAt(chunks, out, cuts, i)
  }

  /** Every cut is at a boundary, after a full chunk, or where the timer fired. */
  ghost predicate CutsJustified(chunks: seq<Chunk>, deadlines: seq<bool>, out: seq<Chunk>, cuts: seq<nat>)
    requires |cuts| == |out| + 1 && |deadlines| == |chunks| + 1
  {
    forall i :: 0 < i <= |out| && cuts[i] < |chunks| ==>
      !CanMerge(out[i - 1], chunks[cuts[i]]) || CharCount(out[i - 1]) >= TARGET_CHARS || deadlines[cuts[i]]
  }

  /** The timer did not fire between the arrivals from and to, both excluded. */
  ghost predicate Undisturbed(deadlines: seq<bool>, from: nat, to: nat) {
    forall j :: from < j < to && j < |deadlines| ==> !deadlines[j]
  }

  lemma {:induction false} GroupedPrefix(chunks: seq<Chunk>, out: seq<Chunk>, cuts: seq<nat>)
    requires Grouped(chunks, out, cuts) && out != []
    ensures Grouped(chunks, out[..|out| - 1], cuts[..|out|])
    ensures GroupAt(chunks, out, cuts, |out| - 1)
  {
    var out', cuts' := out[..|out| - 1], cuts[..|out|];
    assert GroupAt(chunks, out, cuts, |out| - 1);
    forall i: nat {:trigger GroupAt(chunks, out', cuts', i)} | i < |out'|
      ensures GroupAt(chunks, out', cuts', i)
    {
      assert GroupAt(chunks, out, cuts, i);
    }
  }

  lemma {:induction false} MeaningStep(r: Reading, chunks: seq<Chunk>, out: seq<Chunk>, from: nat, to: nat)
    requires from < to <= |chunks| && Coalesced(chunks[from..to])
    requires ReadAll(r, out) == ReadAll(r, chunks[..from])
    ensures ReadAll(r, out + [Merged(chunks[from..to])]) == ReadAll(r, chunks[..to])
  {
    SlicesJoin(chunks, from, to);
    GroupStep(r, chunks[..from], chunks[from..to], out);
  }

  lemma {:induction false} SlicesJoin<T>(s: seq<T>, from: nat, to: nat)
    requires from <= to <= |s|
    ensures s[..to] == s[..from] + s[from..to]
  {
  }

  lemma {:induction false} GroupStep(r: Reading, before: seq<Chunk>, group: seq<Chunk>, out: seq<Chunk>)
    requires Coalesced(group) && ReadAll(r, out) == ReadAll(r, before)
    ensures ReadAll(r, out + [Merged(group)]) == ReadAll(r, before + group)
  {
    ReadAppend(r, before, group);
    ReadGroup(ReadAll(r, before), group);
    ReadSnoc(r, out, Merged(group));
  }

  /** The output reads exactly like the input it covers, and is no longer. */
  lemma {:induction false} MeaningKept(r: Reading, chunks: seq<Chunk>, out: seq<Chunk>, cuts: seq<nat>)
    requires Grouped(chunks, out, cuts)
    ensures ReadAll(r, out) == ReadAll(r, chunks[..cuts[|out|]])
    ensures |out| <= cuts[|out|]
    decreases |out|
  {
    if out != [] {
      var n := |out| - 1;
      GroupedPrefix(chunks, out, cuts);
      MeaningKept(r, chunks, out[..n], cuts[..n + 1]);
      assert cuts[..n + 1][n] == cuts[n] && out == out[..n] + [out[n]];
      MeaningStep(r, chunks, out[..n], cuts[n], cuts[n + 1]);
    }
  }

  // ----- the transformation -----

  datatype Ending = Ends | Fails | Cancelled

  /** The pending chunk is the merge of everything since the last cut, and is short. */
  ghost predicate PendingOk(chunks: seq<Chunk>, deadlines: seq<bool>, cut: nat, i: nat, pending: Option<Chunk>) {
    && cut <= i <= |chunks| < |deadlines| && Undisturbed(deadlines, cut, i)
    && match pending
       case None => cut == i
       case Some(c) =>
         && cut < i && Coalesced(chunks[cut..i]) && c == Merged(chunks[cut..i])
         && CharCount(c) < TARGET_CHARS && !c.Completed?
  }

  ghost predicate Emitted(chunks: seq<Chunk>, deadlines: seq<bool>, out: seq<Chunk>, cuts: seq<nat>) {
    && |deadlines| == |chunks| + 1 && Grouped(chunks, out, cuts) && CutsJustified(chunks, deadlines, out, cuts)
    && forall i: nat :: i < |out| ==> Undisturbed(deadlines, cuts[i], cuts[i + 1])
  }

  lemma {:induction false} EmitNext(chunks: seq<Chunk>, deadlines: seq<bool>, out: seq<Chunk>, cuts: seq<nat>,
      next: Chunk, cut: nat)
    requires Emitted(chunks, deadlines, out, cuts) && cuts[|out|] < cut <= |chunks|
    requires Coalesced(chunks[cuts[|out|]..cut]) && next == Merged(chunks[cuts[|out|]..cut]) &&
      Undisturbed(deadlines, cuts[|out|], cut)
    requires cut < |chunks| ==> !CanMerge(next, chunks[cut]) || CharCount(next) >= TARGET_CHARS || deadlines[cut]
    ensures Emitted(chunks, deadlines, out + [next], cuts + [cut])
  {
    var out', cuts' := out + [next], cuts + [cut];
    forall i: nat {:trigger GroupAt(chunks, out', cuts', i)} | i < |out'|
      ensures GroupAt(chunks, out', cuts', i)
    {
      if i < |out| { assert GroupAt(chunks, out, cuts, i); }
    }
  }

  lemma {:induction false} Joins(chunks: seq<Chunk>, cut: nat, i: nat)
    requires cut <= i < |chunks|
    requires cut < i ==>
      Coalesced(chunks[cut..i]) && CharCount(Merged(chunks[cut..i])) < TARGET_CHARS &&
      CanMerge(Merged(chunks[cut..i]), chunks[i])
    ensures Coalesced(chunks[cut..i + 1])
    ensures Merged(chunks[cut..i + 1]) == if cut < i then Merge(Merged(chunks[cut..i]), chunks[i]) else chunks[i]
  {
    assert chunks[cut..i + 1][..i - cut] == chunks[cut..i];
  }

  /** Emits the pending chunk, if there is one. */
  method Flush(ghost chunks: seq<Chunk>, ghost deadlines: seq<bool>, out: seq<Chunk>, ghost cuts: seq<nat>,
      pending: Option<Chunk>, ghost i: nat)
    returns (out': seq<Chunk>, ghost cuts': seq<nat>)
    requires Emitted(chunks, deadlines, out, cuts) && PendingOk(chunks, deadlines, cuts[|out|], i, pending)
    requires pending.Some? && i < |chunks| ==>
      !CanMerge(pending.value, chunks[i]) || CharCount(pending.value) >= TARGET_CHARS || deadlines[i]
    ensures out' == if pending.Some? then out + [pending.value] else out
    ensures Emitted(chunks, deadlines, out', cuts') && cuts'[|out'|] == i
  {
    if pending.None? {
      return out, cuts;
    }
    EmitNext(chunks, deadlines, out, cuts, pending.value, i);
    return out + [pending.value], cuts + [i];
  }

  function WithPending(pending: Option<Chunk>, next: Chunk): Chunk
    requires pending.Some? ==> CanMerge(pending.value, next)
  {
    if pending.Some? then Merge(pending.value, next) else next
  }

  /** The pending chunk with chunk i is the merge of everything since the last cut. */
  lemma {:induction false} PendingJoins(chunks: seq<Chunk>, deadlines: seq<bool>, cut: nat, i: nat,
      pending: Option<Chunk>)
    requires i < |chunks| && PendingOk(chunks, deadlines, cut, i, pending)
    requires pending.Some? ==> CanMerge(pending.value, chunks[i]) && !deadlines[i]
    ensures cut < i + 1 && Coalesced(chunks[cut..i + 1]) &&
      WithPending(pending, chunks[i]) == Merged(chunks[cut..i + 1])
    ensures Undisturbed(deadlines, cut, i + 1)
  {
    Joins(chunks, cut, i);
  }

  predicate Closed(chunk: Chunk) {
    chunk.Completed? || CharCount(chunk) >= TARGET_CHARS
  }

  /** A chunk that is complete or full may be emitted whatever comes next. */
  lemma {:induction false} ClosedEmits(chunks: seq<Chunk>, deadlines: seq<bool>, out: seq<Chunk>, cuts: seq<nat>,
      next: Chunk, cut: nat, group: seq<Chunk>)
    requires Emitted(chunks, deadlines, out, cuts) && cuts[|out|] < cut <= |chunks|
    requires group == chunks[cuts[|out|]..cut] && Coalesced(group) && next == Merged(group)
    requires Undisturbed(deadlines, cuts[|out|], cut) && Closed(next)
    ensures Emitted(chunks, deadlines, out + [next], cuts + [cut])
  {
    EmitNext(chunks, deadlines, out, cuts, next, cut);
  }

  lemma {:induction false} PendingGroup(chunks: seq<Chunk>, deadlines: seq<bool>, cut: nat, i: nat,
      pending: Option<Chunk>, next: Chunk, group: seq<Chunk>)
    requires i < |chunks| && PendingOk(chunks, deadlines, cut, i, pending)
    requires pending.Some? ==> CanMerge(pending.value, chunks[i]) && !deadlines[i]
    requires next == WithPending(pending, chunks[i]) && group == chunks[cut..i + 1]
    ensures cut < i + 1 && Coalesced(group) && next == Merged(group) && Undisturbed(deadlines, cut, i + 1)
  {
    PendingJoins(chunks, deadlines, cut, i, pending);
  }

  lemma {:induction false} JoinedPends(chunks: seq<Chunk>, deadlines: seq<bool>, cut: nat, i: nat,
      pending: Option<Chunk>)
    requires i < |chunks| && PendingOk(chunks, deadlines, cut, i, pending) && i + 1 < |deadlines|
    requires pending.Some? ==> CanMerge(pending.value, chunks[i]) && !deadlines[i]
    requires !Closed(WithPending(pending, chunks[i]))
    ensures PendingOk(chunks, deadlines, cut, i + 1, Some(WithPending(pending, chunks[i])))
  {
    PendingJoins(chunks, deadlines, cut, i, pending);
  }

  /** Takes in chunk i, which can join the pending one if there is one. */
  method Absorb(chunks: seq<Chunk>, ghost deadlines: seq<bool>, out: seq<Chunk>, ghost cuts: seq<nat>,
      pending: Option<Chunk>, i: nat)
    returns (out': seq<Chunk>, ghost cuts': seq<nat>, pending': Option<Chunk>)
    requires i < |chunks| && Emitted(chunks, deadlines, out, cuts) &&
      PendingOk(chunks, deadlines, cuts[|out|], i, pending)
    requires pending.Some? ==> CanMerge(pending.value, chunks[i]) && !deadlines[i]
    ensures Emitted(chunks, deadlines, out', cuts') && PendingOk(chunks, deadlines, cuts'[|out'|], i + 1, pending')
  {
    var chunk := WithPending(pending, chunks[i]);
    if Closed(chunk) {
      ghost var group := chunks[cuts[|out|]..i + 1];
      PendingGroup(chunks, deadlines, cuts[|out|], i, pending, chunk, group);
      ClosedEmits(chunks, deadlines, out, cuts, chunk, i + 1, group);
      return out + [chunk], cuts + [i + 1], None;
    }
    JoinedPends(chunks, deadlines, cuts[|out|], i, pending);
    return out, cuts, Some(chunk);
  }

  /** Emits the pending chunk if the timer fires or the next chunk cannot join it. */
  method FlushDue(chunks: seq<Chunk>, deadlines: seq<bool>, out: seq<Chunk>, ghost cuts: seq<nat>,
      pending: Option<Chunk>, i: nat)
    returns (out': seq<Chunk>, ghost cuts': seq<nat>, pending': Option<Chunk>)
    requires i < |chunks| < |deadlines| && Emitted(chunks, deadlines, out, cuts) &&
      PendingOk(chunks, deadlines, cuts[|out|], i, pending)
    ensures Emitted(chunks, deadlines, out', cuts') && PendingOk(chunks, deadlines, cuts'[|out'|], i, pending')
    ensures pending'.Some? ==> CanMerge(pending'.value, chunks[i]) && !deadlines[i]
  {
    out', cuts', pending' := out, cuts, pending;
    if deadlines[i] || (pending.Some? && !CanMerge(pending.value, chunks[i])) {
      out', cuts' := Flush(chunks, deadlines, out, cuts, pending, i);
      pending' := None;
    }
  }

  /** What is emitted for the chunks received before the stream ends, fails or is
      cancelled. deadlines[i] says whether the timer fires while waiting for the
      i-th arrival; with nothing pending no timer runs. Every emitted chunk is the
      merge of consecutive received ones; only a cancelled stream leaves a rest, and
      that rest is one short pending chunk. */
  method CoalesceStream(chunks: seq<Chunk>, deadlines: seq<bool>, ending: Ending)
      returns (out: seq<Chunk>, ghost cuts: seq<nat>)
    requires |deadlines| == |chunks| + 1
    ensures Emitted(chunks, deadlines, out, cuts)
    ensures ending != Cancelled ==> cuts[|out|] == |chunks|
    ensures exists pending :: PendingOk(chunks, deadlines, cuts[|out|], |chunks|, pending)
    ensures NoNeedlessCut(chunks, deadlines, out, cuts) && NoLateCut(chunks, out, cuts)
  {
    out, cuts := [], [0];
    var pending: Option<Chunk> := None;
    var i := 0;
    while i < |chunks|
      invariant 0 <= i <= |chunks| && Emitted(chunks, deadlines, out, cuts)
      invariant PendingOk(chunks, deadlines, cuts[|out|], i, pending)
    {
      out, cuts, pending := FlushDue(chunks, deadlines, out, cuts, pending, i);
      out, cuts, pending := Absorb(chunks, deadlines, out, cuts, pending, i);
      i := i + 1;
    }
    if deadlines[i] || ending != Cancelled {
      out, cuts := Flush(chunks, deadlines, out, cuts, pending, i);
      pending := None;
    }
    assert PendingOk(chunks, deadlines, cuts[|out|], |chunks|, pending);
    CutsAreNeeded(chunks, deadlines, out, cuts);
    CutsAreTimely(chunks, deadlines, out, cuts);
  }

  // ----- where the cuts are, from the received chunks alone -----

  ghost predicate Contradict(a: Option<string>, b: Option<string>) {
    a.Some? && b.Some? && a.value != b.value
  }

  /** Both are text, both reasoning, or both tool deltas of one call. */
  ghost predicate Alike(a: Chunk, b: Chunk) {
    || (a.TextDelta? && b.TextDelta?)
    || (a.ReasoningDelta? && b.ReasoningDelta?)
    || (a.ToolCallDelta? && b.ToolCallDelta? && a.index == b.index &&
      !Contradict(a.id, b.id) && !Contradict(a.name, b.name))
  }

  ghost predicate AllAlike(chunks: seq<Chunk>) {
    forall i, j :: 0 <= i < |chunks| && 0 <= j < |chunks| ==> Alike(chunks[i], chunks[j])
  }

  /** The characters a delta carries. */
  ghost function Size(c: Chunk): nat {
    match c
    case TextDelta(s) => |s|
    case ReasoningDelta(s) => |s|
    case ToolCallDelta(_, _, _, Some(s)) => |s|
    case _ => 0
  }

  ghost function TotalSize(chunks: seq<Chunk>): nat {
    if chunks == [] then 0 else TotalSize(chunks[..|chunks| - 1]) + Size(chunks[|chunks| - 1])
  }

  /** Between chunks that are all alike a cut falls only after 32 characters or where the
      timer fired. */
  ghost predicate NoNeedlessCut(chunks: seq<Chunk>, deadlines: seq<bool>, out: seq<Chunk>, cuts: seq<nat>)
  {
    forall i: nat :: i < |out| && i + 1 < |cuts| ==> NeededAt(chunks, deadlines, cuts, i)
  }

  ghost predicate NeededAt(chunks: seq<Chunk>, deadlines: seq<bool>, cuts: seq<nat>, i: nat)
    requires i + 1 < |cuts|
  {
    cuts[i] < cuts[i + 1] < |chunks| && cuts[i + 1] < |deadlines| && AllAlike(chunks[cuts[i]..cuts[i + 1] + 1]) ==>
      TotalSize(chunks[cuts[i]..cuts[i + 1]]) >= 32 || deadlines[cuts[i + 1]]
  }

  /** A group ends with the chunk that brings it to 32 characters. */
  ghost predicate NoLateCut(chunks: seq<Chunk>, out: seq<Chunk>, cuts: seq<nat>)
  {
    forall i: nat :: i < |out| && i + 1 < |cuts| ==> TimelyAt(chunks, cuts, i)
  }

  ghost predicate TimelyAt(chunks: seq<Chunk>, cuts: seq<nat>, i: nat)
    requires i + 1 < |cuts|
  {
    cuts[i] < cuts[i + 1] <= |chunks| && TotalSize(chunks[cuts[i]..cuts[i + 1] - 1]) < 32
  }

  lemma {:induction false} MergedSize(group: seq<Chunk>)
    requires Coalesced(group)
    ensures CharCount(Merged(group)) == TotalSize(group)
    decreases |group|
  {
    var init := group[..|group| - 1];
    if |group| > 1 { MergedSize(init); }
  }

  /** A merged tool delta has an id or a name only if one of its parts gave it. */
  lemma {:induction false} MergedNames(group: seq<Chunk>)
    requires Coalesced(group) && Merged(group).ToolCallDelta?
    ensures forall c :: c in group ==> c.ToolCallDelta? && c.index == Merged(group).index
    ensures Merged(group).id.Some? ==> exists c :: c in group && c.ToolCallDelta? && c.id == Merged(group).id
    ensures Merged(group).name.Some? ==> exists c :: c in group && c.ToolCallDelta? && c.name == Merged(group).name
    decreases |group|
  {
    var init, last := group[..|group| - 1], group[|group| - 1];
    assert group == init + [last];
    if |group| > 1 { MergedNames(init); }
  }

  lemma {:induction false} AlikeMerges(group: seq<Chunk>, next: Chunk)
    requires Coalesced(group) && AllAlike(group + [next])
    ensures CanMerge(Merged(group), next)
  {
    var all := group + [next];
    var first := group[0];
    assert all[0] == first && all[|group|] == next && Alike(first, next);
    MergedKind(group);
    if next.ToolCallDelta? {
      MergedNames(group);
      forall c | c in group
        ensures Alike(c, next)
      {
        var i :| 0 <= i < |group| && group[i] == c;
        assert all[i] == c;
      }
    }
  }

  lemma {:induction false} MergedKind(group: seq<Chunk>)
    requires Coalesced(group)
    ensures group[0].TextDelta? <==> Merged(group).TextDelta?
    ensures group[0].ReasoningDelta? <==> Merged(group).ReasoningDelta?
    ensures group[0].ToolCallDelta? <==> Merged(group).ToolCallDelta?
    decreases |group|
  {
    if |group| > 1 {
      assert group[..|group| - 1][0] == group[0];
      MergedKind(group[..|group| - 1]);
    }
  }

  lemma {:induction false} CutsAreNeeded(chunks: seq<Chunk>, deadlines: seq<bool>, out: seq<Chunk>, cuts: seq<nat>)
    requires Emitted(chunks, deadlines, out, cuts)
    ensures NoNeedlessCut(chunks, deadlines, out, cuts)
  {
    forall i: nat | i < |out|
      ensures NeededAt(chunks, deadlines, cuts, i)
    {
      assert GroupAt(chunks, out, cuts, i);
      if cuts[i + 1] < |chunks| && AllAlike(chunks[cuts[i]..cuts[i + 1] + 1]) {
        var group, next := chunks[cuts[i]..cuts[i + 1]], chunks[cuts[i + 1]];
        assert chunks[cuts[i]..cuts[i + 1] + 1] == group + [next];
        AlikeMerges(group, next);
        MergedSize(group);
      }
    }
  }

  lemma {:induction false} CutsAreTimely(chunks: seq<Chunk>, deadlines: seq<bool>, out: seq<Chunk>, cuts: seq<nat>)
    requires Emitted(chunks, deadlines, out, cuts)
    ensures NoLateCut(chunks, out, cuts)
  {
    forall i: nat | i < |out|
      ensures TimelyAt(chunks, cuts, i)
    {
      assert GroupAt(chunks, out, cuts, i);
      var group := chunks[cuts[i]..cuts[i + 1]];
      assert group[..|group| - 1] == chunks[cuts[i]..cuts[i + 1] - 1];
      if |group| > 1 { MergedSize(group[..|group| - 1]); }
    }
  }

  /** Whatever the timer does: an ended or failed stream reads exactly as received; a
      cancelled one reads as received except for at most 31 trailing characters. */
  lemma {:induction false} EveryScheduleReadsSame(chunks: seq<Chunk>, deadlines: seq<bool>, out: seq<Chunk>,
      cuts: seq<nat>, pending: Option<Chunk>)
    requires Emitted(chunks, deadlines, out, cuts) && PendingOk(chunks, deadlines, cuts[|out|], |chunks|, pending)
    ensures |out| <= |chunks|
    ensures pending.None? ==> ReadAll(Nothing(), out) == ReadAll(Nothing(), chunks)
    ensures pending.Some? ==> Read(ReadAll(Nothing(), out), pending.value) == ReadAll(Nothing(), chunks)
    ensures pending.Some? ==> |AtomsOf(pending.value)| < 32
  {
    MeaningKept(Nothing(), chunks, out, cuts);
    var cut := cuts[|out|];
    if pending.None? {
      assert chunks[..cut] == chunks;
    } else {
      MeaningStep(Nothing(), chunks, out, cut, |chunks|);
      assert chunks[..|chunks|] == chunks;
      ReadSnoc(Nothing(), out, pending.value);
    }
  }

  /** The group that starts at from cannot end at both to and a later to'. */
  lemma {:induction false} GroupGoesOn(chunks: seq<Chunk>, from: nat, to: nat, to': nat)
    requires from < to < to' <= |chunks| && Coalesced(chunks[from..to'])
    ensures Coalesced(chunks[from..to]) && CharCount(Merged(chunks[from..to])) < TARGET_CHARS
    ensures CanMerge(Merged(chunks[from..to]), chunks[to])
    decreases to'
  {
    assert chunks[from..to'][..to' - from - 1] == chunks[from..to' - 1];
    if to < to' - 1 { GroupGoesOn(chunks, from, to, to' - 1); }
  }

  lemma {:induction false} SameNextCut(chunks: seq<Chunk>, deadlines: seq<bool>, out: seq<Chunk>, cuts: seq<nat>,
      out': seq<Chunk>, cuts': seq<nat>, i: nat)
    requires Emitted(chunks, deadlines, out, cuts) && Emitted(chunks, deadlines, out', cuts')
    requires i < |out| && i < |out'| && cuts[i] == cuts'[i]
    ensures cuts[i + 1] >= cuts'[i + 1]
  {
    assert GroupAt(chunks, out, cuts, i) && GroupAt(chunks, out', cuts', i);
    if cuts[i + 1] < cuts'[i + 1] {
      GroupGoesOn(chunks, cuts[i], cuts[i + 1], cuts'[i + 1]);
    }
  }

  lemma {:induction false} SameCuts(chunks: seq<Chunk>, deadlines: seq<bool>, out: seq<Chunk>, cuts: seq<nat>,
      out': seq<Chunk>, cuts': seq<nat>, i: nat)
    requires Emitted(chunks, deadlines, out, cuts) && Emitted(chunks, deadlines, out', cuts')
    requires i <= |out| && i <= |out'|
    ensures cuts[i] == cuts'[i] && (i > 0 ==> out[i - 1] == out'[i - 1])
  {
    if i > 0 {
      SameCuts(chunks, deadlines, out, cuts, out', cuts', i - 1);
      SameNextCut(chunks, deadlines, out, cuts, out', cuts', i - 1);
      SameNextCut(chunks, deadlines, out', cuts', out, cuts, i - 1);
      assert GroupAt(chunks, out, cuts, i - 1) && GroupAt(chunks, out', cuts', i - 1);
    }
  }

  lemma {:induction false} NoLonger(chunks: seq<Chunk>, deadlines: seq<bool>, out: seq<Chunk>, cuts: seq<nat>,
      out': seq<Chunk>, cuts': seq<nat>)
    requires Emitted(chunks, deadlines, out, cuts) && Emitted(chunks, deadlines, out', cuts')
    requires cuts[|out|] == |chunks|
    ensures |out'| <= |out|
  {
    if |out| < |out'| {
      assert GroupAt(chunks, out', cuts', |out|);
      SameCuts(chunks, deadlines, out, cuts, out', cuts', |out|);
    }
  }

  /** The received chunks and the timer determine what an ended or failed stream emits. */
  lemma {:induction false} ScheduleDetermines(chunks: seq<Chunk>, deadlines: seq<bool>, out: seq<Chunk>,
      cuts: seq<nat>, out': seq<Chunk>, cuts': seq<nat>)
    requires Emitted(chunks, deadlines, out, cuts) && Emitted(chunks, deadlines, out', cuts')
    requires cuts[|out|] == |chunks| && cuts'[|out'|] == |chunks|
    ensures out == out'
  {
    NoLonger(chunks, deadlines, out, cuts, out', cuts');
    NoLonger(chunks, deadlines, out', cuts', out, cuts);
    forall i | 0 <= i < |out|
      ensures out[i] == out'[i]
    {
      SameCuts(chunks, deadlines, out, cuts, out', cuts', i + 1);
    }
  }

  // ----- reduction to the final response -----

  ghost function Responses(chunks: seq<Chunk>): seq<LLMResponse> {
    if chunks == [] then []
    else
      var last := chunks[|chunks| - 1];
      Responses(chunks[..|chunks| - 1]) + if last.Completed? then [last.response] else []
  }

  ghost function DoneAtoms(atoms: seq<Atom>): seq<LLMResponse> {
    if atoms == [] then []
    else
      var last := atoms[|atoms| - 1];
      DoneAtoms(atoms[..|atoms| - 1]) + if last.Done? then [last.response] else []
  }

  lemma {:induction false} DoneAppend(a: seq<Atom>, b: seq<Atom>)
    ensures DoneAtoms(a + b) == DoneAtoms(a) + DoneAtoms(b)
  {
    if b == [] {
      assert a + b == a;
    } else {
      assert (a + b)[..|a + b| - 1] == a + b[..|b| - 1];
      DoneAppend(a, b[..|b| - 1]);
    }
  }

  lemma {:induction false} NoDone(atoms: seq<Atom>)
    requires forall i :: 0 <= i < |atoms| ==> !atoms[i].Done?
    ensures DoneAtoms(atoms) == []
  {
    if atoms != [] { NoDone(atoms[..|atoms| - 1]); }
  }

  lemma {:induction false} ResponsesRead(chunks: seq<Chunk>)
    ensures Responses(chunks) == DoneAtoms(ReadAll(Nothing(), chunks).atoms)
  {
    if chunks != [] {
      var init, last := chunks[..|chunks| - 1], chunks[|chunks| - 1];
      ResponsesRead(init);
      DoneAppend(ReadAll(Nothing(), init).atoms, AtomsOf(last));
      if last.Completed? {
        assert AtomsOf(last)[..0] == [];
      } else {
        NoDone(AtomsOf(last));
      }
    }
  }

  datatype Reduced = Response(response: LLMResponse) | MoreThanOne | Missing

  /** Keeps the one completed response. */
  class StreamReducer {
    var completed: Option<LLMResponse>

    constructor ()
      ensures completed == None
    {
      completed := None;
    }

    /** False when a second completed response arrives, which leaves the first in place. */
    method Add(chunk: Chunk) returns (ok: bool)
      modifies this
      ensures ok <==> !(chunk.Completed? && old(completed).Some?)
      ensures completed == if ok && chunk.Completed? then Some(chunk.response) else old(completed)
    {
      if chunk.Completed? {
        if completed.Some? {
          return false;
        }
        completed := Some(chunk.response);
      }
      return true;
    }

    method Finish() returns (r: Reduced)
      ensures r == if completed.None? then Missing else Response(completed.value)
    {
      return if completed.None? then Missing else Response(completed.value);
    }
  }

  lemma {:induction false} ResponsesGrow(chunks: seq<Chunk>, i: nat)
    requires i <= |chunks|
    ensures Responses(chunks[..i]) <= Responses(chunks)
    decreases |chunks| - i
  {
    if i < |chunks| {
      assert chunks[..i + 1][..i] == chunks[..i];
      ResponsesGrow(chunks, i + 1);
    } else {
      assert chunks[..i] == chunks;
    }
  }

  /** A stream reduces to its response exactly when it has exactly one. */
  method Reduce(chunks: seq<Chunk>) returns (r: Reduced)
    ensures r.Missing? <==> |Responses(chunks)| == 0
    ensures r.MoreThanOne? <==> |Responses(chunks)| > 1
    ensures r.Response? ==> Responses(chunks) == [r.response]
  {
    var reducer := new StreamReducer();
    var i := 0;
    while i < |chunks|
      invariant 0 <= i <= |chunks| && fresh(reducer)
      invariant Responses(chunks[..i]) == if reducer.completed.None? then [] else [reducer.completed.value]
    {
      var ok := reducer.Add(chunks[i]);
      assert chunks[..i + 1][..i] == chunks[..i];
      i := i + 1;
      if !ok {
        ResponsesGrow(chunks, i);
        return MoreThanOne;
      }
    }
    assert chunks[..i] == chunks;
    r := reducer.Finish();
  }

  /** Coalescing an ended or failed stream leaves its responses as they were. */
  lemma {:induction false} CoalescingKeepsResponses(chunks: seq<Chunk>, deadlines: seq<bool>, out: seq<Chunk>,
      cuts: seq<nat>)
    requires Emitted(chunks, deadlines, out, cuts) && cuts[|out|] == |chunks|
    ensures Responses(out) == Responses(chunks)
  {
    MeaningKept(Nothing(), chunks, out, cuts);
    assert chunks[..|chunks|] == chunks;
    ResponsesRead(out);
    ResponsesRead(chunks);
  }
}
