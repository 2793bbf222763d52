/** Which entry and exit a placeholder gets, which ids edges get, and what counts as a
    problem, told from the child and the source alone. */
module ExpansionChoices {
  import opened Options
  import opened Lists
  import opened ExpandedIds
  import opened FreshIds
  import opened Expansion
  import opened ExpansionNames
  import opened ExpansionEdges

  // ----- entries and exits -----

  /** The local ids whose input endpoint is a node that no edge leads to. */
  ghost function EntryKeys(sub: Expanded): set<string> {
    set key | key in sub.inputs && sub.inputs[key] in NodeIds(sub.nodes) &&
      forall e :: e in sub.edges ==> e.into != sub.inputs[key]
  }

  /** The local ids whose output endpoint is a kept node that no edge leaves. */
  ghost function ExitKeys(sub: Expanded, kept: set<string>): set<string> {
    set key | key in sub.outputs && sub.outputs[key] in NodeIds(sub.nodes) && sub.outputs[key] in kept &&
      forall e :: e in sub.edges ==> e.from != sub.outputs[key]
  }

  /** The selector names the key, or there is none and the key is the only one. */
  ghost predicate Chooses(selector: Option<string>, keys: set<string>, key: string) {
    key in keys && (selector == Some(key) || (selector == None && keys == {key}))
  }

  ghost predicate ChoosesBoth(node: SourceNode, sub: Expanded, entryKey: string, exitKey: string) {
    && Chooses(node.entrySelector, EntryKeys(sub), entryKey)
    && Chooses(node.exitSelector, ExitKeys(sub, LeastClosed(sub.inputs[entryKey], sub.nodes, sub.edges)), exitKey)
  }

  lemma {:induction false} BoundaryChoice(selector: Option<string>, candidates: map<string, string>)
    ensures BoundaryOf(selector, candidates).Some? <==> exists key :: Chooses(selector, candidates.Keys, key)
    ensures forall key :: Chooses(selector, candidates.Keys, key) ==>
      BoundaryOf(selector, candidates) == Some(candidates[key])
  {
    if |candidates| == 1 && selector.None? {
      var key :| key in candidates;
      OnlyKeys(candidates, key);
      assert Chooses(selector, candidates.Keys, key);
    }
    if selector.Some? && selector.value in candidates { assert Chooses(selector, candidates.Keys, selector.value); }
    forall key | Chooses(selector, candidates.Keys, key)
      ensures BoundaryOf(selector, candidates) == Some(candidates[key])
    {
      if selector.None? { assert |candidates.Keys| == 1; }
    }
  }

  lemma {:induction false} OnlyKeys(candidates: map<string, string>, key: string)
    requires |candidates| == 1 && key in candidates
    ensures candidates.Keys == {key}
  {
    forall other | other in candidates
      ensures other == key
    {
      OnlyKey(candidates, other, key);
    }
  }

  lemma {:induction false} EntryCandidates(sub: Expanded)
    ensures EntriesOf(sub).Keys == EntryKeys(sub)
    ensures forall key :: key in EntriesOf(sub) ==> EntriesOf(sub)[key] == sub.inputs[key]
  {
  }

  lemma {:induction false} ExitCandidates(sub: Expanded, kept: set<string>)
    ensures Within(ExitsOf(sub), kept).Keys == ExitKeys(sub, kept)
    ensures forall key :: key in Within(ExitsOf(sub), kept) ==> Within(ExitsOf(sub), kept)[key] == sub.outputs[key]
  {
  }

  /** A child is embedded exactly when an entry and then an exit can be chosen, and then
      with these. */
  lemma {:induction false} EmbeddingChoice(node: SourceNode, sub: Expanded)
    ensures EmbeddingOf(node, sub).entry.Some? <==>
      exists entryKey, exitKey :: ChoosesBoth(node, sub, entryKey, exitKey)
    ensures forall entryKey, exitKey :: ChoosesBoth(node, sub, entryKey, exitKey) ==>
      EmbeddingOf(node, sub).entry == Some(sub.inputs[entryKey]) &&
        EmbeddingOf(node, sub).exit == Some(sub.outputs[exitKey])
  {
    EntryCandidates(sub);
    BoundaryChoice(node.entrySelector, EntriesOf(sub));
    if entryKey :| Chooses(node.entrySelector, EntryKeys(sub), entryKey) {
      var kept := LeastClosed(sub.inputs[entryKey], sub.nodes, sub.edges);
      ExitCandidates(sub, kept);
      BoundaryChoice(node.exitSelector, Within(ExitsOf(sub), kept));
      if exitKey :| Chooses(node.exitSelector, ExitKeys(sub, kept), exitKey) {
        assert ChoosesBoth(node, sub, entryKey, exitKey);
      }
      forall other | Chooses(node.entrySelector, EntryKeys(sub), other)
        ensures sub.inputs[other] == sub.inputs[entryKey]
      {
      }
    }
  }

  /** Only the first node with the entry's id is an entry, if the placeholder is one. */
  lemma {:induction false} EntryMarks(node: SourceNode, sub: Expanded, i: nat)
    requires EmbeddingOf(node, sub).entry.Some? && i < |EmbeddingOf(node, sub).nodes|
    ensures var group := EmbeddingOf(node, sub);
      group.nodes[i].entry <==>
        && node.entry && group.nodes[i].id == group.entry.value
        && forall j :: 0 <= j < i ==> group.nodes[j].id != group.entry.value
  {
    var group := EmbeddingOf(node, sub);
    var entry := group.entry.value;
    var kept := KeepNodes(sub.nodes, LeastClosed(entry, sub.nodes, sub.edges));
    assert group.nodes == MarkEntry(kept, entry, node.entry);
    MarkMeans(kept, entry, node.entry, i);
  }

  lemma {:induction false} MarkMeans(nodes: seq<FlatNode>, entry: string, flag: bool, i: nat)
    requires i < |nodes|
    ensures var marked := MarkEntry(nodes, entry, flag);
      && (forall j :: 0 <= j < |nodes| ==> marked[j].id == nodes[j].id)
      && (marked[i].entry <==> flag && nodes[i].id == entry && forall j :: 0 <= j < i ==> nodes[j].id != entry)
  {
    var before := NodeIds(nodes[..i]);
    assert forall j :: 0 <= j < i ==> before[j] == nodes[j].id;
    assert entry in before <==> exists j :: 0 <= j < i && before[j] == entry;
  }

  /** A node that is no placeholder becomes one node at its own address. */
  lemma {:induction false} OwnGroupMeans(table: seq<Workflow>, source: SourceNode, path: seq<string>, stack: set<nat>)
    requires ChildrenExist(table) && source.capability == Operator
    ensures var group, id := GroupOf(table, source, path, stack), Join(path + [source.id]);
      && group.nodes == [FlatNode(id, source.id, path, source.entry)] && group.edges == []
      && group.entry == Some(id) && group.exit == Some(id)
      && group.problems == if source.entrySelector == None && source.exitSelector == None then [] else [SelectorInvalid]
  {
  }

  // ----- ids of edges -----

  /** Given by some author, or to an earlier edge. */
  ghost predicate Taken(w: Workflow, locals: seq<string>, k: nat, id: string)
    requires k <= |locals|
  {
    (exists e :: e in w.edges && e.id == Some(id)) || id in locals[..k]
  }

  /** The base is taken, and so are the base with the numbers from 2 up to this one. */
  ghost predicate Numbered(w: Workflow, locals: seq<string>, k: nat, base: string, m: nat)
    requires k < |locals|
  {
    && m >= 2 && locals[k] == base + "_" + Decimal(m) && Taken(w, locals, k, base)
    && forall i :: 2 <= i < m ==> Taken(w, locals, k, base + "_" + Decimal(i))
  }

  lemma {:induction false} LocalIdAt(edges: seq<SourceEdge>, explicit: set<string>, k: nat)
    requires k < |edges|
    ensures LocalIdsOf(edges, explicit)[..k] == LocalIdsOf(edges[..k], explicit)
    ensures LocalIdsOf(edges, explicit)[k] == LocalId(edges[k], explicit + Elements(LocalIdsOf(edges[..k], explicit)))
  {
    var n := |edges| - 1;
    if k < n {
      LocalIdAt(edges[..n], explicit, k);
      assert edges[..n][..k] == edges[..k];
    }
  }

  lemma {:induction false} GivenIds(w: Workflow, id: string)
    ensures id in ExplicitIds(w.edges) <==> exists e :: e in w.edges && e.id == Some(id)
  {
    if e :| e in w.edges && e.id == Some(id) {
      var i :| 0 <= i < |w.edges| && w.edges[i] == e;
    }
  }

  /** An edge keeps a non-empty id its author gave; otherwise it is named after its ends,
      with the first free number from 2 on when that name is taken. */
  lemma {:induction false} LocalIdMeans(w: Workflow, k: nat)
    requires k < |w.edges|
    ensures var locals, edge := LocalIdsOf(w.edges, ExplicitIds(w.edges)), w.edges[k];
      var base := "edge_" + edge.from + "_" + edge.into;
      if edge.id.Some? && edge.id.value != "" then locals[k] == edge.id.value
      else !Taken(w, locals, k, locals[k]) && (locals[k] == base || exists m: nat :: Numbered(w, locals, k, base, m))
  {
    var explicit, edge := ExplicitIds(w.edges), w.edges[k];
    var locals, base := LocalIdsOf(w.edges, explicit), BaseId(edge);
    var used := explicit + Elements(locals[..k]);
    LocalIdAt(w.edges, explicit, k);
    forall id
      ensures id in used <==> Taken(w, locals, k, id)
    {
      GivenIds(w, id);
    }
    if !IdGiven(edge) && base in used {
      var m: nat :| m >= 2 && locals[k] == Candidate(base, m) && Tried(base, 2, m) <= used;
      forall i | 2 <= i < m
        ensures Taken(w, locals, k, base + "_" + Decimal(i))
      {
        assert Candidate(base, i) in Tried(base, 2, m);
      }
      assert Numbered(w, locals, k, base, m);
    }
  }

  // ----- problems -----

  /** The node an id leads to, the last one that has it, is a placeholder. */
  ghost predicate LeadsToChild(w: Workflow, id: string) {
    exists i :: 0 <= i < |w.nodes| && w.nodes[i].id == id && w.nodes[i].capability.Child? &&
      forall j :: i < j < |w.nodes| ==> w.nodes[j].id != id
  }

  /** One more node decides for its id, and for no other. */
  lemma {:induction false} LeadsNext(nodes: seq<SourceNode>, id: string)
    requires nodes != []
    ensures var n := |nodes| - 1;
      LeadsToChild(Workflow(nodes, []), id) <==>
        if nodes[n].id == id then nodes[n].capability.Child? else LeadsToChild(Workflow(nodes[..n], []), id)
  {
    var n := |nodes| - 1;
    var init := nodes[..n];
    assert forall j :: 0 <= j < n ==> init[j] == nodes[j];
    if nodes[n].id != id && LeadsToChild(Workflow(nodes, []), id) {
      var i :| 0 <= i < |nodes| && nodes[i].id == id && nodes[i].capability.Child? &&
        forall j :: i < j < |nodes| ==> nodes[j].id != id;
      assert i < n && init[i] == nodes[i];
    }
  }

  lemma {:induction false} TargetMeans(nodes: seq<SourceNode>, id: string)
    ensures TargetsChild(nodes, id) <==> LeadsToChild(Workflow(nodes, []), id)
  {
    if nodes != [] {
      TargetMeans(nodes[..|nodes| - 1], id);
      LeadsNext(nodes, id);
    }
  }

  /** The k-th edge maps over items and leads to a placeholder. */
  ghost predicate MapsToChild(w: Workflow, k: nat) {
    k < |w.edges| && w.edges[k].mapped && LeadsToChild(w, w.edges[k].into)
  }

  lemma {:induction false} MappedNext(w: Workflow, n: nat)
    ensures |set k: nat | k < n + 1 && MapsToChild(w, k)| ==
      |set k: nat | k < n && MapsToChild(w, k)| + if MapsToChild(w, n) then 1 else 0
  {
    var before, all := set k: nat | k < n && MapsToChild(w, k), set k: nat | k < n + 1 && MapsToChild(w, k);
    assert all == if MapsToChild(w, n) then before + {n} else before;
  }

  /** One problem for every mapped edge to a placeholder, and no other. */
  lemma {:induction false} EdgeProblemsMean(w: Workflow, n: nat)
    requires n <= |w.edges|
    ensures forall p :: p in EdgeProblems(w.nodes, w.edges[..n]) ==> p == MapUnsupported
    ensures |EdgeProblems(w.nodes, w.edges[..n])| == |set k: nat | k < n && MapsToChild(w, k)|
  {
    if n > 0 {
      EdgeProblemsMean(w, n - 1);
      assert w.edges[..n][..n - 1] == w.edges[..n - 1];
      TargetMeans(w.nodes, w.edges[n - 1].into);
      assert LeadsToChild(Workflow(w.nodes, []), w.edges[n - 1].into) <==> LeadsToChild(w, w.edges[n - 1].into);
      MappedNext(w, n - 1);
    } else {
      assert (set k: nat | k < n && MapsToChild(w, k)) == {};
    }
  }

  /** The node is an entry although an edge leads to it. */
  ghost predicate EnteredEntry(nodes: seq<FlatNode>, edges: seq<FlatEdge>, i: nat) {
    i < |nodes| && nodes[i].entry && exists e :: e in edges && e.into == nodes[i].id
  }

  ghost function EnteredEntries(nodes: seq<FlatNode>, edges: seq<FlatEdge>): set<nat> {
    set i: nat | i < |nodes| && EnteredEntry(nodes, edges, i)
  }

  /** Without the first node every place is one lower. */
  lemma {:induction false} EnteredShift(nodes: seq<FlatNode>, edges: seq<FlatEdge>, i: nat)
    requires nodes != []
    ensures i in EnteredEntries(nodes, edges) <==>
      if i == 0 then EnteredEntry(nodes, edges, 0) else i - 1 in EnteredEntries(nodes[1..], edges)
  {
    if 0 < i < |nodes| { assert nodes[i] == nodes[1..][i - 1]; }
  }

  lemma {:induction false} EnteredSet(nodes: seq<FlatNode>, edges: seq<FlatEdge>)
    requires nodes != []
    ensures EnteredEntries(nodes, edges) ==
      Shifted(EnteredEntries(nodes[1..], edges)) + if EnteredEntry(nodes, edges, 0) then {0} else {}
  {
    forall i: nat
      ensures i in EnteredEntries(nodes, edges) <==>
        i in Shifted(EnteredEntries(nodes[1..], edges)) || (i == 0 && EnteredEntry(nodes, edges, 0))
    {
      EnteredShift(nodes, edges, i);
      ShiftedAt(EnteredEntries(nodes[1..], edges), i);
    }
  }

  lemma {:induction false} EnteredNext(nodes: seq<FlatNode>, edges: seq<FlatEdge>)
    requires nodes != []
    ensures |EnteredEntries(nodes, edges)| == |EnteredEntries(nodes[1..], edges)| +
      if EnteredEntry(nodes, edges, 0) then 1 else 0
  {
    var shifted := Shifted(EnteredEntries(nodes[1..], edges));
    EnteredSet(nodes, edges);
    ShiftedSize(EnteredEntries(nodes[1..], edges));
    ShiftedAt(EnteredEntries(nodes[1..], edges), 0);
    assert 0 !in shifted;
  }

  lemma {:induction false} ShiftedAt(s: set<nat>, i: nat)
    ensures i in Shifted(s) <==> i > 0 && i - 1 in s
  {
  }

  lemma {:induction false} EntryProblemsMean(nodes: seq<FlatNode>, edges: seq<FlatEdge>)
    ensures forall p :: p in EntryProblems(nodes, edges) ==> p == EntryHasIncoming
    ensures |EntryProblems(nodes, edges)| == |EnteredEntries(nodes, edges)|
  {
    if nodes != [] {
      EntryProblemsMean(nodes[1..], edges);
      EnteredNext(nodes, edges);
      assert EnteredEntry(nodes, edges, 0) <==> nodes[0].entry && HasIncoming(edges, nodes[0].id);
    } else {
      assert EnteredEntries(nodes, edges) == {};
    }
  }

  ghost function Shifted(s: set<nat>): set<nat> {
    set i | i in s :: i + 1
  }

  lemma {:induction false} ShiftedOne(s: set<nat>, x: nat)
    requires x in s
    ensures Shifted(s) == Shifted(s - {x}) + {x + 1} && x + 1 !in Shifted(s - {x})
  {
    forall y: nat
      ensures y in Shifted(s) <==> y in Shifted(s - {x}) || y == x + 1
    {
      if y in Shifted(s) && y != x + 1 { assert y - 1 in s - {x}; }
    }
  }

  lemma {:induction false} ShiftedSize(s: set<nat>)
    ensures |Shifted(s)| == |s|
  {
    if s != {} {
      var x :| x in s;
      ShiftedSize(s - {x});
      ShiftedOne(s, x);
    }
  }

  lemma {:induction false} GatherProblems(nodes: seq<SourceNode>, groups: seq<Embedded>)
    requires |nodes| == |groups|
    ensures Gather(nodes, groups).problems == [] <==> forall i :: 0 <= i < |groups| ==> groups[i].problems == []
  {
    if nodes != [] {
      var n := |nodes| - 1;
      GatherProblems(nodes[..n], groups[..n]);
      assert |Gather(nodes, groups).problems| == |Gather(nodes[..n], groups[..n]).problems| + |groups[n].problems|;
      assert forall i :: 0 <= i < n ==> groups[..n][i] == groups[i];
    }
  }

  lemma {:induction false} CompletedProblems(w: Workflow, path: seq<string>, p: Expanded)
    ensures var e := Completed(w, path, p);
      e.problems == [] <==>
        && p.problems == [] && (forall k: nat :: !MapsToChild(w, k))
        && (path == [] || forall i: nat :: !EnteredEntry(e.nodes, e.edges, i))
  {
    var e := Completed(w, path, p);
    assert w.edges[..|w.edges|] == w.edges;
    EdgeProblemsMean(w, |w.edges|);
    EntryProblemsMean(e.nodes, e.edges);
    NoneExactly(w, e);
    assert |e.problems| == |p.problems| + |EdgeProblems(w.nodes, w.edges)| +
      if path != [] then |EntryProblems(e.nodes, e.edges)| else 0;
  }

  lemma {:induction false} NodesProblems(table: seq<Workflow>, w: nat, path: seq<string>, stack: set<nat>)
    requires ChildrenExist(table) && w < |table| && w !in stack
    ensures NodesOf(table, w, path, stack + {w}).problems == [] <==>
      forall i: nat :: i < |table[w].nodes| ==> GroupIn(table, w, i, path, stack).problems == []
  {
    var nodes, inner := table[w].nodes, stack + {w};
    var groups := GroupsUpTo(table, w, |nodes|, path, inner);
    GatherProblems(nodes, groups);
    forall i: nat | i < |nodes|
      ensures groups[i] == GroupIn(table, w, i, path, stack)
    {
      GroupsUpToAt(table, w, |nodes|, path, inner, i);
    }
  }

  /** A Workflow expands without problems exactly when it is not inside itself, each of its
      nodes does, no mapped edge leads to a placeholder, and, inside another Workflow, no
      edge leads to an entry. */
  lemma {:induction false} ProblemFreeExactly(table: seq<Workflow>, w: nat, path: seq<string>, stack: set<nat>)
    requires ChildrenExist(table) && w < |table|
    ensures var e := Expand(table, w, path, stack);
      e.problems == [] <==>
        && w !in stack
        && (forall i: nat :: i < |table[w].nodes| ==> GroupIn(table, w, i, path, stack).problems == [])
        && (forall k: nat :: !MapsToChild(table[w], k))
        && (path == [] || forall i: nat :: !EnteredEntry(e.nodes, e.edges, i))
  {
    if w !in stack {
      NodesProblems(table, w, path, stack);
      CompletedProblems(table[w], path, NodesOf(table, w, path, stack + {w}));
    }
  }

  lemma {:induction false} NoneExactly(w: Workflow, e: Expanded)
    ensures (set k: nat | k < |w.edges| && MapsToChild(w, k)) == {} <==> forall k: nat :: !MapsToChild(w, k)
    ensures EnteredEntries(e.nodes, e.edges) == {} <==>
      forall i: nat :: !EnteredEntry(e.nodes, e.edges, i)
  {
    var mapped := set k: nat | k < |w.edges| && MapsToChild(w, k);
    var entered := EnteredEntries(e.nodes, e.edges);
    assert forall k: nat :: MapsToChild(w, k) ==> k in mapped;
    assert forall i: nat :: EnteredEntry(e.nodes, e.edges, i) ==> i in entered;
    assert forall k :: k in mapped ==> MapsToChild(w, k);
    assert forall i :: i in entered ==> EnteredEntry(e.nodes, e.edges, i);
  }

  /** A placeholder has no problems exactly when it asks for no behaviour of its own, its
      child has none, and an entry and an exit can be chosen. */
  lemma {:induction false} EmbeddingProblemFree(node: SourceNode, sub: Expanded)
    ensures EmbeddingOf(node, sub).problems == [] <==>
      && !node.hasBehavior && sub.problems == []
      && exists entryKey, exitKey :: ChoosesBoth(node, sub, entryKey, exitKey)
  {
    EmbeddingChoice(node, sub);
    if EmbeddingOf(node, sub).entry.None? { EmbeddingRefused(node, sub); } else { EmbeddingAccepted(node, sub); }
  }

  lemma {:induction false} EmbeddingRefused(node: SourceNode, sub: Expanded)
    requires EmbeddingOf(node, sub).entry.None?
    ensures EmbeddingOf(node, sub).problems != []
  {
    var entry := BoundaryOf(node.entrySelector, EntriesOf(sub));
    assert entry.None? ==> |BoundaryProblems(node.entrySelector, EntriesOf(sub))| == 1;
  }

  lemma {:induction false} EmbeddingAccepted(node: SourceNode, sub: Expanded)
    requires EmbeddingOf(node, sub).entry.Some?
    ensures EmbeddingOf(node, sub).problems == [] <==> !node.hasBehavior && sub.problems == []
  {
    var entry := BoundaryOf(node.entrySelector, EntriesOf(sub));
    assert entry.Some? && BoundaryProblems(node.entrySelector, EntriesOf(sub)) == [];
    var problems := (if node.hasBehavior then [BehaviorUnsupported] else []) + sub.problems + [];
    PrunedAccepted(node, sub, entry.value, LeastClosed(entry.value, sub.nodes, sub.edges), problems);
  }

  lemma {:induction false} PrunedAccepted(node: SourceNode, sub: Expanded, entry: string, kept: set<string>,
      problems: seq<Problem>)
    requires PrunedTo(node, sub, entry, kept, problems).entry.Some?
    ensures PrunedTo(node, sub, entry, kept, problems).problems == problems
  {
    assert problems + [] == problems;
  }
}
