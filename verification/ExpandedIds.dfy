/** Ids of expanded nodes and edges: the local ids on the way to them, joined by slashes. */
module ExpandedIds {
  import opened SlashText
  import opened Lists

  function Join(segments: seq<string>): string {
    if segments == [] then ""
    else if |segments| == 1 then segments[0]
    else Join(segments[..|segments| - 1]) + "/" + segments[|segments| - 1]
  }

  function Qualify(path: seq<string>, id: string): string {
    Join(path + [id])
  }

  ghost predicate SlashFree(segments: seq<string>) {
    forall i :: 0 <= i < |segments| ==> '/' !in segments[i]
  }

  /** All parts between slashes, those inside the segments included. */
  ghost function AllSegments(segments: seq<string>): seq<string> {
    if segments == [] then [] else AllSegments(segments[..|segments| - 1]) + Split(segments[|segments| - 1])
  }

  lemma {:induction false} JoinStep(segments: seq<string>)
    requires |segments| > 1
    ensures Join(segments) == Join(segments[..|segments| - 1]) + "/" + segments[|segments| - 1]
  {
  }

  lemma {:induction false} SplitJoin(segments: seq<string>)
    requires segments != []
    ensures Split(Join(segments)) == AllSegments(segments)
  {
    var init, last := segments[..|segments| - 1], segments[|segments| - 1];
    if init == [] {
      assert AllSegments(init) == [] && segments == [last];
    } else {
      SplitJoin(init);
      JoinStep(segments);
      SplitAtSlash(Join(init), last);
    }
  }

  lemma {:induction false} JoinCons(part: string, parts: seq<string>)
    requires parts != []
    ensures Join([part] + parts) == part + "/" + Join(parts)
  {
    var init, last := parts[..|parts| - 1], parts[|parts| - 1];
    assert [part] + parts == [part] + init + [last];
    JoinStep([part] + parts);
    assert ([part] + parts)[..|parts|] == [part] + init;
    if init == [] {
      assert [part] + init == [part] && parts == [last];
    } else {
      JoinCons(part, init);
      JoinStep(parts);
      assert part + "/" + Join(init) + "/" + last == part + "/" + (Join(init) + "/" + last);
    }
  }

  lemma {:induction false} JoinFirst(c: char, parts: seq<string>)
    requires parts != []
    ensures Join([[c] + parts[0]] + parts[1..]) == [c] + Join(parts)
  {
    var rest := parts[1..];
    if rest == [] {
      assert [[c] + parts[0]] + rest == [[c] + parts[0]] && parts == [parts[0]];
    } else {
      JoinCons([c] + parts[0], rest);
      JoinCons(parts[0], rest);
      assert parts == [parts[0]] + rest;
      assert [c] + parts[0] + "/" + Join(rest) == [c] + (parts[0] + "/" + Join(rest));
    }
  }

  /** Joining the parts of a text gives the text back. */
  lemma {:induction false} JoinSplit(s: string)
    ensures Join(Split(s)) == s
  {
    if s != "" {
      var rest := Split(s[1..]);
      JoinSplit(s[1..]);
      assert s == [s[0]] + s[1..];
      if s[0] == '/' {
        JoinCons("", rest);
      } else {
        JoinFirst(s[0], rest);
      }
    }
  }

  /** Two qualified ids are equal exactly when all parts between slashes are. */
  lemma {:induction false} JoinExact(p: seq<string>, q: seq<string>)
    requires p != [] && q != []
    ensures Join(p) == Join(q) <==> AllSegments(p) == AllSegments(q)
  {
    SplitJoin(p);
    SplitJoin(q);
    JoinSplit(Join(p));
    JoinSplit(Join(q));
  }

  lemma {:induction false} SlashFreeSegments(segments: seq<string>)
    requires SlashFree(segments)
    ensures AllSegments(segments) == segments
  {
    if segments != [] {
      var init, last := segments[..|segments| - 1], segments[|segments| - 1];
      SlashFreeSegments(init);
      SplitUnbroken(last);
      assert segments == init + [last];
    }
  }

  /** Slash-free segments can be read back from a qualified id. */
  lemma {:induction false} JoinInjective(p: seq<string>, q: seq<string>)
    requires p != [] && q != [] && SlashFree(p) && SlashFree(q) && Join(p) == Join(q)
    ensures p == q
  {
    JoinExact(p, q);
    SlashFreeSegments(p);
    SlashFreeSegments(q);
  }

  // ----- lists of addresses -----

  /** The ids of the addresses. */
  ghost predicate IdsOf(addresses: seq<seq<string>>, ids: seq<string>) {
    |ids| == |addresses| && forall i :: 0 <= i < |ids| ==> addresses[i] != [] && ids[i] == Join(addresses[i])
  }

  /** No two addresses are the same once slashes inside segments count. */
  ghost predicate ApartBySegments(addresses: seq<seq<string>>) {
    forall i, j :: 0 <= i < j < |addresses| ==> AllSegments(addresses[i]) != AllSegments(addresses[j])
  }

  /** Ids are all different exactly when their addresses differ part by part. */
  lemma {:induction false} IdsDistinctExactly(addresses: seq<seq<string>>, ids: seq<string>)
    requires IdsOf(addresses, ids)
    ensures Distinct(ids) <==> ApartBySegments(addresses)
  {
    forall i, j | 0 <= i < j < |ids|
      ensures ids[i] == ids[j] <==> AllSegments(addresses[i]) == AllSegments(addresses[j])
    {
      JoinExact(addresses[i], addresses[j]);
    }
  }

  /** Different slash-free addresses differ part by part. */
  lemma {:induction false} SlashFreeApart(addresses: seq<seq<string>>)
    requires Distinct(addresses) && forall i :: 0 <= i < |addresses| ==> SlashFree(addresses[i])
    ensures ApartBySegments(addresses)
  {
    forall i, j | 0 <= i < j < |addresses|
      ensures AllSegments(addresses[i]) != AllSegments(addresses[j])
    {
      SlashFreeSegments(addresses[i]);
      SlashFreeSegments(addresses[j]);
    }
  }
}
