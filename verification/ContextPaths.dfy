/** Locations in a Context tree written as strings: every segment is escaped and
    preceded by a slash, as in sections 3 and 4 of RFC 6901. */
module ContextPaths {
  import opened SlashText

  function Replace(s: string, c: char, with: string): string {
    if s == "" then ""
    else (if s[0] == c then with else [s[0]]) + Replace(s[1..], c, with)
  }

  /** Replaces the two-character text ab, scanning from the left. */
  function ReplacePair(s: string, a: char, b: char, with: char): string {
    if |s| < 2 then s
    else if s[0] == a && s[1] == b then [with] + ReplacePair(s[2..], a, b, with)
    else [s[0]] + ReplacePair(s[1..], a, b, with)
  }

  function EscapePath(value: string): string {
    Replace(Replace(value, '~', "~0"), '/', "~1")
  }

  function UnescapePath(value: string): string {
    ReplacePair(ReplacePair(value, '~', '1', '/'), '~', '0', '~')
  }

  /** The path of a list of segments. */
  function PathOf(segments: seq<string>): string {
    if segments == [] then ""
    else PathOf(segments[..|segments| - 1]) + "/" + EscapePath(segments[|segments| - 1])
  }

  function UnescapeAll(parts: seq<string>): (r: seq<string>)
    ensures |r| == |parts| && forall i :: 0 <= i < |r| ==> r[i] == UnescapePath(parts[i])
  {
    seq(|parts|, i requires 0 <= i < |parts| => UnescapePath(parts[i]))
  }

  /** The segments a merge reads back from a path. */
  function SegmentsOf(path: string): seq<string> {
    UnescapeAll(Split(path)[1..])
  }

  function PathsOverlap(left: string, right: string): bool {
    left == right || right + "/" <= left || left + "/" <= right
  }

  // ----- escaping -----

  function EscapedTilde(s: string): string {
    Replace(s, '~', "~0")
  }

  lemma {:induction false} ReplaceAppend(s: string, t: string, c: char, with: string)
    ensures Replace(s + t, c, with) == Replace(s, c, with) + Replace(t, c, with)
  {
    if s == "" {
      assert s + t == t;
    } else {
      assert (s + t)[1..] == s[1..] + t;
      ReplaceAppend(s[1..], t, c, with);
    }
  }

  function EscapedChar(c: char): string {
    if c == '~' then "~0" else if c == '/' then "~1" else [c]
  }

  /** Escaping works character by character. */
  lemma {:induction false} EscapeStep(s: string)
    requires s != ""
    ensures EscapePath(s) == EscapedChar(s[0]) + EscapePath(s[1..])
  {
    var head := if s[0] == '~' then "~0" else [s[0]];
    ReplaceAppend(head, EscapedTilde(s[1..]), '/', "~1");
    assert Replace("~0", '/', "~1") == "~0" by { assert "~0"[1..] == "0"; }
  }

  lemma {:induction false} KeepsHead(c: char, rest: string)
    requires c != '~' || (rest != "" && rest[0] != '1')
    ensures ReplacePair([c] + rest, '~', '1', '/') == [c] + ReplacePair(rest, '~', '1', '/')
  {
    assert ([c] + rest)[1..] == rest;
  }

  /** Restoring slashes reads one escaped character at a time. */
  lemma {:induction false} RestoreSlashStep(c: char, rest: string)
    ensures ReplacePair(EscapedChar(c) + rest, '~', '1', '/') ==
      (if c == '~' then "~0" else [c]) + ReplacePair(rest, '~', '1', '/')
  {
    if c == '~' {
      assert "~0" + rest == "~" + ("0" + rest);
      KeepsHead('~', "0" + rest);
      KeepsHead('0', rest);
    } else if c == '/' {
      assert ("~1" + rest)[2..] == rest;
    } else {
      KeepsHead(c, rest);
    }
  }

  /** Restoring slashes leaves the text with only the tildes escaped. */
  lemma {:induction false} SlashesRestored(s: string)
    ensures ReplacePair(EscapePath(s), '~', '1', '/') == EscapedTilde(s)
  {
    if s != "" {
      EscapeStep(s);
      RestoreSlashStep(s[0], EscapePath(s[1..]));
      SlashesRestored(s[1..]);
    }
  }

  lemma {:induction false} TildesRestored(s: string)
    ensures ReplacePair(EscapedTilde(s), '~', '0', '~') == s
  {
    if s != "" {
      TildesRestored(s[1..]);
      var rest := EscapedTilde(s[1..]);
      if s[0] == '~' {
        assert EscapedTilde(s) == "~0" + rest && ("~0" + rest)[2..] == rest;
      } else {
        assert EscapedTilde(s) == [s[0]] + rest && ([s[0]] + rest)[1..] == rest;
      }
    }
  }

  /** Escaping is undone, in the order the merge undoes it. */
  lemma {:induction false} EscapeRoundTrip(s: string)
    ensures UnescapePath(EscapePath(s)) == s
  {
    SlashesRestored(s);
    TildesRestored(s);
  }

  lemma {:induction false} NoSlashAfterReplace(s: string)
    ensures '/' !in Replace(s, '/', "~1")
  {
    if s != "" { NoSlashAfterReplace(s[1..]); }
  }

  // ----- reading back -----

  function EscapeAll(segments: seq<string>): (r: seq<string>)
    ensures |r| == |segments| && forall i :: 0 <= i < |r| ==> r[i] == EscapePath(segments[i])
  {
    seq(|segments|, i requires 0 <= i < |segments| => EscapePath(segments[i]))
  }

  lemma {:induction false} SplitPath(segments: seq<string>)
    ensures Split(PathOf(segments)) == [""] + EscapeAll(segments)
  {
    if segments != [] {
      var init, last := segments[..|segments| - 1], segments[|segments| - 1];
      SplitPath(init);
      SplitAtSlash(PathOf(init), EscapePath(last));
      NoSlashAfterReplace(Replace(last, '~', "~0"));
      SplitUnbroken(EscapePath(last));
      assert EscapeAll(segments) == EscapeAll(init) + [EscapePath(last)];
    }
  }

  /** Reading a path back gives the segments it was written from. */
  lemma {:induction false} PathRoundTrip(segments: seq<string>)
    ensures SegmentsOf(PathOf(segments)) == segments
  {
    SplitPath(segments);
    forall i | 0 <= i < |segments|
      ensures UnescapePath(EscapeAll(segments)[i]) == segments[i]
    {
      EscapeRoundTrip(segments[i]);
    }
  }

  lemma {:induction false} PathAppend(p: seq<string>, q: seq<string>)
    ensures PathOf(p + q) == PathOf(p) + PathOf(q)
  {
    if q == [] {
      assert p + q == p;
    } else {
      var init := q[..|q| - 1];
      assert (p + q)[..|p + q| - 1] == p + init;
      PathAppend(p, init);
    }
  }

  lemma {:induction false} PathStartsWithSlash(p: seq<string>)
    requires p != []
    ensures PathOf(p) != "" && PathOf(p)[0] == '/'
  {
    if |p| > 1 { PathStartsWithSlash(p[..|p| - 1]); }
  }

  lemma {:induction false} PathExtends(p: seq<string>, q: seq<string>)
    requires q <= p && q != p
    ensures PathOf(q) + "/" <= PathOf(p)
  {
    assert p == q + p[|q|..];
    PathAppend(q, p[|q|..]);
    PathStartsWithSlash(p[|q|..]);
  }

  lemma {:induction false} UnescapeTail(a: seq<string>, b: seq<string>)
    requires |a| > 0
    ensures UnescapeAll((a + b)[1..]) == UnescapeAll(a[1..]) + UnescapeAll(b)
  {
  }

  lemma {:induction false} ExtensionSplits(p: seq<string>, q: seq<string>, rest: string)
    requires PathOf(p) == PathOf(q) + "/" + rest
    ensures p == q + UnescapeAll(Split(rest))
  {
    SplitAtSlash(PathOf(q), rest);
    PathRoundTrip(p);
    PathRoundTrip(q);
    UnescapeTail(Split(PathOf(q)), Split(rest));
  }

  /** The string test finds a proper extension exactly when the segments extend. */
  lemma {:induction false} ExtensionExact(p: seq<string>, q: seq<string>)
    ensures PathOf(q) + "/" <= PathOf(p) <==> (q <= p && q != p)
  {
    if PathOf(q) + "/" <= PathOf(p) {
      var rest := PathOf(p)[|PathOf(q)| + 1..];
      assert PathOf(p) == PathOf(q) + "/" + rest;
      ExtensionSplits(p, q, rest);
      assert |Split(rest)| > 0;
    }
    if q <= p && q != p { PathExtends(p, q); }
  }

  lemma {:induction false} PathInjective(p: seq<string>, q: seq<string>)
    requires PathOf(p) == PathOf(q)
    ensures p == q
  {
    PathRoundTrip(p);
    PathRoundTrip(q);
  }

  /** Two paths overlap as strings exactly when one segment list is a prefix of the other. */
  lemma {:induction false} OverlapExact(p: seq<string>, q: seq<string>)
    ensures PathsOverlap(PathOf(p), PathOf(q)) <==> (p <= q || q <= p)
  {
    ExtensionExact(p, q);
    ExtensionExact(q, p);
    if PathOf(p) == PathOf(q) { PathInjective(p, q); }
  }
}
