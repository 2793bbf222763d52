/** Ids for edges whose author gave none. */
module FreshIds {

  function Digit(d: nat): (c: char)
    requires d < 10
    ensures c != '/'
  {
    "0123456789"[d]
  }

  /** A number as decimal text. */
  function Decimal(n: nat): (s: string)
    ensures s != "" && '/' !in s
  {
    if n < 10 then [Digit(n)] else Decimal(n / 10) + [Digit(n % 10)]
  }

  lemma {:induction false} DecimalInjective(a: nat, b: nat)
    requires Decimal(a) == Decimal(b)
    ensures a == b
  {
    var s, t := Decimal(a), Decimal(b);
    assert s[|s| - 1] == Digit(a % 10) && t[|t| - 1] == Digit(b % 10);
    if a >= 10 || b >= 10 {
      assert |s| > 1;
      assert s[..|s| - 1] == Decimal(a / 10) && t[..|t| - 1] == Decimal(b / 10);
      DecimalInjective(a / 10, b / 10);
    }
  }

  /** The number that decimal text stands for. */
  ghost function ValueOf(s: string): int {
    if s == "" then 0 else 10 * ValueOf(s[..|s| - 1]) + (s[|s| - 1] as int - '0' as int)
  }

  /** A number's text is made of digits, stands for the number, and has no leading zero. */
  lemma {:induction false} DecimalReads(n: nat)
    ensures ValueOf(Decimal(n)) == n && (n > 0 ==> Decimal(n)[0] != '0')
    ensures forall c :: c in Decimal(n) ==> '0' <= c <= '9'
  {
    if n >= 10 {
      DecimalReads(n / 10);
      assert Decimal(n)[..|Decimal(n)| - 1] == Decimal(n / 10);
    } else {
      assert Decimal(n)[..0] == "";
    }
  }

  function Candidate(base: string, index: nat): string {
    base + "_" + Decimal(index)
  }

  ghost function Tried(base: string, low: nat, high: nat): set<string> {
    set k: nat | low <= k < high :: Candidate(base, k)
  }

  lemma {:induction false} CandidateInjective(base: string, i: nat, j: nat)
    requires Candidate(base, i) == Candidate(base, j)
    ensures i == j
  {
    assert Candidate(base, i)[|base| + 1..] == Decimal(i) && Candidate(base, j)[|base| + 1..] == Decimal(j);
    DecimalInjective(i, j);
  }

  lemma {:induction false} TriedCount(base: string, low: nat, high: nat)
    requires low <= high
    ensures |Tried(base, low, high)| == high - low
    decreases high
  {
    if low == high {
      assert Tried(base, low, high) == {};
    } else {
      TriedCount(base, low, high - 1);
      assert Tried(base, low, high) == Tried(base, low, high - 1) + {Candidate(base, high - 1)};
      forall k: nat | low <= k < high - 1
        ensures Candidate(base, k) != Candidate(base, high - 1)
      {
        if Candidate(base, k) == Candidate(base, high - 1) { CandidateInjective(base, k, high - 1); }
      }
    }
  }

  lemma {:induction false} SubsetCount(a: set<string>, b: set<string>)
    requires a <= b
    ensures |a| <= |b|
  {
    assert b == a + (b - a);
  }

  lemma {:induction false} TriedNext(base: string, index: nat)
    requires index >= 2
    ensures Tried(base, 2, index + 1) == Tried(base, 2, index) + {Candidate(base, index)}
  {
  }

  /** The first free candidate from index on. */
  ghost function FreshFrom(base: string, used: set<string>, index: nat): (id: string)
    requires index >= 2 && Tried(base, 2, index) <= used
    ensures id !in used
    ensures exists k: nat :: k >= index && id == Candidate(base, k) && Tried(base, 2, k) <= used
    decreases |used| + 2 - index
  {
    TriedCount(base, 2, index);
    SubsetCount(Tried(base, 2, index), used);
    if Candidate(base, index) !in used then Candidate(base, index)
    else
      TriedNext(base, index);
      TriedCount(base, 2, index + 1);
      SubsetCount(Tried(base, 2, index + 1), used);
      FreshFrom(base, used, index + 1)
  }

  /** The base itself, or the base with the first free number from 2 on. */
  ghost function FreshId(base: string, used: set<string>): (id: string)
    ensures id !in used
    ensures if base !in used then id == base
      else exists k: nat :: k >= 2 && id == Candidate(base, k) && Tried(base, 2, k) <= used
  {
    if base !in used then base else FreshFrom(base, used, 2)
  }

  lemma {:induction false} FreshIdPlain(base: string, used: set<string>)
    requires '/' !in base
    ensures '/' !in FreshId(base, used)
  {
    if base in used {
      var k: nat :| k >= 2 && FreshId(base, used) == Candidate(base, k);
      assert '/' !in Decimal(k);
    }
  }

  /** The search always ends. */
  method GenerateEdgeId(base: string, used: set<string>) returns (id: string)
    ensures id == FreshId(base, used) && id !in used
    ensures if base !in used then id == base
      else exists k: nat :: k >= 2 && id == Candidate(base, k) && Tried(base, 2, k) <= used
  {
    if base !in used {
      return base;
    }
    var index := 2;
    while true
      invariant 2 <= index && Tried(base, 2, index) <= used
      invariant FreshFrom(base, used, index) == FreshFrom(base, used, 2)
      decreases |used| + 2 - index
    {
      TriedCount(base, 2, index);
      SubsetCount(Tried(base, 2, index), used);
      id := base + "_" + Decimal(index);
      assert id == Candidate(base, index);
      if id !in used {
        return;
      }
      TriedNext(base, index);
      index := index + 1;
    }
  }
}
