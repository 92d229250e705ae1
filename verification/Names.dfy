/** Names on the IRC side: sanitised, and made unique by a numbered suffix. */
module Names {
  import opened Prelude
  import Decimal
  import opened IrcGrammar

  /** The characters that must not appear in a nick or a channel name. */
  predicate IsDropped(c: char) {
    c <= '\U{20}' || c == '@' || c == '"' || c == '+' || c == '#' || c == '\U{7F}'
  }

  predicate IsKept(c: char) {
    !IsDropped(c)
  }

  function Sanitise(s: string): (r: string)
    ensures forall i :: 0 <= i < |r| ==> IsKept(r[i])
  {
    Filter(IsKept, s)
  }

  /** A sanitised name can stand in an IRC line unless it has a character beyond the second plane. */
  lemma SanitisedNamesFitTheGrammar(s: string)
    requires forall i :: 0 <= i < |s| ==> s[i] <= '\U{1FFFF}'
    ensures All(IsWord, Sanitise(s))
  {
    KeptCharactersStay(s);
    forall i | 0 <= i < |Sanitise(s)|
      ensures IsWord(Sanitise(s)[i])
    {
      assert Sanitise(s)[i] in s;
    }
  }

  /** A sanitised name is the text without control characters, spaces, and what means something in IRC's nicks, lists
    * and channel names. */
  lemma SanitisedIsTheRest(s: string)
    ensures Sanitise(s) == Filter((c: char) => !(c as int <= 32 || c as int == 127 || c in {'@', '"', '+', '#'}), s)
  {
    SameFilter(IsKept, (c: char) => !(c as int <= 32 || c as int == 127 || c in {'@', '"', '+', '#'}), s);
  }

  lemma {:induction false} SameFilter(p: char -> bool, q: char -> bool, s: string)
    requires forall c :: p(c) <==> q(c)
    ensures Filter(p, s) == Filter(q, s)
  {
    if s != "" {
      SameFilter(p, q, s[1..]);
    }
  }

  lemma {:induction false} KeptCharactersStay(s: string)
    ensures forall c :: c in Sanitise(s) ==> c in s
  {
    if s != [] {
      KeptCharactersStay(s[1..]);
      assert Sanitise(s) == (if IsKept(s[0]) then [s[0]] else []) + Sanitise(s[1..]);
    }
  }

  function Candidate(base: string, idx: nat): string {
    base + "[" + Decimal.Text(idx) + "]"
  }

  lemma CandidatesDiffer(base: string, i: nat, j: nat)
    requires Candidate(base, i) == Candidate(base, j)
    ensures i == j
  {
    var a, b := Candidate(base, i), Candidate(base, j);
    assert Decimal.Text(i) == a[|base| + 1..|a| - 1];
    assert Decimal.Text(j) == b[|base| + 1..|b| - 1];
    Decimal.TextInjective(i, j);
  }

  /** The first n candidates. */
  ghost function Candidates(base: string, n: nat): set<string> {
    if n == 0 then {} else Candidates(base, n - 1) + {Candidate(base, n)}
  }

  lemma {:induction false} CandidatesCount(base: string, n: nat)
    ensures |Candidates(base, n)| == n
  {
    hide Candidate;
    if n > 0 {
      CandidatesCount(base, n - 1);
      CandidatesAre(base, n - 1);
      if Candidate(base, n) in Candidates(base, n - 1) {
        var i :| 1 <= i <= n - 1 && Candidate(base, n) == Candidate(base, i);
        CandidatesDiffer(base, n, i);
      }
    }
  }

  lemma {:induction false} CandidatesAre(base: string, n: nat)
    ensures forall x :: x in Candidates(base, n) ==> exists i: nat :: 1 <= i <= n && x == Candidate(base, i)
  {
    hide Candidate;
    if n > 0 {
      CandidatesAre(base, n - 1);
    }
  }

  ghost predicate IsLeastFree(base: string, taken: set<string>, k: nat) {
    k >= 1 && Candidate(base, k) !in taken && forall j :: 1 <= j < k ==> Candidate(base, j) in taken
  }

  /** Among the first |taken| + 1 candidates one is free, and so one is the first free one. */
  lemma {:induction false} LeastFreeExists(base: string, taken: set<string>, from: nat)
    requires from >= 1 && forall j :: 1 <= j < from ==> Candidate(base, j) in taken
    ensures exists k: nat :: IsLeastFree(base, taken, k) && from <= k <= |taken| + 1
    decreases |taken| + 1 - from
  {
    hide Candidate, Candidates;
    CandidatesCount(base, from - 1);
    CandidatesAre(base, from - 1);
    SubsetSize(Candidates(base, from - 1), taken);
    if Candidate(base, from) in taken {
      CandidatesCount(base, from);
      CandidatesAre(base, from);
      SubsetSize(Candidates(base, from), taken);
      LeastFreeExists(base, taken, from + 1);
    } else {
      assert IsLeastFree(base, taken, from);
    }
  }

  lemma {:induction false} SubsetSize<T>(a: set<T>, b: set<T>)
    requires a <= b
    ensures |a| <= |b|
  {
    if a != {} {
      var x :| x in a;
      SubsetSize(a - {x}, b - {x});
    }
  }

  lemma LeastFreeIsUnique(base: string, taken: set<string>, j: nat, k: nat)
    requires IsLeastFree(base, taken, j) && IsLeastFree(base, taken, k)
    ensures j == k
  {
  }

  ghost function LeastFree(base: string, taken: set<string>): (k: nat)
    ensures IsLeastFree(base, taken, k) && k <= |taken| + 1
  {
    LeastFreeExists(base, taken, 1);
    var k: nat :| IsLeastFree(base, taken, k) && k <= |taken| + 1;
    k
  }

  /** The name itself while it is free, else with the least number that makes it so. */
  ghost function FreshName(base: string, taken: set<string>): (name: string)
    ensures name !in taken
  {
    if base !in taken then base else Candidate(base, LeastFree(base, taken))
  }

  /** The suffix loop: it probes at most one name more than there are names. */
  method FindFreshName(base: string, taken: set<string>) returns (name: string, probes: nat)
    ensures name == FreshName(base, taken) && name !in taken
    ensures probes <= |taken| + 1
    ensures base in taken ==> IsLeastFree(base, taken, probes) && name == Candidate(base, probes)
  {
    name, probes := base, 0;
    if base in taken {
      var idx := 1;
      while true
        invariant 1 <= idx <= LeastFree(base, taken) && forall j :: 1 <= j < idx ==> Candidate(base, j) in taken
        decreases LeastFree(base, taken) - idx
      {
        var newName := Candidate(base, idx);
        if newName !in taken {
          LeastFreeIsUnique(base, taken, idx, LeastFree(base, taken));
          return newName, idx;
        }
        idx := idx + 1;
      }
    }
  }

  // ---- What the names are like ------------------------------------------------------------------------------

  predicate AllKept(s: string) {
    forall i :: 0 <= i < |s| ==> IsKept(s[i])
  }

  lemma {:induction false} NothingToSanitise(s: string)
    requires AllKept(s)
    ensures Sanitise(s) == s
  {
    if s != [] {
      NothingToSanitise(s[1..]);
      assert s == [s[0]] + s[1..];
    }
  }

  /** A suffix adds no character that would have been dropped. */
  lemma CandidateIsKept(base: string, idx: nat)
    ensures AllKept(Candidate(base, idx)) <==> AllKept(base)
    ensures var s := Candidate(base, idx); s[|s| - 1] == ']' && forall c :: c in s ==> c in base || c <= ']'
  {
    var s := Candidate(base, idx);
    forall i | 0 <= i < |s|
      ensures IsKept(s[i]) <==> i < |base| ==> IsKept(base[i])
      ensures s[i] in base || s[i] <= ']'
    {
      if |base| < i < |s| - 1 {
        assert s[i] == Decimal.Text(idx)[i - |base| - 1];
      }
    }
    if AllKept(s) {
      assert forall i :: 0 <= i < |base| ==> s[i] == base[i];
    }
  }

  /** A name made up in this way can stand in a line exactly when nothing in it is beyond the second plane. */
  lemma FreshNamesFitTheGrammarExactly(base: string, taken: set<string>)
    requires AllKept(base)
    ensures AllKept(FreshName(base, taken))
    ensures All(IsWord, FreshName(base, taken)) <==> forall i :: 0 <= i < |base| ==> base[i] <= '\U{1FFFF}'
    ensures FreshName(base, taken) == [] <==> base == [] && base !in taken
  {
    hide Candidate;
    KeptFitsExactly(base);
    if base in taken {
      var k := LeastFree(base, taken);
      CandidateIsKept(base, k);
      KeptFitsExactly(Candidate(base, k));
      CandidateExtends(base, k);
      var s := Candidate(base, k);
      forall i | 0 <= i < |base|
        ensures s[i] == base[i]
      {
      }
      assert forall i :: 0 <= i < |s| ==> s[i] in s;
    }
  }

  /** The name, or the name and a number in brackets. */
  lemma FreshNameIs(base: string, taken: set<string>)
    ensures base !in taken ==> FreshName(base, taken) == base
    ensures base in taken ==>
      exists k: nat ::
        k > 0 && FreshName(base, taken) == base + "[" + Decimal.Text(k) + "]" && FreshName(base, taken) !in taken
  {
    if base in taken {
      var k := LeastFree(base, taken);
      assert k > 0 && FreshName(base, taken) == base + "[" + Decimal.Text(k) + "]";
    }
  }

  lemma CandidateExtends(base: string, idx: nat)
    ensures base <= Candidate(base, idx) && |base| < |Candidate(base, idx)|
  {
  }

  lemma KeptFitsExactly(s: string)
    requires AllKept(s)
    ensures All(IsWord, s) <==> forall i :: 0 <= i < |s| ==> s[i] <= '\U{1FFFF}'
  {
    forall i | 0 <= i < |s|
      ensures IsWord(s[i]) <==> s[i] <= '\U{1FFFF}'
    {
      assert IsKept(s[i]);
    }
  }
}
