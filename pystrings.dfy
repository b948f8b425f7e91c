/**
 * The Python string operations the analyzer relies on, with Python's semantics:
 * `pat in s`, `s.count(pat)` (non-overlapping, scanning left to right) and
 * `s.split(sep, 1)` (split at the leftmost occurrence).
 */
module PyStrings {
  import opened Wrappers

  /** `pat` occurs in `s` starting at index `i`. */
  predicate OccursAt(s: string, pat: string, i: int)
  {
    0 <= i && i + |pat| <= |s| && s[i..i + |pat|] == pat
  }

  /** An occurrence at index j >= 1 of s is an occurrence at j - 1 of s[1..]. */
  lemma OccursShift(s: string, pat: string)
    requires |s| > 0
    ensures forall j :: 1 <= j ==> (OccursAt(s, pat, j) <==> OccursAt(s[1..], pat, j - 1))
  {
    forall j | 1 <= j
      ensures OccursAt(s, pat, j) <==> OccursAt(s[1..], pat, j - 1)
    {
      if j + |pat| <= |s| {
        var t, n := s[1..], |pat|;
        var a, b := s[j..j + n], t[j - 1..j - 1 + n];
        assert forall m :: 0 <= m < n ==> a[m] == s[j + m] == t[j - 1 + m] == b[m];
        assert a == b;
      }
    }
  }

  /** The index of the leftmost occurrence of `pat` in `s`, if any. */
  function FirstOccurrence(s: string, pat: string): (r: Option<nat>)
    ensures r.Some? ==> OccursAt(s, pat, r.value)
    ensures r.Some? ==> forall j :: 0 <= j < r.value ==> !OccursAt(s, pat, j)
    ensures r.None? ==> forall j :: !OccursAt(s, pat, j)
    decreases |s|
  {
    if |s| < |pat| then None
    else if s[..|pat|] == pat then Some(0)
    else
      OccursShift(s, pat);
      match FirstOccurrence(s[1..], pat)
      case None => None
      case Some(i) => Some(i + 1)
  }

  /** Python's `pat in s`. */
  predicate Contains(s: string, pat: string)
  {
    FirstOccurrence(s, pat).Some?
  }

  /** Python's `s.count(pat)`: non-overlapping occurrences, taken greedily from the left. */
  function Count(s: string, pat: string): nat
    decreases |s|
  {
    if |pat| == 0 then |s| + 1
    else if |s| < |pat| then 0
    else if s[..|pat|] == pat then 1 + Count(s[|pat|..], pat)
    else Count(s[1..], pat)
  }

  /** Occurrences counted by `count` do not overlap: together they fit in the string. */
  lemma {:induction false} CountBound(s: string, pat: string)
    requires |pat| > 0
    ensures Count(s, pat) * |pat| <= |s|
    decreases |s|
  {
    if |s| >= |pat| {
      if s[..|pat|] == pat {
        var rest := s[|pat|..];
        CountBound(rest, pat);
        MulSucc(Count(rest, pat), |pat|);
      } else {
        CountBound(s[1..], pat);
      }
    }
  }

  /** One more occurrence takes one more pattern length. */
  lemma MulSucc(c: nat, n: nat)
    ensures (1 + c) * n == n + c * n
  {
  }

  /** `s.count(pat)` is zero exactly when `pat in s` is false. */
  lemma {:induction false} CountZeroIff(s: string, pat: string)
    requires |pat| > 0
    ensures Count(s, pat) == 0 <==> !Contains(s, pat)
    decreases |s|
  {
    if |s| >= |pat| && s[..|pat|] != pat {
      CountZeroIff(s[1..], pat);
    }
  }

  /** Python's `s.split(sep, 1)`: one part when `sep` is absent, else the text before and after its leftmost occurrence. */
  function Split1(s: string, sep: string): (parts: seq<string>)
    requires |sep| > 0
    ensures !Contains(s, sep) ==> parts == [s]
    ensures Contains(s, sep) ==> |parts| == 2 && s == parts[0] + sep + parts[1]
    ensures Contains(s, sep) ==> forall j :: 0 <= j < |parts[0]| ==> !OccursAt(s, sep, j)
    ensures Contains(s, sep) ==> !Contains(parts[0], sep)
  {
    match FirstOccurrence(s, sep)
    case None => [s]
    case Some(i) =>
      var before, after := s[..i], s[i + |sep|..];
      assert s == before + sep + after;
      assert forall j :: OccursAt(before, sep, j) ==> OccursAt(s, sep, j) && j < i by {
        forall j | OccursAt(before, sep, j)
          ensures OccursAt(s, sep, j) && j < i
        {
          assert before[j..j + |sep|] == s[j..j + |sep|];
        }
      }
      [before, after]
  }
}
