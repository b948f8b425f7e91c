/**
 * The README update performed after the summary is written: the summary is
 * placed after the `<!-- RESULTS -->` marker, replacing whatever stood between
 * it and `<!-- END_RESULTS -->`; a README without the marker gets the marked
 * block appended.
 */
module ReadmeSplice {
  import opened Wrappers
  import opened PyStrings

  const ResultsMarker: string := "<!-- RESULTS -->"
  const EndMarker: string := "<!-- END_RESULTS -->"

  /** The README text written back for `readme` and a freshly generated `summary`. */
  function Splice(readme: string, summary: string): string
  {
    if Contains(readme, ResultsMarker) then
      var parts := Split1(readme, ResultsMarker);
      var head := parts[0] + ResultsMarker + "\n" + summary;
      if |parts| > 1 && Contains(parts[1], EndMarker) then
        head + "\n" + EndMarker + Split1(parts[1], EndMarker)[1]
      else
        head
    else
      readme + "\n" + ResultsMarker + "\n" + summary + "\n" + EndMarker
  }

  /** The first character of `pat` does not occur again in `pat`, so occurrences of `pat` cannot overlap one another. */
  predicate FirstCharUnique(pat: string)
  {
    |pat| > 0 && forall i :: 1 <= i < |pat| ==> pat[i] != pat[0]
  }

  /** `pat` holds no line break. */
  predicate NoNewline(pat: string)
  {
    forall i :: 0 <= i < |pat| ==> pat[i] != '\n'
  }

  /** Both markers are single-line and start with a character they do not repeat. */
  lemma MarkersWellFormed()
    ensures FirstCharUnique(ResultsMarker) && NoNewline(ResultsMarker)
    ensures FirstCharUnique(EndMarker) && NoNewline(EndMarker)
  {
  }

  /** `pat in s` is false exactly when `pat` occurs at no index of `s`. */
  lemma AbsentEverywhere(s: string, pat: string)
    ensures !Contains(s, pat) <==> forall j :: !OccursAt(s, pat, j)
  {
  }

  /** When `a` does not contain `pat`, `a + pat + x` has no occurrence of `pat` starting inside `a`. */
  lemma NoOccurrenceBefore(a: string, pat: string, x: string)
    requires FirstCharUnique(pat) && !Contains(a, pat)
    ensures forall j :: 0 <= j < |a| ==> !OccursAt(a + pat + x, pat, j)
  {
    var s := a + pat + x;
    AbsentEverywhere(a, pat);
    forall j | 0 <= j < |a|
      ensures !OccursAt(s, pat, j)
    {
      if j + |pat| <= |a| {
        assert a[j..j + |pat|] == s[j..j + |pat|];
        assert !OccursAt(a, pat, j);
      } else if j + |pat| <= |s| {
        var m := |a| - j;
        assert s[j..j + |pat|][m] == s[|a|] == pat[0] != pat[m];
        assert s[j..j + |pat|] != pat;
      }
    }
  }

  /** Splitting `a + pat + x` once at `pat` gives back `a` and `x` when `a` does not contain `pat`. */
  lemma Split1AtFirst(a: string, pat: string, x: string)
    requires FirstCharUnique(pat) && !Contains(a, pat)
    ensures Contains(a + pat + x, pat)
    ensures Split1(a + pat + x, pat) == [a, x]
  {
    var s := a + pat + x;
    assert s[|a|..|a| + |pat|] == pat;
    assert OccursAt(s, pat, |a|);
    AbsentEverywhere(s, pat);
    var parts := Split1(s, pat);
    NoOccurrenceBefore(a, pat, x);
    assert s[|parts[0]|..|parts[0]| + |pat|] == pat;
    assert OccursAt(s, pat, |parts[0]|);
    assert |parts[0]| == |a|;
    assert parts[0] == s[..|a|] == a;
    assert parts[1] == s[|a| + |pat|..] == x;
  }

  /** A single-line pattern missing from `s` stays missing when a line break is added at either end. */
  lemma NewlineKeepsAbsent(s: string, pat: string)
    requires |pat| > 0 && NoNewline(pat) && !Contains(s, pat)
    ensures !Contains(s + "\n", pat) && !Contains("\n" + s, pat)
  {
    AbsentEverywhere(s, pat);
    var t, u := s + "\n", "\n" + s;
    forall j
      ensures !OccursAt(t, pat, j)
    {
      if 0 <= j && j + |pat| <= |s| {
        assert s[j..j + |pat|] == t[j..j + |pat|];
        assert !OccursAt(s, pat, j);
      } else if 0 <= j && j + |pat| <= |t| {
        assert t[j..j + |pat|][|s| - j] == t[|s|] == '\n' != pat[|s| - j];
        assert t[j..j + |pat|] != pat;
      }
    }
    forall j
      ensures !OccursAt(u, pat, j)
    {
      if 1 <= j && j + |pat| <= |u| {
        var v, w := s[j - 1..j - 1 + |pat|], u[j..j + |pat|];
        assert forall m :: 0 <= m < |pat| ==> v[m] == s[j - 1 + m] == u[j + m] == w[m];
        assert v == w;
        assert !OccursAt(s, pat, j - 1);
      } else if j == 0 && |pat| <= |u| {
        assert u[0..|pat|][0] == u[0] == '\n' != pat[0];
        assert u[0..|pat|] != pat;
      }
    }
    AbsentEverywhere(t, pat);
    AbsentEverywhere(u, pat);
  }

  /** A README `a + RESULTS + b + END + c` (markers first found there) has the text between the markers replaced by the summary. */
  lemma SpliceBetweenMarkers(readme: string, a: string, b: string, c: string, summary: string)
    requires readme == a + ResultsMarker + b + EndMarker + c
    requires !Contains(a, ResultsMarker) && !Contains(b, EndMarker)
    ensures Splice(readme, summary) == a + ResultsMarker + "\n" + summary + "\n" + EndMarker + c
  {
    MarkersWellFormed();
    assert readme == a + ResultsMarker + (b + EndMarker + c);
    Split1AtFirst(a, ResultsMarker, b + EndMarker + c);
    Split1AtFirst(b, EndMarker, c);
  }

  /** A README with the results marker but no end marker after it keeps its head and ends with the summary. */
  lemma SpliceWithoutEnd(readme: string, a: string, b: string, summary: string)
    requires readme == a + ResultsMarker + b
    requires !Contains(a, ResultsMarker) && !Contains(b, EndMarker)
    ensures Splice(readme, summary) == a + ResultsMarker + "\n" + summary
  {
    MarkersWellFormed();
    Split1AtFirst(a, ResultsMarker, b);
  }

  /** A README without the results marker gets the marked summary block appended after a line break. */
  lemma SpliceWithoutMarkers(readme: string, summary: string)
    requires !Contains(readme, ResultsMarker)
    ensures Splice(readme, summary)
         == readme + "\n" + ResultsMarker + "\n" + summary + "\n" + EndMarker
  {
  }

  /** What a splice keeps before the results marker: the text before it, or the whole README and a line break when it is new. */
  function Head(readme: string): string
  {
    if Contains(readme, ResultsMarker) then Split1(readme, ResultsMarker)[0] else readme + "\n"
  }

  /** What a splice keeps after the end marker, when it writes one. */
  function KeptAfterEnd(readme: string): Option<string>
  {
    if Contains(readme, ResultsMarker) then
      var after := Split1(readme, ResultsMarker)[1];
      if Contains(after, EndMarker) then Some(Split1(after, EndMarker)[1]) else None
    else
      Some("")
  }

  /** What is written after the summary for the kept text after the end marker. */
  function TailText(kept: Option<string>): string
  {
    match kept
    case None => ""
    case Some(rest) => "\n" + EndMarker + rest
  }

  /** Everything a splice writes after the summary. */
  function Tail(readme: string): string
  {
    TailText(KeptAfterEnd(readme))
  }

  /** Every splice is the kept head, the results marker, a line break, the summary and the kept tail. */
  lemma SpliceShape(readme: string, summary: string)
    ensures Splice(readme, summary) == Head(readme) + ResultsMarker + "\n" + summary + Tail(readme)
  {
  }

  /** The kept head never contains the results marker. */
  lemma HeadClean(readme: string)
    ensures !Contains(Head(readme), ResultsMarker)
  {
    if !Contains(readme, ResultsMarker) {
      MarkersWellFormed();
      NewlineKeepsAbsent(readme, ResultsMarker);
    }
  }

  /** A text that is a clean head, the results marker and the rest keeps that head. */
  lemma HeadOf(text: string, head: string, rest: string)
    requires text == head + ResultsMarker + rest && !Contains(head, ResultsMarker)
    ensures Head(text) == head
  {
    MarkersWellFormed();
    Split1AtFirst(head, ResultsMarker, rest);
  }

  /** In a text that is a clean head, the results marker and the rest, the split at the marker gives that rest. */
  lemma AfterOf(text: string, head: string, rest: string)
    requires text == head + ResultsMarker + rest && !Contains(head, ResultsMarker)
    ensures Contains(text, ResultsMarker) && Split1(text, ResultsMarker)[1] == rest
  {
    MarkersWellFormed();
    Split1AtFirst(head, ResultsMarker, rest);
  }

  /** Regrouping a concatenation of four texts. */
  lemma Regroup(a: string, b: string, c: string, d: string)
    ensures a + b + c + d == a + ((b + c) + d)
    ensures a + (b + c + d) == (a + b) + c + d
  {
  }

  /** A splice keeps the same head when it is done again. */
  lemma HeadKept(readme: string, earlier: string)
    ensures Head(Splice(readme, earlier)) == Head(readme)
  {
    HeadClean(readme);
    SpliceShape(readme, earlier);
    var rest := "\n" + earlier + Tail(readme);
    Regroup(Head(readme) + ResultsMarker, "\n", earlier, Tail(readme));
    HeadOf(Splice(readme, earlier), Head(readme), rest);
  }

  /** A text made of a part without the end marker and the written tail gives that tail's kept text back. */
  lemma KeptOf(after: string, between: string, rest: Option<string>)
    requires after == between + TailText(rest) && !Contains(between, EndMarker)
    ensures Contains(after, EndMarker) <==> rest.Some?
    ensures rest.Some? ==> Split1(after, EndMarker)[1] == rest.value
  {
    if rest.Some? {
      MarkersWellFormed();
      Regroup(between, "\n", EndMarker, rest.value);
      NewlineKeepsAbsent(between, EndMarker);
      Split1AtFirst(between + "\n", EndMarker, rest.value);
    } else {
      assert after == between;
    }
  }

  /** A splice keeps the same tail when it is done again, provided the summary holds no end marker. */
  lemma TailKept(readme: string, earlier: string)
    requires !Contains(earlier, EndMarker)
    ensures Tail(Splice(readme, earlier)) == Tail(readme)
  {
    HeadClean(readme);
    SpliceShape(readme, earlier);
    var spliced := Splice(readme, earlier);
    var between := "\n" + earlier;
    var rest := between + Tail(readme);
    Regroup(Head(readme) + ResultsMarker, "\n", earlier, Tail(readme));
    AfterOf(spliced, Head(readme), rest);
    MarkersWellFormed();
    NewlineKeepsAbsent(earlier, EndMarker);
    KeptOf(rest, between, KeptAfterEnd(readme));
  }

  /**
   * Regenerating is stable: splicing a summary into a README that was already
   * spliced with an earlier summary (one without the end marker) gives the same
   * text as splicing the new summary into the original README.
   */
  lemma SpliceRegenerate(readme: string, earlier: string, summary: string)
    requires !Contains(earlier, EndMarker)
    ensures Splice(Splice(readme, earlier), summary) == Splice(readme, summary)
  {
    var spliced := Splice(readme, earlier);
    HeadKept(readme, earlier);
    TailKept(readme, earlier);
    SpliceShape(spliced, summary);
    SpliceShape(readme, summary);
  }

  /** Splicing the same summary twice gives what splicing it once gives. */
  lemma SpliceIdempotent(readme: string, summary: string)
    requires !Contains(summary, EndMarker)
    ensures Splice(Splice(readme, summary), summary) == Splice(readme, summary)
  {
    SpliceRegenerate(readme, summary, summary);
  }
}
