/**
 * The TokenizationAnalyzer object: the loaded tokenizer results and the iteration-cycle setting,
 * and the loops of analyze_methodology and generate_summary, each proved to compute the value
 * the Methodology and Report modules specify.
 */
module Analyzer {
  import opened Wrappers
  import opened Stats
  import opened Methodology
  import opened Report

  /** Implementation family per tokenizer name (get_tokenizer_type's table). */
  const TokenizerTypes: map<string, string> := map[
    "gpt4" := "tiktoken",
    "gpt35" := "tiktoken",
    "gpt2" := "transformers",
    "llama3" := "transformers",
    "mistral" := "transformers",
    "bert" := "transformers",
    "roberta" := "transformers",
    "t5" := "transformers",
    "spiece" := "sentencepiece"]

  class TokenizationAnalyzer {
    var resultsDir: string
    /** tokenizer name -> result document, in the order the result files were loaded. */
    var tokenizerResults: seq<Entry>
    var iterationCycles: int

    /** tokenizer_results is a dictionary: each tokenizer name occurs once. */
    ghost predicate Valid()
      reads this
    {
      DistinctNames(tokenizerResults)
    }

    /** __init__ followed by load_results, with the loaded documents given as `loaded`. */
    constructor (resultsDir: string, loaded: seq<Entry>, iterationCycles: int := 1)
      requires DistinctNames(loaded)
      ensures Valid()
      ensures this.resultsDir == resultsDir
      ensures tokenizerResults == loaded
      ensures this.iterationCycles == iterationCycles
    {
      this.resultsDir := resultsDir;
      this.tokenizerResults := loaded;
      this.iterationCycles := iterationCycles;
    }

    /** analyze_methodology: bucket the records by marker count with a loop, then average. */
    method AnalyzeMethodology(results: ResultDocument, methodology: string) returns (stats: MethodologyStats)
      ensures stats == Analyze(results, methodology)
    {
      if methodology !in results {
        return NoStats;
      }
      var recs := results[methodology];
      var tokens := TokenCounts(recs);
      var avgTokens := if |tokens| > 0 then Mean(AsReals(tokens)) else 0.0;
      var tokenRange := if |tokens| > 0 then (Min(tokens), Max(tokens)) else (0, 0);

      var componentSizes := GroupByMarkers(recs);
      ByComplexityOfGrouped(recs);
      var complexityStats := map k | k in componentSizes :: Mean(AsReals(componentSizes[k]));
      stats := MethodologyStats(avgTokens, tokenRange, complexityStats);
    }

    /** The loop of analyze_methodology that fills the `component_sizes` defaultdict. */
    method GroupByMarkers(recs: seq<TokenRecord>) returns (componentSizes: map<nat, seq<int>>)
      ensures componentSizes == Grouped(recs)
    {
      componentSizes := map[];
      var i := 0;
      while i < |recs|
        invariant 0 <= i <= |recs|
        invariant componentSizes == Grouped(recs[..i])
      {
        var markers := Markers(recs[i].input);
        componentSizes := componentSizes[markers := Lookup(componentSizes, markers) + [recs[i].numTokens]];
        GroupedSnoc(recs[..i], recs[i]);
        assert recs[..i + 1] == recs[..i] + [recs[i]];
        i := i + 1;
      }
      assert recs[..i] == recs;
    }

    /** The loop of generate_summary that builds `comparison_rows`. */
    method ComparisonRows() returns (rows: seq<ComparisonRow>)
      requires Valid()
      ensures rows == Rows(tokenizerResults)
      ensures forall a, b :: 0 <= a < b < |rows| ==> rows[a].tokenizer != rows[b].tokenizer
    {
      var ts := tokenizerResults;
      rows := [];
      var i := 0;
      while i < |ts|
        invariant 0 <= i <= |ts|
        invariant rows == Rows(ts[..i])
      {
        var tokenizerName, data := ts[i].name, ts[i].doc;
        var blocktailData := Get(data, Blocktail);
        var tradData := Get(data, Traditional);
        var bemData := Get(data, BEM);
        assert ts[..i + 1][..i] == ts[..i];
        if |blocktailData| > 0 && |tradData| > 0 {
          var blocktailAvg := AvgTokens(blocktailData);
          var tradAvg := AvgTokens(tradData);
          var bemAvg: Option<real> := if |bemData| > 0 then Some(AvgTokens(bemData)) else None;
          var vsTrad := if tradAvg > 0.0 then (tradAvg - blocktailAvg) / tradAvg * 100.0 else 0.0;
          var vsBem: Option<real> :=
            if Truthy(bemAvg) then Some((bemAvg.value - blocktailAvg) / bemAvg.value * 100.0) else None;
          var row := ComparisonRow(tokenizerName, blocktailAvg, tradAvg,
            if Truthy(bemAvg) then bemAvg else None,
            vsTrad,
            if Truthy(vsBem) then vsBem else None);
          rows := rows + [row];
        }
        i := i + 1;
      }
      assert ts[..i] == ts;
      RowsDistinctTokenizers(ts);
    }

    /** One pass of the `all_savings` loop: the deltas one tokenizer contributes. */
    method TokenizerSavingsStep(data: ResultDocument) returns (savings: seq<real>)
      ensures savings == TokenizerSavings(data)
    {
      var blocktailInfo := AnalyzeMethodology(data, Blocktail);
      var tradInfo := AnalyzeMethodology(data, Traditional);
      var bemInfo: Option<MethodologyStats> := None;
      if BEM in data {
        var b := AnalyzeMethodology(data, BEM);
        bemInfo := Some(b);
      }
      savings := SavingsFrom(blocktailInfo, tradInfo, bemInfo);
    }

    /** The two `all_savings.append` guards of one pass: a delta per baseline whose average is positive. */
    method SavingsFrom(blocktailInfo: MethodologyStats, tradInfo: MethodologyStats, bemInfo: Option<MethodologyStats>)
      returns (savings: seq<real>)
      ensures savings == SavingsOf(blocktailInfo, tradInfo, bemInfo)
    {
      savings := [];
      if tradInfo.avgTokens > 0.0 {
        savings := savings + [tradInfo.avgTokens - blocktailInfo.avgTokens];
      }
      if bemInfo.Some? && bemInfo.value.avgTokens > 0.0 {
        savings := savings + [bemInfo.value.avgTokens - blocktailInfo.avgTokens];
      }
    }

    /** The loop of generate_summary that builds `all_savings`. */
    method Savings() returns (allSavings: seq<real>)
      ensures allSavings == AllSavings(tokenizerResults)
    {
      var ts := tokenizerResults;
      allSavings := [];
      var i := 0;
      while i < |ts|
        invariant 0 <= i <= |ts|
        invariant allSavings == AllSavings(ts[..i])
      {
        var contributed := TokenizerSavingsStep(ts[i].doc);
        allSavings := allSavings + contributed;
        AllSavingsSnoc(ts[..i], ts[i]);
        assert ts[..i + 1] == ts[..i] + [ts[i]];
        i := i + 1;
      }
      assert ts[..i] == ts;
    }

    /** The practical-impact figures of generate_summary. */
    method PracticalImpact() returns (impact: Impact)
      ensures impact == ImpactOf(AllSavings(tokenizerResults), iterationCycles)
    {
      var allSavings := Savings();
      if allSavings != [] {
        var avgSavings := Mean(allSavings);
        var perPage := avgSavings * ComponentsPerPage;
        var overIterations: Option<real> := None;
        if iterationCycles > 1 {
          overIterations := Some(avgSavings * ComponentsPerPage * iterationCycles as real);
          assert ImpactOf(allSavings, iterationCycles).overIterations.value == avgSavings * ComponentsPerPage * iterationCycles as real;
        }
        impact := Impact(avgSavings, perPage, overIterations);
      } else {
        impact := NotEnoughData;
      }
    }

    /** One pass of the `marker_complex` loop: append each bucket mean of one tokenizer under its key. */
    method AppendBuckets(markerComplex: map<nat, seq<real>>, byComplexity: map<nat, real>)
      returns (updated: map<nat, seq<real>>)
      ensures updated == AddBuckets(markerComplex, byComplexity, byComplexity.Keys)
    {
      updated := markerComplex;
      var pending := byComplexity.Keys;
      ghost var done: set<nat> := {};
      AppendStart(markerComplex, byComplexity);
      while pending != {}
        invariant AppendProgress(markerComplex, byComplexity, done, pending, updated)
        decreases |pending|
      {
        var k :| k in pending;
        AppendStep(markerComplex, byComplexity, done, pending, updated, k);
        updated := updated[k := Lookup(updated, k) + [byComplexity[k]]];
        pending := pending - {k};
        done := done + {k};
      }
      AppendDone(markerComplex, byComplexity, done, updated);
    }

    /** `for k in sorted(marker_complex.keys())`: one line per key, smallest key first, with the mean of its values. */
    method SortedLines(markerComplex: map<nat, seq<real>>) returns (lines: seq<ComplexityLine>)
      requires forall k :: k in markerComplex ==> |markerComplex[k]| > 0
      ensures forall a, b :: 0 <= a < b < |lines| ==> lines[a].markers < lines[b].markers
      ensures forall k :: k in markerComplex <==> exists a :: 0 <= a < |lines| && lines[a].markers == k
      ensures forall a :: 0 <= a < |lines| ==>
        lines[a].markers in markerComplex && lines[a].meanTokens == Mean(markerComplex[lines[a].markers])
    {
      var keys := Sorted(markerComplex.Keys);
      lines := [];
      var i := 0;
      while i < |keys|
        invariant 0 <= i <= |keys|
        invariant |lines| == i
        invariant forall a :: 0 <= a < i ==> lines[a] == ComplexityLine(keys[a], Mean(markerComplex[keys[a]]))
      {
        var values := markerComplex[keys[i]];
        lines := lines + [ComplexityLine(keys[i], Mean(values))];
        i := i + 1;
      }
      forall k | k in markerComplex
        ensures exists a :: 0 <= a < |lines| && lines[a].markers == k
      {
        var a :| 0 <= a < |keys| && keys[a] == k;
        assert lines[a].markers == k;
      }
    }

    /** The `marker_complex` loop of generate_summary: every Blocktail bucket mean of every tokenizer, under its key. */
    method CollectMarkerComplex() returns (markerComplex: map<nat, seq<real>>)
      ensures markerComplex == MarkerComplex(BlocktailBucketMaps(tokenizerResults))
    {
      var ts := tokenizerResults;
      ghost var bs: seq<map<nat, real>> := [];
      markerComplex := map[];
      var i := 0;
      while i < |ts|
        invariant 0 <= i <= |ts|
        invariant bs == BlocktailBucketMaps(ts[..i])
        invariant markerComplex == MarkerComplex(bs)
      {
        var blocktailInfo := AnalyzeMethodology(ts[i].doc, Blocktail);
        markerComplex := AppendBuckets(markerComplex, blocktailInfo.byComplexity);
        MarkerComplexSnoc(bs, blocktailInfo.byComplexity);
        bs := bs + [blocktailInfo.byComplexity];
        assert ts[..i + 1][..i] == ts[..i];
        i := i + 1;
      }
      assert ts[..i] == ts;
    }

    /** The marker-complexity section of generate_summary: fill `marker_complex`, then list its keys in ascending order. */
    method ComplexityBreakdown() returns (lines: seq<ComplexityLine>)
      ensures IsComplexityBreakdown(BlocktailBucketMaps(tokenizerResults), lines)
    {
      var markerComplex := CollectMarkerComplex();
      ghost var bs := BlocktailBucketMaps(tokenizerResults);
      MarkerComplexNonEmpty(bs);
      lines := SortedLines(markerComplex);
      BreakdownOfLines(bs, lines);
    }

    /** generate_summary, as the values of its three sections (the markdown text is not modelled). */
    method GenerateSummary() returns (summary: Summary)
      requires Valid()
      ensures summary.rows == Rows(tokenizerResults)
      ensures forall a, b :: 0 <= a < b < |summary.rows| ==> summary.rows[a].tokenizer != summary.rows[b].tokenizer
      ensures summary.impact == ImpactOf(AllSavings(tokenizerResults), iterationCycles)
      ensures IsComplexityBreakdown(BlocktailBucketMaps(tokenizerResults), summary.complexity)
    {
      var rows := ComparisonRows();
      var impact := PracticalImpact();
      var complexity := ComplexityBreakdown();
      summary := Summary(rows, impact, complexity);
    }

    /** get_tokenizer_type: the implementation family of a tokenizer, "unknown" for a name not in the table. */
    function GetTokenizerType(tokenizerName: string): (t: string)
      ensures tokenizerName in TokenizerTypes ==> t == TokenizerTypes[tokenizerName]
      ensures tokenizerName !in TokenizerTypes ==> t == "unknown"
    {
      if tokenizerName in TokenizerTypes then TokenizerTypes[tokenizerName] else "unknown"
    }
  }

  /** Python's sorted() of a set of marker counts: every element once, in strictly ascending order. */
  method Sorted(s: set<nat>) returns (keys: seq<nat>)
    ensures forall a, b :: 0 <= a < b < |keys| ==> keys[a] < keys[b]
    ensures forall k :: k in s <==> k in keys
  {
    keys := [];
    var remaining := s;
    while remaining != {}
      invariant SortProgress(s, keys, remaining)
      decreases |remaining|
    {
      var k := Smallest(remaining);
      SortStep(s, keys, remaining, k);
      keys := keys + [k];
      remaining := remaining - {k};
    }
    SortDone(s, keys);
  }

  /** The smallest element of a non-empty set of marker counts. */
  method Smallest(s: set<nat>) returns (k: nat)
    requires s != {}
    ensures k in s && forall y :: y in s ==> k <= y
  {
    var some :| some in s;
    SmallestExists(s, some);
    k :| k in s && forall y :: y in s ==> k <= y;
  }

  /** Once nothing remains, the keys are all of `s` in ascending order. */
  lemma SortDone(s: set<nat>, keys: seq<nat>)
    requires SortProgress(s, keys, {})
    ensures forall a, b :: 0 <= a < b < |keys| ==> keys[a] < keys[b]
    ensures forall k :: k in s <==> k in keys
  {
  }

  /** Selection-sort progress: `keys` is ascending, below everything still `remaining`, and the two partition `s`. */
  ghost predicate SortProgress(s: set<nat>, keys: seq<nat>, remaining: set<nat>)
  {
    && remaining <= s
    && (forall a, b :: 0 <= a < b < |keys| ==> keys[a] < keys[b])
    && (forall a, k :: 0 <= a < |keys| && k in remaining ==> keys[a] < k)
    && (forall k :: k in keys ==> k in s && k !in remaining)
    && (forall k :: k in s ==> k in remaining || k in keys)
  }

  /** Moving the smallest remaining element to the end of `keys` keeps the sort's progress. */
  lemma SortStep(s: set<nat>, keys: seq<nat>, remaining: set<nat>, k: nat)
    requires SortProgress(s, keys, remaining)
    requires k in remaining && forall y :: y in remaining ==> k <= y
    ensures SortProgress(s, keys + [k], remaining - {k})
  {
    var keys', remaining' := keys + [k], remaining - {k};
    forall a, b | 0 <= a < b < |keys'|
      ensures keys'[a] < keys'[b]
    {
      if b == |keys| {
        assert keys'[b] == k;
      }
    }
    forall a, y | 0 <= a < |keys'| && y in remaining'
      ensures keys'[a] < y
    {
      if a == |keys| {
        assert y != k;
      }
    }
    forall y | y in keys'
      ensures y in s && y !in remaining'
    {
      if y != k {
        assert y in keys;
      }
    }
  }

  /** A set of marker counts holding `x` has a smallest element. */
  lemma {:induction false} SmallestExists(s: set<nat>, x: nat)
    requires x in s
    ensures exists m :: m in s && forall y :: y in s ==> m <= y
    decreases x
  {
    if exists y :: y in s && y < x {
      var y :| y in s && y < x;
      SmallestExists(s, y);
    } else {
      assert forall y :: y in s ==> x <= y;
    }
  }

  /**
   * Each tokenizer family is the type of exactly its tokenizers: tiktoken for gpt4 and gpt35,
   * sentencepiece for spiece, transformers for the other six, and "unknown" for every other name.
   */
  lemma TokenizerFamilies(a: TokenizationAnalyzer, name: string)
    ensures a.GetTokenizerType(name) == "tiktoken" <==> name == "gpt4" || name == "gpt35"
    ensures a.GetTokenizerType(name) == "sentencepiece" <==> name == "spiece"
    ensures a.GetTokenizerType(name) == "transformers"
      <==> name in {"gpt2", "llama3", "mistral", "bert", "roberta", "t5"}
    ensures a.GetTokenizerType(name) == "unknown" <==> name !in TokenizerTypes
  {
  }
}
