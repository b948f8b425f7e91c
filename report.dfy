/**
 * What generate_summary decides, as values rather than text: which tokenizers get a comparison
 * row and what its cells hold, which deltas enter the savings list and what is projected from
 * them, and the per-marker-count breakdown of Blocktail averages.
 */
module Report {
  import opened Wrappers
  import opened Stats
  import opened Methodology

  const Blocktail: string := "Blocktail"
  const Traditional: string := "Traditional"
  const BEM: string := "BEM"

  /** Components assumed on a typical page for the page projection. */
  const ComponentsPerPage: real := 20.0

  /** One item of the tokenizer_results dictionary: tokenizer name and its result document. */
  datatype Entry = Entry(name: string, doc: ResultDocument)

  /** The names are dictionary keys: no tokenizer occurs twice. */
  predicate DistinctNames(ts: seq<Entry>)
  {
    forall i, j :: 0 <= i < j < |ts| ==> ts[i].name != ts[j].name
  }

  /** `data.get(convention, [])`. */
  function Get(doc: ResultDocument, convention: string): seq<TokenRecord>
  {
    if convention in doc then doc[convention] else []
  }

  /** Python truthiness of a float that may be None: neither None nor 0.0. */
  predicate Truthy(v: Option<real>)
  {
    v.Some? && v.value != 0.0
  }

  /**
   * A row of the cross-comparison table. `bemAvg` and `vsBem` are None where the report prints "N/A";
   * percentages are in percent.
   */
  datatype ComparisonRow = ComparisonRow(
    tokenizer: string,
    blocktailAvg: real,
    traditionalAvg: real,
    bemAvg: Option<real>,
    vsTrad: real,
    vsBem: Option<real>)

  /** A tokenizer gets a row exactly when both Blocktail and Traditional data are present and non-empty. */
  predicate HasComparison(doc: ResultDocument)
  {
    |Get(doc, Blocktail)| > 0 && |Get(doc, Traditional)| > 0
  }

  /** The row built for one tokenizer that has comparison data. */
  function RowOf(name: string, doc: ResultDocument): ComparisonRow
    requires HasComparison(doc)
  {
    var blocktailAvg := AvgTokens(Get(doc, Blocktail));
    var tradAvg := AvgTokens(Get(doc, Traditional));
    var bemData := Get(doc, BEM);
    var bemAvg: Option<real> := if |bemData| > 0 then Some(AvgTokens(bemData)) else None;
    var vsTrad := if tradAvg > 0.0 then (tradAvg - blocktailAvg) / tradAvg * 100.0 else 0.0;
    var vsBem: Option<real> :=
      if Truthy(bemAvg) then Some((bemAvg.value - blocktailAvg) / bemAvg.value * 100.0) else None;
    ComparisonRow(name, blocktailAvg, tradAvg,
      if Truthy(bemAvg) then bemAvg else None,
      vsTrad,
      if Truthy(vsBem) then vsBem else None)
  }

  /** The `comparison_rows` list: one row per tokenizer with comparison data, in dictionary order. */
  function Rows(ts: seq<Entry>): seq<ComparisonRow>
    decreases |ts|
  {
    if ts == [] then []
    else
      var last := ts[|ts| - 1];
      Rows(ts[..|ts| - 1]) + (if HasComparison(last.doc) then [RowOf(last.name, last.doc)] else [])
  }

  /** The positions of the tokenizers that have comparison data, in increasing order. */
  ghost function EligibleIndices(ts: seq<Entry>): (idx: seq<nat>)
    ensures forall a :: 0 <= a < |idx| ==> idx[a] < |ts| && HasComparison(ts[idx[a]].doc)
    ensures forall a, b :: 0 <= a < b < |idx| ==> idx[a] < idx[b]
    ensures forall i :: 0 <= i < |ts| && HasComparison(ts[i].doc) ==> i in idx
    decreases |ts|
  {
    if ts == [] then []
    else
      var init := ts[..|ts| - 1];
      var idx0 := EligibleIndices(init);
      assert forall a :: 0 <= a < |idx0| ==> ts[idx0[a]] == init[idx0[a]];
      idx0 + (if HasComparison(ts[|ts| - 1].doc) then [|ts| - 1] else [])
  }

  /**
   * The rows are exactly the rows of the tokenizers with comparison data, in their dictionary order:
   * row a belongs to the a-th such tokenizer.
   */
  lemma {:induction false} RowsInTokenizerOrder(ts: seq<Entry>)
    ensures |Rows(ts)| == |EligibleIndices(ts)|
    ensures forall a :: 0 <= a < |Rows(ts)| ==>
      Rows(ts)[a] == RowOf(ts[EligibleIndices(ts)[a]].name, ts[EligibleIndices(ts)[a]].doc)
    decreases |ts|
  {
    if ts != [] {
      var init, last := ts[..|ts| - 1], ts[|ts| - 1];
      RowsInTokenizerOrder(init);
      var rows0, idx0 := Rows(init), EligibleIndices(init);
      var rows, idx := Rows(ts), EligibleIndices(ts);
      assert forall a :: 0 <= a < |idx0| ==> ts[idx0[a]] == init[idx0[a]];
      if HasComparison(last.doc) {
        assert rows == rows0 + [RowOf(last.name, last.doc)];
        assert idx == idx0 + [|ts| - 1];
      } else {
        assert rows == rows0;
        assert idx == idx0;
      }
      forall a | 0 <= a < |rows|
        ensures rows[a] == RowOf(ts[idx[a]].name, ts[idx[a]].doc)
      {
        if a < |rows0| {
          assert rows[a] == rows0[a];
          assert idx[a] == idx0[a];
        }
      }
    }
  }

  /** Tokenizer names are dictionary keys, so no two rows name the same tokenizer. */
  lemma RowsDistinctTokenizers(ts: seq<Entry>)
    requires DistinctNames(ts)
    ensures forall a, b :: 0 <= a < b < |Rows(ts)| ==> Rows(ts)[a].tokenizer != Rows(ts)[b].tokenizer
  {
    RowsInTokenizerOrder(ts);
    var idx := EligibleIndices(ts);
    forall a, b | 0 <= a < b < |Rows(ts)|
      ensures Rows(ts)[a].tokenizer != Rows(ts)[b].tokenizer
    {
      assert Rows(ts)[a].tokenizer == ts[idx[a]].name;
      assert Rows(ts)[b].tokenizer == ts[idx[b]].name;
    }
  }

  /** A tokenizer has a row if and only if both Blocktail and Traditional are present and non-empty for it. */
  lemma RowExistsIff(ts: seq<Entry>, name: string)
    ensures (exists a :: 0 <= a < |Rows(ts)| && Rows(ts)[a].tokenizer == name)
        <==> (exists i :: 0 <= i < |ts| && ts[i].name == name && HasComparison(ts[i].doc))
  {
    RowsInTokenizerOrder(ts);
    var idx := EligibleIndices(ts);
    if exists a :: 0 <= a < |Rows(ts)| && Rows(ts)[a].tokenizer == name {
      var a :| 0 <= a < |Rows(ts)| && Rows(ts)[a].tokenizer == name;
      assert ts[idx[a]].name == name;
    }
    if exists i :: 0 <= i < |ts| && ts[i].name == name && HasComparison(ts[i].doc) {
      var i :| 0 <= i < |ts| && ts[i].name == name && HasComparison(ts[i].doc);
      var a :| 0 <= a < |idx| && idx[a] == i;
      assert Rows(ts)[a] == RowOf(ts[i].name, ts[i].doc);
      assert RowOf(ts[i].name, ts[i].doc).tokenizer == name;
    }
  }

  /** A percent reduction of a non-negative value `x` from a positive baseline. */
  lemma PercentReduction(baseline: real, x: real)
    requires baseline > 0.0 && x >= 0.0
    ensures var p := (baseline - x) / baseline * 100.0;
      && p <= 100.0
      && (p > 0.0 <==> x < baseline)
      && (p == 0.0 <==> x == baseline)
      && x == baseline * (1.0 - p / 100.0)
  {
    var q := (baseline - x) / baseline;
    ReductionRatio(baseline, x, q);
    assert (baseline - x) / baseline * 100.0 / 100.0 == q;
  }

  /** The ratio of the reduction to a positive baseline. */
  lemma ReductionRatio(baseline: real, x: real, q: real)
    requires baseline > 0.0 && x >= 0.0 && q == (baseline - x) / baseline
    ensures q <= 1.0
    ensures q > 0.0 <==> x < baseline
    ensures q == 0.0 <==> x == baseline
    ensures x == baseline * (1.0 - q)
  {
    assert q * baseline == baseline - x;
  }

  /**
   * The Blocktail and Traditional cells of a row: the averages of the two samples, and "vs Trad."
   * as the reduction relative to Traditional (the Blocktail average is the Traditional one scaled by
   * 1 - percent / 100), 0.0 when the Traditional average is 0.
   */
  lemma RowTraditionalCells(name: string, doc: ResultDocument)
    requires HasComparison(doc)
    ensures
      var r := RowOf(name, doc);
      && r.tokenizer == name
      && r.blocktailAvg == AvgTokens(doc[Blocktail])
      && r.traditionalAvg == AvgTokens(doc[Traditional])
      && (r.traditionalAvg > 0.0 ==> r.blocktailAvg == r.traditionalAvg * (1.0 - r.vsTrad / 100.0))
      && (r.traditionalAvg == 0.0 ==> r.vsTrad == 0.0)
      && r.vsTrad <= 100.0
      && (r.vsTrad > 0.0 <==> r.blocktailAvg < r.traditionalAvg)
  {
    AvgTokensPositiveIff(doc[Blocktail]);
    AvgTokensPositiveIff(doc[Traditional]);
    var trad := AvgTokens(doc[Traditional]);
    if trad > 0.0 {
      PercentReduction(trad, AvgTokens(doc[Blocktail]));
    }
  }

  /**
   * The BEM cells of a row: the BEM average is shown exactly when some BEM sample has a token, and
   * "vs BEM" exactly when it is shown and differs from the Blocktail average (a 0.0 reduction is
   * N/A); "vs BEM" is a reduction relative to BEM.
   */
  lemma RowBemCells(name: string, doc: ResultDocument)
    requires HasComparison(doc)
    ensures
      var r := RowOf(name, doc);
      && (r.bemAvg.Some? <==> BEM in doc && exists i :: 0 <= i < |doc[BEM]| && doc[BEM][i].numTokens > 0)
      && (r.bemAvg.Some? ==> r.bemAvg.value == AvgTokens(doc[BEM]))
      && (r.vsBem.Some? <==> r.bemAvg.Some? && r.bemAvg.value != r.blocktailAvg)
      && (r.vsBem.Some? ==> r.vsBem.value <= 100.0)
      && (r.vsBem.Some? ==> r.blocktailAvg == r.bemAvg.value * (1.0 - r.vsBem.value / 100.0))
  {
    AvgTokensPositiveIff(doc[Blocktail]);
    if BEM in doc && |doc[BEM]| > 0 {
      AvgTokensPositiveIff(doc[BEM]);
      var bem := AvgTokens(doc[BEM]);
      if bem > 0.0 {
        PercentReduction(bem, AvgTokens(doc[Blocktail]));
      }
    }
  }

  /** Example: Traditional 10, Blocktail 6 and no BEM give "vs Trad." 40% and N/A for BEM. */
  lemma RowExampleWithoutBEM()
    ensures
      var doc := map[Blocktail := [TokenRecord("b", 6)], Traditional := [TokenRecord("t", 10)]];
      var r := RowOf("gpt4", doc);
      r.vsTrad == 40.0 && r.bemAvg == None && r.vsBem == None
  {
    var doc := map[Blocktail := [TokenRecord("b", 6)], Traditional := [TokenRecord("t", 10)]];
    assert BEM !in doc;
    assert AsReals(TokenCounts(doc[Blocktail])) == [6.0];
    assert AsReals(TokenCounts(doc[Traditional])) == [10.0];
  }

  // Practical impact

  /** Whether a tokenizer contributes a Traditional delta: Traditional data with some non-zero sample. */
  predicate CountsTraditional(doc: ResultDocument)
  {
    Traditional in doc && exists i :: 0 <= i < |doc[Traditional]| && doc[Traditional][i].numTokens > 0
  }

  /** Whether a tokenizer contributes a BEM delta: BEM data with some non-zero sample. */
  predicate CountsBEM(doc: ResultDocument)
  {
    BEM in doc && exists i :: 0 <= i < |doc[BEM]| && doc[BEM][i].numTokens > 0
  }

  /** The entries of `all_savings` contributed by one tokenizer's Blocktail, Traditional and (optional) BEM statistics. */
  function SavingsOf(blocktailInfo: MethodologyStats, tradInfo: MethodologyStats, bemInfo: Option<MethodologyStats>): seq<real>
  {
    (if tradInfo.avgTokens > 0.0 then [tradInfo.avgTokens - blocktailInfo.avgTokens] else [])
    + (if bemInfo.Some? && bemInfo.value.avgTokens > 0.0
       then [bemInfo.value.avgTokens - blocktailInfo.avgTokens] else [])
  }

  /** One tokenizer's entries of `all_savings`; BEM is analysed only when the document has it. */
  function TokenizerSavings(doc: ResultDocument): seq<real>
  {
    SavingsOf(Analyze(doc, Blocktail), Analyze(doc, Traditional),
      if BEM in doc then Some(Analyze(doc, BEM)) else None)
  }

  /** The `all_savings` list, tokenizer by tokenizer in dictionary order. */
  function AllSavings(ts: seq<Entry>): seq<real>
    decreases |ts|
  {
    if ts == [] then [] else AllSavings(ts[..|ts| - 1]) + TokenizerSavings(ts[|ts| - 1].doc)
  }

  /** One more tokenizer appends its own deltas to the savings list. */
  lemma AllSavingsSnoc(ts: seq<Entry>, e: Entry)
    ensures AllSavings(ts + [e]) == AllSavings(ts) + TokenizerSavings(e.doc)
  {
    assert (ts + [e])[..|ts|] == ts;
  }

  /** The average convention avg_tokens (0.0 without data) in terms of the records. */
  lemma AnalyzeAverage(doc: ResultDocument, convention: string)
    ensures Analyze(doc, convention).avgTokens
         == if |Get(doc, convention)| > 0 then AvgTokens(Get(doc, convention)) else 0.0
  {
  }

  /**
   * A tokenizer contributes one Traditional delta exactly when some Traditional sample has a token,
   * and one BEM delta exactly when some BEM sample has a token; each delta is the baseline average
   * minus the Blocktail average, a missing Blocktail counting as 0.
   */
  lemma TokenizerSavingsEntries(doc: ResultDocument)
    ensures
      var s := TokenizerSavings(doc);
      var blk := if |Get(doc, Blocktail)| > 0 then AvgTokens(Get(doc, Blocktail)) else 0.0;
      && |s| == (if CountsTraditional(doc) then 1 else 0) + (if CountsBEM(doc) then 1 else 0)
      && (CountsTraditional(doc) ==> s[0] == AvgTokens(doc[Traditional]) - blk)
      && (CountsBEM(doc) ==> s[|s| - 1] == AvgTokens(doc[BEM]) - blk)
  {
    AnalyzeAverage(doc, Blocktail);
    AnalyzeAverage(doc, Traditional);
    AnalyzeAverage(doc, BEM);
    if |Get(doc, Traditional)| > 0 {
      AvgTokensPositiveIff(doc[Traditional]);
    }
    if |Get(doc, BEM)| > 0 {
      AvgTokensPositiveIff(doc[BEM]);
    }
  }

  /** The savings list is empty exactly when no tokenizer contributes a Traditional or a BEM delta. */
  lemma {:induction false} AllSavingsEmptyIff(ts: seq<Entry>)
    ensures AllSavings(ts) == []
        <==> forall i :: 0 <= i < |ts| ==> !CountsTraditional(ts[i].doc) && !CountsBEM(ts[i].doc)
    decreases |ts|
  {
    if ts != [] {
      var init := ts[..|ts| - 1];
      AllSavingsEmptyIff(init);
      TokenizerSavingsEntries(ts[|ts| - 1].doc);
      assert forall i :: 0 <= i < |init| ==> init[i] == ts[i];
    }
  }

  /** The practical-impact section: either not enough data, or the three projected figures. */
  datatype Impact =
    | NotEnoughData
    | Impact(perComponent: real, perPage: real, overIterations: Option<real>)

  function ImpactOf(savings: seq<real>, iterationCycles: int): Impact
  {
    if savings == [] then NotEnoughData
    else
      var avgSavings := Mean(savings);
      Impact(avgSavings, avgSavings * ComponentsPerPage,
        if iterationCycles > 1 then Some(avgSavings * ComponentsPerPage * iterationCycles as real) else None)
  }

  /**
   * With savings, the per-component figure lies between the smallest and the largest saving, a
   * page is 20 components, and the iteration projection exists exactly when there is more than
   * one iteration cycle, as the page figure times the cycles.
   */
  lemma ImpactProjections(savings: seq<real>, iterationCycles: int, lo: real, hi: real)
    requires forall i :: 0 <= i < |savings| ==> lo <= savings[i] <= hi
    ensures ImpactOf(savings, iterationCycles).NotEnoughData? <==> savings == []
    ensures
      var im := ImpactOf(savings, iterationCycles);
      im.Impact? ==>
        && lo <= im.perComponent <= hi
        && im.perPage == im.perComponent * 20.0
        && (im.overIterations.Some? <==> iterationCycles > 1)
        && (im.overIterations.Some? ==> im.overIterations.value == im.perPage * iterationCycles as real)
  {
    if savings != [] {
      MeanWithin(savings, lo, hi);
    }
  }

  // Marker complexity breakdown

  /** The Blocktail `by_complexity` dictionary of one tokenizer. */
  function BlocktailBuckets(doc: ResultDocument): map<nat, real>
  {
    Analyze(doc, Blocktail).byComplexity
  }

  /** The Blocktail `by_complexity` dictionaries of all tokenizers, in dictionary order. */
  function BlocktailBucketMaps(ts: seq<Entry>): (bs: seq<map<nat, real>>)
    ensures |bs| == |ts|
  {
    seq(|ts|, i requires 0 <= i < |ts| => BlocktailBuckets(ts[i].doc))
  }

  /** `marker_complex[k]`: the bucket means for k markers, one per dictionary that has that bucket, in order. */
  function MarkerValues(bs: seq<map<nat, real>>, k: nat): seq<real>
    decreases |bs|
  {
    if bs == [] then []
    else
      var bc := bs[|bs| - 1];
      MarkerValues(bs[..|bs| - 1], k) + (if k in bc then [bc[k]] else [])
  }

  /** The keys of `marker_complex`: marker counts of some dictionary's buckets. */
  function ComplexityKeys(bs: seq<map<nat, real>>): set<nat>
    decreases |bs|
  {
    if bs == [] then {} else ComplexityKeys(bs[..|bs| - 1]) + bs[|bs| - 1].Keys
  }

  /** The `marker_complex` dictionary. */
  function MarkerComplex(bs: seq<map<nat, real>>): map<nat, seq<real>>
  {
    map k | k in ComplexityKeys(bs) :: MarkerValues(bs, k)
  }

  /** A marker count is a key exactly when some dictionary has that bucket, and exactly then it has values. */
  lemma {:induction false} ComplexityKeysIff(bs: seq<map<nat, real>>, k: nat)
    ensures k in ComplexityKeys(bs) <==> exists i :: 0 <= i < |bs| && k in bs[i]
    ensures k in ComplexityKeys(bs) <==> |MarkerValues(bs, k)| > 0
    decreases |bs|
  {
    if bs != [] {
      var init := bs[..|bs| - 1];
      ComplexityKeysIff(init, k);
      if exists i :: 0 <= i < |bs| && k in bs[i] {
        var i :| 0 <= i < |bs| && k in bs[i];
        if i < |init| {
          assert k in init[i];
        }
      }
    }
  }

  /** Every value under key k is the k-marker bucket mean of some tokenizer. */
  lemma {:induction false} MarkerValuesOrigin(bs: seq<map<nat, real>>, k: nat)
    ensures forall v :: v in MarkerValues(bs, k) ==> exists i :: 0 <= i < |bs| && k in bs[i] && bs[i][k] == v
    decreases |bs|
  {
    if bs != [] {
      var init := bs[..|bs| - 1];
      MarkerValuesOrigin(init, k);
      assert forall i :: 0 <= i < |init| ==> init[i] == bs[i];
    }
  }

  /** Conversely, every tokenizer with a k-marker bucket puts its mean under key k. */
  lemma {:induction false} MarkerValuesComplete(bs: seq<map<nat, real>>, k: nat, i: nat)
    requires i < |bs| && k in bs[i]
    ensures bs[i][k] in MarkerValues(bs, k)
    decreases |bs|
  {
    var init := bs[..|bs| - 1];
    if i < |init| {
      assert init[i] == bs[i];
      MarkerValuesComplete(init, k, i);
    }
  }

  /**
   * When every tokenizer's Blocktail samples have between lo and hi tokens, every line of the
   * breakdown, a mean of bucket means, lies between lo and hi as well.
   */
  lemma ComplexityMeanWithin(ts: seq<Entry>, k: nat, lo: int, hi: int)
    requires forall i, j :: 0 <= i < |ts| && 0 <= j < |Get(ts[i].doc, Blocktail)| ==>
      lo <= Get(ts[i].doc, Blocktail)[j].numTokens <= hi
    requires k in ComplexityKeys(BlocktailBucketMaps(ts))
    ensures |MarkerValues(BlocktailBucketMaps(ts), k)| > 0
    ensures lo as real <= Mean(MarkerValues(BlocktailBucketMaps(ts), k)) <= hi as real
  {
    var bs := BlocktailBucketMaps(ts);
    ComplexityKeysIff(bs, k);
    MarkerValuesOrigin(bs, k);
    var vs := MarkerValues(bs, k);
    forall a | 0 <= a < |vs|
      ensures lo as real <= vs[a] <= hi as real
    {
      assert vs[a] in vs;
      var i :| 0 <= i < |bs| && k in bs[i] && bs[i][k] == vs[a];
      var recs := Get(ts[i].doc, Blocktail);
      assert bs[i] == BlocktailBuckets(ts[i].doc);
      assert Blocktail in ts[i].doc;
      BucketMeansWithin(recs, lo, hi);
    }
    MeanWithin(vs, lo as real, hi as real);
  }

  /** `marker_complex` after the items `done` of one more tokenizer's buckets have been appended. */
  function AddBuckets(m: map<nat, seq<real>>, bc: map<nat, real>, done: set<nat>): map<nat, seq<real>>
    requires done <= bc.Keys
  {
    map key | key in m.Keys + done :: Lookup(m, key) + (if key in done then [bc[key]] else [])
  }

  /** Before any item is appended, `marker_complex` is unchanged. */
  lemma AddBucketsNone(m: map<nat, seq<real>>, bc: map<nat, real>)
    ensures AddBuckets(m, bc, {}) == m
  {
    var r := AddBuckets(m, bc, {});
    assert r.Keys == m.Keys;
    forall key | key in m
      ensures r[key] == m[key]
    {
    }
  }

  /** Appending the item for one more key `k` of `bc`. */
  lemma AddBucketsStep(m: map<nat, seq<real>>, bc: map<nat, real>, done: set<nat>, k: nat)
    requires done <= bc.Keys && k in bc && k !in done
    ensures var cur := AddBuckets(m, bc, done);
      cur[k := Lookup(cur, k) + [bc[k]]] == AddBuckets(m, bc, done + {k})
  {
    var cur := AddBuckets(m, bc, done);
    assert Lookup(cur, k) == Lookup(m, k);
    var lhs, rhs := cur[k := Lookup(cur, k) + [bc[k]]], AddBuckets(m, bc, done + {k});
    assert lhs.Keys == rhs.Keys;
    forall key | key in lhs.Keys
      ensures lhs[key] == rhs[key]
    {
    }
  }

  /** Part way through one tokenizer's buckets: the keys in `done` are appended, those in `pending` are not yet. */
  ghost predicate AppendProgress(m: map<nat, seq<real>>, bc: map<nat, real>, done: set<nat>, pending: set<nat>,
                                 updated: map<nat, seq<real>>)
  {
    done !! pending && done + pending == bc.Keys && updated == AddBuckets(m, bc, done)
  }

  /** Nothing appended yet. */
  lemma AppendStart(m: map<nat, seq<real>>, bc: map<nat, real>)
    ensures AppendProgress(m, bc, {}, bc.Keys, m)
  {
    AddBucketsNone(m, bc);
  }

  /** Appending the item of one pending key moves that key to `done`. */
  lemma AppendStep(m: map<nat, seq<real>>, bc: map<nat, real>, done: set<nat>, pending: set<nat>,
                   updated: map<nat, seq<real>>, k: nat)
    requires AppendProgress(m, bc, done, pending, updated) && k in pending
    ensures k in bc
    ensures AppendProgress(m, bc, done + {k}, pending - {k}, updated[k := Lookup(updated, k) + [bc[k]]])
  {
    AddBucketsStep(m, bc, done, k);
  }

  /** With nothing pending, every key of `bc` is appended. */
  lemma AppendDone(m: map<nat, seq<real>>, bc: map<nat, real>, done: set<nat>, updated: map<nat, seq<real>>)
    requires AppendProgress(m, bc, done, {}, updated)
    ensures updated == AddBuckets(m, bc, bc.Keys)
  {
    assert done == bc.Keys;
  }

  /** Taking one more tokenizer into `marker_complex` appends each of its bucket means under its key. */
  lemma MarkerComplexSnoc(bs: seq<map<nat, real>>, bc: map<nat, real>)
    ensures MarkerComplex(bs + [bc]) == AddBuckets(MarkerComplex(bs), bc, bc.Keys)
  {
    var all := bs + [bc];
    assert all[..|all| - 1] == bs;
    forall k | k in ComplexityKeys(all)
      ensures MarkerComplex(all)[k] == AddBuckets(MarkerComplex(bs), bc, bc.Keys)[k]
    {
      ComplexityKeysIff(bs, k);
    }
  }

  /** One line of the marker-complexity breakdown (the standard deviation is not modelled). */
  datatype ComplexityLine = ComplexityLine(markers: nat, meanTokens: real)

  /**
   * The breakdown lists each `marker_complex` key once, in strictly ascending order, with the mean
   * of the values under it.
   */
  ghost predicate IsComplexityBreakdown(bs: seq<map<nat, real>>, lines: seq<ComplexityLine>)
  {
    && (forall a, b :: 0 <= a < b < |lines| ==> lines[a].markers < lines[b].markers)
    && (forall k :: k in ComplexityKeys(bs) <==> exists a :: 0 <= a < |lines| && lines[a].markers == k)
    && (forall a :: 0 <= a < |lines| ==>
          |MarkerValues(bs, lines[a].markers)| > 0
          && lines[a].meanTokens == Mean(MarkerValues(bs, lines[a].markers)))
  }

  /** Every key of `marker_complex` has at least one value. */
  lemma MarkerComplexNonEmpty(bs: seq<map<nat, real>>)
    ensures forall k :: k in MarkerComplex(bs) ==> |MarkerComplex(bs)[k]| > 0
  {
    forall k | k in MarkerComplex(bs)
      ensures |MarkerComplex(bs)[k]| > 0
    {
      ComplexityKeysIff(bs, k);
    }
  }

  /** Lines listing the keys of `marker_complex` in ascending order, each with its mean, are the breakdown. */
  lemma BreakdownOfLines(bs: seq<map<nat, real>>, lines: seq<ComplexityLine>)
    requires forall a, b :: 0 <= a < b < |lines| ==> lines[a].markers < lines[b].markers
    requires forall k :: k in MarkerComplex(bs) <==> exists a :: 0 <= a < |lines| && lines[a].markers == k
    requires forall a :: 0 <= a < |lines| ==>
      lines[a].markers in MarkerComplex(bs) && |MarkerComplex(bs)[lines[a].markers]| > 0
      && lines[a].meanTokens == Mean(MarkerComplex(bs)[lines[a].markers])
    ensures IsComplexityBreakdown(bs, lines)
  {
    forall k
      ensures k in ComplexityKeys(bs) <==> k in MarkerComplex(bs)
    {
    }
  }

  /** The three sections of the summary, as values. */
  datatype Summary = Summary(rows: seq<ComparisonRow>, impact: Impact, complexity: seq<ComplexityLine>)
}
