/**
 * Per-convention statistics of one tokenizer's results (TokenizationAnalyzer.analyze_methodology):
 * the mean token count, the (min, max) range, and the mean token count per marker complexity.
 */
module Methodology {
  import opened Stats
  import opened PyStrings

  /**
   * One record of a result file: the sample text and its token count. The token list itself is
   * not kept; `numTokens` is its length, hence a nat.
   */
  datatype TokenRecord = TokenRecord(input: string, numTokens: nat)

  /** One tokenizer's result document: naming convention -> its records, in file order. */
  type ResultDocument = map<string, seq<TokenRecord>>

  /** The dictionary analyze_methodology returns: avg_tokens, token_range, by_complexity. */
  datatype MethodologyStats = MethodologyStats(avgTokens: real, tokenRange: (int, int), byComplexity: map<nat, real>)

  /** The statistics of a convention with no data: average 0.0, range (0, 0), no buckets. */
  const NoStats := MethodologyStats(0.0, (0, 0), map[])

  /** Marker complexity of a sample: `input.count('--') + input.count(' -')`. */
  function Markers(input: string): nat
  {
    Count(input, "--") + Count(input, " -")
  }

  /** `[entry['num_tokens'] for entry in records]`. */
  function TokenCounts(recs: seq<TokenRecord>): seq<int>
  {
    seq(|recs|, i requires 0 <= i < |recs| => recs[i].numTokens)
  }

  /** numpy.mean of the token counts of a non-empty list of records. */
  function AvgTokens(recs: seq<TokenRecord>): real
    requires |recs| > 0
  {
    Mean(AsReals(TokenCounts(recs)))
  }

  /** A defaultdict(list) read: the list stored under `k`, or the empty list. */
  function Lookup<V>(m: map<nat, seq<V>>, k: nat): seq<V>
  {
    if k in m then m[k] else []
  }

  /** The records whose input has exactly `k` markers, in their original order. */
  function Bucket(recs: seq<TokenRecord>, k: nat): seq<TokenRecord>
    decreases |recs|
  {
    if recs == [] then []
    else
      var last := recs[|recs| - 1];
      Bucket(recs[..|recs| - 1], k) + (if Markers(last.input) == k then [last] else [])
  }

  /** The marker counts that occur among the records. */
  function MarkerKeys(recs: seq<TokenRecord>): set<nat>
  {
    set r | r in recs :: Markers(r.input)
  }

  /** The `component_sizes` dictionary: marker count -> token counts of the records with that count. */
  function Grouped(recs: seq<TokenRecord>): map<nat, seq<int>>
  {
    map k | k in MarkerKeys(recs) :: TokenCounts(Bucket(recs, k))
  }

  /** The `by_complexity` dictionary: marker count -> mean token count of the records with that count. */
  function ByComplexity(recs: seq<TokenRecord>): map<nat, real>
  {
    map k | k in MarkerKeys(recs) :: BucketNonEmpty(recs, k); AvgTokens(Bucket(recs, k))
  }

  /** analyze_methodology(results, methodology). */
  function Analyze(results: ResultDocument, methodology: string): MethodologyStats
  {
    if methodology !in results then NoStats
    else
      var recs := results[methodology];
      var tokens := TokenCounts(recs);
      MethodologyStats(
        if |tokens| > 0 then AvgTokens(recs) else 0.0,
        if |tokens| > 0 then (Min(tokens), Max(tokens)) else (0, 0),
        ByComplexity(recs))
  }

  /** A record lies in the bucket of its own marker count and in no other. */
  lemma {:induction false} BucketMembers(recs: seq<TokenRecord>, k: nat)
    ensures forall r :: r in Bucket(recs, k) <==> r in recs && Markers(r.input) == k
    decreases |recs|
  {
    if recs != [] {
      BucketMembers(recs[..|recs| - 1], k);
      assert recs == recs[..|recs| - 1] + [recs[|recs| - 1]];
    }
  }

  /** A bucket is non-empty exactly when its marker count occurs. */
  lemma BucketNonEmpty(recs: seq<TokenRecord>, k: nat)
    ensures |Bucket(recs, k)| > 0 <==> k in MarkerKeys(recs)
  {
    BucketMembers(recs, k);
    if |Bucket(recs, k)| > 0 {
      assert Bucket(recs, k)[0] in Bucket(recs, k);
    }
    if k in MarkerKeys(recs) {
      var r :| r in recs && Markers(r.input) == k;
      assert r in Bucket(recs, k);
    }
  }

  /** The marker counts occurring after one more record: those before, plus the record's own. */
  lemma MarkerKeysSnoc(recs: seq<TokenRecord>, r: TokenRecord)
    ensures MarkerKeys(recs + [r]) == MarkerKeys(recs) + {Markers(r.input)}
  {
  }

  /** The token counts of a list with one more record end with that record's count. */
  lemma TokenCountsSnoc(recs: seq<TokenRecord>, r: TokenRecord)
    ensures TokenCounts(recs + [r]) == TokenCounts(recs) + [r.numTokens]
  {
  }

  /** Appending one record to the list appends its token count to its own bucket only. */
  lemma GroupedSnoc(recs: seq<TokenRecord>, r: TokenRecord)
    ensures var m := Markers(r.input);
      Grouped(recs + [r]) == Grouped(recs)[m := Lookup(Grouped(recs), m) + [r.numTokens]]
  {
    var m := Markers(r.input);
    var all := recs + [r];
    var before := Grouped(recs);
    var after := before[m := Lookup(before, m) + [r.numTokens]];
    assert all[..|all| - 1] == recs;
    MarkerKeysSnoc(recs, r);
    BucketNonEmpty(recs, m);
    assert Lookup(before, m) == TokenCounts(Bucket(recs, m));
    forall k | k in MarkerKeys(all)
      ensures Grouped(all)[k] == after[k]
    {
      if k == m {
        assert Bucket(all, k) == Bucket(recs, k) + [r];
        TokenCountsSnoc(Bucket(recs, k), r);
      } else {
        assert Bucket(all, k) == Bucket(recs, k);
      }
    }
    assert Grouped(all).Keys == after.Keys;
  }

  /** by_complexity averages each list of component_sizes. */
  lemma ByComplexityOfGrouped(recs: seq<TokenRecord>)
    ensures forall k :: k in Grouped(recs) ==> |Grouped(recs)[k]| > 0
    ensures ByComplexity(recs) == map k | k in Grouped(recs) :: Mean(AsReals(Grouped(recs)[k]))
  {
    forall k | k in Grouped(recs)
      ensures |Grouped(recs)[k]| > 0
    {
      BucketNonEmpty(recs, k);
    }
  }

  /** Total size of the buckets for marker counts 0 .. n - 1 of a component_sizes dictionary. */
  function GroupSizesBelow(g: map<nat, seq<int>>, n: nat): nat
  {
    if n == 0 then 0 else GroupSizesBelow(g, n - 1) + |Lookup(g, n - 1)|
  }

  /** Replacing the bucket of `m` changes the total below `n` by the change in its size, when `m` is below `n`. */
  lemma {:induction false} GroupSizesUpdate(g: map<nat, seq<int>>, m: nat, v: seq<int>, n: nat)
    ensures GroupSizesBelow(g[m := v], n) + (if m < n then |Lookup(g, m)| else 0)
         == GroupSizesBelow(g, n) + (if m < n then |v| else 0)
  {
    if n > 0 {
      GroupSizesUpdate(g, m, v, n - 1);
    }
  }

  /** One more record adds one to the total below `n` when its marker count is below `n`. */
  lemma GroupSizesSnoc(recs: seq<TokenRecord>, r: TokenRecord, n: nat)
    ensures GroupSizesBelow(Grouped(recs + [r]), n)
         == GroupSizesBelow(Grouped(recs), n) + (if Markers(r.input) < n then 1 else 0)
  {
    var m := Markers(r.input);
    var g := Grouped(recs);
    GroupedSnoc(recs, r);
    GroupSizesUpdate(g, m, Lookup(g, m) + [r.numTokens], n);
  }

  /**
   * Every record falls in exactly one bucket: for any bound above every marker count, the bucket
   * sizes add up to the number of records.
   */
  lemma {:induction false} GroupSizesSum(recs: seq<TokenRecord>, n: nat)
    requires forall r :: r in recs ==> Markers(r.input) < n
    ensures GroupSizesBelow(Grouped(recs), n) == |recs|
    decreases |recs|, n
  {
    if recs == [] {
      assert Grouped(recs) == map[];
      if n > 0 {
        GroupSizesSum(recs, n - 1);
      }
    } else {
      var init, last := recs[..|recs| - 1], recs[|recs| - 1];
      assert recs == init + [last];
      GroupSizesSum(init, n);
      GroupSizesSnoc(init, last, n);
    }
  }

  /** A convention that is absent, or present with no records, has average 0.0, range (0, 0) and no buckets. */
  lemma AnalyzeNoData(results: ResultDocument, methodology: string)
    requires methodology !in results || results[methodology] == []
    ensures Analyze(results, methodology) == NoStats
  {
    if methodology in results {
      assert MarkerKeys(results[methodology]) == {};
    }
  }

  /** Records whose token counts all lie in [lo, hi] have every bucket mean in [lo, hi]. */
  lemma BucketMeansWithin(recs: seq<TokenRecord>, lo: int, hi: int)
    requires forall i :: 0 <= i < |recs| ==> lo <= recs[i].numTokens <= hi
    ensures forall k :: k in ByComplexity(recs) ==> lo as real <= ByComplexity(recs)[k] <= hi as real
  {
    forall k | k in ByComplexity(recs)
      ensures lo as real <= ByComplexity(recs)[k] <= hi as real
    {
      var b := Bucket(recs, k);
      BucketMembers(recs, k);
      BucketNonEmpty(recs, k);
      forall j | 0 <= j < |b|
        ensures lo <= b[j].numTokens <= hi
      {
        assert b[j] in b;
      }
      MeanWithin(AsReals(TokenCounts(b)), lo as real, hi as real);
    }
  }

  /**
   * For a non-empty convention: token_range is the exact (min, max) of the token counts, the
   * average is their sum divided by their number, it lies within the range, and so does every bucket mean.
   */
  lemma AnalyzeNonEmpty(results: ResultDocument, methodology: string)
    requires methodology in results && |results[methodology]| > 0
    ensures
      var s := Analyze(results, methodology);
      var recs := results[methodology];
      var (lo, hi) := s.tokenRange;
      && (exists i :: 0 <= i < |recs| && recs[i].numTokens == lo)
      && (exists i :: 0 <= i < |recs| && recs[i].numTokens == hi)
      && (forall i :: 0 <= i < |recs| ==> lo <= recs[i].numTokens <= hi)
      && s.avgTokens == Sum(AsReals(TokenCounts(recs))) / (|recs| as real)
      && lo as real <= s.avgTokens <= hi as real
      && (forall k :: k in s.byComplexity ==> lo as real <= s.byComplexity[k] <= hi as real)
  {
    var recs := results[methodology];
    var tokens := TokenCounts(recs);
    var lo, hi := Min(tokens), Max(tokens);
    assert Analyze(results, methodology) == MethodologyStats(AvgTokens(recs), (lo, hi), ByComplexity(recs));
    assert exists i :: 0 <= i < |recs| && recs[i].numTokens == lo by {
      var i :| 0 <= i < |tokens| && tokens[i] == lo;
      assert recs[i].numTokens == lo;
    }
    assert exists i :: 0 <= i < |recs| && recs[i].numTokens == hi by {
      var i :| 0 <= i < |tokens| && tokens[i] == hi;
      assert recs[i].numTokens == hi;
    }
    assert forall i :: 0 <= i < |recs| ==> lo <= recs[i].numTokens <= hi by {
      forall i | 0 <= i < |recs|
        ensures lo <= recs[i].numTokens <= hi
      {
        assert tokens[i] == recs[i].numTokens;
      }
    }
    var xs := AsReals(tokens);
    assert forall i :: 0 <= i < |xs| ==> lo as real <= xs[i] <= hi as real by {
      forall i | 0 <= i < |xs|
        ensures lo as real <= xs[i] <= hi as real
      {
        assert xs[i] == recs[i].numTokens as real;
      }
    }
    MeanWithin(xs, lo as real, hi as real);
    assert |xs| == |recs|;
    BucketMeansWithin(recs, lo, hi);
  }

  /** The average of a non-empty convention is positive exactly when some sample has a token. */
  lemma AvgTokensPositiveIff(recs: seq<TokenRecord>)
    requires |recs| > 0
    ensures AvgTokens(recs) >= 0.0
    ensures AvgTokens(recs) > 0.0 <==> exists i :: 0 <= i < |recs| && recs[i].numTokens > 0
  {
    var xs := AsReals(TokenCounts(recs));
    MeanPositiveIff(xs);
    if exists i :: 0 <= i < |xs| && xs[i] > 0.0 {
      var i :| 0 <= i < |xs| && xs[i] > 0.0;
      assert recs[i].numTokens > 0;
    }
    if exists i :: 0 <= i < |recs| && recs[i].numTokens > 0 {
      var i :| 0 <= i < |recs| && recs[i].numTokens > 0;
      assert xs[i] > 0.0;
    }
  }

  /** Python counts "--" in "a---b" once: occurrences do not overlap. */
  lemma CountTripleDash()
    ensures Count("a---b", "--") == 1
  {
    assert "a---b"[..2][0] != "--"[0];
    assert "a---b"[1..] == "---b";
    assert "---b"[..2] == "--" && "---b"[2..] == "-b";
    assert "-b"[..2][1] != "--"[1];
  }

  /** "a--b" has one marker: one "--" and no " -". */
  lemma MarkersDoubleDash()
    ensures Markers("a--b") == 1
  {
    assert "a--b"[..2][0] != "--"[0] && "a--b"[..2][0] != " -"[0];
    assert "a--b"[1..] == "--b";
    assert "--b"[..2] == "--" && "--b"[2..] == "b";
    assert "--b"[..2][0] != " -"[0] && "--b"[1..] == "-b";
    assert "-b"[..2][0] != " -"[0];
  }

  /** "a -b -c" has two markers: two " -" and no "--". */
  lemma MarkersTwoSpaceDashes()
    ensures Markers("a -b -c") == 2
  {
    var t := "a -b -c";
    assert t[..2][0] != "--"[0] && t[..2][1] != " -"[1] && t[1..] == " -b -c";
    assert " -b -c"[..2] == " -" && " -b -c"[2..] == "b -c";
    assert " -b -c"[..2][0] != "--"[0] && " -b -c"[1..] == "-b -c";
    assert "-b -c"[..2][1] != "--"[1] && "-b -c"[1..] == "b -c";
    assert "b -c"[..2][0] != "--"[0] && "b -c"[..2][0] != " -"[0] && "b -c"[1..] == " -c";
    assert " -c"[..2] == " -" && " -c"[2..] == "c";
    assert " -c"[..2][0] != "--"[0] && " -c"[1..] == "-c";
    assert "-c"[..2][1] != "--"[1];
  }

  /** A dash after a space is counted by both patterns: " --" has two markers. */
  lemma MarkersBoundaryDoubleCount()
    ensures Markers(" --") == 2
  {
    assert " --"[..2] == " -" && " --"[2..] == "-";
    assert " --"[..2][0] != "--"[0] && " --"[1..] == "--";
    assert "--"[..2] == "--" && "--"[2..] == "";
  }
}
