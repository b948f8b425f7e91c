# Tokenization analysis compiler — Dafny model

`analysis-compiler.py` reads one result document per tokenizer. A document maps each CSS naming convention ("Blocktail", "Traditional", "BEM") to a list of records `{input, num_tokens}`. From these documents it:

- computes per-convention statistics (`analyze_methodology`);
- builds a Markdown summary with a cross-comparison table, a practical-impact section and a breakdown of Blocktail token usage by marker complexity (`generate_summary`);
- splices that summary into README.md between `<!-- RESULTS -->` and `<!-- END_RESULTS -->`.

This project models that core in Dafny and proves what it computes.

Modules:

- `Wrappers` has `Option`.
- `PyStrings` has the Python string operations the code relies on, with Python's semantics:
  - `pat in s`;
  - `s.count(pat)`, which counts non-overlapping occurrences scanning from the left;
  - `s.split(sep, 1)`.
- `Stats` has the sum, the mean (numpy's `mean`, taken as an exact real) and `min`/`max`.
- `Methodology` has the records, the marker count of a sample, and `Analyze`. `Analyze` is the value `analyze_methodology` returns: average, `(min, max)` range, and the `by_complexity` map from marker count to mean token count.
- `Report` holds what `generate_summary` decides, as values instead of text:
  - which tokenizers get a comparison row, and the cells of each row, with `None` where the table prints "N/A";
  - the entries of the savings list and the projections made from it;
  - the marker-complexity breakdown.
- `Analyzer` has the class `TokenizationAnalyzer`, with the fields `resultsDir`, `tokenizerResults` and `iterationCycles`. Each loop of `analyze_methodology` and `generate_summary` is a method with loop invariants, proved to compute the value the `Methodology` and `Report` functions specify. This module also has `get_tokenizer_type`.
- `ReadmeSplice` has the README update as a pure string function, and its preservation and regeneration properties.

Data representation:

- The ordered dictionary `tokenizer_results` is a sequence of `(name, document)` entries in load order, with distinct names.
- `num_tokens` is a `nat`, since it is the length of the token list.
- The `defaultdict(list)` values are modelled with an explicit lookup that defaults to the empty list.

Two consequences of the code are worth stating:

- **Marker counts.** `"a--b"` has one marker: `"--"` is counted once and `" -"` never (`Methodology.MarkersDoubleDash`). `"a -b -c"` has two (`Methodology.MarkersTwoSpaceDashes`), so the two inputs fall in different buckets.
- **README splice.** The splice writes a line break after `<!-- RESULTS -->` and another before `<!-- END_RESULTS -->` (`ReadmeSplice.SpliceBetweenMarkers`).

## Model

| member | source | states |
|---|---|---|
| `Analyzer.TokenizationAnalyzer.constructor` | analysis-compiler.py:21-31 | The analyzer holds the given results directory, iteration cycles (1 by default) and loaded documents. The documents have distinct tokenizer names. |
| `Analyzer.TokenizationAnalyzer.AnalyzeMethodology` | analysis-compiler.py:43-78 | The method's result is exactly the statistics `Analyze` specifies for the convention. |
| `Analyzer.TokenizationAnalyzer.GroupByMarkers` | analysis-compiler.py:63-68 | The `component_sizes` loop puts each record's token count under its marker count, in record order. |
| `Methodology.Analyze` | analysis-compiler.py:43-78 | The statistics of one convention. An absent convention gives average 0.0, range (0, 0) and no buckets. Otherwise it gives the mean of the token counts (0.0 for an empty list), their (min, max) ((0, 0) for an empty list), and the map from each marker count that occurs to the mean token count of the records with that many markers. |
| `Methodology.Markers` | analysis-compiler.py:67 | The marker count of an input: the non-overlapping occurrences of `"--"` plus those of `" -"`. |
| `Methodology.AnalyzeNoData` | analysis-compiler.py:51-60 | An absent convention, or one with an empty list, gives average 0.0, range (0, 0) and no buckets. |
| `Methodology.AnalyzeNonEmpty` | analysis-compiler.py:58-60 | For a non-empty list, both ends of `token_range` are attained and every count lies between them. The average is sum / count and lies within the range. Every bucket mean lies within the range too. |
| `Methodology.AvgTokensPositiveIff` | analysis-compiler.py:58-59 | A non-empty average is non-negative. It is positive exactly when some sample has a token. |
| `Methodology.BucketMembers` | analysis-compiler.py:63-68 | A record is in bucket k if and only if its input has exactly k markers. Each record therefore is in exactly one bucket. |
| `Methodology.BucketNonEmpty` | analysis-compiler.py:63-68 | A bucket is non-empty exactly when some record has that marker count. |
| `Methodology.GroupedSnoc` | analysis-compiler.py:64-68 | One more record appends its token count to the list of its own marker count and changes no other list. |
| `Methodology.GroupSizesSnoc` | analysis-compiler.py:64-68 | One more record adds one to the total bucket size below n exactly when its marker count is below n. |
| `Methodology.GroupSizesSum` | analysis-compiler.py:63-68 | The bucket sizes add up to the number of records. |
| `Methodology.ByComplexityOfGrouped` | analysis-compiler.py:70-72 | Every `component_sizes` list is non-empty. `by_complexity` is the mean of each list. |
| `Methodology.BucketMeansWithin` | analysis-compiler.py:70-72 | If all token counts lie in [lo, hi], every bucket mean lies in [lo, hi]. |
| `Methodology.CountTripleDash` | analysis-compiler.py:67 | `"a---b".count("--")` is 1, because occurrences do not overlap. |
| `Methodology.MarkersDoubleDash` | analysis-compiler.py:67 | `"a--b"` has one marker. |
| `Methodology.MarkersTwoSpaceDashes` | analysis-compiler.py:67 | `"a -b -c"` has two markers. |
| `Methodology.MarkersBoundaryDoubleCount` | analysis-compiler.py:67 | In `" --"` both patterns match, so it has two markers. |
| `PyStrings.FirstOccurrence` | analysis-compiler.py:200-204 | The result is an occurrence with no occurrence before it. `None` means there is no occurrence at all. |
| `PyStrings.Count` | analysis-compiler.py:67 | Python's `s.count(pat)`. A non-empty pattern is matched at the earliest position, counted, and scanning resumes after the match. An empty pattern gives `len(s) + 1`. |
| `PyStrings.CountBound` | analysis-compiler.py:67 | The occurrences `count` counts do not overlap: count × pattern length ≤ string length. |
| `PyStrings.CountZeroIff` | analysis-compiler.py:67 | `s.count(pat)` is 0 exactly when `pat in s` is false. |
| `PyStrings.Split1` | analysis-compiler.py:201-204 | `s.split(sep, 1)` gives `[s]` when `sep` is absent. Otherwise it gives two parts that rebuild `s` around the leftmost `sep`, and the first part does not contain `sep`. |
| `Stats.Min` | analysis-compiler.py:60 | `min` is an element of the list and is at most every element. |
| `Stats.Max` | analysis-compiler.py:60 | `max` is an element of the list and is at least every element. |
| `Stats.MeanWithin` | analysis-compiler.py:59 | The mean of values in [lo, hi] is in [lo, hi]. |
| `Stats.MeanPositiveIff` | analysis-compiler.py:59 | The mean of non-negative values is non-negative. It is positive exactly when some value is. |
| `Stats.MeanExample` | analysis-compiler.py:59 | The mean of 3, 5 and 7 is exactly 5.0. |
| `Analyzer.TokenizationAnalyzer.ComparisonRows` | analysis-compiler.py:85-111 | The `comparison_rows` loop produces exactly `Rows` of the loaded documents. Because tokenizer names are dictionary keys, no two rows name the same tokenizer. |
| `Report.RowsInTokenizerOrder` | analysis-compiler.py:85-111 | There is one row per tokenizer with comparison data, in load order: row a belongs to the a-th such tokenizer. |
| `Report.RowsDistinctTokenizers` | analysis-compiler.py:85-93 | Given distinct tokenizer names, as dictionary keys are, no two rows name the same tokenizer. |
| `Report.RowOf` | analysis-compiler.py:95-110 | The row of a tokenizer that has comparison data: the Blocktail and Traditional averages, and "vs Trad." as (trad - blk) / trad × 100, or 0.0 when trad is 0. "BEM Avg" is the BEM average when that is present and non-zero, else N/A. "vs BEM" is (bem - blk) / bem × 100 when "BEM Avg" is shown and that result is non-zero, else N/A. |
| `Report.RowExistsIff` | analysis-compiler.py:86-93 | A tokenizer has a row if and only if its Blocktail and Traditional lists are both present and non-empty. |
| `Report.RowTraditionalCells` | analysis-compiler.py:95-103 | The cells hold the Blocktail and Traditional averages. "vs Trad." is the reduction relative to Traditional, is 0.0 when that average is 0, is at most 100, and is positive exactly when Blocktail is smaller. |
| `Report.RowBemCells` | analysis-compiler.py:97-110 | "BEM Avg" is shown exactly when some BEM sample has a token. "vs BEM" is shown exactly when the BEM average is shown and differs from Blocktail (a 0.0 reduction is N/A). "vs BEM" is a reduction relative to BEM and is at most 100. |
| `Report.PercentReduction` | analysis-compiler.py:100-101 | For a positive baseline and a non-negative value, the percent reduction is at most 100. It is positive or zero exactly when the value is below or equal to the baseline, and the value is the baseline scaled by 1 - p/100. |
| `Report.RowExampleWithoutBEM` | analysis-compiler.py:97-110 | Traditional 10 and Blocktail 6 with no BEM give "vs Trad." 40.0 and N/A in both BEM cells. |
| `Analyzer.TokenizationAnalyzer.TokenizerSavingsStep` | analysis-compiler.py:126-133 | One pass of the savings loop produces exactly the deltas `TokenizerSavings` specifies for that document. |
| `Analyzer.TokenizationAnalyzer.SavingsFrom` | analysis-compiler.py:130-133 | The two append guards produce exactly `SavingsOf` the three statistics. |
| `Analyzer.TokenizationAnalyzer.Savings` | analysis-compiler.py:124-133 | The `all_savings` loop produces exactly `AllSavings` of the loaded documents, in load order. |
| `Report.TokenizerSavingsEntries` | analysis-compiler.py:126-133 | A tokenizer contributes a Traditional delta exactly when some Traditional sample has a token, and a BEM delta exactly when BEM is present and some BEM sample has a token. Each delta is the baseline average minus the Blocktail average, where a missing Blocktail counts as 0. |
| `Report.AllSavingsEmptyIff` | analysis-compiler.py:124-135 | The savings list is empty exactly when no tokenizer contributes any delta. |
| `Analyzer.TokenizationAnalyzer.PracticalImpact` | analysis-compiler.py:135-147 | The practical-impact section is exactly `ImpactOf` the savings list and the iteration cycles. |
| `Report.ImpactProjections` | analysis-compiler.py:135-147 | There is "not enough data" exactly when the list is empty. Otherwise the per-component figure lies within any bounds [lo, hi] of the savings, and a page is 20 components. The iteration figure exists exactly when cycles > 1, and then it is the page figure times the cycles. |
| `Analyzer.TokenizationAnalyzer.AppendBuckets` | analysis-compiler.py:154-155 | The inner loop appends each Blocktail bucket mean of one tokenizer under its marker count. |
| `Analyzer.TokenizationAnalyzer.CollectMarkerComplex` | analysis-compiler.py:151-155 | The `marker_complex` loop produces exactly `MarkerComplex` of every tokenizer's Blocktail `by_complexity`. |
| `Report.MarkerComplexSnoc` | analysis-compiler.py:152-155 | Taking in one more tokenizer appends each of its bucket means under its key. |
| `Report.ComplexityKeysIff` | analysis-compiler.py:151-157 | A marker count is a key exactly when some tokenizer has a Blocktail bucket for it, and exactly when its list of values is non-empty. |
| `Report.MarkerValuesOrigin` | analysis-compiler.py:152-155 | Every value under key k is the k-marker bucket mean of some tokenizer. |
| `Report.MarkerValuesComplete` | analysis-compiler.py:152-155 | Conversely, every tokenizer with a k-marker bucket puts that bucket's mean under key k. |
| `Report.ComplexityMeanWithin` | analysis-compiler.py:152-160 | If every Blocktail sample has between lo and hi tokens, every line's mean lies between lo and hi. |
| `Analyzer.Sorted` | analysis-compiler.py:158 | `sorted(keys)` lists each key once, in strictly ascending order. |
| `Analyzer.TokenizationAnalyzer.SortedLines` | analysis-compiler.py:157-160 | Lines follow the keys in strictly ascending order. Every key has exactly one line, which carries the mean of its values. |
| `Analyzer.TokenizationAnalyzer.ComplexityBreakdown` | analysis-compiler.py:149-162 | The breakdown lists the keys in strictly ascending order. Every marker count of any tokenizer's Blocktail buckets appears, and each line carries the mean of the non-empty list of bucket means for its count. |
| `Analyzer.TokenizationAnalyzer.GenerateSummary` | analysis-compiler.py:80-168 | The summary's three sections are exactly the rows, the impact and the complexity breakdown specified above. No two rows name the same tokenizer. |
| `Analyzer.TokenizerFamilies` | analysis-compiler.py:170-183 | The type is "tiktoken" exactly for gpt4 and gpt35, and "sentencepiece" exactly for spiece. It is "transformers" exactly for gpt2, llama3, mistral, bert, roberta and t5, and "unknown" for every name outside the table. |
| `Analyzer.TokenizationAnalyzer.GetTokenizerType` | analysis-compiler.py:170-183 | A name in the table gets its table entry, and any other name gets "unknown". |
| `ReadmeSplice.Split1AtFirst` | analysis-compiler.py:201-204 | Splitting `a + marker + x` once at a marker gives `[a, x]` when `a` does not contain the marker. This holds because neither marker can overlap itself. |
| `ReadmeSplice.Splice` | analysis-compiler.py:199-206 | The README text written back. With RESULTS present, it is the text before the first RESULTS, then RESULTS, `\n` and the summary. When an END follows, `\n`, END and the text after the first such END come next. Without RESULTS, it is `readme + \n + RESULTS + \n + summary + \n + END`. |
| `ReadmeSplice.SpliceBetweenMarkers` | analysis-compiler.py:200-204 | `A + RESULTS + B + END + C` becomes `A + RESULTS + "\n" + summary + "\n" + END + C`, with A and C kept verbatim. Here A is free of RESULTS and B is free of END. |
| `ReadmeSplice.SpliceWithoutEnd` | analysis-compiler.py:200-202 | When no END follows the first RESULTS, the output is the text before RESULTS, RESULTS, "\n" and the summary. Everything after the marker is dropped. |
| `ReadmeSplice.SpliceWithoutMarkers` | analysis-compiler.py:205-206 | Without RESULTS, the output is `readme + "\n" + RESULTS + "\n" + summary + "\n" + END`. |
| `ReadmeSplice.SpliceShape` | analysis-compiler.py:200-206 | Every output is a head, RESULTS, "\n", the summary and a tail, and head and tail depend on the README alone. |
| `ReadmeSplice.SpliceRegenerate` | analysis-compiler.py:199-206 | Splicing a new summary into an already spliced README gives the same text as splicing it into the original. This holds whenever the earlier summary has no END marker. |
| `ReadmeSplice.SpliceIdempotent` | analysis-compiler.py:199-206 | Splicing the same summary twice gives what splicing it once gives, when the summary holds no `<!-- END_RESULTS -->`. |

## Left out

- `load_results` (analysis-compiler.py:33-41): globbing the results directory and parsing JSON are file I/O. The constructor takes the loaded documents in load order instead.
- Writing `tokenization_summary.md` and README.md, reading README.md, and the printed messages (analysis-compiler.py:185-213): file I/O. The missing-README error path is I/O as well. Only the splice expression is modelled.
- Markdown rendering: `to_markdown`, the `:.1f` and `:.0f` rounding, the heading and note strings, and the final join (analysis-compiler.py:105-120, 137-147, 162-168). Rows, impact and breakdown are modelled as values, with `None` where "N/A" is printed.
- `np.std` in the breakdown (analysis-compiler.py:161): `ComplexityLine` carries only the mean.
- Floating point: every average and percentage is an exact real. A Python float would round, and could overflow to infinity or produce NaN.
- The token lists of the records: only their lengths, `num_tokens`, are kept. The records are assumed to satisfy `num_tokens == len(tokens)`, which the tokenizer runner guarantees by construction.
- tokenize_tests.py is not part of this model: it calls external tokenizer libraries and does CLI and file I/O.
- `Analyzer.Sorted` and `Analyzer.TokenizationAnalyzer.AppendBuckets` draw keys from an unordered set, whereas Python walks a dict in insertion order. `AppendBuckets` appends at most one value per key, so the order does not change its result. `Sorted` has a unique result.
