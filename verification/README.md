# ERP calculation toolkit — a Dafny model

This project models the calculation engine of `assets/js/app.js`, the
browser-side module behind a set of ERP decision-support pages. Each page
collects free-text lines, calls one calculator and renders the result as
a table. The model covers every calculator and the small utilities around
them:

- the line parser `parsingInput`, the record-count check `validateInput`
  and the cell quoting of `exportCSV`;
- the period-over-period indicator `computeTrend`;
- the bill-of-materials roll-up `computeBOM`, with per-line `qty:`/`jumlah:`
  quantities and an override line `Produk:qty,...`;
- the moving-average forecaster `computeForecast`, with its in-sample
  forecasts and its iterative projection;
- the job-sequencing heuristics `computeJSM` (FCFS, SPT, EDD) and their
  `scheduleMetrics`;
- Simple Additive Weighting `computeSAW`;
- frequent item pairs `computeMarketBasket`;
- profile matching `computeProfileMatching`;
- the Markov transition matrix `computeMarkov`.

Numbers are exact reals. `Number(text)` is `Numbers.JsNumber`, and
`parseFloat` is `Numbers.ParseFloat`. `None` stands for `NaN`, and
`Numbers.OrZero` is the idiom `x || 0`. `Array.prototype.sort` is
`Sorting.SortBy`, a stable insertion sort. `Sorting.StableSortIsUnique`
shows that any sorted, stable reordering equals it, so the model
determines the host's result exactly. Plain objects used as counters (the
pair counts, the component totals) become a sequence of entries in
insertion order (`Tally`) or a map. `new Set` followed by `Array.from`
is `Seqs.Distinct`, which keeps first occurrences in order.

Modules follow the source's structure:

- shared text and number handling: `Text`, `Numbers`, `Seqs`, `Sorting`, `Tally`, `Wrappers`;
- the utilities: `Input`, `Csv`, `Trend`;
- one module per calculator: `Bom`, `Forecast`, `Jsm`, `Saw`, `Basket`, `Profile`, `Markov`.

`computeForecast` (`assets/js/app.js:210-217`) labels the mean of the
`window` values before index `i` as period `i + 1`. For 10, 20, 30, 40, 50
with a window of 3, period 4 is `mean(10,20,30) = 20`, period 5 is
`mean(20,30,40) = 30`, and the first projection is `mean(30,40,50) = 40`
(`Forecast.Example`).

## Model

| member | source | states |
|---|---|---|
| Input.Lines | assets/js/app.js:9-12 | every line handed to a calculator is non-empty and has no surrounding white space |
| Input.LinesIgnoreCarriageReturns | assets/js/app.js:11 | splitting on `\r?\n` and trimming gives the same lines as splitting on line feeds alone and trimming: the optional carriage return never survives |
| Input.LinesJoin | assets/js/app.js:9-12 | lines that are already trimmed, non-empty and free of line feeds come back unchanged after being joined with line feeds and parsed again |
| Input.ValidateInput | assets/js/app.js:25-28 | input is accepted exactly when it has at least `minCount` records; otherwise the message names that minimum |
| Csv.EscapeCell | assets/js/app.js:31 | an exported cell is always wrapped in double quotes |
| Csv.ParseEscapedCell | assets/js/app.js:31 | reading a quoted cell back, with doubled quotes read as one, gives the original text whatever quotes it contains |
| Csv.ParseDocumentRoundTrip | assets/js/app.js:31 | the exported document reads back to exactly the rows exported: the quoting keeps commas, quotes and line feeds inside cells |
| Numbers.JsNumberOfInt | assets/js/app.js:309 | `Number` reads back the decimal text of any integer as that integer |
| Numbers.ParseFloatPrefix | assets/js/app.js:169 | `parseFloat` reads the leading number of text like `2pcs` and ignores the rest |
| Numbers.NumberRejectsSuffix | assets/js/app.js:167 | `Number` gives `NaN` for the same kind of text, so an in-row `qty:2pcs` counts as 0 where a component's `2pcs` counts as 2 |
| Numbers.ReadsExponent | assets/js/app.js:169 | both `Number` and `parseFloat` read an integer followed by an exponent part `e` and a signed integer as the integer times that power of ten |
| Numbers.ExponentThousand | assets/js/app.js:169 | a component quantity written `1e3` is a thousand units |
| Numbers.ExponentNegative | assets/js/app.js:167 | a negative exponent divides: `25e-1` is 2.5 |
| Numbers.ExponentNeedsDigits | assets/js/app.js:167-169 | an `e` without digits after it is not an exponent: `parseFloat` stops before it and `Number` gives `NaN` |
| Trend.ComputeTrend | assets/js/app.js:89-99 | the percentage is never negative; a zero previous value gives `same`/0 or `up`/100; otherwise the percentage is the change relative to the previous value's magnitude |
| Trend.TrendFollowsChange | assets/js/app.js:96-98 | for a positive previous value the direction is up, down or same exactly when the value rose, fell or stayed, and the percentage is 0 exactly when it stayed |
| Trend.TrendInvertedBelowZero | assets/js/app.js:96-98 | for a negative previous value the direction is inverted: a rise reads as `down` and a fall as `up` |
| Trend.DoublingIsHundredPercent | assets/js/app.js:96-98 | doubling a positive value is `up` by 100 percent |
| Bom.InRowQtyIsLast | assets/js/app.js:161-172 | when a line has several `qty`/`jumlah` segments, the last one wins |
| Bom.ResolveQty | assets/js/app.js:173-176 | a product's quantity is the in-row quantity when non-zero, else the override when non-zero, else 1; it is never 0 |
| Bom.AddOverrides | assets/js/app.js:146-150 | the override line only adds entries, and never under an empty product name |
| Bom.OverrideLastWins | assets/js/app.js:146-150 | the last pair naming a product stores `Number(value) || 0` for it, a missing or non-numeric value storing 0, whatever earlier pairs or the starting map held |
| Bom.OverrideUntouched | assets/js/app.js:146-150 | a product no pair names keeps its entry, or stays absent |
| Bom.ParseProduct | assets/js/app.js:155-177 | a line is skipped exactly when it has fewer than two non-empty fields, and a parsed product's quantity is never 0 |
| Bom.ParseProducts | assets/js/app.js:154-178 | at most one product per line, every one with a non-zero quantity |
| Bom.NeedIsScaled | assets/js/app.js:182-186 | a product's need of a component is its quantity times the summed per-unit quantities of that component |
| Bom.Totals | assets/js/app.js:180-187 | exactly the components some product mentions get a total, and each total is the sum over products of their needs |
| Bom.ComputeBom | assets/js/app.js:143-199 | the product list is the parse of the lines under the override line, and the totals are as above |
| Bom.ExampleTotals | assets/js/app.js:180-187 | two products sharing component X give X the sum of both needs |
| Forecast.PresentSkipsNaN | assets/js/app.js:203 | a value that is not a number is dropped and every other value keeps its place |
| Forecast.PresentKeepsNumber | assets/js/app.js:203 | a numeric value stays in the series, in order |
| Forecast.InSample | assets/js/app.js:210-217 | a period has an in-sample forecast exactly when `window` actual values precede it |
| Forecast.ProjectionRecurrence | assets/js/app.js:219-228 | the projection has one value per future period, and each is the mean of the `window` values before it in the series extended by the earlier projections |
| Forecast.MovingAveragesUnique | assets/js/app.js:219-228 | any sequence satisfying that recurrence is the projection: the recurrence fixes it |
| Forecast.InSampleRows | assets/js/app.js:209-217 | one row per actual value, carrying the period number, the value and its in-sample forecast |
| Forecast.Project | assets/js/app.js:220-228 | the iterative loop over the extended series produces exactly `future` values satisfying the recurrence |
| Forecast.ComputeForecast | assets/js/app.js:202-240 | fails with the short-series message exactly when fewer than `window` numeric values remain; otherwise gives the in-sample rows followed by one row per projected period |
| Forecast.InSampleWithinRange | assets/js/app.js:212-215 | an in-sample forecast lies between the smallest and largest actual value |
| Forecast.ProjectionWithinRange | assets/js/app.js:222-226 | every projected value lies between the smallest and largest actual value |
| Forecast.ConstantSeries | assets/js/app.js:210-228 | a constant series forecasts and projects that constant |
| Forecast.Example | assets/js/app.js:210-228 | on 10, 20, 30, 40, 50 with window 3, the fourth period's forecast is 20, the fifth's is 30 and the first projection is 40 |
| Jsm.ParseJob | assets/js/app.js:248-250 | a line gives a job exactly when it contains a comma; the name is the first field; there is no due date exactly when the third field is missing or empty |
| Jsm.ParseJobsCount | assets/js/app.js:247-251 | when every line has a comma, every line gives a job |
| Jsm.TotalTimeReorder | assets/js/app.js:269-289 | the total processing time does not depend on the order of the jobs |
| Jsm.ScheduleMetrics | assets/js/app.js:269-289 | row `i` is job `i` started at the total time of the jobs before it, completing after its own time, with waiting equal to start, turnaround equal to completion, and lateness `-` |
| Jsm.BackToBack | assets/js/app.js:274-286 | every job starts the moment the previous one completes |
| Jsm.LastCompletion | assets/js/app.js:271-287 | the last job completes at the total processing time |
| Jsm.Spt | assets/js/app.js:258 | the SPT order is a reordering of the jobs with non-decreasing processing times, jobs with equal times kept in input order |
| Jsm.Edd | assets/js/app.js:261-266 | the EDD order is a reordering of the jobs, sorted by the comparator's order, with ties kept in input order |
| Jsm.EddDatedFirst | assets/js/app.js:261-266 | in the EDD order every dated job precedes every undated one, and the dated ones are in date order |
| Jsm.ComputeJsm | assets/js/app.js:245-297 | fails with `Invalid time value` exactly when some due date is not a valid date; otherwise gives the schedules of the input order, the SPT order and the EDD order |
| Jsm.SameMakespan | assets/js/app.js:291-293 | the three heuristics finish the last job at the same time |
| Jsm.ExampleSpt | assets/js/app.js:258 | jobs A (4), B (2) and C (6) run B, A, C and complete at 2, 6 and 12 |
| Saw.ParseWeights | assets/js/app.js:304 | one weight per comma-separated field |
| Saw.ParseAlternative | assets/js/app.js:306-310 | an alternative is named by its first field and its criterion values are the remaining fields read by `Number` |
| Saw.ParseData | assets/js/app.js:305-311 | one alternative per line, every one as wide as the first |
| Saw.ColumnMax | assets/js/app.js:315-317 | the column maximum is some alternative's value and no value exceeds it |
| Saw.ColumnMaxima | assets/js/app.js:314-317 | the loop computes the maximum of every criterion column |
| Saw.ScoreAll | assets/js/app.js:318-321 | each alternative's score is the weighted sum of its values divided by the column maxima, a zero maximum dividing by 1 and a missing weight counting as 0 |
| Saw.ComputeSaw | assets/js/app.js:303-325 | the ranking is a reordering of the scored alternatives, highest score first, with ties in input order |
| Saw.NormalisedWithinUnit | assets/js/app.js:319 | with non-negative values, every normalised value lies in [0, 1], and the column's best value normalises to 1 |
| Saw.Dominance | assets/js/app.js:318-320 | with non-negative weights, an alternative at least as good on every criterion scores at least as high |
| Saw.ScoreBounds | assets/js/app.js:318-320 | with non-negative weights and normalised values in [0, 1], a score lies between 0 and the sum of the weights |
| Saw.ExampleScores | assets/js/app.js:303-322 | two alternatives that are each best on one of two equally weighted criteria both score 0.75 |
| Saw.ExampleTieKeepsOrder | assets/js/app.js:322 | equal scores keep their input order |
| Basket.MakePair | assets/js/app.js:337 | a pair holds the two items, in one order or the other |
| Basket.MakePairOrdered | assets/js/app.js:337 | the items of a pair are in character order, whichever order they were met in |
| Basket.TxPairsCount | assets/js/app.js:334-339 | a transaction with `k` distinct items yields `k(k-1)/2` pairs |
| Basket.TxPairsMembers | assets/js/app.js:334-339 | a transaction yields exactly the pairs of two distinct items it holds |
| Basket.TxPairsUnique | assets/js/app.js:334-339 | a transaction yields each pair once |
| Basket.PairKeysOccurrences | assets/js/app.js:333-341 | a pair is counted once for every transaction that holds it |
| Basket.CountIsSupport | assets/js/app.js:332-341 | the counter lists each pair once, in order of first occurrence, with its support |
| Basket.CountRow | assets/js/app.js:336-339 | the inner loop adds the pairs of item `i` with every later item to the counter |
| Basket.CountRounds | assets/js/app.js:335-340 | the nested loops add every pair of a transaction's distinct items to the counter |
| Basket.CountPairs | assets/js/app.js:332-341 | after all transactions every listed pair's count is its support |
| Basket.ComputeMarketBasket | assets/js/app.js:330-345 | the ranking lists every pair some transaction holds, once, with its support between 1 and the number of transactions, most frequent first, ties in order of first occurrence |
| Basket.AsWrittenKeys | assets/js/app.js:337 | the string key of each pair is its two items joined by a bar |
| Basket.AsWrittenLabel | assets/js/app.js:342 | a key without a bar is shown unchanged |
| Basket.SharedKeyCountedTwice | assets/js/app.js:337-338 | two different pairs of one transaction with the same string key make that key's count reach 2 |
| Basket.AsWrittenKeyCollision | assets/js/app.js:337-338 | in the transaction `a\|b, c, a, b\|c` the key `a\|b\|c` is counted twice |
| Basket.AsWrittenKeyInjective | assets/js/app.js:337 | when the smaller item has no bar, string keys are equal exactly when the pairs are equal |
| Basket.AsWrittenLabelOfKey | assets/js/app.js:342 | when the smaller item has no bar, the shown label is `lo, hi` |
| Basket.AsWrittenAgrees | assets/js/app.js:332-341 | on bar-free transactions the string-keyed counts equal the pair counts of the corrected model |
| Tally.BumpEntries | assets/js/app.js:338 | incrementing a counter raises exactly the entry for that key by one, or appends it with count 1, and keys stay unique |
| Tally.CountKeys | assets/js/app.js:342 | the counter's entries come in order of first occurrence |
| Tally.CountCounts | assets/js/app.js:338 | each entry's count is the number of occurrences of its key |
| Tally.CountListsPresent | assets/js/app.js:338 | a key is listed exactly when it occurred |
| Seqs.DistinctSpec | assets/js/app.js:334 | `Array.from(new Set(s))` holds every element of `s` once, in order of first occurrence |
| Seqs.DistinctOfUnique | assets/js/app.js:334 | a list without duplicates is unchanged by it |
| Sorting.SortBy | assets/js/app.js:322 | the sort is a reordering, sorted by the key, and stable |
| Sorting.StableSortIsUnique | assets/js/app.js:258 | any sorted, stable reordering of the input is the sort's result |
| Profile.Similarity | assets/js/app.js:362 | a similarity is at most 1, and exactly 1 when the score equals the ideal |
| Profile.SimilarityMonotone | assets/js/app.js:362 | a score closer to the ideal has a higher similarity, and conversely |
| Profile.SimilarityUnclamped | assets/js/app.js:362 | a similarity can go below 0 (ideal 1, score 5 gives -3) |
| Profile.Total | assets/js/app.js:363 | a candidate's total is at most 1, and exactly 1 when every score matches the ideal |
| Profile.ResultRows | assets/js/app.js:357-365 | one result per candidate line, in input order |
| Profile.ComputeProfileMatching | assets/js/app.js:353-368 | the ranking is a reordering of the candidates, highest total first, ties in input order |
| Profile.IdealCandidate | assets/js/app.js:362-363 | a candidate whose scores equal the ideal profile totals 1 |
| Profile.IdealRanksFirst | assets/js/app.js:367 | when some candidate totals 1, the ranking starts with a total of 1 |
| Profile.Example | assets/js/app.js:362-363 | against ideal 5, 5, 5 the scores 4, 5, 3 total 0.8 |
| Markov.TokensPerLine | assets/js/app.js:374 | joining the lines with commas and splitting again gives each line's non-empty trimmed fields, line after line |
| Markov.CountMatrix | assets/js/app.js:376-381 | cell `(a, b)` counts the times state `b` directly follows state `a` in the sequence |
| Markov.RowTotalIsDepartures | assets/js/app.js:378-381 | a row's total is the number of times its state occurs before the last position |
| Markov.Normalise | assets/js/app.js:383-386 | a normalised row is all zeros when the row total is 0, and otherwise each probability times the total is the count |
| Markov.NormaliseWithinUnit | assets/js/app.js:385 | every probability lies in [0, 1] |
| Markov.NormaliseSum | assets/js/app.js:383-386 | a normalised row sums to 1, or to 0 when its total is 0 |
| Markov.ComputeMarkov | assets/js/app.js:373-391 | the states are the distinct tokens in order of first occurrence, and each probability row is the normalised transition counts of its state |
| Markov.RowDistribution | assets/js/app.js:383-386 | a state's row sums to 1 exactly when the state occurs before the last token; otherwise the row is all zeros |
| Markov.MatrixTotal | assets/js/app.js:378-381 | the counts of the whole matrix add up to one less than the number of tokens |
| Markov.ExampleStates | assets/js/app.js:375 | two different tokens alternating, as in A, B, A, B, give exactly those two states in order |
| Markov.ExampleRows | assets/js/app.js:373-386 | in A, B, A, B, A always moves to B and B always moves to A |
| Text.JoinSplit | assets/js/app.js:374 | joining the pieces of a split with the separator gives back the text |
| Text.SplitJoin | assets/js/app.js:374 | splitting a join of separator-free pieces gives back the pieces |
| Text.SplitConcat | assets/js/app.js:374 | splitting two texts joined by the separator splits each and concatenates the pieces |
| Text.TrimIdempotent | assets/js/app.js:11 | trimming twice is trimming once |

## Left out

- All numbers are exact reals. IEEE-754 rounding, `Infinity`, and the `toFixed(2)`, `toFixed(3)` and `toFixed(4)` strings of the forecast, Markov, SAW and profile tables are not modelled. The tables carry the exact values.
- Numbers.JsNumber: reads optionally signed decimals with an optional fraction and an optional exponent, surrounded by white space, and blank text as 0. Hexadecimal, binary and octal literals and `Infinity` read as `NaN` in the model, where `Number` accepts them.
- Numbers.ParseFloat: reads the same literals as `Numbers.JsNumber`, as the longest prefix after leading white space. A leading `Infinity` reads as `NaN` in the model, where `parseFloat` accepts it.
- String order compares Dafny characters (Unicode scalar values). The host sorts by UTF-16 code units, which differs only for characters outside the Basic Multilingual Plane.
- Plain-object quirks are not modelled: the `__proto__` key and inherited properties, and `Object.entries` listing integer-like keys first. The BOM totals are a map, so the order of the component table is left out.
- Profile.ComputeProfileMatching: the source sorts on the `toFixed(4)` string of each total, coerced back to a number by the comparator. The model sorts on the exact total, so two totals that round to the same four decimals may rank differently.
- Profile.ComputeProfileMatching: requires at least one line, a numeric ideal line, numeric candidate scores, at least one score per candidate, and no candidate wider than the ideal line. With no lines the source throws (`parsed[0]`). A non-numeric score, a non-numeric ideal value in a column some candidate scores, a candidate wider than the ideal line (`ideal[j]` is `undefined`) or a candidate without scores (0 divided by 0) gives a `NaN` total, whose order the host's sort leaves unspecified. A non-numeric ideal value in a column no candidate reaches leaves the totals finite; the model excludes that input too.
- Saw.ComputeSaw: requires at least one line, numeric criterion values and lines of equal width. With no lines the source throws (`data[0]`). A non-numeric cell gives `NaN` scores. Ragged lines give finite scores: a short line's missing value makes its column's `Math.max` `NaN`, and `colMax[j]||1` then divides that column by 1, while a long line's extra columns are divided by `undefined||1`, that is by 1. The model does not cover these cases.
- Forecast.ComputeForecast: requires a window of at least 1. A window of 0 makes the source divide 0 by 0.
- Jsm.ComputeJsm: `new Date(text)` is the parameter `parseDate`, since host date parsing depends on the platform. The `toISOString().split('T')[0]` text of the due column is kept as the date value.
- Jsm.Edd: the comparator on two invalid dates gives `NaN`. No run that reaches a schedule has one, because printing the date throws first.
- Trend.ComputeTrend: takes numbers. The `Number(x) || 0` coercion of its arguments is `Numbers.OrZero` over `Numbers.JsNumber`, used by the other calculators.
- The narrative step strings, table headers, the `products` breakdown text of the BOM, the `->state` headers of the Markov table and the `lo, hi` labels of the basket table are presentation and are left out. `Basket.Label` gives the label.
- Rendering and the browser are out of scope: `renderTable`, `renderChart`, `showError`, `clearError`, the DOM wiring, and the Blob download of `exportCSV` (its text is `Csv.Document`).

## Findings

| source | as written | input that shows it | evidently intended | confidence | as-written member | corrected member |
|---|---|---|---|---|---|---|
| assets/js/app.js:337-338 | a pair is counted under the string key of its two items joined by a bar | one transaction with the items `a\|b`, `c`, `a`, `b\|c`: the pairs (`a\|b`, `c`) and (`a`, `b\|c`) share the key `a\|b\|c`, which is counted twice | each pair of distinct items is counted once per transaction, under the pair itself | high for items containing a bar, not executed | Basket.AsWrittenKeyCollision | Basket.ComputeMarketBasket |
