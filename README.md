# Video game sales explorer: the statistics engine

The explorer page keeps one loaded dataset, `gameData`: an array of records, each mapping column names to cell values. It offers six actions over that dataset: overview, missing values, statistical summary, charts, CSV export and JSON export. This project models what those actions compute before anything is drawn or downloaded, and it proves the properties the page relies on.

- `values.dfy`:
  - module `Wrappers`: an `Option` type.
  - module `JsValues`:
    - the cell value type (`Undefined | Null | Num | Str | Bool`);
    - the JavaScript coercions the page uses: truthiness, `isNaN`, `=== null/undefined/''` and `> 0`;
    - records (an ordered list of key/value cells with unique keys), tables and columns;
    - one `Filter` that models every `Array.prototype.filter`, with its order, multiset and length lemmas.
- `missing.dfy`, module `MissingValues`: the missing-value count per column of the first record.
- `numeric.dfy`, module `NumericStats`:
  - which values a numeric column keeps (`!isNaN`);
  - sum, min, max and mean;
  - `calculateMedian` (sort a copy, take the middle);
  - `calculateStd`, modelled by the population variance it is the square root of;
  - the per-column summary and the loop that fills the `numericStats` object.
- `categories.dfy`, module `Categories`:
  - the counting loop over truthy values, as an imperative method with a map accumulator and a key order;
  - the reference tally it is proved equal to;
  - the stable sort by descending count and the cut to ten;
  - `countCategories` and the loop that fills `categoricalStats`.
- `explorer.dfy`, module `Explorer`:
  - the page as a class `Session` holding `gameData`;
  - the load callback that replaces the table;
  - each action, with its "no data loaded" guard;
  - the overview shape, the histogram input and a worked three-record example.

Numbers are exact reals. Cells are values, and a computation that the page writes as a chain of array methods is a function with lemmas. Where the page mutates an accumulator in a `forEach`, the model is a method with a loop:
- `missingCounts` in `CountMissing`;
- `numericStats` in `SummarizeNumeric`;
- `counts` in `TallyColumn`;
- `categoricalStats` in `CategoricalStats`.

Each of these methods is proved equal to a specification function, and the properties are proved about that function.

Two consequences of the code as written are kept in the model:
- JavaScript's `isNaN(null)` and `isNaN('')` are both false. Null and empty cells therefore pass the filter at app.js:107. Null enters the numeric summary as 0. The model also counts `''` as 0, which matches JavaScript only in `Math.min` and `Math.max`; see "## Left out" for the sums. For the table in `Explorer.ThreeRecordsMean` (sales 1.5, 2 and null), the mean is 3.5 / 3, not 1.75.
- Truthiness counts numeric `0`, `false` and `''` as no category. `MissingValues.MissingCountBounds` shows that numeric cells, including 0, are never counted as missing.

## Model

| member | source | states |
|---|---|---|
| JsValues.ToNumber | app.js:107 | The coercion `isNaN` applies: a number is itself, null and the empty string are 0, undefined is NaN. |
| JsValues.AllSpaceIsZero | app.js:107 | A string of white space only coerces to 0, so `isNaN` is false for it. |
| JsValues.DecimalExample | app.js:107 | The string "12.5" coerces to 12.5. |
| JsValues.SignedExample | app.js:107 | Surrounding white space is ignored and a leading minus negates: " -3 " coerces to -3. |
| JsValues.FractionExample | app.js:107 | ".5" coerces to 0.5. |
| JsValues.NaNExamples | app.js:107 | "PS4", ".", "-" and undefined are NaN. Null, '' and false are not. |
| JsValues.Truthy | app.js:124 | Definition: `if (row[col])` takes the branch for every value except undefined, null, 0, '' and false. |
| JsValues.IsMissing | app.js:62 | Definition: `v` is strictly equal to null, to undefined or to ''. |
| JsValues.IsNaN | app.js:107 | Definition: the global `isNaN` coerces its argument with ToNumber and tests for NaN. |
| JsValues.IsPositive | app.js:196 | Definition: `v > 0` coerces `v` with ToNumber and is false for NaN. |
| JsValues.Keys | app.js:46 | `Object.keys(row)`: one key per property of the record, in the record's order. |
| JsValues.Get | app.js:62 | `row[col]` is the value stored under `col`, or undefined when the record has no such key. |
| JsValues.Column | app.js:107 | `gameData.map(row => row[col])` has one entry per record: that record's value under `col`. |
| JsValues.Filter | app.js:61-63 | `Array.prototype.filter` returns no more elements than its input, all of them satisfying the predicate; its order, multiset and length lemmas follow. |
| JsValues.FilterMultiset | app.js:61-63 | `filter` keeps each satisfying element as often as it occurs and drops every other one. |
| JsValues.FilterConcat | app.js:196 | `filter` keeps the order of its input: it distributes over concatenation. |
| JsValues.FilterLength | app.js:61-63 | `filter(...).length` is the number of positions whose element satisfies the predicate. |
| JsValues.FilterKeepsAll | app.js:61-63 | The filtered list is as long as the input exactly when every element satisfies the predicate. |
| MissingValues.MissingCount | app.js:61-63 | A column's missing count is the number of records whose value there is null, undefined or '', and so at most the number of records. |
| MissingValues.MissingCountBounds | app.js:61-63 | The count is 0 exactly when no record's value is missing. It equals the record count exactly when every value is missing. A numeric cell, 0 included, is never counted. |
| MissingValues.CountMissing | app.js:59-64 | The loop gives every key of the first record exactly one entry: the number of records missing a value under that key. |
| NumericStats.Sum | app.js:110 | Definition: `reduce((a, b) => a + b, 0)`, a left fold from 0. |
| NumericStats.Mean | app.js:110 | `sum / values.length`: the mean times the number of values is their sum. |
| NumericStats.SquaredDeviations | app.js:277-279 | Definition: the sum of `Math.pow(val - avg, 2)` over the values. |
| NumericStats.Variance | app.js:276-280 | The square of `calculateStd`: the squared deviations from `Mean`, summed and divided by N. The variance times N is that sum. |
| NumericStats.Min | app.js:113 | `Math.min` of the kept values is one of them and no larger than any of them. |
| NumericStats.Max | app.js:114 | `Math.max` of the kept values is one of them and no smaller than any of them. |
| NumericStats.Sq | app.js:278 | `Math.pow(d, 2)` is never negative. |
| NumericStats.SortAscending | app.js:271 | The sorted copy is in ascending order and is a permutation of the values. |
| NumericStats.SortedUnique | app.js:271 | Two ascending sequences with the same elements are equal, so the sorted copy is determined by the values. |
| NumericStats.Middle | app.js:272-273 | The middle element (odd length) or the mean of the two middle elements (even length) lies between the first and the last element. |
| NumericStats.Median | app.js:270-274 | `calculateMedian` lies between the smallest and the largest value. |
| NumericStats.MedianIgnoresOrder | app.js:270-274 | The median depends only on which values there are, not on their order. |
| NumericStats.MedianOfSorted | app.js:272-273 | On values already in order the median is `s[n/2]` for odd `n` and `(s[n/2-1] + s[n/2]) / 2` for even `n`. |
| NumericStats.MedianOddExample | app.js:270-274 | [1, 2, 3, 4, 5] has median 3. |
| NumericStats.MedianEvenExample | app.js:270-274 | [1, 2, 3, 4] has median 2.5. |
| NumericStats.SumBounds | app.js:110 | If every value lies in [lo, hi], the sum lies in [n·lo, n·hi]. |
| NumericStats.MeanBounds | app.js:110 | The mean `sum / length` lies within any bounds that hold for every value. |
| NumericStats.MeanBetweenMinMax | app.js:110-114 | The mean lies between `Math.min` and `Math.max` of the values. |
| NumericStats.SquaredDeviationsNonNegative | app.js:278-279 | The sum of squared deviations from any centre is never negative. |
| NumericStats.VarianceNonNegative | app.js:276-280 | The square of `calculateStd` is never negative. |
| NumericStats.VarianceOfConstant | app.js:276-280 | When all values are equal, the mean is that value and the deviation is 0. |
| NumericStats.VarianceExample | app.js:276-280 | The divisor is N: [2, 4, 4, 4, 5, 5, 7, 9] has variance 4 (32/8), not 32/7. |
| NumericStats.Summarize | app.js:109-115 | A column's summary has min and max taken from the values and bounding all of them. Median and mean lie between them and the variance is not negative. If min equals max, everything collapses to that value with variance 0. |
| NumericStats.Coerce | app.js:107 | Each kept cell enters the statistics as its numeric coercion, one number per cell. |
| NumericStats.KeptValues | app.js:107 | `gameData.map(row => row[col]).filter(val => !isNaN(val))`, each cell coerced: one value per record whose cell is not NaN. |
| NumericStats.KeptNonEmptyIff | app.js:107-108 | A column has kept values exactly when some record's value under it is not NaN. |
| NumericStats.SummarizeNumeric | app.js:105-117 | `numericStats` holds exactly the declared columns with at least one kept value, each with the summary of its kept values. |
| Categories.Distinct | app.js:124 | The order in which the `counts` object receives its keys lists no value twice. |
| Categories.DistinctMembers | app.js:124 | Every counted value becomes a key and nothing else does. |
| Categories.TruthyValues | app.js:123-124 | The values counted are the truthy cells of the column, at most one per record. |
| Categories.Counts | app.js:122-125 | Definition: the `counts` object after counting a sequence of values, a key set to 1 when first met and raised by one on every later occurrence; `CountsAreMultiplicities` gives its meaning. |
| Categories.Tally | app.js:122-126 | The entries list each distinct truthy value once, in first-insertion order, with its number of occurrences. |
| Categories.CountsAreMultiplicities | app.js:123-125 | After the loop, the keys of `counts` are exactly the values met and each maps to its number of occurrences. |
| Categories.TallyColumn | app.js:122-126 | The counting loop followed by `Object.entries` yields exactly the reference tally of the column's truthy values. |
| Categories.TallyEntries | app.js:124 | Every listed category is a truthy value counted at least once, and no category is listed twice. |
| Categories.TallyTotal | app.js:123-125 | The counts add up to the number of records with a truthy value in the column. |
| Categories.InsertByCount | app.js:127 | Inserting an entry into a list of non-increasing counts keeps the counts non-increasing and adds exactly that entry. |
| Categories.SortByCount | app.js:127 | `.sort((a, b) => b[1] - a[1])` yields non-increasing counts and a permutation of the entries. |
| Categories.SortByCountStable | app.js:127 | The sort is stable: entries with equal counts keep their relative order. |
| Categories.TopCategories | app.js:126-128 | The top list has exactly min(10, number of categories) entries, with non-increasing counts. |
| Categories.TopKeepsLargest | app.js:126-128 | The top list is taken from the entries, keeps all of them when there are at most ten, and every kept count is at least every dropped count. |
| Categories.TopTiesInOrder | app.js:127-128 | Among equal counts, the entries kept are those that came first. |
| Categories.TopCategoryCounts | app.js:122-128 | Every category in a column's top list is a truthy value, listed with its number of occurrences, which is at least 1. |
| Categories.CountCategories | app.js:282-290 | `countCategories(column)` is the top list of the column's tally. |
| Categories.CategoricalStats | app.js:120-130 | `categoricalStats` has one entry per categorical column, each that column's top list. |
| Explorer.OverviewOf | app.js:46-48 | The shape is the record count by the number of keys of the first record. The preview is the first min(5, n) records. |
| Explorer.SalesSeries | app.js:196 | `gameData.map(row => row.Global_Sales).filter(val => val > 0)`: only positive values, at most one per record. |
| Explorer.SalesSeriesContents | app.js:196 | The histogram input holds only values greater than 0, holds each positive sales value as often as it occurs, and has at most one entry per record. |
| Explorer.SalesSeriesInRowOrder | app.js:196 | The histogram input follows record order: a further record appends its sales value exactly when it is positive. |
| Explorer.Session.constructor | app.js:2 | The page starts with no data. |
| Explorer.Session.CompleteLoad | app.js:23-28 | A parse with errors leaves the table as it was; otherwise the parsed records replace it. |
| Explorer.Session.ShowOverview | app.js:38-49 | Nothing is shown exactly when no data is loaded; otherwise the overview of the table is. |
| Explorer.Session.ShowMissingValues | app.js:53-64 | Nothing is shown exactly when no data is loaded. Otherwise every key of the first record is shown with its missing count. |
| Explorer.Session.ShowStatsSummary | app.js:98-130 | Nothing is shown exactly when no data is loaded. Otherwise the numeric summary of every declared column with kept values is shown, with the top list of every categorical column. |
| Explorer.Session.CreateVisualizations | app.js:145-196 | Nothing is shown exactly when no data is loaded. Otherwise the charts get the Platform and Genre top lists and the positive sales values. |
| Explorer.Session.ExportCSV | app.js:233-239 | Nothing is exported exactly when no data is loaded. Otherwise the records are passed on unchanged. |
| Explorer.Session.ExportJSON | app.js:242-250 | Nothing is exported exactly when no data is loaded. Otherwise the record count and the first record's key count are exported. |
| Explorer.LoadThenOverview | app.js:28-48 | After a clean load, the overview is shown exactly when the file held a record, and it reports that many rows. |
| Explorer.ThreeRecordsMissing | app.js:59-64 | In the three-record example the null sales cell is the only missing one. |
| Explorer.ThreeRecordsMean | app.js:107-110 | The null sales cell is kept as 0, so the kept values are [1.5, 2, 0] and the mean is 7/6. |
| Explorer.ThreeRecordsTop | app.js:122-128 | The example's platform top list is PS4 with 2, then Xbox with 1. |

## Left out

- Presentation is not modelled: DOM writes, `alert`, Chart.js charts and `generateTableHTML` build HTML and draw, and compute nothing the model needs.
- `Papa.parse` and `Papa.unparse` are a foreign library. The model takes the parsed records and the error count as inputs to `CompleteLoad`, and `ExportCSV` returns the records handed to the writer.
- The file-picker guard and the read-error callback of `loadData` (app.js:13-16, 31-33) only raise alerts.
- `downloadFile` and the `new Date().toISOString()` timestamp of `exportJSON` are browser I/O and the clock.
- `calculateCorrelations` returns `Math.random()` per column. No correlation is computed, so the correlation chart is not modelled.
- `.toFixed(2)` and `Math.sqrt` are display formatting and floating-point arithmetic. The model uses exact reals and reports the variance that `Std` is the square root of. Floating-point rounding in the sums is not modelled.
- JsValues.ToNumber: coerces strings for a signed decimal literal with surrounding white space. Exponents, `Infinity`, and `0x`/`0o`/`0b` literals are treated as NaN, and no cell holds NaN or ±Infinity.
- NumericStats.Summarize: adds every kept string cell as its number: `''`, white space only (" "), "+5", or a long digit string the loader left as text. At app.js:110 and app.js:277, JavaScript's `+` joins strings once one operand is a string. For the cells [" ", 1], the mean in JavaScript is `"0 1" / 2`, which is NaN; the model gives 0.5. So `min <= mean <= max` holds for the model but not for such columns in the program.
- NumericStats.Median: returns a number. app.js:273 returns the raw middle cell (null for [null, null, 5], where the model gives 0), and for an even length it joins the two middle cells with `+` once either of them is a string (`"3+5" / 2` is NaN where the model gives 4).
- Categories.Tally: a category is identified by its cell value. The conversion of `row[col]` to a property-key string is not modelled, so 1 and "1" (or true and "true") stay separate categories although the object would merge them.
- Categories.Tally: counts a value named like an `Object.prototype` property as an ordinary category. The `counts` object inherits those properties: for "constructor", `counts[key] || 0` reads the inherited function and stores a string, and an assignment to "__proto__" is ignored. `TallyEntries` and `TallyTotal` therefore do not hold for the program on such cells.
- Categories.Tally: the entries come in first-insertion order. `Object.entries` lists integer-like keys first, in ascending order, and that enumeration order is not modelled.
- The conversion of the top list back into an object at app.js:129 and app.js:288 is not modelled. It may reorder integer-like keys again.
