# covid19-map case aggregation, in Dafny

This project models the data preparation code behind the two COVID-19
heatmaps of covid19-map. Both heatmaps start from the positive-case GeoJSON
features of Ontario.

* **Spatial aggregator** (`app.js`). It collects the distinct GPS
  coordinates of the features and starts each one at a count of 0. It then
  adds 1 to the count of each feature's coordinate. Finally it lists the
  table as `[longitude, latitude, count]` triples.
* **Spatio-temporal aggregator** (`javascript/app.js`). It collects the
  distinct coordinates and the distinct *effective* dates. A feature's
  effective date is its `Case_Reported_Date` when that is truthy, and its
  `Test_Reported_Date` otherwise. The aggregator zeroes a dense table over
  every coordinate × every date, adds 1 to one cell per feature, and lists
  every cell, zero cells included, as a
  `{timestamp, longitude, latitude, numberCases}` record.
* **Time range and filter** (`javascript/app.js`). `getTimeRange` reduces
  the records to a `[min, max]` timestamp range. Its starting value is
  `[Infinity, -Infinity]`. The active filter is the user's filter if one is
  set, and otherwise the whole range. The soft range is the part of the
  filter lying between 10% and 90% of the way across it.

Modules, one per file:

* `Wrappers` (`wrappers.dfy`): `Option`, standing for JavaScript's `null`.
* `Counting` (`counting.dfy`):
  * `Distinct` is the first-occurrence order that `Array.from(new Set(…))`
    produces.
  * `Occurrences` counts how many features map to a key.
  * Lemmas about sums of counts and permutations of the input.
* `Cases` (`cases.dfy`): features, coordinates and dates, plus the
  coordinate key set.
* `SpatialAggregator` (`spatial.dfy`): `app.js`.
* `TemporalAggregator` (`temporal.dfy`): `javascript/app.js` lines 17-55.
* `TimeFilter` (`time_filter.dfy`): `javascript/app.js` lines 83-96, 119-120
  and 133-137.

Each loop in the source becomes a `method` with a loop and invariants. A
method that builds a table returns the new `map`. The top-level `Aggregate`
methods chain the steps and are proved against the `Tabulates` predicates
and `Occurrences`:

* every table cell is the number of features with that key;
* every cell is listed exactly once;
* the counts add up to the number of features.

## Model

| member | source | states |
|---|---|---|
| Counting.Distinct | app.js:16 | the `Set` of keys has no duplicates, holds exactly the keys that occur, and is no longer than its input |
| Counting.OccurrencesPositive | app.js:16 | a key has a positive count exactly when some feature carries it |
| Counting.OccurrencesAppend | app.js:24-26 | counting over two concatenated feature lists gives the sum of the two counts |
| Counting.OccurrencesPermutation | javascript/app.js:33-39 | the number of features with a key does not depend on the order of the features |
| Counting.SumOfDistinctKeys | app.js:24-26 | over duplicate-free keys, the sum of the per-key counts is the number of features whose key is among them |
| Counting.SumOverUniverse | javascript/app.js:33-39 | when the duplicate-free keys include every feature's key, the per-key counts add up to the number of features |
| Counting.NoDupCardinality | app.js:29-34 | a duplicate-free key list has as many elements as the set of its keys, so one entry per table key |
| Cases.CoordinateSet | app.js:16 | the coordinate keys are duplicate-free, are exactly the coordinates of some feature, and number at most the features |
| SpatialAggregator.InitCounts | app.js:19-22 | the table's keys are exactly the distinct coordinates, each mapped to 0 |
| SpatialAggregator.CountCases | app.js:24-26 | the key set is unchanged, and each key's count grows by the number of features at that coordinate |
| SpatialAggregator.Flatten | app.js:29-34 | one triple per table key, as many as there are keys, each with that key's position and count |
| SpatialAggregator.TotalOfCounts | app.js:29-34 | the counts in the triples sum to the per-key feature counts summed over the keys |
| SpatialAggregator.ObservedLocationsHaveCases | app.js:16 | every coordinate in the key set has at least one case |
| SpatialAggregator.TabulationOfObservedLocations | app.js:16-34 | over the observed coordinates, every count is at least 1, the list is empty exactly when there are no features, and the counts add up to the number of features |
| SpatialAggregator.Aggregate | app.js:16-34 | one triple per distinct coordinate, in key-set order, whose count is the number of features there; every count is at least 1; the output is empty iff the input is; the counts sum to the number of features |
| SpatialAggregator.CountsIgnoreFeatureOrder | app.js:24-26 | reordering the features changes neither any coordinate's count nor the key set |
| TemporalAggregator.CountingDateIsEffectiveDate | javascript/app.js:19-21 | the date used to count a case (the `!Case_Reported_Date` branch) is the same as the date put in the date key set |
| TemporalAggregator.DateKeys | javascript/app.js:19-21 | the date keys are duplicate-free, are exactly the effective dates that occur, and number at most the features |
| TemporalAggregator.Cells | javascript/app.js:26-31 | the cross product has exactly \|coordinates\| × \|dates\| cells, and a cell is in it iff its coordinate and its date are keys |
| TemporalAggregator.CellsNoDup | javascript/app.js:26-31 | over duplicate-free coordinates and dates, no cell appears twice |
| TemporalAggregator.InitTable | javascript/app.js:25-31 | the table holds exactly the coordinates × dates grid, every cell 0 |
| TemporalAggregator.IncrementCell | javascript/app.js:35 | one `+= 1` keeps both key levels and raises exactly that one cell by 1 |
| TemporalAggregator.CountCases | javascript/app.js:33-39 | neither level of keys changes, and each cell grows by the number of features with its coordinate and effective date |
| TemporalAggregator.ListsAppend | javascript/app.js:53 | pushing the record of the next cell extends the listing by that cell |
| TemporalAggregator.Flatten | javascript/app.js:44-55 | one record per grid cell in coordinate-major order, \|coordinates\| × \|dates\| of them, each carrying its date's timestamp, its coordinate and its cell's count |
| TemporalAggregator.TotalOfCounts | javascript/app.js:44-55 | the records' `numberCases` sum to the per-cell feature counts summed over the cells |
| TemporalAggregator.CasesFallInGrid | javascript/app.js:18-21 | every feature's coordinate and effective date is a cell of the grid |
| TemporalAggregator.TabulationOfObservedCells | javascript/app.js:18-55 | over the observed grid, the records are empty exactly when there are no features, and their counts add up to the number of features |
| TemporalAggregator.CountingHitsGrid | javascript/app.js:33-38 | on the initialised grid, every increment hits an existing cell, so the table never gains keys |
| TemporalAggregator.CountedGrid | javascript/app.js:25-39 | after counting, the table is still the grid, and each cell is the number of features with that coordinate and effective date |
| TemporalAggregator.ListingOfCounts | javascript/app.js:47-52 | listing a table of per-cell counts gives records whose `numberCases` is the cell's count of features |
| TemporalAggregator.Aggregate | javascript/app.js:17-55 | one record per coordinate × date cell, zero cells included, \|coordinates\| × \|dates\| of them; each record's timestamp is `ts` of the date and its count is the number of features in that cell; empty iff there are no features; the counts sum to the number of features |
| TemporalAggregator.CellCountsIgnoreFeatureOrder | javascript/app.js:33-39 | reordering the features changes no cell's count |
| TimeFilter.Min | javascript/app.js:90 | `Math.min` returns one of its arguments, and that argument is no greater than either |
| TimeFilter.Max | javascript/app.js:91 | `Math.max` returns one of its arguments, and that argument is no smaller than either |
| TimeFilter.GetTimeRange | javascript/app.js:83-96 | on no records it returns `[Infinity, -Infinity]`; otherwise it returns finite bounds with lo ≤ hi that enclose every timestamp, and each bound is some record's timestamp |
| TimeFilter.TimeRangeUnique | javascript/app.js:83-96 | these conditions determine the range uniquely |
| TimeFilter.SoftRange | javascript/app.js:134-137 | a soft range exists iff both filter bounds are finite; its lower end sits a tenth of the width above lo, and its upper end a tenth below hi; when lo ≤ hi, lo ≤ soft lo ≤ soft hi ≤ hi |
| TimeFilter.ActiveFilterChoice | javascript/app.js:119-120 | a user filter wins; without one, the filter is the time range, which encloses every record and contains a soft range when there are records; on no records there is no soft range |
| TimeFilter.ObservedDateListed | javascript/app.js:44-55 | every observed date has a record with its timestamp, since each date has a cell in the dense listing |
| TimeFilter.ListedDateObserved | javascript/app.js:44-55 | every record's timestamp is `ts` of some observed date |
| TimeFilter.TimeRangeOfAggregate | javascript/app.js:83-96 | on aggregated records, the range is finite, encloses the timestamp of every observed date, and runs from the timestamp of one observed date to that of another |

## Left out

- React, DeckGL, `HeatmapLayer`, `StaticMap`, `RangeInput` and the `DataFilterExtension` set-up: these are rendering and third-party UI code.
- The synchronous `$.getJSON` load and the `\bNaN\b` → `null` rewrite: I/O and regular expressions. The model starts from the parsed features.
- ``new Date(`${time} UTC`).getTime()``: a parameter `ts` of type `DateValue -> int` stands for it. `formatLabel` and `getTooltip` are Date-library formatting and are not modelled. So a date string that parses to `NaN` is not modelled either.
- `toString()`, `split(",")` and `parseFloat` on coordinates: a coordinate is modelled as a pair of reals that serves as its own key. So keys that would collide after `toString` (`-0` and `0`), and coordinates with other than two elements, are not modelled.
- JavaScript's coercion of property keys: a missing date is the one value `Missing`. JavaScript stringifies `null` and `undefined` to different keys, and also makes them equal to the text `"null"` and `"undefined"`.
- The `for…in` enumeration order of the tables: `Flatten` takes a duplicate-free order that covers the keys. `Aggregate` passes the key-set order, the order the keys were inserted in.
- SpatialAggregator.CountCases: requires every feature's coordinate to be a key of the table. On a missing key the JavaScript would store `undefined + 1`, which is `NaN`. `SpatialAggregator.Aggregate` proves the requirement holds for the table it builds.
- TemporalAggregator.CountCases: requires every feature's cell to be in the table. On a missing coordinate the JavaScript would throw, and on a missing date it would store `NaN`. `TemporalAggregator.CountingHitsGrid` proves the requirement holds for the grid `Aggregate` builds.
- `getTimeRange`'s `!data` → `null` branch: it is unreachable, because `data` is always an array.
- Malformed features: the source has no guard against a feature without geometry or properties, and neither does the model. Each feature is assumed to have coordinates and two (possibly missing) dates.
- TimeFilter.GetTimeRange: timestamps are integers, so the model has no `NaN`. A feature with no truthy date gets a missing effective date, whose key is the text `"null"` or `"undefined"`. `new Date("null UTC").getTime()` is `NaN`, and `Math.min`/`Math.max` pass a `NaN` on. So on such data the source's range is `[NaN, NaN]` and its soft range `NaN`. The model instead gives `ts(Missing)` an integer and proves finite bounds.
- TimeFilter.TimeRangeOfAggregate: states finite bounds under the same assumption that `ts` never yields `NaN`, which fails in the source when some feature has no truthy date.
- TimeFilter.SoftRange: returns no soft range when a bound is infinite. JavaScript gives `NaN`, or an infinity, in that case. The blend uses exact real arithmetic, not IEEE-754 doubles.
- `python/map_generator.py`: it only reads a CSV with pandas and hands it to pydeck, with no logic of its own.
