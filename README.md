# GDP dashboard series normaliser, in Dafny

This project models the data logic of the Trading Economics GDP dashboard
(`trading-economics-dashboard/src/App.jsx`). The dashboard fetches the GDP
history of one country and turns the raw API records into three parallel
arrays: `dates` (years), `values` (GDP) and `growthRates` (percentage change
from the previous value). It then draws them. The turning-into-arrays step is
`processData`, and it is the core modelled here. It works in four steps:

1. keep the records whose `Country` is truthy;
2. sort them stably by timestamp;
3. take each record's year and value;
4. build the growth rates with a loop that starts from `[0]`.

Next to it sits the `countryMap` label table, built by a `reduce` and read
with an `'Unknown'` fallback.

Modules:

- `Observations` (`observations.dfy`): an API record and the country filter.
- `TimeSort` (`time_sort.dfy`): the stable sort by timestamp. It is written as
  an insertion sort and proved sorted, a permutation and stable. It is also
  proved to be the only result with those properties, so it agrees with any
  stable sort.
- `GrowthRate` (`growth_rate.dfy`): the growth formula under JavaScript
  division, the growth-rate series, and the source's loop as a method.
- `SeriesNormalizer` (`series_normalizer.dfy`): `processData` as a function
  (`Normalize`) and as a method (`ProcessData`), with the lemmas about its
  output.
- `CountryLabels` (`country_labels.dfy`): the picker's list, the `reduce` that
  builds `countryMap`, and the heading's lookup.

Abstractions:

- A record's `DateTime` is an integer timestamp on a total order.
- The calendar year of a timestamp is a function passed in by the caller. It
  stands for `new Date(...).getFullYear()` in the browser's time zone. The
  dates are proved ascending only when that function is monotone.
- `Value` is a real number.
- A growth rate is a `Rate`. It is either `Finite(percent)` or one of the
  non-finite results of dividing by zero: `PosInfinity`, `NegInfinity` or
  `NaN`.

Line 71 returns early only when the payload is empty. A non-empty payload
whose records are all dropped by the filter still reaches the loop on lines
86-90. It therefore gives `dates = []`, `values = []` and
`growthRates = [0]`, so the three arrays then differ in length.
`NormalizeAllDropped` proves exactly this. `NormalizeShape` states the general
lengths: `|growthRates|` is `max(1, |values|)` and not always `|values|`.

`ProcessData` is deterministic. It is a method with no `modifies` clause, so
it changes no state, and its result is fixed by the function `Normalize`.

## Model

| member | source | states |
|---|---|---|
| `Observations.HasCountry` | trading-economics-dashboard/src/App.jsx:75 | The JavaScript truthiness of `item.Country`: a missing or null field and the empty string are falsy, and any non-empty string is truthy. |
| `Observations.Retained` | trading-economics-dashboard/src/App.jsx:74-75 | The filtered records are never more than the input records. |
| `Observations.RetainedCounts` | trading-economics-dashboard/src/App.jsx:75 | A record with a truthy `Country` is kept exactly as often as it occurs in the input. A record with a falsy one is never kept. |
| `Observations.RetainedMembers` | trading-economics-dashboard/src/App.jsx:75 | A record is among the kept ones if and only if it is in the input and names a country. |
| `Observations.RetainedAppend` | trading-economics-dashboard/src/App.jsx:75 | The filter works record by record and keeps input order: filtering `a + b` gives filtered `a` followed by filtered `b`. |
| `Observations.FalsyRecordDropped` | trading-economics-dashboard/src/App.jsx:75 | Inserting a record with a falsy `Country` anywhere in the input leaves the filtered records unchanged. |
| `Observations.NothingRetained` | trading-economics-dashboard/src/App.jsx:75 | When no record names a country, the filter keeps nothing. |
| `TimeSort.Insert` | trading-economics-dashboard/src/App.jsx:76 | One insertion step of the sort adds one record, and that record is in the result. |
| `TimeSort.InsertPermutes` | trading-economics-dashboard/src/App.jsx:76 | Inserting a record adds exactly that record, counted as a multiset. |
| `TimeSort.InsertSorted` | trading-economics-dashboard/src/App.jsx:76 | Inserting a record into a sequence sorted by timestamp keeps it sorted. |
| `TimeSort.SortByTime` | trading-economics-dashboard/src/App.jsx:76 | The sort result is a permutation of its input and is ascending by timestamp. |
| `TimeSort.InsertKeepsTies` | trading-economics-dashboard/src/App.jsx:76 | Among records with equal timestamps, insertion puts the new record first, as if it were prepended. |
| `TimeSort.SortKeepsTies` | trading-economics-dashboard/src/App.jsx:76 | The sort is stable: for each timestamp, the records stamped with it keep their input order. |
| `TimeSort.SortIsStable` | trading-economics-dashboard/src/App.jsx:76 | Stability holds for all timestamps at once. |
| `TimeSort.SortedDeterminedByTies` | trading-economics-dashboard/src/App.jsx:76 | Two ascending sequences whose groups of equal timestamps are the same are equal. |
| `TimeSort.StableSortIsUnique` | trading-economics-dashboard/src/App.jsx:76 | Every sequence that is ascending and keeps input order within equal timestamps equals `SortByTime`. So any stable sort gives this result. |
| `GrowthRate.Growth` | trading-economics-dashboard/src/App.jsx:88 | The line-88 formula under JavaScript division. The result is finite exactly when the previous value is non-zero. It is NaN exactly when both values are zero; otherwise a zero previous value gives ±Infinity. |
| `GrowthRate.GrowthInverse` | trading-economics-dashboard/src/App.jsx:88 | A growth rate is finite if and only if the previous value is non-zero. Growing the previous value by a finite rate gives back the current value. |
| `GrowthRate.GrowthSign` | trading-economics-dashboard/src/App.jsx:88 | For a positive previous value, the rate is positive, zero or negative exactly when the value rises, stays the same or falls. |
| `GrowthRate.GrowthSeries` | trading-economics-dashboard/src/App.jsx:86-90 | The growth list has `max(1, n)` entries for `n` values, and the first is 0. Entry `i >= 1` is the percentage change from value `i-1` to value `i`. |
| `GrowthRate.GrowthRates` | trading-economics-dashboard/src/App.jsx:86-90 | The loop that starts from `[0]` and pushes one rate per later value returns exactly `GrowthSeries(values)`. |
| `GrowthRate.CompoundRecoversValues` | trading-economics-dashboard/src/App.jsx:86-90 | Round trip: if no value except the last is zero, every rate after the first is finite. Compounding the first value by those rates rebuilds every value. |
| `SeriesNormalizer.SortedRecords` | trading-economics-dashboard/src/App.jsx:74-76 | `filteredData` is ascending by timestamp, and it has one entry per record that names a country, never more than the payload. |
| `SeriesNormalizer.Years` | trading-economics-dashboard/src/App.jsx:79-82 | There is one year per sorted record. With a monotone year function and records sorted by timestamp, the years never decrease. |
| `SeriesNormalizer.Values` | trading-economics-dashboard/src/App.jsx:83 | There is one value per sorted record, and every record's `Value` appears among them unchanged. |
| `SeriesNormalizer.Normalize` | trading-economics-dashboard/src/App.jsx:70-93 | The output of `processData`: `dates` and `values` have equal length, no greater than the payload's. `growthRates` is empty exactly when the payload is empty. |
| `SeriesNormalizer.SortedRecordsSpec` | trading-economics-dashboard/src/App.jsx:74-76 | The filtered and sorted records are ascending by timestamp and have the filtered count. They hold each record that names a country as often as the input does, and nothing else. They keep input order among equal timestamps. |
| `SeriesNormalizer.ProcessData` | trading-economics-dashboard/src/App.jsx:70-93 | `processData` (filter, sort, extraction, and the growth loop) returns exactly `Normalize` of its input. It changes no state. |
| `SeriesNormalizer.NormalizeEmptyInput` | trading-economics-dashboard/src/App.jsx:71 | An empty payload gives three empty arrays. |
| `SeriesNormalizer.NormalizeShape` | trading-economics-dashboard/src/App.jsx:79-90 | For a non-empty payload, `dates` and `values` have one entry per kept record. `growthRates` has `max(1, kept)` entries and starts with 0. |
| `SeriesNormalizer.NormalizeAllDropped` | trading-economics-dashboard/src/App.jsx:71-90 | A non-empty payload with no record naming a country gives `[]`, `[]` and `[0]`. |
| `SeriesNormalizer.NormalizeEntry` | trading-economics-dashboard/src/App.jsx:79-83 | `dates[i]` is the year of the i-th sorted record. `values[i]` is its unchanged value. That record names a country and comes from the input. |
| `SeriesNormalizer.NormalizeDatesAscending` | trading-economics-dashboard/src/App.jsx:76-82 | If the year function is monotone, `dates` never decreases. |
| `SeriesNormalizer.NormalizeGrowth` | trading-economics-dashboard/src/App.jsx:86-90 | For `i >= 1`, `growthRates[i]` is the percentage change from `values[i-1]` to `values[i]`. It is non-finite exactly when `values[i-1]` is zero, and it is never clamped or replaced. |
| `SeriesNormalizer.FalsyRecordIgnored` | trading-economics-dashboard/src/App.jsx:74-75 | Adding a record with a falsy `Country` anywhere in a payload that holds other records leaves all three arrays unchanged. |
| `SeriesNormalizer.SortedRecordsUnique` | trading-economics-dashboard/src/App.jsx:74-76 | The sorted records are the only sequence that is ascending by timestamp and keeps the filtered input order among equal timestamps. |
| `SeriesNormalizer.ThreeRecordExample` | trading-economics-dashboard/src/App.jsx:70-93 | Input: Mexico 1961 → 10, Mexico 1960 → 5, and a record without a country. Output: years `[1960, 1961]`, values `[5, 10]`, rates `[0, 100]`. |
| `SeriesNormalizer.ZeroPredecessorExample` | trading-economics-dashboard/src/App.jsx:86-90 | Values `[0, 10]` give the rates `[0, Infinity]` and raise no error. |
| `CountryLabels.LabelMap` | trading-economics-dashboard/src/App.jsx:43-46 | The object the `reduce` builds has no more keys than the list has entries. The last entry's slug maps to its label. |
| `CountryLabels.LabelMapKeys` | trading-economics-dashboard/src/App.jsx:43-46 | The map built by the `reduce` has a key for every slug in the list and for nothing else. |
| `CountryLabels.LabelMapLastWins` | trading-economics-dashboard/src/App.jsx:43-46 | Each slug maps to the label of its last entry in the list. |
| `CountryLabels.BuildCountryMap` | trading-economics-dashboard/src/App.jsx:43-46 | The `reduce` loop, which assigns one key per entry into an empty object, returns `LabelMap` of the list. |
| `CountryLabels.DisplayName` | trading-economics-dashboard/src/App.jsx:185 | The lookup never returns an empty name. It returns either the stored label or `"Unknown"`. |
| `CountryLabels.CountryMapContents` | trading-economics-dashboard/src/App.jsx:37-46 | The dashboard's map holds exactly `mexico`, `sweden`, `new zealand` and `thailand`, each mapped to its label. |
| `CountryLabels.HeadingName` | trading-economics-dashboard/src/App.jsx:185 | The heading shows the label of each offered country, and `"Unknown"` for any other slug. |

## Left out

- The fetch in `useEffect` is left out. This covers the loading and error flags, `console.log` on failure, and the race between superseded requests (App.jsx:47-68). It is network I/O and UI scheduling.
- The API key import and the request URL are left out. They are configuration and a foreign call.
- Chart.js registration, the chart data and option objects, and the JSX rendering are left out. This includes row striping, colour classes and `toFixed(2)` formatting. They are library configuration and presentation.
- The `!gdpData` test on line 71 is only partly modelled. A Dafny sequence cannot be `null` or `undefined`, so only the `length === 0` half is modelled. A payload that is not an array, which would make `.filter` throw, is not modelled either.
- Date parsing and local-time `getFullYear` are replaced by an ordered integer timestamp and a caller-supplied year function. An invalid date, whose `NaN` timestamp makes the sort comparator inconsistent, is not modelled.
- Values are real numbers. IEEE-754 rounding, overflow, `-0` (which would flip the sign of a division by zero) and non-numeric `Value` fields (which give `NaN`) are not modelled.
- The `Country` field is either absent or a string. Non-string truthy or falsy values such as `0` or `false` are not modelled.
- `CountryLabels.DisplayName` does not model keys inherited from JavaScript's object prototype. For example, `countryMap["toString"]` is a function and therefore truthy. The select only ever yields the four listed slugs.
- `opeyemi ogunsanya/test/main.py` is a separate plotting script and is not part of this model.
