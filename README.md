# Latency analytics: a Dafny model

The service keeps 36 telemetry records in memory, twelve each for the regions
`apac`, `emea` and `amer`. Each record has a region, a latency in
milliseconds and an uptime percentage. Its `/analytics` handler takes a list
of regions and an integer latency threshold, and works in four steps:

1. It keeps the records whose region is in the list.
2. It groups them by region, in ascending region order.
3. It reduces each group to four values:
   - the mean latency;
   - the 95th-percentile latency, by linear interpolation;
   - the mean uptime;
   - the number of latencies strictly above the threshold (the breaches).
4. It returns one row per group.

As written, the uptime mean reads a column named "uptime_percentage"
(api/latency.py:313). No record has that key; they store the uptime under
"uptime_pct". pandas checks the columns a named aggregation reads before it
looks at any row, so every request fails, an empty one included. The model
follows the evident intent, the "uptime_pct" column, and keeps the as-written
failure beside it (see Findings).

This project models that handler and proves what its result looks like.

The model has five modules:

- `Telemetry` (`telemetry.dfy`) holds the record type, the column names and
  the embedded records in source order. They are three constant blocks of
  twelve.
- `RegionOrder` (`order.dfy`) holds Python's string order. Strings compare
  code point by code point and a proper prefix comes first. This is the order
  in which pandas' `groupby` emits its keys. It also holds strictly ascending
  key lists, and proves that the ascending arrangement of a set of keys is
  unique.
- `Stats` (`stats.dfy`) holds the reductions over exact reals:
  - the sum, mean, minimum and maximum;
  - an insertion sort proved sorted, value-preserving and unique;
  - the percentile position p = 0.95·(n−1), split into floor, ceiling and
    fraction;
  - the linear-interpolation percentile;
  - the breach count.
- `Aggregation` (`aggregation.dfy`) holds the four steps:
  - `Analytics` is the whole response as a function of the data, the
    requested regions and the threshold;
  - `Compute` is the emit loop proved to build exactly that response;
  - `GetAnalytics` runs `Compute` on the embedded data.

  It also holds the column lookup of the named aggregation (see Findings).
- `Scenarios` (`scenarios.dfy`) holds what the handler returns on the
  embedded data for particular requests.

Floats are modelled as exact reals, and the metrics are the unrounded values.

The twelve apac latencies sum to 2072.17 ms, a mean of 2072.17/12 ≈ 172.68
ms; `Scenarios.ApacAt150` states the exact value.

## Model

| member | source | states |
|---|---|---|
| Telemetry.Dataset | api/latency.py:11-266 | the embedded records in source order, as three blocks of twelve (apac, emea, amer) with their region, latency and uptime |
| RegionOrder.Before | api/latency.py:310 | Python's string order: code point by code point from the left, a proper prefix first |
| Stats.Mean | api/latency.py:311 | the sum of a non-empty group's values divided by their count |
| Stats.Sort | api/latency.py:304-307 | the values in ascending order, by insertion; SortSorted and SortIsUnique state what it gives |
| Stats.P95 | api/latency.py:304-307 | the linear-interpolation percentile of the values taken in sorted order |
| Aggregation.Summarize | api/latency.py:310-315 | the four metrics of a non-empty group: mean latency, percentile latency, mean uptime and the breach count |
| Aggregation.Analytics | api/latency.py:297-326 | one Summarize row per ascending key of the filtered records, over that key's group |
| Aggregation.AggregateWith | api/latency.py:310-315 | the handler with its column lookups: the missing columns if any aggregation reads one the data lacks, else the rows of Analytics |
| Aggregation.Filter | api/latency.py:297 | a record is kept exactly when it is in the data and its region is one of the requested ones, as often as the data holds it; never more records than the data |
| Aggregation.GroupOf | api/latency.py:310 | a region's group holds exactly the records of that region, each as often as the data holds it |
| Aggregation.Keys | api/latency.py:310 | the group keys are strictly ascending in string order, and a key is present exactly when some record has that region |
| RegionOrder.InsertKey | api/latency.py:310 | adding a key to an ascending key list keeps it strictly ascending and adds exactly that key |
| RegionOrder.BeforeTotal | api/latency.py:310 | any two distinct region names are ordered one way or the other |
| RegionOrder.BeforeTransitive | api/latency.py:310 | the region order is transitive |
| RegionOrder.BeforeIrreflexive | api/latency.py:310 | no region name sorts before itself |
| RegionOrder.AscendingUnique | api/latency.py:310 | two strictly ascending key lists with the same keys are equal, so the emitted order is determined |
| Aggregation.Compute | api/latency.py:318-326 | the loop that appends one row per group returns exactly the rows of `Analytics`, in group order |
| Aggregation.GetAnalytics | api/latency.py:287-328 | the handler with the uptime column corrected: over the embedded constant data it returns the rows of `Analytics` over that data, so equal requests get equal results and no request alters the data |
| Aggregation.AnalyticsRegions | api/latency.py:310-326 | the rows name exactly the requested regions that have records, each once, in strictly ascending order |
| Aggregation.AnalyticsRegionOrderIsUnique | api/latency.py:310-326 | any strictly ascending list of the requested regions with records is the rows' region list |
| Aggregation.AnalyticsRowIsWholeRegion | api/latency.py:297-315 | each row summarizes every record of its region in the data, not only part of it |
| Aggregation.GroupOfFilter | api/latency.py:297-310 | filtering then grouping by a requested region gives that region's whole group |
| Aggregation.AnalyticsEmpty | api/latency.py:297-328 | the result is empty exactly when no record's region was requested, so an empty or unknown request is not an error |
| Aggregation.AnalyticsIgnoresRequestOrder | api/latency.py:297 | two requests with the same regions give the same result, whatever their order or repeats |
| Aggregation.FilterSameMembership | api/latency.py:297 | the filter depends only on which regions are requested |
| Aggregation.SummarizeBounds | api/latency.py:310-315 | a row keeps its region; breaches are at most the group size; mean latency, percentile and mean uptime lie between the group's extremes |
| Aggregation.SummarizeSingle | api/latency.py:310-315 | a one-record group reports its latency as both mean and percentile, its uptime as mean uptime, and one breach or none |
| Aggregation.AnalyticsBreachesAntitone | api/latency.py:300-302 | raising the threshold keeps the rows and their regions and never raises any row's breach count |
| Stats.Min | api/latency.py:311 | a reference function, not computed by the handler, used to bound the means and the percentile: the minimum is one of the values and at most every value |
| Stats.Max | api/latency.py:311 | a reference function, not computed by the handler, used to bound the means and the percentile: the maximum is one of the values and at least every value |
| Stats.MeanBounds | api/latency.py:311 | the mean (sum over count) lies within any bounds on all values |
| Stats.MeanWithinRange | api/latency.py:311 | the mean lies between the group minimum and maximum |
| Stats.MeanSingle | api/latency.py:311 | the mean of one value is that value |
| Stats.SumBounds | api/latency.py:311 | n values within [lo, hi] sum to between n·lo and n·hi |
| Stats.InsertSorted | api/latency.py:304-307 | inserting into sorted values keeps them sorted and adds the value once |
| Stats.InsertMultiset | api/latency.py:304-307 | inserting adds the value once and keeps every other value |
| Stats.SortMultiset | api/latency.py:304-307 | sorting keeps every value exactly as often as the input has it |
| Stats.SortSorted | api/latency.py:304-307 | sorting gives sorted values that are a permutation of the input |
| Stats.SortedUnique | api/latency.py:304-307 | two sorted arrangements of the same values are equal |
| Stats.SortIsUnique | api/latency.py:304-307 | any sorted permutation of the values is their sort |
| Stats.P95Rank | api/latency.py:304-307 | for n values, floor plus fraction is exactly 0.95·(n−1); the fraction is in [0, 1); the ceiling rank is within one of the position; both ranks are valid indices |
| Stats.LinearP95 | api/latency.py:304-307 | the interpolated percentile of sorted values lies between the values at the floor and ceiling ranks, hence between the first and last value, and is the value itself for one value |
| Stats.P95WithinRange | api/latency.py:304-307 | the percentile of a group lies between its minimum and maximum, and is the latency itself for one record |
| Stats.P95IgnoresOrder | api/latency.py:304-307 | the percentile depends only on the values, not their order |
| Stats.TopTwoOfSorted | api/latency.py:304-307 | if one value is largest and occurs once and another is largest of the rest, the sorted values end with those two |
| Stats.P95OfTwelve | api/latency.py:304-307 | for twelve values the percentile lies 0.45 of the way from the second largest to the largest |
| Stats.Breaches | api/latency.py:300-302 | the breach count is at most the number of values |
| Stats.BreachesAntitone | api/latency.py:300-302 | a higher threshold never gives more breaches |
| Stats.BreachesAll | api/latency.py:300-302 | every value counts exactly when every value is strictly above the threshold |
| Stats.BreachesNone | api/latency.py:300-302 | no value counts exactly when no value is strictly above the threshold |
| Scenarios.BlockRegions | api/latency.py:13-264 | the data is three blocks of twelve records, for apac, emea and amer in that order |
| Scenarios.DatasetGroup | api/latency.py:13-264 | a region's group in the data is its block, and any other region has none |
| Scenarios.DatasetHasRegion | api/latency.py:13-264 | a region has records exactly when it is apac, emea or amer |
| Scenarios.UnknownRegionsOnly | api/latency.py:297-328 | a request naming none of the three regions gets an empty result |
| Scenarios.NoRegionsRequested | api/latency.py:297-328 | an empty request gets an empty result |
| Scenarios.UnknownRegionRequested | api/latency.py:297-328 | a request for "unknown_region" at 100 ms gets an empty result |
| Scenarios.RegionGroupLow | api/latency.py:13-264 | each region has twelve records, all above 102 ms |
| Scenarios.AllRegionsOrder | api/latency.py:310-326 | requesting apac, emea and amer gives rows in the order amer, apac, emea |
| Scenarios.AllRegionsLowThreshold | api/latency.py:300-302 | at any threshold up to 102 ms (0 included) there are three rows, each with twelve breaches |
| Scenarios.SingleRegionRequest | api/latency.py:297-326 | requesting one of the three regions gives one row, summarizing that region's whole block |
| Scenarios.ApacColumns | api/latency.py:13-96 | the apac latency and uptime columns, in record order |
| Scenarios.ApacLatencySum | api/latency.py:13-96 | the apac latencies sum to 2072.17 |
| Scenarios.ApacUptimeSum | api/latency.py:13-96 | the apac uptimes sum to 1178.147 |
| Scenarios.ApacBreachesAt150 | api/latency.py:300-302 | eight apac latencies exceed 150 ms |
| Scenarios.ApacTopLatencies | api/latency.py:13-96 | 229.55 ms is the largest apac latency, once, and 209.93 ms is the largest of the rest |
| Scenarios.ApacP95 | api/latency.py:304-307 | the apac percentile is 218.759 ms |
| Scenarios.ApacSummaryAt150 | api/latency.py:310-315 | the apac group at 150 ms: mean latency 2072.17/12, percentile 218.759, mean uptime 1178.147/12, eight breaches |
| Scenarios.ApacAt150 | api/latency.py:297-326 | requesting apac alone at 150 ms gives exactly that one row |
| Aggregation.MissingColumns | api/latency.py:310-315 | a column is reported missing exactly when an aggregation reads it and the data lacks it |
| Aggregation.AsWrittenMissing | api/latency.py:313 | of the aggregations as written, only "uptime_percentage" is missing from the data |
| Aggregation.AggregateAsWritten | api/latency.py:310-315 | as written, every request fails on the missing "uptime_percentage" column, even an empty one |
| Aggregation.AggregateIntended | api/latency.py:310-315 | with the "uptime_pct" column every aggregation resolves and the handler returns the rows of `Analytics` |

## Left out

- Rounding to two decimals (api/latency.py:322-324) is not modelled. The rows
  carry the exact values, because Python's `round` on binary floats depends on
  IEEE-754 representation.
- Latencies, uptimes and all arithmetic are exact reals, not 64-bit floats, so
  float rounding error is not modelled.
- JSON parsing of the embedded text (api/latency.py:287) is left out. The records
  are written out as constants in source order.
- Only the region, latency and uptime fields are kept. The handler never reads
  `service` or `timestamp`, but the column set still lists them.
- The web application, the `/analytics` and `/` routes, the health check
  (api/latency.py:269, 292, 331-333), CORS set-up (api/latency.py:278-284) and
  request validation (api/latency.py:272-274) are left out. The request is taken
  as already valid: a list of strings and an integer.
- The data frame copy (api/latency.py:297) has no counterpart. The data is an
  immutable sequence.
- Aggregation.Compute: takes the records as a parameter rather than reading the
  module-level frame. `Aggregation.GetAnalytics` passes it the embedded data.

## Findings

| source | as written | input that shows it | evidently intended | confidence | as-written member | corrected member |
|---|---|---|---|---|---|---|
| api/latency.py:313 | the mean uptime is read from the column "uptime_percentage", but every record stores it under "uptime_pct" (e.g. api/latency.py:17), so pandas rejects the aggregation | any request, e.g. regions ["apac"], threshold 150 | the mean of the "uptime_pct" column | high; not executed | Aggregation.AggregateAsWritten | Aggregation.AggregateIntended |
