/** The analytics request: keep the records of the requested regions, group
    them by region in ascending region order, reduce each group to its four
    metrics and emit one row per group. */
module Aggregation {
  import opened Telemetry
  import opened RegionOrder
  import opened Stats

  /** One output row. The three real metrics are the unrounded values. */
  datatype RegionMetrics = RegionMetrics(
    region: string,
    avgLatency: real,
    p95Latency: real,
    avgUptime: real,
    breaches: nat)

  /** Some record of `rs` belongs to `region`. */
  ghost predicate HasRegion(rs: seq<Record>, region: string)
  {
    exists i :: 0 <= i < |rs| && rs[i].region == region
  }

  /** The records whose region is one of the requested ones, in their original
      order; membership in the request is all that matters. */
  function Filter(rs: seq<Record>, regions: seq<string>): (r: seq<Record>)
    ensures forall x :: x in r <==> x in rs && x.region in regions
    ensures forall x {:trigger multiset(r)[x]} :: multiset(r)[x] == if x.region in regions then multiset(rs)[x] else 0
    ensures |r| <= |rs|
  {
    if rs == [] then []
    else
      assert multiset(rs) == multiset{rs[0]} + multiset(rs[1..]) by {
        assert rs == [rs[0]] + rs[1..];
      }
      (if rs[0].region in regions then [rs[0]] else []) + Filter(rs[1..], regions)
  }

  /** The records of one region, in their original order. */
  function GroupOf(rs: seq<Record>, region: string): (g: seq<Record>)
    ensures forall x :: x in g <==> x in rs && x.region == region
    ensures forall x {:trigger multiset(g)[x]} :: multiset(g)[x] == if x.region == region then multiset(rs)[x] else 0
    ensures |g| <= |rs|
  {
    if rs == [] then []
    else
      assert multiset(rs) == multiset{rs[0]} + multiset(rs[1..]) by {
        assert rs == [rs[0]] + rs[1..];
      }
      (if rs[0].region == region then [rs[0]] else []) + GroupOf(rs[1..], region)
  }

  /** The distinct regions of `rs`, in ascending order: the group keys. */
  function Keys(rs: seq<Record>): (ks: seq<string>)
    ensures StrictlyAscending(ks)
    ensures forall k :: k in ks <==> HasRegion(rs, k)
  {
    if rs == [] then []
    else
      var ks := InsertKey(rs[0].region, Keys(rs[1..]));
      assert forall k :: HasRegion(rs, k) <==> k == rs[0].region || HasRegion(rs[1..], k) by {
        forall k
          ensures HasRegion(rs, k) <==> k == rs[0].region || HasRegion(rs[1..], k)
        {
          if HasRegion(rs[1..], k) {
            var i :| 0 <= i < |rs[1..]| && rs[1..][i].region == k;
            assert rs[i + 1].region == k;
          }
          if HasRegion(rs, k) && k != rs[0].region {
            var i :| 0 <= i < |rs| && rs[i].region == k;
            assert rs[1..][i - 1].region == k;
          }
        }
      }
      ks
  }

  function Latencies(g: seq<Record>): (xs: seq<real>)
    ensures |xs| == |g|
    ensures forall i :: 0 <= i < |g| ==> xs[i] == g[i].latency
  {
    seq(|g|, i requires 0 <= i < |g| => g[i].latency)
  }

  function Uptimes(g: seq<Record>): (xs: seq<real>)
    ensures |xs| == |g|
    ensures forall i :: 0 <= i < |g| ==> xs[i] == g[i].uptime
  {
    seq(|g|, i requires 0 <= i < |g| => g[i].uptime)
  }

  /** The four metrics of one non-empty group. The uptime mean is taken over
      the "uptime_pct" field of the records (see AggregateAsWritten). */
  function Summarize(region: string, g: seq<Record>, threshold: int): RegionMetrics
    requires g != []
  {
    RegionMetrics(
      region,
      Mean(Latencies(g)),
      P95(Latencies(g)),
      Mean(Uptimes(g)),
      Breaches(Latencies(g), threshold))
  }

  lemma GroupOfKeyNonEmpty(rs: seq<Record>, k: string)
    requires k in Keys(rs)
    ensures GroupOf(rs, k) != []
  {
    var i :| 0 <= i < |rs| && rs[i].region == k;
    assert rs[i] in GroupOf(rs, k);
  }

  /** One row per group of the requested records, in ascending region order. */
  function Analytics(data: seq<Record>, regions: seq<string>, threshold: int): seq<RegionMetrics>
  {
    var filtered := Filter(data, regions);
    var ks := Keys(filtered);
    seq(|ks|, i requires 0 <= i < |ks| =>
      GroupOfKeyNonEmpty(filtered, ks[i]);
      Summarize(ks[i], GroupOf(filtered, ks[i]), threshold))
  }

  /** The request handler: group the requested records and append one row per
      group to the result list. The handler reads the embedded dataset
      (Telemetry.Dataset); here the records are a parameter. */
  method Compute(data: seq<Record>, regions: seq<string>, threshold: int) returns (results: seq<RegionMetrics>)
    ensures results == Analytics(data, regions, threshold)
  {
    var filtered := Filter(data, regions);
    var groups := Keys(filtered);
    ghost var rows := Analytics(data, regions, threshold);
    results := [];
    for i := 0 to |groups|
      invariant results == rows[..i]
    {
      GroupOfKeyNonEmpty(filtered, groups[i]);
      var g := GroupOf(filtered, groups[i]);
      results := results + [Summarize(groups[i], g, threshold)];
    }
  }

  /** The handler with the uptime column corrected, over the embedded data.
      The dataset is a constant, so no request changes it and equal requests
      get equal results. As written the handler fails on every request; see
      AggregateAsWritten. */
  method GetAnalytics(regions: seq<string>, threshold: int) returns (results: seq<RegionMetrics>)
    ensures results == Analytics(Dataset, regions, threshold)
  {
    results := Compute(Dataset, regions, threshold);
  }

  function RegionsOf(ms: seq<RegionMetrics>): (ks: seq<string>)
    ensures |ks| == |ms|
    ensures forall i :: 0 <= i < |ms| ==> ks[i] == ms[i].region
  {
    seq(|ms|, i requires 0 <= i < |ms| => ms[i].region)
  }

  /** Filtering then grouping by a requested region gives that region's whole
      group in the data. */
  lemma {:induction false} GroupOfFilter(data: seq<Record>, regions: seq<string>, k: string)
    requires k in regions
    ensures GroupOf(Filter(data, regions), k) == GroupOf(data, k)
  {
    if data != [] {
      GroupOfFilter(data[1..], regions, k);
      var f := Filter(data[1..], regions);
      if data[0].region in regions {
        assert Filter(data, regions) == [data[0]] + f;
        assert ([data[0]] + f)[1..] == f;
      } else {
        assert Filter(data, regions) == f;
      }
    }
  }

  /** The rows are labelled with the group keys of the requested records. */
  lemma AnalyticsKeys(data: seq<Record>, regions: seq<string>, threshold: int)
    ensures RegionsOf(Analytics(data, regions, threshold)) == Keys(Filter(data, regions))
  {
  }

  /** A region has requested records exactly when it is requested and has
      records. */
  lemma FilterHasRegion(data: seq<Record>, regions: seq<string>, k: string)
    ensures HasRegion(Filter(data, regions), k) <==> k in regions && HasRegion(data, k)
  {
    var filtered := Filter(data, regions);
    if HasRegion(filtered, k) {
      var i :| 0 <= i < |filtered| && filtered[i].region == k;
      assert filtered[i] in filtered;
    }
    if k in regions && HasRegion(data, k) {
      var i :| 0 <= i < |data| && data[i].region == k;
      assert data[i] in data;
      var j :| 0 <= j < |filtered| && filtered[j] == data[i];
    }
  }

  /** The rows name exactly the requested regions that have records, each once,
      in strictly ascending order. */
  lemma AnalyticsRegions(data: seq<Record>, regions: seq<string>, threshold: int)
    ensures StrictlyAscending(RegionsOf(Analytics(data, regions, threshold)))
    ensures forall k :: k in RegionsOf(Analytics(data, regions, threshold)) <==> k in regions && HasRegion(data, k)
  {
    AnalyticsKeys(data, regions, threshold);
    forall k
      ensures HasRegion(Filter(data, regions), k) <==> k in regions && HasRegion(data, k)
    {
      FilterHasRegion(data, regions, k);
    }
  }

  /** The region list of the rows is the only strictly ascending list of the
      requested regions that have records. */
  lemma AnalyticsRegionOrderIsUnique(data: seq<Record>, regions: seq<string>, threshold: int, ks: seq<string>)
    requires StrictlyAscending(ks)
    requires forall k :: k in ks <==> k in regions && HasRegion(data, k)
    ensures RegionsOf(Analytics(data, regions, threshold)) == ks
  {
    AnalyticsRegions(data, regions, threshold);
    AscendingUnique(RegionsOf(Analytics(data, regions, threshold)), ks);
  }

  /** The row of a region summarizes every record of that region in the data,
      whatever else was requested. */
  lemma AnalyticsRowIsWholeRegion(data: seq<Record>, regions: seq<string>, threshold: int, i: nat)
    requires i < |Analytics(data, regions, threshold)|
    ensures var m := Analytics(data, regions, threshold)[i];
            GroupOf(data, m.region) != [] &&
            m == Summarize(m.region, GroupOf(data, m.region), threshold)
  {
    AnalyticsRegions(data, regions, threshold);
    var m := Analytics(data, regions, threshold)[i];
    assert m.region in RegionsOf(Analytics(data, regions, threshold));
    GroupOfFilter(data, regions, m.region);
  }

  /** The result is empty exactly when no record belongs to a requested region;
      an empty or unknown request is not an error. */
  lemma AnalyticsEmpty(data: seq<Record>, regions: seq<string>, threshold: int)
    ensures Analytics(data, regions, threshold) == [] <==>
            forall i :: 0 <= i < |data| ==> data[i].region !in regions
  {
    AnalyticsRegions(data, regions, threshold);
    var out := Analytics(data, regions, threshold);
    if out != [] {
      assert out[0].region in RegionsOf(out);
    } else {
      forall i | 0 <= i < |data|
        ensures data[i].region !in regions
      {
        assert data[i].region !in RegionsOf(out);
      }
    }
  }

  lemma {:induction false} FilterSameMembership(data: seq<Record>, r1: seq<string>, r2: seq<string>)
    requires forall k :: k in r1 <==> k in r2
    ensures Filter(data, r1) == Filter(data, r2)
  {
    if data != [] {
      FilterSameMembership(data[1..], r1, r2);
    }
  }

  /** The order of the requested regions and repeats among them do not matter. */
  lemma AnalyticsIgnoresRequestOrder(data: seq<Record>, r1: seq<string>, r2: seq<string>, threshold: int)
    requires forall k :: k in r1 <==> k in r2
    ensures Analytics(data, r1, threshold) == Analytics(data, r2, threshold)
  {
    FilterSameMembership(data, r1, r2);
  }

  /** For one group: the breach count is at most the group size, the means and
      the percentile lie between the group's extremes. */
  lemma SummarizeBounds(region: string, g: seq<Record>, threshold: int)
    requires g != []
    ensures Summarize(region, g, threshold).region == region
    ensures Summarize(region, g, threshold).breaches <= |g|
    ensures Min(Latencies(g)) <= Summarize(region, g, threshold).avgLatency <= Max(Latencies(g))
    ensures Min(Latencies(g)) <= Summarize(region, g, threshold).p95Latency <= Max(Latencies(g))
    ensures Min(Uptimes(g)) <= Summarize(region, g, threshold).avgUptime <= Max(Uptimes(g))
  {
    MeanWithinRange(Latencies(g));
    P95WithinRange(Latencies(g));
    MeanWithinRange(Uptimes(g));
  }

  /** A single-record group reports that record's latency as both mean and
      percentile, its uptime as the mean uptime, and one breach or none. */
  lemma SummarizeSingle(region: string, x: Record, threshold: int)
    ensures Summarize(region, [x], threshold) ==
            RegionMetrics(region, x.latency, x.latency, x.uptime,
                          if x.latency > threshold as real then 1 else 0)
  {
    assert Latencies([x]) == [x.latency];
    assert Uptimes([x]) == [x.uptime];
    MeanSingle(x.latency);
    MeanSingle(x.uptime);
    P95WithinRange([x.latency]);
  }

  /** Raising the threshold keeps the rows and their regions and never raises
      a row's breach count. */
  lemma AnalyticsBreachesAntitone(data: seq<Record>, regions: seq<string>, t1: int, t2: int)
    requires t1 <= t2
    ensures |Analytics(data, regions, t2)| == |Analytics(data, regions, t1)|
    ensures forall i :: 0 <= i < |Analytics(data, regions, t1)| ==>
              Analytics(data, regions, t2)[i].region == Analytics(data, regions, t1)[i].region &&
              Analytics(data, regions, t2)[i].breaches <= Analytics(data, regions, t1)[i].breaches
  {
    var filtered := Filter(data, regions);
    var ks := Keys(filtered);
    forall i | 0 <= i < |ks|
      ensures Analytics(data, regions, t2)[i].breaches <= Analytics(data, regions, t1)[i].breaches
    {
      BreachesAntitone(Latencies(GroupOf(filtered, ks[i])), t1, t2);
    }
  }

  // The named aggregation of the handler reads the uptime from a column called
  // "uptime_percentage", but every record carries it under "uptime_pct". Pandas
  // refuses a named aggregation over a missing column, so as written every
  // request fails; the rest of the model uses the evidently intended column.

  datatype Reduction = MeanOf | P95Of | CountAbove

  /** One named aggregation: output name, input column and reduction. Only the
      input column is consulted here: the outputs and reductions are those of
      Summarize, which computes them once the columns resolve. */
  datatype NamedAgg = NamedAgg(output: string, column: string, reduction: Reduction)

  const AsWrittenAggs: seq<NamedAgg> := [
    NamedAgg("avg_latency", "latency_ms", MeanOf),
    NamedAgg("p95_latency", "latency_ms", P95Of),
    NamedAgg("avg_uptime", "uptime_percentage", MeanOf),
    NamedAgg("breaches", "latency_ms", CountAbove)
  ]

  const IntendedAggs: seq<NamedAgg> := [
    NamedAgg("avg_latency", "latency_ms", MeanOf),
    NamedAgg("p95_latency", "latency_ms", P95Of),
    NamedAgg("avg_uptime", "uptime_pct", MeanOf),
    NamedAgg("breaches", "latency_ms", CountAbove)
  ]

  /** The input column of each named aggregation, in order. */
  function ColumnsRead(aggs: seq<NamedAgg>): (cs: seq<string>)
    ensures |cs| == |aggs|
    ensures forall i :: 0 <= i < |aggs| ==> cs[i] == aggs[i].column
  {
    seq(|aggs|, i requires 0 <= i < |aggs| => aggs[i].column)
  }

  /** The columns the aggregations read that the data does not have, in order. */
  function MissingColumns(aggs: seq<NamedAgg>, columns: set<string>): (missing: seq<string>)
    ensures forall c :: c in missing <==> c in ColumnsRead(aggs) && c !in columns
  {
    if aggs == [] then []
    else
      assert ColumnsRead(aggs) == [aggs[0].column] + ColumnsRead(aggs[1..]);
      (if aggs[0].column in columns then [] else [aggs[0].column]) + MissingColumns(aggs[1..], columns)
  }

  datatype Response = Rows(rows: seq<RegionMetrics>) | MissingColumn(columns: seq<string>)

  /** The handler with its column lookups: a named aggregation over a column
      the data lacks fails before any row is produced. Only the column lookup
      is modelled here; the rows themselves come from Analytics. */
  function AggregateWith(aggs: seq<NamedAgg>, data: seq<Record>, regions: seq<string>, threshold: int): Response
  {
    var missing := MissingColumns(aggs, Columns);
    if missing != [] then MissingColumn(missing) else Rows(Analytics(data, regions, threshold))
  }

  lemma AsWrittenMissing()
    ensures MissingColumns(AsWrittenAggs, Columns) == ["uptime_percentage"]
  {
    var a := AsWrittenAggs;
    assert "latency_ms" in Columns && "uptime_percentage" !in Columns;
    assert MissingColumns(a[3..], Columns) == [] by {
      assert a[3..][1..] == [];
    }
    assert MissingColumns(a[2..], Columns) == ["uptime_percentage"] by {
      assert a[2..][1..] == a[3..];
    }
    assert MissingColumns(a[1..], Columns) == ["uptime_percentage"] by {
      assert a[1..][1..] == a[2..];
    }
  }

  /** As written, every request fails on the missing "uptime_percentage" column,
      even an empty or unknown one. */
  lemma AggregateAsWritten(data: seq<Record>, regions: seq<string>, threshold: int)
    ensures AggregateWith(AsWrittenAggs, data, regions, threshold) == MissingColumn(["uptime_percentage"])
  {
    AsWrittenMissing();
  }

  /** With the intended column every aggregation resolves and the handler
      returns the rows. */
  lemma AggregateIntended(data: seq<Record>, regions: seq<string>, threshold: int)
    ensures AggregateWith(IntendedAggs, data, regions, threshold) == Rows(Analytics(data, regions, threshold))
  {
  }
}
