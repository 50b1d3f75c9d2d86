/** What the handler returns for particular requests over the embedded data. */
module Scenarios {
  import opened Telemetry
  import opened RegionOrder
  import opened Stats
  import opened Aggregation

  lemma {:induction false} GroupOfAppend(a: seq<Record>, b: seq<Record>, k: string)
    ensures GroupOf(a + b, k) == GroupOf(a, k) + GroupOf(b, k)
  {
    if a != [] {
      GroupOfAppend(a[1..], b, k);
      assert (a + b)[1..] == a[1..] + b;
    } else {
      assert a + b == b;
    }
  }

  lemma {:induction false} GroupOfUniform(rs: seq<Record>, k: string, r: string)
    requires forall i :: 0 <= i < |rs| ==> rs[i].region == r
    ensures GroupOf(rs, k) == if k == r then rs else []
  {
    if rs != [] {
      GroupOfUniform(rs[1..], k, r);
      assert rs == [rs[0]] + rs[1..];
    }
  }

  lemma BlockRegions()
    ensures forall i :: 0 <= i < |ApacRecords| ==> ApacRecords[i].region == "apac"
    ensures forall i :: 0 <= i < |EmeaRecords| ==> EmeaRecords[i].region == "emea"
    ensures forall i :: 0 <= i < |AmerRecords| ==> AmerRecords[i].region == "amer"
    ensures |ApacRecords| == |EmeaRecords| == |AmerRecords| == 12
  {
  }

  lemma GroupOfThreeBlocks(a: seq<Record>, e: seq<Record>, m: seq<Record>, k: string)
    requires forall i :: 0 <= i < |a| ==> a[i].region == "apac"
    requires forall i :: 0 <= i < |e| ==> e[i].region == "emea"
    requires forall i :: 0 <= i < |m| ==> m[i].region == "amer"
    ensures GroupOf(a + e + m, k) ==
            (if k == "apac" then a else []) +
            (if k == "emea" then e else []) +
            (if k == "amer" then m else [])
  {
    GroupOfAppend(a + e, m, k);
    GroupOfAppend(a, e, k);
    GroupOfUniform(a, k, "apac");
    GroupOfUniform(e, k, "emea");
    GroupOfUniform(m, k, "amer");
  }

  /** A region's group in the data is its block of twelve records, and a
      region outside the three has none. */
  lemma DatasetGroup(k: string)
    ensures GroupOf(Dataset, k) ==
            (if k == "apac" then ApacRecords else []) +
            (if k == "emea" then EmeaRecords else []) +
            (if k == "amer" then AmerRecords else [])
  {
    BlockRegions();
    GroupOfThreeBlocks(ApacRecords, EmeaRecords, AmerRecords, k);
  }

  /** Some record has a region exactly when that region's group is non-empty. */
  lemma HasRegionIffGroup(rs: seq<Record>, k: string)
    ensures HasRegion(rs, k) <==> GroupOf(rs, k) != []
  {
    if HasRegion(rs, k) {
      var i :| 0 <= i < |rs| && rs[i].region == k;
      assert rs[i] in GroupOf(rs, k);
    }
    if GroupOf(rs, k) != [] {
      var x := GroupOf(rs, k)[0];
      assert x in GroupOf(rs, k);
      var i :| 0 <= i < |rs| && rs[i] == x;
    }
  }

  /** A region has records in the data exactly when it is one of the three. */
  lemma DatasetHasRegion(k: string)
    ensures HasRegion(Dataset, k) <==> k == "apac" || k == "emea" || k == "amer"
  {
    DatasetGroup(k);
    BlockRegions();
    HasRegionIffGroup(Dataset, k);
  }

  /** A request naming none of the three regions, the empty request included,
      gets an empty result rather than an error. */
  lemma UnknownRegionsOnly(regions: seq<string>, threshold: int)
    requires forall i :: 0 <= i < |regions| ==> regions[i] != "apac" && regions[i] != "emea" && regions[i] != "amer"
    ensures Analytics(Dataset, regions, threshold) == []
  {
    var out := Analytics(Dataset, regions, threshold);
    AnalyticsRegions(Dataset, regions, threshold);
    if out != [] {
      var k := out[0].region;
      assert k in RegionsOf(out);
      DatasetHasRegion(k);
    }
  }

  lemma NoRegionsRequested(threshold: int)
    ensures Analytics(Dataset, [], threshold) == []
  {
    UnknownRegionsOnly([], threshold);
  }

  lemma UnknownRegionRequested()
    ensures Analytics(Dataset, ["unknown_region"], 100) == []
  {
    UnknownRegionsOnly(["unknown_region"], 100);
  }

  lemma BlockLatencies()
    ensures forall i :: 0 <= i < |ApacRecords| ==> ApacRecords[i].latency > 102.0
    ensures forall i :: 0 <= i < |EmeaRecords| ==> EmeaRecords[i].latency > 102.0
    ensures forall i :: 0 <= i < |AmerRecords| ==> AmerRecords[i].latency > 102.0
  {
  }

  lemma {:induction false} GroupBreachesLow(g: seq<Record>, threshold: int)
    requires threshold <= 102
    requires forall i :: 0 <= i < |g| ==> g[i].latency > 102.0
    ensures Breaches(Latencies(g), threshold) == |g|
  {
    BreachesAll(Latencies(g), threshold);
  }

  lemma ThreeBlocksLow(a: seq<Record>, e: seq<Record>, m: seq<Record>, k: string)
    requires forall i :: 0 <= i < |a| ==> a[i].region == "apac" && a[i].latency > 102.0
    requires forall i :: 0 <= i < |e| ==> e[i].region == "emea" && e[i].latency > 102.0
    requires forall i :: 0 <= i < |m| ==> m[i].region == "amer" && m[i].latency > 102.0
    requires |a| == |e| == |m| == 12
    requires k == "apac" || k == "emea" || k == "amer"
    ensures |GroupOf(a + e + m, k)| == 12
    ensures forall i :: 0 <= i < |GroupOf(a + e + m, k)| ==> GroupOf(a + e + m, k)[i].latency > 102.0
  {
    GroupOfThreeBlocks(a, e, m, k);
    if k == "apac" {
      assert GroupOf(a + e + m, k) == a;
    } else if k == "emea" {
      assert GroupOf(a + e + m, k) == e;
    } else {
      assert GroupOf(a + e + m, k) == m;
    }
  }

  /** Each of the three regions has twelve records, all above 102 ms. */
  lemma RegionGroupLow(k: string)
    requires k == "apac" || k == "emea" || k == "amer"
    ensures |GroupOf(Dataset, k)| == 12
    ensures forall i :: 0 <= i < |GroupOf(Dataset, k)| ==> GroupOf(Dataset, k)[i].latency > 102.0
  {
    BlockRegions();
    BlockLatencies();
    ThreeBlocksLow(ApacRecords, EmeaRecords, AmerRecords, k);
  }

  /** Requesting the three regions gives their rows in the order amer, apac,
      emea. */
  lemma AllRegionsOrder(threshold: int)
    ensures RegionsOf(Analytics(Dataset, ["apac", "emea", "amer"], threshold)) == ["amer", "apac", "emea"]
  {
    var regions := ["apac", "emea", "amer"];
    var ks := ["amer", "apac", "emea"];
    assert StrictlyAscending(ks);
    forall k
      ensures k in ks <==> k in regions && HasRegion(Dataset, k)
    {
      DatasetHasRegion(k);
    }
    AnalyticsRegionOrderIsUnique(Dataset, regions, threshold, ks);
  }

  /** At a threshold below every latency (zero, for one) each of the three
      rows counts all twelve of its records as breaches. */
  lemma AllRegionsLowThreshold(threshold: int)
    requires threshold <= 102
    ensures |Analytics(Dataset, ["apac", "emea", "amer"], threshold)| == 3
    ensures forall i :: 0 <= i < |Analytics(Dataset, ["apac", "emea", "amer"], threshold)| ==>
              Analytics(Dataset, ["apac", "emea", "amer"], threshold)[i].breaches == 12
  {
    var regions := ["apac", "emea", "amer"];
    AllRegionsOrder(threshold);
    var out := Analytics(Dataset, regions, threshold);
    forall i | 0 <= i < |out|
      ensures out[i].breaches == 12
    {
      AnalyticsRowIsWholeRegion(Dataset, regions, threshold, i);
      var k := out[i].region;
      assert k == RegionsOf(out)[i];
      RegionGroupLow(k);
      GroupBreachesLow(GroupOf(Dataset, k), threshold);
    }
  }

  const ApacLatencies: seq<real> := [
    130.0, 188.13, 172.96, 125.77, 209.93, 194.52, 148.26, 185.0, 203.45, 229.55, 169.07, 115.53]

  const ApacUptimes: seq<real> := [
    99.149, 97.221, 98.622, 98.592, 97.551, 99.266, 98.467, 98.172, 97.618, 97.537, 98.758, 97.194]

  /** The latency and uptime columns of the apac records, in record order. */
  lemma ApacColumns()
    ensures Latencies(ApacRecords) == ApacLatencies
    ensures Uptimes(ApacRecords) == ApacUptimes
  {
  }

  lemma ApacLatencySum()
    ensures Sum(ApacLatencies) == 2072.17
  {
  }

  lemma ApacUptimeSum()
    ensures Sum(ApacUptimes) == 1178.147
  {
  }

  /** Eight apac latencies exceed 150 ms. */
  lemma ApacBreachesAt150()
    ensures Breaches(ApacLatencies, 150) == 8
  {
  }

  /** 229.55 ms, the tenth apac latency, is the largest; 209.93 ms is the
      largest of the rest. */
  lemma ApacTopLatencies()
    ensures ApacLatencies[9] == 229.55 && 209.93 in ApacLatencies
    ensures forall i :: 0 <= i < |ApacLatencies| && i != 9 ==> ApacLatencies[i] <= 209.93
  {
  }

  /** The apac percentile: 0.45 of the way from 209.93 ms to 229.55 ms. */
  lemma ApacP95()
    ensures P95(ApacLatencies) == 218.759
  {
    ApacTopLatencies();
    P95OfTwelve(ApacLatencies, 9, 209.93, 229.55);
  }

  /** Requesting one of the three regions alone gives one row, summarizing
      that region's whole group. */
  lemma SingleRegionRequest(k: string, threshold: int)
    requires k == "apac" || k == "emea" || k == "amer"
    ensures GroupOf(Dataset, k) != []
    ensures Analytics(Dataset, [k], threshold) == [Summarize(k, GroupOf(Dataset, k), threshold)]
  {
    var out := Analytics(Dataset, [k], threshold);
    forall x
      ensures x in [k] <==> x in [k] && HasRegion(Dataset, x)
    {
      DatasetHasRegion(x);
    }
    AnalyticsRegionOrderIsUnique(Dataset, [k], threshold, [k]);
    assert |out| == 1 && out[0].region == k;
    AnalyticsRowIsWholeRegion(Dataset, [k], threshold, 0);
  }

  lemma SummaryOfTwelve(region: string, g: seq<Record>, threshold: int, lat: seq<real>, up: seq<real>)
    requires |g| == 12 && Latencies(g) == lat && Uptimes(g) == up
    ensures Summarize(region, g, threshold) ==
            RegionMetrics(region, Sum(lat) / 12.0, P95(lat), Sum(up) / 12.0, Breaches(lat, threshold))
  {
  }

  /** The apac group at a 150 ms threshold: mean latency 2072.17 / 12 ms,
      percentile 218.759 ms, mean uptime 1178.147 / 12 percent and eight
      breaches. */
  lemma ApacSummaryAt150()
    ensures Summarize("apac", ApacRecords, 150) ==
            RegionMetrics("apac", 2072.17 / 12.0, 218.759, 1178.147 / 12.0, 8)
  {
    BlockRegions();
    ApacColumns();
    SummaryOfTwelve("apac", ApacRecords, 150, ApacLatencies, ApacUptimes);
    ApacLatencySum();
    ApacUptimeSum();
    ApacBreachesAt150();
    ApacP95();
  }

  /** Requesting apac alone at a 150 ms threshold gives the one apac row. */
  lemma ApacAt150()
    ensures Analytics(Dataset, ["apac"], 150) ==
            [RegionMetrics("apac", 2072.17 / 12.0, 218.759, 1178.147 / 12.0, 8)]
  {
    SingleRegionRequest("apac", 150);
    DatasetGroup("apac");
    assert GroupOf(Dataset, "apac") == ApacRecords;
    ApacSummaryAt150();
  }
}
