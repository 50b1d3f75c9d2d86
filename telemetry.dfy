/** The telemetry records the service aggregates and the column names they carry.
    Only the fields the aggregation reads are kept: the service name and the
    timestamp of each record are never consulted. */
module Telemetry {

  /** One observation: the region code, the latency in milliseconds
      (column "latency_ms") and the uptime percentage (column "uptime_pct"). */
  datatype Record = Record(region: string, latency: real, uptime: real)

  /** The column names of the embedded data, one per key of each JSON object. */
  const Columns: set<string> := {"region", "service", "latency_ms", "uptime_pct", "timestamp"}

  /** The embedded corpus, in the order it is written: twelve records each for
      "apac", "emea" and "amer". It is a constant, so no request can change it. */
  const Dataset: seq<Record> := ApacRecords + EmeaRecords + AmerRecords

  /** The "apac" records, the first twelve of the corpus. */
  const ApacRecords: seq<Record> := [
    Record("apac", 130.0, 99.149),
    Record("apac", 188.13, 97.221),
    Record("apac", 172.96, 98.622),
    Record("apac", 125.77, 98.592),
    Record("apac", 209.93, 97.551),
    Record("apac", 194.52, 99.266),
    Record("apac", 148.26, 98.467),
    Record("apac", 185.0, 98.172),
    Record("apac", 203.45, 97.618),
    Record("apac", 229.55, 97.537),
    Record("apac", 169.07, 98.758),
    Record("apac", 115.53, 97.194)
  ]

  /** The "emea" records, the next twelve. */
  const EmeaRecords: seq<Record> := [
    Record("emea", 172.68, 98.064),
    Record("emea", 226.91, 97.894),
    Record("emea", 198.7, 97.213),
    Record("emea", 202.56, 99.168),
    Record("emea", 218.36, 99.242),
    Record("emea", 219.24, 98.575),
    Record("emea", 199.26, 98.756),
    Record("emea", 220.33, 99.45),
    Record("emea", 128.61, 97.824),
    Record("emea", 178.24, 98.039),
    Record("emea", 102.91, 99.325),
    Record("emea", 186.67, 97.51)
  ]

  /** The "amer" records, the last twelve. */
  const AmerRecords: seq<Record> := [
    Record("amer", 132.35, 99.43),
    Record("amer", 195.13, 98.038),
    Record("amer", 109.45, 97.87),
    Record("amer", 141.82, 97.711),
    Record("amer", 114.98, 97.152),
    Record("amer", 152.68, 98.531),
    Record("amer", 147.42, 98.284),
    Record("amer", 139.45, 99.019),
    Record("amer", 136.68, 97.336),
    Record("amer", 214.92, 99.432),
    Record("amer", 139.15, 98.092),
    Record("amer", 154.64, 98.31)
  ]
}
