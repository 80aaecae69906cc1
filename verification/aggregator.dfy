/**
 * One `PGStats` instance and one polling cycle (`PGStats#submit`): observe
 * the aggregate counters against their baselines, queue the deltas, pass the
 * three gauge rows through, queue one usage sample per relation, stamp every
 * sample with the cycle's bucketed timestamp, and hand the queue to the sink
 * only when it is non-empty.
 */
module Aggregator {
  import opened Wrappers
  import opened Metric
  import opened Counters
  import Bucket

  /** Defaults of `PGStats#initialize` for the `:interval` and `:source` options. */
  const DefaultInterval := 60
  const DefaultSource := "pg-stats-aggregator"

  /** Suffix appended to a relation name to form its index-usage metric. */
  const UsageSuffix := ".percent_of_times_index_used"

  /** The state of one instance: its counter baselines, bucketing interval and source tag. */
  datatype PGStats = PGStats(counters: Baselines, interval: int, source: string)

  /** One column of a gauge row (index hit rate, cache hit rate, index size). */
  datatype Gauge = Gauge(name: string, value: Value)

  /** One row of the per-relation index-usage query. */
  datatype UsageRow = UsageRow(relname: string, percentOfTimesIndexUsed: string, rowsInTable: int)

  /** The first row of each of the four single-row queries and all rows of the usage query. */
  datatype Polled = Polled(
    stats: seq<Counter>,
    indexHitRate: seq<Gauge>,
    cacheHitRate: seq<Gauge>,
    indexSize: seq<Gauge>,
    tablesIndexUsage: seq<UsageRow>)

  /** The outcome of one cycle: new baselines, the queue built, and what was handed to the sink, if anything. */
  datatype Cycle = Cycle(counters: Baselines, queue: seq<Sample>, submitted: Option<seq<Sample>>)

  /**
   * `PGStats.new`: each option falls back to its default when absent (a fresh
   * empty counter map, a 60-second interval, the aggregator's own source tag).
   */
  function New(counters: Option<Baselines>, interval: Option<int>, source: Option<string>): (p: PGStats)
    ensures counters.Some? ==> p.counters == counters.value
    ensures counters.None? ==> p.counters == map[]
    ensures interval.Some? ==> p.interval == interval.value
    ensures interval.None? ==> p.interval == 60
    ensures source.Some? ==> p.source == source.value
    ensures source.None? ==> p.source == "pg-stats-aggregator"
  {
    PGStats(counters.GetOr(map[]), interval.GetOr(DefaultInterval), source.GetOr(DefaultSource))
  }

  /** All gauge columns in query order: index hit rate, cache hit rate, index size. */
  function Gauges(q: Polled): seq<Gauge> {
    q.indexHitRate + q.cacheHitRate + q.indexSize
  }

  /** The delta samples, one per delta, in order. */
  function DeltaSamples(ds: seq<Delta>, t: int, source: string): (q: seq<Sample>)
    ensures |q| == |ds|
    ensures forall s <- q :: s.measureTime == t && s.source == source
  {
    seq(|ds|, i requires 0 <= i < |ds| => ToQueuable(ds[i].name, Count(ds[i].amount), t, None, source))
  }

  /** The gauge samples: each column's name and value, unchanged. */
  function GaugeSamples(gs: seq<Gauge>, t: int, source: string): (q: seq<Sample>)
    ensures |q| == |gs|
    ensures forall i :: 0 <= i < |gs| ==>
      q[i].key == Namespace + gs[i].name && q[i].value == gs[i].value
      && q[i].measureTime == t && q[i].source == source
  {
    seq(|gs|, i requires 0 <= i < |gs| => ToQueuable(gs[i].name, gs[i].value, t, None, source))
  }

  /** The usage samples: one per relation row, named after the relation. */
  function UsageSamples(us: seq<UsageRow>, t: int, source: string): (q: seq<Sample>)
    ensures |q| == |us|
    ensures forall i :: 0 <= i < |us| ==>
      q[i].key == Namespace + us[i].relname + UsageSuffix
      && q[i].value == Payload(us[i].percentOfTimesIndexUsed)
      && q[i].measureTime == t && q[i].source == source
  {
    seq(|us|, i requires 0 <= i < |us| =>
      ToQueuable(us[i].relname + UsageSuffix, Payload(us[i].percentOfTimesIndexUsed), t, None, source))
  }

  /** What reaches the sink: the whole queue when it has any sample, nothing when it is empty. */
  function Flush(queue: seq<Sample>): Option<seq<Sample>> {
    if |queue| == 0 then None else Some(queue)
  }

  /**
   * One polling cycle at wall-clock second `now`. The interval must be
   * non-zero: Ruby's `%` raises on a zero divisor.
   */
  function Submit(p: PGStats, q: Polled, now: int): (r: Cycle)
    requires p.interval != 0
    // one timestamp and one source for the whole cycle, every key namespaced
    ensures forall s <- r.queue :: s.measureTime == Bucket.NowFloored(now, p.interval)
    ensures forall s <- r.queue :: s.source == p.source
    // no more deltas than stats columns, plus one sample per gauge column and per usage row
    ensures |Gauges(q)| + |q.tablesIndexUsage| <= |r.queue| <= |q.stats| + |Gauges(q)| + |q.tablesIndexUsage|
    // the sink sees the whole queue, once, exactly when it is non-empty
    ensures r.submitted.Some? <==> |r.queue| > 0
    ensures r.submitted.Some? ==> r.submitted.value == r.queue
  {
    var t := Bucket.NowFloored(now, p.interval);
    var row := ApplyRow(p.counters, q.stats);
    var deltas := DeltaSamples(row.deltas, t, p.source);
    var gauges := GaugeSamples(Gauges(q), t, p.source);
    var usage := UsageSamples(q.tablesIndexUsage, t, p.source);
    var queue := deltas + gauges + usage;
    assert forall s <- queue :: s in deltas || s in gauges || s in usage;
    Cycle(row.baselines, queue, Flush(queue))
  }

  /** The submitted queue split into its three sections. */
  lemma SubmitSections(p: PGStats, q: Polled, now: int)
    requires p.interval != 0
    ensures var t := Bucket.NowFloored(now, p.interval);
      Submit(p, q, now).queue ==
        DeltaSamples(ApplyRow(p.counters, q.stats).deltas, t, p.source)
        + GaugeSamples(Gauges(q), t, p.source)
        + UsageSamples(q.tablesIndexUsage, t, p.source)
  {}

  /**
   * The gauge columns pass through unchanged, in query order, right before
   * the usage samples.
   */
  lemma SubmitGauges(p: PGStats, q: Polled, now: int)
    requires p.interval != 0
    ensures var r := Submit(p, q, now);
      var u := |q.tablesIndexUsage|;
      var g := |Gauges(q)|;
      && u + g <= |r.queue|
      && var section := r.queue[|r.queue| - u - g .. |r.queue| - u];
         forall i :: 0 <= i < g ==>
           section[i].key == Namespace + Gauges(q)[i].name && section[i].value == Gauges(q)[i].value
  {
    var t := Bucket.NowFloored(now, p.interval);
    var deltas := DeltaSamples(ApplyRow(p.counters, q.stats).deltas, t, p.source);
    var gauges := GaugeSamples(Gauges(q), t, p.source);
    var usage := UsageSamples(q.tablesIndexUsage, t, p.source);
    var queue := Submit(p, q, now).queue;
    SubmitSections(p, q, now);
    assert queue[|queue| - |usage| - |gauges| .. |queue| - |usage|] == gauges;
  }

  /**
   * The queue ends with exactly one sample per relation row, named after the
   * relation, carrying its index-usage percentage, in row order.
   */
  lemma SubmitUsage(p: PGStats, q: Polled, now: int)
    requires p.interval != 0
    ensures var r := Submit(p, q, now);
      var u := |q.tablesIndexUsage|;
      && u <= |r.queue|
      && var section := r.queue[|r.queue| - u ..];
         forall i :: 0 <= i < u ==>
           section[i].key == Namespace + q.tablesIndexUsage[i].relname + UsageSuffix
           && section[i].value == Payload(q.tablesIndexUsage[i].percentOfTimesIndexUsed)
  {
    var t := Bucket.NowFloored(now, p.interval);
    var deltas := DeltaSamples(ApplyRow(p.counters, q.stats).deltas, t, p.source);
    var gauges := GaugeSamples(Gauges(q), t, p.source);
    var usage := UsageSamples(q.tablesIndexUsage, t, p.source);
    var queue := Submit(p, q, now).queue;
    SubmitSections(p, q, now);
    assert queue[|queue| - |usage| ..] == usage;
  }

  /**
   * The baselines after a cycle: every stats column's name is tracked, and
   * the baseline of a name the row does not mention is left as it was.
   */
  lemma SubmitBaselines(p: PGStats, q: Polled, now: int)
    requires p.interval != 0
    ensures var r := Submit(p, q, now);
      && r.counters.Keys == p.counters.Keys + NameSet(q.stats)
      && forall n | n in p.counters && n !in NameSet(q.stats) :: r.counters[n] == p.counters[n]
  {
    var row := ApplyRow(p.counters, q.stats);
    assert Submit(p, q, now).counters == row.baselines;
  }

  /** How many samples in `queue` carry the key `key`. */
  function KeyCount(queue: seq<Sample>, key: string): nat
    decreases |queue|
  {
    if queue == [] then 0 else (if queue[0].key == key then 1 else 0) + KeyCount(queue[1..], key)
  }

  /** Formatting deltas keeps, key for name, the number of deltas per counter. */
  lemma {:induction false} DeltaSamplesKeyCount(ds: seq<Delta>, t: int, source: string, n: string)
    ensures KeyCount(DeltaSamples(ds, t, source), Namespace + n) == Occurrences(ds, n)
    decreases |ds|
  {
    var q := DeltaSamples(ds, t, source);
    if ds != [] {
      assert q[1..] == DeltaSamples(ds[1..], t, source);
      DeltaSamplesKeyCount(ds[1..], t, source, n);
      assert q[0].key == Namespace + ds[0].name;
      if q[0].key == Namespace + n {
        KeyInjective(ds[0].name, n);
      }
    }
  }

  /**
   * The delta part of a cycle, per stats column (names distinct, as in a
   * Hash): the column's name ends with the current value as its baseline; the
   * queue opens with the delta samples, and among them the column's key occurs
   * exactly once when the column had a baseline and did not go down, and not
   * at all on a first sighting or
   * a reset (its amount: `SubmitDeltaAmount`).
   */
  lemma SubmitDeltas(p: PGStats, q: Polled, now: int, i: int)
    requires p.interval != 0 && DistinctNames(q.stats) && 0 <= i < |q.stats|
    ensures var r := Submit(p, q, now);
      var c := q.stats[i];
      var k := |Emitted(p.counters, q.stats)|;
      && r.counters[c.name] == c.value
      && k <= |r.queue|
      && KeyCount(r.queue[..k], Namespace + c.name) == (if Emits(p.counters, c) then 1 else 0)
  {
    var c := q.stats[i];
    var t := Bucket.NowFloored(now, p.interval);
    var ds := Emitted(p.counters, q.stats);
    var deltas := DeltaSamples(ds, t, p.source);
    var queue := Submit(p, q, now).queue;
    ApplyRowMatchesReference(p.counters, q.stats);
    SubmitQueue(p, q, now);
    assert queue[..|ds|] == deltas;
    DeltaSamplesKeyCount(ds, t, p.source, c.name);
    EmittedPerColumn(p.counters, q.stats, i);
  }

  /**
   * The one delta sample of a column that had a baseline and did not go down
   * carries the column's increase over that baseline.
   */
  lemma SubmitDeltaAmount(p: PGStats, q: Polled, now: int, i: int)
    requires p.interval != 0 && DistinctNames(q.stats) && 0 <= i < |q.stats|
    requires Emits(p.counters, q.stats[i])
    ensures var queue := Submit(p, q, now).queue;
      var c := q.stats[i];
      exists j :: 0 <= j < |Emitted(p.counters, q.stats)| <= |queue|
                  && queue[j].key == Namespace + c.name
                  && queue[j].value == Count(c.value - p.counters[c.name])
  {
    var c := q.stats[i];
    var t := Bucket.NowFloored(now, p.interval);
    var ds := Emitted(p.counters, q.stats);
    var deltas := DeltaSamples(ds, t, p.source);
    var queue := Submit(p, q, now).queue;
    SubmitQueue(p, q, now);
    EmittedComplete(p.counters, q.stats, i);
    var j :| 0 <= j < |ds| && ds[j] == Delta(c.name, c.value - p.counters[c.name]);
    assert deltas[j] == ToQueuable(c.name, Count(c.value - p.counters[c.name]), t, None, p.source);
    assert queue == deltas + GaugeSamples(Gauges(q), t, p.source) + UsageSamples(q.tablesIndexUsage, t, p.source);
    assert queue[j] == deltas[j];
  }

  /**
   * A cycle's queue holds exactly the delta samples followed by the gauge
   * and usage samples, all formatted with the instance's source and the
   * cycle's bucket; with distinct names the delta samples are those judged
   * against the baselines as they stood at cycle start.
   */
  lemma SubmitQueue(p: PGStats, q: Polled, now: int)
    requires p.interval != 0 && DistinctNames(q.stats)
    ensures var t := Bucket.NowFloored(now, p.interval);
      Submit(p, q, now).queue ==
        DeltaSamples(Emitted(p.counters, q.stats), t, p.source)
        + GaugeSamples(Gauges(q), t, p.source)
        + UsageSamples(q.tablesIndexUsage, t, p.source)
  {
    ApplyRowMatchesReference(p.counters, q.stats);
  }

  /**
   * A freshly built instance has no baselines, so its first cycle queues no
   * delta at all: only the gauges and the usage samples, and it leaves every
   * stats column tracked at its current value.
   */
  lemma FirstCycleQueuesNoDeltas(interval: Option<int>, source: Option<string>, q: Polled, now: int)
    requires interval.GetOr(DefaultInterval) != 0 && DistinctNames(q.stats)
    ensures var p := New(None, interval, source);
      var r := Submit(p, q, now);
      && |r.queue| == |Gauges(q)| + |q.tablesIndexUsage|
      && r.counters.Keys == NameSet(q.stats)
      && (forall i :: 0 <= i < |q.stats| ==> r.counters[q.stats[i].name] == q.stats[i].value)
  {
    var p := New(None, interval, source);
    ApplyRowMatchesReference(p.counters, q.stats);
    NoDeltasWithoutBaselines(q.stats);
  }

  /** With no baselines at all, the delta rule emits nothing. */
  lemma {:induction false} NoDeltasWithoutBaselines(row: seq<Counter>)
    ensures Emitted(map[], row) == []
    decreases |row|
  {
    if row != [] {
      NoDeltasWithoutBaselines(row[1..]);
    }
  }
}
