# pg_stats_aggregator: the per-cycle aggregation step, in Dafny

`PGStats#submit` polls a PostgreSQL database once per interval. Each call
does the following:

- It reads five cumulative counters (sequential scans, index scans, inserts,
  updates, deletes) from the aggregate stats row.
- It turns each counter into a per-interval delta against the baseline kept
  in `@counters`. It skips the first sighting of a counter and any counter
  that went down (a statistics reset). It overwrites the baseline in every
  case.
- It passes the index hit rate, cache hit rate and total index size gauges
  through unchanged.
- It adds one `<relname>.percent_of_times_index_used` sample per row of the
  usage query, that is, per user table in the `public` schema.
- It names every sample `postgres.<name>`, tags it with the instance's
  source, and stamps it with one timestamp: the current second floored to the
  interval.
- It hands the queue to Librato only if the queue is non-empty.

The scheduler in `clock.rb` runs one such instance per configured database
every five minutes. It uses a 300-second interval and the database name as
the source.

The model is functional. A cycle is the pure function `Aggregator.Submit`.
Its inputs are:

- the instance, meaning its counter map, interval and source;
- the rows the five queries returned;
- the wall-clock second.

It returns three things: the new counter map, the queue, and what was
submitted (`None` when nothing was).

Modules:

- `Wrappers` (wrappers.dfy) — `Option`, standing in for Ruby's `nil` and
  `fetch` with a default.
- `Metric` (metric.dfy) — sample values and samples, `to_queuable`, and the
  `postgres.` key namespace with its inverse.
- `Bucket` (bucket.dfy) — `now_floored`, with Ruby's floored `%` written
  out.
- `Counters` (counters.dfy) — the delta/reset rule for one column, the loop
  over the stats row, and a reference definition that judges every column
  against the starting baselines.
- `Aggregator` (aggregator.dfy) — the `PGStats` instance, the `initialize`
  defaults, one full cycle, and the layout of its queue.
- `History` (history.dfy) — one counter followed over many cycles, including
  the 100 → 150 → 140 → 160 example.
- `Polling` (polling.dfy) — the round over databases in `clock.rb`, as
  written and corrected (see Findings).

The stats row is a Ruby Hash, so its column names are distinct. The model
takes the row as an ordered sequence of columns. The loop (`ApplyRow`) is
defined for any sequence. The per-column lemmas assume `DistinctNames`,
which is exactly the Hash's key uniqueness.

## Model

| member | source | states |
|---|---|---|
| Metric.ToQueuable | pgstats.rb:237-244 | the key is `postgres.` followed by the name; value and measure time pass through unchanged; the source is the per-call source when given, the instance's source otherwise |
| Metric.MetricName | pgstats.rb:243 | a key carries a metric name exactly when it starts with `postgres.`, and the name it yields, prefixed again, is the key |
| Metric.NameRoundTrip | pgstats.rb:243 | the metric name is recovered from the key of the sample formatted for it |
| Metric.KeyInjective | pgstats.rb:243 | two different metric names never produce the same queue key |
| Bucket.FloorMod | pgstats.rb:282 | Ruby's `%`: the remainder differs from the dividend by a multiple of the divisor and lies in `[0, b)` for a positive divisor, `(b, 0]` for a negative one; a zero divisor is excluded because Ruby raises |
| Bucket.NowFloored | pgstats.rb:280-283 | the bucket is a multiple of the interval; for a positive interval it is at most `now` and less than one interval before it; for a negative interval it rounds up instead |
| Bucket.NowFlooredIsGreatestMultiple | pgstats.rb:280-283 | every multiple of a positive interval that is not after `now` is at most the bucket |
| Bucket.NowFlooredUnique | pgstats.rb:280-283 | the only multiple of a positive interval in `(now - interval, now]` is the bucket |
| Bucket.NowFlooredIdempotent | pgstats.rb:280-283 | flooring a bucket again changes nothing |
| Bucket.FiveMinuteBucket | pgstats.rb:280-283 | with the 300-second interval, second 1000 falls in bucket 900 |
| Counters.Observe | pgstats.rb:251-258 | the baseline is overwritten with the current value in every case; a delta is emitted exactly when a baseline exists and the counter did not go down; the delta added to the baseline gives the current value |
| Counters.ApplyRow | pgstats.rb:250-259 | after the loop every column name has a baseline, a baseline for a name outside the row is unchanged and no name is dropped; no more deltas than columns (exactly one per emitting column with distinct names: `Counters.EmittedPerColumn`) |
| Counters.ApplyRowMatchesReference | pgstats.rb:250-259 | with distinct column names, the loop emits exactly the deltas judged against the baselines as they stood at cycle start, and every column's name ends with that column's value as baseline |
| Counters.EmittedSound | pgstats.rb:252-256 | every emitted delta belongs to a column that had a baseline and did not go down, and equals its increase over that baseline |
| Counters.EmittedComplete | pgstats.rb:253-255 | a column that had a baseline and did not go down has its increase among the emitted deltas |
| Counters.EmittedPerColumn | pgstats.rb:252-256 | with distinct names, a column's name occurs exactly once among the deltas if it had a baseline and did not go down, and never on a first sighting or a reset |
| Counters.NoOccurrencesOutsideRow | pgstats.rb:250-256 | no delta is emitted for a name that is not a column of the row |
| Aggregator.New | pgstats.rb:4-10 | each option falls back to its default: an empty counter map, a 60-second interval, source `pg-stats-aggregator` |
| Aggregator.Submit | pgstats.rb:246-278 | every queued sample carries the one bucketed timestamp of the cycle and the instance's source; the queue is at least as long as the gauge columns and usage rows together and exceeds that by no more than the number of stats columns (its contents: `Aggregator.SubmitQueue`, `Aggregator.SubmitGauges`, `Aggregator.SubmitUsage`); the sink gets the whole queue exactly when it is non-empty and nothing otherwise |
| Aggregator.SubmitBaselines | pgstats.rb:250-259 | after a cycle every stats column is tracked, and baselines of names the row does not mention are unchanged |
| Aggregator.SubmitDeltas | pgstats.rb:250-259 | per stats column: its baseline becomes its current value; the queue opens with the delta samples, and among them the column's key occurs once when it had a baseline and did not go down, and not at all on a first sighting or a reset |
| Aggregator.SubmitDeltaAmount | pgstats.rb:253-255 | the delta sample of such a column carries the increase over the old baseline |
| Aggregator.SubmitQueue | pgstats.rb:246-275 | the queue is the delta samples, then the three gauge rows, then the usage rows, all formatted with one timestamp and the instance's source |
| Aggregator.SubmitGauges | pgstats.rb:261-271 | the gauge columns pass through with name and value unchanged, in query order, right before the usage samples |
| Aggregator.SubmitUsage | pgstats.rb:273-275 | the queue ends with exactly one sample per relation row, named `postgres.<relname>.percent_of_times_index_used`, carrying the row's percentage, in row order |
| Aggregator.FirstCycleQueuesNoDeltas | pgstats.rb:250-259 | a fresh instance (default empty counters) queues no delta in its first cycle, only gauges and usage samples, and then tracks exactly the row's columns at their current values |
| Aggregator.NoDeltasWithoutBaselines | pgstats.rb:252-253 | with no baselines at all, no delta is emitted |
| History.Track | pgstats.rb:250-259 | one counter over a run of cycles: one emission slot per cycle, and the baseline ends at the last value read |
| History.TrackStep | pgstats.rb:252-258 | each cycle after the first emits the difference from the previous cycle's reading when the counter did not go down, and nothing when it did |
| History.TrackTelescopes | pgstats.rb:252-258 | over a non-decreasing run starting at or above the baseline, the emitted deltas sum to the counter's growth since the baseline |
| History.FirstSightingTelescopes | pgstats.rb:252-258 | for a counter first seen in the run, the first cycle emits nothing and the rest sum to its growth since that first reading |
| History.SingleCounterCycle | pgstats.rb:246-278 | a cycle polling one counter queues nothing and submits nothing when the delta rule swallows the reading, and otherwise queues the single sample `postgres.<name>` with the delta |
| History.CyclesFollowTrack | pgstats.rb:246-283 | over a run of whole cycles, each cycle's queue is empty or the one delta sample, exactly as the counter's trace says, stamped with that cycle's bucket |
| History.InsertsScenario | pgstats.rb:250-259 | `inserts` reading 100, 150, 140, 160 emits nothing, 50, nothing, 20, and leaves baseline 160 |
| History.InsertsScenarioSample | pgstats.rb:246-283 | in that run, the cycle at second 1000 queues `postgres.inserts` = 50 stamped 900 |
| Polling.PollShared | clock.rb:15-24 | the round as written: one cycle per database, each tagged with that database's name (how the cycles share one map: `Polling.PollSharedThreads`, `Polling.PollSharedLeaves`) |
| Polling.PollSharedThreads | clock.rb:15-22 | in a shared round, the first database's cycle runs on the map the round started with and every later one on the map the previous database's cycle left |
| Polling.PollSharedLeaves | clock.rb:15-22 | the map a shared round leaves is the one its last database's cycle wrote, or the starting map when there is no database |
| Polling.PollIsolated | clock.rb:15-24 | the corrected round, with one counter map per database: one cycle per database |
| Polling.PollIsolatedIndependent | clock.rb:15-24 | with one map per database, each database's cycle is the cycle a lone instance runs on its own baselines, whatever the other databases returned |
| Polling.SharedFirstRound | clock.rb:15-22 | whatever the shared map held, after `a` reads 100 and `b` reads 40 its `inserts` baseline is `b`'s 40 |
| Polling.SharedSecondRound | clock.rb:15-22 | on a shared map holding 40, `a` reading 110 reports 70 and `b` reading 45 then reports nothing |
| Polling.SharedCountersCrossTalk | clock.rb:15-22 | as written, database `a` (100 then 110) reports 70 in the second round and database `b` (40 then 45) reports nothing |
| Polling.IsolatedCountersNoCrossTalk | clock.rb:15-22 | with one map per database the same rounds report 10 for `a` and 5 for `b` |

## Left out

- The SQL text of every query method (pgstats.rb:12-235). `stats`, `index_hit_rate`, `cache_hit_rate`, `index_size` and `tables_index_usage` become the input rows of `Polled`. `unused_index`, `long_running_queries`, `bloat`, `vacuum_stats`, `blocking_queries` and `table_locks` are never called by `submit`.
- The Librato client, its queue object and the network submit (pgstats.rb:1, 8, 247, 277). The queue is a sequence, and the submit is the `submitted` field of a cycle.
- The `:db` option and the `KeyError` that `fetch(:db)` raises without it. The database handle is abstracted away with the queries.
- `to_i` coercion of counter values (pgstats.rb:251). Counters arrive as natural numbers. A NULL sum, which `to_i` turns into 0, is not modelled separately.
- `.first` on an empty result set, which would raise. Each single-row query is taken as returning its row.
- `Time.now` (pgstats.rb:281). The wall-clock second is a parameter.
- The hit rates are SQL numerics. Gauge values are opaque payloads that are passed through, not numbers.
- Exceptions in the middle of a cycle, and the partial baseline updates they would leave behind.
- All of clock.rb except the round over databases: environment variables, Librato authentication, Clockwork scheduling, URI parsing and database connections. Each database's poll time is an input.

Some behaviour of the code is easy to mistake for something else. The model keeps it as written:

- A NULL gauge value is queued as it is (`Nil`), not skipped.
- The queue is an ordered sequence: deltas, then gauges, then usage samples.
- A negative interval is not rejected. Ruby's floored `%` then rounds the timestamp up.
- One counter map is shared by all databases (see Findings).

## Findings

| source | as written | input that shows it | evidently intended | confidence | as-written member | corrected member |
|---|---|---|---|---|---|---|
| clock.rb:15-22 | one `counters` hash is handed to the `PGStats` of every database, so baselines are keyed by column name alone and each database overwrites the others' | database `a` reads `inserts` 100 then 110, database `b` reads 40 then 45: in the second round `a` reports 70 instead of 10, and `b`'s increase of 5 is taken for a reset | one baseline map per database, so each database's deltas depend only on its own history | medium, not executed | Polling.SharedCountersCrossTalk | Polling.PollIsolatedIndependent |
