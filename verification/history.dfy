/**
 * One counter followed over many cycles. Each cycle observes the counter
 * against the baseline the previous cycle left behind, so the emitted deltas
 * compare consecutive observations, a decrease is swallowed, and the
 * emitted deltas of a non-decreasing run add up to its total growth.
 */
module History {
  import opened Wrappers
  import opened Metric
  import opened Counters
  import opened Aggregator
  import Bucket

  /** What a run of cycles emitted for one counter, and the baselines left afterwards. */
  datatype Trace = Trace(emitted: seq<Option<nat>>, baselines: Baselines)

  /** The counter `name` observed with `values`, one value per cycle. */
  function Track(b: Baselines, name: string, values: seq<nat>): (r: Trace)
    ensures |r.emitted| == |values|
    ensures values == [] ==> r.baselines == b
    ensures values != [] ==> r.baselines == b[name := values[|values| - 1]]
    decreases |values|
  {
    if values == [] then Trace([], b)
    else
      var o := Observe(b, Counter(name, values[0]));
      var rest := Track(o.baselines, name, values[1..]);
      Trace([o.delta] + rest.emitted, rest.baselines)
  }

  /**
   * Cycle by cycle: the first cycle is judged against the starting baseline;
   * every later cycle emits the difference from the previous cycle's value
   * when the counter did not go down, and nothing when it did.
   */
  lemma {:induction false} TrackStep(b: Baselines, name: string, values: seq<nat>, i: int)
    requires 0 <= i < |values|
    ensures i == 0 ==> Track(b, name, values).emitted[0] == Observe(b, Counter(name, values[0])).delta
    ensures i > 0 && values[i - 1] <= values[i] ==> Track(b, name, values).emitted[i] == Some(values[i] - values[i - 1])
    ensures i > 0 && values[i] < values[i - 1] ==> Track(b, name, values).emitted[i] == None
    decreases |values|
  {
    if i > 0 {
      var b1 := Observe(b, Counter(name, values[0])).baselines;
      var tail := values[1..];
      assert tail[i - 1] == values[i];
      if i == 1 {
        assert Track(b, name, values).emitted[1] == Track(b1, name, tail).emitted[0];
        TrackStep(b1, name, tail, 0);
      } else {
        assert tail[i - 2] == values[i - 1];
        TrackStep(b1, name, tail, i - 1);
      }
    }
  }

  /** The sum of the emitted deltas; swallowed cycles add nothing. */
  function Total(emitted: seq<Option<nat>>): nat
    decreases |emitted|
  {
    if emitted == [] then 0 else emitted[0].GetOr(0) + Total(emitted[1..])
  }

  predicate NonDecreasing(values: seq<nat>) {
    forall i, j :: 0 <= i < j < |values| ==> values[i] <= values[j]
  }

  /**
   * A counter seen from a baseline that it never falls below: the deltas
   * emitted over the run add up to exactly its growth since that baseline.
   */
  lemma {:induction false} TrackTelescopes(b: Baselines, name: string, values: seq<nat>)
    requires name in b && values != [] && NonDecreasing(values) && b[name] <= values[0]
    ensures Total(Track(b, name, values).emitted) == values[|values| - 1] - b[name]
    decreases |values|
  {
    var b1 := Observe(b, Counter(name, values[0])).baselines;
    if |values| > 1 {
      var tail := values[1..];
      assert NonDecreasing(tail) by {
        forall i, j | 0 <= i < j < |tail| ensures tail[i] <= tail[j] {
          assert tail[i] == values[i + 1] && tail[j] == values[j + 1];
        }
      }
      assert values[0] <= values[1];
      TrackTelescopes(b1, name, tail);
      assert tail[|tail| - 1] == values[|values| - 1];
    }
  }

  /**
   * A counter first seen in the run: the first cycle emits nothing, and the
   * rest add up to its growth since that first sighting.
   */
  lemma FirstSightingTelescopes(b: Baselines, name: string, values: seq<nat>)
    requires name !in b && values != [] && NonDecreasing(values)
    ensures Track(b, name, values).emitted[0] == None
    ensures Total(Track(b, name, values).emitted) == values[|values| - 1] - values[0]
  {
    var b1 := Observe(b, Counter(name, values[0])).baselines;
    if |values| > 1 {
      var tail := values[1..];
      assert NonDecreasing(tail) by {
        forall i, j | 0 <= i < j < |tail| ensures tail[i] <= tail[j] {
          assert tail[i] == values[i + 1] && tail[j] == values[j + 1];
        }
      }
      TrackTelescopes(b1, name, tail);
      assert tail[|tail| - 1] == values[|values| - 1];
    }
  }

  /** An instance that polls a stats row holding only the counter `name`. */
  function OnlyCounter(name: string, value: nat): Polled {
    Polled([Counter(name, value)], [], [], [], [])
  }

  /** The instance's cycles when the counter `name` reads `values[i]` at second `times[i]`. */
  function Cycles(p: PGStats, name: string, values: seq<nat>, times: seq<int>): (r: seq<Cycle>)
    requires p.interval != 0 && |times| == |values|
    ensures |r| == |values|
    decreases |values|
  {
    if values == [] then []
    else
      var c := Submit(p, OnlyCounter(name, values[0]), times[0]);
      [c] + Cycles(p.(counters := c.counters), name, values[1..], times[1..])
  }

  /**
   * A cycle polling nothing but the counter `name`: its queue is empty and
   * nothing reaches the sink when the delta rule swallows the reading, and
   * otherwise it is the single sample `postgres.<name>` carrying the delta.
   */
  lemma SingleCounterCycle(p: PGStats, name: string, v: nat, now: int)
    requires p.interval != 0
    ensures var r := Submit(p, OnlyCounter(name, v), now);
      var o := Observe(p.counters, Counter(name, v));
      && r.counters == o.baselines
      && (o.delta.None? ==> r.queue == [] && r.submitted == None)
      && (o.delta.Some? ==> r.queue == [Sample(Namespace + name, Count(o.delta.value), Bucket.NowFloored(now, p.interval), p.source)])
  {
    var q := OnlyCounter(name, v);
    var t := Bucket.NowFloored(now, p.interval);
    SubmitQueue(p, q, now);
    var ds := Emitted(p.counters, q.stats);
    assert q.stats[1..] == [];
    assert ds == DeltaOf(p.counters, Counter(name, v));
    assert Gauges(q) == [];
    assert DeltaSamples(ds, t, p.source) + GaugeSamples([], t, p.source) + UsageSamples([], t, p.source)
      == DeltaSamples(ds, t, p.source);
  }

  /**
   * Followed through whole cycles, the counter's queue in cycle `i` is empty
   * exactly when the trace swallowed that cycle, and otherwise holds the one
   * sample `postgres.<name>` with the trace's delta, stamped with that cycle's
   * bucket and the instance's source.
   */
  lemma {:induction false} CyclesFollowTrack(p: PGStats, name: string, values: seq<nat>, times: seq<int>, i: int)
    requires p.interval != 0 && |times| == |values| && 0 <= i < |values|
    ensures var e := Track(p.counters, name, values).emitted[i];
      var c := Cycles(p, name, values, times)[i];
      && (e.None? ==> c.queue == [] && c.submitted == None)
      && (e.Some? ==> c.queue == [Sample(Namespace + name, Count(e.value), Bucket.NowFloored(times[i], p.interval), p.source)])
    decreases |values|
  {
    SingleCounterCycle(p, name, values[0], times[0]);
    if i > 0 {
      var c := Submit(p, OnlyCounter(name, values[0]), times[0]);
      var p1 := p.(counters := c.counters);
      CyclesFollowTrack(p1, name, values[1..], times[1..], i - 1);
      assert Cycles(p, name, values, times)[i] == Cycles(p1, name, values[1..], times[1..])[i - 1];
      assert Track(p.counters, name, values).emitted[i] == Track(p1.counters, name, values[1..]).emitted[i - 1];
      assert times[1..][i - 1] == times[i];
    }
  }

  /**
   * A counter across four five-minute cycles: `inserts` reads 100, 150,
   * 140, 160. The first reading only sets the baseline, the second emits 50,
   * the drop to 140 is taken for a reset and emits nothing, the last emits
   * 20, and the baseline ends at 160.
   */
  lemma InsertsScenario()
    ensures Track(map[], "inserts", [100, 150, 140, 160])
      == Trace([None, Some(50), None, Some(20)], map["inserts" := 160])
  {
    var vs: seq<nat> := [100, 150, 140, 160];
    var tr := Track(map[], "inserts", vs);
    TrackStep(map[], "inserts", vs, 0);
    TrackStep(map[], "inserts", vs, 1);
    TrackStep(map[], "inserts", vs, 2);
    TrackStep(map[], "inserts", vs, 3);
    assert tr.emitted == [None, Some(50), None, Some(20)];
  }

  /**
   * In that example, the second cycle at second 1000 queues
   * `postgres.inserts` = 50 stamped 900. The readings and times come in
   * through `requires` rather than as literals in the ensures, so that the
   * solver unfolds `Cycles` only as far as the body directs.
   */
  lemma InsertsScenarioSample(p: PGStats, values: seq<nat>, times: seq<int>)
    requires p.interval == 300 && p.counters == map[]
    requires values == [100, 150, 140, 160] && times == [700, 1000, 1300, 1600]
    ensures Cycles(p, "inserts", values, times)[1].queue == [Sample("postgres.inserts", Count(50), 900, p.source)]
  {
    TrackStep(p.counters, "inserts", values, 1);
    Bucket.FiveMinuteBucket();
    CyclesFollowTrack(p, "inserts", values, times, 1);
    assert Namespace + "inserts" == "postgres.inserts";
  }
}
