/**
 * The sample formatter (`PGStats#to_queuable`): turns a metric name, a value,
 * a bucketed timestamp and a source tag into one queueable sample whose key is
 * the metric name under the `postgres.` namespace.
 */
module Metric {
  import opened Wrappers

  /** Every metric the aggregator submits lives under this prefix. */
  const Namespace := "postgres."

  /**
   * A sample value. Deltas are integers; gauge values (hit rates, index size,
   * index-usage percentages) are opaque payloads the aggregator never inspects,
   * and a SQL NULL arrives as `Nil` and is queued as it is.
   */
  datatype Value = Count(n: int) | Payload(text: string) | Nil

  /** One entry of the submission queue: `{key => {value, measure_time, source}}`. */
  datatype Sample = Sample(key: string, value: Value, measureTime: int, source: string)

  /** The metric name a queue key was built from, if the key carries the namespace. */
  function MetricName(key: string): (r: Option<string>)
    ensures r.Some? <==> Namespace <= key
    ensures r.Some? ==> Namespace + r.value == key
  {
    if Namespace <= key then
      var rest := key[|Namespace|..];
      assert Namespace + rest == key;
      Some(rest)
    else None
  }

  /**
   * Formats one sample. `source` is the optional per-call source; when absent
   * the instance's own source (`defaultSource`) is used.
   */
  function ToQueuable(name: string, value: Value, measureTime: int, source: Option<string>, defaultSource: string): (s: Sample)
    ensures s.key == Namespace + name
    ensures s.value == value && s.measureTime == measureTime
    ensures source.Some? ==> s.source == source.value
    ensures source.None? ==> s.source == defaultSource
  {
    Sample(Namespace + name, value, measureTime, source.GetOr(defaultSource))
  }

  /** The metric name is recovered from the key of the sample formatted for it. */
  lemma NameRoundTrip(name: string, value: Value, measureTime: int, source: Option<string>, defaultSource: string)
    ensures MetricName(ToQueuable(name, value, measureTime, source, defaultSource).key) == Some(name)
  {
    var key := Namespace + name;
    assert key[|Namespace|..] == name;
  }

  /** Distinct metric names never share a queue key. */
  lemma KeyInjective(a: string, b: string)
    requires Namespace + a == Namespace + b
    ensures a == b
  {
    assert MetricName(Namespace + a) == Some(a) by { NameRoundTrip(a, Nil, 0, None, ""); }
    assert MetricName(Namespace + b) == Some(b) by { NameRoundTrip(b, Nil, 0, None, ""); }
  }
}
