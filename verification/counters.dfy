/**
 * The counter-baseline tracker and the delta rule of `PGStats#submit`: each
 * cumulative column of the aggregate stats row is compared with the last value
 * stored for its name; a delta is emitted only when a baseline exists and the
 * counter has not gone down, and the baseline is overwritten in every case.
 */
module Counters {
  import opened Wrappers

  /** `@counters`: the last cumulative value observed for each counter name. */
  type Baselines = map<string, nat>

  /** One column of the aggregate stats row: its name and cumulative value. */
  datatype Counter = Counter(name: string, value: nat)

  /** The increase of one counter over one interval. */
  datatype Delta = Delta(name: string, amount: nat)

  /** What observing one counter yields: the optional delta and the new baselines. */
  datatype Observation = Observation(delta: Option<nat>, baselines: Baselines)

  /** The row came from a Hash, so no column name occurs twice. */
  predicate DistinctNames(row: seq<Counter>) {
    forall i, j :: 0 <= i < j < |row| ==> row[i].name != row[j].name
  }

  /** The names of the columns of a row. */
  function NameSet(row: seq<Counter>): set<string> {
    set c <- row :: c.name
  }

  /**
   * The delta rule for one column. First sighting (no baseline) and a reset
   * (the counter went down) emit nothing; otherwise the emitted delta is the
   * amount that, added to the baseline, gives the current value. The baseline
   * is overwritten with the current value whatever happened.
   */
  function Observe(b: Baselines, c: Counter): (r: Observation)
    ensures r.baselines == b[c.name := c.value]
    ensures r.delta.Some? <==> c.name in b && b[c.name] <= c.value
    ensures r.delta.Some? ==> b[c.name] + r.delta.value == c.value
  {
    var delta := if c.name in b && c.value >= b[c.name] then Some(c.value - b[c.name]) else None;
    Observation(delta, b[c.name := c.value])
  }

  /** The delta an observation contributes to the queue, as a zero- or one-element sequence. */
  function DeltaOf(b: Baselines, c: Counter): seq<Delta> {
    match Observe(b, c).delta
    case Some(d) => [Delta(c.name, d)]
    case None => []
  }

  /** What the loop over the stats row produces: the deltas in column order and the final baselines. */
  datatype RowResult = RowResult(deltas: seq<Delta>, baselines: Baselines)

  /**
   * The loop over the stats row, column by column in row order, each column
   * observed against the baselines left by the columns before it.
   */
  function ApplyRow(b: Baselines, row: seq<Counter>): (r: RowResult)
    ensures r.baselines.Keys == b.Keys + NameSet(row)
    ensures forall n | n in b && n !in NameSet(row) :: r.baselines[n] == b[n]
    ensures |r.deltas| <= |row|
    decreases |row|
  {
    if row == [] then RowResult([], b)
    else
      var o := Observe(b, row[0]);
      var rest := ApplyRow(o.baselines, row[1..]);
      assert NameSet(row) == {row[0].name} + NameSet(row[1..]);
      RowResult(DeltaOf(b, row[0]) + rest.deltas, rest.baselines)
  }

  /**
   * Reference definition of the emitted deltas: every column judged against
   * the baselines as they stood when the cycle began.
   */
  function Emitted(b: Baselines, row: seq<Counter>): seq<Delta>
    decreases |row|
  {
    if row == [] then [] else DeltaOf(b, row[0]) + Emitted(b, row[1..])
  }

  /** How many deltas in `ds` carry the name `n`. */
  function Occurrences(ds: seq<Delta>, n: string): nat
    decreases |ds|
  {
    if ds == [] then 0 else (if ds[0].name == n then 1 else 0) + Occurrences(ds[1..], n)
  }

  /** Whether the delta rule emits for column `c` against baselines `b`. */
  predicate Emits(b: Baselines, c: Counter) {
    c.name in b && b[c.name] <= c.value
  }

  /** Dropping the first column keeps the names distinct, and the first name does not recur. */
  lemma DistinctTail(row: seq<Counter>)
    requires DistinctNames(row) && row != []
    ensures DistinctNames(row[1..])
    ensures row[0].name !in NameSet(row[1..])
  {
    var tail := row[1..];
    forall i, j | 0 <= i < j < |tail| ensures tail[i].name != tail[j].name {
      assert tail[i] == row[i + 1] && tail[j] == row[j + 1];
    }
    forall c | c in tail ensures c.name != row[0].name {
      var k :| 0 <= k < |tail| && tail[k] == c;
      assert row[k + 1] == c;
    }
  }

  /** Two baseline maps that agree on the names of a row judge that row alike. */
  lemma {:induction false} EmittedDependsOnRowNamesOnly(b: Baselines, b': Baselines, row: seq<Counter>)
    requires forall c <- row :: (c.name in b <==> c.name in b') && (c.name in b ==> b[c.name] == b'[c.name])
    ensures Emitted(b, row) == Emitted(b', row)
    decreases |row|
  {
    if row != [] {
      assert row[0] in row;
      assert DeltaOf(b, row[0]) == DeltaOf(b', row[0]);
      EmittedDependsOnRowNamesOnly(b, b', row[1..]);
    }
  }

  /**
   * With distinct column names the sequential loop agrees with the reference:
   * no column sees a baseline written earlier in the same cycle, so the
   * emitted deltas are exactly those judged against the starting baselines,
   * and every column's name ends up with that column's value as its baseline.
   */
  lemma {:induction false} ApplyRowMatchesReference(b: Baselines, row: seq<Counter>)
    requires DistinctNames(row)
    ensures ApplyRow(b, row).deltas == Emitted(b, row)
    ensures forall i :: 0 <= i < |row| ==> ApplyRow(b, row).baselines[row[i].name] == row[i].value
    decreases |row|
  {
    if row != [] {
      var c := row[0];
      var b1 := b[c.name := c.value];
      var tail := row[1..];
      DistinctTail(row);
      ApplyRowMatchesReference(b1, tail);
      forall d <- tail
        ensures (d.name in b <==> d.name in b1) && (d.name in b ==> b[d.name] == b1[d.name])
      {
        assert d.name in NameSet(tail);
      }
      EmittedDependsOnRowNamesOnly(b, b1, tail);
      forall i | 0 <= i < |row|
        ensures ApplyRow(b, row).baselines[row[i].name] == row[i].value
      {
        if i > 0 {
          assert row[i] == tail[i - 1];
        }
      }
    }
  }

  /** Every emitted delta comes from a column that had a baseline and did not go down, and measures its increase. */
  lemma {:induction false} EmittedSound(b: Baselines, row: seq<Counter>, x: Delta)
    requires x in Emitted(b, row)
    ensures exists i :: 0 <= i < |row| && row[i].name == x.name && Emits(b, row[i]) && b[row[i].name] + x.amount == row[i].value
    decreases |row|
  {
    if x in DeltaOf(b, row[0]) {
      assert row[0].name == x.name && Emits(b, row[0]) && b[row[0].name] + x.amount == row[0].value;
    } else {
      EmittedSound(b, row[1..], x);
      var i :| 0 <= i < |row[1..]| && row[1..][i].name == x.name && Emits(b, row[1..][i]) && b[row[1..][i].name] + x.amount == row[1..][i].value;
      assert row[i + 1] == row[1..][i];
    }
  }

  /**
   * Per column, with distinct names: exactly one delta is emitted for a
   * column that had a baseline and did not go down, none for a first
   * sighting or a reset.
   */
  lemma {:induction false} EmittedPerColumn(b: Baselines, row: seq<Counter>, i: int)
    requires DistinctNames(row) && 0 <= i < |row|
    ensures Occurrences(Emitted(b, row), row[i].name) == (if Emits(b, row[i]) then 1 else 0)
    decreases |row|
  {
    var tail := row[1..];
    OccurrencesAppend(DeltaOf(b, row[0]), Emitted(b, tail), row[i].name);
    DistinctTail(row);
    if i == 0 {
      NoOccurrencesOutsideRow(b, tail, row[0].name);
    } else {
      assert tail[i - 1] == row[i];
      EmittedPerColumn(b, tail, i - 1);
      assert row[0].name != row[i].name;
    }
  }

  /** A column that had a baseline and did not go down has its increase among the emitted deltas. */
  lemma {:induction false} EmittedComplete(b: Baselines, row: seq<Counter>, i: int)
    requires 0 <= i < |row| && Emits(b, row[i])
    ensures Delta(row[i].name, row[i].value - b[row[i].name]) in Emitted(b, row)
    decreases |row|
  {
    if i > 0 {
      assert row[1..][i - 1] == row[i];
      EmittedComplete(b, row[1..], i - 1);
    }
  }

  /** A name that is not a column of the row is never emitted. */
  lemma {:induction false} NoOccurrencesOutsideRow(b: Baselines, row: seq<Counter>, n: string)
    requires n !in NameSet(row)
    ensures Occurrences(Emitted(b, row), n) == 0
    decreases |row|
  {
    if row != [] {
      assert row[0] in row;
      OccurrencesAppend(DeltaOf(b, row[0]), Emitted(b, row[1..]), n);
      assert NameSet(row[1..]) <= NameSet(row) by {
        forall m | m in NameSet(row[1..]) ensures m in NameSet(row) {
          var c :| c in row[1..] && c.name == m;
          assert c in row;
        }
      }
      NoOccurrencesOutsideRow(b, row[1..], n);
    }
  }

  /** Counting occurrences distributes over concatenation. */
  lemma {:induction false} OccurrencesAppend(xs: seq<Delta>, ys: seq<Delta>, n: string)
    ensures Occurrences(xs + ys, n) == Occurrences(xs, n) + Occurrences(ys, n)
    decreases |xs|
  {
    if xs != [] {
      assert (xs + ys)[0] == xs[0];
      assert (xs + ys)[1..] == xs[1..] + ys;
      OccurrencesAppend(xs[1..], ys, n);
    } else {
      assert xs + ys == ys;
    }
  }
}
