/**
 * The scheduler's round over the configured databases: every five minutes,
 * one `PGStats` per database, tagged with the database name, runs one cycle
 * with a 300-second interval. As written, every instance is handed the same
 * counter map, so the databases' baselines are keyed by column name alone and
 * overwrite one another; `PollIsolated` keeps one map per database.
 */
module Polling {
  import opened Wrappers
  import opened Metric
  import opened Counters
  import opened Aggregator
  import History
  import Bucket

  /** Minutes between rounds. */
  const CollectionInterval := 5

  /** The interval each instance is built with: the round period in seconds. */
  const PollInterval := 60 * CollectionInterval

  /** One configured database: its name (the source tag), what it returned, and the second it was polled. */
  datatype Database = Database(name: string, polled: Polled, now: int)

  /** One round with a single counter map shared by every database. */
  datatype SharedRound = SharedRound(counters: Baselines, cycles: seq<Cycle>)

  /** The round as the scheduler runs it: each database's instance reads and writes the one shared map. */
  function PollShared(counters: Baselines, dbs: seq<Database>): (r: SharedRound)
    ensures |r.cycles| == |dbs|
    ensures forall i :: 0 <= i < |dbs| ==> forall s <- r.cycles[i].queue :: s.source == dbs[i].name
    decreases |dbs|
  {
    if dbs == [] then SharedRound(counters, [])
    else
      var c := Submit(PGStats(counters, PollInterval, dbs[0].name), dbs[0].polled, dbs[0].now);
      var rest := PollShared(c.counters, dbs[1..]);
      assert forall i :: 1 <= i < |dbs| ==> dbs[i] == dbs[1..][i - 1];
      SharedRound(rest.counters, [c] + rest.cycles)
  }

  /**
   * Each database's cycle in a shared round runs on the map the previous
   * database's cycle left behind; the first runs on the map the round
   * started with.
   */
  lemma {:induction false} PollSharedThreads(counters: Baselines, dbs: seq<Database>, i: int)
    requires 0 <= i < |dbs|
    ensures var r := PollShared(counters, dbs);
      var before := if i == 0 then counters else r.cycles[i - 1].counters;
      r.cycles[i] == Submit(PGStats(before, PollInterval, dbs[i].name), dbs[i].polled, dbs[i].now)
    decreases |dbs|
  {
    var c := Submit(PGStats(counters, PollInterval, dbs[0].name), dbs[0].polled, dbs[0].now);
    var rest := PollShared(c.counters, dbs[1..]);
    assert PollShared(counters, dbs).cycles == [c] + rest.cycles;
    if i > 0 {
      PollSharedThreads(c.counters, dbs[1..], i - 1);
      assert dbs[1..][i - 1] == dbs[i];
      assert ([c] + rest.cycles)[i] == rest.cycles[i - 1];
      assert ([c] + rest.cycles)[i - 1] == if i == 1 then c else rest.cycles[i - 2];
    }
  }

  /** The map a shared round leaves is the one its last cycle wrote, or the starting map when no database was polled. */
  lemma {:induction false} PollSharedLeaves(counters: Baselines, dbs: seq<Database>)
    ensures var r := PollShared(counters, dbs);
      r.counters == if dbs == [] then counters else r.cycles[|dbs| - 1].counters
    decreases |dbs|
  {
    if dbs != [] {
      var c := Submit(PGStats(counters, PollInterval, dbs[0].name), dbs[0].polled, dbs[0].now);
      var rest := PollShared(c.counters, dbs[1..]);
      assert PollShared(counters, dbs) == SharedRound(rest.counters, [c] + rest.cycles);
      PollSharedLeaves(c.counters, dbs[1..]);
      if |dbs| > 1 {
        assert ([c] + rest.cycles)[|dbs| - 1] == rest.cycles[|dbs| - 2];
      }
    }
  }

  /** Baselines kept per database name. */
  type Store = map<string, Baselines>

  /** A database's own baselines; a database never polled before has none. */
  function Own(store: Store, name: string): Baselines {
    if name in store then store[name] else map[]
  }

  datatype IsolatedRound = IsolatedRound(store: Store, cycles: seq<Cycle>)

  /** The round with one counter map per database. */
  function PollIsolated(store: Store, dbs: seq<Database>): (r: IsolatedRound)
    ensures |r.cycles| == |dbs|
    decreases |dbs|
  {
    if dbs == [] then IsolatedRound(store, [])
    else
      var d := dbs[0];
      var c := Submit(PGStats(Own(store, d.name), PollInterval, d.name), d.polled, d.now);
      var rest := PollIsolated(store[d.name := c.counters], dbs[1..]);
      IsolatedRound(rest.store, [c] + rest.cycles)
  }

  predicate DistinctDatabases(dbs: seq<Database>) {
    forall i, j :: 0 <= i < j < |dbs| ==> dbs[i].name != dbs[j].name
  }

  /**
   * With one map per database, each database's cycle is exactly the cycle a
   * lone instance would run on that database's own baselines, whatever the
   * other databases returned, and its baselines are stored under its name.
   */
  lemma {:induction false} PollIsolatedIndependent(store: Store, dbs: seq<Database>, i: int)
    requires DistinctDatabases(dbs) && 0 <= i < |dbs|
    ensures var r := PollIsolated(store, dbs);
      var d := dbs[i];
      var c := Submit(PGStats(Own(store, d.name), PollInterval, d.name), d.polled, d.now);
      r.cycles[i] == c && d.name in r.store && r.store[d.name] == c.counters
    decreases |dbs|
  {
    var d := dbs[0];
    var c := Submit(PGStats(Own(store, d.name), PollInterval, d.name), d.polled, d.now);
    var store1 := store[d.name := c.counters];
    var tail := dbs[1..];
    var rest := PollIsolated(store1, tail);
    assert PollIsolated(store, dbs) == IsolatedRound(rest.store, [c] + rest.cycles);
    DistinctDatabasesTail(dbs);
    if i == 0 {
      PollIsolatedKeeps(store1, tail, d.name);
    } else {
      assert tail[i - 1] == dbs[i];
      assert Own(store1, dbs[i].name) == Own(store, dbs[i].name);
      PollIsolatedIndependent(store1, tail, i - 1);
      assert ([c] + rest.cycles)[i] == rest.cycles[i - 1];
    }
  }

  /** Dropping the first database keeps the names distinct, and the first name does not recur. */
  lemma DistinctDatabasesTail(dbs: seq<Database>)
    requires DistinctDatabases(dbs) && dbs != []
    ensures DistinctDatabases(dbs[1..])
    ensures forall d <- dbs[1..] :: d.name != dbs[0].name
  {
    var tail := dbs[1..];
    forall p, q | 0 <= p < q < |tail| ensures tail[p].name != tail[q].name {
      assert tail[p] == dbs[p + 1] && tail[q] == dbs[q + 1];
    }
    forall d | d in tail ensures d.name != dbs[0].name {
      var k :| 0 <= k < |tail| && tail[k] == d;
      assert dbs[k + 1] == d;
    }
  }

  /** A round never touches the baselines of a database it does not poll. */
  lemma {:induction false} PollIsolatedKeeps(store: Store, dbs: seq<Database>, name: string)
    requires forall d <- dbs :: d.name != name
    ensures name in store ==> name in PollIsolated(store, dbs).store && PollIsolated(store, dbs).store[name] == store[name]
    decreases |dbs|
  {
    if dbs != [] {
      assert dbs[0] in dbs;
      var d := dbs[0];
      var c := Submit(PGStats(Own(store, d.name), PollInterval, d.name), d.polled, d.now);
      PollIsolatedKeeps(store[d.name := c.counters], dbs[1..], name);
    }
  }

  /** A database whose `inserts` counter is the only stats column. */
  function InsertsOnly(name: string, value: nat, now: int): Database {
    Database(name, History.OnlyCounter("inserts", value), now)
  }

  /** The cycle of a database polling only `inserts` that had baseline `before` and now reads `after`. */
  lemma InsertsCycle(m: Baselines, name: string, after: nat, now: int)
    ensures var c := Submit(PGStats(m, PollInterval, name), History.OnlyCounter("inserts", after), now);
      && c.counters == m["inserts" := after]
      && ("inserts" in m && m["inserts"] <= after ==>
            c.queue == [Sample("postgres.inserts", Count(after - m["inserts"]), Bucket.NowFloored(now, PollInterval), name)])
      && ("inserts" !in m || after < m["inserts"] ==> c.queue == [])
  {
    History.SingleCounterCycle(PGStats(m, PollInterval, name), "inserts", after, now);
    assert Namespace + "inserts" == "postgres.inserts";
  }

  /** The baselines after such a cycle: `inserts` now at its reading. */
  lemma InsertsCounters(m: Baselines, name: string, after: nat, now: int)
    ensures Submit(PGStats(m, PollInterval, name), History.OnlyCounter("inserts", after), now).counters
      == m["inserts" := after]
  {
    InsertsCycle(m, name, after, now);
  }

  // The scenario lemmas below take their databases through `requires`
  // rather than as literals in the ensures, so that the solver unfolds the
  // rounds only as far as their bodies direct.

  /** Whatever the map held before, after the first shared round its `inserts` baseline is the last database's reading. */
  lemma SharedFirstRound(m: Baselines, first: seq<Database>)
    requires first == [InsertsOnly("a", 100, 300), InsertsOnly("b", 40, 301)]
    ensures var m2 := PollShared(m, first).counters;
      "inserts" in m2 && m2["inserts"] == 40
  {
    var r := PollShared(m, first);
    PollSharedLeaves(m, first);
    PollSharedThreads(m, first, 1);
    InsertsCounters(r.cycles[0].counters, "b", 40, 301);
  }

  /** The second shared round judges `a` against `b`'s reading and `b` against `a`'s. */
  lemma SharedSecondRound(m: Baselines, second: seq<Database>)
    requires "inserts" in m && m["inserts"] == 40
    requires second == [InsertsOnly("a", 110, 600), InsertsOnly("b", 45, 601)]
    ensures var r := PollShared(m, second);
      && r.cycles[0].queue == [Sample("postgres.inserts", Count(70), 600, "a")]
      && r.cycles[1].queue == []
  {
    var r := PollShared(m, second);
    PollSharedThreads(m, second, 0);
    PollSharedThreads(m, second, 1);
    InsertsCycle(m, "a", 110, 600);
    InsertsCycle(r.cycles[0].counters, "b", 45, 601);
    Bucket.NowFlooredUnique(600, 300, 600);
  }

  /**
   * The shared map as written: database `a` reads 100 then 110, database
   * `b` reads 40 then 45. In the second round `a` reports an increase of 70
   * (measured against `b`'s 40, not its own 100) and `b`'s growth of 5 is
   * swallowed as a reset (measured against `a`'s 110).
   */
  lemma SharedCountersCrossTalk(first: seq<Database>, second: seq<Database>)
    requires first == [InsertsOnly("a", 100, 300), InsertsOnly("b", 40, 301)]
    requires second == [InsertsOnly("a", 110, 600), InsertsOnly("b", 45, 601)]
    ensures var r := PollShared(PollShared(map[], first).counters, second);
      && r.cycles[0].queue == [Sample("postgres.inserts", Count(70), 600, "a")]
      && r.cycles[1].queue == []
  {
    SharedFirstRound(map[], first);
    SharedSecondRound(PollShared(map[], first).counters, second);
  }

  /** After the first round with one map per database, each holds its own reading. */
  lemma IsolatedFirstRound(store: Store, first: seq<Database>)
    requires store == map[]
    requires first == [InsertsOnly("a", 100, 300), InsertsOnly("b", 40, 301)]
    ensures var s1 := PollIsolated(store, first).store;
      Own(s1, "a") == map["inserts" := 100] && Own(s1, "b") == map["inserts" := 40]
  {
    PollIsolatedIndependent(store, first, 0);
    PollIsolatedIndependent(store, first, 1);
    InsertsCycle(map[], "a", 100, 300);
    InsertsCycle(map[], "b", 40, 301);
  }

  /** The second round with one map per database judges each reading against its own database's. */
  lemma IsolatedSecondRound(s1: Store, second: seq<Database>)
    requires Own(s1, "a") == map["inserts" := 100] && Own(s1, "b") == map["inserts" := 40]
    requires second == [InsertsOnly("a", 110, 600), InsertsOnly("b", 45, 601)]
    ensures var r := PollIsolated(s1, second);
      && r.cycles[0].queue == [Sample("postgres.inserts", Count(10), 600, "a")]
      && r.cycles[1].queue == [Sample("postgres.inserts", Count(5), 600, "b")]
  {
    PollIsolatedIndependent(s1, second, 0);
    PollIsolatedIndependent(s1, second, 1);
    InsertsCycle(Own(s1, "a"), "a", 110, 600);
    InsertsCycle(Own(s1, "b"), "b", 45, 601);
    Bucket.NowFlooredUnique(600, 300, 600);
    Bucket.NowFlooredUnique(601, 300, 600);
  }

  /**
   * The same two rounds with one map per database: `a` reports its own
   * increase of 10 and `b` its own increase of 5.
   */
  lemma IsolatedCountersNoCrossTalk(first: seq<Database>, second: seq<Database>)
    requires first == [InsertsOnly("a", 100, 300), InsertsOnly("b", 40, 301)]
    requires second == [InsertsOnly("a", 110, 600), InsertsOnly("b", 45, 601)]
    ensures var r := PollIsolated(PollIsolated(map[], first).store, second);
      && r.cycles[0].queue == [Sample("postgres.inserts", Count(10), 600, "a")]
      && r.cycles[1].queue == [Sample("postgres.inserts", Count(5), 600, "b")]
  {
    IsolatedFirstRound(map[], first);
    IsolatedSecondRound(PollIsolated(map[], first).store, second);
  }
}
