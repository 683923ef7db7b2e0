/** The retention settings (`erp.health.config`): one record saying how long each
    history table keeps its rows, and the sweep that deletes what is older. */
module RetentionConfig {
  import opened Base
  import opened Text
  import opened History
  import OdooLog
  import SlowQuery
  import ServerMetrics
  import DatabaseLock
  import CronLog

  /** The five values of a retention selection. */
  datatype Retention = Days7 | Days15 | Days30 | Days90 | All

  /** The stored selection key of a retention value. */
  function Code(r: Retention): (code: string)
    ensures code == "all" <==> r == All
    ensures r != All ==> AllDigits(code) && code != []
  {
    match r
    case Days7 => "7"
    case Days15 => "15"
    case Days30 => "30"
    case Days90 => "90"
    case All => "all"
  }

  /** The number of days a bounded retention keeps, as its label says. */
  function LabelDays(r: Retention): nat
    requires r != All
  {
    match r
    case Days7 => 7
    case Days15 => 15
    case Days30 => 30
    case Days90 => 90
  }

  /** `_get_cutoff_date`: no cutoff for `'all'`; otherwise `now` minus `int(code)` days. */
  function Cutoff(r: Retention, now: Time): (c: Option<Time>)
    ensures c.None? <==> r == All
    ensures c.Some? ==> c.value == now - LabelDays(r) * SecondsPerDay
    ensures c.Some? ==> c.value <= now - 7 * SecondsPerDay
  {
    if r == All then None
    else
      var days := DecimalValue(Code(r));
      CodeIsDays(r);
      Some(now - days * SecondsPerDay)
  }

  /** `int(code)` of a bounded retention is the number of days its label names. */
  lemma CodeIsDays(r: Retention)
    requires r != All
    ensures DecimalValue(Code(r)) == LabelDays(r)
  {
    match r
    case Days7 =>
    case Days15 => assert "15"[..1] == "1";
    case Days30 => assert "30"[..1] == "3";
    case Days90 => assert "90"[..1] == "9";
  }

  /** The stored settings record. */
  datatype Settings = Settings(
    systemLogs: Retention,
    slowQueries: Retention,
    serverMetrics: Retention,
    databaseLocks: Retention,
    cronLogs: Retention,
    autoCleanup: bool,
    lastCleanup: Option<Time>)

  /** The field defaults of a new record. */
  const DefaultSettings: Settings := Settings(Days30, Days30, Days30, Days15, Days30, true, None)

  /** The settings `get_config` finds: the first record, or the defaults of the one it
      creates when there is none. */
  function CurrentSettings(rows: seq<Row<Settings>>): Settings {
    if rows != [] then rows[0].data else DefaultSettings
  }

  /** What the age trim of one table leaves under a retention value. */
  function Sweep<P>(rows: seq<Row<P>>, r: Retention, now: Time): seq<Row<P>> {
    match Cutoff(r, now)
    case None => rows
    case Some(c) => KeepSince(rows, c)
  }

  /** A sweep deletes exactly the rows older than the cutoff: a row survives if and only
      if it was in the table and the retention is `'all'` or the row was captured at or
      after `now` minus the retention's days. */
  lemma SweepKeepsExactly<P>(rows: seq<Row<P>>, r: Retention, now: Time, x: Row<P>)
    ensures x in Sweep(rows, r, now) <==>
      x in rows && (r == All || x.time >= now - LabelDays(r) * SecondsPerDay)
  {
    if r != All {
      KeepSinceMembers(rows, Cutoff(r, now).value);
      if x in rows && x.time >= now - LabelDays(r) * SecondsPerDay {
        var i :| 0 <= i < |rows| && rows[i] == x;
      }
    }
  }

  /** Sweeping again at the same moment deletes nothing more. */
  lemma SweepIdempotent<P>(rows: seq<Row<P>>, r: Retention, now: Time)
    ensures Sweep(Sweep(rows, r, now), r, now) == Sweep(rows, r, now)
  {
    if r != All {
      KeepSinceIdempotent(rows, Cutoff(r, now).value);
    }
  }

  /** A longer retention keeps every row a shorter one keeps. */
  lemma LongerRetentionKeepsMore<P>(rows: seq<Row<P>>, short: Retention, long: Retention, now: Time, x: Row<P>)
    requires short != All && (long == All || LabelDays(short) <= LabelDays(long))
    requires x in Sweep(rows, short, now)
    ensures x in Sweep(rows, long, now)
  {
    SweepKeepsExactly(rows, short, now, x);
    SweepKeepsExactly(rows, long, now, x);
  }

  /** `get_config`: the first record when one exists, otherwise a record created with
      the defaults. It never makes a second record. */
  method GetConfig(configs: Table<Settings>, now: Time) returns (config: Row<Settings>)
    requires configs.Valid()
    modifies configs
    ensures configs.Valid()
    ensures configs.rows != [] && config == configs.rows[0]
    ensures config.data == CurrentSettings(old(configs.rows))
    ensures old(configs.rows) != [] ==>
      configs.rows == old(configs.rows) && configs.nextId == old(configs.nextId)
    ensures old(configs.rows) == [] ==>
      configs.rows == [Row(old(configs.nextId), now, DefaultSettings)]
      && configs.nextId == old(configs.nextId) + 1
  {
    if configs.rows != [] {
      return configs.rows[0];
    }
    var created := Create(configs, [DefaultSettings], now);
    config := created[0];
  }

  /** The singleton `create`: the existing record when there is one, nothing stored;
      otherwise the records for `vals`. */
  method Create(configs: Table<Settings>, vals: seq<Settings>, now: Time) returns (result: seq<Row<Settings>>)
    requires configs.Valid()
    modifies configs
    ensures configs.Valid()
    ensures old(configs.rows) != [] ==>
      result == [old(configs.rows)[0]]
      && configs.rows == old(configs.rows) && configs.nextId == old(configs.nextId)
    ensures old(configs.rows) == [] ==>
      result == configs.rows == Stamp(old(configs.nextId), now, vals)
      && configs.nextId == old(configs.nextId) + |vals|
  {
    result := configs.CreateSingleton(now, vals);
  }

  /** One table's step of the sweep: when the retention has a cutoff, the rows captured
      strictly before it are searched, counted and unlinked. */
  method SweepTable<P>(table: Table<P>, r: Retention, now: Time)
    requires table.Valid()
    modifies table
    ensures table.Valid()
    ensures table.rows == Sweep(old(table.rows), r, now) && table.nextId == old(table.nextId)
  {
    var cutoff := Cutoff(r, now);
    if cutoff.Some? {
      var count := table.DeleteOlderThan(cutoff.value);
    }
  }

  /** The five table steps of the sweep, in order, each on its own retention. */
  method SweepAll(
    s: Settings,
    logs: Table<OdooLog.LogEntry>,
    queries: Table<SlowQuery.SlowQueryRecord>,
    metrics: Table<ServerMetrics.MetricSample>,
    locks: Table<DatabaseLock.LockRecord>,
    crons: Table<CronLog.CronRecord>,
    now: Time)
    requires logs.Valid() && queries.Valid() && metrics.Valid() && locks.Valid() && crons.Valid()
    modifies logs, queries, metrics, locks, crons
    ensures logs.Valid() && queries.Valid() && metrics.Valid() && locks.Valid() && crons.Valid()
    ensures logs.nextId == old(logs.nextId) && queries.nextId == old(queries.nextId)
    ensures metrics.nextId == old(metrics.nextId) && locks.nextId == old(locks.nextId)
    ensures crons.nextId == old(crons.nextId)
    ensures logs.rows == Sweep(old(logs.rows), s.systemLogs, now)
    ensures queries.rows == Sweep(old(queries.rows), s.slowQueries, now)
    ensures metrics.rows == Sweep(old(metrics.rows), s.serverMetrics, now)
    ensures locks.rows == Sweep(old(locks.rows), s.databaseLocks, now)
    ensures crons.rows == Sweep(old(crons.rows), s.cronLogs, now)
  {
    SweepTable(logs, s.systemLogs, now);
    SweepTable(queries, s.slowQueries, now);
    SweepTable(metrics, s.serverMetrics, now);
    SweepTable(locks, s.databaseLocks, now);
    SweepTable(crons, s.cronLogs, now);
  }

  /** `cleanup_old_data`. With auto-cleanup off it returns `None` (here `false`) and
      changes no table. Otherwise each of the five tables loses its rows older than its
      own cutoff, on its own time field, the record's `last_cleanup` becomes `now`, and
      it returns True. */
  method CleanupOldData(
    configs: Table<Settings>,
    logs: Table<OdooLog.LogEntry>,
    queries: Table<SlowQuery.SlowQueryRecord>,
    metrics: Table<ServerMetrics.MetricSample>,
    locks: Table<DatabaseLock.LockRecord>,
    crons: Table<CronLog.CronRecord>,
    now: Time)
    returns (swept: bool)
    requires configs.Valid() && logs.Valid() && queries.Valid()
    requires metrics.Valid() && locks.Valid() && crons.Valid()
    modifies configs, logs, queries, metrics, locks, crons
    ensures configs.Valid() && logs.Valid() && queries.Valid()
    ensures metrics.Valid() && locks.Valid() && crons.Valid()
    ensures swept <==> CurrentSettings(old(configs.rows)).autoCleanup
    ensures |configs.rows| == if old(configs.rows) == [] then 1 else |old(configs.rows)|
    ensures forall i :: 1 <= i < |configs.rows| ==> configs.rows[i] == old(configs.rows)[i]
    ensures configs.rows[0].data == var s := CurrentSettings(old(configs.rows));
      if swept then s.(lastCleanup := Some(now)) else s
    ensures logs.nextId == old(logs.nextId) && queries.nextId == old(queries.nextId)
    ensures metrics.nextId == old(metrics.nextId) && locks.nextId == old(locks.nextId)
    ensures crons.nextId == old(crons.nextId)
    ensures !swept ==>
      && logs.rows == old(logs.rows) && queries.rows == old(queries.rows)
      && metrics.rows == old(metrics.rows) && locks.rows == old(locks.rows)
      && crons.rows == old(crons.rows)
    ensures swept ==> var s := CurrentSettings(old(configs.rows));
      && logs.rows == Sweep(old(logs.rows), s.systemLogs, now)
      && queries.rows == Sweep(old(queries.rows), s.slowQueries, now)
      && metrics.rows == Sweep(old(metrics.rows), s.serverMetrics, now)
      && locks.rows == Sweep(old(locks.rows), s.databaseLocks, now)
      && crons.rows == Sweep(old(crons.rows), s.cronLogs, now)
  {
    var config := GetConfig(configs, now);
    var s := config.data;
    if !s.autoCleanup {
      return false;
    }
    SweepAll(s, logs, queries, metrics, locks, crons, now);
    configs.Write(0, s.(lastCleanup := Some(now)));
    swept := true;
  }
}
