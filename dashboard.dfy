/** The dashboard (`erp.health.dashboard`): counters and latest readings computed from
    the history tables, and the good / warning / critical indicators. */
module Dashboard {
  import opened Base
  import opened Clock
  import opened History
  import ServerMetrics
  import CronLog
  import SlowQuery
  import DatabaseLock
  import OdooLog
  import RetentionConfig

  /** The three values of a status selection, from best to worst. */
  datatype Tier = Good | Warning | Critical

  function Severity(t: Tier): nat {
    match t
    case Good => 0
    case Warning => 1
    case Critical => 2
  }

  /** The `if < warn / elif < critical / else` chain each indicator uses. */
  function Classify(percent: real, warnFrom: real, criticalFrom: real): (t: Tier)
    requires warnFrom <= criticalFrom
    ensures t == Good <==> percent < warnFrom
    ensures t == Warning <==> warnFrom <= percent < criticalFrom
    ensures t == Critical <==> criticalFrom <= percent
  {
    if percent < warnFrom then Good
    else if percent < criticalFrom then Warning
    else Critical
  }

  /** CPU: good below 60, warning below 80, critical from 80. */
  function CpuTier(percent: real): (t: Tier)
    ensures t == Good <==> percent < 60.0
    ensures t == Warning <==> 60.0 <= percent < 80.0
    ensures t == Critical <==> 80.0 <= percent
  {
    Classify(percent, 60.0, 80.0)
  }

  /** RAM: good below 70, warning below 85, critical from 85. */
  function RamTier(percent: real): (t: Tier)
    ensures t == Good <==> percent < 70.0
    ensures t == Warning <==> 70.0 <= percent < 85.0
    ensures t == Critical <==> 85.0 <= percent
  {
    Classify(percent, 70.0, 85.0)
  }

  /** Disk: good below 75, warning below 90, critical from 90. */
  function DiskTier(percent: real): (t: Tier)
    ensures t == Good <==> percent < 75.0
    ensures t == Warning <==> 75.0 <= percent < 90.0
    ensures t == Critical <==> 90.0 <= percent
  {
    Classify(percent, 75.0, 90.0)
  }

  /** A higher percentage never gives a better indicator. */
  lemma ClassifyMonotone(p: real, q: real, warnFrom: real, criticalFrom: real)
    requires warnFrom <= criticalFrom && p <= q
    ensures Severity(Classify(p, warnFrom, criticalFrom)) <= Severity(Classify(q, warnFrom, criticalFrom))
  {
  }

  /** The three indicators are monotone in their percentages. */
  lemma TiersMonotone(p: real, q: real)
    requires p <= q
    ensures Severity(CpuTier(p)) <= Severity(CpuTier(q))
    ensures Severity(RamTier(p)) <= Severity(RamTier(q))
    ensures Severity(DiskTier(p)) <= Severity(DiskTier(q))
  {
    ClassifyMonotone(p, q, 60.0, 80.0);
    ClassifyMonotone(p, q, 70.0, 85.0);
    ClassifyMonotone(p, q, 75.0, 90.0);
  }

  /** The computed fields of a dashboard record. */
  datatype Stats = Stats(
    cpuPercent: real,
    ramPercent: real,
    diskPercent: real,
    lastUpdate: Option<Time>,
    totalCrons: nat,
    failedCrons: nat,
    slowCrons: nat,
    totalQueries: nat,
    queriesToday: nat,
    totalLocks: nat,
    errorLogs: nat)

  datatype HealthStatus = HealthStatus(cpu: Tier, ram: Tier, disk: Tier)

  /** `_compute_health_status`. */
  function ComputeHealthStatus(s: Stats): (h: HealthStatus)
    ensures h.cpu == CpuTier(s.cpuPercent) && h.ram == RamTier(s.ramPercent)
    ensures h.disk == DiskTier(s.diskPercent)
  {
    HealthStatus(CpuTier(s.cpuPercent), RamTier(s.ramPercent), DiskTier(s.diskPercent))
  }

  /** `execution_date >= today_start` and `status = 'failed'`. */
  function FailedToday(now: Time): Row<CronLog.CronRecord> -> bool {
    (r: Row<CronLog.CronRecord>) => r.data.status == CronLog.Failed && r.time >= StartOfDay(now)
  }

  /** `execution_date >= today_start` and `is_slow = True`. */
  function SlowToday(now: Time): Row<CronLog.CronRecord> -> bool {
    (r: Row<CronLog.CronRecord>) => r.data.isSlow && r.time >= StartOfDay(now)
  }

  /** `detected_at >= today_start` (or `timestamp`, for any table). */
  function Today<P>(now: Time): Row<P> -> bool {
    (r: Row<P>) => r.time >= StartOfDay(now)
  }

  /** `level in ['ERROR', 'CRITICAL']` and `timestamp >= today_start`. */
  function ErrorToday(now: Time): Row<OdooLog.LogEntry> -> bool {
    (r: Row<OdooLog.LogEntry>) =>
      (r.data.level == OdooLog.Error || r.data.level == OdooLog.Critical) && r.time >= StartOfDay(now)
  }

  /** `_compute_dashboard_stats`: every dashboard record gets the same values. The
      readings come from the metrics row with the largest id, or are 0 (and no update
      time) when there is none; the cron and query totals count whole tables, the other
      counters only the rows of the day `now` falls on. */
  function ComputeStats(
    metrics: seq<Row<ServerMetrics.MetricSample>>,
    crons: seq<Row<CronLog.CronRecord>>,
    queries: seq<Row<SlowQuery.SlowQueryRecord>>,
    locks: seq<Row<DatabaseLock.LockRecord>>,
    logs: seq<Row<OdooLog.LogEntry>>,
    now: Time): (s: Stats)
    ensures s.totalCrons == |crons| && s.totalQueries == |queries|
    ensures s.failedCrons <= s.totalCrons && s.slowCrons <= s.totalCrons
    ensures s.queriesToday <= s.totalQueries
    ensures s.totalLocks <= |locks| && s.errorLogs <= |logs|
    ensures crons == [] ==> s.failedCrons == 0 && s.slowCrons == 0
    ensures queries == [] ==> s.queriesToday == 0
    ensures locks == [] ==> s.totalLocks == 0
    ensures logs == [] ==> s.errorLogs == 0
    ensures metrics == [] ==>
      s.cpuPercent == 0.0 && s.ramPercent == 0.0 && s.diskPercent == 0.0 && s.lastUpdate == None
    ensures metrics != [] ==> var m := Newest(metrics);
      && m in metrics
      && s.cpuPercent == m.data.cpuPercent && s.ramPercent == m.data.ramPercent
      && s.diskPercent == m.data.diskPercent && s.lastUpdate == Some(m.time)
  {
    var latest := if metrics == [] then None else Some(Newest(metrics));
    Stats(if latest.Some? then latest.value.data.cpuPercent else 0.0,
          if latest.Some? then latest.value.data.ramPercent else 0.0,
          if latest.Some? then latest.value.data.diskPercent else 0.0,
          if latest.Some? then Some(latest.value.time) else None,
          |crons|, CountIf(crons, FailedToday(now)), CountIf(crons, SlowToday(now)),
          |queries|, CountIf(queries, Today(now)),
          CountIf(locks, Today(now)),
          CountIf(logs, ErrorToday(now)))
  }

  /** With ids handed out in increasing order, the readings shown are those of the last
      sample stored. */
  lemma LatestMetricShown(
    metrics: seq<Row<ServerMetrics.MetricSample>>,
    crons: seq<Row<CronLog.CronRecord>>,
    queries: seq<Row<SlowQuery.SlowQueryRecord>>,
    locks: seq<Row<DatabaseLock.LockRecord>>,
    logs: seq<Row<OdooLog.LogEntry>>,
    now: Time)
    requires IdsIncreasing(metrics) && metrics != []
    ensures var s := ComputeStats(metrics, crons, queries, locks, logs, now);
      var last := metrics[|metrics| - 1];
      s.cpuPercent == last.data.cpuPercent && s.ramPercent == last.data.ramPercent
      && s.diskPercent == last.data.diskPercent && s.lastUpdate == Some(last.time)
  {
    NewestIsLast(metrics);
  }

  /** Right after a successful collection the dashboard shows the sample just taken. */
  lemma ShowsCollectedSample(
    rows: seq<Row<ServerMetrics.MetricSample>>,
    sample: Row<ServerMetrics.MetricSample>,
    crons: seq<Row<CronLog.CronRecord>>,
    queries: seq<Row<SlowQuery.SlowQueryRecord>>,
    locks: seq<Row<DatabaseLock.LockRecord>>,
    logs: seq<Row<OdooLog.LogEntry>>,
    now: Time)
    requires IdsIncreasing(rows)
    requires forall i :: 0 <= i < |rows| ==> rows[i].id < sample.id
    ensures var s := ComputeStats(KeepNewest(rows + [sample], ServerMetrics.MaxSamples),
                                  crons, queries, locks, logs, now);
      s.cpuPercent == sample.data.cpuPercent && s.ramPercent == sample.data.ramPercent
      && s.diskPercent == sample.data.diskPercent && s.lastUpdate == Some(sample.time)
  {
    ServerMetrics.CollectedIsNewest(rows, sample);
  }

  /** Each log row stored adds one to the error counter exactly when it is an ERROR or
      CRITICAL record of today. */
  lemma ErrorLogsCountAppend(
    metrics: seq<Row<ServerMetrics.MetricSample>>,
    crons: seq<Row<CronLog.CronRecord>>,
    queries: seq<Row<SlowQuery.SlowQueryRecord>>,
    locks: seq<Row<DatabaseLock.LockRecord>>,
    logs: seq<Row<OdooLog.LogEntry>>,
    x: Row<OdooLog.LogEntry>,
    now: Time)
    ensures ComputeStats(metrics, crons, queries, locks, logs + [x], now).errorLogs
         == ComputeStats(metrics, crons, queries, locks, logs, now).errorLogs
            + (if (x.data.level == OdooLog.Error || x.data.level == OdooLog.Critical)
                  && x.time >= StartOfDay(now) then 1 else 0)
  {
    CountIfAppend(logs, x, ErrorToday(now));
  }

  /** Each cron-log row stored adds one to the failed counter exactly when it failed
      today. */
  lemma FailedCronCountAppend(
    metrics: seq<Row<ServerMetrics.MetricSample>>,
    crons: seq<Row<CronLog.CronRecord>>,
    queries: seq<Row<SlowQuery.SlowQueryRecord>>,
    locks: seq<Row<DatabaseLock.LockRecord>>,
    logs: seq<Row<OdooLog.LogEntry>>,
    x: Row<CronLog.CronRecord>,
    now: Time)
    ensures ComputeStats(metrics, crons + [x], queries, locks, logs, now).failedCrons
         == ComputeStats(metrics, crons, queries, locks, logs, now).failedCrons
            + (if x.data.status == CronLog.Failed && x.time >= StartOfDay(now) then 1 else 0)
    ensures ComputeStats(metrics, crons + [x], queries, locks, logs, now).totalCrons
         == ComputeStats(metrics, crons, queries, locks, logs, now).totalCrons + 1
  {
    CountIfAppend(crons, x, FailedToday(now));
  }

  /** Each cron-log row stored adds one to the slow counter exactly when it is a slow
      run of today. */
  lemma SlowCronCountAppend(
    metrics: seq<Row<ServerMetrics.MetricSample>>,
    crons: seq<Row<CronLog.CronRecord>>,
    queries: seq<Row<SlowQuery.SlowQueryRecord>>,
    locks: seq<Row<DatabaseLock.LockRecord>>,
    logs: seq<Row<OdooLog.LogEntry>>,
    x: Row<CronLog.CronRecord>,
    now: Time)
    ensures ComputeStats(metrics, crons + [x], queries, locks, logs, now).slowCrons
         == ComputeStats(metrics, crons, queries, locks, logs, now).slowCrons
            + (if x.data.isSlow && x.time >= StartOfDay(now) then 1 else 0)
  {
    CountIfAppend(crons, x, SlowToday(now));
  }

  /** Each slow-query row stored adds one to `total_queries`, and one to
      `queries_today` exactly when it was detected today. */
  lemma QueriesTodayAppend(
    metrics: seq<Row<ServerMetrics.MetricSample>>,
    crons: seq<Row<CronLog.CronRecord>>,
    queries: seq<Row<SlowQuery.SlowQueryRecord>>,
    locks: seq<Row<DatabaseLock.LockRecord>>,
    logs: seq<Row<OdooLog.LogEntry>>,
    x: Row<SlowQuery.SlowQueryRecord>,
    now: Time)
    ensures ComputeStats(metrics, crons, queries + [x], locks, logs, now).queriesToday
         == ComputeStats(metrics, crons, queries, locks, logs, now).queriesToday
            + (if x.time >= StartOfDay(now) then 1 else 0)
    ensures ComputeStats(metrics, crons, queries + [x], locks, logs, now).totalQueries
         == ComputeStats(metrics, crons, queries, locks, logs, now).totalQueries + 1
  {
    CountIfAppend(queries, x, Today(now));
  }

  /** Each lock row stored adds one to `total_locks` exactly when it was detected
      today. */
  lemma LocksTodayAppend(
    metrics: seq<Row<ServerMetrics.MetricSample>>,
    crons: seq<Row<CronLog.CronRecord>>,
    queries: seq<Row<SlowQuery.SlowQueryRecord>>,
    locks: seq<Row<DatabaseLock.LockRecord>>,
    logs: seq<Row<OdooLog.LogEntry>>,
    x: Row<DatabaseLock.LockRecord>,
    now: Time)
    ensures ComputeStats(metrics, crons, queries, locks + [x], logs, now).totalLocks
         == ComputeStats(metrics, crons, queries, locks, logs, now).totalLocks
            + (if x.time >= StartOfDay(now) then 1 else 0)
  {
    CountIfAppend(locks, x, Today(now));
  }

  /** A count over today's rows is unchanged by any retention sweep at the same moment:
      the shortest retention keeps seven days, so no row of today is older than a
      cutoff. */
  lemma TodayCountSurvivesSweep<P>(rows: seq<Row<P>>, r: RetentionConfig.Retention, now: Time,
                                   keep: Row<P> -> bool)
    requires forall i :: 0 <= i < |rows| && keep(rows[i]) ==> rows[i].time >= StartOfDay(now)
    ensures CountIf(RetentionConfig.Sweep(rows, r, now), keep) == CountIf(rows, keep)
  {
    var cutoff := RetentionConfig.Cutoff(r, now);
    if cutoff.Some? {
      CountIfKeepSince(rows, cutoff.value, keep);
    }
  }

  /** The daily counters read the same before and after a cleanup sweep at the same
      moment, whatever the retention settings. */
  lemma CleanupKeepsDailyCounters(
    metrics: seq<Row<ServerMetrics.MetricSample>>,
    crons: seq<Row<CronLog.CronRecord>>,
    queries: seq<Row<SlowQuery.SlowQueryRecord>>,
    locks: seq<Row<DatabaseLock.LockRecord>>,
    logs: seq<Row<OdooLog.LogEntry>>,
    settings: RetentionConfig.Settings,
    now: Time)
    ensures var before := ComputeStats(metrics, crons, queries, locks, logs, now);
      var after := ComputeStats(RetentionConfig.Sweep(metrics, settings.serverMetrics, now),
                                RetentionConfig.Sweep(crons, settings.cronLogs, now),
                                RetentionConfig.Sweep(queries, settings.slowQueries, now),
                                RetentionConfig.Sweep(locks, settings.databaseLocks, now),
                                RetentionConfig.Sweep(logs, settings.systemLogs, now),
                                now);
      && after.failedCrons == before.failedCrons && after.slowCrons == before.slowCrons
      && after.queriesToday == before.queriesToday && after.totalLocks == before.totalLocks
      && after.errorLogs == before.errorLogs
  {
    TodayCountSurvivesSweep(crons, settings.cronLogs, now, FailedToday(now));
    TodayCountSurvivesSweep(crons, settings.cronLogs, now, SlowToday(now));
    TodayCountSurvivesSweep(queries, settings.slowQueries, now, Today(now));
    TodayCountSurvivesSweep(locks, settings.databaseLocks, now, Today(now));
    TodayCountSurvivesSweep(logs, settings.systemLogs, now, ErrorToday(now));
  }

  /** The singleton `create`: the existing dashboard when there is one, nothing stored;
      otherwise the records for `vals`. */
  method Create(dashboards: Table<()>, vals: seq<()>, now: Time) returns (result: seq<Row<()>>)
    requires dashboards.Valid()
    modifies dashboards
    ensures dashboards.Valid()
    ensures old(dashboards.rows) != [] ==>
      result == [old(dashboards.rows)[0]]
      && dashboards.rows == old(dashboards.rows) && dashboards.nextId == old(dashboards.nextId)
    ensures old(dashboards.rows) == [] ==>
      result == dashboards.rows == Stamp(old(dashboards.nextId), now, vals)
    ensures |old(dashboards.rows)| <= 1 && |vals| <= 1 ==> |dashboards.rows| <= 1
  {
    result := dashboards.CreateSingleton(now, vals);
  }
}
