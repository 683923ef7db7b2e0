# ERP Health Monitor — a verified model of its core

This project models the logic of the Odoo add-on *ERP Health Monitor* (`odoo_erp_health_monitor`).
It covers the history tables the add-on fills and trims:
- server resource samples;
- slow PostgreSQL queries;
- lock waits;
- Odoo log lines;
- scheduled-job runs.

It also covers:
- the retention settings record and its cleanup sweep;
- the dashboard's counters and health tiers;
- the hook that records every scheduled-job run.

Each Odoo model becomes a `class Table<P>`. It holds a sequence of rows with strictly increasing ids, each with the table's own capture time (`timestamp`, `detected_at` or `execution_date`), and a next id. ORM calls (`create`, `search(...).unlink()`, `write`) are methods on it. Time is an integer number of seconds since 0001-01-01. The current moment is a parameter named `now`.

Everything from outside the add-on is an input:
- operating-system readings (a `Probe`);
- the rows PostgreSQL's statistics views would return (`Session`, `LockWait`);
- the log file's lines;
- the outcome of a scheduled job;
- system parameters (`Param`).

Modules, one per source file plus shared ones:

- `Base`: `Option`, the `Exit` outcome of a Python call (a value or a raised `NameError`/`ValueError`), and system-parameter reading.
- `Text`: Python's `strip`, slicing, digit strings, and SQL `LIKE '%…%'`.
- `Clock`: the calendar, `datetime` validity, hour of day and midnight.
- `Strptime`: `datetime.strptime` for the format `%Y-%m-%d %H:%M:%S`, modelled as a directive interpreter, with its inverse (formatting).
- `History`: rows, the "keep the K largest ids" trim, the age trim, counting, and the `Table` class.
- `Ranking`: filtering, `ORDER BY … DESC` (NULLS FIRST, as PostgreSQL does) and `LIMIT`.
- `ServerMetrics`, `SlowQuery`, `DatabaseLock`, `OdooLog`, `CronLog`, `CronHook` (the `ir.cron` override), `RetentionConfig`, `Dashboard`: the add-on's models.

Where the documentation and the code differ, the model follows the code:
- `is_slow` on a cron-log row is a stored computed field that depends only on `duration`. It is set once, when the row is written, with the threshold in force then. Changing the threshold later does not reclassify old rows. `CronLog.NewRecord` fixes it at creation.
- `odoo_log.py` uses a module-level `_logger` that the file never defines. So when no log file is found, `refresh_logs` raises `NameError` rather than returning False. `OdooLog.RefreshLogs` models that path as `Raise(NameError)`, and the table is left untouched.
- `cleanup_old_data` returns `None` when auto-cleanup is off. `RetentionConfig.CleanupOldData` returns `false` there.

## Model

| member | source | states |
|---|---|---|
| RetentionConfig.Code | models/erp_health_config.py:14-20 | a retention is stored under `'all'` exactly when it keeps everything; every other key is a non-empty string of digits |
| RetentionConfig.CodeIsDays | models/erp_health_config.py:93 | `int()` of a bounded retention's key is the number of days its label names (7, 15, 30, 90) |
| RetentionConfig.Cutoff | models/erp_health_config.py:88-94 | there is no cutoff exactly for `'all'`; otherwise the cutoff is `now` minus that many days, at least seven days back |
| RetentionConfig.SweepKeepsExactly | models/erp_health_config.py:105-153 | a row survives one table's sweep iff it was in the table and the retention is `'all'` or the row was captured at or after `now` minus the retention's days |
| RetentionConfig.SweepIdempotent | models/erp_health_config.py:106-153 | a second sweep at the same moment deletes nothing |
| RetentionConfig.LongerRetentionKeepsMore | models/erp_health_config.py:88-94 | a longer retention keeps every row a shorter one keeps |
| RetentionConfig.GetConfig | models/erp_health_config.py:80-86 | returns the first record; only when there is none does it create one, with the defaults (30 days everywhere except 15 for locks, auto-cleanup on), so it never makes a second record |
| RetentionConfig.Create | models/erp_health_config.py:71-78 | returns the existing record and stores nothing when one exists; otherwise stores the given values |
| RetentionConfig.SweepTable | models/erp_health_config.py:106-113 | one table's step removes exactly the rows older than its cutoff, and nothing when the retention is `'all'` |
| RetentionConfig.SweepAll | models/erp_health_config.py:105-153 | each of the five tables is swept on its own retention and its own time field; no id counter changes |
| RetentionConfig.CleanupOldData | models/erp_health_config.py:96-160 | returns true iff auto-cleanup is on; when off, no table changes and `last_cleanup` keeps its value; when on, every table equals its sweep and `last_cleanup` becomes `now`; the settings record is found or created first |
| Dashboard.Classify | odoo_erp_health_monitor/models/dashboard.py:113-136 | good iff below the warning bound, warning iff between the two bounds, critical iff at or above the critical bound |
| Dashboard.CpuTier | odoo_erp_health_monitor/models/dashboard.py:115-120 | good below 60, warning from 60 below 80, critical from 80, each as an iff |
| Dashboard.RamTier | odoo_erp_health_monitor/models/dashboard.py:123-128 | good below 70, warning from 70 below 85, critical from 85, each as an iff |
| Dashboard.DiskTier | odoo_erp_health_monitor/models/dashboard.py:131-136 | good below 75, warning from 75 below 90, critical from 90, each as an iff |
| Dashboard.ClassifyMonotone | odoo_erp_health_monitor/models/dashboard.py:113-136 | a higher percentage never gets a less severe tier |
| Dashboard.TiersMonotone | odoo_erp_health_monitor/models/dashboard.py:113-136 | the CPU, RAM and disk tiers are each monotone in the percentage |
| Dashboard.ComputeHealthStatus | odoo_erp_health_monitor/models/dashboard.py:110-136 | each status field is the tier of its own reading |
| Dashboard.ComputeStats | odoo_erp_health_monitor/models/dashboard.py:69-108 | the cron and query totals are the table sizes; each daily counter is 0 on an empty table and bounded by its table; the readings and update time come from the row with the largest id, or are 0 with no update time when there are no metrics |
| Dashboard.LatestMetricShown | odoo_erp_health_monitor/models/dashboard.py:76-80 | with ids in increasing order, the readings shown are those of the last metrics row |
| Dashboard.ShowsCollectedSample | odoo_erp_health_monitor/models/dashboard.py:76-80 | after a collection, the dashboard shows the sample just collected |
| Dashboard.ErrorLogsCountAppend | odoo_erp_health_monitor/models/dashboard.py:104-108 | a new log row adds one to `error_logs` exactly when it is an ERROR or CRITICAL row of today |
| Dashboard.FailedCronCountAppend | odoo_erp_health_monitor/models/dashboard.py:83-87 | a new cron-log row adds one to `total_crons`, and one to `failed_crons` exactly when it failed today |
| Dashboard.SlowCronCountAppend | odoo_erp_health_monitor/models/dashboard.py:88-91 | a new cron-log row adds one to `slow_crons` exactly when it is a slow run of today |
| Dashboard.QueriesTodayAppend | odoo_erp_health_monitor/models/dashboard.py:94-97 | a new slow-query row adds one to `total_queries`, and one to `queries_today` exactly when it was detected today |
| Dashboard.LocksTodayAppend | odoo_erp_health_monitor/models/dashboard.py:100-102 | a new lock row adds one to `total_locks` exactly when it was detected today |
| Dashboard.TodayCountSurvivesSweep | odoo_erp_health_monitor/models/dashboard.py:82-108 | a count over today's rows is unchanged by any retention sweep at the same moment |
| Dashboard.CleanupKeepsDailyCounters | odoo_erp_health_monitor/models/dashboard.py:82-108 | the failed, slow, today's-query, lock and error counters read the same before and after a cleanup sweep |
| Dashboard.Create | odoo_erp_health_monitor/models/dashboard.py:60-67 | returns the existing dashboard and stores nothing when one exists, so there is never a second one |
| ServerMetrics.CollectMetrics | odoo_erp_health_monitor/models/server_metrics.py:31-110 | succeeds iff psutil is installed and the CPU, memory and load readings do not fail; on success it stores exactly one row stamped `now`, returns it, keeps only the 1000 largest ids (the new row among them), falls back to `/` and then to zeros for disk and to zeros for unsupported load, and stores the hour of `now`; on failure it changes nothing |
| ServerMetrics.CollectedIsNewest | odoo_erp_health_monitor/models/server_metrics.py:95-100 | the row just collected survives the trim and is the one with the largest id |
| Clock.HourOf | odoo_erp_health_monitor/models/server_metrics.py:25-29 | the hour is between 0 and 23, and the moment lies within that hour of its day |
| Clock.HourOfEpoch | odoo_erp_health_monitor/models/server_metrics.py:25-29 | the hour of a calendar moment's epoch seconds is its `hour` component |
| Clock.StartOfDay | odoo_erp_health_monitor/models/dashboard.py:73 | midnight is a whole number of days and lies at most one day before the moment |
| Clock.StartOfDayOfEpoch | odoo_erp_health_monitor/models/dashboard.py:73 | midnight of a calendar moment is that date at 00:00:00 |
| Strptime.ParseDateTime | odoo_erp_health_monitor/models/odoo_log.py:78-79 | every parsed value is a valid calendar moment |
| Strptime.MatchLength | odoo_erp_health_monitor/models/odoo_log.py:79 | a successful directive match produces one field per directive |
| Strptime.MatchRender | odoo_erp_health_monitor/models/odoo_log.py:79 | matching a rendered directive list reads back the fields it was rendered from |
| Strptime.FormatSplits | odoo_erp_health_monitor/models/odoo_log.py:78-79 | a formatted moment is a date field, one space, then a clock field |
| Strptime.ParseFormatted | odoo_erp_health_monitor/models/odoo_log.py:78-79 | parsing the `%Y-%m-%d %H:%M:%S` text of any moment gives back that moment |
| OdooLog.LevelOf | odoo_erp_health_monitor/models/odoo_log.py:80-86 | one of the five level names gives that level; any other word gives INFO |
| OdooLog.LevelRoundTrip | odoo_erp_health_monitor/models/odoo_log.py:80-86 | every level is read back from its name |
| OdooLog.SplitOnSpace | odoo_erp_health_monitor/models/odoo_log.py:74 | `split(' ', n)` yields at least one and at most n + 1 parts |
| OdooLog.SplitPartLacks | odoo_erp_health_monitor/models/odoo_log.py:74 | every part but the last has no space |
| OdooLog.SplitLastLacks | odoo_erp_health_monitor/models/odoo_log.py:74 | when fewer than n splits happen, the last part has no space either |
| OdooLog.SplitJoin | odoo_erp_health_monitor/models/odoo_log.py:74 | joining n + 1 parts whose first n lack spaces and splitting again gives the parts back |
| OdooLog.JoinSplit | odoo_erp_health_monitor/models/odoo_log.py:74 | joining the parts of a split with spaces gives back the line |
| OdooLog.SplitCons | odoo_erp_health_monitor/models/odoo_log.py:74 | a split takes the first space-free word off and splits the rest with one split fewer |
| OdooLog.BeforeComma | odoo_erp_health_monitor/models/odoo_log.py:78 | the text up to the first comma: a prefix without commas, followed by a comma unless it is the whole text |
| OdooLog.ParseLogLine | odoo_erp_health_monitor/models/odoo_log.py:70-91 | a record exists iff the line has at least six fields and field 0 plus field 1 up to its comma parses as a timestamp; its timestamp is that parse, its level the normalised field 3, its logger field 5 stripped (so space-free); its message is field 6 stripped, or the whole line stripped when there are exactly six fields |
| OdooLog.ParseSevenFields | odoo_erp_health_monitor/models/odoo_log.py:74-88 | a seven-field line with a parsable date gives the record with that time, the normalised level, and the stripped logger and message |
| OdooLog.ServerLineSplits | odoo_erp_health_monitor/models/odoo_log.py:74-76 | a line in the server's own log format splits into its seven fields |
| OdooLog.ParseServerLine | odoo_erp_health_monitor/models/odoo_log.py:70-91 | parsing a line the server writes gives back its time, level, logger and message |
| OdooLog.LoggerAndMessageKept | odoo_erp_health_monitor/models/odoo_log.py:87-88 | stripping leaves a logger field intact and removes only the line's trailing newline from a message |
| OdooLog.Tail | odoo_erp_health_monitor/models/odoo_log.py:36 | `lines[-n:]` is a suffix: the last n lines (all when fewer) for positive n, every line for 0, and all but the first -n for negative n |
| OdooLog.RefreshLogs | odoo_erp_health_monitor/models/odoo_log.py:22-51 | raises NameError iff no log file is found, and then nothing changes; otherwise returns True and the table holds exactly the parsed records of the tail, in file order, with fresh ids, so no old row survives |
| SlowQuery.Candidates | odoo_erp_health_monitor/models/slow_query.py:35-37 | exactly the active sessions slower than the threshold |
| SlowQuery.FetchSlow | odoo_erp_health_monitor/models/slow_query.py:27-40 | at most 50 rows, each one a fetched session slower than the threshold |
| SlowQuery.FetchSlowComplete | odoo_erp_health_monitor/models/slow_query.py:35-39 | when there are at most 50 candidates, all of them are fetched, each as often as it occurs |
| SlowQuery.FetchSlowIsTop | odoo_erp_health_monitor/models/slow_query.py:38-39 | a candidate left out is no slower than any fetched row |
| SlowQuery.ToRecord | odoo_erp_health_monitor/models/slow_query.py:53-59 | copies pid, user, state and duration; the stored text is exactly the first min(5000, length) characters of the query |
| SlowQuery.Records | odoo_erp_health_monitor/models/slow_query.py:52-59 | one record per fetched row, in fetch order |
| SlowQuery.RefreshSlowQueries | odoo_erp_health_monitor/models/slow_query.py:19-64 | a non-numeric threshold raises ValueError and changes nothing; a failed fetch changes nothing; otherwise the table keeps its 1000 largest ids and then gets one row per fetched session, at most 1050 rows in all |
| DatabaseLock.FetchLocks | odoo_erp_health_monitor/models/database_lock.py:23-37 | at most 50 rows, each a waiting lock with a session query |
| DatabaseLock.FetchLocksComplete | odoo_erp_health_monitor/models/database_lock.py:31-36 | when at most 50 locks wait, all of them are fetched |
| DatabaseLock.FetchLocksIsTop | odoo_erp_health_monitor/models/database_lock.py:35-36 | the fetch is ordered by wait time, descending with unknown waits first, and a waiting lock left out ranks no higher than any fetched one |
| DatabaseLock.UnknownWaitFetched | odoo_erp_health_monitor/models/database_lock.py:35-36 | a waiting lock with no wait time is fetched whenever at most 50 such locks wait |
| DatabaseLock.ToLockRecord | odoo_erp_health_monitor/models/database_lock.py:50-57 | a missing or empty relation becomes `'N/A'`; a missing query becomes `''`, otherwise exactly its first min(5000, length) characters; a missing wait becomes 0 |
| DatabaseLock.LockRecords | odoo_erp_health_monitor/models/database_lock.py:49-57 | one record per fetched lock, in fetch order |
| DatabaseLock.RefreshLocks | odoo_erp_health_monitor/models/database_lock.py:20-64 | returns True iff the fetch succeeds; then the table keeps its 500 largest ids and gets one row per fetched lock, at most 550 rows in all; on failure nothing changes |
| CronLog.IsSlow | models/cron_log.py:25-26 | a run is slow only when its duration exceeds the threshold; a run at exactly the threshold, or of zero duration, is not slow |
| CronLog.IsSlowIff | models/cron_log.py:25-26 | for a nonzero duration, slow iff strictly greater than the threshold |
| CronLog.IsSlowAntitone | models/cron_log.py:25-26 | a run slow under a higher threshold is slow under a lower one |
| CronLog.SlowThreshold | models/cron_log.py:22-24 | an unset parameter gives 10.0, a numeric one its own value, and a non-numeric one raises |
| CronLog.NewRecord | models/cron_log.py:13-26 | a new row's `is_slow` holds iff its duration is nonzero and above the threshold; duration, status and error are kept |
| CronHook.LogRecord | odoo_erp_health_monitor/models/ir_cron.py:14-37 | the row names the job; its status is failed with `str(e)` iff the job raised an `Exception`; a job that returned, or raised a `BaseException` outside `Exception`, is logged as success with no error message |
| CronHook.MethodDirectTrigger | odoo_erp_health_monitor/models/ir_cron.py:11-41 | the job's result or exception (including one outside `Exception`) is passed through unchanged; exactly one log row is appended unless writing it fails, in which case the table is unchanged |
| History.KeepNewestIsSuffix | odoo_erp_health_monitor/models/server_metrics.py:95-98 | with increasing ids, the id-ranked offset trim leaves exactly the last min(k, n) rows |
| History.KeepSinceMembers | models/erp_health_config.py:108-112 | a row survives the age trim iff it was in the table and is not older than the cutoff |
| History.KeepSinceIncreasing | models/erp_health_config.py:108-112 | the age trim keeps ids increasing |
| History.KeepSinceIdempotent | models/erp_health_config.py:106-153 | trimming twice at the same cutoff equals trimming once |
| History.CountIf | odoo_erp_health_monitor/models/dashboard.py:82-108 | a count never exceeds the table size |
| History.CountIfAppend | odoo_erp_health_monitor/models/dashboard.py:82-108 | a new row adds one to a count exactly when it matches |
| History.CountIfKeepSince | odoo_erp_health_monitor/models/dashboard.py:82-108 | a count of rows none of which is older than the cutoff survives the age trim |
| History.Newest | odoo_erp_health_monitor/models/dashboard.py:76 | `search([], order='id desc', limit=1)`: a row of the table, and no row has a larger id |
| History.NewestIsLast | odoo_erp_health_monitor/models/dashboard.py:76 | with increasing ids, that row is the last one |
| History.CollectMembers | odoo_erp_health_monitor/models/odoo_log.py:42-45 | the collected records are exactly those some line parses to |
| History.Table.Insert | odoo_erp_health_monitor/models/server_metrics.py:80-91 | `create` appends exactly one row with the next id |
| History.Table.InsertAll | odoo_erp_health_monitor/models/slow_query.py:52-59 | one row per value, in order, with consecutive ids |
| History.Table.InsertParsed | odoo_erp_health_monitor/models/odoo_log.py:42-45 | one row per line that parses, in line order, with consecutive ids |
| History.Table.TrimToNewest | odoo_erp_health_monitor/models/server_metrics.py:96-98 | the offset trim: exactly the rows with fewer than k larger ids remain |
| History.Table.DeleteOlderThan | models/erp_health_config.py:108-112 | exactly the rows older than the cutoff are removed, and the returned count is how many |
| History.Table.DeleteAll | odoo_erp_health_monitor/models/odoo_log.py:39 | the table is emptied and its id counter is kept |
| History.Table.Write | models/erp_health_config.py:156 | only the chosen row's payload changes |
| History.Table.CreateSingleton | models/erp_health_config.py:71-78 | the existing first row is returned and nothing is stored when a row exists; otherwise the values are stored; a call with at most one value never leaves a second row |
| Ranking.FilterMultiplicity | odoo_erp_health_monitor/models/slow_query.py:35-37 | a `WHERE` keeps every matching row as often as it occurs and no other row |
| Ranking.Filter | odoo_erp_health_monitor/models/slow_query.py:35-37 | a `WHERE` returns only matching input rows and every matching row |
| Ranking.SortDesc | odoo_erp_health_monitor/models/slow_query.py:38 | `ORDER BY … DESC` (NULLS FIRST) returns a sorted permutation of its input |
| Ranking.TopN | odoo_erp_health_monitor/models/slow_query.py:38-39 | `LIMIT n` returns min(n, size) rows, each from the input |
| Ranking.TopNSorted | odoo_erp_health_monitor/models/slow_query.py:38-39 | the limited result is sorted and a sub-multiset of the input, and all of it when there are at most n rows |
| Ranking.TopNCutsLowest | odoo_erp_health_monitor/models/slow_query.py:38-39 | a row the limit cuts ranks no higher than any row kept |
| Ranking.NullKeySurvives | odoo_erp_health_monitor/models/database_lock.py:35-36 | under NULLS FIRST a row with no key is kept whenever at most n rows have no key |
| Text.Truncate | odoo_erp_health_monitor/models/slow_query.py:57 | `s[:n]` is the prefix of exactly min(n, length) characters |
| Text.Strip | odoo_erp_health_monitor/models/odoo_log.py:87-88 | `strip()` drops whitespace at the two ends only: the result is a contiguous middle of the text with only whitespace before and after it, and it neither starts nor ends with whitespace |
| Text.StripKeepsLacks | odoo_erp_health_monitor/models/odoo_log.py:87 | stripping a space-free field leaves it space-free |
| Text.StripOfStripped | odoo_erp_health_monitor/models/odoo_log.py:87-88 | stripping is idempotent |
| Text.StripDropsTrailingSpace | odoo_erp_health_monitor/models/odoo_log.py:88 | stripping text that ends in one whitespace character removes just that character |
| Text.LikeFindsInfix | odoo_erp_health_monitor/models/slow_query.py:36 | `LIKE '%p%'` matches any text in which p occurs |
| SlowQuery.OwnQueryNeverReported | odoo_erp_health_monitor/models/slow_query.py:36 | a session whose query mentions `pg_stat_activity`, such as the monitor's own query, is never reported |

## Left out

- psutil sampling, the CPU sampling interval and the byte-to-GB float divisions (server_metrics.py:38-60). The readings arrive already converted, as a `Probe`.
- The SQL text sent to `pg_stat_activity` and `pg_locks`. Only its filter, ordering and `LIMIT` are modelled, as functions over a list of sessions or locks given as input. PostgreSQL may return rows with equal keys in any order; `Ranking.SortDesc` fixes one stable order, and the lemmas about `TopN` are proved for that order only.
- Log-file discovery (`_get_log_file_path`) and reading. The file's lines are an input. A file that cannot be found or read is `None`.
- UI actions and notifications: `action_cleanup_now`, the dashboard `action_*` methods, and `default_get`. The cleanup action only wraps `CleanupOldData`.
- `cr.commit()`, `sudo()`, access rights, and logging calls. Logging only matters in `refresh_logs`, where it raises.
- Wall-clock duration measured with `time.time()` in `ir_cron.py`. It is an input.
- Time zones: `datetime.now()` (local, naive) and `fields.Datetime.now()` (UTC) are both the single `now`.
- Concurrent first access to the singleton `create`. Concurrency is out of scope.
- CronHook.MethodDirectTrigger: a failure while writing the log row is one input flag, `storeFails`, covering every exception the `finally` block swallows. Its `logged` result is ghost.
- CronLog.SlowThreshold: `float()` also accepts 'nan', 'inf' and '-inf', which are not real numbers; a stored parameter of that kind is not modelled (the same holds for Base.ParamAsFloat, which the slow-query threshold uses).
- Strptime.ParseDateTime: only ASCII digits are modelled. Python also accepts other Unicode decimal digits.
- ServerMetrics.CollectMetrics: which reading raised is not distinguished; any failure gives `None`.
- Dashboard.ComputeStats: the loop over dashboard records assigns the same values to each, so one record's values are modelled.
- The `__manifest__.py` metadata and the stored form of the `hour` field beyond its value.
