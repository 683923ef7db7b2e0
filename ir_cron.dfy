/** The execution hook on scheduled jobs (`ir.cron.method_direct_trigger`): it runs the
    job and records one log row whether the job returns or raises. */
module CronHook {
  import opened Base
  import opened History
  import opened CronLog

  /** How the wrapped job ends: with a result, with an `Exception` whose `str(e)` is
      `message`, or with a `BaseException` that is not an `Exception` (SystemExit,
      KeyboardInterrupt, GeneratorExit), which `except Exception` does not catch. */
  datatype JobRun<R> = Finished(result: R) | Crashed(message: string) | Interrupted

  /** The log row the hook writes for one run. */
  function LogRecord<R>(cronId: int, cronName: string, run: JobRun<R>, duration: real, threshold: real): (r: CronRecord)
    ensures r.cronId == cronId && r.cronName == cronName && r.duration == duration
    ensures run.Crashed? <==> r.status == Failed
    ensures !run.Crashed? ==> r.status == Success && r.errorMessage == None
    ensures run.Crashed? ==> r.errorMessage == Some(run.message)
    ensures r.isSlow == IsSlow(duration, threshold)
  {
    match run
    case Crashed(msg) => NewRecord(cronId, cronName, duration, Failed, Some(msg), threshold)
    case _ => NewRecord(cronId, cronName, duration, Success, None, threshold)
  }

  /** Runs the job (its outcome `job` is an input), then, as the `finally` block does,
      tries to append one log row stamped `now`. The row is not written when the store
      refuses it (`storeFails`) or the slow-run threshold cannot be read; that failure
      is swallowed. The job's result is returned, or its exception re-raised, unchanged.
      A `BaseException` outside `Exception` skips the `except` clause, so its row keeps
      the initial status 'success' with no error message while the exception goes on
      propagating. `duration` is the measured wall-clock time, an input here. */
  method MethodDirectTrigger<R>(log: Table<CronRecord>, cronId: int, cronName: string,
                                job: JobRun<R>, duration: real, thresholdParam: Param,
                                storeFails: bool, now: Time)
    returns (outcome: JobRun<R>, ghost logged: bool)
    requires log.Valid()
    modifies log
    ensures log.Valid()
    ensures outcome == job
    ensures logged <==> !storeFails && SlowThreshold(thresholdParam).Return?
    ensures !logged ==> log.rows == old(log.rows) && log.nextId == old(log.nextId)
    ensures logged ==>
      log.rows == old(log.rows) + [Row(old(log.nextId), now,
        LogRecord(cronId, cronName, job, duration, SlowThreshold(thresholdParam).value))]
  {
    var status := Success;
    var errorMessage: Option<string> := None;
    // try: result = super().method_direct_trigger()
    if job.Crashed? {
      // except Exception as e
      status := Failed;
      errorMessage := Some(job.message);
    }
    // finally: the log write, whose own exceptions are caught
    logged := false;
    var threshold := SlowThreshold(thresholdParam);
    if !storeFails && threshold.Return? {
      var row := log.Insert(now, NewRecord(cronId, cronName, duration, status, errorMessage, threshold.value));
      logged := true;
    }
    outcome := job;
  }
}
