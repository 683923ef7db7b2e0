/** The scheduled-job execution log (`erp.health.cron.log`). */
module CronLog {
  import opened Base

  /** The two values of the `status` selection. */
  datatype Status = Success | Failed

  /** One log row. `isSlow` is a stored computed field: it is set when the row is
      created and depends only on `duration`, which is never written again. */
  datatype CronRecord = CronRecord(
    cronId: int,
    cronName: string,
    duration: real,
    status: Status,
    errorMessage: Option<string>,
    isSlow: bool)

  const DefaultSlowThreshold: real := 10.0

  /** `record.duration and record.duration > threshold`: a zero duration is falsy and
      is stored as not slow whatever the threshold. */
  function IsSlow(duration: real, threshold: real): (slow: bool)
    ensures slow ==> duration > threshold
    ensures duration == threshold ==> !slow
    ensures duration == 0.0 ==> !slow
  {
    if duration == 0.0 then false else duration > threshold
  }

  /** A nonzero duration is slow exactly when it exceeds the threshold. */
  lemma IsSlowIff(duration: real, threshold: real)
    requires duration != 0.0
    ensures IsSlow(duration, threshold) <==> duration > threshold
  {
  }

  /** A lower threshold never turns a slow run into a fast one. */
  lemma IsSlowAntitone(duration: real, low: real, high: real)
    requires low <= high
    ensures IsSlow(duration, high) ==> IsSlow(duration, low)
  {
  }

  /** The threshold `_compute_is_slow` reads: the stored parameter, 10.0 when it is
      unset, and a ValueError when it is not a number. */
  function SlowThreshold(p: Param): (r: Exit<real>)
    ensures p.Unset? ==> r == Return(DefaultSlowThreshold)
    ensures p.Numeric? ==> r == Return(p.number)
    ensures p.NotNumeric? ==> r.Raise?
  {
    ParamAsFloat(p, DefaultSlowThreshold)
  }

  /** `_compute_is_slow` for a row being created. */
  function NewRecord(cronId: int, cronName: string, duration: real, status: Status,
                     errorMessage: Option<string>, threshold: real): (r: CronRecord)
    ensures r.isSlow <==> duration != 0.0 && duration > threshold
    ensures r.duration == duration && r.status == status && r.errorMessage == errorMessage
  {
    CronRecord(cronId, cronName, duration, status, errorMessage, IsSlow(duration, threshold))
  }
}
