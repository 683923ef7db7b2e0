/** The slow query sampler (`erp.health.slow.query`). The rows of `pg_stat_activity`
    arrive as a list of `Session` values; NULL columns are `None`. */
module SlowQuery {
  import opened Base
  import opened Text
  import opened History
  import opened Ranking

  /** One row of `pg_stat_activity`, with `duration` the seconds since `query_start`. */
  datatype Session = Session(
    pid: int,
    user: Option<string>,
    state: Option<string>,
    query: Option<string>,
    duration: Option<real>)

  /** One stored row. */
  datatype SlowQueryRecord = SlowQueryRecord(
    pid: int,
    databaseUser: Option<string>,
    queryState: Option<string>,
    queryText: string,
    duration: real)

  const DefaultThreshold: real := 2.0
  const FetchLimit: nat := 50
  const MaxStored: nat := 1000
  const MaxQueryText: nat := 5000

  /** The `WHERE` clause: an active session, not the monitor's own query (the `LIKE`
      pattern's `_` matches any character), running strictly longer than the threshold.
      A NULL in any compared column fails the test. */
  predicate IsSlowSession(s: Session, threshold: real) {
    && s.state == Some("active")
    && s.query.Some? && !LikeContains(s.query.value, "pg_stat_activity")
    && s.duration.Some? && s.duration.value > threshold
  }

  function DurationKey(s: Session): Option<real> {
    s.duration
  }

  /** The `WHERE` clause at a given threshold, as a test on one session. */
  function SlowAt(threshold: real): Session -> bool {
    (s: Session) => IsSlowSession(s, threshold)
  }

  /** The monitor never reports a session whose query mentions `pg_stat_activity`, such
      as its own introspection query, whatever its state or duration. */
  lemma OwnQueryNeverReported(s: Session, threshold: real, before: string, after: string)
    requires s.query == Some(before + "pg_stat_activity" + after)
    ensures !IsSlowSession(s, threshold)
  {
    LikeFindsInfix(before, "pg_stat_activity", after);
  }

  /** The sessions the `WHERE` clause lets through, in their order. */
  function Candidates(sessions: seq<Session>, threshold: real): (r: seq<Session>)
    ensures forall x :: x in r ==> x in sessions && IsSlowSession(x, threshold)
    ensures forall i :: 0 <= i < |sessions| && IsSlowSession(sessions[i], threshold) ==> sessions[i] in r
  {
    var r := Filter(sessions, SlowAt(threshold));
    assert forall x :: x in r ==> x in multiset(sessions);
    r
  }

  /** The introspection query: qualifying sessions, longest first, at most 50. */
  function FetchSlow(sessions: seq<Session>, threshold: real): (r: seq<Session>)
    ensures |r| <= FetchLimit
    ensures forall i :: 0 <= i < |r| ==> r[i] in sessions && IsSlowSession(r[i], threshold)
  {
    TopN(Candidates(sessions, threshold), DurationKey, FetchLimit)
  }

  /** The stored form of a fetched row: `query` cut to its first 5000 characters,
      the other columns copied. */
  function ToRecord(s: Session): (r: SlowQueryRecord)
    requires s.query.Some? && s.duration.Some?
    ensures r.pid == s.pid && r.databaseUser == s.user && r.queryState == s.state
    ensures r.duration == s.duration.value
    ensures |r.queryText| == Min(MaxQueryText, |s.query.value|) && r.queryText <= s.query.value
    ensures |s.query.value| <= MaxQueryText ==> r.queryText == s.query.value
  {
    SlowQueryRecord(s.pid, s.user, s.state, Truncate(s.query.value, MaxQueryText), s.duration.value)
  }

  /** The stored forms of the fetched rows, in fetch order. */
  function Records(fetched: seq<Session>): (r: seq<SlowQueryRecord>)
    requires forall i :: 0 <= i < |fetched| ==> fetched[i].query.Some? && fetched[i].duration.Some?
    ensures |r| == |fetched|
    ensures forall i :: 0 <= i < |r| ==> r[i] == ToRecord(fetched[i])
  {
    seq(|fetched|, i requires 0 <= i < |fetched| => ToRecord(fetched[i]))
  }

  /** `refresh_slow_queries`. The threshold parameter is read outside the `try`, so a
      value that is not a number raises ValueError before anything changes. A failed
      introspection query (`sessions == None`) is swallowed and changes nothing.
      Otherwise the table is first trimmed to its 1000 newest rows and then one row
      stamped `now` is appended per fetched session, in fetch order. Both normal paths
      return `None`, here `Return(())`. */
  method RefreshSlowQueries(table: Table<SlowQueryRecord>, thresholdParam: Param,
                            sessions: Option<seq<Session>>, now: Time)
    returns (exit: Exit<()>)
    requires table.Valid()
    modifies table
    ensures table.Valid()
    ensures exit.Raise? <==> thresholdParam.NotNumeric?
    ensures exit.Raise? ==> exit.error == ValueError
    ensures (exit.Raise? || sessions.None?) ==>
      table.rows == old(table.rows) && table.nextId == old(table.nextId)
    ensures exit.Return? && sessions.Some? ==>
      var fetched := FetchSlow(sessions.value, ParamAsFloat(thresholdParam, DefaultThreshold).value);
      && table.rows == KeepNewest(old(table.rows), MaxStored)
                       + Stamp(old(table.nextId), now, Records(fetched))
      && |table.rows| <= MaxStored + FetchLimit
  {
    var read := ParamAsFloat(thresholdParam, DefaultThreshold);
    if read.Raise? {
      return Raise(ValueError);
    }
    var threshold := read.value;
    if sessions.None? {
      // the execute() failure is logged and swallowed
      return Return(());
    }
    var results := FetchSlow(sessions.value, threshold);

    KeepNewestIsSuffix(table.rows, MaxStored);
    table.TrimToNewest(MaxStored);
    table.InsertAll(now, Records(results));
    exit := Return(());
  }

  /** No qualifying session is left out when there are at most 50 of them. */
  lemma FetchSlowComplete(sessions: seq<Session>, threshold: real)
    requires |Candidates(sessions, threshold)| <= FetchLimit
    ensures multiset(FetchSlow(sessions, threshold)) == multiset(Candidates(sessions, threshold))
  {
    TopNSorted(Candidates(sessions, threshold), DurationKey, FetchLimit);
  }

  /** Each qualifying session the limit leaves out ran no longer than any fetched one. */
  lemma FetchSlowIsTop(sessions: seq<Session>, threshold: real, s: Session)
    requires s in multiset(Candidates(sessions, threshold)) - multiset(FetchSlow(sessions, threshold))
    ensures forall f :: f in FetchSlow(sessions, threshold) ==>
      f.duration.Some? && s.duration.Some? && f.duration.value >= s.duration.value
  {
    var candidates := Candidates(sessions, threshold);
    var fetched := FetchSlow(sessions, threshold);
    TopNSorted(candidates, DurationKey, FetchLimit);
    TopNCutsLowest(candidates, DurationKey, FetchLimit, s);
    assert s in candidates;
    forall f | f in fetched
      ensures f.duration.Some? && f.duration.value >= s.duration.value
    {
      var i :| 0 <= i < |fetched| && fetched[i] == f;
      assert DescBefore(DurationKey(fetched[i]), DurationKey(s));
    }
  }
}
