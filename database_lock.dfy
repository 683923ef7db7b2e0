/** The lock sampler (`erp.health.database.lock`). The rows of `pg_locks` left-joined
    with `pg_stat_activity` arrive as a list of `LockWait` values; NULL columns are
    `None`. */
module DatabaseLock {
  import opened Base
  import opened Text
  import opened History
  import opened Ranking

  /** One row of the join, with `waitTime` the seconds since the session's
      `query_start`. */
  datatype LockWait = LockWait(
    pid: int,
    lockType: string,
    relation: Option<string>,
    mode: string,
    granted: bool,
    query: Option<string>,
    waitTime: Option<real>)

  /** One stored row. */
  datatype LockRecord = LockRecord(
    pid: int,
    lockType: string,
    relation: string,
    mode: string,
    query: string,
    waitTime: real)

  const FetchLimit: nat := 50
  const MaxStored: nat := 500
  const MaxQueryText: nat := 5000
  const NoRelation: string := "N/A"

  /** The `WHERE` clause: a lock not yet granted whose session has a query. */
  predicate IsWaiting(l: LockWait) {
    !l.granted && l.query.Some?
  }

  function WaitKey(l: LockWait): Option<real> {
    l.waitTime
  }

  /** The lock query: waiting locks, longest wait first (an unknown wait ranks first,
      as NULL does under `DESC`), at most 50. */
  function FetchLocks(locks: seq<LockWait>): (r: seq<LockWait>)
    ensures |r| <= FetchLimit
    ensures forall i :: 0 <= i < |r| ==> r[i] in locks && IsWaiting(r[i])
  {
    var candidates := Filter(locks, IsWaiting);
    assert forall x :: x in candidates ==> x in multiset(locks);
    TopN(candidates, WaitKey, FetchLimit)
  }

  /** The stored form of a fetched row. Python's `or` falls back on the empty string
      and on NULL alike: an unnamed relation is stored as "N/A", an empty query as "",
      an unknown or zero wait as 0. A query is cut to its first 5000 characters. */
  function ToLockRecord(l: LockWait): (r: LockRecord)
    ensures r.pid == l.pid && r.lockType == l.lockType && r.mode == l.mode
    ensures r.relation == (if l.relation.Some? && l.relation.value != "" then l.relation.value else NoRelation)
    ensures r.relation != ""
    ensures l.query.Some? ==> r.query <= l.query.value && |r.query| == Min(MaxQueryText, |l.query.value|)
    ensures l.query.Some? && |l.query.value| <= MaxQueryText ==> r.query == l.query.value
    ensures l.query.None? ==> r.query == ""
    ensures |r.query| <= MaxQueryText
    ensures r.waitTime == (if l.waitTime.Some? then l.waitTime.value else 0.0)
  {
    var relation := if l.relation.Some? && l.relation.value != "" then l.relation.value else NoRelation;
    var query := if l.query.Some? && l.query.value != "" then Truncate(l.query.value, MaxQueryText) else "";
    var wait := if l.waitTime.Some? && l.waitTime.value != 0.0 then l.waitTime.value else 0.0;
    LockRecord(l.pid, l.lockType, relation, l.mode, query, wait)
  }

  /** The stored forms of the fetched rows, in fetch order. */
  function LockRecords(fetched: seq<LockWait>): (r: seq<LockRecord>)
    ensures |r| == |fetched|
    ensures forall i :: 0 <= i < |r| ==> r[i] == ToLockRecord(fetched[i])
  {
    seq(|fetched|, i requires 0 <= i < |fetched| => ToLockRecord(fetched[i]))
  }

  /** `refresh_locks`. A failed lock query (`locks == None`) is caught: the method
      returns False and nothing changes. Otherwise the table is trimmed to its 500
      newest rows, one row stamped `now` is appended per fetched lock, in fetch order,
      and the method returns True. */
  method RefreshLocks(table: Table<LockRecord>, locks: Option<seq<LockWait>>, now: Time)
    returns (ok: bool)
    requires table.Valid()
    modifies table
    ensures table.Valid()
    ensures ok <==> locks.Some?
    ensures !ok ==> table.rows == old(table.rows) && table.nextId == old(table.nextId)
    ensures ok ==>
      && table.rows == KeepNewest(old(table.rows), MaxStored)
                       + Stamp(old(table.nextId), now, LockRecords(FetchLocks(locks.value)))
      && |table.rows| <= MaxStored + FetchLimit
  {
    if locks.None? {
      // the exception is logged and swallowed
      return false;
    }
    var results := FetchLocks(locks.value);

    KeepNewestIsSuffix(table.rows, MaxStored);
    table.TrimToNewest(MaxStored);
    table.InsertAll(now, LockRecords(results));
    ok := true;
  }

  /** Every waiting lock is fetched when there are at most 50 of them. */
  lemma FetchLocksComplete(locks: seq<LockWait>)
    requires |Filter(locks, IsWaiting)| <= FetchLimit
    ensures multiset(FetchLocks(locks)) == multiset(Filter(locks, IsWaiting))
  {
    TopNSorted(Filter(locks, IsWaiting), WaitKey, FetchLimit);
  }

  /** Fetched locks come longest wait first, and each waiting lock the limit leaves
      out has waited no longer than any fetched one. */
  lemma FetchLocksIsTop(locks: seq<LockWait>, l: LockWait)
    requires l in multiset(Filter(locks, IsWaiting)) - multiset(FetchLocks(locks))
    ensures SortedDesc(FetchLocks(locks), WaitKey)
    ensures forall f :: f in FetchLocks(locks) ==> DescBefore(f.waitTime, l.waitTime)
  {
    var candidates := Filter(locks, IsWaiting);
    TopNSorted(candidates, WaitKey, FetchLimit);
    TopNCutsLowest(candidates, WaitKey, FetchLimit, l);
  }

  /** A waiting lock whose wait is unknown is never cut by the limit while at most 50
      such locks are waiting: NULL ranks ahead of every known wait. */
  lemma UnknownWaitFetched(locks: seq<LockWait>, l: LockWait)
    requires l in Filter(locks, IsWaiting) && l.waitTime.None?
    requires |NullKeys(Filter(locks, IsWaiting), WaitKey)| <= FetchLimit
    ensures l in FetchLocks(locks)
  {
    NullKeySurvives(Filter(locks, IsWaiting), WaitKey, FetchLimit, l);
  }
}
