/** The history tables every collector writes: rows with an identity and a capture
    time, appended at the end, removed by two kinds of trim. */
module History {
  import opened Base

  /** One stored record: `id` is the database identity, `time` the field the table is
      filtered on by age (`timestamp`, `detected_at` or `execution_date`). */
  datatype Row<P> = Row(id: nat, time: Time, data: P)

  /** Identities grow along the table, as a database sequence hands them out. */
  predicate IdsIncreasing<P>(rows: seq<Row<P>>) {
    forall i, j :: 0 <= i < j < |rows| ==> rows[i].id < rows[j].id
  }

  /** How many rows have a larger id than `id`: the position of a row with that id in
      a search ordered by `id desc`. */
  function NewerCount<P>(rows: seq<Row<P>>, id: int): nat {
    if rows == [] then 0
    else NewerCount(rows[..|rows| - 1], id) + (if rows[|rows| - 1].id > id then 1 else 0)
  }

  /** What `search([], order='id desc', offset=k).unlink()` leaves: every row that a
      search ordered by id descending puts before position `k`. */
  function KeepNewest<P>(rows: seq<Row<P>>, k: nat): seq<Row<P>> {
    Survivors(rows, rows, k)
  }

  function Survivors<P>(all: seq<Row<P>>, part: seq<Row<P>>, k: nat): seq<Row<P>> {
    if part == [] then []
    else (if NewerCount(all, part[0].id) < k then [part[0]] else []) + Survivors(all, part[1..], k)
  }

  lemma {:induction false} NoneNewer<P>(rows: seq<Row<P>>, id: int)
    requires forall i :: 0 <= i < |rows| ==> rows[i].id <= id
    ensures NewerCount(rows, id) == 0
  {
    if rows != [] {
      NoneNewer(rows[..|rows| - 1], id);
    }
  }

  /** In a table with increasing ids, the row at position `i` has every later row, and
      only those, above it in the id order. */
  lemma {:induction false} NewerCountAt<P>(rows: seq<Row<P>>, i: nat)
    requires IdsIncreasing(rows) && i < |rows|
    ensures NewerCount(rows, rows[i].id) == |rows| - 1 - i
  {
    var n := |rows|;
    var front := rows[..n - 1];
    if i == n - 1 {
      NoneNewer(front, rows[i].id);
    } else {
      assert front[i] == rows[i];
      NewerCountAt(front, i);
    }
  }

  /** Walking the table from position `j`, a row survives exactly when fewer than `k`
      rows come after it. */
  lemma {:induction false} SurvivorsFrom<P>(all: seq<Row<P>>, j: nat, k: nat)
    requires j <= |all|
    requires forall i :: j <= i < |all| ==> NewerCount(all, all[i].id) == |all| - 1 - i
    ensures Survivors(all, all[j..], k) == all[if j < |all| - k then |all| - k else j..]
    decreases |all| - j
  {
    var n := |all|;
    if j < n {
      var part, rest := all[j..], all[j + 1..];
      assert part[0] == all[j] && part[1..] == rest;
      SurvivorsFrom(all, j + 1, k);
      if j >= n - k {
        assert part == [all[j]] + rest;
      }
    }
  }

  /** With increasing ids the trim keeps exactly the last `min(k, n)` rows, so the
      newest row survives whenever `k` is positive. */
  lemma KeepNewestIsSuffix<P>(rows: seq<Row<P>>, k: nat)
    requires IdsIncreasing(rows)
    ensures KeepNewest(rows, k) == rows[|rows| - Min(k, |rows|)..]
    ensures |KeepNewest(rows, k)| == Min(k, |rows|)
    ensures IdsIncreasing(KeepNewest(rows, k))
    ensures 0 < k && rows != [] ==> rows[|rows| - 1] in KeepNewest(rows, k)
  {
    forall i | 0 <= i < |rows|
      ensures NewerCount(rows, rows[i].id) == |rows| - 1 - i
    {
      NewerCountAt(rows, i);
    }
    SurvivorsFrom(rows, 0, k);
  }

  /** What `search([(field, '<', cutoff)]).unlink()` leaves: the rows captured at or
      after `cutoff`, in their order. */
  function KeepSince<P>(rows: seq<Row<P>>, cutoff: Time): seq<Row<P>> {
    if rows == [] then []
    else (if rows[0].time >= cutoff then [rows[0]] else []) + KeepSince(rows[1..], cutoff)
  }

  /** The age trim deletes exactly the rows captured strictly before `cutoff`: every
      kept row is a row of the table captured at or after it, and every such row is kept. */
  lemma {:induction false} KeepSinceMembers<P>(rows: seq<Row<P>>, cutoff: Time)
    ensures |KeepSince(rows, cutoff)| <= |rows|
    ensures forall x :: x in KeepSince(rows, cutoff) ==> x in rows && x.time >= cutoff
    ensures forall i :: 0 <= i < |rows| && rows[i].time >= cutoff ==> rows[i] in KeepSince(rows, cutoff)
  {
    if rows != [] {
      KeepSinceMembers(rows[1..], cutoff);
      forall i | 1 <= i < |rows| && rows[i].time >= cutoff
        ensures rows[i] in KeepSince(rows, cutoff)
      {
        assert rows[1..][i - 1] == rows[i];
      }
    }
  }

  lemma {:induction false} KeepSinceIncreasing<P>(rows: seq<Row<P>>, cutoff: Time)
    requires IdsIncreasing(rows)
    ensures IdsIncreasing(KeepSince(rows, cutoff))
  {
    if rows != [] {
      KeepSinceIncreasing(rows[1..], cutoff);
      KeepSinceMembers(rows[1..], cutoff);
      var rest := KeepSince(rows[1..], cutoff);
      forall i | 0 <= i < |rest| ensures rows[0].id < rest[i].id {
        assert rest[i] in rows[1..];
        var j :| 0 <= j < |rows[1..]| && rows[1..][j] == rest[i];
        assert rows[j + 1] == rest[i];
      }
    }
  }

  /** Deleting by age twice with the same cutoff deletes nothing the second time. */
  lemma {:induction false} KeepSinceIdempotent<P>(rows: seq<Row<P>>, cutoff: Time)
    ensures KeepSince(KeepSince(rows, cutoff), cutoff) == KeepSince(rows, cutoff)
  {
    if rows != [] {
      KeepSinceIdempotent(rows[1..], cutoff);
      var rest := KeepSince(rows[1..], cutoff);
      if rows[0].time >= cutoff {
        assert KeepSince(rows, cutoff) == [rows[0]] + rest;
        assert ([rows[0]] + rest)[1..] == rest;
      } else {
        assert KeepSince(rows, cutoff) == [] + rest == rest;
      }
    }
  }

  /** The number of rows for which `keep` holds (`search_count(domain)`). */
  function CountIf<P>(rows: seq<Row<P>>, keep: Row<P> -> bool): (n: nat)
    ensures n <= |rows|
  {
    if rows == [] then 0
    else CountIf(rows[..|rows| - 1], keep) + (if keep(rows[|rows| - 1]) then 1 else 0)
  }

  lemma CountIfAppend<P>(rows: seq<Row<P>>, x: Row<P>, keep: Row<P> -> bool)
    ensures CountIf(rows + [x], keep) == CountIf(rows, keep) + (if keep(x) then 1 else 0)
  {
    assert (rows + [x])[..|rows|] == rows;
  }

  /** A count that only looks at rows captured at or after `cutoff` is the same before
      and after the rows older than `cutoff` are deleted. */
  lemma {:induction false} CountIfKeepSince<P>(rows: seq<Row<P>>, cutoff: Time, keep: Row<P> -> bool)
    requires forall i :: 0 <= i < |rows| && keep(rows[i]) ==> rows[i].time >= cutoff
    ensures CountIf(KeepSince(rows, cutoff), keep) == CountIf(rows, keep)
  {
    if rows != [] {
      var n := |rows|;
      var front := rows[..n - 1];
      var last := rows[n - 1];
      assert rows == front + [last];
      assert forall i :: 0 <= i < |front| ==> front[i] == rows[i];
      CountIfKeepSince(front, cutoff, keep);
      KeepSinceAppend(front, last, cutoff);
      CountIfAppend(front, last, keep);
      if last.time >= cutoff {
        CountIfAppend(KeepSince(front, cutoff), last, keep);
      } else {
        assert !keep(last);
        assert KeepSince(rows, cutoff) == KeepSince(front, cutoff) + [];
        assert KeepSince(front, cutoff) + [] == KeepSince(front, cutoff);
        assert CountIf(rows, keep) == CountIf(front, keep);
      }
    }
  }

  lemma {:induction false} KeepSinceAppend<P>(rows: seq<Row<P>>, x: Row<P>, cutoff: Time)
    ensures KeepSince(rows + [x], cutoff)
         == KeepSince(rows, cutoff) + (if x.time >= cutoff then [x] else [])
  {
    var t := if x.time >= cutoff then [x] else [];
    if rows == [] {
      assert ([x])[1..] == [];
      assert KeepSince([x], cutoff) == t + [];
    } else {
      var h := if rows[0].time >= cutoff then [rows[0]] else [];
      var all := rows + [x];
      assert all[0] == rows[0] && all[1..] == rows[1..] + [x];
      KeepSinceAppend(rows[1..], x, cutoff);
      assert KeepSince(all, cutoff) == h + (KeepSince(rows[1..], cutoff) + t);
      assert h + (KeepSince(rows[1..], cutoff) + t) == (h + KeepSince(rows[1..], cutoff)) + t;
    }
  }

  /** The row a search ordered by `id desc` with `limit=1` returns. */
  function Newest<P>(rows: seq<Row<P>>): (r: Row<P>)
    requires rows != []
    ensures r in rows
    ensures forall i :: 0 <= i < |rows| ==> rows[i].id <= r.id
  {
    if |rows| == 1 then rows[0]
    else
      var m := Newest(rows[1..]);
      if rows[0].id > m.id then rows[0] else m
  }

  /** With increasing ids the newest row is the last one appended. */
  lemma {:induction false} NewestIsLast<P>(rows: seq<Row<P>>)
    requires IdsIncreasing(rows) && rows != []
    ensures Newest(rows) == rows[|rows| - 1]
  {
    var n := |rows|;
    if n > 1 {
      var tail := rows[1..];
      assert forall i, j :: 0 <= i < j < |tail| ==> tail[i].id == rows[i + 1].id < rows[j + 1].id == tail[j].id;
      NewestIsLast(tail);
      assert tail[|tail| - 1] == rows[n - 1];
      assert rows[0].id < rows[n - 1].id;
    }
  }

  /** The rows that creating `datas` one after the other, all stamped `time`, appends
      to a table whose next id is `start`. */
  function Stamp<P>(start: nat, time: Time, datas: seq<P>): seq<Row<P>> {
    seq(|datas|, i requires 0 <= i < |datas| => Row(start + i, time, datas[i]))
  }

  /** The values `f` yields for the elements of `xs` on which it yields one, in order. */
  function Collect<L, P>(xs: seq<L>, f: L -> Option<P>): (r: seq<P>)
    ensures |r| <= |xs|
  {
    if xs == [] then [] else Collect(xs[..|xs| - 1], f) + Yield(f(xs[|xs| - 1]))
  }

  function Yield<P>(o: Option<P>): (r: seq<P>)
    ensures |r| <= 1
  {
    match o
    case None => []
    case Some(p) => [p]
  }

  lemma CollectPrefix<L, P>(xs: seq<L>, f: L -> Option<P>, i: nat)
    requires i < |xs|
    ensures Collect(xs[..i + 1], f) == Collect(xs[..i], f) + Yield(f(xs[i]))
  {
    assert xs[..i + 1][..i] == xs[..i];
  }

  /** Every collected value is what `f` yields for some element, and every value `f`
      yields is collected. */
  lemma {:induction false} CollectMembers<L, P>(xs: seq<L>, f: L -> Option<P>)
    ensures forall p :: p in Collect(xs, f) <==> exists i :: 0 <= i < |xs| && f(xs[i]) == Some(p)
  {
    if xs != [] {
      var init := xs[..|xs| - 1];
      CollectMembers(init, f);
      assert forall i :: 0 <= i < |init| ==> init[i] == xs[i];
    }
  }

  /** The rows a table whose next id is `start` holds after `items` are created in
      order, each at the time `timeOf` gives it. */
  function Timed<P>(start: nat, items: seq<P>, timeOf: P -> Time): seq<Row<P>> {
    seq(|items|, i requires 0 <= i < |items| => Row(start + i, timeOf(items[i]), items[i]))
  }

  /** Stamping one more item adds one row with the next id. */
  lemma TimedSnoc<P>(start: nat, items: seq<P>, x: P, timeOf: P -> Time)
    ensures Timed(start, items + [x], timeOf)
         == Timed(start, items, timeOf) + [Row(start + |items|, timeOf(x), x)]
  {
  }

  /** One database table. Ids come from a sequence (`nextId`) and are never reused. */
  class Table<P> {
    var rows: seq<Row<P>>
    var nextId: nat

    ghost predicate Valid()
      reads this
    {
      && IdsIncreasing(rows)
      && forall i :: 0 <= i < |rows| ==> rows[i].id < nextId
    }

    constructor ()
      ensures Valid() && rows == [] && nextId == 1
    {
      rows := [];
      nextId := 1;
    }

    /** `create(vals)`: appends one row with a fresh id and returns it. */
    method Insert(time: Time, data: P) returns (row: Row<P>)
      requires Valid()
      modifies this
      ensures Valid()
      ensures row == Row(old(nextId), time, data)
      ensures rows == old(rows) + [row] && nextId == old(nextId) + 1
    {
      row := Row(nextId, time, data);
      rows := rows + [row];
      nextId := nextId + 1;
    }

    /** One `create(vals)` per element of `datas`, in order. */
    method InsertAll(time: Time, datas: seq<P>)
      requires Valid()
      modifies this
      ensures Valid()
      ensures rows == old(rows) + Stamp(old(nextId), time, datas)
      ensures nextId == old(nextId) + |datas|
    {
      for i := 0 to |datas|
        invariant Valid()
        invariant rows == old(rows) + Stamp(old(nextId), time, datas[..i])
        invariant nextId == old(nextId) + i
      {
        var row := Insert(time, datas[i]);
        assert Stamp(old(nextId), time, datas[..i + 1]) == Stamp(old(nextId), time, datas[..i]) + [row];
      }
      assert datas[..|datas|] == datas;
    }

    /** For each element of `lines`, in order: parse it, and when that yields a value,
        `create` a row for it at the time `timeOf` gives it. */
    method InsertParsed<L>(lines: seq<L>, parse: L -> Option<P>, timeOf: P -> Time)
      requires Valid()
      modifies this
      ensures Valid()
      ensures rows == old(rows) + Timed(old(nextId), Collect(lines, parse), timeOf)
      ensures nextId == old(nextId) + |Collect(lines, parse)|
    {
      for i := 0 to |lines|
        invariant Valid()
        invariant rows == old(rows) + Timed(old(nextId), Collect(lines[..i], parse), timeOf)
        invariant nextId == old(nextId) + |Collect(lines[..i], parse)|
      {
        ghost var before := Collect(lines[..i], parse);
        CollectPrefix(lines, parse, i);
        var parsed := parse(lines[i]);
        if parsed.Some? {
          TimedSnoc(old(nextId), before, parsed.value, timeOf);
          var row := Insert(timeOf(parsed.value), parsed.value);
        } else {
          assert before + [] == before;
        }
      }
      assert lines[..|lines|] == lines;
    }

    /** `search([], order='id desc', offset=k).unlink()`. */
    method TrimToNewest(k: nat)
      requires Valid()
      modifies this
      ensures Valid()
      ensures rows == KeepNewest(old(rows), k) && nextId == old(nextId)
    {
      KeepNewestIsSuffix(rows, k);
      rows := KeepNewest(rows, k);
    }

    /** `search([(field, '<', cutoff)])`, counted, then unlinked. */
    method DeleteOlderThan(cutoff: Time) returns (count: nat)
      requires Valid()
      modifies this
      ensures Valid()
      ensures rows == KeepSince(old(rows), cutoff) && nextId == old(nextId)
      ensures count == |old(rows)| - |rows|
    {
      KeepSinceIncreasing(rows, cutoff);
      KeepSinceMembers(rows, cutoff);
      var kept := KeepSince(rows, cutoff);
      count := |rows| - |kept|;
      rows := kept;
    }

    /** `search([]).unlink()`. */
    method DeleteAll()
      requires Valid()
      modifies this
      ensures Valid()
      ensures rows == [] && nextId == old(nextId)
    {
      rows := [];
    }

    /** `write(vals)` on the row at `index`: its payload changes, its id and time do not. */
    method Write(index: nat, data: P)
      requires Valid() && index < |rows|
      modifies this
      ensures Valid()
      ensures rows == old(rows)[index := Row(old(rows)[index].id, old(rows)[index].time, data)]
      ensures nextId == old(nextId)
    {
      rows := rows[index := Row(rows[index].id, rows[index].time, data)];
    }

    /** The singleton `create(vals_list)` override: when a row exists, the one a
        `search([], limit=1)` finds (the lowest id) is returned and nothing is stored;
        otherwise every value in `vals` is stored, in order, and the new rows returned.
        A call with at most one value therefore never makes a second row. */
    method CreateSingleton(time: Time, vals: seq<P>) returns (result: seq<Row<P>>)
      requires Valid()
      modifies this
      ensures Valid()
      ensures old(rows) != [] ==> result == [old(rows)[0]] && rows == old(rows) && nextId == old(nextId)
      ensures old(rows) == [] ==> result == rows == Stamp(old(nextId), time, vals)
      ensures old(rows) == [] ==> nextId == old(nextId) + |vals|
      ensures |old(rows)| <= 1 && |vals| <= 1 ==> |rows| <= 1
    {
      if rows != [] {
        return [rows[0]];
      }
      InsertAll(time, vals);
      result := rows;
    }
  }
}
