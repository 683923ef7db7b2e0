/** The `WHERE … ORDER BY key DESC LIMIT n` shape of the two introspection queries,
    over an abstract list of rows. */
module Ranking {
  import opened Base

  /** `a` may come before `b` under `ORDER BY key DESC`, where PostgreSQL puts NULL
      (here `None`) first. */
  predicate DescBefore(a: Option<real>, b: Option<real>) {
    a.None? || (b.Some? && a.value >= b.value)
  }

  predicate SortedDesc<T>(s: seq<T>, key: T -> Option<real>) {
    forall i, j :: 0 <= i < j < |s| ==> DescBefore(key(s[i]), key(s[j]))
  }

  /** The rows a `WHERE` clause lets through, in their order. */
  function Filter<T>(s: seq<T>, keep: T -> bool): (r: seq<T>)
    ensures multiset(r) <= multiset(s)
    ensures forall x :: x in r ==> keep(x)
    ensures forall i :: 0 <= i < |s| && keep(s[i]) ==> s[i] in r
  {
    if s == [] then []
    else
      var rest := Filter(s[1..], keep);
      assert s == [s[0]] + s[1..];
      if keep(s[0]) then [s[0]] + rest
      else
        assert forall i :: 1 <= i < |s| ==> s[i] == s[1..][i - 1];
        rest
  }

  /** A `WHERE` clause keeps every copy of a row it accepts and none of a row it
      rejects. */
  lemma {:induction false} FilterMultiplicity<T>(s: seq<T>, keep: T -> bool, x: T)
    ensures multiset(Filter(s, keep))[x] == if keep(x) then multiset(s)[x] else 0
  {
    if s != [] {
      FilterMultiplicity(s[1..], keep, x);
      assert s == [s[0]] + s[1..];
    }
  }

  /** A row ranked before `x` and before every row of `s` is ranked before every row
      of any rearrangement of `s` with `x` added. */
  lemma RanksBeforeAll<T>(y: T, r: seq<T>, s: seq<T>, x: T, key: T -> Option<real>)
    requires multiset(r) == multiset(s) + multiset{x}
    requires DescBefore(key(y), key(x))
    requires forall k :: 0 <= k < |s| ==> DescBefore(key(y), key(s[k]))
    ensures forall k :: 0 <= k < |r| ==> DescBefore(key(y), key(r[k]))
  {
    forall k | 0 <= k < |r| ensures DescBefore(key(y), key(r[k])) {
      assert r[k] in multiset(s) + multiset{x};
      if r[k] != x {
        var j :| 0 <= j < |s| && s[j] == r[k];
      }
    }
  }

  /** Rows drawn from `s` that all pass `keep` are drawn from what the filter keeps. */
  lemma FilterCollects<T>(a: seq<T>, s: seq<T>, keep: T -> bool)
    requires multiset(a) <= multiset(s)
    requires forall x :: x in a ==> keep(x)
    ensures multiset(a) <= multiset(Filter(s, keep))
    ensures |a| <= |Filter(s, keep)|
  {
    forall x ensures multiset(a)[x] <= multiset(Filter(s, keep))[x] {
      FilterMultiplicity(s, keep, x);
    }
    var r := Filter(s, keep);
    assert multiset(r) == multiset(a) + (multiset(r) - multiset(a));
  }

  function InsertDesc<T>(x: T, s: seq<T>, key: T -> Option<real>): (r: seq<T>)
    requires SortedDesc(s, key)
    ensures SortedDesc(r, key)
    ensures multiset(r) == multiset(s) + multiset{x}
    ensures |r| == |s| + 1
  {
    if s == [] then [x]
    else if DescBefore(key(x), key(s[0])) then [x] + s
    else
      var rest := InsertDesc(x, s[1..], key);
      assert s == [s[0]] + s[1..];
      RanksBeforeAll(s[0], rest, s[1..], x, key);
      [s[0]] + rest
  }

  /** `ORDER BY key DESC`: the same rows, largest key first, NULL keys before all. */
  function SortDesc<T>(s: seq<T>, key: T -> Option<real>): (r: seq<T>)
    ensures SortedDesc(r, key)
    ensures multiset(r) == multiset(s)
    ensures |r| == |s|
  {
    if s == [] then []
    else
      assert s == [s[0]] + s[1..];
      InsertDesc(s[0], SortDesc(s[1..], key), key)
  }

  /** `ORDER BY key DESC LIMIT n`. Rows with equal keys, which PostgreSQL may return
      in any order, come in the order the sort leaves them. */
  function TopN<T>(s: seq<T>, key: T -> Option<real>, n: nat): (r: seq<T>)
    ensures |r| == Min(n, |s|)
    ensures forall i :: 0 <= i < |r| ==> r[i] in s
  {
    var sorted := SortDesc(s, key);
    var r := sorted[..Min(n, |s|)];
    forall i | 0 <= i < |r| ensures r[i] in s {
      assert r[i] in multiset(sorted);
    }
    r
  }

  /** The limited result is sorted and made of rows of the input, and holds all of them
      when there are at most `n`. */
  lemma TopNSorted<T>(s: seq<T>, key: T -> Option<real>, n: nat)
    ensures SortedDesc(TopN(s, key, n), key)
    ensures multiset(TopN(s, key, n)) <= multiset(s)
    ensures |s| <= n ==> multiset(TopN(s, key, n)) == multiset(s)
  {
    var sorted := SortDesc(s, key);
    var m := Min(n, |s|);
    assert sorted == sorted[..m] + sorted[m..];
    if |s| <= n {
      assert sorted[..m] == sorted;
    }
  }

  /** Every row the limit cuts off may be placed after every row it keeps. */
  lemma TopNCutsLowest<T>(s: seq<T>, key: T -> Option<real>, n: nat, x: T)
    requires x in multiset(s) - multiset(TopN(s, key, n))
    ensures forall i :: 0 <= i < |TopN(s, key, n)| ==> DescBefore(key(TopN(s, key, n)[i]), key(x))
  {
    var sorted := SortDesc(s, key);
    var m := Min(n, |s|);
    assert sorted == sorted[..m] + sorted[m..];
    assert x in multiset(sorted[m..]);
    var j :| 0 <= j < |sorted[m..]| && sorted[m..][j] == x;
    assert sorted[m + j] == x;
  }

  /** The rows whose key is NULL. */
  function NullKeys<T>(s: seq<T>, key: T -> Option<real>): seq<T> {
    Filter(s, (y: T) => key(y).None?)
  }

  /** A row whose key is NULL survives the limit while at most `n` rows have a NULL
      key: NULL ranks ahead of every value under `DESC`. */
  lemma NullKeySurvives<T>(s: seq<T>, key: T -> Option<real>, n: nat, x: T)
    requires x in s && key(x).None?
    requires |NullKeys(s, key)| <= n
    ensures x in TopN(s, key, n)
  {
    var top := TopN(s, key, n);
    TopNSorted(s, key, n);
    if x !in top {
      assert x in multiset(s) - multiset(top);
      TopNCutsLowest(s, key, n, x);
      var nulls := top + [x];
      assert multiset(nulls) == multiset(top) + multiset{x};
      assert multiset(nulls) <= multiset(s);
      assert forall y :: y in nulls ==> key(y).None?;
      FilterCollects(nulls, s, (y: T) => key(y).None?);
      assert false;
    }
  }
}
