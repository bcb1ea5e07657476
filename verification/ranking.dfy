/**
 The report's order within a month: manager rows sorted by total events,
 largest first, and stable (rows with equal totals keep their order), as
 Python's `sorted(..., key=..., reverse=True)` is.
 */
module Ranking {
  import opened Alerts

  datatype Row = Row(manager: Manager, counts: Counts)

  /** The sort key: the row's total `event_count`. */
  function Key(r: Row): int {
    r.counts.events
  }

  /** Each row's key is at least the next row's. */
  ghost predicate NonIncreasing(s: seq<Row>) {
    forall i :: 0 < i < |s| ==> Key(s[i - 1]) >= Key(s[i])
  }

  /** Every row's key is at least every later row's. */
  ghost predicate SortedDesc(s: seq<Row>) {
    forall i, j :: 0 <= i < j < |s| ==> Key(s[i]) >= Key(s[j])
  }

  /** The rows whose key is `k`, in their order in `s`. */
  function WithKey(s: seq<Row>, k: int): seq<Row> {
    if s == [] then [] else (if Key(s[0]) == k then [s[0]] else []) + WithKey(s[1..], k)
  }

  /** Rows of equal key appear in the same relative order in `r` as in `s`. */
  ghost predicate StableFor(r: seq<Row>, s: seq<Row>) {
    forall k :: WithKey(r, k) == WithKey(s, k)
  }

  /**
   Inserts `x` into a non-increasing sequence before the first row whose key
   is not larger than its own, so that `x` precedes the rows with its key.
   */
  function InsertDesc(x: Row, s: seq<Row>): (r: seq<Row>)
    requires NonIncreasing(s)
    ensures NonIncreasing(r)
    ensures multiset(r) == multiset(s) + multiset{x}
    ensures |r| == |s| + 1
    ensures r[0] == x || (|s| > 0 && r[0] == s[0])
  {
    if s == [] || Key(x) >= Key(s[0]) then [x] + s
    else
      assert s == [s[0]] + s[1..];
      [s[0]] + InsertDesc(x, s[1..])
  }

  /** Sorts rows by key, largest first, keeping the order of rows with equal keys. */
  function SortByEventsDesc(s: seq<Row>): (r: seq<Row>)
    ensures NonIncreasing(r)
    ensures multiset(r) == multiset(s)
    ensures |r| == |s|
  {
    if s == [] then []
    else
      assert s == [s[0]] + s[1..];
      InsertDesc(s[0], SortByEventsDesc(s[1..]))
  }

  lemma {:induction false} WithKeyAppend(a: seq<Row>, b: seq<Row>, k: int)
    ensures WithKey(a + b, k) == WithKey(a, k) + WithKey(b, k)
    decreases |a|
  {
    if a == [] {
      assert a + b == b;
    } else {
      assert (a + b)[0] == a[0] && (a + b)[1..] == a[1..] + b;
      WithKeyAppend(a[1..], b, k);
      var head := if Key(a[0]) == k then [a[0]] else [];
      assert WithKey(a + b, k) == head + (WithKey(a[1..], k) + WithKey(b, k));
      assert head + (WithKey(a[1..], k) + WithKey(b, k)) == (head + WithKey(a[1..], k)) + WithKey(b, k);
    }
  }

  /** Inserting `x` keeps, for every key, the rows of that key in the order of `[x] + s`. */
  lemma {:induction false} InsertDescStable(x: Row, s: seq<Row>)
    requires NonIncreasing(s)
    ensures StableFor(InsertDesc(x, s), [x] + s)
    decreases |s|
  {
    if s != [] && Key(x) < Key(s[0]) {
      InsertDescStable(x, s[1..]);
      forall k
        ensures WithKey(InsertDesc(x, s), k) == WithKey([x] + s, k)
      {
        var tail := InsertDesc(x, s[1..]);
        calc {
          WithKey(InsertDesc(x, s), k);
          { WithKeyAppend([s[0]], tail, k); }
          WithKey([s[0]], k) + WithKey(tail, k);
          WithKey([s[0]], k) + WithKey([x] + s[1..], k);
          { WithKeyAppend([x], s[1..], k); }
          WithKey([s[0]], k) + WithKey([x], k) + WithKey(s[1..], k);
          // x and s[0] have different keys, so at most one of them is kept
          WithKey([x], k) + WithKey([s[0]], k) + WithKey(s[1..], k);
          { WithKeyAppend([s[0]], s[1..], k); assert [s[0]] + s[1..] == s; }
          WithKey([x], k) + WithKey(s, k);
          { WithKeyAppend([x], s, k); }
          WithKey([x] + s, k);
        }
      }
    }
  }

  /** The sort is stable: rows with equal totals keep their input order. */
  lemma {:induction false} SortStable(s: seq<Row>)
    ensures StableFor(SortByEventsDesc(s), s)
    decreases |s|
  {
    if s != [] {
      var tail := SortByEventsDesc(s[1..]);
      SortStable(s[1..]);
      InsertDescStable(s[0], tail);
      forall k
        ensures WithKey(SortByEventsDesc(s), k) == WithKey(s, k)
      {
        calc {
          WithKey(SortByEventsDesc(s), k);
          WithKey([s[0]] + tail, k);
          { WithKeyAppend([s[0]], tail, k); }
          WithKey([s[0]], k) + WithKey(tail, k);
          WithKey([s[0]], k) + WithKey(s[1..], k);
          { WithKeyAppend([s[0]], s[1..], k); assert [s[0]] + s[1..] == s; }
          WithKey(s, k);
        }
      }
    }
  }

  /** Adjacent order is total order: every row's key is at least every later row's. */
  lemma {:induction false} NonIncreasingSorted(s: seq<Row>)
    requires NonIncreasing(s)
    ensures SortedDesc(s)
    decreases |s|
  {
    if s != [] {
      NonIncreasingSorted(s[1..]);
      forall i, j | 0 <= i < j < |s|
        ensures Key(s[i]) >= Key(s[j])
      {
        if i > 0 {
          assert s[i] == s[1..][i - 1] && s[j] == s[1..][j - 1];
        } else if j > 1 {
          assert s[1] == s[1..][0] && s[j] == s[1..][j - 1];
        }
      }
    }
  }
}
