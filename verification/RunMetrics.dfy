/** The roll-up reads its rows without an order, so its metrics and closing status must not need one. */
module RunMetrics {
  import opened Options
  import opened Observations
  import opened RunRecords

  function Without(rows: seq<Observation>, k: nat): seq<Observation>
    requires k < |rows|
  {
    rows[..k] + rows[k + 1..]
  }

  function PlusMeasured(a: Option<nat>, b: Option<nat>): Option<nat> {
    match (a, b)
    case (None, _) => b
    case (_, None) => a
    case (Some(m), Some(n)) => Some(m + n)
  }

  lemma CountedStep(init: seq<Observation>, last: Observation)
    ensures StatusCounts(init + [last]) == StatusCounts(init) + multiset{last.status}
    ensures TotalElapsed(init + [last]) == TotalElapsed(init) + last.elapsedMs.GetOr(0)
    ensures MeasuredRequests(init + [last]) == PlusMeasured(MeasuredRequests(init), NetworkRequestCount(last))
  {
  }

  /** Any one row can be counted last. */
  lemma {:induction false} CountedLast(rows: seq<Observation>, k: nat)
    requires k < |rows|
    ensures StatusCounts(rows) == StatusCounts(Without(rows, k)) + multiset{rows[k].status}
    ensures TotalElapsed(rows) == TotalElapsed(Without(rows, k)) + rows[k].elapsedMs.GetOr(0)
    ensures MeasuredRequests(rows) == PlusMeasured(MeasuredRequests(Without(rows, k)), NetworkRequestCount(rows[k]))
    decreases |rows|
  {
    hide NetworkRequestCount, StatusCounts, TotalElapsed, MeasuredRequests;
    var init, last := rows[..|rows| - 1], rows[|rows| - 1];
    assert rows == init + [last];
    CountedStep(init, last);
    if k == |init| {
      assert Without(rows, k) == init;
    } else {
      CountedLast(init, k);
      assert Without(rows, k) == Without(init, k) + [last];
      CountedStep(Without(init, k), last);
    }
  }

  lemma {:induction false} MetricsIgnoreOrder(a: seq<Observation>, b: seq<Observation>)
    requires multiset(a) == multiset(b)
    ensures MetricsOf(a) == MetricsOf(b)
    decreases |a|
  {
    assert |multiset(a)| == |a| && |multiset(b)| == |b|;
    if a != [] {
      var init, last := a[..|a| - 1], a[|a| - 1];
      assert a == init + [last];
      assert last in multiset(b);
      var k :| 0 <= k < |b| && b[k] == last;
      CountedLast(b, k);
      CountedLast(a, |a| - 1);
      assert Without(a, |a| - 1) == init;
      SameRest(a, b, k);
      MetricsIgnoreOrder(init, Without(b, k));
    }
  }

  lemma SameRest(a: seq<Observation>, b: seq<Observation>, k: nat)
    requires a != [] && k < |b| && b[k] == a[|a| - 1] && multiset(a) == multiset(b)
    ensures multiset(a[..|a| - 1]) == multiset(Without(b, k))
  {
    var last := multiset{b[k]};
    Removed(a, |a| - 1);
    Removed(b, k);
    assert Without(a, |a| - 1) == a[..|a| - 1];
    assert multiset(Without(a, |a| - 1)) == multiset(a) - last;
    assert multiset(Without(b, k)) == multiset(b) - last;
  }

  lemma Removed<T>(s: seq<T>, k: nat)
    requires k < |s|
    ensures multiset(s) == multiset(s[..k] + s[k + 1..]) + multiset{s[k]}
  {
    assert s == s[..k] + ([s[k]] + s[k + 1..]);
  }

  /** Two readings of the planned rows, in any orders, close the run alike. */
  lemma RollUpIgnoresOrder(a: seq<Observation>, b: seq<Observation>)
    requires multiset(a) == multiset(b)
    ensures MetricsOf(a) == MetricsOf(b) && FinalStatus(a) == FinalStatus(b)
  {
    hide MetricsOf;
    MetricsIgnoreOrder(a, b);
    forall i | 0 <= i < |a| ensures a[i] in b { assert a[i] in multiset(b); }
    forall i | 0 <= i < |b| ensures b[i] in a { assert b[i] in multiset(a); }
  }

  // ----- the totals are sums -----

  function Sum(numbers: seq<int>): int {
    if numbers == [] then 0 else numbers[0] + Sum(numbers[1..])
  }

  lemma {:induction false} SumAppend(init: seq<int>, last: int)
    ensures Sum(init + [last]) == Sum(init) + last
  {
    if init == [] {
      assert ([] + [last])[1..] == [];
    } else {
      SumAppend(init[1..], last);
      assert (init + [last])[1..] == init[1..] + [last];
    }
  }

  function Elapsed(rows: seq<Observation>): seq<int> {
    seq(|rows|, i requires 0 <= i < |rows| => if rows[i].elapsedMs.Some? then rows[i].elapsedMs.value else 0)
  }

  /** What each row measured of requests: counters that are absent or negative measured nothing. */
  function Measured(rows: seq<Observation>): seq<int> {
    seq(|rows|, i requires 0 <= i < |rows| =>
      if rows[i].requests.Some? && rows[i].requests.value > 0 then rows[i].requests.value else 0)
  }

  /** The roll-up's totals are the sums over its rows. */
  lemma {:induction false} TotalsAreSums(rows: seq<Observation>)
    ensures MetricsOf(rows).totalElapsedMs == Sum(Elapsed(rows))
    ensures MetricsOf(rows).requestCount.GetOr(0) == Sum(Measured(rows))
  {
    if rows != [] {
      var init, last := rows[..|rows| - 1], rows[|rows| - 1];
      assert rows == init + [last];
      TotalsAreSums(init);
      CountedStep(init, last);
      SumAppend(Elapsed(init), last.elapsedMs.GetOr(0));
      assert Elapsed(rows) == Elapsed(init) + [last.elapsedMs.GetOr(0)];
      SumAppend(Measured(init), NetworkRequestCount(last).GetOr(0));
      assert Measured(rows) == Measured(init) + [NetworkRequestCount(last).GetOr(0)];
    }
  }
}
