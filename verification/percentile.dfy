/**
 Summaries of throughput samples: interpolated percentiles, mean and the stability factor
 (crates/metra-client/src/transfer.rs), over the reals.
 */
module Percentile {
  import opened Sorting

  function AtMost(x: real, y: real): bool { x <= y }

  function ClampReal(x: real, lo: real, hi: real): real
    requires lo <= hi
  {
    if x < lo then lo else if x > hi then hi else x
  }

  function Ceil(x: real): int { -((-x).Floor) }

  /** The fractional position of a quantile in a list of n values. */
  function Rank(n: nat, quantile: real): (r: real)
    requires n > 0
    ensures 0.0 <= r <= (n - 1) as real
  {
    var q, last := ClampReal(quantile, 0.0, 1.0), (n - 1) as real;
    ScaledBounds(q, last);
    Scaled(q, last)
  }

  function Scaled(q: real, x: real): real { q * x }

  lemma ScaledBounds(q: real, x: real)
    requires 0.0 <= q <= 1.0 && 0.0 <= x
    ensures 0.0 <= Scaled(q, x) <= x
  {
    ScaledMonotone(0.0, q, x);
    ScaledMonotone(q, 1.0, x);
    assert Scaled(1.0, x) == x;
  }

  function Percentile(sorted: seq<real>, quantile: real): real {
    if sorted == [] then 0.0
    else if |sorted| == 1 then sorted[0]
    else
      var rank := Rank(|sorted|, quantile);
      var lower, upper := rank.Floor, Ceil(rank);
      assert 0 <= lower <= upper < |sorted|;
      if lower == upper then sorted[lower]
      else sorted[lower] + (sorted[upper] - sorted[lower]) * (rank - lower as real)
  }

  datatype Stats = Stats(min: real, p50: real, p95: real, max: real, mean: real)

  function SumReal(xs: seq<real>): real {
    if xs == [] then 0.0 else xs[0] + SumReal(xs[1..])
  }

  function Summarize(values: seq<real>): Stats {
    if values == [] then Stats(0.0, 0.0, 0.0, 0.0, 0.0)
    else
      var sorted := SortBy(AtMost, values);
      SortByMembers(AtMost, values);
      Stats(sorted[0], Percentile(sorted, 0.50), Percentile(sorted, 0.95), sorted[|sorted| - 1],
            SumReal(sorted) / |sorted| as real)
  }

  function StabilityFactor(stats: Stats): real {
    if stats.p95 <= 0.0 then 0.0 else ClampReal(stats.p50 / stats.p95, 0.0, 1.0)
  }

  // ---------------------------------------------------------------- percentiles

  /** The line through (k, a) and (k + 1, b), at a position between them. */
  function Between(a: real, b: real, w: real): real { a + (b - a) * w }

  lemma BetweenMonotone(a: real, b: real, v: real, w: real)
    requires a <= b && v <= w
    ensures Between(a, b, v) <= Between(a, b, w)
  {
    assert (b - a) * (w - v) >= 0.0;
    assert (b - a) * w == (b - a) * v + (b - a) * (w - v);
  }

  lemma BetweenEnds(a: real, b: real)
    ensures Between(a, b, 0.0) == a && Between(a, b, 1.0) == b
  {
  }

  /** A percentile lies on the line through the two samples around its rank. */
  lemma OnSegment(sorted: seq<real>, quantile: real, k: nat)
    requires k + 1 < |sorted|
    requires k as real <= Rank(|sorted|, quantile) <= (k + 1) as real
    ensures Percentile(sorted, quantile) == Between(sorted[k], sorted[k + 1], Rank(|sorted|, quantile) - k as real)
  {
    var rank := Rank(|sorted|, quantile);
    if rank == k as real {
      BetweenEnds(sorted[k], sorted[k + 1]);
    } else if rank == (k + 1) as real {
      BetweenEnds(sorted[k], sorted[k + 1]);
    } else {
      assert rank.Floor == k && Ceil(rank) == k + 1;
    }
  }

  function SegmentOf(n: nat, quantile: real): (k: nat)
    requires n > 1
    ensures k + 1 < n && k as real <= Rank(n, quantile) <= (k + 1) as real
  {
    var rank := Rank(n, quantile);
    if rank.Floor == n - 1 then n - 2 else rank.Floor
  }

  /** A percentile lies between the two samples around its rank. */
  lemma SegmentBounds(sorted: seq<real>, quantile: real)
    requires |sorted| > 1 && SortedBy(AtMost, sorted)
    ensures var k := SegmentOf(|sorted|, quantile); sorted[k] <= Percentile(sorted, quantile) <= sorted[k + 1]
  {
    var k := SegmentOf(|sorted|, quantile);
    var w := Rank(|sorted|, quantile) - k as real;
    OnSegment(sorted, quantile, k);
    assert AtMost(sorted[k], sorted[k + 1]);
    BetweenEnds(sorted[k], sorted[k + 1]);
    BetweenMonotone(sorted[k], sorted[k + 1], 0.0, w);
    BetweenMonotone(sorted[k], sorted[k + 1], w, 1.0);
  }

  lemma RankIs(n: nat, quantile: real, x: real)
    requires n > 1 && quantile * (n - 1) as real == x && 0.0 <= x <= (n - 1) as real
    ensures Rank(n, quantile) == x
  {
    var last := (n - 1) as real;
    assert quantile > 1.0 ==> (quantile - 1.0) * last > 0.0;
    assert quantile < 0.0 ==> -quantile * last > 0.0;
    assert Scaled(quantile, last) == x;
  }

  /**
   What a percentile is: the value at the position `quantile * (n - 1)`, counted from 0, of the broken
   line through the samples; quantiles below 0 and above 1 give the first and the last sample.
   */
  lemma Interpolates(sorted: seq<real>, quantile: real, k: nat, w: real)
    requires k + 1 < |sorted| && 0.0 <= w <= 1.0
    requires quantile * (|sorted| - 1) as real == k as real + w
    ensures Percentile(sorted, quantile) == sorted[k] + (sorted[k + 1] - sorted[k]) * w
  {
    RankIs(|sorted|, quantile, k as real + w);
    OnSegment(sorted, quantile, k);
  }

  lemma ClampsQuantile(sorted: seq<real>, quantile: real)
    requires sorted != []
    ensures quantile <= 0.0 ==> Percentile(sorted, quantile) == sorted[0]
    ensures quantile >= 1.0 ==> Percentile(sorted, quantile) == sorted[|sorted| - 1]
  {
    var last := (|sorted| - 1) as real;
    assert Scaled(0.0, last) == 0.0 && Scaled(1.0, last) == last;
  }

  /** The quantiles `k / (n - 1)` give the samples themselves. */
  lemma SampleQuantiles(sorted: seq<real>, k: nat)
    requires |sorted| > 1 && k < |sorted|
    ensures Percentile(sorted, k as real / (|sorted| - 1) as real) == sorted[k]
  {
    var quantile := k as real / (|sorted| - 1) as real;
    assert quantile * (|sorted| - 1) as real == k as real;
    if k + 1 < |sorted| {
      Interpolates(sorted, quantile, k, 0.0);
    } else {
      Interpolates(sorted, quantile, k - 1, 1.0);
    }
  }

  /** The middle sample of an odd number of samples, or the mean of the two middle ones. */
  function Median(sorted: seq<real>): real
    requires sorted != []
  {
    var m := |sorted| / 2;
    if |sorted| % 2 == 1 then sorted[m] else (sorted[m - 1] + sorted[m]) / 2.0
  }

  lemma HalfQuantileIsMedian(sorted: seq<real>)
    requires sorted != []
    ensures Percentile(sorted, 0.50) == Median(sorted)
  {
    var n, m := |sorted|, |sorted| / 2;
    if n > 1 && n % 2 == 1 {
      assert 0.50 * (n - 1) as real == m as real;
      Interpolates(sorted, 0.50, m, 0.0);
    } else if n > 1 {
      assert 0.50 * (n - 1) as real == (m - 1) as real + 0.5;
      Interpolates(sorted, 0.50, m - 1, 0.5);
    }
  }

  /** 95% of the way through n samples: 19 (n - 1) / 20, with its fraction. */
  lemma NineteenTwentieths(sorted: seq<real>)
    requires |sorted| > 1
    ensures var k, rest := 19 * (|sorted| - 1) / 20, 19 * (|sorted| - 1) % 20;
      && 0 <= k < k + 1 < |sorted|
      && Percentile(sorted, 0.95) == sorted[k] + (sorted[k + 1] - sorted[k]) * (rest as real / 20.0)
  {
    var k, rest := 19 * (|sorted| - 1) / 20, 19 * (|sorted| - 1) % 20;
    assert 20 * k + rest == 19 * (|sorted| - 1);
    Interpolates(sorted, 0.95, k, rest as real / 20.0);
  }

  lemma RankMonotone(n: nat, p: real, q: real)
    requires n > 0 && p <= q
    ensures Rank(n, p) <= Rank(n, q)
  {
    ScaledMonotone(ClampReal(p, 0.0, 1.0), ClampReal(q, 0.0, 1.0), (n - 1) as real);
  }

  lemma ScaledMonotone(p: real, q: real, x: real)
    requires p <= q && x >= 0.0
    ensures Scaled(p, x) <= Scaled(q, x)
  {
    assert (q - p) * x >= 0.0;
  }

  /** A higher quantile never gives a lower value. */
  lemma PercentileMonotone(sorted: seq<real>, p: real, q: real)
    requires SortedBy(AtMost, sorted) && p <= q
    ensures Percentile(sorted, p) <= Percentile(sorted, q)
  {
    if |sorted| > 1 {
      RankMonotone(|sorted|, p, q);
      var i, j := SegmentOf(|sorted|, p), SegmentOf(|sorted|, q);
      if i < j {
        SegmentBounds(sorted, p);
        SegmentBounds(sorted, q);
        assert i + 1 < j ==> AtMost(sorted[i + 1], sorted[j]);
      } else {
        OnSegment(sorted, p, i);
        OnSegment(sorted, q, j);
        assert i == j;
        assert AtMost(sorted[i], sorted[i + 1]);
        BetweenMonotone(sorted[i], sorted[i + 1], Rank(|sorted|, p) - i as real, Rank(|sorted|, q) - i as real);
      }
    }
  }

  /** Every percentile of a non-empty list lies between its first and last element. */
  lemma PercentileBounds(sorted: seq<real>, quantile: real)
    requires sorted != [] && SortedBy(AtMost, sorted)
    ensures sorted[0] <= Percentile(sorted, quantile) <= sorted[|sorted| - 1]
  {
    if |sorted| > 1 {
      var k := SegmentOf(|sorted|, quantile);
      SegmentBounds(sorted, quantile);
      assert k > 0 ==> AtMost(sorted[0], sorted[k]);
      assert k + 1 < |sorted| - 1 ==> AtMost(sorted[k + 1], sorted[|sorted| - 1]);
    }
  }

  // ---------------------------------------------------------------- summaries

  lemma {:induction false} SumBounds(xs: seq<real>, lo: real, hi: real)
    requires forall i :: 0 <= i < |xs| ==> lo <= xs[i] <= hi
    ensures lo * |xs| as real <= SumReal(xs) <= hi * |xs| as real
  {
    if xs != [] {
      SumBounds(xs[1..], lo, hi);
      assert |xs| as real == |xs[1..]| as real + 1.0;
    }
  }

  lemma QuotientBounds(sum: real, n: real, lo: real, hi: real)
    requires n > 0.0 && lo * n <= sum <= hi * n
    ensures lo <= sum / n <= hi
  {
    var mean := sum / n;
    assert mean * n == sum;
    assert mean < lo ==> (lo - mean) * n > 0.0;
    assert mean > hi ==> (mean - hi) * n > 0.0;
  }

  lemma OrderOfReals()
    ensures TotalPreorder(AtMost)
  {
  }

  /** Every element of a sorted list lies between its ends. */
  lemma EndsBound(sorted: seq<real>, i: nat)
    requires SortedBy(AtMost, sorted) && i < |sorted|
    ensures sorted[0] <= sorted[i] <= sorted[|sorted| - 1]
  {
    assert i > 0 ==> AtMost(sorted[0], sorted[i]);
    assert i < |sorted| - 1 ==> AtMost(sorted[i], sorted[|sorted| - 1]);
  }

  lemma MeanBounds(sorted: seq<real>)
    requires SortedBy(AtMost, sorted) && sorted != []
    ensures sorted[0] <= SumReal(sorted) / |sorted| as real <= sorted[|sorted| - 1]
  {
    var lo, hi := sorted[0], sorted[|sorted| - 1];
    forall i | 0 <= i < |sorted| ensures lo <= sorted[i] <= hi {
      EndsBound(sorted, i);
    }
    SumBounds(sorted, lo, hi);
    QuotientBounds(SumReal(sorted), |sorted| as real, lo, hi);
  }

  lemma SortedEnds(values: seq<real>, sorted: seq<real>)
    requires values != [] && sorted == SortBy(AtMost, values)
    ensures |sorted| == |values| && SortedBy(AtMost, sorted)
    ensures sorted[0] in values && sorted[|sorted| - 1] in values
    ensures forall x :: x in values ==> sorted[0] <= x <= sorted[|sorted| - 1]
  {
    OrderOfReals();
    SortBySorts(AtMost, values);
    SortByMembers(AtMost, values);
    assert sorted[0] in sorted && sorted[|sorted| - 1] in sorted;
    forall x | x in values ensures sorted[0] <= x <= sorted[|sorted| - 1] {
      assert x in sorted;
      var i :| 0 <= i < |sorted| && sorted[i] == x;
      EndsBound(sorted, i);
    }
  }

  /** The ends of a summary are the smallest and the largest sample. */
  lemma SummaryEnds(values: seq<real>)
    requires values != []
    ensures Summarize(values).min in values && Summarize(values).max in values
    ensures forall x :: x in values ==> Summarize(values).min <= x <= Summarize(values).max
  {
    SortedEnds(values, SortBy(AtMost, values));
  }

  /** The order of a summary: min <= p50 <= p95 <= max, and the mean lies between the ends. */
  lemma SummaryIsOrdered(values: seq<real>)
    requires values != []
    ensures var s := Summarize(values); s.min <= s.p50 <= s.p95 <= s.max && s.min <= s.mean <= s.max
  {
    var sorted := SortBy(AtMost, values);
    OrderOfReals();
    SortBySorts(AtMost, values);
    SortByMembers(AtMost, values);
    PercentileBounds(sorted, 0.50);
    PercentileMonotone(sorted, 0.50, 0.95);
    PercentileBounds(sorted, 0.95);
    MeanBounds(sorted);
  }

  /** A summary does not depend on the order in which the samples were taken. */
  lemma SummaryOrderIndependent(values: seq<real>, permuted: seq<real>)
    requires multiset(values) == multiset(permuted)
    ensures Summarize(values) == Summarize(permuted)
  {
    OrderOfReals();
    SortBySorts(AtMost, values);
    SortBySorts(AtMost, permuted);
    SortByKeeps(AtMost, values);
    SortByKeeps(AtMost, permuted);
    SortedUnique(AtMost, SortBy(AtMost, values), SortBy(AtMost, permuted));
    assert |multiset(values)| == |values| && |multiset(permuted)| == |permuted|;
  }

  lemma {:induction false} SumOfInsert(x: real, xs: seq<real>)
    ensures SumReal(Insert(AtMost, x, xs)) == x + SumReal(xs)
  {
    var after := Insert(AtMost, x, xs);
    if xs == [] || AtMost(x, xs[0]) {
      assert after[1..] == xs;
    } else {
      SumOfInsert(x, xs[1..]);
      assert after[1..] == Insert(AtMost, x, xs[1..]);
    }
  }

  lemma {:induction false} SumOfSorted(xs: seq<real>)
    ensures SumReal(SortBy(AtMost, xs)) == SumReal(xs)
  {
    if xs != [] {
      SumOfSorted(xs[1..]);
      SumOfInsert(xs[0], SortBy(AtMost, xs[1..]));
    }
  }

  lemma SortedIs(values: seq<real>, ascending: seq<real>)
    requires values != [] && multiset(values) == multiset(ascending)
    requires forall i, j :: 0 <= i < j < |ascending| ==> ascending[i] <= ascending[j]
    ensures SortBy(AtMost, values) == ascending && |ascending| == |values|
  {
    OrderOfReals();
    SortBySorts(AtMost, values);
    SortByKeeps(AtMost, values);
    SortByMembers(AtMost, values);
    SortedUnique(AtMost, SortBy(AtMost, values), ascending);
  }

  lemma SummaryFields(values: seq<real>, ascending: seq<real>)
    requires values != [] && SortBy(AtMost, values) == ascending && |ascending| == |values|
    ensures var s := Summarize(values);
      s.p50 == Percentile(ascending, 0.50) && s.p95 == Percentile(ascending, 0.95)
  {
  }

  /** The p50 of a summary: the middle sample of an odd number, the mean of the two middle ones of an even number. */
  lemma SummaryMedian(values: seq<real>, ascending: seq<real>)
    requires values != [] && multiset(values) == multiset(ascending)
    requires forall i, j :: 0 <= i < j < |ascending| ==> ascending[i] <= ascending[j]
    ensures |ascending| == |values|
    ensures var n := |ascending|;
            Summarize(values).p50 == if n % 2 == 1 then ascending[n / 2] else (ascending[n / 2 - 1] + ascending[n / 2]) / 2.0
  {
    SortedIs(values, ascending);
    SummaryFields(values, ascending);
    HalfQuantileIsMedian(ascending);
  }

  /** The p95 of a summary lies 95% of the way from the first to the last sample, between two neighbours. */
  lemma SummaryP95(values: seq<real>, ascending: seq<real>)
    requires |values| > 1 && multiset(values) == multiset(ascending)
    requires forall i, j :: 0 <= i < j < |ascending| ==> ascending[i] <= ascending[j]
    ensures |ascending| == |values|
    ensures var k, rest := 19 * (|ascending| - 1) / 20, 19 * (|ascending| - 1) % 20;
      && 0 <= k < k + 1 < |ascending|
      && Summarize(values).p95 == ascending[k] + (ascending[k + 1] - ascending[k]) * (rest as real / 20.0)
  {
    SortedIs(values, ascending);
    SummaryFields(values, ascending);
    NineteenTwentieths(ascending);
  }

  /** The mean of a summary is that of the samples as they were taken: sorting them does not change their sum. */
  lemma SummaryMean(values: seq<real>)
    requires values != []
    ensures Summarize(values).mean == SumReal(values) / |values| as real
  {
    SortByMembers(AtMost, values);
    SumOfSorted(values);
  }

  lemma QuotientSign(x: real, y: real)
    requires y > 0.0
    ensures x / y >= 0.0 <==> x >= 0.0
  {
    assert (x / y) * y == x;
  }

  /** The clamp of the stability factor changes nothing exactly when the median is not negative. */
  lemma StabilityClampIsNoOpIff(values: seq<real>)
    requires Summarize(values).p95 > 0.0
    ensures var s := Summarize(values); (StabilityFactor(s) == s.p50 / s.p95 <==> s.p50 >= 0.0)
    ensures var s := Summarize(values); 0.0 <= StabilityFactor(s) <= 1.0
  {
    var s := Summarize(values);
    SummaryIsOrdered(values);
    QuotientSign(s.p50, s.p95);
    if s.p50 >= 0.0 {
      QuotientBounds(s.p50, s.p95, 0.0, 1.0);
    }
  }

  lemma Share(x: real, y: real)
    requires y > 0.0
    ensures x / y * y == x
    ensures x <= 0.0 <==> x / y <= 0.0
    ensures x <= y <==> x / y <= 1.0
  {
    var share := x / y;
    assert share * y == x;
    assert share > 1.0 ==> (share - 1.0) * y > 0.0;
    assert share <= 1.0 ==> (1.0 - share) * y >= 0.0;
    assert share > 0.0 ==> share * y > 0.0;
    assert share <= 0.0 ==> -share * y >= 0.0;
  }

  /** The stability factor is the share of p95 that the median reaches, at most 1, and 0 when either is not positive. */
  lemma StabilityIsShareOfP95(stats: Stats)
    ensures stats.p95 <= 0.0 || stats.p50 <= 0.0 ==> StabilityFactor(stats) == 0.0
    ensures 0.0 < stats.p50 <= stats.p95 ==> StabilityFactor(stats) * stats.p95 == stats.p50
    ensures 0.0 < stats.p95 < stats.p50 ==> StabilityFactor(stats) == 1.0
  {
    if stats.p95 > 0.0 {
      Share(stats.p50, stats.p95);
    }
  }

  /** Samples that are not negative have a median that is not negative. */
  lemma MedianNotNegative(values: seq<real>)
    requires values != [] && forall i :: 0 <= i < |values| ==> values[i] >= 0.0
    ensures Summarize(values).p50 >= 0.0
  {
    SummaryEnds(values);
    SummaryIsOrdered(values);
    var i :| 0 <= i < |values| && values[i] == Summarize(values).min;
  }

  /** So on such samples, with p95 > 0, the clamp is a no-op. */
  lemma StabilityClampIsNoOp(values: seq<real>)
    requires forall i :: 0 <= i < |values| ==> values[i] >= 0.0
    requires Summarize(values).p95 > 0.0
    ensures var s := Summarize(values); 0.0 <= s.p50 / s.p95 <= 1.0 && StabilityFactor(s) == s.p50 / s.p95
  {
    MedianNotNegative(values);
    StabilityClampIsNoOpIff(values);
  }
}
