/** The summary figures over a series: the total (`reduce` with `+` from 0) and
    the average count per month, which is 0 for an empty series. */
module SeriesAggregator {
  import opened HiringData

  /** Every count of the series is non-negative, as in every generated or forecast series. */
  predicate NonNegativeCounts(series: seq<HiringDataPoint>) {
    forall i :: 0 <= i < |series| ==> series[i].hires >= 0
  }

  /** `series.reduce((sum, p) => sum + p.hires, 0)`: a left fold over the series. A
      series of non-negative counts (every generated or forecast series) has a
      non-negative total. */
  function TotalHires(series: seq<HiringDataPoint>): (r: int)
    ensures NonNegativeCounts(series) ==> r >= 0
  {
    if series == [] then 0 else TotalHires(series[..|series| - 1]) + series[|series| - 1].hires
  }

  /** The total of two consecutive pieces is the sum of their totals. */
  lemma {:induction false} TotalAppend(a: seq<HiringDataPoint>, b: seq<HiringDataPoint>)
    ensures TotalHires(a + b) == TotalHires(a) + TotalHires(b)
    decreases |b|
  {
    if b != [] {
      var front := b[..|b| - 1];
      assert (a + b)[..|a + b| - 1] == a + front;
      assert (a + b)[|a + b| - 1] == b[|b| - 1];
      TotalAppend(a, front);
    } else {
      assert a + b == a;
    }
  }

  /** The total is the sum of every point's count, taken from the front as well. */
  lemma TotalFromFront(p: HiringDataPoint, rest: seq<HiringDataPoint>)
    ensures TotalHires([p] + rest) == p.hires + TotalHires(rest)
  {
    TotalAppend([p], rest);
    assert TotalHires([p]) == TotalHires([]) + p.hires by {
      assert [p][..0] == [];
    }
  }

  /** When every count lies in [lo, hi], the total lies in [lo * n, hi * n]. */
  lemma {:induction false} TotalBounds(series: seq<HiringDataPoint>, lo: int, hi: int)
    requires forall i :: 0 <= i < |series| ==> lo <= series[i].hires <= hi
    ensures lo * |series| <= TotalHires(series) <= hi * |series|
    decreases |series|
  {
    if series != [] {
      var front := series[..|series| - 1];
      TotalBounds(front, lo, hi);
      assert lo * |series| == lo * |front| + lo;
      assert hi * |series| == hi * |front| + hi;
    }
  }

  /** In a series of non-negative counts, the total is at least any one count. */
  lemma TotalAtLeastEach(series: seq<HiringDataPoint>, k: nat)
    requires NonNegativeCounts(series)
    requires k < |series|
    ensures series[k].hires <= TotalHires(series)
  {
  }

  /** A series whose counts are all 0 (the forecaster's fallback) has total 0. */
  lemma TotalOfZeros(series: seq<HiringDataPoint>)
    requires forall i :: 0 <= i < |series| ==> series[i].hires == 0
    ensures TotalHires(series) == 0
  {
  }

  /** `averageHires` as a number: total / count, and 0 for an empty series. */
  function AverageHires(series: seq<HiringDataPoint>): (r: real)
    ensures |series| == 0 ==> r == 0.0
    ensures |series| > 0 ==> r * |series| as real == TotalHires(series) as real
  {
    if |series| > 0 then TotalHires(series) as real / |series| as real else 0.0
  }

  /** The average of a non-empty series lies between its smallest and largest count. */
  lemma AverageWithinBounds(series: seq<HiringDataPoint>, lo: int, hi: int)
    requires |series| > 0
    requires forall i :: 0 <= i < |series| ==> lo <= series[i].hires <= hi
    ensures lo as real <= AverageHires(series) <= hi as real
  {
    TotalBounds(series, lo, hi);
    AverageOfBoundedTotal(lo, hi, TotalHires(series), |series|, AverageHires(series));
  }

  /** A total between `lo * n` and `hi * n` over `n > 0` points averages between `lo` and `hi`. */
  lemma AverageOfBoundedTotal(lo: int, hi: int, total: int, n: int, avg: real)
    requires n > 0 && lo * n <= total <= hi * n && avg * n as real == total as real
    ensures lo as real <= avg <= hi as real
  {
  }
}
