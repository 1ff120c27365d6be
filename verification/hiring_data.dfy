/** The values the generators exchange: one month's hiring count, and the trend mode. */
module HiringData {
  import opened Calendar

  /** One point of a monthly series. The source keeps the date as its ISO `YYYY-MM-DD`
      string; here it is the calendar date itself. */
  datatype HiringDataPoint = HiringDataPoint(date: Date, hires: int)

  /** The qualitative trend of the historical generator. */
  datatype Trend = Up | Down | Stable

  /** Values that `Math.random()` can return: reals in [0, 1). */
  predicate AreRandomDraws(us: seq<real>) {
    forall i :: 0 <= i < |us| ==> 0.0 <= us[i] < 1.0
  }

  /** The larger of zero and `x`: `Math.max(0, x)` on integers. */
  function Max0(x: int): (r: int)
    ensures r >= 0 && r >= x && (r == 0 || r == x)
  {
    if x < 0 then 0 else x
  }
}
