/** The forecaster `trainLSTMModel`: continues a series month by month after its last
    point, with one random trend factor for the whole run plus fresh noise each month.
    With no history it falls back to a zero series from the current month. */
module Forecaster {
  import opened Calendar
  import opened HiringData

  /** `Math.random() * 3 - 1`: the trend factor, drawn once per run. */
  function TrendFactor(u: real): (t: real)
    ensures 0.0 <= u < 1.0 ==> -1.0 <= t < 2.0
  {
    u * 3.0 - 1.0
  }

  /** One forecast month: `Math.max(0, Math.floor(lastHires + trendFactor + Math.random() * 4 - 2))`. */
  function Advance(lastHires: int, factor: real, u: real): (r: int)
    ensures r >= 0
  {
    Max0((lastHires as real + factor + u * 4.0 - 2.0).Floor)
  }

  /** The forecast count `k` months after the anchor count `anchor`. */
  function Projection(anchor: int, factor: real, noise: seq<real>, k: nat): (r: int)
    requires k <= |noise|
    ensures k > 0 || anchor >= 0 ==> r >= 0
  {
    if k == 0 then anchor else Advance(Projection(anchor, factor, noise, k - 1), factor, noise[k - 1])
  }

  /** Because the previous count is an integer, a forecast month adds the integer
      `floor(trendFactor + noise)` to it before clamping at 0. With the factor in
      [-1, 2) and the noise in [-2, 2) that change lies in [-3, 3], and within 2 of
      the run's own `floor(trendFactor)`: the bias of one run is the same every month. */
  lemma AdvanceDelta(lastHires: int, factor: real, u: real)
    requires -1.0 <= factor < 2.0 && 0.0 <= u < 1.0
    ensures var delta := (factor + (u * 4.0 - 2.0)).Floor;
      -3 <= delta <= 3 && factor.Floor - 2 <= delta <= factor.Floor + 2 &&
      Advance(lastHires, factor, u) == Max0(lastHires + delta)
  {
  }

  /** Over `j - i` forecast months a non-negative count moves by at most `3 * (j - i)`. */
  lemma {:induction false} ProjectionDrift(anchor: int, factor: real, noise: seq<real>, i: nat, j: nat)
    requires anchor >= 0 && -1.0 <= factor < 2.0 && AreRandomDraws(noise)
    requires i <= j <= |noise|
    ensures Projection(anchor, factor, noise, i) - 3 * (j - i) <= Projection(anchor, factor, noise, j)
    ensures Projection(anchor, factor, noise, j) <= Projection(anchor, factor, noise, i) + 3 * (j - i)
    decreases j - i
  {
    if i < j {
      ProjectionDrift(anchor, factor, noise, i, j - 1);
      AdvanceDelta(Projection(anchor, factor, noise, j - 1), factor, noise[j - 1]);
    }
  }

  /** The first month of the forecast: the current month when there is no history,
      otherwise the first of the month after the last historical point. */
  function ForecastStart(data: seq<HiringDataPoint>, today: Date): (start: Date)
    requires 0 <= today.month0 < 12
    requires data != [] ==> 0 <= data[|data| - 1].date.month0 < 12
    ensures Valid(start) && start.day == 1
    ensures data == [] && !(0 <= today.year <= 99) ==> start == Date(today.year, today.month0, 1)
    ensures data != [] ==> MonthIndex(data[|data| - 1].date) < MonthIndex(start)
  {
    if data == [] then MonthStart(today) else NextMonthStart(data[|data| - 1].date)
  }

  /** The fallback for an empty history: a zero count for the first of every month
      from the current month of `today` while it is not after `endDate`. */
  method FallbackForecast(today: Date, endDate: Date) returns (predictions: seq<HiringDataPoint>)
    requires Valid(today)
    ensures |predictions| == |Months(MonthStart(today), endDate)|
    ensures forall i :: 0 <= i < |predictions| ==>
      predictions[i] == HiringDataPoint(Months(MonthStart(today), endDate)[i], 0)
  {
    var currentDate := MonthStart(today);
    ghost var months := Months(currentDate, endDate);
    predictions := [];
    while Le(currentDate, endDate)
      invariant Valid(currentDate) && currentDate.day == 1
      invariant |predictions| <= |months| && months[|predictions|..] == Months(currentDate, endDate)
      invariant forall i :: 0 <= i < |predictions| ==> predictions[i] == HiringDataPoint(months[i], 0)
      decreases Key(endDate) - Key(currentDate)
    {
      MonthsAdvance(months, |predictions|, currentDate, endDate);
      StepsAgreeOnFirst(currentDate);
      predictions := predictions + [HiringDataPoint(currentDate, 0)];
      currentDate := NextMonthStart(currentDate);
    }
  }

  /** The loop state of the continuation after its first `|predictions|` months. */
  ghost predicate ForecastSoFar(predictions: seq<HiringDataPoint>, hires: int, months: seq<Date>,
                                anchor: int, factor: real, noise: seq<real>)
  {
    |predictions| <= |months| && |predictions| <= |noise| &&
    hires == Projection(anchor, factor, noise, |predictions|) &&
    (forall i :: 0 <= i < |predictions| ==> predictions[i].date == months[i]) &&
    (forall i :: 0 <= i < |predictions| ==>
      predictions[i].hires == Projection(anchor, factor, noise, i + 1) && predictions[i].hires >= 0)
  }

  /** Appending the next forecast month keeps the loop state. */
  lemma ForecastOneMore(predictions: seq<HiringDataPoint>, hires: int, months: seq<Date>,
                        anchor: int, factor: real, noise: seq<real>, next: int)
    requires ForecastSoFar(predictions, hires, months, anchor, factor, noise)
    requires |predictions| < |months| && |predictions| < |noise|
    requires next == Advance(hires, factor, noise[|predictions|])
    ensures ForecastSoFar(predictions + [HiringDataPoint(months[|predictions|], next)], next, months, anchor, factor, noise)
  {
  }

  /** The continuation of a non-empty history whose last point is (`lastDate`,
      `lastHires`): from the first of the next month while not after `endDate`,
      each month's count is the projection of the previous one. */
  method ContinueForecast(lastDate: Date, lastHires: int, endDate: Date, trendDraw: real, noise: seq<real>)
    returns (predictions: seq<HiringDataPoint>)
    requires Valid(lastDate)
    requires 0.0 <= trendDraw < 1.0 && AreRandomDraws(noise)
    requires |noise| >= |Months(NextMonthStart(lastDate), endDate)|
    ensures |predictions| == |Months(NextMonthStart(lastDate), endDate)|
    ensures forall i :: 0 <= i < |predictions| ==>
      predictions[i].date == Months(NextMonthStart(lastDate), endDate)[i]
    ensures forall i :: 0 <= i < |predictions| ==>
      predictions[i].hires == Projection(lastHires, TrendFactor(trendDraw), noise, i + 1)
    ensures forall i :: 0 <= i < |predictions| ==> predictions[i].hires >= 0
  {
    var currentHires := lastHires;
    var currentDate := NextMonthStart(lastDate);
    ghost var months := Months(currentDate, endDate);
    predictions := [];
    var trendFactor := TrendFactor(trendDraw);
    while Le(currentDate, endDate)
      invariant Valid(currentDate) && currentDate.day == 1
      invariant |predictions| <= |months| && months[|predictions|..] == Months(currentDate, endDate)
      invariant ForecastSoFar(predictions, currentHires, months, lastHires, trendFactor, noise)
      decreases Key(endDate) - Key(currentDate)
    {
      MonthsAdvance(months, |predictions|, currentDate, endDate);
      StepsAgreeOnFirst(currentDate);
      ghost var previous := currentHires;
      currentHires := Advance(currentHires, trendFactor, noise[|predictions|]);
      ForecastOneMore(predictions, previous, months, lastHires, trendFactor, noise, currentHires);
      predictions := predictions + [HiringDataPoint(currentDate, currentHires)];
      currentDate := NextMonthStart(currentDate);
    }
  }

  /** `trainLSTMModel(data, endDate)` with "today", the trend-factor draw and the
      per-month noise draws supplied by the caller. */
  method TrainLSTMModel(data: seq<HiringDataPoint>, endDate: Date, today: Date, trendDraw: real, noise: seq<real>)
    returns (predictions: seq<HiringDataPoint>)
    requires Valid(today)
    requires data != [] ==> Valid(data[|data| - 1].date)
    requires 0.0 <= trendDraw < 1.0 && AreRandomDraws(noise)
    requires data != [] ==> |noise| >= |Months(ForecastStart(data, today), endDate)|
    ensures |predictions| == |Months(ForecastStart(data, today), endDate)|
    ensures forall i :: 0 <= i < |predictions| ==>
      predictions[i].date == Months(ForecastStart(data, today), endDate)[i]
    ensures data == [] ==> forall i :: 0 <= i < |predictions| ==> predictions[i].hires == 0
    ensures data != [] ==> forall i :: 0 <= i < |predictions| ==>
      predictions[i].hires == Projection(data[|data| - 1].hires, TrendFactor(trendDraw), noise, i + 1)
    ensures forall i :: 0 <= i < |predictions| ==> predictions[i].hires >= 0
  {
    if data == [] {
      predictions := FallbackForecast(today, endDate);
    } else {
      predictions := ContinueForecast(data[|data| - 1].date, data[|data| - 1].hires, endDate, trendDraw, noise);
    }
  }

  /** The forecast never includes the anchor month. For an anchor year from 100 on it
      starts with the month right after it (December rolls over to January) and has
      one point for each month up to the month of `endDate`: none when the anchor
      month is already that month or later. */
  lemma ForecastFollowsAnchor(anchor: Date, endDate: Date)
    requires Valid(anchor) && Valid(endDate)
    ensures forall i :: 0 <= i < |Months(NextMonthStart(anchor), endDate)| ==>
      MonthIndex(anchor) < MonthIndex(Months(NextMonthStart(anchor), endDate)[i])
    ensures anchor.year >= 100 ==>
      |Months(NextMonthStart(anchor), endDate)| ==
        (if MonthIndex(anchor) < MonthIndex(endDate) then MonthIndex(endDate) - MonthIndex(anchor) else 0)
    ensures anchor.year >= 100 ==> forall i :: 0 <= i < |Months(NextMonthStart(anchor), endDate)| ==>
      MonthIndex(Months(NextMonthStart(anchor), endDate)[i]) == MonthIndex(anchor) + 1 + i
  {
    var start := NextMonthStart(anchor);
    var s := Months(start, endDate);
    forall i | 0 <= i < |s|
      ensures MonthIndex(anchor) < MonthIndex(s[i])
    {
      MonthsWithinRange(start, endDate, i);
    }
    if anchor.year >= 100 {
      NextMonthStartIsNextMonth(anchor);
      MonthsCoverEveryMonth(start, endDate);
    }
  }

  /** With no history the fallback covers the first of every month from the current
      month through the month of `endDate` (for a current year from 100 on). */
  lemma FallbackCoversCurrentMonthOn(today: Date, endDate: Date)
    requires Valid(today) && today.year >= 100 && Valid(endDate)
    ensures |Months(MonthStart(today), endDate)| ==
      (if MonthIndex(today) <= MonthIndex(endDate) then MonthIndex(endDate) - MonthIndex(today) + 1 else 0)
    ensures forall i :: 0 <= i < |Months(MonthStart(today), endDate)| ==>
      Months(MonthStart(today), endDate)[i] ==
        Date(today.year + (today.month0 + i) / 12, (today.month0 + i) % 12, 1)
  {
    var s := Months(MonthStart(today), endDate);
    MonthsCoverEveryMonth(MonthStart(today), endDate);
    forall i | 0 <= i < |s|
      ensures s[i] == Date(today.year + (today.month0 + i) / 12, (today.month0 + i) % 12, 1)
    {
      MonthsWithinRange(MonthStart(today), endDate, i);
      MonthIndexDetermines(s[i], today.year + (today.month0 + i) / 12, (today.month0 + i) % 12);
    }
  }

  /** With no history, a current month of January 2025 and an end date of
      31 December 2025, the fallback has twelve points: January to December 2025. */
  lemma ExampleFallbackYear()
    ensures |Months(MonthStart(Date(2025, 0, 20)), Date(2025, 11, 31))| == 12
  {
    FallbackCoversCurrentMonthOn(Date(2025, 0, 20), Date(2025, 11, 31));
  }
}
