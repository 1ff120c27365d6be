# Predictive hiring dashboard: the series generators, modelled in Dafny

The dashboard shows a monthly series of hiring counts and extends it into the
future. Its only non-trivial logic sits in `src/App.tsx`:

- `generateMockData` (the trend simulator) starts at 50 hires and walks month by
  month from a start date to "now", adding 1..5 hires (`up`), removing 1..5 (`down`,
  clamped at 0) or moving by -1..1 (`stable`, clamped at 0), one point per month;
- `trainLSTMModel` (the forecaster) continues a series from its last point to an end
  date with one random trend factor in [-1, 2) for the whole run and fresh noise in
  [-2, 2) each month, clamped at 0; with no history it gives a zero series from the
  current month;
- the dashboard's summary figures: the total of the historical counts, their average
  (0 for an empty series) and the total of the forecast.

The project has five modules:

- `calendar.dfy`, module `Calendar`: dates as (year, zero-based month, day), the
  JavaScript `new Date(y, m, d)` constructor with its normalisation (years 0..99 read
  as 1900..1999, month 12 rolling into January of the next year, days past the end of
  a month spilling into the next, leap years), the two month steps the loops use,
  and `Months`, the dates a `while (currentDate <= endDate)` loop visits.
- `hiring_data.dfy`, module `HiringData`: the data point, the trend mode, the range
  of `Math.random()` and `Math.max(0, x)`.
- `trend_simulator.dfy`, module `TrendSimulator`: `generateMockData` as a method with
  a loop, proved against `Level`, the count after `k` months, and the lemmas that give
  each trend its shape.
- `forecaster.dfy`, module `Forecaster`: `trainLSTMModel` as a method whose two loops
  (fallback and continuation) are methods of their own, proved against `Months` and
  `Projection`, and the lemmas about the forecast's start, length and per-month change.
- `series_aggregator.dfy`, module `SeriesAggregator`: the total as the same left fold
  as `reduce`, the average as a rational number, and their identities and bounds.

Randomness, "today" and the end dates are parameters: every `Math.random()` value is
a caller-supplied real in [0, 1), so the per-month bounds (1..5, -1..1, [-3, 3]) are
derived from the `Math.floor` expressions of the source rather than assumed.

Three consequences of the code that the model makes explicit:

- The historical loop steps with `new Date(y, m + 1, d)` (`src/App.tsx:41`), keeping
  the day of month, so from a day that the next month lacks it spills over and skips
  a month: from 31 January 2023 the next point is 3 March 2023
  (`Calendar.KeepDaySkipsFebruary`). `Calendar.AddMonthKeepDayAdvance` states the
  general rule; from any day up to the 28th (and a start year from 100 on) every
  month is visited on that day (`Calendar.MonthsKeepDay`), in particular from a
  first of the month (`Calendar.MonthsCoverEveryMonth`).
- The historical points keep the start date's day of month until the first spill and
  carry the spilled day after it: from 31 January 2023 the points are 31 January,
  3 March and 3 April (`Calendar.ExampleSpilledDayCarries`). They are firsts of the
  month when the start is, or after a start on the 29th to 31st spills by exactly
  one day: from 29 January 2023 the points are 29 January, 1 March and 1 April
  (`Calendar.ExampleOneDaySpillGivesFirsts`).
- A `stable` month moves by `Math.floor(Math.random() * 3) - 1` (`src/App.tsx:36`),
  that is by at most 1 hire (`TrendSimulator.StableDrift`).

## Model

| member | source | states |
|---|---|---|
| `Calendar.Construct` | src/App.tsx:41 | `new Date(y, m, d)` always yields a valid date in month `m` of the (0..99-adjusted) year or the month after it (a day spills at most one month); a day up to 28 is kept and lands exactly in that month |
| `Calendar.DaysInMonth` | src/App.tsx:41 | the month lengths behind `new Date(y, m, d)`'s day overflow: 28 to 31 days, February having 29 exactly in leap years |
| `Calendar.MonthStart` | src/App.tsx:58 | the first of the current month is a valid first of the month, of the same month for a year outside 0..99 |
| `Calendar.AddMonthKeepDay` | src/App.tsx:41 | the historical step always yields a valid date strictly later than its input, in a strictly later month |
| `Calendar.NextMonthStart` | src/App.tsx:65 | the forecaster's step yields a first of the month in a strictly later month |
| `Calendar.StepsAgreeOnFirst` | src/App.tsx:83 | from a first of the month the day-keeping and the first-of-month steps give the same date |
| `Calendar.NextMonthStartIsNextMonth` | src/App.tsx:73 | outside years 0..99 the first-of-month step advances exactly one month, December rolling over to January of the next year |
| `Calendar.AddMonthKeepDayAdvance` | src/App.tsx:41 | outside years 0..99 the day-keeping step advances one month keeping the day when the next month has that day, otherwise two months with the overflow as the day |
| `Calendar.KeepDaySkipsFebruary` | src/App.tsx:41 | from 31 January the step lands on 3 March (2 March in a leap year): February gets no point |
| `Calendar.TwoDigitYearJump` | src/App.tsx:65 | a year argument in 0..99 is read as 19xx, so the step from December of year 99 gives January 2000 |
| `Calendar.Le` | src/App.tsx:26 | the `currentDate <= endDate` comparison of the loops (also at lines 60 and 79) is, on valid dates, the chronological (year, month, day) order |
| `Calendar.Key` | src/App.tsx:26 | the day-granularity position of a valid date lies inside its own month's slot, so the comparison orders by month before day |
| `Calendar.Months` | src/App.tsx:26-41 | the visited dates are empty exactly when the start is after the end, and begin with the start |
| `Calendar.MonthsWithinRange` | src/App.tsx:26-41 | every visited date is a valid date within [start, end] |
| `Calendar.MonthsStep` | src/App.tsx:41 | each visited date is the month step of the previous one |
| `Calendar.MonthsIncreasing` | src/App.tsx:26-41 | the visited dates are strictly increasing and so are their months: no date and no month is visited twice, ascending order |
| `Calendar.MonthsRunPastEnd` | src/App.tsx:26-41 | the loop stops only when the date is past the end: the step of the last visited date is after `end` |
| `Calendar.MonthsKeepDay` | src/App.tsx:26-41 | from a start day up to 28 (year from 100 on) the loop visits that day of every consecutive month from the start's month, as many as are not after `end` |
| `Calendar.MonthsCoverEveryMonth` | src/App.tsx:60-66 | from a first of the month the loop visits the first of every month through the end's month, consecutive months, count `max(0, months between + 1)` |
| `Calendar.ExampleSpilledDayCarries` | src/App.tsx:41 | from 31 January 2023 to 30 April 2023 the loop visits 31 January, 3 March and 3 April: the spilled day is carried on |
| `Calendar.ExampleOneDaySpillGivesFirsts` | src/App.tsx:41 | from 29 January 2023 to 30 April 2023 the loop visits 29 January, 1 March and 1 April: a one-day spill lands on a first of the month |
| `TrendSimulator.RandomBelow` | src/App.tsx:31 | `Math.floor(Math.random() * n)` lies in [0, n) |
| `TrendSimulator.Step` | src/App.tsx:29-38 | one month's update: `up` adds 1..5; `down` removes 1..5 or reaches 0; `stable` moves by at most 1 or reaches 0; `down`/`stable` never negative |
| `TrendSimulator.SimulateTrend` | src/App.tsx:29-38 | the imperative trend block computes `Step`, and from a non-negative count stays non-negative and within 5 |
| `TrendSimulator.Level` | src/App.tsx:23-38 | the count after any number of months of any run with draws in [0, 1) is non-negative |
| `TrendSimulator.UpGrowth` | src/App.tsx:30-31 | under `up` the count grows by 1..5 a month, so by `j - i`..`5 (j - i)` over `j - i` months; the first point lies in [51, 55] |
| `TrendSimulator.DownStep` | src/App.tsx:32-34 | under `down` each count is the previous less 1..5, or 0 |
| `TrendSimulator.DownDecline` | src/App.tsx:32-34 | under `down` the series never increases and after `j` months is at most `max(0, 50 - j)` |
| `TrendSimulator.StableDrift` | src/App.tsx:35-37 | under `stable` consecutive counts differ by at most 1, and by at most `j - i` over `j - i` months |
| `TrendSimulator.GenerateMockData` | src/App.tsx:21-44 | one point per visited month, in order, with dates `Months(start, end)` (empty when start is after end) and counts `Level(trend, draws, i + 1)`, all non-negative |
| `TrendSimulator.ExampleFirstQuarter` | src/App.tsx:26-41 | from 1 January 2023 to 1 March 2023 the generator visits exactly the firsts of January, February and March 2023 |
| `Forecaster.TrendFactor` | src/App.tsx:77 | the trend factor lies in [-1, 2) |
| `Forecaster.Advance` | src/App.tsx:81 | a forecast count is never negative |
| `Forecaster.Projection` | src/App.tsx:79-84 | every forecast count after the anchor is non-negative |
| `Forecaster.AdvanceDelta` | src/App.tsx:77-81 | a forecast month is `max(0, previous + delta)` with `delta = floor(trendFactor + noise)` in [-3, 3] and within 2 of `floor(trendFactor)`, the same factor every month |
| `Forecaster.ProjectionDrift` | src/App.tsx:79-84 | over `j - i` forecast months a non-negative count moves by at most `3 (j - i)` |
| `Forecaster.ForecastStart` | src/App.tsx:56-73 | the forecast starts on a first of the month: without history the first of the current month (exactly that date for a year outside 0..99), else a month strictly after the last historical month |
| `Forecaster.FallbackForecast` | src/App.tsx:56-67 | without history: one zero point for the first of each month from the current month while not after the end date |
| `Forecaster.ContinueForecast` | src/App.tsx:70-85 | with history: one point per month from the month after the anchor while not after the end date, counts `Projection(lastHires, trendFactor, noise, i + 1)`, all non-negative |
| `Forecaster.TrainLSTMModel` | src/App.tsx:47-86 | dates `Months(ForecastStart(..), end)`; counts all 0 without history, the projection of the last count otherwise; never negative |
| `Forecaster.ForecastFollowsAnchor` | src/App.tsx:70-79 | the forecast never contains the anchor month; for an anchor year from 100 on it starts at the next month, is consecutive, and is empty when the anchor month is at or past the end's month |
| `Forecaster.FallbackCoversCurrentMonthOn` | src/App.tsx:57-66 | without history the forecast is exactly the first of every month from the current month through the end's month |
| `Forecaster.ExampleFallbackYear` | src/App.tsx:57-66 | with no history in January 2025 and an end date of 31 December 2025 the fallback has twelve points |
| `SeriesAggregator.TotalAppend` | src/App.tsx:120 | the total of two consecutive pieces is the sum of their totals |
| `SeriesAggregator.TotalFromFront` | src/App.tsx:120 | the left-fold total equals the sum taken from the front: first count plus the rest's total |
| `SeriesAggregator.TotalBounds` | src/App.tsx:120 | with every count in [lo, hi] the total lies in [lo n, hi n] |
| `SeriesAggregator.TotalHires` | src/App.tsx:120 | the `reduce` total of a series of non-negative counts (historical, or the forecast at line 317) is non-negative |
| `SeriesAggregator.TotalAtLeastEach` | src/App.tsx:120 | in a series of non-negative counts the total is at least each count |
| `SeriesAggregator.TotalOfZeros` | src/App.tsx:317 | the predicted total of the zero fallback is 0 |
| `SeriesAggregator.AverageHires` | src/App.tsx:121 | the average is 0 for an empty series and otherwise the number that times the count gives the total |
| `SeriesAggregator.AverageWithinBounds` | src/App.tsx:121 | the average of a non-empty series lies between its smallest and largest count |
| `HiringData.Max0` | src/App.tsx:81 | `Math.max(0, x)` is non-negative, at least `x`, and either 0 or `x` |

## Left out

- The React component: state hooks, the `useCallback`/`useEffect` wiring, the
  1.5 s `setTimeout` before forecasting, the chart data merging and year filtering,
  the Recharts configuration and all JSX (src/App.tsx:89-331). These are UI state,
  timer scheduling and presentation.
- The caller's end dates: `new Date()` for the history and
  `new Date(predictionYear, 11, 31)` for the forecast (src/App.tsx:102-104) are
  parameters of the generators.
- `Math.random()` and `new Date()` ("today"): the draws and the current date are
  parameters. Floating-point rounding in `Math.random() * n` and in the forecast sum
  is not modelled; the arithmetic is exact over reals.
- Statistical claims about the trends (expected drift, variance): the model proves
  the deterministic bounds each run satisfies for any draws in [0, 1) instead.
- `toISOString().split('T')[0]` (src/App.tsx:27) and `new Date(string)`
  (src/App.tsx:70): points carry the calendar date itself, not its ISO string, so the
  time-zone shifts between local dates and UTC strings are not modelled (the model is
  the app running at UTC offset 0).
- Time of day: dates are compared at day granularity, which matches the source when
  the start date is at midnight (as the date picker and the default give it).
- JavaScript's limits on a `Date`'s range (about 275,000 years either way) and
  invalid dates; integer counts are unbounded.
- The default argument `trend = 'stable'` of `generateMockData` (src/App.tsx:21):
  `TrendSimulator.GenerateMockData` always takes a trend, as the only caller
  (src/App.tsx:104) passes one.
- `!data` (a `null` or `undefined` history): a Dafny sequence cannot be null, so only
  the empty history is modelled.
- `toFixed(1)`: the average is the exact rational total / count, not its one-decimal
  string, and `"0"` is the number 0.
- Calendar.MonthsKeepDay: stated for start days up to 28, since from a later day a
  spill shifts the day (`Calendar.AddMonthKeepDayAdvance`,
  `Calendar.ExampleSpilledDayCarries`), and for start years from 100 on, for the
  reason given next.
- Calendar.MonthsCoverEveryMonth: stated for start years from 100 on, because the
  `Date` constructor reads a year argument 0..99 as 1900..1999 and the step from
  such a year jumps ahead (`Calendar.TwoDigitYearJump`).
- Forecaster.ForecastFollowsAnchor: the exact start month and length are stated for
  anchor years from 100 on, for the same reason; that no forecast month is the anchor
  month or earlier holds for every year.
- Forecaster.ForecastFollowsAnchor: holds only at UTC offset 0. West of UTC,
  `new Date(data[last].date)` (src/App.tsx:70) reads the ISO label as UTC midnight,
  which is the previous local day, so for a last point on the first of a month
  `getMonth()` (src/App.tsx:73) gives the month before and the forecast starts in the
  anchor month itself; east of UTC the label written at src/App.tsx:27 is already a
  day early, with the same effect. Time zones are not modelled.
- Forecaster.FallbackCoversCurrentMonthOn: stated for current years from 100 on, for
  the same reason.
