/** The historical generator `generateMockData`: a monthly series that starts from a
    baseline of 50 hires and moves each month by a random amount in the direction
    of the chosen trend. */
module TrendSimulator {
  import opened Calendar
  import opened HiringData

  /** Hires before the first month of a run. */
  const Baseline: int := 50

  /** A draw from [0, 1) scaled by `n` lies in [0, n). */
  lemma ScaledDraw(u: real, n: nat)
    ensures 0.0 <= u < 1.0 ==> 0.0 <= u * n as real <= n as real
    ensures 0.0 <= u < 1.0 && n > 0 ==> u * n as real < n as real
  {
  }

  /** `Math.floor(u * n)`: a uniform integer in [0, n) drawn from `u = Math.random()`. */
  function RandomBelow(u: real, n: nat): (k: int)
    ensures 0.0 <= u < 1.0 && n > 0 ==> 0 <= k < n
  {
    ScaledDraw(u, n);
    (u * n as real).Floor
  }

  /** One month's update of the hire count under `trend` with draw `u`. */
  function Step(trend: Trend, hires: int, u: real): (r: int)
    ensures 0.0 <= u < 1.0 && trend == Up ==> hires + 1 <= r <= hires + 5
    ensures 0.0 <= u < 1.0 && trend == Down ==>
      r >= 0 && r >= hires - 5 && (r == 0 || r <= hires - 1)
    ensures 0.0 <= u < 1.0 && trend == Stable ==>
      r >= 0 && r >= hires - 1 && (r == 0 || r <= hires + 1)
  {
    match trend
    case Up => hires + (RandomBelow(u, 5) + 1)
    case Down => Max0(hires - (RandomBelow(u, 5) + 1))
    case Stable => Max0(hires + RandomBelow(u, 3) - 1)
  }

  /** The hire count after the first `k` months of a run. For draws in [0, 1) it is
      never negative: `up` only grows from 50, `down` and `stable` are clamped at 0. */
  function Level(trend: Trend, draws: seq<real>, k: nat): (r: int)
    requires k <= |draws|
    ensures AreRandomDraws(draws) ==> r >= 0
  {
    if k == 0 then Baseline else Step(trend, Level(trend, draws, k - 1), draws[k - 1])
  }

  /** Under `up`, each month adds between 1 and 5 hires, so over `j - i` months the
      count grows by at least `j - i` and at most `5 * (j - i)`. The first emitted
      value lies in [51, 55]. */
  lemma {:induction false} UpGrowth(draws: seq<real>, i: nat, j: nat)
    requires AreRandomDraws(draws) && i <= j <= |draws|
    ensures Level(Up, draws, i) + (j - i) <= Level(Up, draws, j) <= Level(Up, draws, i) + 5 * (j - i)
    ensures j >= 1 ==> 51 <= Level(Up, draws, 1) <= 55
    decreases j - i
  {
    if i < j {
      UpGrowth(draws, i, j - 1);
    }
  }

  /** Under `down`, each month's count is the previous one less 1..5, clamped at 0. */
  lemma DownStep(draws: seq<real>, k: nat)
    requires AreRandomDraws(draws) && k < |draws|
    ensures var d := Level(Down, draws, k) - Level(Down, draws, k + 1);
      Level(Down, draws, k + 1) == 0 || 1 <= d <= 5
    ensures Level(Down, draws, k + 1) >= Level(Down, draws, k) - 5
  {
  }

  /** Under `down` the series never increases, and after `j` months it is at most
      `max(0, 50 - j)`: a long enough run reaches 0 and stays there. */
  lemma {:induction false} DownDecline(draws: seq<real>, i: nat, j: nat)
    requires AreRandomDraws(draws) && i <= j <= |draws|
    ensures Level(Down, draws, j) <= Level(Down, draws, i)
    ensures Level(Down, draws, j) <= Max0(Baseline - j)
    decreases j
  {
    if j > 0 {
      if i < j {
        DownDecline(draws, i, j - 1);
      } else {
        DownDecline(draws, 0, j - 1);
      }
    }
  }

  /** Under `stable`, consecutive counts differ by at most 1, so after `j - i` months
      the count has moved by at most `j - i`. */
  lemma {:induction false} StableDrift(draws: seq<real>, i: nat, j: nat)
    requires AreRandomDraws(draws) && i <= j <= |draws|
    ensures Level(Stable, draws, i) - (j - i) <= Level(Stable, draws, j) <= Level(Stable, draws, i) + (j - i)
    decreases j - i
  {
    if i < j {
      StableDrift(draws, i, j - 1);
    }
  }

  /** The "simulate trend" block of one month: `Math.floor(Math.random() * 5) + 1` hires
      more (`up`) or fewer (`down`, clamped at 0), or `Math.floor(Math.random() * 3) - 1`
      more (`stable`, clamped at 0). */
  method SimulateTrend(trend: Trend, hires: int, u: real) returns (next: int)
    ensures next == Step(trend, hires, u)
    ensures 0.0 <= u < 1.0 && hires >= 0 ==> next >= 0 && hires - 5 <= next <= hires + 5
  {
    next := hires;
    if trend == Up {
      next := next + (RandomBelow(u, 5) + 1);
    } else if trend == Down {
      next := next - (RandomBelow(u, 5) + 1);
      if next < 0 {
        next := 0;
      }
    } else {
      next := next + RandomBelow(u, 3) - 1;
      if next < 0 {
        next := 0;
      }
    }
  }

  /** The loop state of `generateMockData` after its first `|data|` months: `data`
      holds the points of those months and `hires` the last count. */
  ghost predicate GeneratedSoFar(data: seq<HiringDataPoint>, hires: int, months: seq<Date>, trend: Trend, draws: seq<real>)
  {
    |data| <= |months| && |data| <= |draws| &&
    hires == Level(trend, draws, |data|) && hires >= 0 &&
    (forall i :: 0 <= i < |data| ==> data[i].date == months[i]) &&
    (forall i :: 0 <= i < |data| ==> data[i].hires == Level(trend, draws, i + 1) && data[i].hires >= 0)
  }

  /** Appending the point of the next month keeps the loop state. */
  lemma GeneratedOneMore(data: seq<HiringDataPoint>, hires: int, months: seq<Date>, trend: Trend, draws: seq<real>, next: int)
    requires GeneratedSoFar(data, hires, months, trend, draws)
    requires AreRandomDraws(draws) && |data| < |months| && |data| < |draws|
    requires next == Step(trend, hires, draws[|data|])
    ensures GeneratedSoFar(data + [HiringDataPoint(months[|data|], next)], next, months, trend, draws)
  {
  }

  /** `generateMockData(startDate, endDate, trend)` with the run's `Math.random()` draws
      supplied in `draws`: one point per visited month, carrying the running count. */
  method GenerateMockData(startDate: Date, endDate: Date, trend: Trend, draws: seq<real>)
    returns (data: seq<HiringDataPoint>)
    requires Valid(startDate)
    requires AreRandomDraws(draws) && |draws| >= |Months(startDate, endDate)|
    ensures |data| == |Months(startDate, endDate)|
    ensures forall i :: 0 <= i < |data| ==>
      data[i] == HiringDataPoint(Months(startDate, endDate)[i], Level(trend, draws, i + 1))
    ensures forall i :: 0 <= i < |data| ==> data[i].hires >= 0
  {
    ghost var months := Months(startDate, endDate);
    data := [];
    var currentHires := Baseline;
    var currentDate := startDate;
    while Le(currentDate, endDate)
      invariant Valid(currentDate)
      invariant |data| <= |months| && months[|data|..] == Months(currentDate, endDate)
      invariant GeneratedSoFar(data, currentHires, months, trend, draws)
      decreases Key(endDate) - Key(currentDate)
    {
      var k := |data|;
      MonthsAdvance(months, k, currentDate, endDate);
      ghost var previous := currentHires;
      currentHires := SimulateTrend(trend, currentHires, draws[k]);
      GeneratedOneMore(data, previous, months, trend, draws, currentHires);
      data := data + [HiringDataPoint(currentDate, currentHires)];
      currentDate := AddMonthKeepDay(currentDate);
    }
  }

  /** The first example run: from 1 January 2023 to 1 March 2023 the generator
      visits exactly the firsts of January, February and March 2023. */
  lemma ExampleFirstQuarter()
    ensures Months(Date(2023, 0, 1), Date(2023, 2, 1)) ==
      [Date(2023, 0, 1), Date(2023, 1, 1), Date(2023, 2, 1)]
  {
  }
}
