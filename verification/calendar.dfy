/** Calendar arithmetic of the month steppers: the part of JavaScript's local-time
    `Date` that the generators use. A date is the triple of fields that
    `getFullYear()`, `getMonth()` and `getDate()` return. */
module Calendar {

  /** A calendar date: full year, zero-based month (0 is January) and day of the month. */
  datatype Date = Date(year: int, month0: int, day: int)

  /** Gregorian leap years, as JavaScript's proleptic calendar has them. */
  predicate IsLeapYear(y: int) {
    (y % 4 == 0 && y % 100 != 0) || y % 400 == 0
  }

  /** Number of days in month `m` (zero-based) of year `y`. */
  function DaysInMonth(y: int, m: int): (n: int)
    requires 0 <= m < 12
    ensures 28 <= n <= 31
    ensures m == 1 ==> (n == 29 <==> IsLeapYear(y))
  {
    if m == 1 then (if IsLeapYear(y) then 29 else 28)
    else if m == 3 || m == 5 || m == 8 || m == 10 then 30
    else 31
  }

  /** A date that a JavaScript `Date` can denote. */
  predicate Valid(d: Date) {
    0 <= d.month0 < 12 && 1 <= d.day <= DaysInMonth(d.year, d.month0)
  }

  /** Months elapsed since January of year 0: consecutive months have consecutive indices. */
  function MonthIndex(d: Date): int {
    d.year * 12 + d.month0
  }

  /** A month index determines the year and the month. */
  lemma MonthIndexDetermines(d: Date, year: int, month0: int)
    requires 0 <= d.month0 < 12 && 0 <= month0 < 12 && MonthIndex(d) == year * 12 + month0
    ensures d.year == year && d.month0 == month0
  {
  }

  /** Position of a date on the time line at day granularity: each month of a valid
      date owns its own slot of 32 keys, so keys order by month before day. */
  function Key(d: Date): (k: int)
    ensures Valid(d) ==> MonthIndex(d) * 32 < k < (MonthIndex(d) + 1) * 32
  {
    MonthIndex(d) * 32 + d.day
  }

  /** `a <= b` on dates (both at midnight): on valid dates the chronological
      (year, month, day) order. */
  predicate Le(a: Date, b: Date)
    ensures Valid(a) && Valid(b) ==> (Le(a, b) <==>
      a.year < b.year ||
      (a.year == b.year && (a.month0 < b.month0 || (a.month0 == b.month0 && a.day <= b.day))))
  {
    Key(a) <= Key(b)
  }

  /** `new Date(y, m, d)` for a month argument in 0..12 and a day argument in 1..31:
      a year argument in 0..99 denotes 1900..1999, month 12 is January of the next
      year, and a day past the end of the month spills into the following month. */
  function Construct(y: int, m: int, d: int): (r: Date)
    requires 0 <= m <= 12 && 1 <= d <= 31
    ensures Valid(r)
    ensures MonthIndex(r) >= (if 0 <= y <= 99 then 1900 + y else y) * 12 + m
    ensures MonthIndex(r) <= (if 0 <= y <= 99 then 1900 + y else y) * 12 + m + 1
    ensures d <= 28 ==> r.day == d && MonthIndex(r) == (if 0 <= y <= 99 then 1900 + y else y) * 12 + m
  {
    var fullYear := if 0 <= y <= 99 then 1900 + y else y;
    var year := if m == 12 then fullYear + 1 else fullYear;
    var month := if m == 12 then 0 else m;
    var length := DaysInMonth(year, month);
    if d <= length then Date(year, month, d)
    else if month == 11 then Date(year + 1, 0, d - length)
    else Date(year, month + 1, d - length)
  }

  /** First day of the month of `d`: `new Date(d.getFullYear(), d.getMonth(), 1)`. */
  function MonthStart(d: Date): (r: Date)
    requires 0 <= d.month0 < 12
    ensures Valid(r) && r.day == 1
    ensures !(0 <= d.year <= 99) ==> r == Date(d.year, d.month0, 1)
  {
    Construct(d.year, d.month0, 1)
  }

  /** The historical generator's step: the same day of the next month,
      `new Date(d.getFullYear(), d.getMonth() + 1, d.getDate())`. */
  function AddMonthKeepDay(d: Date): (r: Date)
    requires Valid(d)
    ensures Valid(r) && Key(d) < Key(r) && MonthIndex(d) < MonthIndex(r)
  {
    Construct(d.year, d.month0 + 1, d.day)
  }

  /** The forecaster's step: the first of the next month,
      `new Date(d.getFullYear(), d.getMonth() + 1, 1)`. */
  function NextMonthStart(d: Date): (r: Date)
    requires 0 <= d.month0 < 12
    ensures Valid(r) && r.day == 1 && MonthIndex(d) < MonthIndex(r)
  {
    Construct(d.year, d.month0 + 1, 1)
  }

  /** From a first of the month both steps agree. */
  lemma StepsAgreeOnFirst(d: Date)
    requires Valid(d) && d.day == 1
    ensures AddMonthKeepDay(d) == NextMonthStart(d)
  {
  }

  /** Outside years 0..99, the first-of-month step is exactly one month,
      rolling December over into January of the next year. */
  lemma NextMonthStartIsNextMonth(d: Date)
    requires 0 <= d.month0 < 12 && !(0 <= d.year <= 99)
    ensures MonthIndex(NextMonthStart(d)) == MonthIndex(d) + 1
    ensures NextMonthStart(d) ==
      if d.month0 == 11 then Date(d.year + 1, 0, 1) else Date(d.year, d.month0 + 1, 1)
  {
  }

  /** Outside years 0..99, the day-keeping step advances one month when the
      day exists in the next month; otherwise it spills over into the month after. */
  lemma AddMonthKeepDayAdvance(d: Date)
    requires Valid(d) && !(0 <= d.year <= 99)
    ensures var next := NextMonthStart(d);
      var r := AddMonthKeepDay(d);
      if d.day <= DaysInMonth(next.year, next.month0) then
        r.day == d.day && MonthIndex(r) == MonthIndex(d) + 1
      else
        r.day == d.day - DaysInMonth(next.year, next.month0) && MonthIndex(r) == MonthIndex(d) + 2
  {
  }

  /** Day-keeping from the 31st of January lands on the 3rd of March: February is skipped. */
  lemma KeepDaySkipsFebruary()
    ensures AddMonthKeepDay(Date(2023, 0, 31)) == Date(2023, 2, 3)
    ensures AddMonthKeepDay(Date(2024, 0, 31)) == Date(2024, 2, 2)
  {
  }

  /** A year argument 0..99 is read as 1900..1999, so the step from year 99 jumps ahead. */
  lemma TwoDigitYearJump()
    ensures NextMonthStart(Date(99, 11, 1)) == Date(2000, 0, 1)
  {
  }

  /** The dates a month-stepping loop `while (currentDate <= endDate)` visits from `start`. */
  function Months(start: Date, end: Date): (s: seq<Date>)
    requires Valid(start)
    ensures |s| > 0 <==> Le(start, end)
    ensures |s| > 0 ==> s[0] == start
    decreases Key(end) - Key(start)
  {
    if Le(start, end) then [start] + Months(AddMonthKeepDay(start), end) else []
  }

  /** One turn of the loop: when `current` is not after `end` and the dates still to
      visit from `current` are the suffix of `months` from `k`, then `current` is the
      `k`-th date and the step of `current` starts the suffix from `k + 1`. */
  lemma MonthsAdvance(months: seq<Date>, k: nat, current: Date, end: Date)
    requires Valid(current) && Le(current, end)
    requires k <= |months| && months[k..] == Months(current, end)
    ensures k < |months| && months[k] == current
    ensures months[k + 1..] == Months(AddMonthKeepDay(current), end)
  {
  }

  /** Every visited date is a valid date within [start, end]. */
  lemma {:induction false} MonthsWithinRange(start: Date, end: Date, i: nat)
    requires Valid(start) && i < |Months(start, end)|
    ensures Valid(Months(start, end)[i])
    ensures Le(start, Months(start, end)[i]) && Le(Months(start, end)[i], end)
    decreases i
  {
    if i > 0 {
      MonthsWithinRange(AddMonthKeepDay(start), end, i - 1);
    }
  }

  /** Each visited date is the step of the one before it. */
  lemma {:induction false} MonthsStep(start: Date, end: Date, i: nat)
    requires Valid(start) && i + 1 < |Months(start, end)|
    ensures Valid(Months(start, end)[i]) && Months(start, end)[i + 1] == AddMonthKeepDay(Months(start, end)[i])
    decreases i
  {
    MonthsWithinRange(start, end, i);
    if i > 0 {
      MonthsStep(AddMonthKeepDay(start), end, i - 1);
    }
  }

  /** The visited dates are strictly increasing, and so are their months: no date and
      no month is visited twice. */
  lemma {:induction false} MonthsIncreasing(start: Date, end: Date, i: nat, j: nat)
    requires Valid(start) && i < j < |Months(start, end)|
    ensures Key(Months(start, end)[i]) < Key(Months(start, end)[j])
    ensures MonthIndex(Months(start, end)[i]) < MonthIndex(Months(start, end)[j])
    decreases j - i
  {
    MonthsStep(start, end, j - 1);
    if i < j - 1 {
      MonthsIncreasing(start, end, i, j - 1);
    }
  }

  /** The loop stops only once the date is past the end: the step of the last visited
      date is after `end`. */
  lemma {:induction false} MonthsRunPastEnd(start: Date, end: Date)
    requires Valid(start) && Le(start, end)
    ensures var s := Months(start, end);
      Valid(s[|s| - 1]) && !Le(AddMonthKeepDay(s[|s| - 1]), end)
    decreases Key(end) - Key(start)
  {
    var s := Months(start, end);
    var next := AddMonthKeepDay(start);
    MonthsWithinRange(start, end, |s| - 1);
    if Le(next, end) {
      MonthsRunPastEnd(next, end);
      assert s[|s| - 1] == Months(next, end)[|Months(next, end)| - 1];
    }
  }

  /** From a day up to the 28th (and a year from 100 on) no step spills: the loop
      visits the same day of every month from the start's month on, consecutive
      months, for as long as that day of the month is not after `end`. */
  lemma {:induction false} MonthsKeepDay(start: Date, end: Date)
    requires Valid(start) && start.day <= 28 && start.year >= 100 && Valid(end)
    ensures var c := MonthIndex(end) - MonthIndex(start) + (if start.day <= end.day then 1 else 0);
      |Months(start, end)| == if c > 0 then c else 0
    ensures forall i :: 0 <= i < |Months(start, end)| ==>
      Months(start, end)[i].day == start.day && MonthIndex(Months(start, end)[i]) == MonthIndex(start) + i
    decreases MonthIndex(end) - MonthIndex(start)
  {
    if Le(start, end) {
      var next := AddMonthKeepDay(start);
      assert next.day == start.day && MonthIndex(next) == MonthIndex(start) + 1;
      MonthsKeepDay(next, end);
      var s := Months(start, end);
      assert s == [start] + Months(next, end);
      forall i | 0 <= i < |s|
        ensures s[i].day == start.day && MonthIndex(s[i]) == MonthIndex(start) + i
      {
        if i > 0 {
          assert s[i] == Months(next, end)[i - 1];
        }
      }
    }
  }

  /** From a first of the month (and a year from 100 on), the loop visits the first of
      every month from that month through the month of `end`, in order, with no gap. */
  lemma MonthsCoverEveryMonth(start: Date, end: Date)
    requires Valid(start) && start.day == 1 && start.year >= 100 && Valid(end)
    ensures |Months(start, end)| ==
      if MonthIndex(start) <= MonthIndex(end) then MonthIndex(end) - MonthIndex(start) + 1 else 0
    ensures forall i :: 0 <= i < |Months(start, end)| ==>
      Months(start, end)[i].day == 1 && MonthIndex(Months(start, end)[i]) == MonthIndex(start) + i
  {
    MonthsKeepDay(start, end);
  }

  /** From a day that February lacks the loop keeps the day for January only and then
      carries the spilled day: 31 January, 3 March, 3 April. */
  lemma ExampleSpilledDayCarries()
    ensures Months(Date(2023, 0, 31), Date(2023, 3, 30)) ==
      [Date(2023, 0, 31), Date(2023, 2, 3), Date(2023, 3, 3)]
  {
  }

  /** A spill of exactly one day lands on a first of the month: from 29 January 2023
      the loop visits 29 January, then 1 March and 1 April. */
  lemma ExampleOneDaySpillGivesFirsts()
    ensures Months(Date(2023, 0, 29), Date(2023, 3, 30)) ==
      [Date(2023, 0, 29), Date(2023, 2, 1), Date(2023, 3, 1)]
  {
  }
}
