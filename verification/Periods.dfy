/**
 The calendar rules of a retention policy: packages/backup/src/rotation/periods.ts.

 A time is a whole number of milliseconds since 1970-01-01T00:00Z, a day a whole number of days since
 then, in the proleptic Gregorian calendar a JavaScript date counts in.
 */
module Periods {
  // A label is kept as its numbers: the text writes them out with separators, so two texts agree
  // exactly when they do.

  const HOUR := 3_600_000
  const DAY := 86_400_000

  datatype Rule = Hourly | Daily | Weekly | Monthly | Yearly

  datatype Label =
    | HourLabel(year: int, month: int, date: int, hour: int)
    | DayLabel(year: int, month: int, date: int)
    | WeekLabel(year: int, week: int)
    | MonthLabel(year: int, month: int)
    | YearLabel(year: int)

  // ----- dates

  predicate IsLeap(year: int) {
    year % 4 == 0 && (year % 100 != 0 || year % 400 == 0)
  }

  function YearDays(year: int): (n: int)
    ensures n == 365 || n == 366
  {
    if IsLeap(year) then 366 else 365
  }

  /** The first of January: `Date.UTC(year, 0, 1)`, for a year that is not read as 1900 and some. */
  function YearStart(year: int): int
    decreases if year < 1970 then 1970 - year else year - 1970
  {
    if year == 1970 then 0
    else if year > 1970 then YearStart(year - 1) + YearDays(year - 1)
    else YearStart(year + 1) - YearDays(year)
  }

  lemma YearLength(year: int)
    ensures YearStart(year + 1) == YearStart(year) + YearDays(year)
  {
  }

  function YearUp(day: int, year: int): (y: int)
    requires YearStart(year) <= day
    ensures YearStart(y) <= day < YearStart(y + 1)
    decreases day - YearStart(year)
  {
    YearLength(year);
    if day < YearStart(year + 1) then year else YearUp(day, year + 1)
  }

  function YearDown(day: int, year: int): (y: int)
    requires day < YearStart(year)
    ensures YearStart(y) <= day < YearStart(y + 1)
    decreases YearStart(year) - day
  {
    YearLength(year - 1);
    if YearStart(year - 1) <= day then year - 1 else YearDown(day, year - 1)
  }

  /** `getUTCFullYear`. */
  function YearOf(day: int): (y: int)
    ensures YearStart(y) <= day < YearStart(y + 1)
  {
    if day < YearStart(1970) then YearDown(day, 1970) else YearUp(day, 1970)
  }

  lemma {:induction false} YearStartsGrow(a: int, b: int)
    requires a <= b
    ensures YearStart(b) - YearStart(a) >= 365 * (b - a)
    decreases b - a
  {
    if a < b {
      YearLength(b - 1);
      YearStartsGrow(a, b - 1);
    }
  }

  /** There is one year a day is in. */
  lemma YearIs(day: int, year: int)
    requires YearStart(year) <= day < YearStart(year + 1)
    ensures YearOf(day) == year
  {
    if YearOf(day) < year {
      YearStartsGrow(YearOf(day) + 1, year);
    } else if YearOf(day) > year {
      YearStartsGrow(year + 1, YearOf(day));
    }
  }

  lemma YearsGrow(a: int, b: int)
    requires a <= b
    ensures YearOf(a) <= YearOf(b)
  {
    if YearOf(a) > YearOf(b) {
      YearStartsGrow(YearOf(b) + 1, YearOf(a));
    }
  }

  /** The days of the year before the first of a month, the 13th being next January. */
  function MonthStart(month: int, leap: bool): int
    requires 1 <= month <= 13
  {
    (match month
     case 1 => 0
     case 2 => 31
     case 3 => 59
     case 4 => 90
     case 5 => 120
     case 6 => 151
     case 7 => 181
     case 8 => 212
     case 9 => 243
     case 10 => 273
     case 11 => 304
     case 12 => 334
     case _ => 365)
    + if leap && month > 2 then 1 else 0
  }

  function MonthIn(n: int, leap: bool, month: int): (m: int)
    requires 1 <= month <= 12 && MonthStart(1, leap) <= n < MonthStart(month + 1, leap)
    ensures 1 <= m <= 12 && MonthStart(m, leap) <= n < MonthStart(m + 1, leap)
    decreases month
  {
    if month == 1 || MonthStart(month, leap) <= n then month else MonthIn(n, leap, month - 1)
  }

  function DayOfYear(day: int): (n: int)
    ensures 0 <= n < YearDays(YearOf(day))
  {
    YearLength(YearOf(day));
    day - YearStart(YearOf(day))
  }

  /** `getUTCMonth() + 1`. */
  function MonthOf(day: int): (m: int)
    ensures 1 <= m <= 12
    ensures MonthStart(m, IsLeap(YearOf(day))) <= DayOfYear(day) < MonthStart(m + 1, IsLeap(YearOf(day)))
  {
    MonthIn(DayOfYear(day), IsLeap(YearOf(day)), 12)
  }

  /** `getUTCDate`. */
  function DateOf(day: int): (d: int)
    ensures 1 <= d <= 31
  {
    DayOfYear(day) - MonthStart(MonthOf(day), IsLeap(YearOf(day))) + 1
  }

  function DayAt(time: int): int {
    time / DAY
  }

  function HourOf(time: int): (h: int)
    ensures 0 <= h < 24
  {
    time % DAY / HOUR
  }

  // ----- weeks, as the code has them

  /** `Date.UTC` reads the years 0 to 99 as 1900 to 1999. */
  function UtcYear(year: int): int {
    if 0 <= year <= 99 then 1900 + year else year
  }

  /** `Date.UTC(year, month, date)` of a day's own fields. */
  function UtcDay(day: int): int {
    var year := UtcYear(YearOf(day));
    YearStart(year) + MonthStart(MonthOf(day), IsLeap(year)) + DateOf(day) - 1
  }

  /** `getUTCDay() || 7`: Monday is 1, Sunday 7. The first of January 1970 was a Thursday. */
  function Weekday(day: int): (w: int)
    ensures 1 <= w <= 7
  {
    (day + 3) % 7 + 1
  }

  function IsoWeek(day: int): (l: Label)
    ensures l.WeekLabel?
  {
    var thursday := UtcDay(day) + 4 - Weekday(UtcDay(day));
    var year := YearOf(thursday);
    // Math.ceil of a whole number of days, and one, over seven.
    WeekLabel(year, (thursday - YearStart(UtcYear(year)) + 1 + 6) / 7)
  }

  function PeriodOf(rule: Rule, time: int): Label {
    var day := DayAt(time);
    match rule
    case Hourly => HourLabel(YearOf(day), MonthOf(day), DateOf(day), HourOf(time))
    case Daily => DayLabel(YearOf(day), MonthOf(day), DateOf(day))
    case Weekly => IsoWeek(day)
    case Monthly => MonthLabel(YearOf(day), MonthOf(day))
    case Yearly => YearLabel(YearOf(day))
  }

  // ----- weeks, as section 4.1.4 of ISO 8601:2004 has them

  /** Weeks start on Monday. */
  function Monday(day: int): int {
    day - Weekday(day) + 1
  }

  /** The first week of a year is the one with its first Thursday in it: the week of the 4th of January. */
  function FirstMonday(year: int): int {
    Monday(YearStart(year) + 3)
  }

  /** A week is the `week`-th of `year` when that many Mondays in, before the next year's first. */
  ghost predicate IsIsoWeek(day: int, year: int, week: int) {
    && Monday(day) == FirstMonday(year) + 7 * (week - 1)
    && FirstMonday(year) <= Monday(day) < FirstMonday(year + 1)
  }

  predicate Shifted(year: int) {
    0 <= year <= 99
  }

  function Thursday(day: int): int {
    Monday(day) + 3
  }

  /** Counting whole weeks from the first Thursday is rounding up from the start of the year. */
  lemma WeekNumber(start: int, first: int, thursday: int, k: int)
    requires start <= first < start + 7 && start <= thursday == first + 7 * k
    ensures k >= 0 && (thursday - start + 1 + 6) / 7 == k + 1
  {
  }

  /** Mondays are seven days apart. */
  lemma MondaysApart(a: int, b: int) returns (k: int)
    ensures Monday(a) == Monday(b) + 7 * k
  {
    k := (Monday(a) - Monday(b)) / 7;
    MondayFacts(a);
    MondayFacts(b);
  }

  lemma MondayFacts(day: int)
    ensures Monday(day) % 7 == 4 && Monday(day) <= day <= Monday(day) + 6
  {
  }

  /** A day's week is the week of the year of its Thursday. */
  lemma WeekOfThursday(day: int)
    ensures var year := YearOf(Thursday(day));
            IsIsoWeek(day, year, (Thursday(day) - YearStart(year) + 1 + 6) / 7)
  {
    var year := YearOf(Thursday(day));
    var k := MondaysApart(day, YearStart(year) + 3);
    MondayFacts(day);
    MondayFacts(YearStart(year) + 3);
    MondayFacts(YearStart(year + 1) + 3);
    var first, next, monday := FirstMonday(year), FirstMonday(year + 1), Monday(day);
    assert first == Monday(YearStart(year) + 3) && next == Monday(YearStart(year + 1) + 3);
    assert YearStart(year) <= Thursday(day) < YearStart(year + 1) && Thursday(day) == first + 3 + 7 * k;
    WeekNumber(YearStart(year), first + 3, Thursday(day), k);
  }

  lemma FirstMondaysGrow(a: int, b: int)
    requires a <= b
    ensures FirstMonday(a) <= FirstMonday(b)
  {
    YearStartsGrow(a, b);
  }

  lemma IsoWeekIsUnique(day: int, y1: int, w1: int, y2: int, w2: int)
    requires IsIsoWeek(day, y1, w1) && IsIsoWeek(day, y2, w2)
    ensures y1 == y2 && w1 == w2
  {
    if y1 < y2 { FirstMondaysGrow(y1 + 1, y2); }
    if y2 < y1 { FirstMondaysGrow(y2 + 1, y1); }
  }

  lemma UtcDayIsItself(day: int)
    requires !Shifted(YearOf(day))
    ensures UtcDay(day) == day
  {
  }

  /** Outside the years 0 to 99 the code counts from its Thursday's year, if that is outside too. */
  lemma LabelOfThursday(day: int)
    requires !Shifted(YearOf(day))
    ensures var year := YearOf(Thursday(day));
            IsoWeek(day) == WeekLabel(year, (Thursday(day) - YearStart(UtcYear(year)) + 1 + 6) / 7)
  {
    UtcDayIsItself(day);
    MondayFacts(day);
  }

  /** Three days either way are at most one year away. */
  lemma NearbyYear(day: int, other: int)
    requires -7 <= other - day <= 7
    ensures -1 <= YearOf(other) - YearOf(day) <= 1
  {
    var year := YearOf(day);
    YearLength(year - 1);
    YearLength(year + 1);
    YearsGrow(YearStart(year - 1), other);
    YearIs(YearStart(year - 1), year - 1);
    YearsGrow(other, YearStart(year + 2) - 1);
    YearIs(YearStart(year + 2) - 1, year + 1);
  }

  lemma UtcDayYear(day: int)
    ensures YearOf(UtcDay(day)) >= UtcYear(YearOf(day))
  {
    var year := UtcYear(YearOf(day));
    YearsGrow(YearStart(year), UtcDay(day));
    YearLength(year);
    YearIs(YearStart(year), year);
  }

  /** A day of the years 0 to 99 is labelled with a year about 1900 later. */
  lemma LateLabel(day: int)
    requires Shifted(YearOf(day))
    ensures IsoWeek(day).year > YearOf(Thursday(day))
  {
    NearbyYear(day, Thursday(day));
    UtcDayYear(day);
    NearbyYear(UtcDay(day), UtcDay(day) + 4 - Weekday(UtcDay(day)));
  }

  /** `isoWeek` gives `day` the year and week ISO 8601 gives it. */
  ghost predicate SaysIsoWeek(day: int) {
    IsIsoWeek(day, IsoWeek(day).year, IsoWeek(day).week)
  }

  lemma ModernWeek(day: int)
    requires !Shifted(YearOf(day)) && !Shifted(YearOf(Thursday(day)))
    ensures SaysIsoWeek(day)
  {
    LabelOfThursday(day);
    WeekOfThursday(day);
  }

  /** With its Thursday in the years 0 to 99, the weeks are counted from about 1900 years later. */
  lemma ShiftedWeek(day: int)
    requires !Shifted(YearOf(day)) && Shifted(YearOf(Thursday(day)))
    ensures IsoWeek(day).year == YearOf(Thursday(day)) && IsoWeek(day).week <= 0
  {
    var year := YearOf(Thursday(day));
    LabelOfThursday(day);
    YearStartsGrow(year + 1, UtcYear(year));
  }

  /**
   It does exactly when neither the day nor its Thursday is in the years 0 to
   99: on the first of January 100, a Friday, it does not.
   */
  lemma IsoWeekExactly(day: int)
    ensures SaysIsoWeek(day) <==> !Shifted(YearOf(day)) && !Shifted(YearOf(Thursday(day)))
  {
    var year := YearOf(Thursday(day));
    var week := (Thursday(day) - YearStart(year) + 1 + 6) / 7;
    WeekOfThursday(day);
    if SaysIsoWeek(day) {
      IsoWeekIsUnique(day, year, week, IsoWeek(day).year, IsoWeek(day).week);
    }
    if Shifted(YearOf(day)) {
      LateLabel(day);
    } else if Shifted(year) {
      ShiftedWeek(day);
    } else {
      ModernWeek(day);
    }
  }

  /** Leap years before a year, as many as 1970 has more or less. */
  function LeapDays(year: int): int {
    (year - 1) / 4 - (year - 1) / 100 + (year - 1) / 400
  }

  lemma {:induction false} YearStartIs(year: int)
    ensures YearStart(year) == 365 * (year - 1970) + LeapDays(year) - LeapDays(1970)
    decreases if year < 1970 then 1970 - year else year - 1970
  {
    if year > 1970 {
      YearStartIs(year - 1);
      LeapDaysStep(year - 1);
    } else if year < 1970 {
      YearStartIs(year + 1);
      LeapDaysStep(year);
    }
  }

  lemma LeapDaysStep(year: int)
    ensures LeapDays(year + 1) == LeapDays(year) + YearDays(year) - 365
  {
    Fourths(year);
    Hundredths(year);
    assert year / 400 == (year - 1) / 400 + if year % 400 == 0 then 1 else 0;
  }

  lemma Fourths(n: int)
    ensures n / 4 == (n - 1) / 4 + if n % 4 == 0 then 1 else 0
    ensures n % 100 == 0 ==> n % 4 == 0
  {
  }

  lemma Hundredths(n: int)
    ensures n / 100 == (n - 1) / 100 + if n % 100 == 0 then 1 else 0
    ensures n % 400 == 0 ==> n % 100 == 0
  {
  }

  /** The first of January 100, a Friday, is labelled with a week of the year 99 that there is none of. */
  lemma FirstOfTheYear100(day: int)
    requires day == YearStart(100)
    ensures YearOf(day) == 100 && MonthOf(day) == 1 && DateOf(day) == 1 && Weekday(day) == 5
    ensures IsoWeek(day).year == 99 && IsoWeek(day).week <= 0 && !SaysIsoWeek(day)
  {
    hide YearStart;
    assert day == -683003 by { YearStartIs(100); }
    YearLength(99);
    YearLength(100);
    YearIs(day, 100);
    YearIs(day - 1, 99);
    FirstMonthIs(day);
    assert Thursday(day) == day - 1;
    ShiftedWeek(day);
    IsoWeekExactly(day);
  }

  lemma FirstMonthIs(day: int)
    requires day == YearStart(YearOf(day))
    ensures MonthOf(day) == 1 && DateOf(day) == 1
  {
    if MonthOf(day) > 1 { MonthStartsGrow(2, MonthOf(day), IsLeap(YearOf(day))); }
  }

  // ----- periods follow one another

  /**
   Labels by this rule are exact for a time: all but weeks of the years 0
   to 99, the first days of the year 100 among them.
   */
  predicate Exact(rule: Rule, time: int) {
    rule.Weekly? ==> !Shifted(YearOf(DayAt(time))) && !Shifted(YearOf(Thursday(DayAt(time))))
  }

  /** The number of the period a time is in, counted in whole hours, days, weeks, months or years. */
  function Rank(rule: Rule, time: int): int {
    var day := DayAt(time);
    match rule
    case Hourly => time / HOUR
    case Daily => day
    case Weekly => (day + 3) / 7
    case Monthly => 12 * YearOf(day) + MonthOf(day)
    case Yearly => YearOf(day)
  }

  lemma MonthStartsGrow(m: int, n: int, leap: bool)
    requires 1 <= m <= n <= 13
    ensures MonthStart(m, leap) <= MonthStart(n, leap)
  {
  }

  lemma MonthsGrow(a: int, b: int)
    requires a <= b && YearOf(a) == YearOf(b)
    ensures MonthOf(a) <= MonthOf(b)
  {
    if MonthOf(a) > MonthOf(b) {
      MonthStartsGrow(MonthOf(b) + 1, MonthOf(a), IsLeap(YearOf(a)));
    }
  }

  lemma RanksGrow(rule: Rule, a: int, b: int)
    requires a <= b
    ensures Rank(rule, a) <= Rank(rule, b)
  {
    YearsGrow(DayAt(a), DayAt(b));
    if YearOf(DayAt(a)) == YearOf(DayAt(b)) { MonthsGrow(DayAt(a), DayAt(b)); }
  }

  lemma OneWeek(a: int, b: int, year: int, week: int)
    requires IsIsoWeek(a, year, week) && IsIsoWeek(b, year, week)
    ensures Monday(a) == Monday(b)
  {
    hide Monday, FirstMonday;
  }

  /** Two days have one label exactly when they share a week that starts on Monday. */
  lemma SameWeek(a: int, b: int)
    requires !Shifted(YearOf(a)) && !Shifted(YearOf(Thursday(a)))
    requires !Shifted(YearOf(b)) && !Shifted(YearOf(Thursday(b)))
    ensures IsoWeek(a) == IsoWeek(b) <==> Monday(a) == Monday(b)
  {
    ModernWeek(a);
    ModernWeek(b);
    LabelOfThursday(a);
    LabelOfThursday(b);
    assert IsIsoWeek(a, IsoWeek(a).year, IsoWeek(a).week) && IsIsoWeek(b, IsoWeek(b).year, IsoWeek(b).week);
    assert Thursday(a) == Monday(a) + 3 && Thursday(b) == Monday(b) + 3;
    if IsoWeek(a) == IsoWeek(b) { OneWeek(a, b, IsoWeek(a).year, IsoWeek(a).week); }
    hide *;
  }

  lemma HourIsRank(time: int)
    ensures time / HOUR == 24 * DayAt(time) + HourOf(time)
  {
  }

  /** The year, the month and the date say which day it is. */
  lemma DateSaysDay(a: int, b: int)
    requires YearOf(a) == YearOf(b) && MonthOf(a) == MonthOf(b) && DateOf(a) == DateOf(b)
    ensures a == b
  {
  }

  lemma SameHour(a: int, b: int)
    ensures PeriodOf(Hourly, a) == PeriodOf(Hourly, b) <==> a / HOUR == b / HOUR
  {
    HourIsRank(a);
    HourIsRank(b);
    if PeriodOf(Hourly, a) == PeriodOf(Hourly, b) { DateSaysDay(DayAt(a), DayAt(b)); }
  }

  lemma SameDate(a: int, b: int)
    ensures PeriodOf(Daily, a) == PeriodOf(Daily, b) <==> DayAt(a) == DayAt(b)
  {
    if PeriodOf(Daily, a) == PeriodOf(Daily, b) { DateSaysDay(DayAt(a), DayAt(b)); }
  }

  lemma MonthCount(y1: int, m1: int, y2: int, m2: int)
    requires 1 <= m1 <= 12 && 1 <= m2 <= 12
    ensures 12 * y1 + m1 == 12 * y2 + m2 <==> y1 == y2 && m1 == m2
  {
  }

  lemma SameMonth(a: int, b: int)
    ensures PeriodOf(Monthly, a) == PeriodOf(Monthly, b) <==> Rank(Monthly, a) == Rank(Monthly, b)
  {
    MonthCount(YearOf(DayAt(a)), MonthOf(DayAt(a)), YearOf(DayAt(b)), MonthOf(DayAt(b)));
  }

  lemma SameWeekRank(a: int, b: int)
    requires Exact(Weekly, a) && Exact(Weekly, b)
    ensures PeriodOf(Weekly, a) == PeriodOf(Weekly, b) <==> Rank(Weekly, a) == Rank(Weekly, b)
  {
    SameWeek(DayAt(a), DayAt(b));
  }

  /**
   Two times have the same label exactly when they are in the same period, and periods are intervals: ranks never fall.
   */
  lemma SamePeriod(rule: Rule, a: int, b: int)
    requires Exact(rule, a) && Exact(rule, b)
    ensures PeriodOf(rule, a) == PeriodOf(rule, b) <==> Rank(rule, a) == Rank(rule, b)
  {
    match rule
    case Hourly => SameHour(a, b);
    case Daily => SameDate(a, b);
    case Weekly => SameWeekRank(a, b);
    case Monthly => SameMonth(a, b);
    case Yearly =>
  }

  /** A period once left is not met again. */
  lemma PeriodsAreIntervals(rule: Rule, a: int, b: int, c: int)
    requires Exact(rule, a) && Exact(rule, b) && Exact(rule, c) && a <= b <= c
    requires PeriodOf(rule, a) != PeriodOf(rule, b)
    ensures PeriodOf(rule, a) != PeriodOf(rule, c)
  {
    RanksGrow(rule, a, b);
    RanksGrow(rule, b, c);
    SamePeriod(rule, a, b);
    SamePeriod(rule, a, c);
  }
}
