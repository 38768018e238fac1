/** The proleptic Gregorian calendar as Go's `time` package computes it.

    A midnight-UTC `time.Time` is its day number: day 0 is Monday, 1 January 2001. Months are counted on
    one line by the index `12 * year + month - 1`. Years are mathematical integers, negative ones included,
    and every function is total, as `time.Date` and `AddDate` normalise months and days by carrying.
 */
module Calendar {

  type Time = int
  type DayOfWeek = w: int | 0 <= w < 7

  const SUNDAY: DayOfWeek := 0
  const MONDAY: DayOfWeek := 1
  const THURSDAY: DayOfWeek := 4
  const SATURDAY: DayOfWeek := 6

  const EPOCH_MONTH: int := 24012

  predicate IsLeap(year: int) {
    year % 4 == 0 && (year % 100 != 0 || year % 400 == 0)
  }

  function DaysIn(year: int, month: int): (days: int)
    ensures 28 <= days <= 31
  {
    if month == 2 then if IsLeap(year) then 29 else 28
    else if month == 4 || month == 6 || month == 9 || month == 11 then 30 else 31
  }

  predicate ValidCivil(year: int, month: int, day: int) {
    1 <= month <= 12 && 1 <= day <= DaysIn(year, month)
  }

  /** The first day of a month, counted month by month within a year and year by year from 2001. */
  function FirstOf(year: int, month: int): Time
    requires 1 <= month <= 12
    decreases if year < 2001 then 2001 - year else year - 2001, month
  {
    if month > 1 then FirstOf(year, month - 1) + DaysIn(year, month - 1)
    else if year == 2001 then 0
    else if year > 2001 then FirstOf(year - 1, 12) + DaysIn(year - 1, 12)
    else FirstOf(year + 1, 1) - if IsLeap(year) then 366 else 365
  }

  /** The first day of the month with index `k`. */
  function MonthStart(k: int): Time {
    FirstOf(k / 12, k % 12 + 1)
  }

  lemma JanuaryToDecember(year: int)
    ensures FirstOf(year, 12) == FirstOf(year, 1) + if IsLeap(year) then 335 else 334
  {
    hide IsLeap;
    assert FirstOf(year, 3) == FirstOf(year, 1) + DaysIn(year, 1) + DaysIn(year, 2);
    assert FirstOf(year, 5) == FirstOf(year, 3) + 61;
    assert FirstOf(year, 7) == FirstOf(year, 5) + 61;
    assert FirstOf(year, 9) == FirstOf(year, 7) + 62;
    assert FirstOf(year, 11) == FirstOf(year, 9) + 61;
  }

  lemma MonthLength(k: int)
    ensures MonthStart(k + 1) == MonthStart(k) + DaysIn(k / 12, k % 12 + 1)
  {
    if k % 12 == 11 {
      JanuaryToDecember(k / 12);
      assert (k + 1) / 12 == k / 12 + 1 && (k + 1) % 12 == 0;
    } else {
      assert (k + 1) / 12 == k / 12 && (k + 1) % 12 == k % 12 + 1;
    }
  }

  lemma MonthsAscend(k: int)
    ensures MonthStart(k - 1) < MonthStart(k) < MonthStart(k + 1) < MonthStart(k + 2)
  {
    hide MonthStart;
    MonthLength(k - 1);
    MonthLength(k);
    MonthLength(k + 1);
  }

  /** `time.Date(year, month, day, 0, ...)`: excess months carry into years, excess days into months. */
  function MakeTime(year: int, month: int, day: int): Time {
    MonthStart(12 * year + month - 1) + day - 1
  }

  /** The month of `t`, given that of the day before or after. */
  function MonthNear(t: Time, k: int): (r: int)
    requires MonthStart(k) - 1 <= t <= MonthStart(k + 1)
    ensures MonthStart(r) <= t < MonthStart(r + 1)
  {
    MonthsAscend(k);
    if t < MonthStart(k) then k - 1 else if t < MonthStart(k + 1) then k else k + 1
  }

  lemma EpochIsJanuary()
    ensures MonthStart(EPOCH_MONTH) == 0 && MonthStart(EPOCH_MONTH + 1) == 31
  {
  }

  /** The month that holds day `t`, found by walking from the epoch. */
  function MonthIndex(t: Time): (k: int)
    ensures MonthStart(k) <= t < MonthStart(k + 1)
    decreases if t < 0 then -t else t
  {
    hide MonthStart;
    if t == 0 then EpochIsJanuary(); EPOCH_MONTH else MonthNear(t, MonthIndex(if t < 0 then t + 1 else t - 1))
  }

  function YearOf(t: Time): int {
    MonthIndex(t) / 12
  }

  function MonthOf(t: Time): int {
    MonthIndex(t) % 12 + 1
  }

  function DayOf(t: Time): int {
    t - MonthStart(MonthIndex(t)) + 1
  }

  /** `Time.YearDay`, counted from zero. */
  function YearDay(t: Time): int {
    t - MonthStart(12 * YearOf(t))
  }

  function AddDate(t: Time, years: int, months: int, days: int): Time {
    MakeTime(YearOf(t) + years, MonthOf(t) + months, DayOf(t) + days)
  }

  function WeekdayOf(t: Time): DayOfWeek {
    (t + 1) % 7
  }

  /** `Time.ISOWeek`: the year and week of the Thursday of the Monday-to-Sunday week of `t`. */
  function ISOWeek(t: Time): (int, int) {
    var d := THURSDAY - WeekdayOf(t);
    var thursday := t + if d == 4 then -3 else d;
    (YearOf(thursday), YearDay(thursday) / 7 + 1)
  }

  /** Monday-to-Sunday weeks, numbered in order. */
  function WeekIndex(t: Time): int {
    t / 7
  }

  // ---------------------------------------------------------------- months and civil dates

  lemma {:induction false} MonthsIncrease(j: int, k: int)
    requires j < k
    ensures MonthStart(j) + 28 <= MonthStart(k)
    decreases k - j
  {
    MonthLength(j);
    if j + 1 < k {
      MonthsIncrease(j + 1, k);
    }
  }

  /** A day lies at or after the start of a month exactly when its own month is that month or a later one. */
  lemma MonthOrder(k: int, t: Time)
    ensures MonthStart(k) <= t <==> k <= MonthIndex(t)
  {
    var j := MonthIndex(t);
    hide MonthStart, MonthIndex;
    if j + 1 < k {
      MonthsIncrease(j + 1, k);
    } else if k < j {
      MonthsIncrease(k, j);
    }
  }

  lemma MonthUnique(k: int, t: Time)
    requires MonthStart(k) <= t < MonthStart(k + 1)
    ensures MonthIndex(t) == k
  {
    MonthOrder(k, t);
    MonthOrder(k + 1, t);
  }

  /** Day numbers and valid civil dates correspond one to one. */
  lemma CivilRoundTrip(t: Time)
    ensures ValidCivil(YearOf(t), MonthOf(t), DayOf(t))
    ensures MakeTime(YearOf(t), MonthOf(t), DayOf(t)) == t
  {
    hide MonthStart, MonthIndex;
    MonthLength(MonthIndex(t));
  }

  lemma TimeRoundTrip(year: int, month: int, day: int)
    requires ValidCivil(year, month, day)
    ensures var t := MakeTime(year, month, day);
            YearOf(t) == year && MonthOf(t) == month && DayOf(t) == day
            && MonthIndex(t) == 12 * year + month - 1
  {
    var k := 12 * year + month - 1;
    hide MonthStart, MonthIndex;
    MonthLength(k);
    MonthUnique(k, MakeTime(year, month, day));
  }

  /** `time.Date` on the first of any month, in range or not, is the start of the month the carry names. */
  lemma FirstOfMonth(k: int)
    ensures MonthIndex(MonthStart(k)) == k && DayOf(MonthStart(k)) == 1
  {
    MonthLength(k);
    MonthUnique(k, MonthStart(k));
  }

  /** From the first of a month, `AddDate` by years and months moves the month index exactly: no day overflow. */
  lemma AddMonths(k: int, years: int, months: int)
    ensures AddDate(MonthStart(k), years, months, 0) == MonthStart(k + 12 * years + months)
  {
    FirstOfMonth(k);
  }

  lemma AddDays(t: Time, days: int)
    ensures AddDate(t, 0, 0, days) == t + days
  {
    hide MonthStart, MonthIndex;
    assert 12 * YearOf(t) + MonthOf(t) - 1 == MonthIndex(t);
  }

  // ---------------------------------------------------------------- years

  function YearStart(year: int): Time {
    MonthStart(12 * year)
  }

  lemma MonthOfYear(year: int, month: int)
    requires 1 <= month <= 12
    ensures MonthStart(12 * year + month) == MonthStart(12 * year + month - 1) + DaysIn(year, month)
  {
    hide MonthStart;
    MonthLength(12 * year + month - 1);
  }

  lemma YearLength(year: int)
    ensures YearStart(year + 1) == YearStart(year) + if IsLeap(year) then 366 else 365
  {
    hide MonthStart, IsLeap;
    MonthOfYear(year, 1); MonthOfYear(year, 2); MonthOfYear(year, 3); MonthOfYear(year, 4);
    MonthOfYear(year, 5); MonthOfYear(year, 6); MonthOfYear(year, 7); MonthOfYear(year, 8);
    MonthOfYear(year, 9); MonthOfYear(year, 10); MonthOfYear(year, 11); MonthOfYear(year, 12);
  }

  lemma ClosedFormStep(year: int)
    ensures YearStart(year + 1) == YearStart(year) + 365
            + (year / 4 - (year - 1) / 4) - (year / 100 - (year - 1) / 100) + (year / 400 - (year - 1) / 400)
  {
    hide YearStart;
    YearLength(year);
    assert year / 4 - (year - 1) / 4 == if year % 4 == 0 then 1 else 0;
    assert year / 100 - (year - 1) / 100 == if year % 100 == 0 then 1 else 0;
    assert year / 400 - (year - 1) / 400 == if year % 400 == 0 then 1 else 0;
    assert year % 400 == 0 ==> year % 100 == 0;
    assert year % 100 == 0 ==> year % 4 == 0;
  }

  /** The month-by-month calendar has the closed form of the Gregorian leap rule. */
  lemma {:induction false} YearStartClosedForm(year: int)
    ensures var y := year - 1; YearStart(year) == 365 * (y - 2000) + y / 4 - y / 100 + y / 400 - 485
    decreases if year < 2001 then 2001 - year else year - 2001
  {
    if year > 2001 {
      hide MonthStart;
      YearStartClosedForm(year - 1);
      ClosedFormStep(year - 1);
    } else if year < 2001 {
      hide MonthStart;
      YearStartClosedForm(year + 1);
      ClosedFormStep(year);
    }
  }

  lemma YearOrder(year: int, t: Time)
    ensures YearStart(year) <= t <==> year <= YearOf(t)
  {
    MonthOrder(12 * year, t);
  }

  // ---------------------------------------------------------------- weeks

  lemma ThursdayOfWeek(t: Time)
    ensures var thursday := 7 * WeekIndex(t) + 3;
            ISOWeek(t) == (YearOf(thursday), YearDay(thursday) / 7 + 1)
  {
    hide YearOf, YearDay;
  }

  /** The Monday-to-Sunday week that holds 4 January, which is week 1 of its year in ISO 8601. */
  function FirstWeek(year: int): int {
    WeekIndex(MakeTime(year, 1, 4))
  }

  /** Go's Thursday computation is the ISO definition: weeks are numbered from the week of
      4 January up to, not including, the week of 4 January of the following year. */
  lemma ISOWeekIsStandard(t: Time, year: int, week: int)
    ensures ISOWeek(t) == (year, week)
       <==> 1 <= week && WeekIndex(t) == FirstWeek(year) + week - 1 && WeekIndex(t) < FirstWeek(year + 1)
  {
    hide MonthStart, YearOf, ISOWeek;
    var thursday := 7 * WeekIndex(t) + 3;
    ThursdayOfWeek(t);
    YearOrder(year, thursday);
    YearOrder(year + 1, thursday);
    YearOrder(YearOf(thursday), thursday);
  }

  /** A year has 52 or 53 weeks: 53 if 1 January is a Thursday, or a Wednesday of a leap year. */
  lemma WeeksInYear(year: int)
    ensures var weeks, day := FirstWeek(year + 1) - FirstWeek(year), WeekdayOf(YearStart(year));
            52 <= weeks <= 53 && (weeks == 53 <==> day == THURSDAY || (day == THURSDAY - 1 && IsLeap(year)))
  {
    hide MonthStart, IsLeap;
    YearLength(year);
  }

  /** ISO year and week name the week uniquely. */
  lemma ISOWeekInjective(s: Time, t: Time)
    ensures ISOWeek(s) == ISOWeek(t) <==> WeekIndex(s) == WeekIndex(t)
  {
    hide ISOWeek, FirstWeek, YearOf, YearDay, WeekIndex;
    ISOWeekIsStandard(s, ISOWeek(s).0, ISOWeek(s).1);
    ISOWeekIsStandard(t, ISOWeek(t).0, ISOWeek(t).1);
    ThursdayOfWeek(s);
    ThursdayOfWeek(t);
  }

  lemma ISOWeekRange(t: Time)
    ensures 1 <= ISOWeek(t).1 <= 53
  {
    hide MonthStart, YearOf, ISOWeek;
    var thursday := 7 * WeekIndex(t) + 3;
    ThursdayOfWeek(t);
    YearOrder(YearOf(thursday), thursday);
    YearOrder(YearOf(thursday) + 1, thursday);
    YearLength(YearOf(thursday));
  }

  lemma AnchorDays()
    ensures MakeTime(2026, 6, 20) == 9301 && FirstWeek(2026) == 1304 && FirstWeek(2027) == 1357
  {
    hide MonthStart;
    YearStartClosedForm(2026);
    YearStartClosedForm(2027);
    MonthOfYear(2026, 1); MonthOfYear(2026, 2); MonthOfYear(2026, 3); MonthOfYear(2026, 4); MonthOfYear(2026, 5);
  }

  /** A known day fixes the numbering: Saturday 20 June 2026 lies in 2026W25, and 53-week 2026 ends 197 days later. */
  lemma Anchors()
    ensures var t := MakeTime(2026, 6, 20);
            WeekdayOf(t) == SATURDAY && ISOWeek(t) == (2026, 25) && ISOWeek(t + 197) == (2026, 53)
  {
    hide MakeTime, FirstWeek, ISOWeek;
    AnchorDays();
    ISOWeekIsStandard(9301, 2026, 25);
    ISOWeekIsStandard(9498, 2026, 53);
  }
}
