/** The period a task belongs to: its token, its start date, and why the two agree. */
module PeriodToken {
  import opened Calendar
  import opened Formats
  import opened Schedule
  import Finite

  datatype BuildError = WeekdayNotInSet | UnknownKind
  datatype Token = Ok(text: string) | Err(error: BuildError)

  function WeekdayAbbrev(w: DayOfWeek): string {
    ["sun", "mon", "tue", "wed", "thu", "fri", "sat"][w]
  }

  function QuarterOf(month: int): int {
    (month - 1) / 3 + 1
  }

  function FmtIsoWeekOf(t: Time): string {
    FmtIsoWeek(ISOWeek(t).0, ISOWeek(t).1)
  }

  function FmtDateOf(t: Time): string {
    FmtDate(YearOf(t), MonthOf(t), DayOf(t))
  }

  function Build(def: TaskDefinition, date: Date): Token {
    var t := date.Time();
    var firstOfMonth := MakeTime(YearOf(t), MonthOf(t), 1);
    match def.recurrence
    case Daily => Ok(FmtDate(date.year, date.month, date.day))
    case Hourly => Ok(FmtHourToken(date.year, date.month, date.day, date.hour))
    case Weekly => Ok(FmtIsoWeekOf(t))
    case Weekday =>
      if WeekdayOf(t) !in def.weekdays then Err(WeekdayNotInSet)
      else Ok(FmtIsoWeekOf(t) + "-" + WeekdayAbbrev(WeekdayOf(t)))
    case Monthly =>
      var shifted := AddDate(firstOfMonth, 0, def.periodOffset, 0);
      Ok(FmtMonthYear(YearOf(shifted), MonthOf(shifted)))
    case Quarterly =>
      var shifted := AddDate(firstOfMonth, 0, def.periodOffset * 3, 0);
      Ok(FmtQuarter(YearOf(shifted), QuarterOf(MonthOf(shifted))))
    case Yearly =>
      var shifted := AddDate(firstOfMonth, def.periodOffset, 0, 0);
      Ok(FmtYear(YearOf(shifted)))
    case OnDate => Ok(FmtYear(date.year))
    case Other(_) => Err(UnknownKind)
  }

  /** Days since the Monday on or before `t`, computed with Go's `%`. */
  function MondayOfISOWeek(t: Time): Time {
    AddDate(t, 0, 0, -((WeekdayOf(t) - MONDAY + 7) % 7))
  }

  function DeferDate(kind: RecurrenceKind, date: Date): string {
    var t := date.Time();
    match kind
    case Weekly => FmtDateOf(MondayOfISOWeek(t))
    case Monthly => FmtDate(YearOf(t), MonthOf(t), 1)
    case Quarterly => FmtDate(YearOf(t), (QuarterOf(MonthOf(t)) - 1) * 3 + 1, 1)
    case Yearly => FmtDate(YearOf(t), 1, 1)
    case _ => FmtDate(date.year, date.month, date.day)
  }

  // ---------------------------------------------------------------- periods

  /** The periods of one kind, numbered in order. */
  function Period(kind: RecurrenceKind, date: Date): int {
    var t := date.Time();
    match kind
    case Hourly => 24 * t + date.hour
    case Weekly => WeekIndex(t)
    case Monthly => MonthIndex(t)
    case Quarterly => MonthIndex(t) / 3
    case Yearly => YearOf(t)
    case OnDate => YearOf(t)
    case _ => t
  }

  /** The offset counts for the period-anchored kinds only. */
  function NamedPeriod(def: TaskDefinition, date: Date): int {
    Period(def.recurrence, date)
    + if def.recurrence.Monthly? || def.recurrence.Quarterly? || def.recurrence.Yearly? then def.periodOffset else 0
  }

  /** The first day of period `p`. */
  function PeriodStart(kind: RecurrenceKind, p: int): Time {
    match kind
    case Hourly => p / 24
    case Weekly => 7 * p
    case Monthly => MonthStart(p)
    case Quarterly => MonthStart(3 * p)
    case Yearly => MonthStart(12 * p)
    case _ => p
  }

  /** How period `p` of a kind is written: one text for each period, whatever day asks for it. */
  function PeriodName(kind: RecurrenceKind, p: int): string {
    match kind
    case Hourly => FmtHourToken(YearOf(p / 24), MonthOf(p / 24), DayOf(p / 24), p % 24)
    case Weekly => FmtIsoWeekOf(7 * p)
    case Weekday => FmtIsoWeekOf(p) + "-" + WeekdayAbbrev(WeekdayOf(p))
    case Monthly => FmtMonthYear(p / 12, p % 12 + 1)
    case Quarterly => FmtQuarter(p / 4, p % 4 + 1)
    case Yearly => FmtYear(p)
    case OnDate => FmtYear(p)
    case _ => FmtDateOf(p)
  }

  /** From the first of its month, a date moves by years and months exactly: no day overflow. */
  lemma ShiftedMonth(t: Time, years: int, months: int)
    ensures var s := AddDate(MakeTime(YearOf(t), MonthOf(t), 1), years, months, 0);
            MonthIndex(s) == MonthIndex(t) + 12 * years + months && (months == 0 ==> YearOf(s) == YearOf(t) + years)
  {
    hide MonthStart, MonthIndex, AddDate;
    AddMonths(MonthIndex(t), years, months);
    FirstOfMonth(MonthIndex(t) + 12 * years + months);
  }

  lemma BuildNamesDay(def: TaskDefinition, date: Date)
    requires date.Valid() && (def.recurrence.Daily? || def.recurrence.Hourly?)
    ensures Build(def, date) == Ok(PeriodName(def.recurrence, NamedPeriod(def, date)))
  {
    hide FmtInt, MakeTime, YearOf, MonthOf, DayOf, AddDate;
    TimeRoundTrip(date.year, date.month, date.day);
  }

  lemma BuildNamesWeekday(def: TaskDefinition, date: Date)
    requires date.Valid() && def.recurrence.Weekday? && Fires(def, date)
    ensures Build(def, date) == Ok(PeriodName(def.recurrence, NamedPeriod(def, date)))
  {
    hide MakeTime, AddDate, WeekdayOf, FmtIsoWeekOf;
  }

  lemma BuildNamesWeek(def: TaskDefinition, date: Date)
    requires date.Valid() && def.recurrence.Weekly?
    ensures Build(def, date) == Ok(PeriodName(def.recurrence, NamedPeriod(def, date)))
  {
    hide MonthStart, MonthIndex, ISOWeek, AddDate;
    ISOWeekInjective(date.Time(), 7 * WeekIndex(date.Time()));
  }

  lemma BuildNamesMonth(def: TaskDefinition, date: Date)
    requires date.Valid() && def.recurrence.Monthly?
    ensures Build(def, date) == Ok(PeriodName(def.recurrence, NamedPeriod(def, date)))
  {
    hide FmtInt, MonthStart, MonthIndex, ISOWeek, AddDate, MakeTime;
    ShiftedMonth(date.Time(), 0, def.periodOffset);
  }

  lemma QuartersOfMonths(k: int, offset: int)
    ensures var j := k + offset * 3; var q := k / 3 + offset;
            q == j / 3 && q / 4 == j / 12 && q % 4 + 1 == QuarterOf(j % 12 + 1)
  {
  }

  lemma BuildNamesQuarter(def: TaskDefinition, date: Date)
    requires date.Valid() && def.recurrence.Quarterly?
    ensures Build(def, date) == Ok(PeriodName(def.recurrence, NamedPeriod(def, date)))
  {
    hide FmtInt, MonthStart, MonthIndex, ISOWeek, AddDate, MakeTime;
    ShiftedMonth(date.Time(), 0, def.periodOffset * 3);
    QuartersOfMonths(MonthIndex(date.Time()), def.periodOffset);
  }

  lemma BuildNamesYear(def: TaskDefinition, date: Date)
    requires date.Valid() && def.recurrence.Yearly?
    ensures Build(def, date) == Ok(PeriodName(def.recurrence, NamedPeriod(def, date)))
  {
    hide FmtInt, MakeTime, YearOf, MonthOf, DayOf, AddDate, MonthStart, MonthIndex, FmtIsoWeekOf;
    ShiftedMonth(date.Time(), def.periodOffset, 0);
  }

  lemma BuildNamesOnDate(def: TaskDefinition, date: Date)
    requires date.Valid() && def.recurrence.OnDate?
    ensures Build(def, date) == Ok(PeriodName(def.recurrence, NamedPeriod(def, date)))
  {
    hide FmtInt, MakeTime, YearOf, MonthOf, DayOf, AddDate;
    TimeRoundTrip(date.year, date.month, date.day);
  }

  /** Whenever a definition fires its token exists, and it is the name of the fire period moved by the offset. */
  lemma BuildNamesPeriod(def: TaskDefinition, date: Date)
    requires date.Valid() && !def.recurrence.Other? && (def.recurrence.Weekday? ==> Fires(def, date))
    ensures Build(def, date) == Ok(PeriodName(def.recurrence, NamedPeriod(def, date)))
  {
    hide Build, PeriodName, NamedPeriod, Fires;
    match def.recurrence {
      case Weekly => BuildNamesWeek(def, date);
      case Monthly => BuildNamesMonth(def, date);
      case Quarterly => BuildNamesQuarter(def, date);
      case Yearly => BuildNamesYear(def, date);
      case OnDate => BuildNamesOnDate(def, date);
      case Daily => BuildNamesDay(def, date);
      case Hourly => BuildNamesDay(def, date);
      case Weekday => BuildNamesWeekday(def, date);
    }
  }

  lemma MonthTokenText(def: TaskDefinition, date: Date, other: Date)
    requires date.Valid() && other.Valid() && def.recurrence.Monthly?
    requires 12 * other.year + other.month == 12 * date.year + date.month + def.periodOffset
    ensures Build(def, date) == Ok(FmtMonthYear(other.year, other.month))
  {
    hide Build, FmtInt, MonthIndex, MonthStart, MakeTime;
    TimeRoundTrip(date.year, date.month, date.day);
    BuildNamesPeriod(def, date);
    assert NamedPeriod(def, date) == 12 * other.year + other.month - 1;
  }

  lemma QuarterTokenText(def: TaskDefinition, date: Date, other: Date)
    requires date.Valid() && other.Valid() && def.recurrence.Quarterly?
    requires 4 * other.year + (other.month - 1) / 3 == 4 * date.year + (date.month - 1) / 3 + def.periodOffset
    ensures Build(def, date) == Ok(FmtQuarter(other.year, (other.month - 1) / 3 + 1))
  {
    hide Build, FmtInt, MonthIndex, MonthStart, MakeTime;
    TimeRoundTrip(date.year, date.month, date.day);
    BuildNamesPeriod(def, date);
    assert NamedPeriod(def, date) == 4 * other.year + (other.month - 1) / 3;
  }

  lemma YearTokenText(def: TaskDefinition, date: Date)
    requires date.Valid() && def.recurrence.Yearly?
    ensures Build(def, date) == Ok(FmtYear(date.year + def.periodOffset))
  {
    hide Build, FmtInt, MonthIndex, MonthStart, MakeTime;
    TimeRoundTrip(date.year, date.month, date.day);
    BuildNamesPeriod(def, date);
  }

  lemma DayTokenText(def: TaskDefinition, date: Date)
    ensures def.recurrence.Daily? ==> Build(def, date) == Ok(FmtDate(date.year, date.month, date.day))
    ensures def.recurrence.Hourly? ==>
              Build(def, date) == Ok(FmtHourToken(date.year, date.month, date.day, date.hour))
    ensures def.recurrence.OnDate? ==> Build(def, date) == Ok(FmtYear(date.year))
  {
    hide FmtDate, FmtHourToken, FmtYear, MakeTime, AddDate, ISOWeek, YearOf, MonthOf, WeekdayOf;
  }

  /** What `Build` writes, in terms of civil dates alone: a date, an hour or a year of its own for the unshifted kinds,
      and for the others the month, quarter or year of any date `other` that lies `periodOffset` periods from the fire
      date. */
  lemma TokenText(def: TaskDefinition, date: Date, other: Date)
    requires date.Valid() && other.Valid()
    ensures def.recurrence.Daily? ==> Build(def, date) == Ok(FmtDate(date.year, date.month, date.day))
    ensures def.recurrence.Hourly? ==>
              Build(def, date) == Ok(FmtHourToken(date.year, date.month, date.day, date.hour))
    ensures def.recurrence.OnDate? ==> Build(def, date) == Ok(FmtYear(date.year))
    ensures def.recurrence.Monthly?
            && 12 * other.year + other.month == 12 * date.year + date.month + def.periodOffset ==>
              Build(def, date) == Ok(FmtMonthYear(other.year, other.month))
    ensures def.recurrence.Quarterly?
            && 4 * other.year + (other.month - 1) / 3 == 4 * date.year + (date.month - 1) / 3 + def.periodOffset ==>
              Build(def, date) == Ok(FmtQuarter(other.year, (other.month - 1) / 3 + 1))
    ensures def.recurrence.Yearly? && other.year == date.year + def.periodOffset ==>
              Build(def, date) == Ok(FmtYear(other.year))
  {
    hide Build;
    match def.recurrence {
      case Monthly =>
        if 12 * other.year + other.month == 12 * date.year + date.month + def.periodOffset {
          MonthTokenText(def, date, other);
        }
      case Quarterly =>
        if 4 * other.year + (other.month - 1) / 3 == 4 * date.year + (date.month - 1) / 3 + def.periodOffset {
          QuarterTokenText(def, date, other);
        }
      case Yearly => YearTokenText(def, date);
      case _ => DayTokenText(def, date);
    }
  }

  /** Weekly and Weekday tokens write the ISO 8601 year and week of the fire date. */
  lemma WeekTokenText(def: TaskDefinition, date: Date, year: int, week: int)
    requires date.Valid() && 1 <= week
    requires WeekIndex(date.Time()) == FirstWeek(year) + week - 1 && WeekIndex(date.Time()) < FirstWeek(year + 1)
    ensures def.recurrence.Weekly? ==> Build(def, date) == Ok(FmtIsoWeek(year, week))
    ensures def.recurrence.Weekday? && Fires(def, date) ==>
              Build(def, date) == Ok(FmtIsoWeek(year, week) + "-" + WeekdayAbbrev(WeekdayOf(date.Time())))
  {
    ISOWeekIsStandard(date.Time(), year, week);
    hide ISOWeek, FirstWeek, WeekIndex, FmtIsoWeek, MakeTime, AddDate, WeekdayOf, WeekdayAbbrev;
  }

  lemma DaysDiffer(s: Time, t: Time)
    ensures FmtDateOf(s) == FmtDateOf(t) <==> s == t
    ensures YearOf(s) == YearOf(t) && MonthOf(s) == MonthOf(t) && DayOf(s) == DayOf(t) <==> s == t
    ensures 1 <= MonthOf(s) <= 12 && 1 <= MonthOf(t) <= 12 && 1 <= DayOf(s) <= 31 && 1 <= DayOf(t) <= 31
  {
    CivilRoundTrip(s);
    CivilRoundTrip(t);
    hide FmtInt, YearOf, MonthOf, DayOf, MakeTime;
    DatesEqual(YearOf(s), MonthOf(s), DayOf(s), YearOf(t), MonthOf(t), DayOf(t));
  }

  lemma WeekNamesDiffer(s: Time, t: Time)
    ensures FmtIsoWeekOf(s) == FmtIsoWeekOf(t) <==> WeekIndex(s) == WeekIndex(t)
  {
    hide ISOWeek, FmtIsoWeek;
    ISOWeekRange(s);
    ISOWeekRange(t);
    WeeksEqual(ISOWeek(s).0, ISOWeek(s).1, ISOWeek(t).0, ISOWeek(t).1);
    ISOWeekInjective(s, t);
  }

  lemma AbbrevsDiffer(v: DayOfWeek, w: DayOfWeek)
    ensures WeekdayAbbrev(v) == WeekdayAbbrev(w) <==> v == w
  {
    assert WeekdayAbbrev(v)[0] == "smtwtfs"[v] && WeekdayAbbrev(v)[1] == "uouehra"[v];
    assert WeekdayAbbrev(w)[0] == "smtwtfs"[w] && WeekdayAbbrev(w)[1] == "uouehra"[w];
  }

  lemma WeekdayNamesDiffer(s: Time, t: Time)
    ensures PeriodName(Weekday, s) == PeriodName(Weekday, t) <==> s == t
  {
    hide FmtIsoWeekOf;
    var a, u, b, v := FmtIsoWeekOf(s), WeekdayAbbrev(WeekdayOf(s)), FmtIsoWeekOf(t), WeekdayAbbrev(WeekdayOf(t));
    WeekNamesDiffer(s, t);
    assert |u| == 3 && |v| == 3;
    assert (a + "-" + u)[..|a|] == a && (b + "-" + v)[..|b|] == b;
    assert (a + "-" + u)[|a| + 1..] == u && (b + "-" + v)[|b| + 1..] == v;
    AbbrevsDiffer(WeekdayOf(s), WeekdayOf(t));
  }

  /** Distinct periods have distinct names: across leap years, week-53 years and negative years. */
  lemma PeriodNamesDiffer(kind: RecurrenceKind, p: int, q: int)
    requires !kind.Other?
    ensures PeriodName(kind, p) == PeriodName(kind, q) <==> p == q
  {
    hide FmtInt, MonthIndex, FmtIsoWeekOf;
    match kind {
      case Hourly =>
        DaysDiffer(p / 24, q / 24);
        HoursEqual(YearOf(p / 24), MonthOf(p / 24), DayOf(p / 24), p % 24,
          YearOf(q / 24), MonthOf(q / 24), DayOf(q / 24), q % 24);
      case Weekly =>
        WeekNamesDiffer(7 * p, 7 * q);
      case Weekday =>
        WeekdayNamesDiffer(p, q);
      case Monthly =>
        MonthYearsEqual(p / 12, p % 12 + 1, q / 12, q % 12 + 1);
      case Quarterly =>
        QuartersEqual(p / 4, p % 4 + 1, q / 4, q % 4 + 1);
      case Yearly =>
        IntsEqual(p, q, 4);
      case OnDate =>
        IntsEqual(p, q, 4);
      case _ =>
        DaysDiffer(p, q);
    }
  }

  // ---------------------------------------------------------------- tokens

  /** Tokens are equal exactly when they name the same period, for any two dates and any two offsets:
      the offset moves the period by exactly that many, offsets add up, and equal periods never split. */
  lemma TokensEqualIffPeriodsEqual(def: TaskDefinition, date: Date, def': TaskDefinition, date': Date)
    requires def.recurrence == def'.recurrence && !def.recurrence.Other?
    requires date.Valid() && date'.Valid()
    requires def.recurrence.Weekday? ==> Fires(def, date) && Fires(def', date')
    ensures Build(def, date) == Build(def', date') <==> NamedPeriod(def, date) == NamedPeriod(def', date')
  {
    hide Build, PeriodName, NamedPeriod;
    BuildNamesPeriod(def, date);
    BuildNamesPeriod(def', date');
    PeriodNamesDiffer(def.recurrence, NamedPeriod(def, date), NamedPeriod(def', date'));
  }

  /** A duplicate-free weekday set has one token per named day in any seven consecutive dates, an ISO week among them.
      */
  lemma WeekdayTokensPerWeek(def: TaskDefinition, start: Time, hour: int)
    requires def.recurrence.Weekday? && Finite.Distinct(def.weekdays) && 0 <= hour < 24
    ensures |set t | t in FiringDays(def, start, hour) :: Build(def, DateOf(t, hour))| == |def.weekdays|
  {
    hide Build, MonthIndex, MonthStart;
    var f := (t: Time) => Build(def, DateOf(t, hour));
    var days := FiringDays(def, start, hour);
    forall s, t | s in days && t in days && f(s) == f(t) ensures s == t {
      DateOfClock(s, hour);
      DateOfClock(t, hour);
      TokensEqualIffPeriodsEqual(def, DateOf(s, hour), def, DateOf(t, hour));
    }
    Finite.ImageSize(days, f);
    assert Finite.Image(days, f) == set t | t in days :: Build(def, DateOf(t, hour));
    WeekdayFiresPerWeek(def, start, hour);
  }

  // ---------------------------------------------------------------- defer dates

  lemma MondayStartsWeek(t: Time)
    ensures MondayOfISOWeek(t) == 7 * WeekIndex(t)
  {
    hide AddDate;
    AddDays(t, -((WeekdayOf(t) - MONDAY + 7) % 7));
  }

  lemma QuarterStart(t: Time)
    ensures var s := MonthStart(3 * (MonthIndex(t) / 3));
            YearOf(s) == YearOf(t) && MonthOf(s) == (QuarterOf(MonthOf(t)) - 1) * 3 + 1 && DayOf(s) == 1
  {
    hide MonthStart, MonthIndex;
    FirstOfMonth(3 * (MonthIndex(t) / 3));
    QuartersOfMonths(MonthIndex(t), 0);
  }

  /** The stamped date is the first day of the fire period; a match-fire or hourly task surfaces on its fire date. */
  lemma DeferDateIsPeriodStart(kind: RecurrenceKind, date: Date)
    requires date.Valid()
    ensures DeferDate(kind, date)
            == FmtDateOf(if kind.OnDate? then date.Time() else PeriodStart(kind, Period(kind, date)))
  {
    hide FmtInt, MonthStart, MonthIndex, MondayOfISOWeek, MakeTime;
    var t := date.Time();
    match kind {
      case Weekly => MondayStartsWeek(t);
      case Monthly => FirstOfMonth(MonthIndex(t));
      case Quarterly => QuarterStart(t);
      case Yearly => FirstOfMonth(12 * YearOf(t));
      case _ => TimeRoundTrip(date.year, date.month, date.day);
    }
  }

  /** The period start is the least date of its period: a date lies at or after it exactly when
      its own period is that period or a later one, and the start lies in the period. */
  lemma PeriodStartIsLeast(kind: RecurrenceKind, p: int, date: Date)
    requires AlwaysFires(kind) && date.Valid()
    ensures PeriodStart(kind, p) <= date.Time() <==> p <= Period(kind, date.(hour := 23))
    ensures Period(kind, DateOf(PeriodStart(kind, p), p % 24)) == p
  {
    var t := date.Time();
    DateOfClock(PeriodStart(kind, p), p % 24);
    match kind {
      case Monthly => FirstOfMonth(p); MonthOrder(p, t);
      case Quarterly => FirstOfMonth(3 * p); MonthOrder(3 * p, t);
      case Yearly => FirstOfMonth(12 * p); MonthOrder(12 * p, t);
      case _ =>
    }
  }

  lemma OffsetIsFixed(def: TaskDefinition, a: Date, b: Date)
    ensures NamedPeriod(def, a) == NamedPeriod(def, b) <==> Period(def.recurrence, a) == Period(def.recurrence, b)
  {
  }

  lemma HourAtStart(kind: RecurrenceKind, p: int, date: Date)
    requires AlwaysFires(kind) && date.Valid() && p == Period(kind, date)
    ensures Period(kind, DateOf(PeriodStart(kind, p), date.hour)) == p
  {
    PeriodStartIsLeast(kind, p, date);
    DateOfClock(PeriodStart(kind, p), date.hour);
    DateOfClock(PeriodStart(kind, p), p % 24);
  }

  /** `defer_date` in terms of tokens, for every always-fire kind and every fixed offset: at the same hour
      the defer date carries the token of the fire date, and no earlier date does at any hour. */
  lemma DeferDateIsLeast(def: TaskDefinition, date: Date, earlier: Date)
    requires AlwaysFires(def.recurrence) && date.Valid() && earlier.Valid()
    ensures var start := DateOf(PeriodStart(def.recurrence, Period(def.recurrence, date)), date.hour);
            start.Valid() && DeferDate(def.recurrence, date) == FmtDateOf(start.Time())
            && Build(def, start) == Build(def, date)
            && (earlier.Time() < start.Time() ==> Build(def, earlier) != Build(def, date))
  {
    hide Build, NamedPeriod, DeferDate, PeriodStart, MonthStart, MonthIndex;
    var kind := def.recurrence;
    var p := Period(kind, date);
    var start := DateOf(PeriodStart(kind, p), date.hour);
    DateOfClock(PeriodStart(kind, p), date.hour);
    DeferDateIsPeriodStart(kind, date);
    PeriodStartIsLeast(kind, p, date);
    PeriodStartIsLeast(kind, p, earlier);
    OffsetIsFixed(def, start, date);
    OffsetIsFixed(def, earlier, date);
    HourAtStart(kind, p, date);
    TokensEqualIffPeriodsEqual(def, start, def, date);
    TokensEqualIffPeriodsEqual(def, earlier, def, date);
  }

  lemma OnDateDefers(a: Date, b: Date)
    requires a.Valid() && b.Valid() && a.month == b.month && a.day == b.day
    ensures DeferDate(OnDate, a) == DeferDate(OnDate, b) <==> Period(OnDate, a) == Period(OnDate, b)
  {
    hide FmtDate, MonthStart, MonthIndex;
    TimeRoundTrip(a.year, a.month, a.day);
    TimeRoundTrip(b.year, b.month, b.day);
    DatesEqual(a.year, a.month, a.day, b.year, b.month, b.day);
  }

  lemma StartsDiffer(kind: RecurrenceKind, a: Date, b: Date)
    requires a.Valid() && b.Valid() && !kind.OnDate?
    ensures PeriodStart(kind, Period(kind, a)) == PeriodStart(kind, Period(kind, b))
            && (kind.Hourly? ==> a.hour == b.hour)
       <==> Period(kind, a) == Period(kind, b)
  {
    hide MonthStart, MonthIndex, MakeTime;
    match kind {
      case Monthly => FirstOfMonth(Period(kind, a)); FirstOfMonth(Period(kind, b));
      case Quarterly => FirstOfMonth(3 * Period(kind, a)); FirstOfMonth(3 * Period(kind, b));
      case Yearly => FirstOfMonth(12 * Period(kind, a)); FirstOfMonth(12 * Period(kind, b));
      case _ =>
    }
  }

  /** Token and defer date agree: on any two dates on which a definition fires, its token strings are equal
      exactly when its `defer_date` strings are, for Hourly exactly when the hours are equal as well. */
  lemma TokenAgreesWithDeferDate(def: TaskDefinition, a: Date, b: Date)
    requires a.Valid() && b.Valid() && Fires(def, a) && Fires(def, b)
    ensures Build(def, a) == Build(def, b)
       <==> DeferDate(def.recurrence, a) == DeferDate(def.recurrence, b)
            && (def.recurrence.Hourly? ==> a.hour == b.hour)
  {
    hide Build, DeferDate, PeriodStart, MonthStart, MonthIndex, NamedPeriod;
    var kind := def.recurrence;
    TokensEqualIffPeriodsEqual(def, a, def, b);
    OffsetIsFixed(def, a, b);
    if kind.OnDate? {
      TimeRoundTrip(a.year, a.month, a.day);
      TimeRoundTrip(b.year, b.month, b.day);
      OnDateDefers(a, b);
    } else {
      DeferDateIsPeriodStart(kind, a);
      DeferDateIsPeriodStart(kind, b);
      DaysDiffer(PeriodStart(kind, Period(kind, a)), PeriodStart(kind, Period(kind, b)));
      StartsDiffer(kind, a, b);
    }
  }
}
