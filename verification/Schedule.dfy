/** Civil dates, recurrence kinds, task definitions, and which definitions fire on a date. */
module Schedule {
  import opened Calendar
  import Finite

  /** A Go string type: eight constants, and any other string. */
  datatype RecurrenceKind =
    | Daily | Weekly | Weekday | Monthly | Quarterly | Yearly | OnDate | Hourly
    | Other(name: string)

  const ALL_KINDS: seq<RecurrenceKind> := [Daily, Weekly, Weekday, Monthly, Quarterly, Yearly, OnDate, Hourly]

  predicate AlwaysFires(kind: RecurrenceKind) {
    !kind.Weekday? && !kind.OnDate? && !kind.Other?
  }

  datatype Date = Date(year: int, month: int, day: int, hour: int) {
    function Time(): Calendar.Time {
      MakeTime(year, month, day)
    }

    predicate IsZero() {
      year == 0 && month == 0 && day == 0
    }

    /** What a clock reading yields: a day of the calendar and an hour of that day. */
    predicate Valid() {
      ValidCivil(year, month, day) && 0 <= hour < 24
    }
  }

  function NewDate(year: int, month: int, day: int): Date {
    Date(year, month, day, 0)
  }

  /** The civil date and hour of a clock reading. */
  function DateOf(t: Time, hour: int): Date {
    NewDate(YearOf(t), MonthOf(t), DayOf(t)).(hour := hour)
  }

  lemma DateOfClock(t: Time, hour: int)
    requires 0 <= hour < 24
    ensures DateOf(t, hour).Valid() && DateOf(t, hour).Time() == t && !DateOf(t, hour).IsZero()
  {
    CivilRoundTrip(t);
  }

  lemma ValidDate(date: Date)
    requires date.Valid()
    ensures DateOf(date.Time(), date.hour) == date && !date.IsZero()
  {
    TimeRoundTrip(date.year, date.month, date.day);
  }

  /** A frontmatter value as YAML delivers it. */
  datatype Value =
    | Str(text: string)
    | Bool(flag: bool)
    | Int(n: int)
    | List(items: seq<Value>)
    | Map(entries: map<string, Value>)

  datatype TaskDefinition = TaskDefinition(
    slug: string,
    titleTemplate: string,
    bodyTemplate: string,
    recurrence: RecurrenceKind,
    weekdays: seq<DayOfWeek>,
    month: int,
    day: int,
    frontmatter: map<string, Value>,
    periodOffset: int,
    autoAbortPrior: bool,
    vault: string)

  predicate Fires(def: TaskDefinition, date: Date) {
    match def.recurrence
    case Weekday => WeekdayOf(date.Time()) in def.weekdays
    case OnDate => def.month == MonthOf(date.Time()) && def.day == DayOf(date.Time())
    case Other(_) => false
    case _ => true
  }

  function FiringEntries(defs: seq<TaskDefinition>, date: Date): (out: seq<TaskDefinition>)
    ensures forall def :: def in out <==> def in defs && Fires(def, date)
  {
    if defs == [] then []
    else
      var last := defs[|defs| - 1];
      FiringEntries(defs[..|defs| - 1], date) + if Fires(last, date) then [last] else []
  }

  /** The six always-fire kinds fire on every date, offset and fields regardless, and an unknown kind on none. */
  lemma AlwaysFireKinds(def: TaskDefinition, date: Date)
    ensures def.recurrence in {Daily, Weekly, Monthly, Quarterly, Yearly, Hourly} ==> Fires(def, date)
    ensures def.recurrence.Other? ==> !Fires(def, date)
    ensures AlwaysFires(def.recurrence) <==> def.recurrence in {Daily, Weekly, Monthly, Quarterly, Yearly, Hourly}
  {
  }

  lemma NothingFires(date: Date)
    ensures FiringEntries([], date) == []
  {
  }

  lemma FiringEndsWith(defs: seq<TaskDefinition>, last: TaskDefinition, date: Date)
    ensures FiringEntries(defs + [last], date) == FiringEntries(defs, date) + if Fires(last, date) then [last] else []
  {
    hide Fires;
    assert (defs + [last])[..|defs|] == defs;
  }

  /** Filtering takes a list entry by entry: each entry that fires is kept once for every time it is listed, in its
      place, and no other entry is. */
  lemma {:induction false} FiringPartByPart(front: seq<TaskDefinition>, back: seq<TaskDefinition>, date: Date)
    ensures FiringEntries(front + back, date) == FiringEntries(front, date) + FiringEntries(back, date)
    ensures |back| == 1 ==> FiringEntries(back, date) == if Fires(back[0], date) then back else []
  {
    NothingFires(date);
    hide Fires, FiringEntries;
    if back == [] {
      assert front + back == front;
    } else {
      var rest, last := back[..|back| - 1], back[|back| - 1];
      assert back == rest + [last] && front + back == (front + rest) + [last];
      FiringPartByPart(front, rest, date);
      FiringEndsWith(front + rest, last, date);
      FiringEndsWith(rest, last, date);
    }
  }

  /** No entry of the six kinds is dropped, whatever the date. */
  predicate KeepsAlwaysFiring(defs: seq<TaskDefinition>, out: seq<TaskDefinition>) {
    forall def :: def in defs && def.recurrence in {Daily, Weekly, Monthly, Quarterly, Yearly, Hourly} ==> def in out
  }

  lemma FilterKeepsAlwaysFiring(defs: seq<TaskDefinition>, date: Date)
    ensures KeepsAlwaysFiring(defs, FiringEntries(defs, date))
  {
    hide FiringEntries, MonthIndex, MonthStart;
  }

  method TasksForDate(defs: seq<TaskDefinition>, date: Date) returns (out: seq<TaskDefinition>)
    ensures out == FiringEntries(defs, date)
    ensures KeepsAlwaysFiring(defs, out)
  {
    hide MonthStart, MonthIndex, KeepsAlwaysFiring;
    var dateWeekday, dateMonth, dateDay := WeekdayOf(date.Time()), MonthOf(date.Time()), DayOf(date.Time());
    out := [];
    for i := 0 to |defs|
      invariant out == FiringEntries(defs[..i], date)
    {
      var def := defs[i];
      ghost var before := out;
      assert defs[..i + 1][..i] == defs[..i];
      match def.recurrence {
        case Weekday =>
          for j := 0 to |def.weekdays|
            invariant out == before && dateWeekday !in def.weekdays[..j]
          {
            if def.weekdays[j] == dateWeekday {
              out := out + [def];
              break;
            }
          }
        case OnDate =>
          if def.month == dateMonth && def.day == dateDay {
            out := out + [def];
          }
        case Other(_) =>
        case _ =>
          out := out + [def];
      }
    }
    assert defs[..|defs|] == defs;
    FilterKeepsAlwaysFiring(defs, date);
  }

  // ---------------------------------------------------------------- how often

  /** The days of `[start, start + 7)` on which a definition fires. */
  ghost function FiringDays(def: TaskDefinition, start: Time, hour: int): set<Time> {
    set t: Time | start <= t < start + 7 && Fires(def, DateOf(t, hour))
  }

  function DayInWeek(start: Time, w: DayOfWeek): Time {
    start + (w - WeekdayOf(start)) % 7
  }

  lemma DayInWeekUnique(start: Time, w: DayOfWeek, t: Time)
    ensures start <= t < start + 7 && WeekdayOf(t) == w <==> t == DayInWeek(start, w)
  {
  }

  /** A duplicate-free weekday set fires exactly once per named day in any seven consecutive dates. */
  lemma WeekdayFiresPerWeek(def: TaskDefinition, start: Time, hour: int)
    requires def.recurrence.Weekday? && Finite.Distinct(def.weekdays)
    ensures |FiringDays(def, start, hour)| == |def.weekdays|
  {
    hide MonthStart, MonthIndex, DayInWeek;
    var named := Finite.Elements(def.weekdays);
    var f := (w: DayOfWeek) => DayInWeek(start, w);
    Finite.DistinctSize(def.weekdays);
    forall v, w | v in named && w in named && f(v) == f(w) ensures v == w {
      DayInWeekUnique(start, v, f(v));
      DayInWeekUnique(start, w, f(w));
    }
    Finite.ImageSize<DayOfWeek, Time>(named, f);
    var image := Finite.Image<DayOfWeek, Time>(named, f);
    forall t ensures t in FiringDays(def, start, hour) <==> t in image {
      CivilRoundTrip(t);
      assert DateOf(t, hour).Time() == t;
      DayInWeekUnique(start, WeekdayOf(t), t);
      if t in FiringDays(def, start, hour) {
        assert WeekdayOf(t) in named && f(WeekdayOf(t)) == t;
      }
      if t in image {
        var w :| w in named && f(w) == t;
        DayInWeekUnique(start, w, t);
      }
    }
    assert FiringDays(def, start, hour) == image;
  }

  /** An OnDate definition fires on one day of a year if the calendar of that year has the day, and never otherwise. */
  lemma OnDateFiresOncePerYear(def: TaskDefinition, date: Date)
    requires def.recurrence.OnDate? && date.Valid()
    ensures Fires(def, date)
       <==> ValidCivil(date.year, def.month, def.day) && date.Time() == MakeTime(date.year, def.month, def.day)
  {
    hide MonthStart, MonthIndex;
    TimeRoundTrip(date.year, date.month, date.day);
    if ValidCivil(date.year, def.month, def.day) {
      TimeRoundTrip(date.year, def.month, def.day);
    }
  }

  /** 02-30 is in no year and 02-29 in the leap years only; every year has each admitted day of the other months. */
  lemma OnDateCalendar(year: int, month: int, day: int)
    requires 1 <= month <= 12 && 1 <= day <= 31
    ensures ValidCivil(year, month, day)
       <==> if month == 2 then day <= 28 || (day == 29 && IsLeap(year))
            else day <= 30 || month in {1, 3, 5, 7, 8, 10, 12}
  {
  }
}
