/** From the submitted trigger object to the command on the topic, in the words of the object and of the calendar. */
module EndToEnd {
  import opened Calendar
  import opened Formats
  import opened Schedule
  import opened PeriodToken
  import opened Placeholders
  import opened Frontmatter
  import opened Publishing
  import opened Store
  import opened Admission
  import Finite

  /** The day names an object lists, in either field. */
  function Listed(t: TriggerObject): seq<string> {
    if t.weekday.Some? then [t.weekday.value] else if t.weekdays.Some? then t.weekdays.value else []
  }

  function Offset(t: TriggerObject): int {
    if t.periodOffset.Some? then t.periodOffset.value else 0
  }

  predicate DayIs(name: string, date: Date) {
    WeekdayByName(name) == Some(WeekdayOf(date.Time()))
  }

  function FirstThree(name: string): string {
    if |name| < 3 then name else name[..3]
  }

  // ---------------------------------------------------------------- weekdays

  lemma LowerDays()
    ensures ToLower("Mon") == "mon" && ToLower("Tue") == "tue" && ToLower("Wed") == "wed" && ToLower("Thu") == "thu"
    ensures ToLower("Fri") == "fri" && ToLower("Sat") == "sat" && ToLower("Sun") == "sun"
  {
  }

  lemma ShortenedDays()
    ensures "Monday"[..3] == "Mon" && "Tuesday"[..3] == "Tue" && "Wednesday"[..3] == "Wed"
    ensures "Thursday"[..3] == "Thu" && "Friday"[..3] == "Fri" && "Saturday"[..3] == "Sat" && "Sunday"[..3] == "Sun"
  {
  }

  lemma LongSuffix(name: string)
    requires name in LONG_DAYS
    ensures WeekdayByName(name).Some?
    ensures WeekdayAbbrev(WeekdayByName(name).value) == ToLower(FirstThree(name))
  {
    hide ToLower;
    LowerDays();
    ShortenedDays();
  }

  lemma ShortSuffix(name: string)
    requires name in SHORT_DAYS
    ensures WeekdayByName(name).Some?
    ensures WeekdayAbbrev(WeekdayByName(name).value) == ToLower(FirstThree(name))
  {
    hide ToLower;
    LowerDays();
    assert FirstThree(name) == name;
  }

  /** The suffix of a Weekday token is the first three letters of the day's name, in lower case, however it is spelled.
      */
  lemma DaySuffix(name: string)
    requires name in LONG_DAYS || name in SHORT_DAYS
    ensures WeekdayByName(name).Some?
    ensures WeekdayAbbrev(WeekdayByName(name).value) == ToLower(FirstThree(name))
  {
    hide ToLower;
    if name in LONG_DAYS { LongSuffix(name); } else { ShortSuffix(name); }
  }

  lemma ListedDays(cr: ScheduleCR, t: TriggerObject, date: Date)
    requires Admitted(t) && cr.trigger == Decode(t) && t.recurrence == "Weekday"
    ensures Adaptable(cr) && AdaptedDefinition(cr).recurrence == Weekday
    ensures WeekdayOf(date.Time()) in AdaptedDefinition(cr).weekdays
       <==> exists i :: 0 <= i < |Listed(t)| && DayIs(Listed(t)[i], date)
  {
    AdmittedAdapts(cr, t);
    EnumKinds(t.recurrence);
    AdaptationCopies(cr);
    AdmittedExactly(t);
    hide Admitted, AdaptedDefinition, Adaptable, WeekdayByName, WeekdayOf, MakeTime, EnumKind;
    if t.weekday.Some? {
      assert cr.trigger.weekday == t.weekday.value && t.weekday.value != "";
      assert Listed(t)[0] == t.weekday.value;
      assert DayIs(Listed(t)[0], date) <==> WeekdayOf(date.Time()) in AdaptedDefinition(cr).weekdays;
    } else {
      assert cr.trigger.weekday == "" && Listed(t) == cr.trigger.weekdays;
      var d := WeekdayOf(date.Time());
      if d in AdaptedDefinition(cr).weekdays {
        var i :| 0 <= i < |cr.trigger.weekdays| && WeekdayByName(cr.trigger.weekdays[i]) == Some(d);
        assert DayIs(Listed(t)[i], date);
      }
    }
  }

  // ---------------------------------------------------------------- when an admitted schedule fires

  /** An admitted Weekday schedule fires exactly on the days it lists, an OnDate schedule exactly on its month and day,
      and every other one on every date. */
  lemma AdmittedFires(cr: ScheduleCR, t: TriggerObject, date: Date)
    requires Admitted(t) && cr.trigger == Decode(t) && date.Valid()
    ensures Adaptable(cr)
    ensures Fires(AdaptedDefinition(cr), date)
       <==> if t.recurrence == "Weekday" then exists i :: 0 <= i < |Listed(t)| && DayIs(Listed(t)[i], date)
            else if t.recurrence == "OnDate" then t.month == Some(date.month) && t.day == Some(date.day)
            else true
  {
    AdmittedAdapts(cr, t);
    AdmittedExactly(t);
    EnumKinds(t.recurrence);
    AdaptationCopies(cr);
    AlwaysFireKinds(AdaptedDefinition(cr), date);
    TimeRoundTrip(date.year, date.month, date.day);
    hide Admitted, AdaptedDefinition, Adaptable, WeekdayByName, WeekdayOf, MakeTime, MonthOf, DayOf, EnumKind, DayIs;
    if t.recurrence == "Weekday" {
      ListedDays(cr, t, date);
    }
  }

  // ---------------------------------------------------------------- which token it gets

  lemma AdmittedKind(cr: ScheduleCR, t: TriggerObject)
    requires Admitted(t) && cr.trigger == Decode(t)
    ensures Adaptable(cr) && AdaptedDefinition(cr).periodOffset == Offset(t)
    ensures var kind := AdaptedDefinition(cr).recurrence;
            && (t.recurrence == "Daily" ==> kind == Daily) && (t.recurrence == "Weekly" ==> kind == Weekly)
            && (t.recurrence == "Weekday" ==> kind == Weekday) && (t.recurrence == "Monthly" ==> kind == Monthly)
            && (t.recurrence == "Quarterly" ==> kind == Quarterly) && (t.recurrence == "Yearly" ==> kind == Yearly)
            && (t.recurrence == "OnDate" ==> kind == OnDate) && (t.recurrence == "Hourly" ==> kind == Hourly)
  {
    AdmittedAdapts(cr, t);
    AdaptationCopies(cr);
    hide Admitted, Adaptable, AdaptedDefinition;
  }

  /** The token of an admitted schedule, in terms of the object and of civil dates: the date, hour or year itself, or
      the month, quarter or year of any date that lies the object's `periodOffset` periods away. */
  lemma AdmittedToken(cr: ScheduleCR, t: TriggerObject, date: Date, other: Date)
    requires Admitted(t) && cr.trigger == Decode(t) && date.Valid() && other.Valid()
    ensures Adaptable(cr)
    ensures var token := Build(AdaptedDefinition(cr), date);
            && (t.recurrence == "Daily" ==> token == Token.Ok(FmtDate(date.year, date.month, date.day)))
            && (t.recurrence == "Hourly" ==>
                  token == Token.Ok(FmtHourToken(date.year, date.month, date.day, date.hour)))
            && (t.recurrence == "OnDate" ==> token == Token.Ok(FmtYear(date.year)))
            && (t.recurrence == "Monthly"
                && 12 * other.year + other.month == 12 * date.year + date.month + Offset(t) ==>
                  token == Token.Ok(FmtMonthYear(other.year, other.month)))
            && (t.recurrence == "Quarterly"
                && 4 * other.year + (other.month - 1) / 3 == 4 * date.year + (date.month - 1) / 3 + Offset(t) ==>
                  token == Token.Ok(FmtQuarter(other.year, (other.month - 1) / 3 + 1)))
            && (t.recurrence == "Yearly" && other.year == date.year + Offset(t) ==>
                  token == Token.Ok(FmtYear(other.year)))
  {
    AdmittedKind(cr, t);
    hide Admitted, Adaptable, AdaptedDefinition, Build, FmtDate, FmtHourToken, FmtYear, FmtMonthYear, FmtQuarter;
    TokenText(AdaptedDefinition(cr), date, other);
  }

  lemma ListedSuffix(t: TriggerObject, i: nat, date: Date)
    requires Admitted(t) && t.recurrence == "Weekday" && i < |Listed(t)| && DayIs(Listed(t)[i], date)
    ensures WeekdayAbbrev(WeekdayOf(date.Time())) == ToLower(FirstThree(Listed(t)[i]))
  {
    AdmittedExactly(t);
    hide Admitted, ToLower, WeekdayOf, MakeTime, WeekdayByName, WeekdayAbbrev;
    DayNamesMatch(Listed(t)[i]);
    DaySuffix(Listed(t)[i]);
  }

  /** Weekly and Weekday schedules write the ISO 8601 year and week, Weekday with the day's short name behind it,
      whichever of its listed names is the day's. */
  lemma AdmittedWeekToken(cr: ScheduleCR, t: TriggerObject, date: Date, year: int, week: int)
    requires Admitted(t) && cr.trigger == Decode(t) && date.Valid() && 1 <= week
    requires WeekIndex(date.Time()) == FirstWeek(year) + week - 1 && WeekIndex(date.Time()) < FirstWeek(year + 1)
    ensures Adaptable(cr)
    ensures t.recurrence == "Weekly" ==> Build(AdaptedDefinition(cr), date) == Token.Ok(FmtIsoWeek(year, week))
    ensures t.recurrence == "Weekday" ==> forall i :: 0 <= i < |Listed(t)| && DayIs(Listed(t)[i], date) ==>
              Build(AdaptedDefinition(cr), date)
              == Token.Ok(FmtIsoWeek(year, week) + "-" + ToLower(FirstThree(Listed(t)[i])))
  {
    AdmittedKind(cr, t);
    hide Admitted, Adaptable, AdaptedDefinition, Build, FmtIsoWeek, Fires, ToLower, WeekdayOf, MakeTime, FirstWeek,
         WeekIndex, WeekdayAbbrev, DayIs, Listed, FirstThree;
    WeekTokenText(AdaptedDefinition(cr), date, year, week);
    if t.recurrence == "Weekday" {
      AdmittedFires(cr, t, date);
      forall i | 0 <= i < |Listed(t)| && DayIs(Listed(t)[i], date)
        ensures WeekdayAbbrev(WeekdayOf(date.Time())) == ToLower(FirstThree(Listed(t)[i]))
      {
        ListedSuffix(t, i, date);
      }
    }
  }

  // ---------------------------------------------------------------- which command it sends

  /** The command of an admitted schedule on a date on which it fires carries the resource's own name, texts, vault and
      frontmatter, and `auto_abort_prior` is what the object says, false where it says nothing. */
  lemma AdmittedCommand(cr: ScheduleCR, t: TriggerObject, date: Date)
    requires Admitted(t) && cr.trigger == Decode(t) && cr.name != "" && date.Valid() && Adaptable(cr)
    requires Fires(AdaptedDefinition(cr), date)
    ensures var def := AdaptedDefinition(cr);
            && Prepare(def, date).Ready? && Build(def, date).Ok?
            && var c, token := Prepare(def, date).command, Build(def, date).text;
               && c.identifierName == "recurring-" + cr.name + "-" + token
               && c.title == TrimSpace(Rendered(cr.title, date)) + " - " + token
               && c.body == Rendered(cr.body, date) && c.vault == cr.vault
    ensures var f := Prepare(AdaptedDefinition(cr), date).command.frontmatter;
            && f.Keys == cr.frontmatter.Keys
                 + {"status", "page_type", "phase", "defer_date", "auto_abort_prior", "created_by"}
            && f["auto_abort_prior"] == Bool(t.autoAbortPrior == Some(true))
            && forall k :: k in cr.frontmatter && k !in {"defer_date", "auto_abort_prior", "created_by"} ==>
                 f[k] == RenderedValue(cr.frontmatter[k], date)
  {
    AdaptationCopies(cr);
    hide Admitted, Adaptable, AdaptedDefinition, Build, Prepare, Fires, Rendered, RenderedValue, TrimSpace, MakeTime,
         PeriodStart, Period;
    CommandCarriesDefinition(AdaptedDefinition(cr), date);
  }
}
