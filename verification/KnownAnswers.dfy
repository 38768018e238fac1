/** The documented examples, carried through the whole model: known texts for known dates. */
module KnownAnswers {
  import opened Calendar
  import opened Formats
  import opened Schedule
  import opened PeriodToken
  import opened Placeholders
  import opened Publishing
  import opened Store
  import opened Admission
  import opened EndToEnd
  import Finite

  const SAT_20_JUNE: Date := Date(2026, 6, 20, 0)

  // ---------------------------------------------------------------- texts

  lemma Years()
    ensures FmtYear(2025) == "2025" && FmtYear(2026) == "2026" && FmtYear(2027) == "2027"
    ensures FmtQuarter(2026, 2) == "2026Q2" && FmtQuarter(2026, 1) == "2026Q1"
  {
    assert Decimal(202) == "202" && Decimal(2025) == "2025" && Decimal(2026) == "2026" && Decimal(2027) == "2027";
  }

  lemma Months()
    ensures FmtMonthYear(2026, 5) == "2026-05" && FmtMonthYear(2026, 6) == "2026-06"
            && FmtMonthYear(2026, 7) == "2026-07"
  {
    assert Decimal(202) == "202" && Decimal(2026) == "2026";
  }

  lemma Days()
    ensures FmtDate(2026, 6, 20) == "2026-06-20" && FmtDate(2026, 6, 21) == "2026-06-21"
    ensures FmtIsoWeek(2026, 25) == "2026W25" && FmtIsoWeek(2026, 26) == "2026W26"
  {
    assert Decimal(202) == "202" && Decimal(2026) == "2026";
  }

  // ---------------------------------------------------------------- the placeholder table

  lemma June(day: int)
    requires 1 <= day <= 30
    ensures var t := MakeTime(2026, 6, day);
            && t == 9281 + day && Date(2026, 6, day, 0).Valid()
            && YearOf(t) == 2026 && MonthOf(t) == 6 && DayOf(t) == day
  {
    hide MonthStart, YearOf, MonthOf, DayOf;
    AnchorDays();
    TimeRoundTrip(2026, 6, day);
  }

  lemma Alone(n: string, token: Token)
    requires RendersToken(n, SAT_20_JUNE, token)
    ensures token.Ok? && Rendered(n, SAT_20_JUNE) == token.text
  {
    hide Renders, Rendered;
    RendersAlone(n, SAT_20_JUNE, token.text);
  }

  lemma DaysOfTheDay(def: TaskDefinition)
    ensures Rendered("{{current_date}}", SAT_20_JUNE) == "2026-06-20"
    ensures Rendered("{{next_sat_date}}", SAT_20_JUNE) == "2026-06-20"
    ensures Rendered("{{next_sun_date}}", SAT_20_JUNE) == "2026-06-21"
  {
    hide Build, RendersToken, Renders, Rendered, FmtDate, MakeTime, YearOf, MonthOf, DayOf;
    Days();
    June(20);
    June(21);
    NamesRenderTokens(def, SAT_20_JUNE);
    TokenText(WithCadence(def, Daily, 0), SAT_20_JUNE, SAT_20_JUNE);
    Alone("{{current_date}}", Build(WithCadence(def, Daily, 0), SAT_20_JUNE));
    NamesRenderNextDays(SAT_20_JUNE, 9301);
    NamesRenderNextDays(SAT_20_JUNE, 9302);
    RendersAlone("{{next_sat_date}}", SAT_20_JUNE, FmtDateOf(9301));
    RendersAlone("{{next_sun_date}}", SAT_20_JUNE, FmtDateOf(9302));
  }

  lemma WeeksOfTheDay(def: TaskDefinition)
    ensures Rendered("{{current_week}}", SAT_20_JUNE) == "2026W25"
    ensures Rendered("{{next_week}}", SAT_20_JUNE) == "2026W26"
  {
    hide Build, RendersToken, Renders, Rendered, FmtIsoWeek, MakeTime, FirstWeek;
    Days();
    June(20);
    June(27);
    AnchorDays();
    var next := Date(2026, 6, 27, 0);
    NamesRenderTokens(def, SAT_20_JUNE);
    NameRendersNextWeek(def, SAT_20_JUNE, next);
    WeekTokenText(WithCadence(def, Weekly, 0), SAT_20_JUNE, 2026, 25);
    WeekTokenText(WithCadence(def, Weekly, 0), next, 2026, 26);
    Alone("{{current_week}}", Build(WithCadence(def, Weekly, 0), SAT_20_JUNE));
    Alone("{{next_week}}", Build(WithCadence(def, Weekly, 0), next));
  }

  lemma MonthsOfTheDay(def: TaskDefinition)
    ensures Rendered("{{current_month}}", SAT_20_JUNE) == "2026-06"
    ensures Rendered("{{next_month}}", SAT_20_JUNE) == "2026-07"
    ensures Rendered("{{last_month}}", SAT_20_JUNE) == "2026-05"
  {
    hide Build, RendersToken, Renders, Rendered, FmtMonthYear, MakeTime;
    Months();
    NamesRenderTokens(def, SAT_20_JUNE);
    TokenText(WithCadence(def, Monthly, 0), SAT_20_JUNE, SAT_20_JUNE);
    TokenText(WithCadence(def, Monthly, 1), SAT_20_JUNE, Date(2026, 7, 1, 0));
    TokenText(WithCadence(def, Monthly, -1), SAT_20_JUNE, Date(2026, 5, 1, 0));
    Alone("{{current_month}}", Build(WithCadence(def, Monthly, 0), SAT_20_JUNE));
    Alone("{{next_month}}", Build(WithCadence(def, Monthly, 1), SAT_20_JUNE));
    Alone("{{last_month}}", Build(WithCadence(def, Monthly, -1), SAT_20_JUNE));
  }

  lemma YearsOfTheDay(def: TaskDefinition)
    ensures Rendered("{{current_quarter}}", SAT_20_JUNE) == "2026Q2"
    ensures Rendered("{{last_quarter}}", SAT_20_JUNE) == "2026Q1"
    ensures Rendered("{{current_year}}", SAT_20_JUNE) == "2026"
    ensures Rendered("{{next_year}}", SAT_20_JUNE) == "2027"
    ensures Rendered("{{last_year}}", SAT_20_JUNE) == "2025"
  {
    hide Build, RendersToken, Renders, Rendered, FmtQuarter, FmtYear, MakeTime;
    Years();
    NamesRenderTokens(def, SAT_20_JUNE);
    TokenText(WithCadence(def, Quarterly, 0), SAT_20_JUNE, SAT_20_JUNE);
    TokenText(WithCadence(def, Quarterly, -1), SAT_20_JUNE, Date(2026, 3, 1, 0));
    TokenText(WithCadence(def, Yearly, 0), SAT_20_JUNE, SAT_20_JUNE);
    TokenText(WithCadence(def, Yearly, 1), SAT_20_JUNE, Date(2027, 1, 1, 0));
    TokenText(WithCadence(def, Yearly, -1), SAT_20_JUNE, Date(2025, 1, 1, 0));
    Alone("{{current_quarter}}", Build(WithCadence(def, Quarterly, 0), SAT_20_JUNE));
    Alone("{{last_quarter}}", Build(WithCadence(def, Quarterly, -1), SAT_20_JUNE));
    Alone("{{current_year}}", Build(WithCadence(def, Yearly, 0), SAT_20_JUNE));
    Alone("{{next_year}}", Build(WithCadence(def, Yearly, 1), SAT_20_JUNE));
    Alone("{{last_year}}", Build(WithCadence(def, Yearly, -1), SAT_20_JUNE));
  }

  /** Saturday 20 June 2026, the example column of the documented table. */
  lemma TableOfTheDay(def: TaskDefinition)
    ensures Rendered("{{current_date}}", SAT_20_JUNE) == "2026-06-20"
    ensures Rendered("{{next_sat_date}}", SAT_20_JUNE) == "2026-06-20"
    ensures Rendered("{{next_sun_date}}", SAT_20_JUNE) == "2026-06-21"
    ensures Rendered("{{current_week}}", SAT_20_JUNE) == "2026W25"
    ensures Rendered("{{next_week}}", SAT_20_JUNE) == "2026W26"
    ensures Rendered("{{current_month}}", SAT_20_JUNE) == "2026-06"
    ensures Rendered("{{next_month}}", SAT_20_JUNE) == "2026-07"
    ensures Rendered("{{last_month}}", SAT_20_JUNE) == "2026-05"
    ensures Rendered("{{current_quarter}}", SAT_20_JUNE) == "2026Q2"
    ensures Rendered("{{last_quarter}}", SAT_20_JUNE) == "2026Q1"
    ensures Rendered("{{current_year}}", SAT_20_JUNE) == "2026"
    ensures Rendered("{{next_year}}", SAT_20_JUNE) == "2027"
    ensures Rendered("{{last_year}}", SAT_20_JUNE) == "2025"
  {
    DaysOfTheDay(def);
    WeeksOfTheDay(def);
    MonthsOfTheDay(def);
    YearsOfTheDay(def);
  }

  // ---------------------------------------------------------------- a weekday schedule

  const DAYS: TriggerObject := TriggerObject("Weekday", None, Some(["Mon", "Wednesday", "Fri"]), None, None, None, None)

  lemma ThreeDays()
    ensures Admitted(DAYS) && Listed(DAYS) == ["Mon", "Wednesday", "Fri"] && DAYS.recurrence == "Weekday"
    ensures FirstThree("Mon") == "Mon" && FirstThree("Wednesday") == "Wed" && FirstThree("Fri") == "Fri"
    ensures WeekdayByName("Mon") == Some(1) && WeekdayByName("Wednesday") == Some(3) && WeekdayByName("Fri") == Some(5)
  {
    AdmittedExactly(DAYS);
    hide Admitted;
  }

  lemma WeekTexts()
    ensures "2026W25" + "-" + "mon" == "2026W25-mon" && "2026W25" + "-" + "wed" == "2026W25-wed"
    ensures "2026W25" + "-" + "fri" == "2026W25-fri" && "2026W26" + "-" + "mon" == "2026W26-mon"
  {
  }

  lemma JuneDay(i: nat, day: int, week: int)
    requires i < 3 && 15 <= day <= 28 && week == 25 + (day - 15) / 7 && (day - 15) % 7 == 2 * i
    ensures WeekdayOf(9281 + day) == 2 * i + 1 && WeekIndex(9281 + day) == 1303 + week && 1303 + week < 1357
  {
    var late := (day - 15) / 7;
    assert 9281 + day == 7 * (1328 + late) + 2 * i;
  }

  lemma JuneWeek(name: string, i: nat, day: int, week: int)
    requires i < 3 && 15 <= day <= 28 && week == 25 + (day - 15) / 7 && (day - 15) % 7 == 2 * i
    requires WeekdayByName(name) == Some(2 * i + 1)
    ensures var date := Date(2026, 6, day, 0);
            && date.Valid() && DayIs(name, date)
            && WeekIndex(date.Time()) == FirstWeek(2026) + week - 1 && WeekIndex(date.Time()) < FirstWeek(2027)
  {
    hide MakeTime, FirstWeek, WeekdayByName, WeekdayOf, WeekIndex, YearOf, MonthOf, DayOf, DateOf;
    JuneDay(i, day, week);
    AnchorDays();
    June(day);
  }

  lemma NamedDay(i: nat)
    requires i < 3
    ensures WeekdayByName(["Mon", "Wednesday", "Fri"][i]) == Some(2 * i + 1)
  {
    ThreeDays();
    hide WeekdayByName, DAYS;
    assert i == 0 || i == 1 || i == 2;
  }

  lemma OneDay(cr: ScheduleCR, i: nat, day: int, week: int)
    requires cr.trigger == Decode(DAYS) && i < 3 && 1 <= day <= 28 && week == 25 + (day - 15) / 7
    requires 15 <= day && (day - 15) % 7 == 2 * i
    ensures Adaptable(cr)
    ensures Build(AdaptedDefinition(cr), Date(2026, 6, day, 0))
         == Token.Ok(FmtIsoWeek(2026, week) + "-" + ToLower(FirstThree(["Mon", "Wednesday", "Fri"][i])))
  {
    hide Admitted, Adaptable, AdaptedDefinition, Build, FmtIsoWeek, MakeTime, FirstWeek, ToLower, FirstThree,
         WeekdayByName, Decode, WeekIndex, WeekdayOf, DayIs, Date.Valid, Listed, DAYS;
    ThreeDays();
    NamedDay(i);
    JuneWeek(["Mon", "Wednesday", "Fri"][i], i, day, week);
    AdmittedWeekToken(cr, DAYS, Date(2026, 6, day, 0), 2026, week);
  }

  /** Monday, Wednesday and Friday of 2026W25, and the Monday after; the names are listed in both spellings. */
  lemma WeekdayTokens(cr: ScheduleCR)
    requires cr.trigger == Decode(DAYS)
    ensures Adaptable(cr)
    ensures var def := AdaptedDefinition(cr);
            && Build(def, Date(2026, 6, 15, 0)) == Token.Ok("2026W25-mon")
            && Build(def, Date(2026, 6, 17, 0)) == Token.Ok("2026W25-wed")
            && Build(def, Date(2026, 6, 19, 0)) == Token.Ok("2026W25-fri")
            && Build(def, Date(2026, 6, 22, 0)) == Token.Ok("2026W26-mon")
  {
    hide Adaptable, AdaptedDefinition, Build, FmtIsoWeek, ToLower, FirstThree, Decode, Admitted, WeekdayByName, Listed;
    ThreeDays();
    Days();
    LowerDays();
    WeekTexts();
    OneDay(cr, 0, 15, 25);
    OneDay(cr, 1, 17, 25);
    OneDay(cr, 2, 19, 25);
    OneDay(cr, 0, 22, 26);
  }

  // ---------------------------------------------------------------- the monthly review

  const REVIEW: TriggerObject := TriggerObject("Monthly", None, None, Some(-1), None, None, None)

  lemma ReviewAdmitted()
    ensures Admitted(REVIEW) && Offset(REVIEW) == -1 && REVIEW.recurrence == "Monthly"
  {
    AdmittedExactly(REVIEW);
    hide Admitted;
  }

  lemma PlainTitle()
    ensures '{' !in "Review Month" && !IsSpace("Review Month"[0]) && !IsSpace("Review Month"[|"Review Month"| - 1])
  {
  }

  lemma TitleStays(date: Date)
    ensures TrimSpace(Rendered("Review Month", date)) == "Review Month"
  {
    hide TrimSpace, Rendered, IsSpace;
    PlainTitle();
    PlainText("Review Month", date);
    NothingToTrim("Review Month");
  }

  lemma ReviewOn(cr: ScheduleCR, date: Date, month: Date)
    requires cr.trigger == Decode(REVIEW) && cr.name == "monthly-review" && cr.title == "Review Month"
    requires date.Valid() && month.Valid() && 12 * month.year + month.month == 12 * date.year + date.month - 1
    ensures Adaptable(cr) && Prepare(AdaptedDefinition(cr), date).Ready?
    ensures var c, token := Prepare(AdaptedDefinition(cr), date).command, FmtMonthYear(month.year, month.month);
            && c.identifierName == "recurring-" + "monthly-review" + "-" + token
            && c.title == "Review Month" + " - " + token
  {
    hide Admitted, Adaptable, AdaptedDefinition, Build, Prepare, Fires, Rendered, FmtMonthYear, TrimSpace, Decode,
         MakeTime;
    ReviewAdmitted();
    AdmittedFires(cr, REVIEW, date);
    AdmittedToken(cr, REVIEW, date, month);
    AdmittedCommand(cr, REVIEW, date);
    TitleStays(date);
  }

  lemma ReviewNames()
    ensures "recurring-" + "monthly-review" + "-" + "2026-06" == "recurring-monthly-review-2026-06"
    ensures "recurring-" + "monthly-review" + "-" + "2026-07" == "recurring-monthly-review-2026-07"
  {
  }

  lemma ReviewTitles()
    ensures "Review Month" + " - " + "2026-06" == "Review Month - 2026-06"
    ensures "Review Month" + " - " + "2026-07" == "Review Month - 2026-07"
  {
  }

  lemma LastMonthOn(def: TaskDefinition, date: Date, month: Date)
    requires date.Valid() && month.Valid() && 12 * month.year + month.month == 12 * date.year + date.month - 1
    ensures Rendered("{{last_month}}", date) == FmtMonthYear(month.year, month.month)
  {
    hide Build, Renders, Rendered, FmtMonthYear, Date.Valid;
    NamesRenderTokens(def, date);
    TokenText(WithCadence(def, Monthly, -1), date, month);
    RendersAlone("{{last_month}}", date, FmtMonthYear(month.year, month.month));
  }

  /** The documented review schedule: with offset -1 the task of every day in July is named after June, and that of
      every day in August after July, and on each of these days `{{last_month}}` in its texts is the same month. */
  lemma MonthlyReview(cr: ScheduleCR, july: Date, august: Date)
    requires cr.trigger == Decode(REVIEW) && cr.name == "monthly-review" && cr.title == "Review Month"
    requires july.Valid() && july.year == 2026 && july.month == 7
    requires august.Valid() && august.year == 2026 && august.month == 8
    ensures Adaptable(cr)
    ensures var def := AdaptedDefinition(cr);
            && Prepare(def, july).Ready? && Prepare(def, august).Ready?
            && Prepare(def, july).command.identifierName == "recurring-monthly-review-2026-06"
            && Prepare(def, july).command.title == "Review Month - 2026-06"
            && Prepare(def, august).command.identifierName == "recurring-monthly-review-2026-07"
            && Prepare(def, august).command.title == "Review Month - 2026-07"
    ensures Rendered("{{last_month}}", july) == "2026-06" && Rendered("{{last_month}}", august) == "2026-07"
  {
    hide Adaptable, AdaptedDefinition, Prepare, FmtMonthYear, Decode, Rendered;
    Months();
    ReviewNames();
    ReviewTitles();
    ReviewOn(cr, july, Date(2026, 6, 1, 0));
    ReviewOn(cr, august, Date(2026, 7, 1, 0));
    LastMonthOn(AdaptedDefinition(cr), july, Date(2026, 6, 1, 0));
    LastMonthOn(AdaptedDefinition(cr), august, Date(2026, 7, 1, 0));
  }
}
