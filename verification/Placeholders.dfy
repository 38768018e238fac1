/** The closed table of placeholders, and rendering with it. */
module Placeholders {
  import opened Calendar
  import opened Formats
  import opened Schedule
  import opened PeriodToken
  import opened Renderer

  const NAMES: seq<string> := [
    "{{current_date}}", "{{next_sat_date}}", "{{next_sun_date}}",
    "{{current_week}}", "{{next_week}}",
    "{{current_month}}", "{{next_month}}", "{{last_month}}",
    "{{current_quarter}}", "{{last_quarter}}",
    "{{current_year}}", "{{next_year}}", "{{last_year}}"]

  // ---------------------------------------------------------------- compute functions

  /** Go's `%` of a positive number. */
  function NextWeekday(base: Time, target: DayOfWeek): Time {
    AddDate(base, 0, 0, (target - WeekdayOf(base) + 7) % 7)
  }

  function FirstOfNextMonth(base: Time): Time {
    AddDate(MakeTime(YearOf(base), MonthOf(base), 1), 0, 1, 0)
  }

  function FirstOfPreviousMonth(base: Time): Time {
    AddDate(MakeTime(YearOf(base), MonthOf(base), 1), 0, -1, 0)
  }

  function PreviousQuarter(year: int, month: int): (int, int) {
    var q := (month - 1) / 3 + 1;
    if q == 1 then (year - 1, 4) else (year, q - 1)
  }

  function FmtMonthYearOf(t: Time): string {
    FmtMonthYear(YearOf(t), MonthOf(t))
  }

  function CurrentDate(d: Date): string { FmtDate(d.year, d.month, d.day) }

  function NextSatDate(d: Date): string { FmtDateOf(NextWeekday(d.Time(), SATURDAY)) }

  function NextSunDate(d: Date): string { FmtDateOf(NextWeekday(d.Time(), SUNDAY)) }

  function CurrentWeek(d: Date): string { FmtIsoWeekOf(d.Time()) }

  function NextWeek(d: Date): string { FmtIsoWeekOf(AddDate(d.Time(), 0, 0, 7)) }

  function CurrentMonth(d: Date): string { FmtMonthYearOf(d.Time()) }

  function NextMonth(d: Date): string { FmtMonthYearOf(FirstOfNextMonth(d.Time())) }

  function LastMonth(d: Date): string { FmtMonthYearOf(FirstOfPreviousMonth(d.Time())) }

  function CurrentQuarter(d: Date): string { FmtQuarter(YearOf(d.Time()), QuarterOf(MonthOf(d.Time()))) }

  function LastQuarter(d: Date): string {
    var (year, q) := PreviousQuarter(YearOf(d.Time()), MonthOf(d.Time()));
    FmtQuarter(year, q)
  }

  function CurrentYear(d: Date): string { FmtYear(YearOf(d.Time())) }

  function NextYear(d: Date): string { FmtYear(YearOf(d.Time()) + 1) }

  function LastYear(d: Date): string { FmtYear(YearOf(d.Time()) - 1) }

  function Values(d: Date): (values: seq<string>)
    ensures |values| == |NAMES|
  {
    [CurrentDate(d), NextSatDate(d), NextSunDate(d),
     CurrentWeek(d), NextWeek(d),
     CurrentMonth(d), NextMonth(d), LastMonth(d),
     CurrentQuarter(d), LastQuarter(d),
     CurrentYear(d), NextYear(d), LastYear(d)]
  }

  function Table(d: Date): (table: seq<Placeholder>)
    ensures |table| == |NAMES|
  {
    seq(|NAMES|, i requires 0 <= i < |NAMES| => Placeholder(NAMES[i], Values(d)[i]))
  }

  // ---------------------------------------------------------------- the table is good on every date

  lemma DayNames()
    ensures IsName(NAMES[0]) && IsName(NAMES[1]) && IsName(NAMES[2])
  {
  }

  lemma WeekNames()
    ensures IsName(NAMES[3]) && IsName(NAMES[4])
  {
  }

  lemma MonthNames()
    ensures IsName(NAMES[5]) && IsName(NAMES[6]) && IsName(NAMES[7])
  {
  }

  lemma QuarterNames()
    ensures IsName(NAMES[8]) && IsName(NAMES[9])
  {
  }

  lemma YearNames()
    ensures IsName(NAMES[10]) && IsName(NAMES[11]) && IsName(NAMES[12])
  {
  }

  lemma NamesAreNames()
    ensures forall i :: 0 <= i < |NAMES| ==> IsName(NAMES[i])
  {
    DayNames();
    WeekNames();
    MonthNames();
    QuarterNames();
    YearNames();
    hide IsName;
  }

  /** A mark that no two names share: their length and three of their letters. */
  lemma NamesAreDistinct()
    ensures forall i, j :: 0 <= i < j < |NAMES| ==> NAMES[i] != NAMES[j]
  {
    var mark := (n: string) => if |n| < 12 then (0, ' ', ' ', ' ') else (|n|, n[2], n[|n| - 3], n[9]);
    assert forall i :: 0 <= i < |NAMES| ==> mark(NAMES[i]) == [
        (16, 'c', 'e', '_'), (17, 'n', 'e', 't'), (17, 'n', 'e', 'n'), (16, 'c', 'k', '_'), (13, 'n', 'k', 'e'),
        (17, 'c', 'h', '_'), (14, 'n', 'h', 'n'), (14, 'l', 'h', 'n'), (19, 'c', 'r', '_'), (16, 'l', 'r', 'a'),
        (16, 'c', 'r', '_'), (13, 'n', 'r', 'a'), (13, 'l', 'r', 'a')][i];
  }

  lemma NumberIsValue(n: int, width: nat)
    requires 1 <= width
    ensures IsValue(FmtInt(n, width))
  {
    IntRoundTrip(n, width);
    var s := FmtInt(n, width);
    forall c | c in s ensures IsValueChar(c) {
      var i :| 0 <= i < |s| && s[i] == c;
      if s[0] == '-' && i > 0 { assert c == s[1..][i - 1]; }
    }
  }

  lemma FormatsAreValues(year: int, month: int, day: int)
    ensures IsValue(FmtDate(year, month, day)) && IsValue(FmtMonthYear(year, month)) && IsValue(FmtIsoWeek(year, month))
    ensures IsValue(FmtQuarter(year, month)) && IsValue(FmtYear(year))
  {
    hide FmtInt;
    NumberIsValue(year, 4); NumberIsValue(year, 1); NumberIsValue(month, 2); NumberIsValue(month, 1);
    NumberIsValue(day, 2);
  }

  lemma ValuesAreValues(d: Date, i: nat)
    requires i < |NAMES|
    ensures IsValue(Values(d)[i])
  {
    hide IsValue, FmtDate, FmtMonthYear, FmtIsoWeek, FmtQuarter, FmtYear, ISOWeek, YearOf, MonthOf, DayOf, AddDate,
         MakeTime;
    forall y, m, day ensures IsValue(FmtDate(y, m, day)) { FormatsAreValues(y, m, day); }
    forall y, m ensures IsValue(FmtMonthYear(y, m)) { FormatsAreValues(y, m, 0); }
    forall y, m ensures IsValue(FmtIsoWeek(y, m)) { FormatsAreValues(y, m, 0); }
    forall y, m ensures IsValue(FmtQuarter(y, m)) { FormatsAreValues(y, m, 0); }
    forall y ensures IsValue(FmtYear(y)) { FormatsAreValues(y, 0, 0); }
  }

  lemma TableIsGood(d: Date)
    ensures GoodTable(Table(d))
  {
    hide Values, IsName, IsValue;
    NamesAreNames();
    NamesAreDistinct();
    forall i | 0 <= i < |NAMES| ensures IsValue(Values(d)[i]) { ValuesAreValues(d, i); }
  }

  // ---------------------------------------------------------------- rendering

  function Rendered(template: string, date: Date): string {
    Substitute(Table(date), template)
  }

  /** Thirteen sequential passes are one simultaneous substitution, on every template and date. */
  method Render(template: string, slug: string, date: Date) returns (out: string)
    ensures out == Rendered(template, date)
  {
    TableIsGood(date);
    out := ReplaceInOrder(Table(date), template);
  }

  lemma NoBraceAhead(n: string, s: string, i: nat)
    requires IsBraced(n) && '{' !in s && i <= |s|
    ensures !(n <= s[i..])
  {
    if i < |s| {
      assert s[i..][0] == s[i] && s[i] in s;
    }
  }

  /** A text without an opening brace is its own rendering. */
  lemma PlainText(s: string, date: Date)
    requires '{' !in s
    ensures Rendered(s, date) == s
  {
    hide GoodTable, Substitute, Values;
    TableIsGood(date);
    forall p, i | p in Table(date) && 0 <= i <= |s| ensures !(p.name <= s[i..]) {
      RowIsGood(Table(date), p);
      NoBraceAhead(p.name, s, i);
    }
    NothingToReplace(Table(date), s);
  }

  /** No supported placeholder is left anywhere in a rendered text. */
  lemma NoPlaceholderLeft(template: string, date: Date, i: nat, before: string, after: string)
    requires i < |NAMES|
    ensures Rendered(template, date) != before + NAMES[i] + after
  {
    hide GoodTable, Values, Substitute;
    TableIsGood(date);
    if Rendered(template, date) == before + NAMES[i] + after {
      assert Rendered(template, date)[|before|..] == NAMES[i] + after;
      NoNameLeft(Table(date), Table(date)[i], template, |before|);
    }
  }

  /** Rendering again, even for another date, changes nothing. */
  lemma RenderTwice(template: string, date: Date, other: Date)
    ensures Rendered(Rendered(template, date), other) == Rendered(template, date)
  {
    hide GoodTable, Values;
    TableIsGood(date);
    TableIsGood(other);
    forall q | q in Table(other) ensures exists p :: p in Table(date) && p.name == q.name {
      var i :| 0 <= i < |NAMES| && q == Table(other)[i];
      assert Table(date)[i].name == q.name;
    }
    RenderedIsFinal(Table(date), Table(other), template);
  }

  lemma SameNameSameRow(good: seq<Placeholder>, p: Placeholder, q: Placeholder)
    requires GoodTable(good) && p in good && q in good && p.name == q.name
    ensures p == q
  {
    var i :| 0 <= i < |good| && good[i] == p;
    var j :| 0 <= j < |good| && good[j] == q;
    assert i == j;
  }

  lemma OnceOnly(good: seq<Placeholder>, p: Placeholder)
    requires GoodTable(good)
    ensures multiset(good)[p] <= 1
  {
    if p in good {
      var i :| 0 <= i < |good| && good[i] == p;
      assert good == good[..i] + [p] + good[i + 1..];
      assert p !in good[..i] && p !in good[i + 1..];
    }
  }

  lemma Permuted(table: seq<Placeholder>, good: seq<Placeholder>)
    requires GoodTable(good) && multiset(table) == multiset(good)
    ensures GoodTable(table) && forall p :: p in table <==> p in good
  {
    forall p ensures p in table <==> p in good {
      assert p in table <==> p in multiset(table);
      assert p in good <==> p in multiset(good);
    }
    forall i, j | 0 <= i < j < |table| ensures table[i].name != table[j].name {
      if table[i].name == table[j].name {
        var p := table[i];
        SameNameSameRow(good, p, table[j]);
        assert table == table[..i] + [p] + table[i + 1..j] + [p] + table[j + 1..];
        assert multiset(table)[p] >= 2;
        OnceOnly(good, p);
      }
    }
  }

  /** The rows may stand in any order, for one reading and so for the passes: `ReplaceInOrder` accepts them as they are.
      */
  lemma RenderInAnyOrder(template: string, date: Date, table: seq<Placeholder>)
    requires multiset(table) == multiset(Table(date))
    ensures GoodTable(table) && Substitute(table, template) == Rendered(template, date)
  {
    TableIsGood(date);
    Permuted(table, Table(date));
    hide GoodTable;
    OrderIrrelevant(table, Table(date), template);
  }

  /** A supported name is replaced wherever it stands; any other `{{...}}` stays verbatim wherever it stands. */
  lemma RenderPlaceholder(a: string, n: string, b: string, date: Date)
    requires IsBraced(n)
    ensures forall i :: 0 <= i < |NAMES| && n == NAMES[i] ==>
              Rendered(a + n + b, date) == Rendered(a, date) + Values(date)[i] + Rendered(b, date)
    ensures n !in NAMES ==> Rendered(a + n + b, date) == Rendered(a, date) + n + Rendered(b, date)
  {
    hide GoodTable, Values, Substitute, IsBraced;
    TableIsGood(date);
    forall i | 0 <= i < |NAMES| && n == NAMES[i]
      ensures Rendered(a + n + b, date) == Rendered(a, date) + Values(date)[i] + Rendered(b, date)
    {
      SupportedIsReplaced(Table(date), a, Table(date)[i], b);
    }
    if n !in NAMES {
      forall p | p in Table(date) ensures p.name != n {
        var i :| 0 <= i < |NAMES| && p == Table(date)[i];
        assert NAMES[i] in NAMES;
      }
      UnknownIsVerbatim(Table(date), a, n, b);
    }
  }

  // ---------------------------------------------------------------- placeholders agree with tokens

  function WithCadence(def: TaskDefinition, kind: RecurrenceKind, offset: int): TaskDefinition {
    def.(recurrence := kind, periodOffset := offset)
  }

  lemma DayAndWeekTokens(def: TaskDefinition, d: Date)
    ensures Build(WithCadence(def, Daily, 0), d) == Ok(CurrentDate(d))
    ensures Build(WithCadence(def, Weekly, 0), d) == Ok(CurrentWeek(d))
  {
  }

  lemma MonthTokens(def: TaskDefinition, d: Date, offset: int)
    requires d.Valid()
    ensures Build(WithCadence(def, Monthly, offset), d) == Ok(FmtMonthYearOf(MonthStart(MonthIndex(d.Time()) + offset)))
    ensures Build(WithCadence(def, Monthly, 0), d) == Ok(FmtMonthYearOf(d.Time()))
  {
    hide FmtInt, MonthStart, MonthIndex, Build, MakeTime;
    BuildNamesPeriod(WithCadence(def, Monthly, offset), d);
    BuildNamesPeriod(WithCadence(def, Monthly, 0), d);
    FirstOfMonth(MonthIndex(d.Time()) + offset);
  }

  lemma MonthStarts(t: Time)
    ensures FirstOfNextMonth(t) == MonthStart(MonthIndex(t) + 1)
            && FirstOfPreviousMonth(t) == MonthStart(MonthIndex(t) - 1)
  {
    hide MonthStart, MonthIndex;
    AddMonths(MonthIndex(t), 0, 1);
    AddMonths(MonthIndex(t), 0, -1);
  }

  lemma MonthPlaceholders(def: TaskDefinition, d: Date)
    requires d.Valid()
    ensures Build(WithCadence(def, Monthly, 0), d) == Ok(CurrentMonth(d))
    ensures Build(WithCadence(def, Monthly, 1), d) == Ok(NextMonth(d))
    ensures Build(WithCadence(def, Monthly, -1), d) == Ok(LastMonth(d))
  {
    hide Build, FmtMonthYearOf, FirstOfNextMonth, FirstOfPreviousMonth, MonthStart, MonthIndex, MakeTime;
    MonthTokens(def, d, 1);
    MonthTokens(def, d, -1);
    MonthStarts(d.Time());
  }

  lemma QuarterTokens(def: TaskDefinition, d: Date, offset: int)
    requires d.Valid()
    ensures var q := MonthIndex(d.Time()) / 3 + offset;
            Build(WithCadence(def, Quarterly, offset), d) == Ok(FmtQuarter(q / 4, q % 4 + 1))
  {
    hide FmtInt, MonthStart, MonthIndex, Build, MakeTime;
    BuildNamesPeriod(WithCadence(def, Quarterly, offset), d);
  }

  lemma QuarterBefore(k: int)
    ensures (k / 3) / 4 == k / 12 && (k / 3) % 4 + 1 == QuarterOf(k % 12 + 1)
    ensures PreviousQuarter(k / 12, k % 12 + 1) == ((k / 3 - 1) / 4, (k / 3 - 1) % 4 + 1)
  {
    QuartersOfMonths(k, 0);
  }

  lemma QuarterPlaceholders(def: TaskDefinition, d: Date)
    requires d.Valid()
    ensures Build(WithCadence(def, Quarterly, 0), d) == Ok(CurrentQuarter(d))
    ensures Build(WithCadence(def, Quarterly, -1), d) == Ok(LastQuarter(d))
  {
    hide Build, FmtInt, FmtQuarter, MonthIndex, MonthStart, MakeTime, QuarterOf, PreviousQuarter;
    QuarterTokens(def, d, 0);
    QuarterTokens(def, d, -1);
    QuarterBefore(MonthIndex(d.Time()));
  }

  lemma YearTokens(def: TaskDefinition, d: Date, offset: int)
    requires d.Valid()
    ensures Build(WithCadence(def, Yearly, offset), d) == Ok(FmtYear(YearOf(d.Time()) + offset))
  {
    hide FmtInt, MonthStart, MonthIndex, Build, MakeTime;
    BuildNamesPeriod(WithCadence(def, Yearly, offset), d);
  }

  /** The value of each period placeholder is the token a definition of that kind has at offset 0, -1 or +1,
      although months are shifted by `AddDate` here and quarters by a case split. */
  lemma PlaceholdersAreTokens(def: TaskDefinition, d: Date)
    requires d.Valid()
    ensures Build(WithCadence(def, Daily, 0), d) == Ok(CurrentDate(d))
    ensures Build(WithCadence(def, Weekly, 0), d) == Ok(CurrentWeek(d))
    ensures Build(WithCadence(def, Monthly, 0), d) == Ok(CurrentMonth(d))
    ensures Build(WithCadence(def, Monthly, 1), d) == Ok(NextMonth(d))
    ensures Build(WithCadence(def, Monthly, -1), d) == Ok(LastMonth(d))
    ensures Build(WithCadence(def, Quarterly, 0), d) == Ok(CurrentQuarter(d))
    ensures Build(WithCadence(def, Quarterly, -1), d) == Ok(LastQuarter(d))
    ensures Build(WithCadence(def, Yearly, 0), d) == Ok(CurrentYear(d))
    ensures Build(WithCadence(def, Yearly, 1), d) == Ok(NextYear(d))
    ensures Build(WithCadence(def, Yearly, -1), d) == Ok(LastYear(d))
  {
    hide Build, FmtInt, YearOf, CurrentDate, CurrentWeek, CurrentMonth, NextMonth, LastMonth, CurrentQuarter,
         LastQuarter;
    DayAndWeekTokens(def, d);
    MonthPlaceholders(def, d);
    QuarterPlaceholders(def, d);
    YearTokens(def, d, 0);
    YearTokens(def, d, 1);
    YearTokens(def, d, -1);
  }

  /** The named weekday that comes first, today included. */
  lemma NextWeekdayIsLeast(base: Time, target: DayOfWeek, t: Time)
    ensures var next := NextWeekday(base, target);
            base <= next <= base + 6 && WeekdayOf(next) == target
            && (base <= t && WeekdayOf(t) == target ==> next <= t)
  {
    hide AddDate;
    AddDays(base, (target - WeekdayOf(base) + 7) % 7);
  }

  /** `{{next_week}}` is the week token of exactly the seven dates after the current ISO week. */
  lemma NextWeekIsNext(d: Date, other: Date)
    ensures CurrentWeek(other) == NextWeek(d) <==> WeekIndex(other.Time()) == WeekIndex(d.Time()) + 1
  {
    hide FmtIsoWeekOf, AddDate;
    AddDays(d.Time(), 7);
    WeekNamesDiffer(other.Time(), d.Time() + 7);
  }

  // ---------------------------------------------------------------- what each name renders

  /** Wherever the name stands in a template, the value stands in the output, between its rendered surroundings. */
  ghost predicate Renders(n: string, d: Date, value: string) {
    forall a, b :: Rendered(a + n + b, d) == Rendered(a, d) + value + Rendered(b, d)
  }

  lemma RendersAlone(n: string, d: Date, value: string)
    requires Renders(n, d, value)
    ensures Rendered(n, d) == value
  {
    assert "" + n + "" == n && Rendered("", d) == "";
    hide Rendered;
    assert Rendered("" + n + "", d) == Rendered("", d) + value + Rendered("", d);
  }

  lemma RowRenders(i: nat, d: Date)
    requires i < |NAMES|
    ensures Renders(NAMES[i], d, Values(d)[i])
  {
    NamesAreNames();
    hide Rendered, Values, IsBraced;
    assert IsName(NAMES[i]);
    forall a, b ensures Rendered(a + NAMES[i] + b, d) == Rendered(a, d) + Values(d)[i] + Rendered(b, d) {
      RenderPlaceholder(a, NAMES[i], b, d);
    }
  }

  ghost predicate RendersToken(n: string, d: Date, token: Token) {
    token.Ok? && Renders(n, d, token.text)
  }

  lemma ValuesInPlace(d: Date)
    ensures var v := Values(d);
            && v[0] == CurrentDate(d) && v[1] == NextSatDate(d) && v[2] == NextSunDate(d) && v[3] == CurrentWeek(d)
            && v[4] == NextWeek(d) && v[5] == CurrentMonth(d) && v[6] == NextMonth(d) && v[7] == LastMonth(d)
            && v[8] == CurrentQuarter(d) && v[9] == LastQuarter(d)
            && v[10] == CurrentYear(d) && v[11] == NextYear(d) && v[12] == LastYear(d)
  {
    hide CurrentDate, NextSatDate, NextSunDate, CurrentWeek, NextWeek, CurrentMonth, NextMonth, LastMonth,
         CurrentQuarter, LastQuarter, CurrentYear, NextYear, LastYear;
  }

  lemma NamesInPlace()
    ensures NAMES[1] == "{{next_sat_date}}" && NAMES[2] == "{{next_sun_date}}" && NAMES[4] == "{{next_week}}"
    ensures NAMES[0] == "{{current_date}}" && NAMES[3] == "{{current_week}}" && NAMES[5] == "{{current_month}}"
    ensures NAMES[6] == "{{next_month}}" && NAMES[7] == "{{last_month}}" && NAMES[8] == "{{current_quarter}}"
    ensures NAMES[9] == "{{last_quarter}}" && NAMES[10] == "{{current_year}}" && NAMES[11] == "{{next_year}}"
    ensures NAMES[12] == "{{last_year}}" && |NAMES| == 13
  {
  }

  lemma RowOf(i: nat, n: string, d: Date, value: string)
    requires i < |NAMES| && NAMES[i] == n && Values(d)[i] == value
    ensures Renders(n, d, value)
  {
    hide Renders, Values;
    RowRenders(i, d);
  }

  /** Each period name renders the token that a definition of that cadence and offset has on the date. */
  lemma NamesRenderTokens(def: TaskDefinition, d: Date)
    requires d.Valid()
    ensures RendersToken("{{current_date}}", d, Build(WithCadence(def, Daily, 0), d))
    ensures RendersToken("{{current_week}}", d, Build(WithCadence(def, Weekly, 0), d))
    ensures RendersToken("{{current_month}}", d, Build(WithCadence(def, Monthly, 0), d))
    ensures RendersToken("{{next_month}}", d, Build(WithCadence(def, Monthly, 1), d))
    ensures RendersToken("{{last_month}}", d, Build(WithCadence(def, Monthly, -1), d))
    ensures RendersToken("{{current_quarter}}", d, Build(WithCadence(def, Quarterly, 0), d))
    ensures RendersToken("{{last_quarter}}", d, Build(WithCadence(def, Quarterly, -1), d))
    ensures RendersToken("{{current_year}}", d, Build(WithCadence(def, Yearly, 0), d))
    ensures RendersToken("{{next_year}}", d, Build(WithCadence(def, Yearly, 1), d))
    ensures RendersToken("{{last_year}}", d, Build(WithCadence(def, Yearly, -1), d))
  {
    hide NAMES, Build, Renders, Values, CurrentDate, CurrentWeek, CurrentMonth, NextMonth, LastMonth, CurrentQuarter,
         LastQuarter, CurrentYear, NextYear, LastYear;
    NamesInPlace();
    PlaceholdersAreTokens(def, d);
    ValuesInPlace(d);
    RowOf(0, "{{current_date}}", d, CurrentDate(d));
    RowOf(3, "{{current_week}}", d, CurrentWeek(d));
    RowOf(5, "{{current_month}}", d, CurrentMonth(d));
    RowOf(6, "{{next_month}}", d, NextMonth(d));
    RowOf(7, "{{last_month}}", d, LastMonth(d));
    RowOf(8, "{{current_quarter}}", d, CurrentQuarter(d));
    RowOf(9, "{{last_quarter}}", d, LastQuarter(d));
    RowOf(10, "{{current_year}}", d, CurrentYear(d));
    RowOf(11, "{{next_year}}", d, NextYear(d));
    RowOf(12, "{{last_year}}", d, LastYear(d));
  }

  lemma FirstSuchDay(base: Time, target: DayOfWeek, t: Time)
    requires base <= t && WeekdayOf(t) == target && forall u :: base <= u < t ==> WeekdayOf(u) != target
    ensures NextWeekday(base, target) == t
  {
    NextWeekdayIsLeast(base, target, t);
    hide NextWeekday;
  }

  lemma NextNames(d: Date)
    ensures Renders("{{next_sat_date}}", d, NextSatDate(d)) && Renders("{{next_sun_date}}", d, NextSunDate(d))
    ensures Renders("{{next_week}}", d, NextWeek(d))
  {
    hide NAMES, Renders, Values, NextSatDate, NextSunDate, NextWeek;
    NamesInPlace();
    ValuesInPlace(d);
    RowOf(1, "{{next_sat_date}}", d, NextSatDate(d));
    RowOf(2, "{{next_sun_date}}", d, NextSunDate(d));
    RowOf(4, "{{next_week}}", d, NextWeek(d));
  }

  /** `{{next_sat_date}}` and `{{next_sun_date}}` render the first Saturday and the first Sunday from the date on, the
      date itself included. */
  lemma NamesRenderNextDays(d: Date, t: Time)
    requires d.Valid() && d.Time() <= t
    ensures WeekdayOf(t) == SATURDAY && (forall u :: d.Time() <= u < t ==> WeekdayOf(u) != SATURDAY) ==>
              Renders("{{next_sat_date}}", d, FmtDateOf(t))
    ensures WeekdayOf(t) == SUNDAY && (forall u :: d.Time() <= u < t ==> WeekdayOf(u) != SUNDAY) ==>
              Renders("{{next_sun_date}}", d, FmtDateOf(t))
  {
    hide Renders, NextWeekday, WeekdayOf, FmtDateOf, MakeTime, ValidCivil;
    NextNames(d);
    if WeekdayOf(t) == SATURDAY && forall u :: d.Time() <= u < t ==> WeekdayOf(u) != SATURDAY {
      FirstSuchDay(d.Time(), SATURDAY, t);
    }
    if WeekdayOf(t) == SUNDAY && forall u :: d.Time() <= u < t ==> WeekdayOf(u) != SUNDAY {
      FirstSuchDay(d.Time(), SUNDAY, t);
    }
  }

  lemma OneValue(n: string, d: Date, v: string, w: string)
    requires Renders(n, d, v)
    ensures Renders(n, d, w) <==> v == w
  {
    RendersAlone(n, d, v);
    if Renders(n, d, w) { RendersAlone(n, d, w); }
  }

  lemma WeekName(d: Date, other: Date)
    ensures Renders("{{next_week}}", d, CurrentWeek(other)) <==> WeekIndex(other.Time()) == WeekIndex(d.Time()) + 1
  {
    hide Renders, CurrentWeek, NextSatDate, NextSunDate, NextWeek, WeekIndex, MakeTime;
    NextNames(d);
    NextWeekIsNext(d, other);
    OneValue("{{next_week}}", d, NextWeek(d), CurrentWeek(other));
  }

  /** `{{next_week}}` renders the week token of a date exactly if that date is in the following ISO week. */
  lemma NameRendersNextWeek(def: TaskDefinition, d: Date, other: Date)
    requires d.Valid() && other.Valid()
    ensures RendersToken("{{next_week}}", d, Build(WithCadence(def, Weekly, 0), other))
       <==> WeekIndex(other.Time()) == WeekIndex(d.Time()) + 1
  {
    hide Build, Renders, CurrentDate, CurrentWeek, WeekIndex, MakeTime, ValidCivil;
    DayAndWeekTokens(def, other);
    WeekName(d, other);
  }
}
