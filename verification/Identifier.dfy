/** The name an identifier is the UUID5 of, and the title of a task: what each of them determines. */
module Identifier {
  import opened Calendar
  import opened Formats
  import opened Schedule
  import opened PeriodToken

  /** The input of UUID5; the hash itself is not modelled. */
  function Name(slug: string, token: string): string {
    "recurring-" + slug + "-" + token
  }

  function Title(heading: string, token: string): string {
    heading + " - " + token
  }

  // ---------------------------------------------------------------- the shape of a token

  function MinLength(kind: RecurrenceKind): nat {
    match kind
    case Daily => 10
    case Hourly => 10
    case Weekly => 7
    case Weekday => 11
    case Monthly => 7
    case Quarterly => 3
    case _ => 4
  }

  /** Whether a token may have a hyphen `k` characters from its end, other than as its first character. */
  predicate MayHyphen(kind: RecurrenceKind, k: int) {
    match kind
    case Daily => k == 3 || k == 6
    case Weekday => k == 4
    case Monthly => k == 3
    case _ => false
  }

  /** The shape that every token of a kind has. */
  predicate Shaped(kind: RecurrenceKind, t: string) {
    && MinLength(kind) <= |t|
    && (forall i :: 1 <= i < |t| && t[i] == '-' ==> MayHyphen(kind, |t| - i))
    && (kind.Quarterly? <==> t[|t| - 2] == 'Q')
    && (kind.Weekly? <==> t[|t| - 3] == 'W')
    && (kind.Daily? || kind.Monthly? <==> t[|t| - 3] == '-')
    && (kind.Daily? ==> t[|t| - 6] == '-')
    && (IsDigit(t[|t| - 1]) <==> !kind.Weekday?)
    && ' ' !in t
  }

  /** A leading sign, then digits. */
  lemma NumberShape(n: int, width: nat)
    requires 1 <= width
    ensures var s := FmtInt(n, width);
            width <= |s| && (s[0] == '-' <==> n < 0) && ' ' !in s && IsDigit(s[|s| - 1])
            && (forall i :: 1 <= i < |s| ==> IsDigit(s[i])) && (n >= 0 ==> AllDigits(s))
  {
    IntRoundTrip(n, width);
    var s := FmtInt(n, width);
    assert n < 0 ==> 2 <= |s|;
    forall i | 1 <= i < |s| ensures IsDigit(s[i]) {
      if s[0] == '-' { assert s[i] == s[1..][i - 1]; }
    }
    assert s[0] == '-' || IsDigit(s[0]);
  }

  lemma HourShape(y: int, m: int, d: int, h: int)
    requires 0 <= m < 100 && 0 <= d < 100 && 0 <= h < 100
    ensures Shaped(Hourly, FmtHourToken(y, m, d, h))
  {
    hide FmtInt;
    NumberShape(y, 4); NumberShape(m, 2); NumberShape(d, 2); NumberShape(h, 2); TwoDigits(d); TwoDigits(h);
  }

  lemma WeekShape(y: int, w: int)
    requires 0 <= w < 100
    ensures Shaped(Weekly, FmtIsoWeek(y, w))
  {
    hide FmtInt;
    NumberShape(y, 4); NumberShape(w, 2); TwoDigits(w);
  }

  lemma WeekdayShape(week: string, w: DayOfWeek)
    requires Shaped(Weekly, week)
    ensures Shaped(Weekday, week + "-" + WeekdayAbbrev(w))
  {
    var u := WeekdayAbbrev(w);
    assert |u| == 3 && forall i :: 0 <= i < 3 ==> 'a' <= u[i] <= 'z';
    hide WeekdayAbbrev;
  }

  lemma MonthShape(y: int, m: int)
    requires 0 <= m < 100
    ensures Shaped(Monthly, FmtMonthYear(y, m))
  {
    hide FmtInt;
    NumberShape(y, 4); NumberShape(m, 2); TwoDigits(m);
  }

  lemma QuarterShape(y: int, q: int)
    requires 0 <= q < 10
    ensures Shaped(Quarterly, FmtQuarter(y, q))
  {
    hide FmtInt;
    NumberShape(y, 1); NumberShape(q, 1); OneDigit(q);
  }

  lemma DateShape(y: int, m: int, d: int)
    requires 0 <= m < 100 && 0 <= d < 100
    ensures Shaped(Daily, FmtDate(y, m, d))
  {
    hide FmtInt;
    NumberShape(y, 4); NumberShape(m, 2); NumberShape(d, 2); TwoDigits(m); TwoDigits(d);
  }

  lemma TokenShape(kind: RecurrenceKind, p: int)
    requires !kind.Other?
    ensures Shaped(kind, PeriodName(kind, p))
  {
    hide FmtInt, MonthIndex, MonthStart, ISOWeek, WeekdayAbbrev;
    match kind {
      case Hourly =>
        DaysDiffer(p / 24, p / 24);
        HourShape(YearOf(p / 24), MonthOf(p / 24), DayOf(p / 24), p % 24);
      case Weekly =>
        ISOWeekRange(7 * p);
        WeekShape(ISOWeek(7 * p).0, ISOWeek(7 * p).1);
      case Weekday =>
        ISOWeekRange(p);
        WeekShape(ISOWeek(p).0, ISOWeek(p).1);
        WeekdayShape(FmtIsoWeekOf(p), WeekdayOf(p));
      case Monthly =>
        MonthShape(p / 12, p % 12 + 1);
      case Quarterly =>
        QuarterShape(p / 4, p % 4 + 1);
      case Daily =>
        DaysDiffer(p, p);
        DateShape(YearOf(p), MonthOf(p), DayOf(p));
      case Yearly =>
        NumberShape(p, 4);
      case OnDate =>
        NumberShape(p, 4);
      case Other(_) =>
    }
  }

  // ---------------------------------------------------------------- tokens of different kinds

  /** Yearly and OnDate name the same periods, calendar years; every other kind has periods of its own. */
  function Unit(kind: RecurrenceKind): RecurrenceKind {
    if kind.OnDate? then Yearly else kind
  }

  /** Year `p` is written with the digits of hour `q`, whose own year needs no padding. */
  predicate YearLikeHour(p: int, q: int) {
    SpelledLikeHour(p, YearOf(q / 24), MonthOf(q / 24), DayOf(q / 24), q % 24)
  }

  /** The one way in which periods of two units share a token. */
  predicate SpelledAlike(kind: RecurrenceKind, p: int, kind': RecurrenceKind, p': int) {
    || (Unit(kind).Yearly? && kind'.Hourly? && YearLikeHour(p, p'))
    || (kind.Hourly? && Unit(kind').Yearly? && YearLikeHour(p', p))
  }

  lemma SameUnitSameName(kind: RecurrenceKind, p: int)
    ensures PeriodName(kind, p) == PeriodName(Unit(kind), p)
  {
  }

  lemma YearTokensAgainstHours(p: int, q: int)
    ensures PeriodName(Yearly, p) == PeriodName(Hourly, q) <==> YearLikeHour(p, q)
  {
    hide FmtYear, FmtHourToken, SpelledLikeHour, YearOf, MonthOf, DayOf;
    DaysDiffer(q / 24, q / 24);
    YearsAgainstHours(p, YearOf(q / 24), MonthOf(q / 24), DayOf(q / 24), q % 24);
  }

  /** Any other two units are told apart by the last characters. */
  lemma OtherKindsDiffer(kind: RecurrenceKind, p: int, kind': RecurrenceKind, p': int)
    requires !kind.Other? && !kind'.Other? && Unit(kind) != Unit(kind')
    requires !(Unit(kind).Yearly? && kind'.Hourly?) && !(kind.Hourly? && Unit(kind').Yearly?)
    ensures PeriodName(kind, p) != PeriodName(kind', p')
  {
    hide PeriodName;
    TokenShape(kind, p);
    TokenShape(kind', p');
  }

  /** Tokens of all kinds, with no bound on years, are equal exactly when unit and period are, or when one names
      a year and the other an hour with the very digits of that year. */
  lemma TokensOfAllKinds(kind: RecurrenceKind, p: int, kind': RecurrenceKind, p': int)
    requires !kind.Other? && !kind'.Other?
    ensures PeriodName(kind, p) == PeriodName(kind', p')
       <==> (Unit(kind) == Unit(kind') && p == p') || SpelledAlike(kind, p, kind', p')
  {
    hide PeriodName, YearLikeHour, Shaped;
    SameUnitSameName(kind, p);
    SameUnitSameName(kind', p');
    if Unit(kind) == Unit(kind') {
      PeriodNamesDiffer(Unit(kind), p, p');
    } else if Unit(kind).Yearly? && kind'.Hourly? {
      YearTokensAgainstHours(p, p');
    } else if kind.Hourly? && Unit(kind').Yearly? {
      YearTokensAgainstHours(p', p);
    } else {
      OtherKindsDiffer(kind, p, kind', p');
    }
  }

  lemma YearlyName(def: TaskDefinition, date: Date)
    requires def.recurrence.Yearly? && date.Valid()
    ensures PeriodName(def.recurrence, NamedPeriod(def, date)) == FmtYear(date.year + def.periodOffset)
  {
    hide MonthStart, MonthIndex;
    TimeRoundTrip(date.year, date.month, date.day);
  }

  lemma HourlyToken(def: TaskDefinition, date: Date)
    requires def.recurrence.Hourly?
    ensures Build(def, date) == Ok(FmtHourToken(date.year, date.month, date.day, date.hour))
  {
  }

  /** An offset that no rule forbids reaches such a year: a Yearly and an Hourly definition of one slug get one token.
      */
  lemma HugeOffsetLooksLikeAnHour(def: TaskDefinition)
    ensures var date := Date(2026, 9, 7, 13);
            date.Valid() && Build(def.(recurrence := Yearly, periodOffset := 2_026_088_687), date)
                            == Build(def.(recurrence := Hourly), date) == Ok("2026090713")
  {
    hide MonthStart, MonthIndex, FmtHourToken, FmtYear, PeriodName, NamedPeriod, MakeTime, Build;
    var date := Date(2026, 9, 7, 13);
    var yearly := def.(recurrence := Yearly, periodOffset := 2_026_088_687);
    BuildNamesPeriod(yearly, date);
    YearlyName(yearly, date);
    HourlyToken(def.(recurrence := Hourly), date);
    HourExample();
    YearsAgainstHours(2_026_090_713, 2026, 9, 7, 13);
  }

  // ---------------------------------------------------------------- decoding

  /** No token ends in a hyphen and another token, unless the hyphen is its own sign. */
  lemma NoTokenInside(kind: RecurrenceKind, t: string, kind': RecurrenceKind, t': string, x: string)
    requires Shaped(kind, t) && Shaped(kind', t') && t == x + "-" + t'
    ensures x == []
  {
    assert t[|x|] == '-';
    assert t[|t| - 1] == t'[|t'| - 1];
    assert t[|t| - 3] == t'[|t'| - 3];
  }

  lemma NamesSplit(slug: string, t: string, slug': string, t': string)
    ensures Name(slug, t) == Name(slug', t') && |t| == |t'| ==> slug == slug' && t == t'
    ensures slug == slug' + "-" && t' == "-" + t ==> Name(slug, t) == Name(slug', t')
    ensures slug' == slug + "-" && t == "-" + t' ==> Name(slug, t) == Name(slug', t')
  {
    var prefix := "recurring-";
    assert Name(slug, t) == prefix + (slug + ("-" + t)) && Name(slug', t') == prefix + (slug' + ("-" + t'));
    assert Name(slug, t)[|prefix|..] == slug + ("-" + t) && Name(slug', t')[|prefix|..] == slug' + ("-" + t');
    assert (slug + ("-" + t))[..|slug|] == slug && (slug + ("-" + t))[|slug| + 1..] == t;
    assert (slug' + ("-" + t'))[..|slug'|] == slug' && (slug' + ("-" + t'))[|slug'| + 1..] == t';
  }

  /** When the second token is the shorter one, the first ends in a hyphen and the second, and the second slug is longer
      by the rest. */
  lemma SplitName(slug: string, t: string, slug': string, t': string) returns (x: string)
    requires Name(slug, t) == Name(slug', t') && |t'| < |t|
    ensures t == x + "-" + t' && slug' == slug + "-" + x
  {
    x := t[..|t| - |t'| - 1];
    var prefix := "recurring-";
    var n := slug + "-" + t;
    assert Name(slug, t)[|prefix|..] == n && Name(slug', t')[|prefix|..] == slug' + "-" + t';
    assert n[|n| - |t'|..] == t' && t[|t| - |t'|..] == n[|n| - |t'|..];
    assert n[|n| - |t'| - 1] == '-' && n[|n| - |t'| - 1] == t[|t| - |t'| - 1];
    assert slug' == n[..|n| - |t'| - 1];
  }

  /** Two names are equal exactly when slug and token are, or when one slug ends in the hyphen that is the other token's
      sign. */
  lemma NamesEqual(slug: string, kind: RecurrenceKind, t: string, slug': string, kind': RecurrenceKind, t': string)
    requires Shaped(kind, t) && Shaped(kind', t')
    ensures Name(slug, t) == Name(slug', t')
       <==> || (slug == slug' && t == t')
            || (slug == slug' + "-" && t' == "-" + t)
            || (slug' == slug + "-" && t == "-" + t')
  {
    hide Shaped;
    NamesSplit(slug, t, slug', t');
    if Name(slug, t) == Name(slug', t') {
      if |t| < |t'| {
        var x := SplitName(slug', t', slug, t);
        NoTokenInside(kind', t', kind, t, x);
      } else if |t'| < |t| {
        var x := SplitName(slug, t, slug', t');
        NoTokenInside(kind, t, kind', t', x);
      }
    }
  }

  predicate CleanSlug(slug: string) {
    slug != [] && slug[|slug| - 1] != '-'
  }

  /** The identifier name determines slug and token although both may contain hyphens: for slugs that do not
      end in one, as no Kubernetes name does, whatever the years; and for any slugs if no year is negative. */
  lemma NameDecodes(slug: string, kind: RecurrenceKind, p: int, slug': string, kind': RecurrenceKind, p': int)
    requires !kind.Other? && !kind'.Other?
    requires (CleanSlug(slug) && CleanSlug(slug')) || (PeriodName(kind, p)[0] != '-' && PeriodName(kind', p')[0] != '-')
    ensures Name(slug, PeriodName(kind, p)) == Name(slug', PeriodName(kind', p'))
       <==> slug == slug' && PeriodName(kind, p) == PeriodName(kind', p')
  {
    hide PeriodName, Shaped, Name;
    TokenShape(kind, p);
    TokenShape(kind', p');
    NamesEqual(slug, kind, PeriodName(kind, p), slug', kind', PeriodName(kind', p'));
  }

  /** Without either condition two tasks can share a name. */
  lemma NegativeYearsCollide()
    ensures Name("a", PeriodName(Yearly, -1000)) == Name("a-", PeriodName(Yearly, 1000))
    ensures PeriodName(Yearly, -1000) != PeriodName(Yearly, 1000)
  {
    assert Decimal(1000) == Decimal(100) + "0" && Decimal(100) == Decimal(10) + "0";
    NamesSplit("a", PeriodName(Yearly, -1000), "a-", PeriodName(Yearly, 1000));
  }

  lemma LastSpace(a: string, t: string, b: string, u: string)
    requires ' ' !in t && ' ' !in u && Title(a, t) == Title(b, u)
    ensures a == b && t == u
  {
    var s := Title(a, t);
    assert s[|s| - |t| - 1] == ' ' && s[|s| - |u| - 1] == ' ';
    assert s[|s| - |t|..] == t && s[|s| - |u|..] == u;
    forall i | |s| - |t| <= i < |s| ensures s[i] != ' ' { assert s[i] == t[i - (|s| - |t|)]; }
    forall i | |s| - |u| <= i < |s| ensures s[i] != ' ' { assert s[i] == u[i - (|s| - |u|)]; }
    assert s[..|s| - |t| - 3] == a && s[..|s| - |u| - 3] == b;
  }

  /** A title determines its token, and its heading, whatever spaces and hyphens the heading has. */
  lemma TitleDecodes(heading: string, kind: RecurrenceKind, p: int, heading': string, kind': RecurrenceKind, p': int)
    requires !kind.Other? && !kind'.Other?
    ensures Title(heading, PeriodName(kind, p)) == Title(heading', PeriodName(kind', p'))
       <==> heading == heading' && PeriodName(kind, p) == PeriodName(kind', p')
  {
    TokenShape(kind, p);
    TokenShape(kind', p');
    hide PeriodName;
    if Title(heading, PeriodName(kind, p)) == Title(heading', PeriodName(kind', p')) {
      LastSpace(heading, PeriodName(kind, p), heading', PeriodName(kind', p'));
    }
  }
}
