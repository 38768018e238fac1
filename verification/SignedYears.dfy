/** Names of any two slugs and periods, with nothing asked of either: the hyphen before a token can be its sign. */
module SignedYears {
  import opened Calendar
  import opened Formats
  import opened Schedule
  import opened PeriodToken
  import opened Identifier

  // ---------------------------------------------------------------- a token is a year and a rest

  /** The year that a token begins with. */
  function TokenYear(kind: RecurrenceKind, p: int): int {
    match kind
    case Hourly => YearOf(p / 24)
    case Weekly => ISOWeek(7 * p).0
    case Weekday => ISOWeek(p).0
    case Monthly => p / 12
    case Quarterly => p / 4
    case Yearly => p
    case OnDate => p
    case _ => YearOf(p)
  }

  /** Where in that year the period is, as one number. */
  function PartOfYear(kind: RecurrenceKind, p: int): int {
    match kind
    case Hourly => HourDigits(MonthOf(p / 24), DayOf(p / 24), p % 24)
    case Weekly => ISOWeek(7 * p).1
    case Weekday => 7 * ISOWeek(p).1 + WeekdayOf(p)
    case Monthly => p % 12
    case Quarterly => p % 4
    case Yearly => 0
    case OnDate => 0
    case _ => 100 * MonthOf(p) + DayOf(p)
  }

  function YearWidth(kind: RecurrenceKind): nat {
    if kind.Quarterly? then 1 else 4
  }

  /** The first year whose text has no leading zero. */
  function UnpaddedFrom(kind: RecurrenceKind): int {
    if kind.Quarterly? then 1 else 1000
  }

  predicate InYear(kind: RecurrenceKind, part: int) {
    match kind
    case Hourly => 0 <= part < 1_000_000
    case Weekly => 0 <= part < 100
    case Weekday => 0 <= part < 700
    case Monthly => 0 <= part < 12
    case Quarterly => 0 <= part < 4
    case Yearly => part == 0
    case OnDate => part == 0
    case _ => 0 <= part < 10_000
  }

  /** The text behind the year. */
  function Rest(kind: RecurrenceKind, part: int): string {
    match kind
    case Hourly => FmtInt(part / 10_000, 2) + FmtInt(part / 100 % 100, 2) + FmtInt(part % 100, 2)
    case Weekly => "W" + FmtInt(part, 2)
    case Weekday => "W" + FmtInt(part / 7, 2) + "-" + WeekdayAbbrev(part % 7)
    case Monthly => "-" + FmtInt(part + 1, 2)
    case Quarterly => "Q" + FmtInt(part + 1, 1)
    case Yearly => ""
    case OnDate => ""
    case _ => "-" + FmtInt(part / 100, 2) + "-" + FmtInt(part % 100, 2)
  }

  function RestLength(kind: RecurrenceKind): nat {
    match kind
    case Hourly => 6
    case Weekly => 3
    case Weekday => 7
    case Monthly => 3
    case Quarterly => 2
    case Yearly => 0
    case OnDate => 0
    case _ => 6
  }

  lemma TwoDigitFields(a: int, b: int)
    requires 0 <= a && 0 <= b < 100
    ensures (100 * a + b) / 100 == a && (100 * a + b) % 100 == b
  {
  }

  lemma HourFields(m: int, d: int, h: int)
    requires 0 <= m && 0 <= d < 100 && 0 <= h < 100
    ensures var n := HourDigits(m, d, h); n / 10_000 == m && n / 100 % 100 == d && n % 100 == h
  {
    TwoDigitFields(100 * m + d, h);
    TwoDigitFields(m, d);
  }

  lemma HourSplits(y: int, m: int, d: int, h: int)
    requires 0 <= m < 100 && 0 <= d < 100 && 0 <= h < 100
    ensures FmtHourToken(y, m, d, h) == FmtInt(y, 4) + Rest(Hourly, HourDigits(m, d, h))
  {
    hide FmtInt;
    HourFields(m, d, h);
    var year, month, day, hour := FmtInt(y, 4), FmtInt(m, 2), FmtInt(d, 2), FmtInt(h, 2);
    assert year + month + day + hour == year + (month + day + hour);
  }

  lemma DateSplits(y: int, m: int, d: int)
    requires 0 <= m < 100 && 0 <= d < 100
    ensures FmtDate(y, m, d) == FmtInt(y, 4) + Rest(Daily, 100 * m + d)
  {
    hide FmtInt;
    TwoDigitFields(m, d);
  }

  lemma WeekSplits(y: int, w: int, u: DayOfWeek)
    ensures FmtIsoWeek(y, w) == FmtInt(y, 4) + Rest(Weekly, w)
    ensures FmtIsoWeek(y, w) + "-" + WeekdayAbbrev(u) == FmtInt(y, 4) + Rest(Weekday, 7 * w + u)
  {
    hide FmtInt, WeekdayAbbrev;
    assert (7 * w + u) / 7 == w && (7 * w + u) % 7 == u;
  }

  /** A token is its year and then its rest. */
  predicate Splits(kind: RecurrenceKind, p: int) {
    InYear(kind, PartOfYear(kind, p))
    && PeriodName(kind, p) == FmtInt(TokenYear(kind, p), YearWidth(kind)) + Rest(kind, PartOfYear(kind, p))
  }

  lemma HourTokenSplits(p: int)
    ensures Splits(Hourly, p)
  {
    hide FmtInt, YearOf, MonthOf, DayOf, Rest, FmtHourToken;
    DaysDiffer(p / 24, p / 24);
    HourSplits(YearOf(p / 24), MonthOf(p / 24), DayOf(p / 24), p % 24);
  }

  lemma DayTokenSplits(p: int)
    ensures Splits(Daily, p)
  {
    hide FmtInt, YearOf, MonthOf, DayOf, Rest, FmtDate;
    DaysDiffer(p, p);
    DateSplits(YearOf(p), MonthOf(p), DayOf(p));
  }

  lemma WeekTokenSplits(p: int)
    ensures Splits(Weekly, p)
  {
    hide FmtInt, ISOWeek, Rest, FmtIsoWeek;
    ISOWeekRange(7 * p);
    WeekSplits(ISOWeek(7 * p).0, ISOWeek(7 * p).1, 0);
  }

  lemma WeekdayTokenSplits(p: int)
    ensures Splits(Weekday, p)
  {
    hide FmtInt, ISOWeek, Rest, FmtIsoWeek, WeekdayAbbrev;
    ISOWeekRange(p);
    WeekSplits(ISOWeek(p).0, ISOWeek(p).1, WeekdayOf(p));
  }

  lemma Joined(a: string, b: string, c: string)
    ensures a + b + c == a + (b + c)
  {
  }

  lemma MonthTokenSplits(p: int)
    ensures Splits(Monthly, p) && Splits(Quarterly, p)
  {
    hide FmtInt;
    Joined(FmtInt(p / 12, 4), "-", FmtInt(p % 12 + 1, 2));
    Joined(FmtInt(p / 4, 1), "Q", FmtInt(p % 4 + 1, 1));
  }

  lemma YearTokenSplits(p: int)
    ensures Splits(Yearly, p) && Splits(OnDate, p)
  {
    hide FmtInt;
  }

  lemma TokenSplits(kind: RecurrenceKind, p: int)
    requires !kind.Other?
    ensures Splits(kind, p)
  {
    hide Splits;
    match kind {
      case Hourly => HourTokenSplits(p);
      case Weekly => WeekTokenSplits(p);
      case Weekday => WeekdayTokenSplits(p);
      case Monthly => MonthTokenSplits(p);
      case Quarterly => MonthTokenSplits(p);
      case Yearly => YearTokenSplits(p);
      case OnDate => YearTokenSplits(p);
      case Daily => DayTokenSplits(p);
    }
  }

  lemma RestHasLength(kind: RecurrenceKind, part: int)
    requires !kind.Other? && InYear(kind, part)
    ensures |Rest(kind, part)| == RestLength(kind)
  {
    hide FmtInt;
    match kind {
      case Hourly =>
        TwoDigits(part / 10_000); TwoDigits(part / 100 % 100); TwoDigits(part % 100);
      case Weekly =>
        TwoDigits(part);
      case Weekday =>
        TwoDigits(part / 7);
      case Monthly =>
        TwoDigits(part + 1);
      case Quarterly =>
        OneDigit(part + 1);
      case Daily =>
        TwoDigits(part / 100); TwoDigits(part % 100);
      case _ =>
    }
  }

  lemma WeekdayRestsEqual(v: int, u: DayOfWeek, w: int, x: DayOfWeek)
    requires 0 <= v < 100 && 0 <= w < 100
    ensures "W" + FmtInt(v, 2) + "-" + WeekdayAbbrev(u) == "W" + FmtInt(w, 2) + "-" + WeekdayAbbrev(x)
            <==> v == w && u == x
  {
    hide FmtInt, WeekdayAbbrev;
    TwoDigits(v); TwoDigits(w);
    AbbrevsDiffer(u, x);
    IntsEqual(v, w, 2);
    var a, b := "W" + FmtInt(v, 2) + "-" + WeekdayAbbrev(u), "W" + FmtInt(w, 2) + "-" + WeekdayAbbrev(x);
    assert a[1..3] == FmtInt(v, 2) && b[1..3] == FmtInt(w, 2) && a[4..] == WeekdayAbbrev(u)
           && b[4..] == WeekdayAbbrev(x);
  }

  lemma HourRest(part: int)
    requires 0 <= part < 1_000_000
    ensures FmtHourToken(0, part / 10_000, part / 100 % 100, part % 100) == FmtInt(0, 4) + Rest(Hourly, part)
    ensures part == HourDigits(part / 10_000, part / 100 % 100, part % 100)
  {
    hide FmtInt;
    assert part / 100 / 100 == part / 10_000;
  }

  lemma DateRest(part: int)
    requires 0 <= part < 10_000
    ensures FmtDate(0, part / 100, part % 100) == FmtInt(0, 4) + Rest(Daily, part)
  {
    hide FmtInt;
  }

  /** One number behind a one-character mark. */
  lemma MarkedEqual(mark: string, n: int, n': int, width: nat)
    requires |mark| == 1 && 1 <= width
    ensures mark + FmtInt(n, width) == mark + FmtInt(n', width) <==> n == n'
  {
    IntsEqual(n, n', width);
    hide FmtInt;
    var s, s' := FmtInt(n, width), FmtInt(n', width);
    assert (mark + s)[1..] == s && (mark + s')[1..] == s';
  }

  lemma HourRestsEqual(part: int, part': int)
    requires 0 <= part < 1_000_000 && 0 <= part' < 1_000_000
    ensures Rest(Hourly, part) == Rest(Hourly, part') <==> part == part'
  {
    hide FmtInt, Rest, FmtHourToken;
    HourRest(part);
    HourRest(part');
    HoursEqual(0, part / 10_000, part / 100 % 100, part % 100, 0, part' / 10_000, part' / 100 % 100, part' % 100);
  }

  lemma DateRestsEqual(part: int, part': int)
    requires 0 <= part < 10_000 && 0 <= part' < 10_000
    ensures Rest(Daily, part) == Rest(Daily, part') <==> part == part'
  {
    hide FmtInt, Rest, FmtDate;
    DateRest(part);
    DateRest(part');
    DatesEqual(0, part / 100, part % 100, 0, part' / 100, part' % 100);
  }

  lemma OneFieldRestsEqual(part: int, part': int)
    ensures Rest(Weekly, part) == Rest(Weekly, part') <==> part == part'
    ensures Rest(Monthly, part) == Rest(Monthly, part') <==> part == part'
    ensures Rest(Quarterly, part) == Rest(Quarterly, part') <==> part == part'
  {
    hide FmtInt, WeekdayAbbrev;
    MarkedEqual("W", part, part', 2);
    MarkedEqual("-", part + 1, part' + 1, 2);
    MarkedEqual("Q", part + 1, part' + 1, 1);
  }

  lemma RestsEqual(kind: RecurrenceKind, part: int, part': int)
    requires !kind.Other? && InYear(kind, part) && InYear(kind, part')
    ensures Rest(kind, part) == Rest(kind, part') <==> part == part'
  {
    match kind {
      case Hourly =>
        hide Rest;
        HourRestsEqual(part, part');
      case Weekday =>
        hide FmtInt, WeekdayAbbrev;
        WeekdayRestsEqual(part / 7, part % 7, part' / 7, part' % 7);
      case Daily =>
        hide Rest;
        DateRestsEqual(part, part');
      case Yearly =>
      case OnDate =>
      case _ =>
        hide Rest;
        OneFieldRestsEqual(part, part');
    }
  }

  // ---------------------------------------------------------------- a sign in front

  lemma SignedLongYear(y: int, y': int, width: nat)
    requires (width == 1 && 1 <= y) || (width == 4 && 1000 <= y)
    ensures FmtInt(y', width) == "-" + FmtInt(y, width) <==> y' == -y
  {
    if width == 4 {
      UnpaddedYear(y);
      UnpaddedYear(-y);
    }
    assert FmtInt(-y, width) == "-" + FmtInt(y, width);
    IntsEqual(y', -y, width);
  }

  lemma ShortYear(y: int)
    requires 0 <= y < 1000
    ensures |FmtInt(y, 4)| == 4 && FmtInt(y, 4)[0] == '0'
  {
    ShortYearPadded(y);
    DecimalLength(y, 3, 1000);
  }

  lemma SignedShortYear(y: int, y': int, width: nat)
    requires (width == 1 && y < 1) || (width == 4 && y < 1000)
    ensures FmtInt(y', width) != "-" + FmtInt(y, width)
  {
    NumberShape(y', width);
    NumberShape(y, width);
    var s, signed := FmtInt(y', width), "-" + FmtInt(y, width);
    assert signed[1] == FmtInt(y, width)[0];
    if y' < 0 {
      NoLeadingZero(-y');
      assert s[1] == Pad(Decimal(-y'), width - 1)[0];
      if width == 4 && 0 <= y {
        ShortYear(y);
        hide FmtInt;
        assert |Decimal(-y')| < 3 ==> |s| == 4;
      }
    }
  }

  /** The year of a token with a sign put in front is the negated year, if the year needs no padding. */
  lemma SignedYear(kind: RecurrenceKind, y: int, y': int)
    ensures FmtInt(y', YearWidth(kind)) == "-" + FmtInt(y, YearWidth(kind)) <==> UnpaddedFrom(kind) <= y && y' == -y
  {
    if UnpaddedFrom(kind) <= y {
      SignedLongYear(y, y', YearWidth(kind));
    } else {
      SignedShortYear(y, y', YearWidth(kind));
    }
  }

  /** Period `p'` has the token of period `p` with a hyphen in front: it is the same part of the negated year, or one of
      the two is a year and the other an hour, as in `SpelledAlike`. */
  predicate IsSigned(kind: RecurrenceKind, p: int, kind': RecurrenceKind, p': int) {
    UnpaddedFrom(kind) <= TokenYear(kind, p)
    && if Unit(kind) == Unit(kind') then
         TokenYear(kind', p') == -TokenYear(kind, p) && PartOfYear(kind', p') == PartOfYear(kind, p)
       else if Unit(kind).Yearly? && kind'.Hourly? then YearLikeHour(-p, p')
       else if kind.Hourly? && Unit(kind').Yearly? then
         SpelledLikeHour(p', -YearOf(p / 24), MonthOf(p / 24), DayOf(p / 24), p % 24)
       else false
  }

  lemma Prefixes(a: string, r: string, b: string, s: string)
    requires |r| == |s|
    ensures a + r == "-" + (b + s) <==> a == "-" + b && r == s
  {
    var t, u := a + r, "-" + (b + s);
    assert t[|t| - |r|..] == r && t[..|t| - |r|] == a;
    assert u[|u| - |s|..] == s && u[..|u| - |s|] == "-" + b;
  }

  lemma SignedOfOneUnit(kind: RecurrenceKind, p: int, p': int)
    requires !kind.Other?
    ensures PeriodName(kind, p') == "-" + PeriodName(kind, p) <==> IsSigned(kind, p, kind, p')
  {
    hide PeriodName, TokenYear, PartOfYear, Rest, UnpaddedFrom;
    TokenSplits(kind, p);
    TokenSplits(kind, p');
    var r, r' := PartOfYear(kind, p), PartOfYear(kind, p');
    RestHasLength(kind, r);
    RestHasLength(kind, r');
    RestsEqual(kind, r, r');
    var y, y' := TokenYear(kind, p), TokenYear(kind, p');
    Prefixes(FmtInt(y', YearWidth(kind)), Rest(kind, r'), FmtInt(y, YearWidth(kind)), Rest(kind, r));
    SignedYear(kind, y, y');
  }

  lemma SignedYearAsHour(p: int, q: int)
    ensures PeriodName(Hourly, q) == "-" + PeriodName(Yearly, p) <==> 1000 <= p && YearLikeHour(-p, q)
  {
    hide FmtInt, YearOf, MonthOf, DayOf, YearLikeHour, FmtHourToken;
    if 1000 <= p {
      SignedLongYear(p, -p, 4);
      YearTokensAgainstHours(-p, q);
    } else {
      TokenShape(Hourly, q);
      NumberShape(p, 4);
      var u := "-" + PeriodName(Yearly, p);
      assert u[1] == FmtInt(p, 4)[0];
      if 0 <= p { ShortYear(p); }
      assert p < 0 ==> u[1] == '-' && !MayHyphen(Hourly, |u| - 1);
    }
  }

  lemma Regrouped(sign: string, y: string, m: string, d: string, h: string)
    ensures sign + (y + m + d + h) == sign + y + m + d + h
  {
  }

  lemma SignedHour(y: int, m: int, d: int, h: int)
    requires 1000 <= y
    ensures "-" + FmtHourToken(y, m, d, h) == FmtHourToken(-y, m, d, h)
  {
    hide FmtInt;
    SignedLongYear(y, -y, 4);
    Regrouped("-", FmtInt(y, 4), FmtInt(m, 2), FmtInt(d, 2), FmtInt(h, 2));
  }

  /** An hour of a year below 1000 begins with a zero or a sign. */
  lemma HourStart(y: int, m: int, d: int, h: int)
    requires y < 1000
    ensures FmtHourToken(y, m, d, h)[0] == if y < 0 then '-' else '0'
  {
    NumberShape(y, 4);
    if 0 <= y { ShortYear(y); }
    hide FmtInt;
  }

  lemma SignedHourAsYear(q: int, p: int)
    ensures PeriodName(Yearly, p) == "-" + PeriodName(Hourly, q) <==> IsSigned(Hourly, q, Yearly, p)
  {
    hide YearOf, MonthOf, DayOf, FmtInt, FmtHourToken, SpelledLikeHour;
    var y, m, d, h := YearOf(q / 24), MonthOf(q / 24), DayOf(q / 24), q % 24;
    DaysDiffer(q / 24, q / 24);
    if 1000 <= y {
      SignedHour(y, m, d, h);
      YearsAgainstHours(p, -y, m, d, h);
    } else {
      NumberShape(p, 4);
      if 10 <= |FmtYear(p)| { LongYearUnpadded(p); }
      TokenShape(Hourly, q);
      HourStart(y, m, d, h);
    }
  }

  /** Other units differ in their last characters, which a sign in front leaves as they are. */
  lemma SignedOfOtherUnits(kind: RecurrenceKind, p: int, kind': RecurrenceKind, p': int)
    requires !kind.Other? && !kind'.Other? && Unit(kind) != Unit(kind')
    requires !(Unit(kind).Yearly? && kind'.Hourly?) && !(kind.Hourly? && Unit(kind').Yearly?)
    ensures PeriodName(kind', p') != "-" + PeriodName(kind, p)
  {
    hide PeriodName;
    TokenShape(kind, p);
    TokenShape(kind', p');
    var t, u := PeriodName(kind, p), "-" + PeriodName(kind, p);
    assert u[|u| - 1] == t[|t| - 1] && u[|u| - 2] == t[|t| - 2] && u[|u| - 3] == t[|t| - 3];
    assert 6 <= |t| ==> u[|u| - 6] == t[|t| - 6];
  }

  lemma SignedTokens(kind: RecurrenceKind, p: int, kind': RecurrenceKind, p': int)
    requires !kind.Other? && !kind'.Other?
    ensures PeriodName(kind', p') == "-" + PeriodName(kind, p) <==> IsSigned(kind, p, kind', p')
  {
    hide PeriodName, YearOf, MonthOf, DayOf, YearLikeHour, SpelledLikeHour, ISOWeek;
    SameUnitSameName(kind, p);
    SameUnitSameName(kind', p');
    if Unit(kind) == Unit(kind') {
      SignedOfOneUnit(Unit(kind), p, p');
    } else if Unit(kind).Yearly? && kind'.Hourly? {
      SignedYearAsHour(p, p');
    } else if kind.Hourly? && Unit(kind').Yearly? {
      SignedHourAsYear(p, p');
    } else {
      SignedOfOtherUnits(kind, p, kind', p');
    }
  }

  /** Exactly when two names are equal, for any two slugs and any periods of any two kinds. */
  lemma NamesOfAllPeriods(slug: string, kind: RecurrenceKind, p: int, slug': string, kind': RecurrenceKind, p': int)
    requires !kind.Other? && !kind'.Other?
    ensures Name(slug, PeriodName(kind, p)) == Name(slug', PeriodName(kind', p'))
       <==> || (slug == slug' && ((Unit(kind) == Unit(kind') && p == p') || SpelledAlike(kind, p, kind', p')))
            || (slug == slug' + "-" && IsSigned(kind, p, kind', p'))
            || (slug' == slug + "-" && IsSigned(kind', p', kind, p))
  {
    hide PeriodName, Shaped, Name, SpelledAlike, IsSigned;
    TokenShape(kind, p);
    TokenShape(kind', p');
    NamesEqual(slug, kind, PeriodName(kind, p), slug', kind', PeriodName(kind', p'));
    TokensOfAllKinds(kind, p, kind', p');
    SignedTokens(kind, p, kind', p');
    SignedTokens(kind', p', kind, p);
  }

  /** Two different slugs, an hour of a negative year and a year far ahead, one name. */
  lemma HourAndYearCollide()
    ensures var q := 24 * MakeTime(-999, 1, 1);
            Name("a", PeriodName(Hourly, q)) == Name("a-", PeriodName(Yearly, 999_010_100))
  {
    hide MakeTime, MonthIndex, MonthStart, PeriodName, Name;
    TimeRoundTrip(-999, 1, 1);
    NamesOfAllPeriods("a", Hourly, 24 * MakeTime(-999, 1, 1), "a-", Yearly, 999_010_100);
  }
}
