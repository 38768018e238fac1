/** The token formatters over `fmt.Sprintf`, each with the parser that inverts it.

    The verbs used are `%0Nd` (zero padded, the sign counted in the width) and `%d`.
 */
module Formats {

  function Digit(n: int): char
    requires 0 <= n < 10
  {
    ('0' as int + n) as char
  }

  predicate IsDigit(c: char) {
    '0' <= c <= '9'
  }

  predicate AllDigits(s: string) {
    forall i :: 0 <= i < |s| ==> IsDigit(s[i])
  }

  function Decimal(n: nat): (s: string)
    ensures s != [] && AllDigits(s)
  {
    if n < 10 then [Digit(n)] else Decimal(n / 10) + [Digit(n % 10)]
  }

  function Pad(s: string, width: nat): (r: string)
    requires AllDigits(s)
    ensures AllDigits(r) && |r| == if |s| < width then width else |s|
    decreases width
  {
    if |s| < width then "0" + Pad(s, width - 1) else s
  }

  /** `%0<width>d`; width 1 is plain `%d`. */
  function FmtInt(n: int, width: nat): string
    requires 1 <= width
  {
    if n < 0 then "-" + Pad(Decimal(-n), width - 1) else Pad(Decimal(n), width)
  }

  function FmtDate(year: int, month: int, day: int): string {
    FmtInt(year, 4) + "-" + FmtInt(month, 2) + "-" + FmtInt(day, 2)
  }

  function FmtHourToken(year: int, month: int, day: int, hour: int): string {
    FmtInt(year, 4) + FmtInt(month, 2) + FmtInt(day, 2) + FmtInt(hour, 2)
  }

  function FmtIsoWeek(year: int, week: int): string {
    FmtInt(year, 4) + "W" + FmtInt(week, 2)
  }

  function FmtMonthYear(year: int, month: int): string {
    FmtInt(year, 4) + "-" + FmtInt(month, 2)
  }

  function FmtQuarter(year: int, quarter: int): string {
    FmtInt(year, 1) + "Q" + FmtInt(quarter, 1)
  }

  function FmtYear(year: int): string {
    FmtInt(year, 4)
  }

  lemma HourExample()
    ensures FmtHourToken(2026, 9, 7, 13) == "2026090713"
  {
    assert Decimal(202) == "202" && Decimal(2026) == "2026";
  }

  /** The documented examples, and the padding of a short year. */
  lemma DocumentedExamples()
    ensures FmtDate(2026, 6, 20) == "2026-06-20" && FmtMonthYear(2026, 7) == "2026-07" && FmtYear(5) == "0005"
    ensures FmtIsoWeek(2026, 25) == "2026W25" && FmtQuarter(2025, 4) == "2025Q4"
    ensures FmtHourToken(2026, 9, 7, 13) == "2026090713"
  {
    HourExample();
    hide FmtHourToken;
    assert Decimal(202) == "202" && Decimal(2026) == "2026" && Decimal(2025) == "2025";
  }

  // ---------------------------------------------------------------- parsers

  function ParseDecimal(s: string): int
    requires AllDigits(s)
  {
    if s == [] then 0 else 10 * ParseDecimal(s[..|s| - 1]) + (s[|s| - 1] as int - '0' as int)
  }

  predicate IsNumber(s: string) {
    s != [] && AllDigits(if s[0] == '-' then s[1..] else s)
  }

  function ParseInt(s: string): int
    requires IsNumber(s)
  {
    if s[0] == '-' then -ParseDecimal(s[1..]) else ParseDecimal(s)
  }

  lemma {:induction false} DecimalParses(n: nat)
    ensures ParseDecimal(Decimal(n)) == n
  {
    if n >= 10 {
      DecimalParses(n / 10);
      assert Decimal(n)[..|Decimal(n)| - 1] == Decimal(n / 10);
    }
  }

  lemma {:induction false} LeadingZero(s: string)
    requires AllDigits(s)
    ensures AllDigits("0" + s) && ParseDecimal("0" + s) == ParseDecimal(s)
  {
    if s != [] {
      LeadingZero(s[..|s| - 1]);
      assert ("0" + s)[..|s|] == "0" + s[..|s| - 1];
    }
  }

  lemma {:induction false} PadParses(s: string, width: nat)
    requires AllDigits(s)
    ensures ParseDecimal(Pad(s, width)) == ParseDecimal(s)
    decreases width
  {
    if |s| < width {
      PadParses(s, width - 1);
      LeadingZero(Pad(s, width - 1));
    }
  }

  function Power10(k: nat): nat {
    if k == 0 then 1 else 10 * Power10(k - 1)
  }

  lemma {:induction false} DecimalLength(n: nat, k: nat, bound: nat)
    requires 1 <= k && Power10(k) == bound && n < bound
    ensures |Decimal(n)| <= k
    decreases k
  {
    if n >= 10 {
      DecimalLength(n / 10, k - 1, bound / 10);
    }
  }

  /** What every consumer needs of `%0Nd`: it parses back, and it is a sign and digits. */
  lemma IntRoundTrip(n: int, width: nat)
    requires 1 <= width
    ensures var s := FmtInt(n, width);
            IsNumber(s) && ParseInt(s) == n && width <= |s| && (s[0] == '-' <==> n < 0)
  {
    var d: nat := if n < 0 then -n else n;
    DecimalParses(d);
    PadParses(Decimal(d), if n < 0 then width - 1 else width);
    var s := FmtInt(n, width);
    if n < 0 {
      assert s[1..] == Pad(Decimal(d), width - 1);
    }
  }

  lemma TwoDigits(n: int)
    requires 0 <= n < 100
    ensures |FmtInt(n, 2)| == 2 && AllDigits(FmtInt(n, 2))
  {
    DecimalLength(n, 2, 100);
  }

  lemma OneDigit(n: int)
    requires 0 <= n < 10
    ensures |FmtInt(n, 1)| == 1 && AllDigits(FmtInt(n, 1))
  {
  }

  // ---------------------------------------------------------------- injectivity

  lemma IntsEqual(a: int, b: int, width: nat)
    requires 1 <= width
    ensures FmtInt(a, width) == FmtInt(b, width) <==> a == b
  {
    IntRoundTrip(a, width);
    IntRoundTrip(b, width);
  }

  /** One more fixed-width field at the end of a text adds exactly its number to what the text tells apart. */
  lemma FieldEqual(a: string, n: int, b: string, m: int, separator: string, width: nat)
    requires 1 <= width && |FmtInt(n, width)| == |FmtInt(m, width)|
    ensures a + separator + FmtInt(n, width) == b + separator + FmtInt(m, width) <==> a == b && n == m
  {
    IntsEqual(n, m, width);
    hide FmtInt;
    var u, v := separator + FmtInt(n, width), separator + FmtInt(m, width);
    assert a + separator + FmtInt(n, width) == a + u && b + separator + FmtInt(m, width) == b + v;
    if a + u == b + v {
      assert (a + u)[..|a|] == a && (b + v)[..|a|] == b;
      assert (a + u)[|a| + |separator|..] == FmtInt(n, width) && (b + v)[|a| + |separator|..] == FmtInt(m, width);
    }
  }

  lemma MonthYearsEqual(y: int, m: int, y': int, m': int)
    requires 0 <= m < 100 && 0 <= m' < 100
    ensures FmtMonthYear(y, m) == FmtMonthYear(y', m') <==> y == y' && m == m'
  {
    hide FmtInt;
    TwoDigits(m); TwoDigits(m');
    IntsEqual(y, y', 4);
    FieldEqual(FmtInt(y, 4), m, FmtInt(y', 4), m', "-", 2);
  }

  lemma DatesEqual(y: int, m: int, d: int, y': int, m': int, d': int)
    requires 0 <= m < 100 && 0 <= d < 100 && 0 <= m' < 100 && 0 <= d' < 100
    ensures FmtDate(y, m, d) == FmtDate(y', m', d') <==> y == y' && m == m' && d == d'
  {
    hide FmtInt;
    TwoDigits(d); TwoDigits(d');
    MonthYearsEqual(y, m, y', m');
    FieldEqual(FmtMonthYear(y, m), d, FmtMonthYear(y', m'), d', "-", 2);
  }

  lemma HoursEqual(y: int, m: int, d: int, h: int, y': int, m': int, d': int, h': int)
    requires 0 <= m < 100 && 0 <= d < 100 && 0 <= h < 100 && 0 <= m' < 100 && 0 <= d' < 100 && 0 <= h' < 100
    ensures FmtHourToken(y, m, d, h) == FmtHourToken(y', m', d', h')
       <==> y == y' && m == m' && d == d' && h == h'
  {
    hide FmtInt;
    TwoDigits(m); TwoDigits(m'); TwoDigits(d); TwoDigits(d'); TwoDigits(h); TwoDigits(h');
    IntsEqual(y, y', 4);
    var a, a' := FmtInt(y, 4), FmtInt(y', 4);
    FieldEqual(a, m, a', m', "", 2);
    FieldEqual(a + "" + FmtInt(m, 2), d, a' + "" + FmtInt(m', 2), d', "", 2);
    FieldEqual(a + "" + FmtInt(m, 2) + "" + FmtInt(d, 2), h, a' + "" + FmtInt(m', 2) + "" + FmtInt(d', 2), h', "", 2);
    assert a + "" == a && a' + "" == a';
    assert a + FmtInt(m, 2) + "" == a + FmtInt(m, 2) && a' + FmtInt(m', 2) + "" == a' + FmtInt(m', 2);
    assert a + FmtInt(m, 2) + FmtInt(d, 2) + "" == a + FmtInt(m, 2) + FmtInt(d, 2);
    assert a' + FmtInt(m', 2) + FmtInt(d', 2) + "" == a' + FmtInt(m', 2) + FmtInt(d', 2);
  }

  lemma WeeksEqual(y: int, w: int, y': int, w': int)
    requires 0 <= w < 100 && 0 <= w' < 100
    ensures FmtIsoWeek(y, w) == FmtIsoWeek(y', w') <==> y == y' && w == w'
  {
    hide FmtInt;
    TwoDigits(w); TwoDigits(w');
    IntsEqual(y, y', 4);
    FieldEqual(FmtInt(y, 4), w, FmtInt(y', 4), w', "W", 2);
  }

  lemma QuartersEqual(y: int, q: int, y': int, q': int)
    requires 0 <= q < 10 && 0 <= q' < 10
    ensures FmtQuarter(y, q) == FmtQuarter(y', q') <==> y == y' && q == q'
  {
    hide FmtInt;
    OneDigit(q); OneDigit(q');
    IntsEqual(y, y', 1);
    FieldEqual(FmtInt(y, 1), q, FmtInt(y', 1), q', "Q", 1);
  }

  // ---------------------------------------------------------------- years spelled like hours

  lemma {:induction false} NoLeadingZero(n: nat)
    requires 1 <= n
    ensures Decimal(n)[0] != '0'
  {
    if n >= 10 {
      NoLeadingZero(n / 10);
    }
  }

  lemma TwoDigitText(b: nat)
    requires b < 100
    ensures FmtInt(b, 2) == [Digit(b / 10)] + [Digit(b % 10)]
  {
    assert b < 10 ==> Pad(Decimal(b), 2) == "0" + Decimal(b);
  }

  lemma TwoMoreDigits(a: nat, b: nat)
    requires 1 <= a && b < 100
    ensures Decimal(100 * a + b) == Decimal(a) + FmtInt(b, 2)
  {
    var n := 100 * a + b;
    assert n / 10 == 10 * a + b / 10 && n % 10 == b % 10;
    assert (n / 10) / 10 == a && (n / 10) % 10 == b / 10;
    assert Decimal(n) == Decimal(n / 10) + [Digit(b % 10)];
    assert Decimal(n / 10) == Decimal(a) + [Digit(b / 10)];
    TwoDigitText(b);
  }

  /** Month, day and hour as the last six digits of a number. */
  function HourDigits(m: int, d: int, h: int): int {
    10000 * m + 100 * d + h
  }

  /** Year and hour token read as one number, where no padding stands in the way. */
  lemma HourDecimal(y: nat, m: nat, d: nat, h: nat)
    requires 1 <= y && m < 100 && d < 100 && h < 100
    ensures Decimal(1_000_000 * y + HourDigits(m, d, h)) == Decimal(y) + FmtInt(m, 2) + FmtInt(d, 2) + FmtInt(h, 2)
  {
    hide FmtInt, Decimal;
    TwoMoreDigits(y, m);
    TwoMoreDigits(100 * y + m, d);
    TwoMoreDigits(100 * (100 * y + m) + d, h);
  }

  /** Which year, if any, is spelled like an hour: its digits are the hour's, and the hour's year needs no padding. */
  predicate SpelledLikeHour(p: int, y: int, m: int, d: int, h: int) {
    || (1000 <= y && p == 1_000_000 * y + HourDigits(m, d, h))
    || (y <= -100 && p == 1_000_000 * y - HourDigits(m, d, h))
  }

  lemma PowerPositive(k: nat)
    ensures 1 <= Power10(k)
  {
  }

  lemma {:induction false} WidthOf(n: nat, k: nat)
    requires 1 <= k && Power10(k - 1) <= n
    ensures k <= |Decimal(n)|
    decreases k
  {
    if k >= 2 {
      assert Power10(k - 1) == 10 * Power10(k - 2);
      WidthOf(n / 10, k - 1);
      assert 1 <= Power10(k - 2) by { PowerPositive(k - 2); }
    }
  }

  lemma UnpaddedYear(y: int)
    requires 1000 <= y || y <= -100
    ensures FmtInt(y, 4) == if y < 0 then "-" + Decimal(-y) else Decimal(y)
  {
    assert Power10(2) == 100 && Power10(3) == 1000;
    WidthOf(if y < 0 then -y else y, if y < 0 then 3 else 4);
    hide Decimal;
  }

  lemma SpelledLikeHourText(p: int, y: int, m: int, d: int, h: int)
    requires 0 <= m < 100 && 0 <= d < 100 && 0 <= h < 100 && SpelledLikeHour(p, y, m, d, h)
    ensures FmtYear(p) == FmtHourToken(y, m, d, h)
  {
    hide FmtInt;
    var a: nat := if y < 0 then -y else y;
    UnpaddedYear(y);
    HourDecimal(a, m, d, h);
    TwoDigits(m); TwoDigits(d); TwoDigits(h);
    UnpaddedYear(p);
  }

  /** A year token as long as an hour token has no leading zero. */
  lemma LongYearUnpadded(p: int)
    requires 10 <= |FmtYear(p)|
    ensures FmtYear(p)[if p < 0 then 1 else 0] != '0'
  {
    var a: nat := if p < 0 then -p else p;
    NoLeadingZero(a);
  }

  /** An hour of any other year is padded to a leading zero. */
  lemma ShortYearPadded(y: int)
    requires -100 < y < 1000
    ensures FmtInt(y, 4)[if y < 0 then 1 else 0] == '0'
  {
    if y < 0 {
      DecimalLength(-y, 2, 100);
      assert Pad(Decimal(-y), 3) == "0" + Pad(Decimal(-y), 2);
    } else {
      DecimalLength(y, 3, 1000);
      assert Pad(Decimal(y), 4) == "0" + Pad(Decimal(y), 3);
    }
  }

  lemma ShortYearIsNoHour(p: int, y: int, m: int, d: int, h: int)
    requires 0 <= m < 100 && 0 <= d < 100 && 0 <= h < 100 && -100 < y < 1000
    ensures FmtYear(p) != FmtHourToken(y, m, d, h)
  {
    IntRoundTrip(p, 4);
    IntRoundTrip(y, 4);
    TwoDigits(m); TwoDigits(d); TwoDigits(h);
    ShortYearPadded(y);
    hide FmtInt;
    var t := FmtHourToken(y, m, d, h);
    assert 10 <= |t| && t[0] == FmtInt(y, 4)[0] && t[1] == FmtInt(y, 4)[1];
    hide FmtHourToken;
    if FmtYear(p) == t {
      LongYearUnpadded(p);
    }
  }

  /** A year and an hour have the same token exactly when the year's digits are those of the hour, unpadded. */
  lemma YearsAgainstHours(p: int, y: int, m: int, d: int, h: int)
    requires 0 <= m < 100 && 0 <= d < 100 && 0 <= h < 100
    ensures FmtYear(p) == FmtHourToken(y, m, d, h) <==> SpelledLikeHour(p, y, m, d, h)
  {
    hide FmtInt, FmtHourToken;
    var n := HourDigits(m, d, h);
    if 1000 <= y {
      SpelledLikeHourText(1_000_000 * y + n, y, m, d, h);
      IntsEqual(p, 1_000_000 * y + n, 4);
    } else if y <= -100 {
      SpelledLikeHourText(1_000_000 * y - n, y, m, d, h);
      IntsEqual(p, 1_000_000 * y - n, 4);
    } else {
      ShortYearIsNoHour(p, y, m, d, h);
    }
  }
}
