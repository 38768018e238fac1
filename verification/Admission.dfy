/** What the API server admits as `spec.schedule` (enums, bounds and the four CEL rules), against the adapter. */
module Admission {
  import opened Calendar
  import opened Schedule
  import opened Store
  import Finite

  /** The submitted object: an absent field is `None`, and `has(self.f)` is `f.Some?`. */
  datatype TriggerObject = TriggerObject(
    recurrence: string,
    weekday: Option<string>,
    weekdays: Option<seq<string>>,
    periodOffset: Option<int>,
    month: Option<int>,
    day: Option<int>,
    autoAbortPrior: Option<bool>)

  const RECURRENCES: seq<string> := ["Daily", "Weekly", "Weekday", "Monthly", "Quarterly", "Yearly", "OnDate", "Hourly"]
  const LONG_DAYS: seq<string> := ["Monday", "Tuesday", "Wednesday", "Thursday", "Friday", "Saturday", "Sunday"]
  const SHORT_DAYS: seq<string> := ["Mon", "Tue", "Wed", "Thu", "Fri", "Sat", "Sun"]

  /** The structural schema: enums, item counts and numeric bounds. */
  predicate SchemaAccepts(t: TriggerObject) {
    && t.recurrence in RECURRENCES
    && (t.weekday.Some? ==> t.weekday.value in LONG_DAYS)
    && (t.weekdays.Some? ==> 1 <= |t.weekdays.value| <= 7
                                && forall d :: d in t.weekdays.value ==> d in LONG_DAYS || d in SHORT_DAYS)
    && (t.month.Some? ==> 1 <= t.month.value <= 12)
    && (t.day.Some? ==> 1 <= t.day.value <= 31)
  }

  predicate WeekdayXorRule(t: TriggerObject) {
    if t.recurrence == "Weekday" then t.weekday.Some? != t.weekdays.Some? else t.weekday.None? && t.weekdays.None?
  }

  predicate PeriodOffsetRule(t: TriggerObject) {
    t.periodOffset.None? || t.periodOffset.value == 0 || t.recurrence in ["Monthly", "Quarterly", "Yearly"]
  }

  predicate OnDateMonthDayRule(t: TriggerObject) {
    if t.recurrence == "OnDate" then t.month.Some? && t.day.Some? else t.month.None? && t.day.None?
  }

  /** The canonicalization map of the rule; a missing key is an evaluation error. */
  function LongForm(d: string): Option<string> {
    match d
    case "Mon" => Some("Monday")
    case "Tue" => Some("Tuesday")
    case "Wed" => Some("Wednesday")
    case "Thu" => Some("Thursday")
    case "Fri" => Some("Friday")
    case "Sat" => Some("Saturday")
    case "Sun" => Some("Sunday")
    case "Monday" => Some("Monday")
    case "Tuesday" => Some("Tuesday")
    case "Wednesday" => Some("Wednesday")
    case "Thursday" => Some("Thursday")
    case "Friday" => Some("Friday")
    case "Saturday" => Some("Saturday")
    case "Sunday" => Some("Sunday")
    case _ => None
  }

  function FilterSize(s: seq<Option<string>>, c: Option<string>): nat {
    if s == [] then 0 else FilterSize(s[..|s| - 1], c) + if s[|s| - 1] == c then 1 else 0
  }

  function LongForms(names: seq<string>): (out: seq<Option<string>>)
    ensures |out| == |names|
  {
    seq(|names|, i requires 0 <= i < |names| => LongForm(names[i]))
  }

  predicate WeekdayNoDuplicateRule(t: TriggerObject) {
    t.weekdays.None? ||
    var forms := LongForms(t.weekdays.value);
    forall c :: c in forms ==> c.Some? && FilterSize(forms, c) == 1
  }

  predicate Admitted(t: TriggerObject) {
    SchemaAccepts(t) && WeekdayXorRule(t) && PeriodOffsetRule(t) && WeekdayNoDuplicateRule(t) && OnDateMonthDayRule(t)
  }

  /** Decoding leaves the zero value in every absent field. */
  function Decode(t: TriggerObject): ScheduleTrigger {
    ScheduleTrigger(
      t.recurrence,
      if t.weekday.Some? then t.weekday.value else "",
      if t.weekdays.Some? then t.weekdays.value else [],
      if t.periodOffset.Some? then t.periodOffset.value else 0,
      if t.month.Some? then t.month.value else 0,
      if t.day.Some? then t.day.value else 0,
      t.autoAbortPrior)
  }

  // ---------------------------------------------------------------- enums

  function EnumKind(recurrence: string): RecurrenceKind
    requires recurrence in RECURRENCES
  {
    if recurrence == "Daily" then Daily
    else if recurrence == "Weekly" then Weekly
    else if recurrence == "Weekday" then Weekday
    else if recurrence == "Monthly" then Monthly
    else if recurrence == "Quarterly" then Quarterly
    else if recurrence == "Yearly" then Yearly
    else if recurrence == "OnDate" then OnDate
    else Hourly
  }

  lemma ShortKindNames()
    ensures ToLower("Daily") == "daily" && ToLower("Weekly") == "weekly" && ToLower("Weekday") == "weekday"
    ensures ToLower("Yearly") == "yearly" && ToLower("OnDate") == "ondate" && ToLower("Hourly") == "hourly"
  {
  }

  lemma LongKindNames()
    ensures ToLower("Monthly") == "monthly" && ToLower("Quarterly") == "quarterly"
  {
  }

  lemma EnumIsAKind(recurrence: string)
    requires recurrence in RECURRENCES
    ensures KindOf(ToLower(recurrence)) == EnumKind(recurrence)
  {
    hide ToLower;
    ShortKindNames();
    LongKindNames();
  }

  lemma DayIsKnown(name: string)
    requires name in LONG_DAYS || name in SHORT_DAYS
    ensures WeekdayByName(name).Some? && name != ""
    ensures LongForm(name) == Some((["Sunday"] + LONG_DAYS)[WeekdayByName(name).value])
  {
  }

  lemma LongNamesDiffer(v: DayOfWeek, w: DayOfWeek)
    ensures (["Sunday"] + LONG_DAYS)[v] == (["Sunday"] + LONG_DAYS)[w] <==> v == w
  {
    var names := ["Sunday"] + LONG_DAYS;
    assert (|names[v]|, names[v][0], names[v][1]) ==
      [(6, 'S', 'u'), (6, 'M', 'o'), (7, 'T', 'u'), (9, 'W', 'e'), (8, 'T', 'h'), (6, 'F', 'r'), (8, 'S', 'a')][v];
    assert (|names[w]|, names[w][0], names[w][1]) ==
      [(6, 'S', 'u'), (6, 'M', 'o'), (7, 'T', 'u'), (9, 'W', 'e'), (8, 'T', 'h'), (6, 'F', 'r'), (8, 'S', 'a')][w];
  }

  /** Two admitted spellings have one long form exactly when the runtime parses them to one day. */
  lemma SameFormSameDay(name: string, other: string)
    requires name in LONG_DAYS || name in SHORT_DAYS
    requires other in LONG_DAYS || other in SHORT_DAYS
    ensures LongForm(name) == LongForm(other) <==> WeekdayByName(name) == WeekdayByName(other)
  {
    DayIsKnown(name);
    DayIsKnown(other);
    hide LongForm, WeekdayByName;
    LongNamesDiffer(WeekdayByName(name).value, WeekdayByName(other).value);
  }

  // ---------------------------------------------------------------- the no-duplicate rule

  lemma {:induction false} FilterCounts(s: seq<Option<string>>, c: Option<string>)
    ensures FilterSize(s, c) == multiset(s)[c]
  {
    if s != [] {
      FilterCounts(s[..|s| - 1], c);
      assert s == s[..|s| - 1] + [s[|s| - 1]];
    }
  }

  lemma OnceEachIsDistinct(s: seq<Option<string>>)
    ensures (forall c :: c in s ==> FilterSize(s, c) == 1) <==> Finite.Distinct(s)
  {
    if !Finite.Distinct(s) {
      var i, j :| 0 <= i < j < |s| && s[i] == s[j];
      assert s == s[..i] + [s[i]] + s[i + 1..j] + [s[i]] + s[j + 1..];
      FilterCounts(s, s[i]);
      assert multiset(s)[s[i]] >= 2;
    } else {
      forall c | c in s ensures FilterSize(s, c) == 1 {
        var i :| 0 <= i < |s| && s[i] == c;
        assert s == s[..i] + [c] + s[i + 1..];
        assert c !in s[..i] && c !in s[i + 1..];
        FilterCounts(s, c);
      }
    }
  }

  /** The CEL rule holds of a list of admitted spellings exactly when the adapter's seen-set loop drops none of them. */
  lemma NoDuplicateRuleIsLossless(t: TriggerObject)
    requires SchemaAccepts(t) && t.weekdays.Some?
    ensures var names := t.weekdays.value;
            KnownDays(names) && (WeekdayNoDuplicateRule(t) <==> |FirstOccurrences(Days(names))| == |names|)
  {
    hide WeekdayByName, LongForm;
    var names := t.weekdays.value;
    var forms := LongForms(names);
    forall i | 0 <= i < |names| ensures WeekdayByName(names[i]).Some? && forms[i].Some? {
      assert names[i] in names;
      DayIsKnown(names[i]);
    }
    forall i, j | 0 <= i < j < |names| ensures forms[i] == forms[j] <==> Days(names)[i] == Days(names)[j] {
      assert names[i] in names && names[j] in names;
      SameFormSameDay(names[i], names[j]);
    }
    OnceEachIsDistinct(forms);
    FirstOccurrencesKeepsAll(Days(names));
  }

  // ---------------------------------------------------------------- admission against runtime

  /** How many weekday names an object lists, in either field. */
  function NamedDays(t: TriggerObject): nat {
    if t.weekday.Some? then 1 else if t.weekdays.Some? then |t.weekdays.value| else 0
  }

  lemma NamesAreKnown(t: TriggerObject)
    requires Admitted(t)
    ensures var names := DayNames(Decode(t));
            KnownDays(names) && |names| == NamedDays(t) && |FirstOccurrences(Days(names))| == |names|
  {
    hide WeekdayByName, LongForm;
    if t.weekday.Some? {
      DayIsKnown(t.weekday.value);
      FirstOccurrencesKeepsAll(Days([t.weekday.value]));
    } else if t.weekdays.Some? {
      NoDuplicateRuleIsLossless(t);
    }
  }

  lemma EnumKinds(r: string)
    requires r in RECURRENCES
    ensures var k := EnumKind(r);
            && !k.Other? && (k.Weekday? <==> r == "Weekday") && (k.OnDate? <==> r == "OnDate")
            && (r in ["Monthly", "Quarterly", "Yearly"] ==> k.Monthly? || k.Quarterly? || k.Yearly?)
  {
  }

  /** Every admitted trigger adapts without error and without loss: the kind is the enumerated one, it has weekdays
      exactly when it is Weekday, an offset only when it is period-anchored, and a month and day exactly when it is
      OnDate. */
  lemma AdmittedAdapts(cr: ScheduleCR, t: TriggerObject)
    requires Admitted(t) && cr.trigger == Decode(t)
    ensures Adaptable(cr)
    ensures var def := AdaptedDefinition(cr);
            && def.recurrence == EnumKind(t.recurrence) && !def.recurrence.Other?
            && Finite.Distinct(def.weekdays) && |def.weekdays| == NamedDays(t)
            && (def.weekdays != [] <==> def.recurrence.Weekday?)
            && (def.periodOffset != 0 ==>
                  def.recurrence.Monthly? || def.recurrence.Quarterly? || def.recurrence.Yearly?)
            && (if def.recurrence.OnDate? then 1 <= def.month <= 12 && 1 <= def.day <= 31
                else def.month == 0 && def.day == 0)
  {
    EnumIsAKind(t.recurrence);
    NamesAreKnown(t);
    EnumKinds(t.recurrence);
    hide WeekdayByName, LongForm, KindOf, ToLower, EnumKind;
  }

  /** An admitted Weekday schedule fires once for every name it lists in any seven consecutive dates. */
  lemma AdmittedWeekdayFires(cr: ScheduleCR, t: TriggerObject, start: Time, hour: int)
    requires Admitted(t) && cr.trigger == Decode(t) && t.recurrence == "Weekday"
    ensures Adaptable(cr) && |FiringDays(AdaptedDefinition(cr), start, hour)| == NamedDays(t)
  {
    AdmittedAdapts(cr, t);
    EnumKinds(t.recurrence);
    hide Admitted, Adaptable, AdaptedDefinition, FiringDays;
    WeekdayFiresPerWeek(AdaptedDefinition(cr), start, hour);
  }

  // ---------------------------------------------------------------- exactly what is admitted

  /** The item enum, the keys of the CEL map and the names the adapter parses are the same fourteen. */
  lemma DayNamesMatch(name: string)
    ensures WeekdayByName(name).Some? <==> name in LONG_DAYS || name in SHORT_DAYS
    ensures LongForm(name).Some? <==> WeekdayByName(name).Some?
    ensures name in LONG_DAYS <==> WeekdayByName(name).Some? && 3 < |name|
  {
  }

  lemma SevenDays(days: seq<DayOfWeek>)
    requires Finite.Distinct(days)
    ensures |days| <= 7
  {
    Finite.DistinctSize(days);
    Finite.Pigeonhole(Finite.Elements(days), 7);
  }

  lemma SameListSameRule(t: TriggerObject, u: TriggerObject)
    requires t.weekdays == u.weekdays
    ensures WeekdayNoDuplicateRule(t) <==> WeekdayNoDuplicateRule(u)
  {
    hide LongForm, FilterSize;
  }

  lemma ListAdmitted(t: TriggerObject)
    requires t.weekdays.Some?
    ensures var names := t.weekdays.value;
            (1 <= |names| <= 7 && (forall d :: d in names ==> d in LONG_DAYS || d in SHORT_DAYS)
            && WeekdayNoDuplicateRule(t)
       <==> names != [] && KnownDays(names) && Finite.Distinct(Days(names)))
  {
    hide WeekdayByName, LongForm, WeekdayNoDuplicateRule, FirstOccurrences;
    var names := t.weekdays.value;
    var plain := TriggerObject("Daily", None, Some(names), None, None, None, None);
    assert (forall d :: d in names ==> d in LONG_DAYS || d in SHORT_DAYS) <==> KnownDays(names) by {
      forall name ensures WeekdayByName(name).Some?
          <==> name in LONG_DAYS || name in SHORT_DAYS { DayNamesMatch(name); }
    }
    if KnownDays(names) {
      if Finite.Distinct(Days(names)) { SevenDays(Days(names)); }
      if 1 <= |names| <= 7 {
        assert SchemaAccepts(plain);
        NoDuplicateRuleIsLossless(plain);
        SameListSameRule(t, plain);
        FirstOccurrencesKeepsAll(Days(names));
      }
    }
  }

  lemma Kinds(r: string)
    ensures r in RECURRENCES
       <==> r in {"Daily", "Weekly", "Weekday", "Monthly", "Quarterly", "Yearly", "OnDate", "Hourly"}
    ensures r in ["Monthly", "Quarterly", "Yearly"] <==> r in {"Monthly", "Quarterly", "Yearly"}
  {
  }

  lemma FieldsAdmitted(t: TriggerObject)
    ensures PeriodOffsetRule(t)
       <==> t.periodOffset in {None, Some(0)} || t.recurrence in {"Monthly", "Quarterly", "Yearly"}
    ensures (t.month.Some? ==> 1 <= t.month.value <= 12) && (t.day.Some? ==> 1 <= t.day.value <= 31)
            && OnDateMonthDayRule(t)
       <==> if t.recurrence != "OnDate" then t.month == None && t.day == None
            else t.month.Some? && 1 <= t.month.value <= 12 && t.day.Some? && 1 <= t.day.value <= 31
  {
    Kinds(t.recurrence);
  }

  lemma DaysAdmitted(t: TriggerObject)
    ensures (t.weekday.Some? ==> t.weekday.value in LONG_DAYS)
            && (t.weekdays.Some? ==>
                  1 <= |t.weekdays.value| <= 7
                  && forall d :: d in t.weekdays.value ==> d in LONG_DAYS || d in SHORT_DAYS)
            && WeekdayXorRule(t) && WeekdayNoDuplicateRule(t)
       <==> if t.recurrence != "Weekday" then t.weekday == None && t.weekdays == None
            else if t.weekday.Some? then
              t.weekdays == None && WeekdayByName(t.weekday.value).Some? && 3 < |t.weekday.value|
            else
              t.weekdays.Some? && t.weekdays.value != [] && KnownDays(t.weekdays.value)
              && Finite.Distinct(Days(t.weekdays.value))
  {
    if t.weekday.Some? { DayNamesMatch(t.weekday.value); }
    if t.weekdays.Some? { ListAdmitted(t); }
    assert t.weekdays.None? ==> WeekdayNoDuplicateRule(t);
    hide WeekdayByName, KnownDays, WeekdayNoDuplicateRule, Days;
  }

  /** Exactly what the API server admits, rules and schema together: one of eight kinds; for Weekday one long day name
      or a non-empty list of day names of which no two mean the same day, and else neither; an offset other than zero
      for the three period-anchored kinds only; a month and a day in their bounds for OnDate, and else neither. */
  lemma AdmittedExactly(t: TriggerObject)
    ensures Admitted(t)
       <==> && t.recurrence in {"Daily", "Weekly", "Weekday", "Monthly", "Quarterly", "Yearly", "OnDate", "Hourly"}
            && (if t.recurrence != "Weekday" then t.weekday == None && t.weekdays == None
                else if t.weekday.Some? then
                  t.weekdays == None && WeekdayByName(t.weekday.value).Some? && 3 < |t.weekday.value|
                else
                  t.weekdays.Some? && t.weekdays.value != [] && KnownDays(t.weekdays.value)
                  && Finite.Distinct(Days(t.weekdays.value)))
            && (t.periodOffset in {None, Some(0)} || t.recurrence in {"Monthly", "Quarterly", "Yearly"})
            && (if t.recurrence != "OnDate" then t.month == None && t.day == None
                else t.month.Some? && 1 <= t.month.value <= 12 && t.day.Some? && 1 <= t.day.value <= 31)
  {
    DaysAdmitted(t);
    FieldsAdmitted(t);
    Kinds(t.recurrence);
    hide WeekdayByName, KnownDays, WeekdayNoDuplicateRule, WeekdayXorRule, PeriodOffsetRule, OnDateMonthDayRule, Days;
  }

  /** The adapter knows a kind exactly if it is one of the eight up to letter case. */
  lemma KnownUpToCase(s: string)
    ensures !KindOf(ToLower(s)).Other?
       <==> ToLower(s) in {"daily", "weekly", "weekday", "monthly", "quarterly", "yearly", "ondate", "hourly"}
    ensures !KindOf(ToLower(s)).Other? <==> exists r :: r in RECURRENCES && ToLower(r) == ToLower(s)
  {
    hide ToLower;
    ShortKindNames();
    LongKindNames();
    assert RECURRENCES[0] == "Daily" && RECURRENCES[1] == "Weekly" && RECURRENCES[2] == "Weekday";
    assert RECURRENCES[3] == "Monthly" && RECURRENCES[4] == "Quarterly" && RECURRENCES[5] == "Yearly";
    assert RECURRENCES[6] == "OnDate" && RECURRENCES[7] == "Hourly";
  }

  /** Letter case is that of Go, the two letters beyond ASCII that lower to ASCII included. */
  lemma LowerCaseExamples()
    ensures KindOf(ToLower("ONDATE")) == OnDate && KindOf(ToLower("Wee\U{212a}ly")) == Weekly
    ensures KindOf(ToLower("Da\U{130}ly")) == Daily
    ensures ToLower("ABCDEFGHIJKLMNOPQRSTUVWXYZ") == "abcdefghijklmnopqrstuvwxyz"
  {
    assert ToLower("ONDATE") == "ondate" && ToLower("Wee\U{212a}ly") == "weekly" && ToLower("Da\U{130}ly") == "daily";
  }
}
