/** The Schedule resource as the process reads it, and its adaptation to a task definition. */
module Store {
  import opened Calendar
  import opened Schedule
  import Finite

  datatype Option<T> = None | Some(value: T)

  datatype ScheduleTrigger = ScheduleTrigger(
    recurrence: string,
    weekday: string,
    weekdays: seq<string>,
    periodOffset: int,
    month: int,
    day: int,
    autoAbortPrior: Option<bool>)

  datatype ScheduleCR = ScheduleCR(
    name: string,
    vault: string,
    title: string,
    trigger: ScheduleTrigger,
    body: string,
    frontmatter: map<string, Value>)

  datatype AdaptError = UnknownRecurrence | UnknownWeekday(name: string)
  datatype Adapted = Ok(def: TaskDefinition) | Err(error: AdaptError)

  function WeekdayByName(name: string): Option<DayOfWeek> {
    match name
    case "Sunday" => Some(0)
    case "Monday" => Some(1)
    case "Tuesday" => Some(2)
    case "Wednesday" => Some(3)
    case "Thursday" => Some(4)
    case "Friday" => Some(5)
    case "Saturday" => Some(6)
    case "Sun" => Some(0)
    case "Mon" => Some(1)
    case "Tue" => Some(2)
    case "Wed" => Some(3)
    case "Thu" => Some(4)
    case "Fri" => Some(5)
    case "Sat" => Some(6)
    case _ => None
  }

  /** `strings.ToLower` as far as a kind can tell: the ASCII letters, and the two other letters whose lower case is
      ASCII. */
  function LowerChar(c: char): char {
    if 'A' <= c <= 'Z' then (c as int + 32) as char
    else if c == '\U{212a}' then 'k'
    else if c == '\U{130}' then 'i'
    else c
  }

  function ToLower(s: string): string {
    seq(|s|, i requires 0 <= i < |s| => LowerChar(s[i]))
  }

  /** The conversion of a string to the kind type. */
  function KindOf(s: string): RecurrenceKind {
    match s
    case "daily" => Daily
    case "weekly" => Weekly
    case "weekday" => Weekday
    case "monthly" => Monthly
    case "quarterly" => Quarterly
    case "yearly" => Yearly
    case "ondate" => OnDate
    case "hourly" => Hourly
    case _ => Other(s)
  }

  function DayNames(trigger: ScheduleTrigger): seq<string> {
    if trigger.weekday != "" then [trigger.weekday] else trigger.weekdays
  }

  predicate KnownDays(names: seq<string>) {
    forall i :: 0 <= i < |names| ==> WeekdayByName(names[i]).Some?
  }

  predicate IsFirstUnknown(names: seq<string>, i: nat)
    requires i < |names|
  {
    WeekdayByName(names[i]).None? && KnownDays(names[..i])
  }

  function Days(names: seq<string>): (days: seq<DayOfWeek>)
    requires KnownDays(names)
    ensures |days| == |names|
  {
    seq(|names|, i requires 0 <= i < |names| => WeekdayByName(names[i]).value)
  }

  /** Each day once, in the order of its first occurrence. */
  function FirstOccurrences(days: seq<DayOfWeek>): (out: seq<DayOfWeek>)
    ensures Finite.Distinct(out) && (forall d :: d in out <==> d in days) && |out| <= |days|
  {
    if days == [] then []
    else
      var front, last := days[..|days| - 1], days[|days| - 1];
      assert forall d :: d in days <==> d in front || d == last;
      if last in front then FirstOccurrences(front) else FirstOccurrences(front) + [last]
  }

  function Definition(cr: ScheduleCR, kind: RecurrenceKind, weekdays: seq<DayOfWeek>): TaskDefinition {
    TaskDefinition(cr.name, cr.title, cr.body, kind, weekdays, cr.trigger.month, cr.trigger.day, cr.frontmatter,
      cr.trigger.periodOffset, cr.trigger.autoAbortPrior.Some? && cr.trigger.autoAbortPrior.value, cr.vault)
  }

  predicate Adaptable(cr: ScheduleCR) {
    !KindOf(ToLower(cr.trigger.recurrence)).Other? && KnownDays(DayNames(cr.trigger))
  }

  function AdaptedDefinition(cr: ScheduleCR): TaskDefinition
    requires Adaptable(cr)
  {
    Definition(cr, KindOf(ToLower(cr.trigger.recurrence)), FirstOccurrences(Days(DayNames(cr.trigger))))
  }

  /** The definition has the resource's own fields; the flag is set exactly if the resource sets it. */
  predicate CopiesFields(cr: ScheduleCR, def: TaskDefinition) {
    && def.slug == cr.name && def.titleTemplate == cr.title && def.bodyTemplate == cr.body && def.vault == cr.vault
    && def.frontmatter == cr.frontmatter && def.periodOffset == cr.trigger.periodOffset
    && def.month == cr.trigger.month && def.day == cr.trigger.day
    && (def.autoAbortPrior <==> cr.trigger.autoAbortPrior == Some(true))
  }

  lemma OneDay(d: DayOfWeek)
    ensures FirstOccurrences([d]) == [d]
  {
    assert [d][..0] == [];
  }

  lemma DaysOfNames(names: seq<string>)
    requires KnownDays(names)
    ensures forall d :: d in Days(names) <==> exists i :: 0 <= i < |names| && WeekdayByName(names[i]) == Some(d)
  {
    hide WeekdayByName;
    forall i | 0 <= i < |names| ensures WeekdayByName(names[i]) == Some(Days(names)[i]) {}
  }

  lemma FieldsCopied(cr: ScheduleCR)
    requires Adaptable(cr)
    ensures CopiesFields(cr, AdaptedDefinition(cr))
  {
    hide WeekdayByName, KindOf, ToLower, FirstOccurrences, Days;
  }

  /** What a definition takes over from its resource; a single `weekday` comes before a list of `weekdays`. */
  lemma AdaptationCopies(cr: ScheduleCR)
    requires Adaptable(cr)
    ensures CopiesFields(cr, AdaptedDefinition(cr))
    ensures var days := AdaptedDefinition(cr).weekdays;
            && (cr.trigger.weekday != "" ==>
                  WeekdayByName(cr.trigger.weekday).Some? && days == [WeekdayByName(cr.trigger.weekday).value])
            && (cr.trigger.weekday == "" ==>
                  forall d :: d in days <==> exists i ::
                    0 <= i < |cr.trigger.weekdays| && WeekdayByName(cr.trigger.weekdays[i]) == Some(d))
  {
    hide WeekdayByName, KindOf, ToLower;
    if cr.trigger.weekday != "" {
      var name := cr.trigger.weekday;
      assert DayNames(cr.trigger) == [name] && WeekdayByName([name][0]).Some?;
      OneDay(WeekdayByName(name).value);
      assert Days([name]) == [WeekdayByName(name).value];
    } else {
      hide FirstOccurrences;
      DaysOfNames(cr.trigger.weekdays);
    }
  }

  lemma KnownKinds(kind: RecurrenceKind)
    ensures kind in ALL_KINDS <==> !kind.Other?
  {
    assert ALL_KINDS[0] == Daily && ALL_KINDS[1] == Weekly && ALL_KINDS[2] == Weekday && ALL_KINDS[3] == Monthly;
    assert ALL_KINDS[4] == Quarterly && ALL_KINDS[5] == Yearly && ALL_KINDS[6] == OnDate && ALL_KINDS[7] == Hourly;
  }

  lemma OneMoreName(names: seq<string>, i: nat)
    requires i < |names| && KnownDays(names[..i]) && WeekdayByName(names[i]).Some?
    ensures KnownDays(names[..i + 1])
    ensures var days := Days(names[..i]); var d := WeekdayByName(names[i]).value;
            (Days(names[..i + 1]) == days + [d]
            && FirstOccurrences(days + [d]) ==
                 if d in days then FirstOccurrences(days) else FirstOccurrences(days) + [d])
  {
    hide WeekdayByName;
    var days, d := Days(names[..i]), WeekdayByName(names[i]).value;
    assert Days(names[..i + 1]) == days + [d];
    assert (days + [d])[..|days|] == days;
  }

  method AdaptSchedule(cr: ScheduleCR) returns (r: Adapted)
    ensures r.Ok? <==> Adaptable(cr)
    ensures r.Ok? ==> r.def == AdaptedDefinition(cr)
    ensures r.Ok? ==> CopiesFields(cr, r.def)
    ensures r.Err? && r.error.UnknownRecurrence? <==> KindOf(ToLower(cr.trigger.recurrence)).Other?
    ensures r.Err? && r.error.UnknownWeekday? ==>
              exists i :: 0 <= i < |DayNames(cr.trigger)|
                && IsFirstUnknown(DayNames(cr.trigger), i) && r.error.name == DayNames(cr.trigger)[i]
  {
    hide WeekdayByName, KindOf, ToLower, FirstOccurrences, Days, CopiesFields;
    var kind := KindOf(ToLower(cr.trigger.recurrence));
    var valid := false;
    for i := 0 to |ALL_KINDS|
      invariant !valid && kind !in ALL_KINDS[..i]
    {
      if ALL_KINDS[i] == kind {
        valid := true;
        break;
      }
    }
    KnownKinds(kind);
    if !valid {
      return Err(UnknownRecurrence);
    }
    var names: seq<string> := [];
    if cr.trigger.weekday != "" {
      names := [cr.trigger.weekday];
    } else if |cr.trigger.weekdays| > 0 {
      names := cr.trigger.weekdays;
    }
    var weekdays: seq<DayOfWeek> := [];
    var seen: map<DayOfWeek, bool> := map[];
    for i := 0 to |names|
      invariant KnownDays(names[..i])
      invariant weekdays == FirstOccurrences(Days(names[..i]))
      invariant seen.Keys == (set d | d in weekdays) && forall d :: d in seen ==> seen[d]
    {
      var wd := WeekdayByName(names[i]);
      if wd.None? {
        assert IsFirstUnknown(names, i);
        return Err(UnknownWeekday(names[i]));
      }
      OneMoreName(names, i);
      if wd.value in seen && seen[wd.value] {
        continue;
      }
      seen := seen[wd.value := true];
      weekdays := weekdays + [wd.value];
    }
    assert names[..|names|] == names;
    var autoAbortPrior := false;
    if cr.trigger.autoAbortPrior.Some? {
      autoAbortPrior := cr.trigger.autoAbortPrior.value;
    }
    r := Ok(TaskDefinition(cr.name, cr.title, cr.body, kind, weekdays, cr.trigger.month, cr.trigger.day, cr.frontmatter,
      cr.trigger.periodOffset, autoAbortPrior, cr.vault));
    FieldsCopied(cr);
  }

  // ---------------------------------------------------------------- what adaptation keeps

  /** The position at which a day is first named. */
  function FirstIndex(days: seq<DayOfWeek>, d: DayOfWeek): (i: nat)
    requires d in days
    ensures i < |days| && days[i] == d && d !in days[..i]
  {
    if d in days[..|days| - 1] then
      var i := FirstIndex(days[..|days| - 1], d);
      assert days[..|days| - 1][..i] == days[..i];
      i
    else |days| - 1
  }

  lemma FirstIndexOfFront(days: seq<DayOfWeek>, d: DayOfWeek)
    requires days != [] && d in days[..|days| - 1]
    ensures FirstIndex(days, d) == FirstIndex(days[..|days| - 1], d)
  {
  }

  /** The seen-set loop keeps the order of first occurrences. */
  lemma {:induction false} FirstOccurrencesInOrder(days: seq<DayOfWeek>, i: nat, j: nat)
    requires i < j < |FirstOccurrences(days)|
    ensures FirstIndex(days, FirstOccurrences(days)[i]) < FirstIndex(days, FirstOccurrences(days)[j])
  {
    var front, last := days[..|days| - 1], days[|days| - 1];
    var out, kept := FirstOccurrences(days), FirstOccurrences(front);
    assert out[i] == kept[i] && kept[i] in front;
    FirstIndexOfFront(days, kept[i]);
    if j < |kept| {
      assert out[j] == kept[j] && kept[j] in front;
      FirstIndexOfFront(days, kept[j]);
      FirstOccurrencesInOrder(front, i, j);
    }
  }

  lemma DistinctSplits(front: seq<DayOfWeek>, last: DayOfWeek)
    ensures Finite.Distinct(front + [last]) <==> Finite.Distinct(front) && last !in front
  {
    var days := front + [last];
    assert forall i :: 0 <= i < |front| ==> days[i] == front[i];
    if last in front {
      var i :| 0 <= i < |front| && front[i] == last;
      assert days[i] == days[|front|];
    }
    if Finite.Distinct(days) {
      assert forall i, j :: 0 <= i < j < |front| ==> days[i] == front[i] && days[j] == front[j];
    }
  }

  /** It drops nothing exactly when no day is named twice. */
  lemma {:induction false} FirstOccurrencesKeepsAll(days: seq<DayOfWeek>)
    ensures |FirstOccurrences(days)| == |days| <==> Finite.Distinct(days)
    ensures Finite.Distinct(days) ==> FirstOccurrences(days) == days
  {
    if days != [] {
      var front, last := days[..|days| - 1], days[|days| - 1];
      FirstOccurrencesKeepsAll(front);
      assert days == front + [last];
      DistinctSplits(front, last);
    }
  }

  // ---------------------------------------------------------------- the store

  /** `List` keeps the resources that adapt, in order. */
  function AdaptAll(crs: seq<ScheduleCR>): (defs: seq<TaskDefinition>)
    ensures forall def :: def in defs <==> exists cr :: cr in crs && Adaptable(cr) && def == AdaptedDefinition(cr)
  {
    if crs == [] then []
    else
      var front, last := crs[..|crs| - 1], crs[|crs| - 1];
      assert forall cr :: cr in crs <==> cr in front || cr == last;
      AdaptAll(front) + if Adaptable(last) then [AdaptedDefinition(last)] else []
  }

  lemma AdaptEndsWith(crs: seq<ScheduleCR>, last: ScheduleCR)
    ensures AdaptAll(crs + [last]) == AdaptAll(crs) + if Adaptable(last) then [AdaptedDefinition(last)] else []
  {
    hide Adaptable, AdaptedDefinition;
    assert (crs + [last])[..|crs|] == crs;
  }

  lemma NothingAdapts()
    ensures AdaptAll([]) == []
  {
  }

  /** Listing takes the cache resource by resource: each one that adapts gives one definition in its place, and one that
      does not hides no other. */
  lemma {:induction false} AdaptPartByPart(front: seq<ScheduleCR>, back: seq<ScheduleCR>)
    ensures AdaptAll(front + back) == AdaptAll(front) + AdaptAll(back)
    ensures |back| == 1 ==> AdaptAll(back) == if Adaptable(back[0]) then [AdaptedDefinition(back[0])] else []
  {
    NothingAdapts();
    hide Adaptable, AdaptedDefinition, AdaptAll;
    if back == [] {
      assert front + back == front;
    } else {
      var rest, last := back[..|back| - 1], back[|back| - 1];
      assert back == rest + [last] && front + back == (front + rest) + [last];
      AdaptPartByPart(front, rest);
      AdaptEndsWith(front + rest, last);
      AdaptEndsWith(rest, last);
    }
  }

  /** The informer cache of one namespace; `None` is a lister error. */
  class ScheduleStore {
    var cache: Option<seq<ScheduleCR>>

    constructor (cache: Option<seq<ScheduleCR>>)
      ensures this.cache == cache
    {
      this.cache := cache;
    }

    method List() returns (r: Option<seq<TaskDefinition>>)
      ensures r == match cache case None => None case Some(crs) => Some(AdaptAll(crs))
    {
      hide Adaptable, AdaptedDefinition;
      if cache.None? {
        return None;
      }
      var crs := cache.value;
      var out: seq<TaskDefinition> := [];
      for i := 0 to |crs|
        invariant out == AdaptAll(crs[..i])
      {
        assert crs[..i + 1][..i] == crs[..i];
        var adapted := AdaptSchedule(crs[i]);
        if adapted.Err? {
          continue;
        }
        out := out + [adapted.def];
      }
      assert crs[..|crs|] == crs;
      r := Some(out);
    }
  }
}
