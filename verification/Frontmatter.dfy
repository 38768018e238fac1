/** The frontmatter stamped onto every published task. */
module Frontmatter {
  import opened Calendar
  import opened Schedule
  import opened PeriodToken
  import opened Placeholders

  /** Defaults, which operator keys may override. */
  function Seeds(): map<string, Value> {
    map["status" := Str("in_progress"), "page_type" := Str("task"), "phase" := Str("planning")]
  }

  /** Keys stamped last, whatever the operator wrote. */
  function Forced(date: Date, autoAbortPrior: bool, kind: RecurrenceKind): map<string, Value> {
    map["defer_date" := Str(DeferDate(kind, date)), "auto_abort_prior" := Bool(autoAbortPrior),
        "created_by" := Str("recurring-task-creator")]
  }

  function RenderedEntry(entry: Value, date: Date): Value {
    if entry.Str? then Str(Rendered(entry.text, date)) else entry
  }

  /** Lists are rendered entry by entry; nested lists and maps are not entered. */
  function RenderedValue(v: Value, date: Date): Value {
    match v
    case List(items) => List(seq(|items|, i requires 0 <= i < |items| => RenderedEntry(items[i], date)))
    case _ => RenderedEntry(v, date)
  }

  function RenderedKeys(operator: map<string, Value>, keys: set<string>, date: Date): map<string, Value> {
    map k | k in operator && k in keys :: RenderedValue(operator[k], date)
  }

  /** Forced keys override the operator's, which override the seeds; nothing else is in the map. */
  function Formatted(
    operator: map<string, Value>, date: Date, autoAbortPrior: bool, kind: RecurrenceKind): map<string, Value> {
    Seeds() + RenderedKeys(operator, operator.Keys, date) + Forced(date, autoAbortPrior, kind)
  }

  /** Value by value: a text is rendered, a list keeps its length and has its texts rendered, and everything else is
      kept, lists and maps inside a list included. */
  lemma RenderedPointwise(v: Value, date: Date)
    ensures v.Str? ==> RenderedValue(v, date) == Str(Rendered(v.text, date))
    ensures v.Bool? || v.Int? || v.Map? ==> RenderedValue(v, date) == v
    ensures v.List? ==>
              var r := RenderedValue(v, date);
              r.List? && |r.items| == |v.items|
              && forall i :: 0 <= i < |v.items| ==>
                   r.items[i] == if v.items[i].Str? then Str(Rendered(v.items[i].text, date)) else v.items[i]
  {
    hide Rendered;
  }

  /** A value rendered once stays as it is, whatever date it is rendered for again. */
  lemma RenderValueTwice(v: Value, date: Date, other: Date)
    ensures RenderedValue(RenderedValue(v, date), other) == RenderedValue(v, date)
  {
    hide Rendered;
    RenderedPointwise(v, date);
    RenderedPointwise(RenderedValue(v, date), other);
    if v.Str? {
      RenderTwice(v.text, date, other);
    } else if v.List? {
      forall i | 0 <= i < |v.items| && v.items[i].Str?
        ensures Rendered(Rendered(v.items[i].text, date), other) == Rendered(v.items[i].text, date)
      {
        RenderTwice(v.items[i].text, date, other);
      }
      assert RenderedValue(RenderedValue(v, date), other).items == RenderedValue(v, date).items;
    }
  }

  /** The operator's list is rendered into a new one and is itself left as it was. */
  method RenderList(list: array<Value>, slug: string, date: Date) returns (out: array<Value>)
    ensures fresh(out) && List(out[..]) == RenderedValue(List(old(list[..])), date)
    ensures list[..] == old(list[..])
    ensures out.Length == list.Length
    ensures forall i :: 0 <= i < list.Length ==>
              out[i] == if list[i].Str? then Str(Rendered(list[i].text, date)) else list[i]
  {
    hide Rendered;
    out := new Value[list.Length](_ => Bool(false));
    for i := 0 to list.Length
      invariant forall j :: 0 <= j < i ==> out[j] == RenderedEntry(list[j], date)
    {
      if list[i].Str? {
        var text := Render(list[i].text, slug, date);
        out[i] := Str(text);
      } else {
        out[i] := list[i];
      }
    }
  }

  method RenderOne(v: Value, slug: string, date: Date) returns (r: Value)
    ensures r == RenderedValue(v, date)
  {
    match v {
      case List(items) =>
        var list := new Value[|items|](i requires 0 <= i < |items| => items[i]);
        assert list[..] == items;
        var rendered := RenderList(list, slug, date);
        r := List(rendered[..]);
      case Str(text) =>
        var s := Render(text, slug, date);
        r := Str(s);
      case _ =>
        r := v;
    }
  }

  lemma OneMoreKey(m: map<string, Value>, operator: map<string, Value>, rest: set<string>, k: string, date: Date)
    requires k in rest && rest <= operator.Keys
    ensures (m + RenderedKeys(operator, operator.Keys - rest, date))[k := RenderedValue(operator[k], date)]
         == m + RenderedKeys(operator, operator.Keys - (rest - {k}), date)
  {
    hide RenderedValue;
  }

  lemma Stamps(m: map<string, Value>, date: Date, autoAbortPrior: bool, kind: RecurrenceKind)
    ensures m + Forced(date, autoAbortPrior, kind)
         == m["defer_date" := Str(DeferDate(kind, date))]["auto_abort_prior" := Bool(autoAbortPrior)]
            ["created_by" := Str("recurring-task-creator")]
  {
    hide DeferDate;
  }

  /** Go ranges over the operator map in an arbitrary order, and the result is the same for each. */
  method Format(operator: map<string, Value>, slug: string, date: Date, autoAbortPrior: bool, kind: RecurrenceKind)
    returns (out: map<string, Value>)
    ensures out == Formatted(operator, date, autoAbortPrior, kind)
  {
    hide RenderedValue, Rendered, DeferDate, Seeds, Forced;
    assert RenderedKeys(operator, {}, date) == map[] && operator.Keys - operator.Keys == {};
    hide RenderedKeys;
    out := Seeds();
    var rest := operator.Keys;
    while rest != {}
      invariant rest <= operator.Keys
      invariant out == Seeds() + RenderedKeys(operator, operator.Keys - rest, date)
      decreases rest
    {
      var k :| k in rest;
      var v := RenderOne(operator[k], slug, date);
      OneMoreKey(Seeds(), operator, rest, k, date);
      out := out[k := v];
      rest := rest - {k};
    }
    assert operator.Keys - rest == operator.Keys;
    Stamps(out, date, autoAbortPrior, kind);
    out := out["defer_date" := Str(DeferDate(kind, date))];
    out := out["auto_abort_prior" := Bool(autoAbortPrior)];
    out := out["created_by" := Str("recurring-task-creator")];
  }

  lemma ForcedKeys(date: Date, autoAbortPrior: bool, kind: RecurrenceKind)
    ensures var f := Forced(date, autoAbortPrior, kind);
            && f.Keys == {"defer_date", "auto_abort_prior", "created_by"}
            && f["defer_date"] == Str(DeferDate(kind, date)) && f["auto_abort_prior"] == Bool(autoAbortPrior)
            && f["created_by"] == Str("recurring-task-creator")
  {
    hide DeferDate;
    assert "defer_date"[0] == 'd' && "auto_abort_prior"[0] == 'a' && "created_by"[0] == 'c';
  }

  /** What a task can count on, whatever its operator wrote. */
  lemma StampedKeys(operator: map<string, Value>, date: Date, autoAbortPrior: bool, kind: RecurrenceKind)
    ensures var out := Formatted(operator, date, autoAbortPrior, kind);
            && out.Keys ==
                 operator.Keys + {"status", "page_type", "phase", "defer_date", "auto_abort_prior", "created_by"}
            && out["defer_date"] == Str(DeferDate(kind, date)) && out["auto_abort_prior"] == Bool(autoAbortPrior)
            && out["created_by"] == Str("recurring-task-creator")
            && forall k :: k in operator && k !in {"defer_date", "auto_abort_prior", "created_by"} ==>
                 out[k] == RenderedValue(operator[k], date)
  {
    hide DeferDate, RenderedValue;
    ForcedKeys(date, autoAbortPrior, kind);
    hide Forced;
  }

  lemma NoSeedIsForced()
    ensures Seeds().Keys == {"status", "page_type", "phase"}
    ensures Seeds()["status"] == Str("in_progress") && Seeds()["page_type"] == Str("task")
            && Seeds()["phase"] == Str("planning")
    ensures {"status", "page_type", "phase"} !! {"defer_date", "auto_abort_prior", "created_by"}
  {
    assert "defer_date"[0] == 'd' && "auto_abort_prior"[0] == 'a' && "created_by"[0] == 'c';
    assert "status"[0] == 's' && "page_type"[1] == 'a' && "phase"[1] == 'h';
  }

  lemma RenderedKeysKept(operator: map<string, Value>, date: Date)
    ensures RenderedKeys(operator, operator.Keys, date).Keys == operator.Keys
  {
  }

  /** What it gets where its operator wrote nothing: a row that is in progress, a task, and ready to be picked up. */
  lemma SeededKeys(operator: map<string, Value>, date: Date, autoAbortPrior: bool, kind: RecurrenceKind)
    ensures var out := Formatted(operator, date, autoAbortPrior, kind);
            && ("status" in out && ("status" !in operator ==> out["status"] == Str("in_progress")))
            && ("page_type" in out && ("page_type" !in operator ==> out["page_type"] == Str("task")))
            && ("phase" in out && ("phase" !in operator ==> out["phase"] == Str("planning")))
  {
    hide Forced, RenderedKeys;
    ForcedKeys(date, autoAbortPrior, kind);
    NoSeedIsForced();
    hide Seeds;
    RenderedKeysKept(operator, date);
  }

  /** The kind reaches the frontmatter through `defer_date` alone. */
  lemma OnlyDeferDateDependsOnKind(
    operator: map<string, Value>, date: Date, autoAbortPrior: bool, kind: RecurrenceKind, kind': RecurrenceKind)
    ensures Formatted(operator, date, autoAbortPrior, kind) - {"defer_date"}
         == Formatted(operator, date, autoAbortPrior, kind') - {"defer_date"}
  {
    hide DeferDate, RenderedValue;
    ForcedKeys(date, autoAbortPrior, kind);
    ForcedKeys(date, autoAbortPrior, kind');
    hide Forced;
    var f, g := Forced(date, autoAbortPrior, kind), Forced(date, autoAbortPrior, kind');
    assert f - {"defer_date"} == g - {"defer_date"};
  }

  lemma RenderIgnoresHour(date: Date, hour: int)
    ensures forall template :: Rendered(template, date.(hour := hour)) == Rendered(template, date)
  {
    assert date.(hour := hour).Time() == date.Time();
    assert Values(date.(hour := hour)) == Values(date);
    assert Table(date.(hour := hour)) == Table(date);
  }

  /** The hour reaches the frontmatter not at all. */
  lemma FrontmatterIgnoresHour(
    operator: map<string, Value>, date: Date, autoAbortPrior: bool, kind: RecurrenceKind, hour: int)
    ensures Formatted(operator, date.(hour := hour), autoAbortPrior, kind)
            == Formatted(operator, date, autoAbortPrior, kind)
  {
    hide MonthStart, MonthIndex;
    RenderIgnoresHour(date, hour);
    assert DeferDate(kind, date.(hour := hour)) == DeferDate(kind, date);
    hide DeferDate, Rendered;
    forall k | k in operator
      ensures RenderedValue(operator[k], date.(hour := hour)) == RenderedValue(operator[k], date)
    {
    }
  }
}
