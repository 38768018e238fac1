/** From a definition and a date to one create command, sent once. */
module Publishing {
  import opened Calendar
  import opened Schedule
  import opened PeriodToken
  import opened Placeholders
  import opened Frontmatter
  import opened Identifier

  /** `identifierName` is the input of the UUID5 that the wire command carries. */
  datatype Command = Command(
    identifierName: string, title: string, frontmatter: map<string, Value>, body: string, vault: string)

  datatype PublishError = EmptySlug | ZeroDate | NoToken(error: BuildError) | SendFailed

  datatype Prepared = Ready(command: Command) | Refused(error: PublishError)

  /** What became of a send: acknowledged, refused, or delivered although an error came back. */
  datatype Outcome = Acked | Rejected | Unconfirmed

  datatype Attempt = Attempt(def: TaskDefinition, date: Date, command: Command, outcome: Outcome)

  // ---------------------------------------------------------------- the command

  /** `unicode.IsSpace`. */
  predicate IsSpace(c: char) {
    || c in ['\t', '\n', '\U{b}', '\U{c}', '\r', ' ', '\U{85}', '\U{a0}']
    || c in ['\U{1680}', '\U{2028}', '\U{2029}', '\U{202f}', '\U{205f}', '\U{3000}']
    || '\U{2000}' <= c <= '\U{200a}'
  }

  /** The code points that Unicode calls white space. */
  lemma SpaceCodePoints(c: char)
    ensures IsSpace(c)
       <==> var n := c as int;
            9 <= n <= 13 || n in {32, 133, 160, 5760, 8232, 8233, 8239, 8287, 12288} || 8192 <= n <= 8202
  {
  }

  function TrimLeft(s: string): string {
    if s != [] && IsSpace(s[0]) then TrimLeft(s[1..]) else s
  }

  function TrimSpace(s: string): string {
    if s != [] && IsSpace(s[|s| - 1]) then TrimSpace(s[..|s| - 1]) else TrimLeft(s)
  }

  lemma {:induction false} TrimLeftStrips(s: string) returns (before: string)
    ensures s == before + TrimLeft(s) && forall c :: c in before ==> IsSpace(c)
    ensures TrimLeft(s) != [] ==> !IsSpace(TrimLeft(s)[0])
  {
    hide IsSpace;
    if s != [] && IsSpace(s[0]) {
      before := TrimLeftStrips(s[1..]);
      before := [s[0]] + before;
    } else {
      before := [];
    }
  }

  /** Only leading and trailing white space goes, and all of it goes. */
  lemma {:induction false} TrimSpaceStrips(s: string) returns (before: string, after: string)
    ensures s == before + TrimSpace(s) + after
    ensures (forall c :: c in before ==> IsSpace(c)) && forall c :: c in after ==> IsSpace(c)
    ensures var r := TrimSpace(s); r != [] ==> !IsSpace(r[0]) && !IsSpace(r[|r| - 1])
  {
    hide IsSpace;
    if s != [] && IsSpace(s[|s| - 1]) {
      before, after := TrimSpaceStrips(s[..|s| - 1]);
      after := after + [s[|s| - 1]];
    } else {
      before := TrimLeftStrips(s);
      after := [];
    }
  }

  lemma NothingToTrim(s: string)
    requires s != [] && !IsSpace(s[0]) && !IsSpace(s[|s| - 1])
    ensures TrimSpace(s) == s
  {
    hide IsSpace;
  }

  function Heading(def: TaskDefinition, date: Date): string {
    TrimSpace(Rendered(def.titleTemplate, date))
  }

  /** The guards of `Publish` in their order, then the command. */
  function Prepare(def: TaskDefinition, date: Date): Prepared {
    if def.slug == "" then Refused(EmptySlug)
    else if date.IsZero() then Refused(ZeroDate)
    else
      match Build(def, date)
      case Err(e) => Refused(NoToken(e))
      case Ok(token) =>
        Ready(Command(
          Name(def.slug, token),
          Title(Heading(def, date), token),
          Formatted(def.frontmatter, date, def.autoAbortPrior, def.recurrence),
          Rendered(def.bodyTemplate, date),
          def.vault))
  }

  lemma BuildRefuses(def: TaskDefinition, date: Date)
    ensures Build(def, date) == Token.Err(UnknownKind) <==> def.recurrence.Other?
    ensures Build(def, date) == Token.Err(WeekdayNotInSet)
       <==> def.recurrence.Weekday? && WeekdayOf(date.Time()) !in def.weekdays
    ensures Build(def, date).Ok? || Build(def, date).error in {UnknownKind, WeekdayNotInSet}
  {
    hide MakeTime, WeekdayOf, AddDate, ISOWeek, YearOf, MonthOf;
  }

  /** When each guard stops a publish: the first that applies, in this order. */
  lemma GuardsInOrder(def: TaskDefinition, date: Date)
    ensures Prepare(def, date) == Refused(EmptySlug) <==> def.slug == ""
    ensures Prepare(def, date) == Refused(ZeroDate)
       <==> def.slug != "" && date.year == 0 && date.month == 0 && date.day == 0
    ensures Prepare(def, date) == Refused(NoToken(UnknownKind))
       <==> def.slug != "" && !(date.year == 0 && date.month == 0 && date.day == 0) && def.recurrence.Other?
    ensures Prepare(def, date) == Refused(NoToken(WeekdayNotInSet))
       <==> def.slug != "" && !(date.year == 0 && date.month == 0 && date.day == 0)
            && def.recurrence.Weekday? && WeekdayOf(date.Time()) !in def.weekdays
    ensures Prepare(def, date).Ready? || Prepare(def, date).error in {
              EmptySlug, ZeroDate, NoToken(UnknownKind), NoToken(WeekdayNotInSet)}
  {
    BuildRefuses(def, date);
    hide Build, WeekdayOf, MakeTime, Rendered, Formatted, Name, Title, TrimSpace;
  }

  /** Every definition with a slug that fires on a real date is ready to send: no guard stops it. */
  lemma FiringIsReady(def: TaskDefinition, date: Date)
    requires def.slug != "" && date.Valid() && Fires(def, date)
    ensures Prepare(def, date).Ready?
    ensures Prepare(def, date).command.identifierName
            == Name(def.slug, PeriodName(def.recurrence, NamedPeriod(def, date)))
  {
    ValidDate(date);
    BuildNamesPeriod(def, date);
    hide Build, PeriodName, NamedPeriod, Formatted, Rendered, Fires, MakeTime;
  }

  /** Identifier and title name the period the offset points at, `defer_date` the first day of the fire period itself.
      */
  lemma CommandNamesPeriod(def: TaskDefinition, date: Date)
    requires def.slug != "" && date.Valid() && Fires(def, date)
    ensures Prepare(def, date).Ready?
    ensures var c := Prepare(def, date).command;
            var token := PeriodName(def.recurrence, NamedPeriod(def, date));
            && c.identifierName == Name(def.slug, token) && c.title == Title(Heading(def, date), token)
            && c.body == Rendered(def.bodyTemplate, date) && c.vault == def.vault
            && "defer_date" in c.frontmatter && c.frontmatter["defer_date"] == Str(FmtDateOf(
                 if def.recurrence.OnDate? then date.Time()
                 else PeriodStart(def.recurrence, Period(def.recurrence, date))))
  {
    FiringIsReady(def, date);
    BuildNamesPeriod(def, date);
    hide Build, PeriodName, NamedPeriod, Formatted, Rendered, Fires, MakeTime, DeferDate, Heading, Name, Title,
         FmtDateOf;
    StampedKeys(def.frontmatter, date, def.autoAbortPrior, def.recurrence);
    DeferDateIsPeriodStart(def.recurrence, date);
  }

  /** Every part of the command, for an entry with a slug that fires on a real date. Its frontmatter has the operator's
      keys and the six stamped ones and no other: the three forced ones hold the start of the fire period, the
      definition's flag and the creator, every other operator key its own rendered value, and a seed stands where the
      operator wrote nothing. Title and body are the rendered templates, the title trimmed and followed by the token. */
  lemma CommandCarriesDefinition(def: TaskDefinition, date: Date)
    requires def.slug != "" && date.Valid() && Fires(def, date)
    ensures Prepare(def, date).Ready? && Build(def, date).Ok?
    ensures var c := Prepare(def, date).command; var token := Build(def, date).text;
            && c.identifierName == "recurring-" + def.slug + "-" + token
            && c.title == TrimSpace(Rendered(def.titleTemplate, date)) + " - " + token
            && c.body == Rendered(def.bodyTemplate, date) && c.vault == def.vault
    ensures var f := Prepare(def, date).command.frontmatter;
            && f.Keys == def.frontmatter.Keys
                 + {"status", "page_type", "phase", "defer_date", "auto_abort_prior", "created_by"}
            && f["defer_date"] == Str(FmtDateOf(
                 if def.recurrence.OnDate? then date.Time()
                 else PeriodStart(def.recurrence, Period(def.recurrence, date))))
            && f["auto_abort_prior"] == Bool(def.autoAbortPrior)
            && f["created_by"] == Str("recurring-task-creator")
            && (forall k :: k in def.frontmatter && k !in {"defer_date", "auto_abort_prior", "created_by"} ==>
                  f[k] == RenderedValue(def.frontmatter[k], date))
            && ("status" !in def.frontmatter ==> f["status"] == Str("in_progress"))
            && ("page_type" !in def.frontmatter ==> f["page_type"] == Str("task"))
            && ("phase" !in def.frontmatter ==> f["phase"] == Str("planning"))
  {
    hide PeriodName, NamedPeriod, Fires, MakeTime, DeferDate, FmtDateOf, Build, Formatted, Rendered, RenderedValue,
         TrimSpace, PeriodStart, Period;
    FiringIsReady(def, date);
    StampedKeys(def.frontmatter, date, def.autoAbortPrior, def.recurrence);
    SeededKeys(def.frontmatter, date, def.autoAbortPrior, def.recurrence);
    DeferDateIsPeriodStart(def.recurrence, date);
  }

  lemma TokenIgnoresHour(def: TaskDefinition, date: Date, hour: int)
    ensures !def.recurrence.Hourly? ==> Build(def, date.(hour := hour)) == Build(def, date)
    ensures Build(def, date).Ok? <==> Build(def, date.(hour := hour)).Ok?
  {
    assert date.(hour := hour).Time() == date.Time();
    hide MonthIndex, MonthStart;
  }

  /** The hour reaches the command of no kind but Hourly, and there only the identifier and the title. */
  lemma CommandIgnoresHour(def: TaskDefinition, date: Date, hour: int)
    ensures !def.recurrence.Hourly? ==> Prepare(def, date.(hour := hour)) == Prepare(def, date)
    ensures Prepare(def, date).Ready? <==> Prepare(def, date.(hour := hour)).Ready?
    ensures Prepare(def, date).Ready? ==>
              var a, b := Prepare(def, date).command, Prepare(def, date.(hour := hour)).command;
              a == b.(identifierName := a.identifierName, title := a.title)
  {
    TokenIgnoresHour(def, date, hour);
    RenderIgnoresHour(date, hour);
    FrontmatterIgnoresHour(def.frontmatter, date, def.autoAbortPrior, def.recurrence, hour);
    hide Build, Formatted, Rendered, Name, Title, TrimSpace;
  }

  // ---------------------------------------------------------------- sending

  /** The world outside: the outcome of each send, by its position, and whether this process sends at all. */
  datatype Env = Env(outcome: nat -> Outcome, dryRun: bool)

  datatype Result = Success | Failure(error: PublishError)

  function PublishResult(env: Env, log: seq<Attempt>, def: TaskDefinition, date: Date): Result {
    match Prepare(def, date)
    case Refused(e) => Failure(e)
    case Ready(_) => if env.dryRun || env.outcome(|log|).Acked? then Success else Failure(SendFailed)
  }

  function PublishLog(env: Env, log: seq<Attempt>, def: TaskDefinition, date: Date): seq<Attempt> {
    match Prepare(def, date)
    case Refused(_) => log
    case Ready(command) => if env.dryRun then log else log + [Attempt(def, date, command, env.outcome(|log|))]
  }

  /** The producer. Its outcomes are arbitrary; the log is the history of what it was asked to send. */
  class Sender {
    const outcome: nat -> Outcome
    var sends: nat
    ghost var log: seq<Attempt>

    ghost predicate Valid()
      reads this
    {
      sends == |log|
    }

    constructor (outcome: nat -> Outcome)
      ensures Valid() && log == [] && this.outcome == outcome
    {
      this.outcome := outcome;
      sends := 0;
      log := [];
    }

    method SendCommand(command: Command, ghost def: TaskDefinition, ghost date: Date) returns (ok: bool)
      requires Valid()
      modifies this
      ensures Valid() && log == old(log) + [Attempt(def, date, command, outcome(|old(log)|))]
      ensures ok == outcome(|old(log)|).Acked?
    {
      ok := outcome(sends).Acked?;
      log := log + [Attempt(def, date, command, outcome(sends))];
      sends := sends + 1;
    }
  }

  class Publisher {
    const sender: Sender
    const dryRun: bool

    constructor (sender: Sender, dryRun: bool)
      ensures this.sender == sender && this.dryRun == dryRun
    {
      this.sender := sender;
      this.dryRun := dryRun;
    }

    ghost function World(): Env {
      Env(sender.outcome, dryRun)
    }

    method CreateIdentifier(def: TaskDefinition, date: Date) returns (name: string, token: Token)
      ensures token == Build(def, date) && (token.Ok? ==> name == Name(def.slug, token.text))
      ensures date.Valid() && Fires(def, date) ==>
                token.Ok? && name == Name(def.slug, PeriodName(def.recurrence, NamedPeriod(def, date)))
    {
      hide Build, PeriodName, NamedPeriod;
      if date.Valid() && Fires(def, date) { BuildNamesPeriod(def, date); }
      hide Fires;
      token := Build(def, date);
      name := if token.Ok? then Name(def.slug, token.text) else "";
    }

    method Publish(def: TaskDefinition, date: Date) returns (r: Result)
      requires sender.Valid()
      modifies sender
      ensures sender.Valid()
      ensures sender.log == PublishLog(World(), old(sender.log), def, date)
      ensures r == PublishResult(World(), old(sender.log), def, date)
    {
      hide Build, Rendered, Formatted, Name, Title, TrimSpace;
      if def.slug == "" {
        return Failure(EmptySlug);
      }
      if date.IsZero() {
        return Failure(ZeroDate);
      }
      var name, token := CreateIdentifier(def, date);
      if token.Err? {
        return Failure(NoToken(token.error));
      }
      var title := Render(def.titleTemplate, def.slug, date);
      var frontmatter := Format(def.frontmatter, def.slug, date, def.autoAbortPrior, def.recurrence);
      var body := Render(def.bodyTemplate, def.slug, date);
      var command := Command(name, Title(TrimSpace(title), token.text), frontmatter, body, def.vault);
      if dryRun {
        return Success;
      }
      var ok := sender.SendCommand(command, def, date);
      r := if ok then Success else Failure(SendFailed);
    }
  }
}
