/** Whole runs: ticks and triggers publish concurrently, entry by entry, and the process may stop and restart at any
    point, with arbitrary list errors, cancellations and send outcomes. */
module Pipeline {
  import opened Calendar
  import opened Schedule
  import opened PeriodToken
  import opened Identifier
  import opened Store
  import opened Publishing
  import opened Tick
  import opened Trigger
  import Finite

  /** A pass in flight: its number, its entries, its date, and how many of them it has published. */
  datatype Pass = Pass(id: nat, entries: seq<TaskDefinition>, date: Date, next: nat, tick: bool)

  /** Two fields are history that decides no step: `owners` holds the number of the pass behind each attempt of the log,
      and `started` counts the passes so far. */
  datatype State = State(
    log: seq<Attempt>, owners: seq<nat>, counter: map<Series, nat>, lastTick: int, passes: seq<Pass>, started: nat)

  /** `cache` is what the informer holds, `None` a failing list call; a trigger's `order` is what its sort returned.
      A pass that is never advanced again has been cancelled. */
  datatype Event =
    | StartTick(now: Clock, cache: Option<seq<ScheduleCR>>)
    | StartTrigger(day: Time, cache: Option<seq<ScheduleCR>>, order: seq<TaskDefinition>)
    | Advance(pass: nat)
    | Restart

  const INITIAL: State := State([], [], Zeroes(), 0, [], 0)

  /** A list call that succeeds starts a pass. */
  predicate Starts(e: Event) {
    (e.StartTick? || e.StartTrigger?) && e.cache.Some?
  }

  function StartedPass(e: Event, id: nat): Pass
    requires Starts(e)
  {
    if e.StartTick? then
      var date := DateOf(e.now.t, e.now.hour);
      Pass(id, FiringEntries(AdaptAll(e.cache.value), date), date, 0, true)
    else Pass(id, e.order, DateOf(e.day, 0), 0, false)
  }

  function Start(s: State, e: Event): State {
    if Starts(e) then s.(passes := s.passes + [StartedPass(e, s.started)], started := s.started + 1) else s
  }

  /** The pass of this step has an entry left. */
  predicate Advances(s: State, e: Event) {
    e.Advance? && e.pass < |s.passes| && s.passes[e.pass].next < |s.passes[e.pass].entries|
  }

  /** One pass publishes its next entry. Only ticks count outcomes. */
  function Publish(env: Env, s: State, i: nat): State
    requires i < |s.passes| && s.passes[i].next < |s.passes[i].entries|
  {
    var pass := s.passes[i];
    var def := pass.entries[pass.next];
    var series := Series(PublishResult(env, s.log, def, pass.date).Success?, def.recurrence);
    var log := PublishLog(env, s.log, def, pass.date);
    s.(log := log,
       owners := if |log| == |s.log| then s.owners else s.owners + [pass.id],
       counter := if pass.tick then s.counter[series := Get(s.counter, series) + 1] else s.counter,
       passes := s.passes[i := pass.(next := pass.next + 1)])
  }

  /** The log belongs to the topic and survives a restart; counters start again and passes are gone. */
  function Step(env: Env, s: State, e: Event): State {
    match e
    case StartTick(now, _) => Start(s, e).(lastTick := now.unix)
    case StartTrigger(_, _, _) => Start(s, e)
    case Advance(i) =>
      if Advances(s, e) then Publish(env, s, i) else s
    case Restart => s.(counter := Zeroes(), lastTick := 0, passes := [])
  }

  function Run(env: Env, s: State, events: seq<Event>): State {
    if events == [] then s
    else Step(env, Run(env, s, events[..|events| - 1]), events[|events| - 1])
  }

  /** What the clock and the sort deliver. */
  predicate RealEvent(e: Event) {
    match e
    case StartTick(now, _) => 0 <= now.hour < 24
    case StartTrigger(day, cache, order) =>
      cache.Some? ==> IsSortOf(order, FiringEntries(AdaptAll(cache.value), DateOf(day, 0)))
    case _ => true
  }

  /** Slugs are resource names, which do not end in a hyphen. Nothing else is asked of the caches: schedules come and
      go, and each of them may change in every respect, its kind and offset included. */
  predicate WellNamedEvent(e: Event) {
    Starts(e) ==> forall cr :: cr in e.cache.value ==> CleanSlug(cr.name)
  }

  predicate GoodRun(events: seq<Event>) {
    forall e :: e in events ==> RealEvent(e) && WellNamedEvent(e)
  }

  // ---------------------------------------------------------------- the invariant

  /** Where an attempt comes from: an entry that fires on the real date it is sent for, with exactly its command. */
  predicate Genuine(a: Attempt) {
    CleanSlug(a.def.slug) && a.date.Valid() && Fires(a.def, a.date) && Prepare(a.def, a.date) == Ready(a.command)
  }

  predicate GoodPass(pass: Pass) {
    pass.date.Valid() && forall def :: def in pass.entries ==> CleanSlug(def.slug) && Fires(def, pass.date)
  }

  predicate Inv(s: State) {
    (forall a :: a in s.log ==> Genuine(a)) && forall pass :: pass in s.passes ==> GoodPass(pass)
  }

  lemma AdaptedAreWellNamed(cache: seq<ScheduleCR>, date: Date, def: TaskDefinition)
    requires forall cr :: cr in cache ==> CleanSlug(cr.name)
    requires def in FiringEntries(AdaptAll(cache), date)
    ensures CleanSlug(def.slug) && Fires(def, date)
  {
    hide KindOf, ToLower, FirstOccurrences, MonthIndex;
    var cr :| cr in cache && Adaptable(cr) && def == AdaptedDefinition(cr);
  }

  lemma StartedPassIsGood(e: Event, id: nat)
    requires Starts(e) && RealEvent(e) && WellNamedEvent(e)
    ensures GoodPass(StartedPass(e, id))
  {
    hide FiringEntries, AdaptAll, CleanSlug, Fires, Sorted, MonthIndex;
    var pass := StartedPass(e, id);
    match e {
      case StartTick(now, _) => DateOfClock(now.t, now.hour);
      case StartTrigger(day, _, _) => DateOfClock(day, 0);
    }
    assert multiset(pass.entries) == multiset(FiringEntries(AdaptAll(e.cache.value), pass.date));
    forall def | def in pass.entries ensures CleanSlug(def.slug) && Fires(def, pass.date) {
      assert def in multiset(pass.entries);
      AdaptedAreWellNamed(e.cache.value, pass.date, def);
    }
  }

  lemma PublishIsGenuine(env: Env, log: seq<Attempt>, def: TaskDefinition, date: Date)
    requires CleanSlug(def.slug) && date.Valid() && Fires(def, date)
    ensures log <= PublishLog(env, log, def, date)
    ensures forall a :: a in PublishLog(env, log, def, date) ==> a in log || Genuine(a)
  {
    hide Prepare, Fires;
  }

  lemma AdvanceKeepsInv(env: Env, s: State, i: nat)
    requires Inv(s) && i < |s.passes| && s.passes[i].next < |s.passes[i].entries|
    ensures Inv(Publish(env, s, i)) && s.log <= Publish(env, s, i).log
  {
    hide Genuine, CleanSlug, Fires, MonthIndex, PublishLog, PublishResult;
    var pass := s.passes[i];
    assert pass in s.passes && GoodPass(pass);
    PublishIsGenuine(env, s.log, pass.entries[pass.next], pass.date);
    assert GoodPass(pass.(next := pass.next + 1));
  }

  lemma StepKeepsInv(env: Env, s: State, e: Event)
    requires RealEvent(e) && WellNamedEvent(e) && Inv(s)
    ensures Inv(Step(env, s, e)) && s.log <= Step(env, s, e).log
  {
    hide Genuine, GoodPass, StartedPass, Publish, RealEvent, WellNamedEvent;
    if Starts(e) {
      StartedPassIsGood(e, s.started);
    } else if Advances(s, e) {
      AdvanceKeepsInv(env, s, e.pass);
    }
  }

  /** After any run every attempt in the log is genuine, and so is every pass in flight. */
  lemma {:induction false} RunKeepsInv(env: Env, events: seq<Event>)
    requires GoodRun(events)
    ensures Inv(Run(env, INITIAL, events))
  {
    hide RealEvent, WellNamedEvent, Step;
    if events != [] {
      var front, last := events[..|events| - 1], events[|events| - 1];
      assert forall e :: e in front ==> e in events;
      assert last in events;
      RunKeepsInv(env, front);
      StepKeepsInv(env, Run(env, INITIAL, front), last);
    }
  }

  /** Attempts are never taken back. */
  lemma {:induction false} LogGrows(env: Env, events: seq<Event>, i: nat)
    requires GoodRun(events) && i <= |events|
    ensures Run(env, INITIAL, events[..i]).log <= Run(env, INITIAL, events).log
  {
    hide Inv, RealEvent, WellNamedEvent, Step;
    if i == |events| {
      assert events[..i] == events;
    } else {
      var front, last := events[..|events| - 1], events[|events| - 1];
      assert forall e :: e in front ==> e in events;
      assert last in events && front[..i] == events[..i];
      LogGrows(env, front, i);
      RunKeepsInv(env, front);
      StepKeepsInv(env, Run(env, INITIAL, front), last);
    }
  }

  // ---------------------------------------------------------------- a pass of its own is a tick

  /** A start and `n` steps of the pass it starts, with nothing in between. */
  function Uninterrupted(s: State, now: Clock, cache: seq<ScheduleCR>, n: nat): seq<Event> {
    [StartTick(now, Some(cache))] + seq(n, _ => Advance(|s.passes|))
  }

  /** `t` is what one tick pass of `n` entries makes of `s`, and that pass is in flight. */
  predicate IsTickOf(env: Env, s: State, t: State, now: Clock, cache: seq<ScheduleCR>, n: nat) {
    && Process(t.log, t.counter, t.lastTick)
       == TickStep(env, Process(s.log, s.counter, s.lastTick), now, Some(cache), n)
    && t.passes == s.passes + [StartedPass(StartTick(now, Some(cache)), s.started).(next := n)]
  }

  lemma UninterruptedStart(env: Env, s: State, now: Clock, cache: seq<ScheduleCR>)
    ensures IsTickOf(env, s, Step(env, s, StartTick(now, Some(cache))), now, cache, 0)
  {
    hide FiringEntries, AdaptAll, PublishAll, Results, Counted, DateOf;
    var date := DateOf(now.t, now.hour);
    NoEntryYet(env, s.log, s.counter, FiringEntries(AdaptAll(cache), date), date);
  }

  lemma UninterruptedStep(env: Env, s: State, t: State, now: Clock, cache: seq<ScheduleCR>, n: nat)
    requires n < |FiringEntries(AdaptAll(cache), DateOf(now.t, now.hour))| && IsTickOf(env, s, t, now, cache, n)
    ensures IsTickOf(env, s, Step(env, t, Advance(|s.passes|)), now, cache, n + 1)
  {
    hide FiringEntries, AdaptAll, PublishLog, PublishResult, PublishAll, Results, Counted, Get, DateOf;
    var date := DateOf(now.t, now.hour);
    OneMoreEntry(env, s.log, s.counter, FiringEntries(AdaptAll(cache), date), n, date);
  }

  /** The tick loop's own pass is one of the interleavings: run alone, the steps have exactly its effect. */
  lemma {:induction false} UninterruptedIsTick(env: Env, s: State, now: Clock, cache: seq<ScheduleCR>, n: nat)
    requires n <= |FiringEntries(AdaptAll(cache), DateOf(now.t, now.hour))|
    ensures var t := Run(env, s, Uninterrupted(s, now, cache, n));
            && Process(t.log, t.counter, t.lastTick)
               == TickStep(env, Process(s.log, s.counter, s.lastTick), now, Some(cache), n)
            && t.passes == s.passes + [StartedPass(StartTick(now, Some(cache)), s.started).(next := n)]
  {
    hide FiringEntries, AdaptAll, DateOf, TickStep, StartedPass, Step;
    var events := Uninterrupted(s, now, cache, n);
    if n == 0 {
      assert events == [StartTick(now, Some(cache))] && events[..0] == [];
      UninterruptedStart(env, s, now, cache);
    } else {
      var before := Uninterrupted(s, now, cache, n - 1);
      assert events[..|events| - 1] == before && events[|events| - 1] == Advance(|s.passes|);
      UninterruptedIsTick(env, s, now, cache, n - 1);
      UninterruptedStep(env, s, Run(env, s, before), now, cache, n - 1);
    }
  }

  lemma {:induction false} RunSplits(env: Env, s: State, front: seq<Event>, back: seq<Event>)
    ensures Run(env, s, front + back) == Run(env, Run(env, s, front), back)
  {
    hide Step;
    if back == [] {
      assert front + back == front;
    } else {
      var n := |back| - 1;
      assert (front + back)[..|front| + n] == front + back[..n] && (front + back)[|front| + n] == back[n];
      RunSplits(env, s, front, back[..n]);
    }
  }

  /** The events of one pass of the loop, run alone: a failing list call starts nothing. */
  function PassEvents(s: State, input: TickInput): seq<Event> {
    if input.cache.None? then [StartTick(input.now, None)]
    else
      Uninterrupted(s, input.now, input.cache.value,
        |Due(input.cache.value, DateOf(input.now.t, input.now.hour), input.alive)|)
  }

  /** One pass after the other, from the first input on. */
  function LoopEvents(env: Env, s: State, inputs: seq<TickInput>): seq<Event>
    decreases |inputs|
  {
    if inputs == [] then []
    else
      var first := PassEvents(s, inputs[0]);
      first + LoopEvents(env, Run(env, s, first), inputs[1..])
  }

  lemma DueTwice(cache: seq<ScheduleCR>, date: Date, alive: nat)
    ensures |Due(cache, date, alive)| <= |FiringEntries(AdaptAll(cache), date)|
    ensures Due(cache, date, |Due(cache, date, alive)|) == Due(cache, date, alive)
  {
    hide FiringEntries, AdaptAll;
  }

  /** A pass that reads `alive` entries before its context ends is one that takes as many steps as there are due
      entries. */
  lemma PassIsTickStep(env: Env, s: State, input: TickInput)
    ensures var t := Run(env, s, PassEvents(s, input));
            Process(t.log, t.counter, t.lastTick)
            == TickStep(env, Process(s.log, s.counter, s.lastTick), input.now, input.cache, input.alive)
  {
    if input.cache.None? {
      assert [StartTick(input.now, None)][..0] == [];
      hide DateOf;
    } else {
      var cache, date := input.cache.value, DateOf(input.now.t, input.now.hour);
      UninterruptedIsTick(env, s, input.now, cache, |Due(cache, date, input.alive)|);
      DueTwice(cache, date, input.alive);
      hide Run, Uninterrupted, Due, PublishAll, Counted, Results, DateOf, StartedPass;
    }
  }

  lemma {:induction false} TicksFromFirst(env: Env, p: Process, inputs: seq<TickInput>)
    requires inputs != []
    ensures Ticks(env, p, inputs)
         == Ticks(env, TickStep(env, p, inputs[0].now, inputs[0].cache, inputs[0].alive), inputs[1..])
  {
    hide TickStep;
    var n := |inputs| - 1;
    if n > 0 {
      TicksFromFirst(env, p, inputs[..n]);
      assert inputs[..n][1..] == inputs[1..][..n - 1];
    } else {
      assert inputs[..0] == [];
    }
  }

  lemma LastGauge(env: Env, p: Process, inputs: seq<TickInput>)
    requires inputs != []
    ensures Ticks(env, p, inputs).lastTick == inputs[|inputs| - 1].now.unix
    ensures inputs[|inputs| - 1].cache.None? ==>
              var before := Ticks(env, p, inputs[..|inputs| - 1]);
              Ticks(env, p, inputs).log == before.log && Ticks(env, p, inputs).counter == before.counter
  {
    hide Due, PublishAll, Counted, Results, DateOf;
  }

  /** The loop is the run of all its passes in order: its log, counters and gauge are those of the interleaving in which
      each input's pass, from the first on, runs alone. A pass whose list call fails still sets the gauge and leaves the
      rest as it was. */
  lemma {:induction false} LoopIsRun(env: Env, s: State, inputs: seq<TickInput>)
    ensures var t := Run(env, s, LoopEvents(env, s, inputs));
            Process(t.log, t.counter, t.lastTick) == Ticks(env, Process(s.log, s.counter, s.lastTick), inputs)
    ensures inputs != [] ==>
              Ticks(env, Process(s.log, s.counter, s.lastTick), inputs).lastTick == inputs[|inputs| - 1].now.unix
    decreases |inputs|
  {
    hide TickStep, Step, PassEvents;
    if inputs != [] {
      LastGauge(env, Process(s.log, s.counter, s.lastTick), inputs);
      var first := PassEvents(s, inputs[0]);
      var t := Run(env, s, first);
      PassIsTickStep(env, s, inputs[0]);
      LoopIsRun(env, t, inputs[1..]);
      RunSplits(env, s, first, LoopEvents(env, t, inputs[1..]));
      TicksFromFirst(env, Process(s.log, s.counter, s.lastTick), inputs);
      hide Run;
    }
  }

  // ---------------------------------------------------------------- the pipeline is total

  /** Whatever the cache holds, every entry that survives listing and filtering gets a token, and with a slug a command.
      */
  lemma SurvivorsGetTokens(cache: seq<ScheduleCR>, date: Date, def: TaskDefinition)
    requires date.Valid() && def in FiringEntries(AdaptAll(cache), date)
    ensures Build(def, date).Ok? && (def.slug != "" ==> Prepare(def, date).Ready?)
  {
    hide KindOf, ToLower, FirstOccurrences, Build, Prepare;
    var cr :| cr in cache && Adaptable(cr) && def == AdaptedDefinition(cr);
    hide Fires, Adaptable, AdaptedDefinition;
    BuildNamesPeriod(def, date);
    if def.slug != "" { FiringIsReady(def, date); }
  }

  lemma DueHaveSlugs(cache: seq<ScheduleCR>, date: Date, alive: nat, k: nat)
    requires date.Valid() && k < |Due(cache, date, alive)| && forall cr :: cr in cache ==> cr.name != ""
    ensures Prepare(Due(cache, date, alive)[k], date).Ready?
  {
    hide KindOf, ToLower, FirstOccurrences, Prepare, MonthIndex;
    var def := Due(cache, date, alive)[k];
    assert def in FiringEntries(AdaptAll(cache), date);
    var cr :| cr in cache && Adaptable(cr) && def == AdaptedDefinition(cr);
    SurvivorsGetTokens(cache, date, def);
  }

  lemma DueAreReady(cache: seq<ScheduleCR>, date: Date, alive: nat)
    requires date.Valid() && forall cr :: cr in cache ==> cr.name != ""
    ensures AllReady(Due(cache, date, alive), date)
  {
    hide Prepare, Due;
    forall k | 0 <= k < |Due(cache, date, alive)| ensures Prepare(Due(cache, date, alive)[k], date).Ready? {
      DueHaveSlugs(cache, date, alive, k);
    }
  }

  lemma PassIsExact(env: Env, log: seq<Attempt>, due: seq<TaskDefinition>, date: Date, i: nat)
    requires !env.dryRun && AllReady(due, date)
    ensures var out := PublishAll(env, log, due, date);
            && log <= out && |out| == |log| + |due|
            && (i < |due| ==> out[|log| + i].def == due[i] && out[|log| + i].date == date
                              && out[|log| + i].outcome == env.outcome(|log| + i))
  {
    hide PublishAll, Prepare, Attempted, AllReady;
    PassAttemptsAll(env, log, due, date);
    ReadyPassIsExact(env, |log|, due, date, i);
  }

  /** A tick whose list call succeeds attempts a prefix of the firing entries, in order, one send each and nothing else,
      whichever of the sends fail; it is the whole list unless the context ends first. */
  lemma TickAttemptsPrefix(env: Env, p: Process, now: Clock, cache: seq<ScheduleCR>, alive: nat, i: nat)
    requires !env.dryRun && 0 <= now.hour < 24 && forall cr :: cr in cache ==> cr.name != ""
    ensures var firing := FiringEntries(AdaptAll(cache), DateOf(now.t, now.hour));
            var n := if alive < |firing| then alive else |firing|;
            var log := TickStep(env, p, now, Some(cache), alive).log;
            && p.log <= log && |log| == |p.log| + n
            && (i < n ==> log[|p.log| + i].def == firing[i] && log[|p.log| + i].date == DateOf(now.t, now.hour)
                          && log[|p.log| + i].outcome == env.outcome(|p.log| + i))
  {
    hide FiringEntries, AdaptAll, AllReady, PublishAll, Counted, Results, MonthIndex, MonthStart;
    var date := DateOf(now.t, now.hour);
    DateOfClock(now.t, now.hour);
    DueAreReady(cache, date, alive);
    PassIsExact(env, p.log, Due(cache, date, alive), date, i);
  }

  // ---------------------------------------------------------------- once per slug and period

  /** What an attempt is for: the slug, and the period its definition names, fire period plus offset. */
  function TaskKey(a: Attempt): (string, RecurrenceKind, int) {
    (a.def.slug, Unit(a.def.recurrence), NamedPeriod(a.def, a.date))
  }

  /** One attempt names a year and the other an hour with the digits of that year: see `TokensOfAllKinds`. */
  predicate NamedAlike(a: Attempt, b: Attempt) {
    a.def.slug == b.def.slug
    && SpelledAlike(a.def.recurrence, NamedPeriod(a.def, a.date), b.def.recurrence, NamedPeriod(b.def, b.date))
  }

  /** Exactly once per slug and period: over every interleaving of ticks, triggers and restarts, whatever fails and
      however schedules are edited, two sends carry the same identifier name if and only if they are for the same slug
      and name the same period, or after an edit between Hourly and Yearly or OnDate a year spelled like an hour; while
      kind and offset stay as they are, if and only if they fire in the same period. */
  lemma ExactlyOnce(env: Env, events: seq<Event>, a: Attempt, b: Attempt)
    requires GoodRun(events) && a in Run(env, INITIAL, events).log && b in Run(env, INITIAL, events).log
    ensures a.command.identifierName == b.command.identifierName <==> TaskKey(a) == TaskKey(b) || NamedAlike(a, b)
    ensures a.def.slug == b.def.slug && a.def.recurrence == b.def.recurrence
              && a.def.periodOffset == b.def.periodOffset ==>
              (a.command.identifierName == b.command.identifierName
               <==> Period(a.def.recurrence, a.date) == Period(b.def.recurrence, b.date))
  {
    hide Run, GoodRun, Prepare, PeriodName, Period, MonthIndex, YearLikeHour;
    RunKeepsInv(env, events);
    assert Genuine(a) && Genuine(b);
    FiringIsReady(a.def, a.date);
    FiringIsReady(b.def, b.date);
    var p, q := NamedPeriod(a.def, a.date), NamedPeriod(b.def, b.date);
    NameDecodes(a.def.slug, a.def.recurrence, p, b.def.slug, b.def.recurrence, q);
    TokensOfAllKinds(a.def.recurrence, p, b.def.recurrence, q);
  }

  /** The attempts that reached the topic. */
  ghost function Delivered(log: seq<Attempt>): set<Attempt> {
    set a | a in log && !a.outcome.Rejected?
  }

  lemma DeliveredIsLogged(log: seq<Attempt>, a: Attempt)
    requires a in Delivered(log)
    ensures a in log
  {
  }

  lemma AlikeIsTwoTasks(a: Attempt, b: Attempt)
    requires NamedAlike(a, b)
    ensures TaskKey(a) != TaskKey(b)
  {
    hide YearLikeHour, NamedPeriod;
  }

  /** The distinct names on the topic are never more than the tasks, slug and period, with at least one delivery, and
      exactly as many unless a year and an hour of one slug are spelled alike. */
  lemma NamesCountTasks(env: Env, events: seq<Event>)
    requires GoodRun(events)
    ensures var sent := Delivered(Run(env, INITIAL, events).log);
            var names, tasks := |set a | a in sent :: a.command.identifierName|, |set a | a in sent :: TaskKey(a)|;
            names <= tasks && (names == tasks <==> forall a, b :: a in sent && b in sent ==> !NamedAlike(a, b))
  {
    var sent := Delivered(Run(env, INITIAL, events).log);
    var name, key := (a: Attempt) => a.command.identifierName, (a: Attempt) => TaskKey(a);
    hide Run, GoodRun, TaskKey, Delivered, NamedAlike;
    forall a, b | a in sent && b in sent
      ensures name(a) == name(b) <==> key(a) == key(b) || NamedAlike(a, b)
      ensures NamedAlike(a, b) ==> key(a) != key(b)
    {
      DeliveredIsLogged(Run(env, INITIAL, events).log, a);
      DeliveredIsLogged(Run(env, INITIAL, events).log, b);
      ExactlyOnce(env, events, a, b);
      if NamedAlike(a, b) { AlikeIsTwoTasks(a, b); }
    }
    Finite.CoarserImage(sent, name, key);
    assert Finite.Image(sent, name) == set a | a in sent :: a.command.identifierName;
    assert Finite.Image(sent, key) == set a | a in sent :: TaskKey(a);
  }

  // ---------------------------------------------------------------- every pass sends a prefix of its entries

  /** The attempts made by one pass, in order. */
  function AttemptsOf(log: seq<Attempt>, owners: seq<nat>, id: nat): seq<Attempt> {
    if log == [] then []
    else
      var n := |log| - 1;
      AttemptsOf(log[..n], owners, id) + if n < |owners| && owners[n] == id then [log[n]] else []
  }

  lemma {:induction false} MoreOwners(log: seq<Attempt>, owners: seq<nat>, owner: nat, id: nat)
    requires |log| <= |owners|
    ensures AttemptsOf(log, owners + [owner], id) == AttemptsOf(log, owners, id)
  {
    if log != [] {
      MoreOwners(log[..|log| - 1], owners, owner, id);
    }
  }

  lemma OneMoreAttempt(log: seq<Attempt>, owners: seq<nat>, a: Attempt, owner: nat, id: nat)
    requires |log| == |owners|
    ensures AttemptsOf(log + [a], owners + [owner], id) == AttemptsOf(log, owners, id) + if owner == id then [a] else []
  {
    assert (log + [a])[..|log|] == log;
    MoreOwners(log, owners, owner, id);
  }

  lemma {:induction false} NoAttempts(log: seq<Attempt>, owners: seq<nat>, id: nat)
    requires id !in owners
    ensures AttemptsOf(log, owners, id) == []
  {
    if log != [] {
      NoAttempts(log[..|log| - 1], owners, id);
    }
  }

  lemma {:induction false} AttemptsAreLogged(log: seq<Attempt>, owners: seq<nat>, id: nat)
    ensures forall a :: a in AttemptsOf(log, owners, id) ==> a in log
  {
    if log != [] {
      AttemptsAreLogged(log[..|log| - 1], owners, id);
    }
  }

  /** The history fields fit: every attempt has an owner, and numbers are used once. */
  predicate Numbered(s: State) {
    && |s.owners| == |s.log| && (forall id :: id in s.owners ==> id < s.started)
    && (forall i :: 0 <= i < |s.passes| ==> s.passes[i].id < s.started)
    && forall i, j :: 0 <= i < j < |s.passes| ==> s.passes[i].id != s.passes[j].id
  }

  lemma StepKeepsNumbered(env: Env, s: State, e: Event)
    requires Numbered(s)
    ensures Numbered(Step(env, s, e)) && s.started <= Step(env, s, e).started
  {
    hide Prepare, FiringEntries, AdaptAll, PublishResult, MonthIndex;
  }

  /** The sent attempts are for the first entries of the pass, one each and in order, with its date and their commands.
      */
  predicate IsPrefix(pass: Pass, sent: seq<Attempt>) {
    |sent| <= |pass.entries|
    && forall j :: 0 <= j < |sent| ==>
         sent[j].def == pass.entries[j] && sent[j].date == pass.date
         && Prepare(pass.entries[j], pass.date) == Ready(sent[j].command)
  }

  /** A started pass has sent a prefix of its entries, and its cursor is at the end of that prefix. */
  predicate OnTrack(s: State, first: Pass) {
    var sent := AttemptsOf(s.log, s.owners, first.id);
    && first.id < s.started && IsPrefix(first, sent)
    && forall pass :: pass in s.passes && pass.id == first.id ==> pass == first.(next := |sent|)
  }

  lemma PassStart(e: Event, id: nat)
    requires Starts(e)
    ensures StartedPass(e, id).next == 0 && StartedPass(e, id).id == id
  {
  }

  lemma StartIsOnTrack(env: Env, s: State, e: Event)
    requires Numbered(s) && Starts(e)
    ensures OnTrack(Step(env, s, e), StartedPass(e, s.started))
  {
    hide StartedPass, Prepare;
    NoAttempts(s.log, s.owners, s.started);
    assert StartedPass(e, s.started).next == 0
           && StartedPass(e, s.started).id == s.started by { PassStart(e, s.started); }
  }

  lemma NextFires(s: State, i: nat)
    requires Inv(s) && i < |s.passes| && s.passes[i].next < |s.passes[i].entries|
    ensures var def := s.passes[i].entries[s.passes[i].next];
            def.slug != "" && s.passes[i].date.Valid() && Fires(def, s.passes[i].date)
  {
    hide Genuine, Fires, MonthIndex;
    assert s.passes[i] in s.passes && GoodPass(s.passes[i]);
    assert s.passes[i].entries[s.passes[i].next] in s.passes[i].entries;
  }

  lemma PublishSends(env: Env, s: State, i: nat) returns (a: Attempt)
    requires !env.dryRun && Inv(s) && i < |s.passes| && s.passes[i].next < |s.passes[i].entries|
    ensures var pass := s.passes[i]; var def := pass.entries[pass.next]; var t := Publish(env, s, i);
            && a.def == def && a.date == pass.date && Prepare(def, pass.date) == Ready(a.command)
            && a.outcome == env.outcome(|s.log|) && t.log == s.log + [a]
            && t.owners == s.owners + [pass.id] && t.started == s.started
            && t.passes == s.passes[i := pass.(next := pass.next + 1)]
  {
    hide Inv, Prepare, PublishResult, Fires, NamedPeriod, PeriodName, Get;
    var pass := s.passes[i];
    var def := pass.entries[pass.next];
    NextFires(s, i);
    FiringIsReady(def, pass.date);
    a := Attempt(def, pass.date, Prepare(def, pass.date).command, env.outcome(|s.log|));
    assert |s.log + [a]| != |s.log|;
  }

  lemma AdvanceKeepsTrack(env: Env, s: State, i: nat, first: Pass)
    requires !env.dryRun && Inv(s) && Numbered(s) && OnTrack(s, first)
    requires i < |s.passes| && s.passes[i].next < |s.passes[i].entries|
    ensures OnTrack(Publish(env, s, i), first)
  {
    hide Publish, Prepare, Inv, AttemptsOf;
    var a := PublishSends(env, s, i);
    assert s.passes[i] in s.passes;
    OneMoreAttempt(s.log, s.owners, a, s.passes[i].id, first.id);
  }

  lemma StepKeepsTrack(env: Env, s: State, e: Event, first: Pass)
    requires !env.dryRun && Inv(s) && Numbered(s) && OnTrack(s, first)
    ensures OnTrack(Step(env, s, e), first)
  {
    if Advances(s, e) {
      AdvanceKeepsTrack(env, s, e.pass, first);
    } else {
      hide IsPrefix, AttemptsOf, StartedPass, Inv;
      if Starts(e) { PassStart(e, s.started); }
    }
  }

  lemma {:induction false} RunKeepsNumbered(env: Env, events: seq<Event>)
    ensures Numbered(Run(env, INITIAL, events))
  {
    hide Step;
    if events != [] {
      var front := events[..|events| - 1];
      RunKeepsNumbered(env, front);
      StepKeepsNumbered(env, Run(env, INITIAL, front), events[|events| - 1]);
    }
  }

  /** The pass that event `i` of a run starts. */
  function PassOf(env: Env, events: seq<Event>, i: nat): Pass
    requires i < |events| && Starts(events[i])
  {
    StartedPass(events[i], Run(env, INITIAL, events[..i]).started)
  }

  lemma PrefixIsGood(events: seq<Event>, i: nat)
    requires GoodRun(events) && i <= |events|
    ensures GoodRun(events[..i])
  {
    hide RealEvent, WellNamedEvent;
    assert forall e :: e in events[..i] ==> e in events;
  }

  lemma {:induction false} StaysOnTrack(env: Env, events: seq<Event>, i: nat)
    requires GoodRun(events) && !env.dryRun && i < |events| && Starts(events[i])
    ensures OnTrack(Run(env, INITIAL, events), PassOf(env, events, i))
  {
    hide Step, Inv, Numbered, OnTrack, StartedPass, Starts, RealEvent, WellNamedEvent;
    var n := |events| - 1;
    var front := events[..n];
    RunKeepsNumbered(env, front);
    PrefixIsGood(events, n);
    if i == n {
      StartIsOnTrack(env, Run(env, INITIAL, front), events[n]);
    } else {
      assert front[..i] == events[..i];
      StaysOnTrack(env, front, i);
      RunKeepsInv(env, front);
      StepKeepsTrack(env, Run(env, INITIAL, front), events[n], PassOf(env, events, i));
    }
  }

  /** Whatever runs beside a pass and whichever sends fail, the pass has attempted exactly the first entries of the
      snapshot it was started with, once each and in order, even if a restart has ended it since. While it is in flight
      its cursor counts them, so once it is complete they are the whole snapshot. */
  lemma PassesAttemptPrefixes(env: Env, events: seq<Event>, i: nat)
    requires GoodRun(events) && !env.dryRun && i < |events| && Starts(events[i])
    ensures var s, first := Run(env, INITIAL, events), PassOf(env, events, i);
            var sent := AttemptsOf(s.log, s.owners, first.id);
            && IsPrefix(first, sent)
            && forall pass :: pass in s.passes && pass.id == first.id ==> pass == first.(next := |sent|)
  {
    StaysOnTrack(env, events, i);
  }

  // ---------------------------------------------------------------- no period is lost

  /** What the pass started by event `i` has sent within the first `m` events. */
  function SentBy(env: Env, events: seq<Event>, i: nat, m: nat): seq<Attempt>
    requires i < m <= |events| && Starts(events[i])
  {
    var s := Run(env, INITIAL, events[..m]);
    AttemptsOf(s.log, s.owners, PassOf(env, events, i).id)
  }

  /** After the first `m` events the pass started by event `i` has published its last entry. */
  predicate CompleteAt(env: Env, events: seq<Event>, i: nat, m: nat)
    requires i < m <= |events| && Starts(events[i])
  {
    var first := PassOf(env, events, i);
    first.(next := |first.entries|) in Run(env, INITIAL, events[..m]).passes
  }

  lemma SentIsPrefix(env: Env, events: seq<Event>, i: nat, m: nat)
    requires GoodRun(events) && !env.dryRun && i < m <= |events| && Starts(events[i])
    ensures IsPrefix(PassOf(env, events, i), SentBy(env, events, i, m))
    ensures CompleteAt(env, events, i, m) ==> |SentBy(env, events, i, m)| == |PassOf(env, events, i).entries|
    ensures forall a :: a in SentBy(env, events, i, m) ==> a in Run(env, INITIAL, events[..m]).log && Genuine(a)
  {
    hide GoodRun, Run, Genuine, Prepare, AttemptsOf, StartedPass, Starts;
    var s, first := Run(env, INITIAL, events[..m]), PassOf(env, events, i);
    PrefixIsGood(events, m);
    assert events[..m][..i] == events[..i] && events[..m][i] == events[i];
    PassesAttemptPrefixes(env, events[..m], i);
    RunKeepsInv(env, events[..m]);
    AttemptsAreLogged(s.log, s.owners, first.id);
  }

  lemma SamePeriodSameName(def: TaskDefinition, date: Date, other: Date)
    requires def.slug != "" && date.Valid() && other.Valid() && Fires(def, date) && Fires(def, other)
    requires Period(def.recurrence, date) == Period(def.recurrence, other)
    ensures Prepare(def, date).Ready? && Prepare(def, other).Ready?
    ensures Prepare(def, date).command.identifierName == Prepare(def, other).command.identifierName
  {
    hide Prepare, PeriodName, Fires, Period;
    FiringIsReady(def, date);
    FiringIsReady(def, other);
  }

  lemma StaysDelivered(env: Env, events: seq<Event>, i: nat, a: Attempt)
    requires GoodRun(events) && i <= |events| && a in Delivered(Run(env, INITIAL, events[..i]).log)
    ensures a in Delivered(Run(env, INITIAL, events).log)
  {
    hide GoodRun, Run;
    LogGrows(env, events, i);
  }

  /** What a pass has sent is enough for the whole period, whether the pass is complete, still in flight, cancelled or
      cut off by a restart: if the send for an entry was not rejected, the name that the entry has on any date of the
      period is on the topic at the end of the run. */
  lemma SentEntryIsNotLost(env: Env, events: seq<Event>, i: nat, m: nat, j: nat, other: Date)
    requires GoodRun(events) && !env.dryRun && i < m <= |events| && Starts(events[i])
    requires j < |SentBy(env, events, i, m)| && !SentBy(env, events, i, m)[j].outcome.Rejected?
    requires var a := SentBy(env, events, i, m)[j];
             other.Valid() && (a.def.recurrence in {Weekday, OnDate} ==> Fires(a.def, other))
             && Period(a.def.recurrence, other) == Period(a.def.recurrence, a.date)
    ensures var pass, a := PassOf(env, events, i), SentBy(env, events, i, m)[j];
            j < |pass.entries| && a.def == pass.entries[j] && a.date == pass.date && Prepare(a.def, other).Ready?
    ensures exists b :: b in Delivered(Run(env, INITIAL, events).log)
              && b.command.identifierName == Prepare(SentBy(env, events, i, m)[j].def, other).command.identifierName
  {
    hide GoodRun, Run, Prepare, Fires, Period, PassOf, Starts, SentBy, CompleteAt;
    var a := SentBy(env, events, i, m)[j];
    SentIsPrefix(env, events, i, m);
    assert a in SentBy(env, events, i, m) && Genuine(a);
    AlwaysFireKinds(a.def, a.date);
    AlwaysFireKinds(a.def, other);
    SamePeriodSameName(a.def, a.date, other);
    StaysDelivered(env, events, m, a);
  }

  /** One complete pass is enough for the whole period: for every entry of the snapshot it was started with, unless its
      own send for that entry was rejected, the name that the entry has on any date of the period is on the topic at the
      end of the run, whatever ran beside the pass and whatever came after it. */
  lemma NoPeriodIsLost(env: Env, events: seq<Event>, i: nat, m: nat, def: TaskDefinition, other: Date)
    requires GoodRun(events) && !env.dryRun && i < m <= |events| && Starts(events[i]) && CompleteAt(env, events, i, m)
    requires def in PassOf(env, events, i).entries
    requires forall a :: a in SentBy(env, events, i, m) && a.def == def ==> !a.outcome.Rejected?
    requires other.Valid() && (def.recurrence in {Weekday, OnDate} ==> Fires(def, other))
    requires Period(def.recurrence, other) == Period(def.recurrence, PassOf(env, events, i).date)
    ensures Prepare(def, other).Ready?
    ensures exists a :: a in Delivered(Run(env, INITIAL, events).log)
              && a.command.identifierName == Prepare(def, other).command.identifierName
  {
    hide GoodRun, Run, Delivered, Prepare, Fires, Period, PassOf, Starts, SentBy, CompleteAt, Genuine;
    SentIsPrefix(env, events, i, m);
    var j :| 0 <= j < |PassOf(env, events, i).entries| && PassOf(env, events, i).entries[j] == def;
    SentEntryIsNotLost(env, events, i, m, j, other);
  }

  // ---------------------------------------------------------------- metrics over runs

  /** The entries of a kind that the ticks of this process have published so far. */
  function TickPublishes(passes: seq<Pass>, kind: RecurrenceKind): nat {
    if passes == [] then 0
    else
      var pass := passes[|passes| - 1];
      TickPublishes(passes[..|passes| - 1], kind)
      + if pass.tick && pass.next <= |pass.entries| then OfKind(pass.entries[..pass.next], kind) else 0
  }

  lemma {:induction false} OneMorePublish(passes: seq<Pass>, i: nat, kind: RecurrenceKind)
    requires i < |passes| && passes[i].next < |passes[i].entries|
    ensures var pass := passes[i];
            TickPublishes(passes[i := pass.(next := pass.next + 1)], kind)
            == TickPublishes(passes, kind) + if pass.tick && pass.entries[pass.next].recurrence == kind then 1 else 0
  {
    var pass := passes[i];
    var moved := passes[i := pass.(next := pass.next + 1)];
    var n := |passes| - 1;
    if i == n {
      assert moved[..n] == passes[..n];
      assert pass.entries[..pass.next + 1][..pass.next] == pass.entries[..pass.next];
    } else {
      assert moved[..n] == passes[..n][i := pass.(next := pass.next + 1)];
      OneMorePublish(passes[..n], i, kind);
    }
  }

  lemma OneMorePass(passes: seq<Pass>, pass: Pass, kind: RecurrenceKind)
    requires pass.next == 0
    ensures TickPublishes(passes + [pass], kind) == TickPublishes(passes, kind)
  {
    assert (passes + [pass])[..|passes|] == passes;
  }

  predicate KnownEntries(passes: seq<Pass>) {
    forall pass, def :: pass in passes && pass.tick && def in pass.entries ==> !def.recurrence.Other?
  }

  predicate Counting(s: State, kind: RecurrenceKind) {
    KnownEntries(s.passes) && s.counter.Keys == AllSeries() && PerKind(s.counter, kind) == TickPublishes(s.passes, kind)
  }

  lemma StartedAreKnown(e: Event, id: nat)
    requires Starts(e)
    ensures KnownEntries([StartedPass(e, id)])
  {
    hide MonthIndex;
  }

  lemma AdvanceKeepsCounting(env: Env, s: State, i: nat, kind: RecurrenceKind)
    requires Counting(s, kind) && i < |s.passes| && s.passes[i].next < |s.passes[i].entries|
    ensures Counting(Publish(env, s, i), kind)
  {
    hide Get, OfKind, TickPublishes, PerKind, PublishLog, PublishResult;
    var pass := s.passes[i];
    var def := pass.entries[pass.next];
    assert pass in s.passes && def in pass.entries;
    OneMorePublish(s.passes, i, kind);
    OneMoreCount(s.counter, Series(PublishResult(env, s.log, def, pass.date).Success?, def.recurrence), kind);
    KnownKinds(def.recurrence);
  }

  lemma SeedsAreZero(kind: RecurrenceKind)
    ensures PerKind(Zeroes(), kind) == 0 && Zeroes().Keys == AllSeries()
  {
  }

  lemma NoPublishes(kind: RecurrenceKind)
    ensures TickPublishes([], kind) == 0
  {
  }

  lemma StepKeepsCounting(env: Env, s: State, e: Event, kind: RecurrenceKind)
    requires Counting(s, kind)
    ensures Counting(Step(env, s, e), kind)
  {
    hide AllSeries, Get, OfKind, TickPublishes, PerKind, StartedPass, Publish, Zeroes;
    if Starts(e) {
      PassStart(e, s.started);
      OneMorePass(s.passes, StartedPass(e, s.started), kind);
      StartedAreKnown(e, s.started);
    } else if Advances(s, e) {
      AdvanceKeepsCounting(env, s, e.pass, kind);
    } else if e.Restart? {
      SeedsAreZero(kind);
      NoPublishes(kind);
    }
  }

  lemma {:induction false} RunKeepsCounting(env: Env, events: seq<Event>, kind: RecurrenceKind)
    ensures Counting(Run(env, INITIAL, events), kind)
  {
    if events == [] {
      SeedsAreZero(kind);
    } else {
      hide Counting, Step;
      RunKeepsCounting(env, events[..|events| - 1], kind);
      StepKeepsCounting(env, Run(env, INITIAL, events[..|events| - 1]), events[|events| - 1], kind);
    }
  }

  /** After any run, however events interleave and fail, exactly the sixteen seeded series exist, and for each kind
      success and error add up to the publish attempts of the ticks since the last restart. */
  lemma MetricsAddUp(env: Env, events: seq<Event>, kind: RecurrenceKind)
    ensures var s := Run(env, INITIAL, events);
            s.counter.Keys == AllSeries() && PerKind(s.counter, kind) == TickPublishes(s.passes, kind)
  {
    RunKeepsCounting(env, events, kind);
  }

  // ---------------------------------------------------------------- metrics against the log

  /** The attempts that belong in one series: those of its kind that were acknowledged, or those that were not. */
  function Booked(sent: seq<Attempt>, x: Series): nat {
    if sent == [] then 0
    else
      var a := sent[|sent| - 1];
      Booked(sent[..|sent| - 1], x) + if Series(a.outcome.Acked?, a.def.recurrence) == x then 1 else 0
  }

  /** The same over all that the ticks among some passes have sent. */
  function TickSends(log: seq<Attempt>, owners: seq<nat>, passes: seq<Pass>, x: Series): nat {
    if passes == [] then 0
    else
      var pass := passes[|passes| - 1];
      TickSends(log, owners, passes[..|passes| - 1], x)
      + if pass.tick then Booked(AttemptsOf(log, owners, pass.id), x) else 0
  }

  lemma OneMoreBooked(sent: seq<Attempt>, a: Attempt, x: Series)
    ensures Booked(sent + [a], x) == Booked(sent, x) + if Series(a.outcome.Acked?, a.def.recurrence) == x then 1 else 0
  {
    assert (sent + [a])[..|sent|] == sent;
  }

  lemma OtherAttempt(log: seq<Attempt>, owners: seq<nat>, a: Attempt, owner: nat, id: nat)
    requires |log| == |owners| && owner != id
    ensures AttemptsOf(log + [a], owners + [owner], id) == AttemptsOf(log, owners, id)
  {
    OneMoreAttempt(log, owners, a, owner, id);
  }

  /** Other passes' sends and cursors do not matter. */
  lemma {:induction false} OthersSend(
    log: seq<Attempt>, owners: seq<nat>, passes: seq<Pass>, a: Attempt, owner: nat, x: Series)
    requires |log| == |owners| && forall i :: 0 <= i < |passes| ==> passes[i].id != owner
    ensures TickSends(log + [a], owners + [owner], passes, x) == TickSends(log, owners, passes, x)
  {
    hide AttemptsOf;
    if passes != [] {
      OthersSend(log, owners, passes[..|passes| - 1], a, owner, x);
      OtherAttempt(log, owners, a, owner, passes[|passes| - 1].id);
    }
  }

  lemma {:induction false} OneMoreSend(
    log: seq<Attempt>, owners: seq<nat>, passes: seq<Pass>, i: nat, a: Attempt, x: Series)
    requires |log| == |owners| && i < |passes|
    requires forall j, k :: 0 <= j < k < |passes| ==> passes[j].id != passes[k].id
    ensures TickSends(log + [a], owners + [passes[i].id], passes[i := passes[i].(next := passes[i].next + 1)], x)
         == TickSends(log, owners, passes, x)
            + if passes[i].tick && Series(a.outcome.Acked?, a.def.recurrence) == x then 1 else 0
  {
    hide AttemptsOf, Booked;
    var n := |passes| - 1;
    var moved := passes[i := passes[i].(next := passes[i].next + 1)];
    if i == n {
      OneMoreAttempt(log, owners, a, passes[n].id, passes[n].id);
      assert moved[..n] == passes[..n];
      OthersSend(log, owners, passes[..n], a, passes[i].id, x);
      OneMoreBooked(AttemptsOf(log, owners, passes[n].id), a, x);
    } else {
      assert moved[..n] == passes[..n][i := passes[i].(next := passes[i].next + 1)];
      OtherAttempt(log, owners, a, passes[i].id, passes[n].id);
      OneMoreSend(log, owners, passes[..n], i, a, x);
    }
  }

  /** A pass that has just started has sent nothing. */
  lemma NewPassSends(log: seq<Attempt>, owners: seq<nat>, passes: seq<Pass>, pass: Pass, x: Series)
    requires pass.id !in owners
    ensures TickSends(log, owners, passes + [pass], x) == TickSends(log, owners, passes, x)
  {
    assert (passes + [pass])[..|passes|] == passes;
    NoAttempts(log, owners, pass.id);
  }

  predicate Matching(s: State, x: Series) {
    Get(s.counter, x) == TickSends(s.log, s.owners, s.passes, x)
  }

  lemma ZeroMatches(s: State, x: Series)
    requires s.counter == Zeroes() && s.passes == []
    ensures Matching(s, x)
  {
  }

  lemma PublishCounts(env: Env, s: State, i: nat)
    requires !env.dryRun && i < |s.passes| && s.passes[i].next < |s.passes[i].entries|
    requires Prepare(s.passes[i].entries[s.passes[i].next], s.passes[i].date).Ready?
    ensures var pass := s.passes[i];
            var x := Series(env.outcome(|s.log|).Acked?, pass.entries[pass.next].recurrence);
            Publish(env, s, i).counter == if pass.tick then s.counter[x := Get(s.counter, x) + 1] else s.counter
  {
    hide Prepare;
  }

  lemma AdvanceKeepsMatching(env: Env, s: State, i: nat, x: Series)
    requires !env.dryRun && Inv(s) && Numbered(s) && Matching(s, x)
    requires i < |s.passes| && s.passes[i].next < |s.passes[i].entries|
    ensures Matching(Publish(env, s, i), x)
  {
    var a := PublishSends(env, s, i);
    PublishCounts(env, s, i);
    hide Inv, TickSends, Publish, Prepare;
    OneMoreSend(s.log, s.owners, s.passes, i, a, x);
  }

  lemma StepKeepsMatching(env: Env, s: State, e: Event, x: Series)
    requires !env.dryRun && Inv(s) && Numbered(s) && Matching(s, x)
    ensures Matching(Step(env, s, e), x)
  {
    hide Inv, TickSends, Zeroes, StartedPass, Publish;
    if Starts(e) {
      PassStart(e, s.started);
      NewPassSends(s.log, s.owners, s.passes, StartedPass(e, s.started), x);
    } else if Advances(s, e) {
      AdvanceKeepsMatching(env, s, e.pass, x);
    } else if e.Restart? {
      ZeroMatches(Step(env, s, e), x);
    }
  }

  /** After any run, each series holds exactly the attempts in the log that ticks have made since the last restart, of
      its kind, acknowledged ones under success and all others under error. */
  lemma {:induction false} CountersMatchLog(env: Env, events: seq<Event>, x: Series)
    requires GoodRun(events) && !env.dryRun
    ensures var s := Run(env, INITIAL, events); Get(s.counter, x) == TickSends(s.log, s.owners, s.passes, x)
  {
    if events == [] {
      ZeroMatches(INITIAL, x);
    } else {
      hide Inv, Numbered, Step, RealEvent, WellNamedEvent, TickSends, Get;
      var n := |events| - 1;
      PrefixIsGood(events, n);
      CountersMatchLog(env, events[..n], x);
      RunKeepsInv(env, events[..n]);
      RunKeepsNumbered(env, events[..n]);
      StepKeepsMatching(env, Run(env, INITIAL, events[..n]), events[n], x);
    }
  }

  predicate Silent(s: State, kind: RecurrenceKind) {
    s.log == [] && Get(s.counter, Series(false, kind)) == 0
  }

  lemma StepKeepsSilent(env: Env, s: State, e: Event, kind: RecurrenceKind)
    requires env.dryRun && Inv(s) && Silent(s, kind)
    ensures Silent(Step(env, s, e), kind)
  {
    hide Inv, Prepare, StartedPass, NamedPeriod, PeriodName;
    if Advances(s, e) {
      var pass := s.passes[e.pass];
      NextFires(s, e.pass);
      FiringIsReady(pass.entries[pass.next], pass.date);
    }
  }

  /** A dry run sends nothing and counts no error, so by `MetricsAddUp` success counts all that its ticks publish. */
  lemma {:induction false} DryRunIsSilent(env: Env, events: seq<Event>, kind: RecurrenceKind)
    requires GoodRun(events) && env.dryRun
    ensures var s := Run(env, INITIAL, events);
            s.log == [] && Get(s.counter, Series(false, kind)) == 0
            && Get(s.counter, Series(true, kind)) == TickPublishes(s.passes, kind)
  {
    MetricsAddUp(env, events, kind);
    if events != [] {
      hide Inv, Step, RealEvent, WellNamedEvent, TickPublishes, Get;
      var n := |events| - 1;
      PrefixIsGood(events, n);
      DryRunIsSilent(env, events[..n], kind);
      RunKeepsInv(env, events[..n]);
      StepKeepsSilent(env, Run(env, INITIAL, events[..n]), events[n], kind);
    }
  }
}
