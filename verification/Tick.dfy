/** The hourly pass over the firing entries, and its metrics. */
module Tick {
  import opened Calendar
  import opened Schedule
  import opened Store
  import opened Publishing
  import Finite

  // ---------------------------------------------------------------- metrics

  /** One labelled series of the published counter: the outcome and the kind. */
  datatype Series = Series(ok: bool, kind: RecurrenceKind)

  function AllSeries(): set<Series> {
    set kind, ok: bool | kind in ALL_KINDS :: Series(ok, kind)
  }

  function Zeroes(): map<Series, nat> {
    map s | s in AllSeries() :: 0
  }

  function Get(counter: map<Series, nat>, s: Series): nat {
    if s in counter then counter[s] else 0
  }

  /** What the outer seeding loop has done after `n` kinds. */
  function Seeded(n: nat): map<Series, nat>
    requires n <= |ALL_KINDS|
  {
    map s | s in AllSeries() && s.kind in ALL_KINDS[..n] :: 0
  }

  lemma SeededIsZero(n: nat, s: Series)
    requires n <= |ALL_KINDS|
    ensures Get(Seeded(n), s) == 0
  {
  }

  lemma SeededEnds()
    ensures Seeded(0) == map[] && Seeded(|ALL_KINDS|) == Zeroes()
  {
    assert ALL_KINDS[..|ALL_KINDS|] == ALL_KINDS;
  }

  lemma OneMoreKind(i: nat)
    requires i < |ALL_KINDS|
    ensures var kind := ALL_KINDS[i]; Seeded(i)[Series(true, kind) := 0][Series(false, kind) := 0] == Seeded(i + 1)
  {
    assert ALL_KINDS[..i + 1] == ALL_KINDS[..i] + [ALL_KINDS[i]];
    forall s: Series
      ensures s in Seeded(i + 1)
              <==> s in Seeded(i) || s == Series(true, ALL_KINDS[i]) || s == Series(false, ALL_KINDS[i])
    {
      assert s == Series(true, s.kind) || s == Series(false, s.kind);
    }
  }

  class Metrics {
    var counter: map<Series, nat>
    var lastTick: int

    /** `init`: every combination of outcome and kind is seeded with zero. */
    constructor ()
      ensures counter == Zeroes() && lastTick == 0
    {
      hide Seeded, Zeroes, AllSeries;
      SeededEnds();
      lastTick := 0;
      var seeded: map<Series, nat> := map[];
      for i := 0 to |ALL_KINDS|
        invariant seeded == Seeded(i)
      {
        var results := [true, false];
        for j := 0 to 2
          invariant j == 0 ==> seeded == Seeded(i)
          invariant j == 1 ==> seeded == Seeded(i)[Series(true, ALL_KINDS[i]) := 0]
          invariant j == 2 ==> seeded == Seeded(i)[Series(true, ALL_KINDS[i]) := 0][Series(false, ALL_KINDS[i]) := 0]
        {
          SeededIsZero(i, Series(results[j], ALL_KINDS[i]));
          seeded := seeded[Series(results[j], ALL_KINDS[i]) := Get(seeded, Series(results[j], ALL_KINDS[i])) + 0];
        }
        OneMoreKind(i);
      }
      counter := seeded;
    }

    method IncPublished(ok: bool, kind: RecurrenceKind)
      modifies this`counter
      ensures counter == old(counter)[Series(ok, kind) := Get(old(counter), Series(ok, kind)) + 1]
    {
      counter := counter[Series(ok, kind) := Get(counter, Series(ok, kind)) + 1];
    }

    method SetLastTickTimestamp(seconds: int)
      modifies this`lastTick
      ensures lastTick == seconds
    {
      lastTick := seconds;
    }
  }

  // ---------------------------------------------------------------- one pass, as a function

  /** Publishing a list in order: the log, and the result of each entry. */
  function PublishAll(env: Env, log: seq<Attempt>, defs: seq<TaskDefinition>, date: Date): seq<Attempt> {
    if defs == [] then log
    else PublishLog(env, PublishAll(env, log, defs[..|defs| - 1], date), defs[|defs| - 1], date)
  }

  function Results(env: Env, log: seq<Attempt>, defs: seq<TaskDefinition>, date: Date): (results: seq<Result>)
    ensures |results| == |defs|
  {
    if defs == [] then []
    else
      var front := defs[..|defs| - 1];
      Results(env, log, front, date) + [PublishResult(env, PublishAll(env, log, front, date), defs[|defs| - 1], date)]
  }

  /** The counter after one increment per entry. */
  function Counted(counter: map<Series, nat>, defs: seq<TaskDefinition>, results: seq<Result>): map<Series, nat>
    requires |defs| == |results|
  {
    if defs == [] then counter
    else
      var n := |defs| - 1;
      var c := Counted(counter, defs[..n], results[..n]);
      var s := Series(results[n].Success?, defs[n].recurrence);
      c[s := Get(c, s) + 1]
  }

  datatype Clock = Clock(t: Time, hour: int, unix: int)

  datatype Process = Process(log: seq<Attempt>, counter: map<Series, nat>, lastTick: int)

  /** The entries a pass reaches: the firing ones, in order, up to the first check that finds the context done. */
  function Due(cache: seq<ScheduleCR>, date: Date, alive: nat): seq<TaskDefinition> {
    var firing := FiringEntries(AdaptAll(cache), date);
    firing[..if alive < |firing| then alive else |firing|]
  }

  function TickStep(env: Env, p: Process, now: Clock, cache: Option<seq<ScheduleCR>>, alive: nat): Process {
    var date := DateOf(now.t, now.hour);
    if cache.None? then p.(lastTick := now.unix)
    else
      var due := Due(cache.value, date, alive);
      Process(PublishAll(env, p.log, due, date), Counted(p.counter, due, Results(env, p.log, due, date)), now.unix)
  }

  datatype TickInput = TickInput(now: Clock, cache: Option<seq<ScheduleCR>>, alive: nat)

  function Ticks(env: Env, p: Process, inputs: seq<TickInput>): Process {
    if inputs == [] then p
    else
      var last := inputs[|inputs| - 1];
      TickStep(env, Ticks(env, p, inputs[..|inputs| - 1]), last.now, last.cache, last.alive)
  }

  // ---------------------------------------------------------------- the loop

  lemma NoEntryYet(env: Env, log: seq<Attempt>, counter: map<Series, nat>, defs: seq<TaskDefinition>, date: Date)
    ensures PublishAll(env, log, defs[..0], date) == log
    ensures Counted(counter, defs[..0], Results(env, log, defs[..0], date)) == counter
  {
  }

  lemma OneMoreEntry(
    env: Env, log: seq<Attempt>, counter: map<Series, nat>, defs: seq<TaskDefinition>, i: nat, date: Date)
    requires i < |defs|
    ensures var before := PublishAll(env, log, defs[..i], date);
            var r := PublishResult(env, before, defs[i], date);
            var c := Counted(counter, defs[..i], Results(env, log, defs[..i], date));
            (PublishAll(env, log, defs[..i + 1], date) == PublishLog(env, before, defs[i], date)
            && Counted(counter, defs[..i + 1], Results(env, log, defs[..i + 1], date))
               == c[Series(r.Success?, defs[i].recurrence) := Get(c, Series(r.Success?, defs[i].recurrence)) + 1])
  {
    hide PublishLog, PublishResult;
    assert defs[..i + 1][..i] == defs[..i] && defs[..i + 1][i] == defs[i];
    var results := Results(env, log, defs[..i + 1], date);
    assert results[..i] == Results(env, log, defs[..i], date);
  }

  class TickLoop {
    const store: ScheduleStore
    const publisher: Publisher
    const metrics: Metrics

    constructor (store: ScheduleStore, publisher: Publisher, metrics: Metrics)
      ensures this.store == store && this.publisher == publisher && this.metrics == metrics
    {
      this.store := store;
      this.publisher := publisher;
      this.metrics := metrics;
    }

    ghost function State(): Process
      reads publisher.sender, metrics
    {
      Process(publisher.sender.log, metrics.counter, metrics.lastTick)
    }

    /** One pass. `alive` is the number of context checks that still find the context running. */
    method Tick(now: Clock, alive: nat)
      requires publisher.sender.Valid()
      modifies publisher.sender, metrics
      ensures publisher.sender.Valid()
      ensures State() == TickStep(publisher.World(), old(State()), now, store.cache, alive)
    {
      hide PublishLog, PublishResult, PublishAll, Results, Counted, Get, AdaptAll, FiringEntries,
        KeepsAlwaysFiring;
      metrics.SetLastTickTimestamp(now.unix);
      var date := NewDate(YearOf(now.t), MonthOf(now.t), DayOf(now.t));
      date := date.(hour := now.hour);
      var all := store.List();
      if all.None? {
        return;
      }
      var defs := TasksForDate(all.value, date);
      ghost var env, log, counter := publisher.World(), publisher.sender.log, metrics.counter;
      NoEntryYet(env, log, counter, defs, date);
      if |defs| == 0 {
        return;
      }
      for i := 0 to |defs|
        invariant i <= alive && publisher.sender.Valid() && metrics.lastTick == now.unix
        invariant publisher.sender.log == PublishAll(env, log, defs[..i], date)
        invariant metrics.counter == Counted(counter, defs[..i], Results(env, log, defs[..i], date))
      {
        if i >= alive {
          return;
        }
        OneMoreEntry(env, log, counter, defs, i, date);
        var r := publisher.Publish(defs[i], date);
        if r.Failure? {
          metrics.IncPublished(false, defs[i].recurrence);
          continue;
        }
        metrics.IncPublished(true, defs[i].recurrence);
      }
    }

    /** The initial pass, then one per ticker event until the context is done; the informer updates the cache in
        between. */
    method Run(inputs: seq<TickInput>)
      requires inputs != [] && publisher.sender.Valid()
      modifies publisher.sender, metrics, store
      ensures publisher.sender.Valid()
      ensures State() == Ticks(publisher.World(), old(State()), inputs)
    {
      hide TickStep;
      ghost var env, p := publisher.World(), State();
      store.cache := inputs[0].cache;
      Tick(inputs[0].now, inputs[0].alive);
      assert inputs[..1][..0] == [];
      for i := 1 to |inputs|
        invariant publisher.sender.Valid() && State() == Ticks(env, p, inputs[..i])
      {
        assert inputs[..i + 1][..i] == inputs[..i];
        store.cache := inputs[i].cache;
        Tick(inputs[i].now, inputs[i].alive);
      }
      assert inputs[..|inputs|] == inputs;
    }
  }

  // ---------------------------------------------------------------- what a pass does

  /** Sends and refusals of one pass: one attempt for each entry that is ready, in order. */
  function Attempted(env: Env, at: nat, defs: seq<TaskDefinition>, date: Date): seq<Attempt> {
    if defs == [] then []
    else
      var front, last := defs[..|defs| - 1], defs[|defs| - 1];
      var sent := Attempted(env, at, front, date);
      match Prepare(last, date)
      case Refused(_) => sent
      case Ready(command) => sent + [Attempt(last, date, command, env.outcome(at + |sent|))]
  }

  /** A failing entry does not stop the pass: every entry that is ready is attempted once, in order, after the old log.
      */
  lemma {:induction false} PassAttemptsAll(env: Env, log: seq<Attempt>, defs: seq<TaskDefinition>, date: Date)
    ensures PublishAll(env, log, defs, date) == if env.dryRun then log else log + Attempted(env, |log|, defs, date)
  {
    hide Prepare;
    if defs != [] {
      PassAttemptsAll(env, log, defs[..|defs| - 1], date);
    }
  }

  predicate AllReady(defs: seq<TaskDefinition>, date: Date) {
    forall i :: 0 <= i < |defs| ==> Prepare(defs[i], date).Ready?
  }

  lemma LastAttempt(env: Env, at: nat, defs: seq<TaskDefinition>, date: Date)
    requires defs != [] && Prepare(defs[|defs| - 1], date).Ready?
    ensures var sent := Attempted(env, at, defs[..|defs| - 1], date);
            var last := defs[|defs| - 1];
            Attempted(env, at, defs, date)
                == sent + [Attempt(last, date, Prepare(last, date).command, env.outcome(at + |sent|))]
  {
    hide Prepare;
  }

  /** If every entry is ready the pass attempts exactly the list, entry by entry. */
  lemma {:induction false} ReadyPassIsExact(env: Env, at: nat, defs: seq<TaskDefinition>, date: Date, i: nat)
    requires AllReady(defs, date)
    ensures |Attempted(env, at, defs, date)| == |defs|
    ensures i < |defs| ==>
              Prepare(defs[i], date).Ready?
              && Attempted(env, at, defs, date)[i]
                 == Attempt(defs[i], date, Prepare(defs[i], date).command, env.outcome(at + i))
  {
    hide Prepare;
    if defs != [] {
      var front := defs[..|defs| - 1];
      ReadyPassIsExact(env, at, front, date, i);
      LastAttempt(env, at, defs, date);
      hide Attempted, AllReady;
    }
  }

  function OfKind(defs: seq<TaskDefinition>, kind: RecurrenceKind): nat {
    if defs == [] then 0 else OfKind(defs[..|defs| - 1], kind) + if defs[|defs| - 1].recurrence == kind then 1 else 0
  }

  /** The publish attempts of a pass with the outcome and kind of one series. */
  function Outcomes(defs: seq<TaskDefinition>, results: seq<Result>, s: Series): nat
    requires |defs| == |results|
  {
    if defs == [] then 0
    else
      var n := |defs| - 1;
      Outcomes(defs[..n], results[..n], s) + if Series(results[n].Success?, defs[n].recurrence) == s then 1 else 0
  }

  /** A pass adds to each series exactly its attempts of that outcome and kind. */
  lemma {:induction false} SeriesCounted(
    counter: map<Series, nat>, defs: seq<TaskDefinition>, results: seq<Result>, s: Series)
    requires |defs| == |results|
    ensures Get(Counted(counter, defs, results), s) == Get(counter, s) + Outcomes(defs, results, s)
  {
    if defs != [] {
      var n := |defs| - 1;
      SeriesCounted(counter, defs[..n], results[..n], s);
    }
  }

  function PerKind(counter: map<Series, nat>, kind: RecurrenceKind): nat {
    Get(counter, Series(true, kind)) + Get(counter, Series(false, kind))
  }

  lemma OneMoreCount(counter: map<Series, nat>, s: Series, kind: RecurrenceKind)
    ensures PerKind(counter[s := Get(counter, s) + 1], kind) == PerKind(counter, kind) + if s.kind == kind then 1 else 0
  {
    assert s == Series(true, s.kind) || s == Series(false, s.kind);
  }

  /** Success and error increments of a kind add up to its publish attempts. */
  lemma {:induction false} CountsAddUp(
    counter: map<Series, nat>, defs: seq<TaskDefinition>, results: seq<Result>, kind: RecurrenceKind)
    requires |defs| == |results|
    ensures PerKind(Counted(counter, defs, results), kind) == PerKind(counter, kind) + OfKind(defs, kind)
  {
    hide PerKind, Get;
    if defs != [] {
      var n := |defs| - 1;
      CountsAddUp(counter, defs[..n], results[..n], kind);
      OneMoreCount(Counted(counter, defs[..n], results[..n]), Series(results[n].Success?, defs[n].recurrence), kind);
    }
  }

  /** The seeded series are sixteen. */
  lemma SixteenSeries()
    ensures |AllSeries()| == 16
  {
    var kinds := Finite.Elements(ALL_KINDS);
    var success, error := (kind: RecurrenceKind) => Series(true, kind), (kind: RecurrenceKind) => Series(false, kind);
    assert forall i, j :: 0 <= i < j < |ALL_KINDS| ==> ALL_KINDS[i] != ALL_KINDS[j];
    Finite.DistinctSize(ALL_KINDS);
    Finite.ImageSize(kinds, success);
    Finite.ImageSize(kinds, error);
    forall s ensures s in AllSeries() <==> s in Finite.Image(kinds, success) + Finite.Image(kinds, error) {
      assert s == if s.ok then success(s.kind) else error(s.kind);
    }
    assert AllSeries() == Finite.Image(kinds, success) + Finite.Image(kinds, error);
    assert Finite.Image(kinds, success) !! Finite.Image(kinds, error);
  }
}
