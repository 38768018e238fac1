/** The manual replay of one date. */
module Trigger {
  import opened Calendar
  import opened Formats
  import opened Schedule
  import opened Store
  import opened Publishing
  import opened Tick

  /** Go's `<` on strings. */
  predicate Less(a: string, b: string) {
    b != [] && (a == [] || a[0] < b[0] || (a[0] == b[0] && Less(a[1..], b[1..])))
  }

  /** The first `k` characters agree, and then the smaller character or the end of `a` decides. */
  predicate DecidedAt(a: string, b: string, k: int) {
    0 <= k <= |a| && k < |b| && a[..k] == b[..k] && (k == |a| || a[k] < b[k])
  }

  lemma HeadsAgree(a: string, b: string, k: int)
    requires DecidedAt(a, b, k)
    ensures k > 0 ==> a != [] && b != [] && a[0] == b[0]
  {
    assert k > 0 ==> a[..k][0] == b[..k][0];
  }

  lemma DecidedInTail(a: string, b: string, k: nat)
    requires a != [] && b != [] && a[0] == b[0]
    ensures DecidedAt(a[1..], b[1..], k) <==> DecidedAt(a, b, k + 1)
  {
    if k < |a| && k < |b| {
      assert a[..k + 1] == [a[0]] + a[1..][..k] && b[..k + 1] == [b[0]] + b[1..][..k];
      assert a[..k + 1][1..] == a[1..][..k] && b[..k + 1][1..] == b[1..][..k];
    }
  }

  /** It is the lexicographic order: at the first difference the smaller character decides, and a proper prefix comes
      first. */
  lemma {:induction false} LessIsLexicographic(a: string, b: string)
    ensures Less(a, b) <==> exists k :: DecidedAt(a, b, k)
  {
    if a == [] || b == [] || a[0] != b[0] {
      if Less(a, b) {
        assert DecidedAt(a, b, 0);
      }
      forall k | DecidedAt(a, b, k) ensures Less(a, b) {
        HeadsAgree(a, b, k);
      }
    } else {
      LessIsLexicographic(a[1..], b[1..]);
      forall k: nat ensures DecidedAt(a[1..], b[1..], k) <==> DecidedAt(a, b, k + 1) { DecidedInTail(a, b, k); }
      if Less(a, b) {
        var k :| DecidedAt(a[1..], b[1..], k);
        assert DecidedAt(a, b, k + 1);
      }
      forall k | DecidedAt(a, b, k) ensures Less(a, b) {
        assert DecidedAt(a[1..], b[1..], k - 1);
      }
    }
  }

  predicate Sorted(defs: seq<TaskDefinition>) {
    forall i, j :: 0 <= i < j < |defs| ==> !Less(defs[j].slug, defs[i].slug)
  }

  /** What `sort.Slice` promises: some ordering by slug of the same entries. */
  predicate IsSortOf(out: seq<TaskDefinition>, defs: seq<TaskDefinition>) {
    Sorted(out) && multiset(out) == multiset(defs)
  }

  lemma {:induction false} LessOrdered(a: string, b: string, c: string)
    ensures !(Less(a, b) && Less(b, a))
    ensures !Less(b, a) && !Less(c, b) ==> !Less(c, a)
  {
    if a != [] && b != [] && c != [] {
      LessOrdered(a[1..], b[1..], c[1..]);
    } else if a != [] && b != [] {
      LessOrdered(a[1..], b[1..], []);
    }
  }

  lemma SortedBelow(x: TaskDefinition, defs: seq<TaskDefinition>)
    requires Sorted(defs) && (defs != [] ==> !Less(defs[0].slug, x.slug))
    ensures Sorted([x] + defs)
  {
    forall j | 0 <= j < |defs| ensures !Less(defs[j].slug, x.slug) {
      LessOrdered(x.slug, defs[0].slug, defs[j].slug);
    }
    hide Less;
  }

  function Insert(x: TaskDefinition, defs: seq<TaskDefinition>): (out: seq<TaskDefinition>)
    requires Sorted(defs)
    ensures IsSortOf(out, [x] + defs)
  {
    if defs == [] then [x]
    else if !Less(defs[0].slug, x.slug) then
      SortedBelow(x, defs);
      [x] + defs
    else
      var rest := Insert(x, defs[1..]);
      assert defs == [defs[0]] + defs[1..];
      assert rest[0] in multiset(rest);
      LessOrdered(defs[0].slug, x.slug, defs[0].slug);
      SortedBelow(defs[0], rest);
      [defs[0]] + rest
  }

  function InsertionSort(defs: seq<TaskDefinition>): (out: seq<TaskDefinition>)
    ensures IsSortOf(out, defs)
  {
    if defs == [] then []
    else
      assert defs == [defs[0]] + defs[1..];
      Insert(defs[0], InsertionSort(defs[1..]))
  }

  datatype ErrorEntry = ErrorEntry(slug: string, error: PublishError)

  datatype Response = Response(date: string, published: nat, errors: seq<ErrorEntry>)

  function Failures(defs: seq<TaskDefinition>, results: seq<Result>): seq<ErrorEntry>
    requires |defs| == |results|
  {
    if defs == [] then []
    else
      var n := |defs| - 1;
      Failures(defs[..n], results[..n])
      + if results[n].Failure? then [ErrorEntry(defs[n].slug, results[n].error)] else []
  }

  lemma OneMoreFailure(results: seq<Result>)
    requires results != []
    ensures var n := |results| - 1;
            |set k | 0 <= k < |results| && results[k].Failure?|
            == |set k | 0 <= k < n && results[..n][k].Failure?| + if results[n].Failure? then 1 else 0
  {
    var n := |results| - 1;
    var before := set k | 0 <= k < n && results[..n][k].Failure?;
    var all := set k | 0 <= k < |results| && results[k].Failure?;
    if results[n].Failure? {
      assert all == before + {n};
    } else {
      assert all == before;
    }
  }

  /** The failures are reported in order, one entry each: slug and error of entry `i` come behind the failures before
      it, and there are as many entries as failures. */
  lemma {:induction false} FailuresInOrder(defs: seq<TaskDefinition>, results: seq<Result>, i: nat)
    requires |defs| == |results|
    ensures |Failures(defs, results)| == |set k | 0 <= k < |results| && results[k].Failure?|
    ensures i < |defs| && results[i].Failure? ==>
              var k := |Failures(defs[..i], results[..i])|;
              k < |Failures(defs, results)| && Failures(defs, results)[k] == ErrorEntry(defs[i].slug, results[i].error)
  {
    if defs != [] {
      var n := |defs| - 1;
      FailuresInOrder(defs[..n], results[..n], i);
      OneMoreFailure(results);
      if i < n {
        assert defs[..n][..i] == defs[..i] && results[..n][..i] == results[..i];
      }
    }
  }

  lemma NothingPublished(env: Env, log: seq<Attempt>, defs: seq<TaskDefinition>, date: Date)
    ensures PublishAll(env, log, defs[..0], date) == log
            && Failures(defs[..0], Results(env, log, defs[..0], date)) == []
  {
  }

  lemma OneMorePublished(env: Env, log: seq<Attempt>, defs: seq<TaskDefinition>, i: nat, date: Date)
    requires i < |defs|
    ensures var before := PublishAll(env, log, defs[..i], date);
            var r := PublishResult(env, before, defs[i], date);
            && PublishAll(env, log, defs[..i + 1], date) == PublishLog(env, before, defs[i], date)
            && Failures(defs[..i + 1], Results(env, log, defs[..i + 1], date))
               == Failures(defs[..i], Results(env, log, defs[..i], date))
                  + if r.Failure? then [ErrorEntry(defs[i].slug, r.error)] else []
  {
    hide PublishLog, PublishResult;
    OneMoreEntry(env, log, map[], defs, i, date);
    assert defs[..i + 1][..i] == defs[..i] && defs[..i + 1][i] == defs[i];
    var results := Results(env, log, defs[..i + 1], date);
    assert results[..i] == Results(env, log, defs[..i], date);
  }

  class TriggerHandler {
    const store: ScheduleStore
    const publisher: Publisher

    constructor (store: ScheduleStore, publisher: Publisher)
      ensures this.store == store && this.publisher == publisher
    {
      this.store := store;
      this.publisher := publisher;
    }

    /** `None` is HTTP 500. Every entry that fires is published once, in an order by slug, and no failure stops the
        rest. */
    method Handle(day: Time) returns (r: Option<Response>, ghost order: seq<TaskDefinition>)
      requires publisher.sender.Valid()
      modifies publisher.sender
      ensures publisher.sender.Valid()
      ensures r.None? <==> store.cache.None?
      ensures r.None? ==> publisher.sender.log == old(publisher.sender.log)
      ensures r.Some? ==>
                var date := DateOf(day, 0);
                var results := Results(publisher.World(), old(publisher.sender.log), order, date);
                && IsSortOf(order, FiringEntries(AdaptAll(store.cache.value), date))
                && publisher.sender.log == PublishAll(publisher.World(), old(publisher.sender.log), order, date)
                && r.value.date == FmtDate(date.year, date.month, date.day)
                && r.value.errors == Failures(order, results)
                && r.value.published + |r.value.errors| == |order|
    {
      hide PublishLog, PublishResult, PublishAll, Results, AdaptAll, FiringEntries, KeepsAlwaysFiring, IsSortOf,
           Failures, FmtDate, YearOf, MonthOf, DayOf;
      order := [];
      var date := NewDate(YearOf(day), MonthOf(day), DayOf(day));
      assert date == DateOf(day, 0);
      var all := store.List();
      if all.None? {
        return None, [];
      }
      var tasks := TasksForDate(all.value, date);
      assert IsSortOf(InsertionSort(tasks), tasks);
      tasks :| IsSortOf(tasks, FiringEntries(all.value, date));
      order := tasks;
      ghost var env, log := publisher.World(), publisher.sender.log;
      var published: nat := 0;
      var errors: seq<ErrorEntry> := [];
      NothingPublished(env, log, tasks, date);
      for i := 0 to |tasks|
        invariant publisher.sender.Valid()
        invariant publisher.sender.log == PublishAll(env, log, tasks[..i], date)
        invariant errors == Failures(tasks[..i], Results(env, log, tasks[..i], date))
        invariant published + |errors| == i
      {
        OneMorePublished(env, log, tasks, i, date);
        var result := publisher.Publish(tasks[i], date);
        if result.Failure? {
          errors := errors + [ErrorEntry(tasks[i].slug, result.error)];
          continue;
        }
        published := published + 1;
      }
      assert tasks[..|tasks|] == tasks;
      r := Some(Response(FmtDate(date.year, date.month, date.day), published, errors));
    }
  }

  // ---------------------------------------------------------------- trigger against tick

  lemma {:induction false} FiringIgnoresHour(defs: seq<TaskDefinition>, date: Date, hour: int)
    ensures FiringEntries(defs, date.(hour := hour)) == FiringEntries(defs, date)
  {
    if defs != [] {
      FiringIgnoresHour(defs[..|defs| - 1], date, hour);
      assert date.(hour := hour).Time() == date.Time();
      hide MonthIndex;
    }
  }

  /** A trigger for a day attempts the entries that an uncancelled tick at any hour of that day attempts, sorted by
      slug. */
  lemma TriggerMatchesTick(cache: seq<ScheduleCR>, day: Time, hour: int, alive: nat, order: seq<TaskDefinition>)
    requires IsSortOf(order, FiringEntries(AdaptAll(cache), DateOf(day, 0)))
    requires |FiringEntries(AdaptAll(cache), DateOf(day, hour))| <= alive
    ensures multiset(order) == multiset(Due(cache, DateOf(day, hour), alive)) && Sorted(order)
  {
    FiringIgnoresHour(AdaptAll(cache), DateOf(day, 0), hour);
    hide FiringEntries, AdaptAll, Sorted;
    var firing := FiringEntries(AdaptAll(cache), DateOf(day, hour));
    assert firing[..|firing|] == firing;
  }

  predicate SlugsUnique(defs: seq<TaskDefinition>) {
    forall d, e :: d in defs && e in defs && d.slug == e.slug ==> d == e
  }

  lemma {:induction false} LessTotal(a: string, b: string)
    ensures Less(a, b) || Less(b, a) || a == b
  {
    if a != [] && b != [] {
      LessTotal(a[1..], b[1..]);
      assert a == [a[0]] + a[1..] && b == [b[0]] + b[1..];
    }
  }

  lemma HeadsEqual(a: seq<TaskDefinition>, b: seq<TaskDefinition>)
    requires Sorted(a) && Sorted(b) && SlugsUnique(a) && a != [] && b != [] && a[0] in b && b[0] in a
    ensures a[0] == b[0]
  {
    hide Less;
    var i :| 0 <= i < |a| && a[i] == b[0];
    var j :| 0 <= j < |b| && b[j] == a[0];
    LessTotal(a[0].slug, b[0].slug);
  }

  lemma Tail(a: seq<TaskDefinition>)
    requires a != [] && Sorted(a)
    ensures a == [a[0]] + a[1..] && Sorted(a[1..]) && multiset(a[1..]) == multiset(a) - multiset{a[0]}
    ensures SlugsUnique(a) ==> SlugsUnique(a[1..])
  {
    hide Less;
    assert a == [a[0]] + a[1..];
    assert forall d :: d in a[1..] ==> d in a;
  }

  /** With unique slugs there is one order only. */
  lemma {:induction false} OrderIsUnique(a: seq<TaskDefinition>, b: seq<TaskDefinition>)
    requires Sorted(a) && Sorted(b) && SlugsUnique(a) && multiset(a) == multiset(b)
    ensures a == b
  {
    hide Sorted, SlugsUnique;
    assert |multiset(a)| == |a| && |multiset(b)| == |b|;
    if a != [] {
      assert a[0] in multiset(b) && b[0] in multiset(a);
      HeadsEqual(a, b);
      Tail(a);
      Tail(b);
      OrderIsUnique(a[1..], b[1..]);
    }
  }
}
