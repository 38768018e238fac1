# Recurring tasks: one name per slug and period

A Dafny model of the recurring-task-creator service. The service turns `Schedule` resources into create commands:
an hourly pass (or a manual trigger) lists the resources, keeps those that fire on a civil date, and sends for each a
command whose identifier is the UUID5 of `recurring-<slug>-<token>`. The token names the *period* of the date: a day,
an hour, an ISO week, a month, a quarter or a year. Everything downstream rests on three computations agreeing,
although they share little code: the token, the `defer_date` stamped on the command, and the thirteen placeholders
rendered into its texts.

## How the project is laid out

| file | content |
|---|---|
| `Calendar.dfy` | the Gregorian calendar over day numbers, `time.Date`, `AddDate`, `Weekday`, `ISOWeek`, for all years |
| `Formats.dfy` | the `Sprintf` formats, each with a parser that inverts its numbers |
| `Schedule.dfy` | dates, kinds, definitions, and which definitions fire |
| `PeriodToken.dfy` | `Build`, `deferDateFor`, and the numbering of periods that explains both |
| `Renderer.dfy`, `Placeholders.dfy` | sequential replacement against simultaneous substitution; the table of a date |
| `Frontmatter.dfy`, `Identifier.dfy`, `Publishing.dfy` | the command: frontmatter, name, title, guards, one send |
| `SignedYears.dfy` | when two names are equal, for any slugs and any periods |
| `Store.dfy`, `Admission.dfy` | the adapter's loops, and the CRD's enums and CEL rules |
| `Tick.dfy`, `Trigger.dfy`, `Pipeline.dfy` | a pass, a replay, and whole runs in which passes interleave entry by entry |
| `EndToEnd.dfy`, `KnownAnswers.dfy` | from the submitted object to the command; the documented examples carried through |
| `CrdInstall.dfy` | many pods installing the CRD against a versioned API server |
| `Finite.dfy` | counting with distinct elements and with images |

Modelling choices:

- A `time.Time` at midnight UTC is its day number, with day 0 on Monday, 1 January 2001 (`Calendar.Anchors` ties this to
  a known Saturday). Years are all the integers; `time.Date` and `AddDate` carry as in Go and are total.
- Clock readings, list results, cancellation points and send outcomes are arbitrary inputs. A send is acknowledged,
  rejected, or delivered although an error came back (`Publishing.Outcome`). Clock inputs are a Berlin civil day and
  hour, and a trigger's day is the resolved one.
- `Command.identifierName` is the string that is hashed. Nothing is claimed about SHA-1 collisions.
- The HTTP server and the tick loop run concurrently (main.go:135-139), so a run in `Pipeline` is any interleaving of
  single publishes; a cancelled pass is one that takes no further step, and a restart drops all passes and counters. Which pass made
  each attempt is kept as history (`owners`, `started`) that decides no step.
- `sort.Slice` is any ordering by slug of the same entries, and a range over a Go map visits keys in any order.
- A kind is a datatype of the eight constants and any other string, as the Go type is a string.

Where code and documentation disagree, the code is followed: docs/architecture.md:45-59 describes an older date-only
identifier; pkg/k8s_connector_schema.go:253-256 says `status` and `page_type` cannot be overridden, but
pkg/publisher/frontmatter.go:94-110 lets the operator override them; README.md:69 of the repository speaks of two CEL
rules where the schema has four.

## Where a law needs a condition

- Names decode uniquely for every pair of slugs and tokens except one family: one slug is the other followed by `-`, and
  its token is the other's without the sign (`Identifier.NamesEqual`). `SignedYears.NamesOfAllPeriods` says for which
  periods that is so: the same part of the negated year, when the positive year needs no padding (1000 or more, 1 or more
  for a quarter), or a year and an hour, one of them negative, with the same digits. `Identifier.NegativeYearsCollide` and
  `SignedYears.HourAndYearCollide` are instances. Either condition of `Identifier.NameDecodes` excludes the family: no
  slug ends in `-` (Kubernetes forbids such names), or no year is negative.
- Exactly-once over runs asks nothing of the schedules but names that do not end in a hyphen: they come, go and change in
  every respect. The period meant is the one a definition *names*, fire period plus offset, and Yearly and OnDate name the
  same periods (`Identifier.Unit`). There is one coincidence, and `Identifier.TokensOfAllKinds` states it for all years: a
  Yearly or OnDate token is the text of an Hourly token exactly when its year is the hour's year followed by the digits of
  month, day and hour (`Formats.SpelledLikeHour`). An offset of two thousand million reaches such a year
  (`Identifier.HugeOffsetLooksLikeAnHour`), and a slug meets it only when its kind changes between Hourly and the others.

## Model

| member | source | states |
|---|---|---|
| Calendar.CivilRoundTrip | pkg/schedule/date.go:34-49 | every day number has a valid civil date that leads back to it |
| Calendar.TimeRoundTrip | pkg/schedule/date.go:34-49 | every valid civil date is read back from its carrier time unchanged |
| Calendar.AddMonths | pkg/publisher/period_token.go:114-125 | from the first of a month `AddDate` moves by exactly the given years and months, whatever the sign |
| Calendar.YearStartClosedForm | pkg/schedule/date.go:34-49 | the month-by-month calendar has the closed form of the Gregorian leap rule, in all years |
| Calendar.ISOWeekIsStandard | pkg/publisher/period_token.go:100-102 | the Thursday rule of `ISOWeek` numbers weeks from the week of 4 January, as ISO 8601 does |
| Calendar.WeeksInYear | pkg/publisher/period_token.go:100-102 | a year has 52 or 53 such weeks, 53 iff 1 January is a Thursday, or a Wednesday of a leap year |
| Calendar.Anchors | pkg/publisher/placeholders_test.go:33-37 | 20 June 2026 is a Saturday of 2026W25, and 2026 has a week 53 |
| Formats.IntRoundTrip | pkg/publisher/render.go:20-53 | a zero-padded number, negative ones included, parses back to itself |
| Formats.DocumentedExamples | README.md:83-97 | the documented spellings of a date, week, month, quarter, year and hour |
| Schedule.TasksForDate | pkg/schedule/tasks_for_date.go:46-80 | the nested loops return the entries that fire, in order, and drop no entry of the six always-fire kinds |
| Schedule.AlwaysFireKinds | pkg/schedule/tasks_for_date.go:64-78 | Daily, Weekly, Monthly, Quarterly, Yearly and Hourly fire on every date, an unknown kind on none |
| Schedule.FiringPartByPart | pkg/schedule/tasks_for_date.go:46-80 | each entry that fires is kept once for every time it is listed, in its place |
| Schedule.WeekdayFiresPerWeek | pkg/schedule/tasks_for_date.go:53-59 | a duplicate-free weekday set fires once per named day in any seven consecutive dates |
| Schedule.OnDateFiresOncePerYear | pkg/schedule/tasks_for_date.go:60-63 | an OnDate entry fires on exactly its day in each year that has it, and on no other date |
| Schedule.OnDateCalendar | pkg/k8s_connector_schema.go:196-201 | 02-30 is in no year, 02-29 in the leap years only |
| PeriodToken.BuildNamesPeriod | pkg/publisher/period_token.go:82-140 | for every kind that fires, the token exists and is the name of the fire period moved by the offset |
| PeriodToken.TokenText | pkg/publisher/period_token.go:82-140 | the token in terms of civil dates: the date, hour or year itself, or the month, quarter or year of any date `periodOffset` periods away |
| PeriodToken.WeekTokenText | pkg/publisher/period_token.go:100-113 | Weekly and Weekday tokens write the ISO 8601 year and week of the fire date, counted from the week of 4 January |
| PeriodToken.PeriodNamesDiffer | pkg/publisher/render.go:20-53 | distinct periods of a kind have distinct token texts, across leap years, week-53 years and negative years |
| PeriodToken.TokensEqualIffPeriodsEqual | pkg/publisher/period_token.go:114-125 | for any two dates and any two offsets, tokens are equal iff period plus offset is: offsets are exact and add up |
| PeriodToken.WeekdayTokensPerWeek | pkg/publisher/period_token.go:103-113 | a weekday set has one token per named day in any seven consecutive dates |
| PeriodToken.DeferDateIsPeriodStart | pkg/publisher/frontmatter.go:148-177 | the stamped date is the first day of the fire period, or the fire date for match-fire kinds |
| PeriodToken.PeriodStartIsLeast | pkg/publisher/frontmatter.go:139-169 | a date is at or after the start of a period iff its own period is that one or later, and the start lies in the period |
| PeriodToken.DeferDateIsLeast | pkg/publisher/frontmatter.go:139-169 | for every always-fire kind and offset the defer date has the token of the fire date, and no earlier date has it |
| PeriodToken.TokenAgreesWithDeferDate | pkg/publisher/period_token.go:82-140 | on any two dates on which a definition fires, tokens are equal iff `defer_date` strings are, for Hourly iff the hours are too |
| Renderer.PassAddsRow | pkg/publisher/renderer.go:42-44 | one more `ReplaceAll` pass over a simultaneous substitution is the simultaneous substitution with one more row |
| Renderer.ReplaceInOrder | pkg/publisher/renderer.go:39-46 | the loop of passes computes one left-to-right substitution |
| Placeholders.TableIsGood | pkg/publisher/placeholders.go:38-57 | on every date names are distinct `{{name}}` texts and values use none of their characters |
| Placeholders.Render | pkg/publisher/renderer.go:39-46 | thirteen sequential passes are one simultaneous substitution, on every template and date |
| Placeholders.RenderInAnyOrder | pkg/publisher/placeholders.go:38-57 | every order of the table meets what the loop of passes asks of it, and gives the same result |
| Placeholders.NoPlaceholderLeft | pkg/publisher/renderer.go:22-31 | no supported placeholder stands anywhere in a rendered text |
| Placeholders.RenderTwice | pkg/publisher/renderer.go:22-31 | rendering the output again, even for another date, changes nothing |
| Placeholders.RenderPlaceholder | pkg/publisher/renderer.go:39-46 | a supported name is replaced wherever it stands and any other `{{...}}` stays verbatim, the rest rendered on its own |
| Placeholders.NamesRenderTokens | pkg/publisher/placeholders.go:38-57 | each of the ten period names, by its text, renders the token of its cadence at offset 0, +1 or -1, wherever it stands |
| Placeholders.NamesRenderNextDays | pkg/publisher/placeholders.go:119-131 | `{{next_sat_date}}` and `{{next_sun_date}}` render the first Saturday and Sunday from the date on, today included |
| Placeholders.NameRendersNextWeek | pkg/publisher/placeholders.go:83-86 | `{{next_week}}` renders the week token of a date iff that date is in the following ISO week |
| Placeholders.PlaceholdersAreTokens | pkg/publisher/placeholders.go:74-117 | `current_*`, `next_*` and `last_*` values are the tokens at offsets 0, +1 and -1 |
| KnownAnswers.TableOfTheDay | README.md:83-97 | the thirteen names on Saturday 20 June 2026 render the texts of the documented table |
| Placeholders.NextWeekdayIsLeast | pkg/publisher/placeholders.go:123-131 | the least date not before the base with the target weekday, at most six days ahead |
| Placeholders.NextWeekIsNext | pkg/publisher/placeholders.go:83-86 | `{{next_week}}` is the week token of exactly the seven dates after the current ISO week |
| Frontmatter.RenderList | pkg/publisher/frontmatter.go:123-137 | a new list of equal length, string entries rendered, all others kept, and the operator's list left as it was |
| Frontmatter.RenderedPointwise | pkg/publisher/frontmatter.go:99-109 | a string is rendered, a list entry by entry, and any other value, lists and maps in a list included, is kept |
| Frontmatter.RenderValueTwice | pkg/publisher/frontmatter.go:99-109 | rendering a value again, for any date, changes nothing |
| Frontmatter.Format | pkg/publisher/frontmatter.go:87-114 | the same map for every iteration order of the operator map |
| Frontmatter.StampedKeys | pkg/publisher/frontmatter.go:110-113 | the exact key set; forced keys override the operator's, whose other keys are rendered |
| Frontmatter.SeededKeys | pkg/publisher/frontmatter.go:94-98 | the seeds stand where the operator wrote nothing |
| Frontmatter.OnlyDeferDateDependsOnKind | pkg/publisher/frontmatter.go:87-114 | two kinds give maps that differ at most in `defer_date` |
| Identifier.TokensOfAllKinds | pkg/publisher/period_token.go:82-140 | tokens of any two kinds, in all years, are equal iff unit and period are, or one names a year and the other an hour with the digits of that year |
| Identifier.HugeOffsetLooksLikeAnHour | pkg/publisher/period_token.go:91-99 | a Yearly and an Hourly definition of one slug for which `Build` returns one token |
| Formats.YearsAgainstHours | pkg/publisher/render.go:20-53 | a year is written like an hour iff it is the hour's year followed by its six digits, and that year is at least 1000 or at most -100 |
| Identifier.TokenShape | pkg/publisher/render.go:20-53 | where the token of each kind has hyphens, digits and letters, and how long it is at least |
| Identifier.NamesEqual | pkg/publisher/task_identifier.go:69 | exactly when two identifier names are equal, for all slugs and all texts with the shape of a token |
| Identifier.NameDecodes | pkg/publisher/task_identifier.go:55-71 | a name determines slug and token if no slug ends in a hyphen, or if no year is negative |
| Identifier.NegativeYearsCollide | pkg/publisher/task_identifier.go:69 | without either condition two different slugs and tokens share a name |
| SignedYears.NamesOfAllPeriods | pkg/publisher/task_identifier.go:55-71 | exactly when two names are equal, for any slugs and any periods of any kinds, with nothing asked of either |
| SignedYears.HourAndYearCollide | pkg/publisher/task_identifier.go:69 | an hour of year -999 and a year, under two slugs, share a name |
| Identifier.TitleDecodes | pkg/publisher/publisher.go:84-86 | a title determines its token and its heading |
| Publishing.TrimSpaceStrips | pkg/publisher/publisher.go:84 | trimming removes white space at the ends, all of it and nothing else |
| Publishing.SpaceCodePoints | pkg/publisher/publisher.go:84 | which code points are white space |
| Publishing.FiringIsReady | pkg/publisher/publisher.go:67-81 | no guard stops an entry with a slug that fires on a real date |
| Publishing.GuardsInOrder | pkg/publisher/publisher.go:67-81 | which error a publish returns before sending, and exactly when: slug, then date, then token |
| Publishing.CommandCarriesDefinition | pkg/publisher/publisher.go:82-96 | name, title, body and vault of the command, and its frontmatter key by key, from the definition's own fields |
| Publishing.CommandNamesPeriod | pkg/publisher/publisher.go:82-96 | identifier and title carry the token of the offset period, `defer_date` the start of the fire period |
| Publishing.CommandIgnoresHour | pkg/schedule/date.go:16-21 | the hour reaches the command of Hourly only, and there only identifier and title |
| Publishing.Publisher.Publish | pkg/publisher/publisher.go:62-113 | guards in order, then at most one send, whose failure is the result |
| Store.AdaptSchedule | pkg/store/adapter.go:35-97 | succeeds iff the kind and all weekday names are known, with the resource's own fields and weekdays in first-occurrence form; otherwise the kind's error, or that of the first unknown name |
| Store.AdaptationCopies | pkg/store/adapter.go:52-96 | slug, texts, vault, frontmatter, offset, month and day are the resource's own, the flag is set iff it says true, and a single weekday comes before the list |
| Store.FirstOccurrencesInOrder | pkg/store/adapter.go:60-76 | the seen-set loop keeps the order of first occurrences |
| Store.FirstOccurrencesKeepsAll | pkg/store/adapter.go:60-76 | it drops nothing iff no day is named twice |
| Store.ScheduleStore.List | pkg/store/store.go:40-55 | the adaptable resources, in order; an error iff the lister fails |
| Store.AdaptPartByPart | pkg/store/store.go:40-55 | each resource that adapts gives one definition in its place, and one that does not hides no other |
| Admission.SameFormSameDay | pkg/k8s_connector_schema.go:101-115 | two admitted spellings canonicalise alike in the CEL map iff the adapter parses them to one day |
| Admission.NoDuplicateRuleIsLossless | pkg/k8s_connector_schema.go:101-115 | the CEL no-duplicate rule holds iff the adapter's loop drops nothing |
| Admission.DayNamesMatch | pkg/k8s_connector_schema.go:42-58 | the item enum, the keys of the CEL map and the names the adapter parses are the same fourteen |
| Admission.AdmittedExactly | pkg/k8s_connector_schema.go:69-127 | what schema and rules admit, as an if-and-only-if over kind, day names, offset, month and day; that a list has at most seven names follows |
| Admission.KnownUpToCase | pkg/store/adapter.go:36-50 | the adapter knows a kind iff it is one of the eight up to letter case |
| Admission.LowerCaseExamples | pkg/store/adapter.go:36 | letter case is Go's, the two letters beyond ASCII that lower to ASCII included |
| Admission.AdmittedAdapts | pkg/k8s_connector_schema.go:69-127 | every admitted trigger adapts: weekdays iff Weekday, an offset only if period-anchored, month and day iff OnDate |
| Admission.AdmittedWeekdayFires | pkg/store/adapter.go:52-76 | an admitted Weekday schedule fires once per listed name in any seven consecutive dates |
| EndToEnd.AdmittedFires | pkg/schedule/tasks_for_date.go:46-80 | an admitted Weekday object fires exactly on the days it lists, OnDate exactly on its month and day, the others on every date |
| EndToEnd.AdmittedToken | pkg/publisher/period_token.go:82-140 | the token of an admitted object names the fire period plus the object's own offset, zero where it is absent |
| EndToEnd.AdmittedWeekToken | pkg/publisher/period_token.go:100-113 | Weekly and Weekday objects get the ISO week, and the short name of the day as the object lists it |
| EndToEnd.DaySuffix | pkg/publisher/period_token.go:30-48 | the suffix of a day is the first three letters of its name, in lower case, in either spelling |
| EndToEnd.AdmittedCommand | pkg/publisher/publisher.go:82-96 | the command of an admitted schedule carries the resource's name, texts, vault, frontmatter and flag |
| KnownAnswers.WeekdayTokens | pkg/publisher/publisher_test.go:362-385 | Monday, Wednesday and Friday of 2026W25 and the next Monday have their documented tokens |
| KnownAnswers.MonthlyReview | README.md:75 | the review schedule with offset -1 is named 2026-06 on every day of July and 2026-07 on every day of August, name and title in full, and `{{last_month}}` agrees |
| Tick.Metrics.constructor | pkg/tick/metrics.go:56-66 | the seeding loops leave every series at zero |
| Tick.SixteenSeries | pkg/tick/metrics.go:36-38 | the seeded series are sixteen |
| Tick.TickLoop.Tick | pkg/tick/tick.go:96-139 | log, counters and gauge after one pass, for any list result, cancellation point and send outcomes |
| Tick.TickLoop.Run | pkg/tick/tick.go:67-82 | the initial pass and the ticker's passes, one after another |
| Tick.PassAttemptsAll | pkg/tick/tick.go:115-138 | a failing entry does not stop the pass: each ready entry is attempted once, in order |
| Tick.SeriesCounted | pkg/tick/tick.go:122-137 | a pass adds to each series exactly its attempts with that outcome and kind |
| Tick.CountsAddUp | pkg/tick/tick.go:122-137 | success and error increments of a kind add up to its publish attempts |
| Trigger.TriggerHandler.Handle | pkg/handler/trigger.go:60-101 | an ordering by slug of the firing entries is published to the end; published and errors add up to it |
| Trigger.FailuresInOrder | pkg/handler/trigger.go:82-96 | the reported errors are the failures, one each, in order, with slug and error |
| Trigger.LessIsLexicographic | pkg/handler/trigger.go:74 | the order of slugs is the lexicographic one |
| Trigger.TriggerMatchesTick | pkg/handler/trigger.go:73-74 | a trigger attempts the entries of an uncancelled tick at any hour of the day, sorted by slug |
| Trigger.OrderIsUnique | pkg/handler/trigger.go:74 | with unique slugs the unstable sort has one result |
| Pipeline.SurvivorsGetTokens | pkg/publisher/period_token.go:103-140 | for every cache and date, each entry that survives listing and filtering gets a token |
| Pipeline.TickAttemptsPrefix | pkg/tick/tick.go:115-138 | a tick's pass run alone, as `TickLoop.Tick` runs it, attempts a prefix of the firing entries in order, all of them unless cancelled, whichever sends fail |
| Pipeline.PassesAttemptPrefixes | pkg/tick/tick.go:115-138 | in every interleaved run each pass, of a tick or a trigger, has attempted exactly the first entries of its snapshot, once each, in order, with its date and their commands; as many as its cursor says, so all of them when it is complete |
| Pipeline.SentEntryIsNotLost | pkg/tick/tick.go:115-138 | every entry that a pass has sent without rejection, also a pass that was cancelled or cut off, has its name on the topic for good, for every date of the period |
| Pipeline.UninterruptedIsTick | pkg/tick/tick.go:96-139 | the loop's own pass is one interleaving: run alone, its steps leave exactly the log, counters and gauge of `TickLoop.Tick` |
| Pipeline.LoopIsRun | pkg/tick/tick.go:67-82 | the loop is the run of all its passes in order, from the first; a failing list call still sets the gauge |
| Pipeline.RunKeepsInv | pkg/tick/tick.go:96-139 | after any interleaved run every attempt is for an entry that fires on its date, with exactly its command |
| Pipeline.LogGrows | pkg/tick/tick.go:67-82 | no event, a restart included, takes an attempt back |
| Pipeline.ExactlyOnce | pkg/publisher/task_identifier.go:55-71 | over every interleaved run and every edit of the schedules, two sends share a name iff they have the same slug and name the same period, or a year and an hour spelled alike |
| Pipeline.NamesCountTasks | README.md:37 | distinct delivered names are at most as many as the pairs of slug and named period with a delivery, and as many iff no year and hour of one slug are spelled alike |
| Pipeline.NoPeriodIsLost | pkg/tick/tick.go:96-139 | one complete pass, whatever runs beside it, leaves on the topic for good, for each entry of its snapshot whose send was not rejected, the name that entry has on every date of the period, for the always-fire kinds without further condition |
| Pipeline.MetricsAddUp | pkg/tick/metrics.go:56-81 | after any run only the sixteen series exist, and per kind they add up to the ticks' publish attempts since the restart |
| Pipeline.CountersMatchLog | pkg/tick/tick.go:122-137 | after any run each series holds exactly the attempts that ticks have made since the restart, of its kind, acknowledged ones under success and all others under error |
| Pipeline.DryRunIsSilent | pkg/publisher/publisher.go:97-101 | a dry run sends nothing, counts no error, and counts every publish of its ticks as success |
| CrdInstall.DesiredIsInstalled | pkg/k8s_connector.go:67-130 | in every interleaving, once a pod has succeeded or failed by an Update conflict, the desired spec is stored and stays |
| CrdInstall.FourCalls | pkg/k8s_connector.go:67-130 | each pod makes at most four calls and has returned by the fourth |
| CrdInstall.ServedCallsSucceed | pkg/k8s_connector.go:67-130 | in every run in which the calls of one pod are all served, it fails only by that conflict, and by its fourth step has returned with the desired spec stored |
| CrdInstall.UnservedCallEndsPod | pkg/k8s_connector.go:67-130 | a call that is not served is a pod's last: it returns that call's error and makes no further one |
| CrdInstall.AloneSucceeds | pkg/k8s_connector.go:67-130 | a pod alone needs two served calls without a CRD and three with one, and succeeds |
| CrdInstall.UpdateIsConditional | pkg/k8s_connector.go:109-130 | an update writes only over the version it has read, and otherwise is a conflict |
| CrdInstall.VersionsAreNew | pkg/k8s_connector.go:109-130 | whenever what is stored changes it gets a version above all earlier ones |

## Left out

- Kafka, Sentry, HTTP serving, logging, `main.go`, `cmd/run-once` and `pkg/factory`: wiring and I/O; the sender is a log with arbitrary outcomes.
- UUID5 and SHA-1: the model stops at the hashed name.
- Time-zone data: two UTC hours that fall on one Berlin civil hour are one clock input here, as they are one token in the service.
- The date parser of `/trigger`, the generated client code, Helm and the Makefiles.
- Sharing between the operator map and the informer cache: the map is a value here. Its lists are arrays where they are rendered, so that `RenderList` shows they are not written.
- Error texts and their wrapping: errors are datatypes that keep the case and the offending name.
- `strings.ToLower` beyond ASCII: of the other letters only the two whose lower case is ASCII (U+212A, U+0130) are mapped; no further one can turn a string into a kind.
- Go strings as bytes: texts are sequences of characters, and invalid UTF-8 does not occur.
- The string rendering of a kind as a metric label: a series carries the kind itself, which in Go is that string.
- `SupportedPlaceholders`, `jsonEnumValues` and the schema builders: data copied from one list to another.
- CEL cost budgets, the vault pattern, and structural-schema validation beyond enums, counts and bounds.
- Foreign writers or deletions of the CRD, and the install timeout: a call that times out is one of the failing answers.
- The controller that consumes the commands: what is proved is about the names on the topic.
- Integer overflow of offsets and the range limits of `time.Time`: integers are unbounded.
