# Huntwell: a verified model of its core

Huntwell scrapes the web with an AI agent and keeps what it finds. Around the browser, the database and the model
providers it has a core of self-contained algorithms and small state machines. This project models them in Dafny and
proves what they promise, for every input, every interleaving and every run. `dafny verify dfyconfig.toml` checks it.

- `Calendar` — the build stamp's days-to-date conversion.
- `Metering`, `MeteringLaws`, `StreamEstimate` — token usage booked, flushed and billed exactly once, when a run must
  stop, and the live estimate.
- `Passes`, `PassLaws`, `Twins`, `Storing`, `RunLoop`, `RunLoopLaws` — one pass of a run, the learn-mode loop around
  it, and their laws.
- `Hosts`, `HostLaws`, `Guard`, `GuardLaws`, `GuardVerdicts`, `Replay` — the guard as a state machine, which call
  earns which verdict; values fed back into prompts.
- `Csv`, `ArtifactCsv`, `Base64`, `Cidr`, `Mcp`, `McpHeaders`, `Template`, `TemplateLaws`, `Mapping`, `MappingFields`,
  `Utf8`, `ConnectionUrl`, `ConnectionParts`, `UrlAssembly`, `Span` — printers, parsers and matchers, each against an
  independent reading of what it means.
- `Settings` — layered settings, and the environment a child process inherits.
- `Normalize`, `NormalizeLaws`, `Multiline`, `TitleCase`, `TitleWords`, `TitleLaws` — normal forms of scraped text.
- `Artifact`, `ArtifactFields`, `Prospects`, `Slugs`, `Columns`, `ColumnLaws` — the identities built on them, and
  typed columns.
- `Tabs` — closing the tabs an agent call leaves behind.
- `Text`, `Json` — what the others share.

Code that updates state in place is a class or a method with loops, tied by its `ensures` to a function of the old
state; the laws are lemmas about those functions, over whole runs where the source has runs. Library code whose
behaviour is not the point (Unicode composition, case mapping, number parsing, JSON printing, header decoding) is a
function parameter. Results hold for any such function, with these exceptions, each written out as a `requires`:

- `TitleLaws` asks of a case mapping that it makes no white space, that what it makes small shows as small, and that
  capitals are capitals of themselves (`TitleLaws.Lawful`); one character may become several. ASCII case is shown to
  obey; the Unicode tables are not part of this model.
- Where a law turns on composition, the condition is part of the statement, and most say what happens without it
  (`Multiline.CleanseIsIdempotent`, `Artifact.StoredKeysAreNew`, `TitleLaws.SmartTitlingIsIdempotent`).
  `Multiline.ComposesClean` says that composing scrubbed text leaves it scrubbed, `Multiline.ComposesByWords` what
  Unicode says of composition word by word.
- `Mcp.StreamRoundTrip` and `McpHeaders.AnyBlockIsRead` ask that decoding leaves ASCII alone (`Mcp.KeepsAscii`).

## Where the code and its description part

The model follows the code. These are results, each with its exact condition or a concrete input:

- Exporting and installing settings is said to give a child process the same view (cmd/src/config.rs:259-263, 413-415).
  It does for a key exactly until an install drops a value that no operator holds and the remaining layers contradict,
  or the process sets the variable back to a stale export (`Settings.EveryChildAgrees`,
  `Settings.ChildAgreesAfterInstall`): a row removed from the setting table stays in the environment, where a child
  takes it for an operator's (`Settings.DroppedRowLivesOn`). A blank value in the highest layer also shadows a lower one
  in the bare environment (`Settings.InheritedIsTheAnswer`).
- A run's token limit is also held against the live estimate, so it can stop a run that has booked nothing
  (`MeteringLaws.BudgetTripsExactlyAtTheCap` has both totals, `MeteringLaws.LiveEstimateTripsAlone` an instance).
- Locking a row's key is said to stop enrichment from changing it (cmd/src/artifact.rs:133-135), and a row kept as new
  is meant to be written as new. A key that came apart at an invisible character is composed when it is made again: the
  row changes its key (`Artifact.EnrichmentCanRename`), and if that key was known the stored row is written over
  (`Artifact.KnownRowIsWrittenOver`). It happens if and only if a written key, made again, is a known one
  (`Artifact.StoredKeysAreNew`). A value without invisible characters is safe
  (`Multiline.VisibleTextMakesAComposedKey`).
- A target bounds what a run counts, not what it writes: a pass whose store refuses a row counts nothing, though the
  rows in front of it are written (`Storing.PassCountsTheKeys`, `Storing.WrittenCanPassTheTarget`).
- Usage is charged once per call as long as each result is heard in its own call (`MeteringLaws.EveryCallIsBilledOnce`).
  One that arrives after the next call began books all of itself again (`MeteringLaws.LateResultBooksAllOfItself`,
  `MeteringLaws.LateResultIsBookedTwice`).
- An allowlist entry `::ffff:a.b.c.d/n` parses with n up to 128 but is matched on four octets: past n = 32 the slice is
  out of bounds for an IPv4 client (`Cidr.ContainsMeans` gives the exact condition, `Cidr.MappedEntryHasNoAnswer` an
  instance).
- A scope's tabs are said to include only those that appeared during the call, and one tab is said to be always left
  behind (cmd/src/browser.rs:460-482). An unanswered listing protects nothing
  (`Tabs.UnansweredListingProtectsNothing`). The last tab is closed if and only if every tab was asked for, none was
  refused and a reply was lost before the last (`Tabs.EmptiesExactly`, `Tabs.LostReplyCanCloseTheBrowser`); a trim can
  never do it, nor a reap beside an earlier tab (`Tabs.EventEmptiesExactly`).
- A title-cased name is not always left alone the second time, as scraping a row again would need
  (`TitleLaws.SmartTitlingIsIdempotent` says exactly when). Small letters can be composed where their capitals were not,
  as in AJ with a combining caron (`TitleLaws.CaronIsComposedTheSecondTime`), and capitals can be several letters of
  which a later one has a small form, as of U+1F88 (`TitleLaws.GreekCapitalIsTitledTwice`).
- A record without cells reads back as one empty cell, so an exact export of a plan without output columns does not
  round-trip (`Csv.RoundTripExactly`, `ArtifactCsv.ArtifactExportReadsBack`).
- The guard forgets a start that finds 256 other calls in flight: its completion is judged by its own start's arguments
  if and only if that start found room (`GuardLaws.CompletedIsJudgedByItsStart`, `GuardLaws.ForgottenStart`), and never
  by another call's (`GuardLaws.PendingIsItsOwn`).
- A host is meant to lose a trailing port (cmd/src/guard.rs:899-903); behind an IPv6 literal the port stays
  (`HostLaws.BracketedPortStays`).
- The bracket search knows nothing of strings or of unclosed brackets (`Span.FirstClosingBraceEnds`,
  `Span.UnclosedBracketHides`).
- Skipping the planner is said to cost nothing (cmd/src/pipeline.rs:907-909). Within one run that is so
  (`RunLoopLaws.SkippingThePlannerIsHarmless`); the seeds it would have planned are also kept for the next run, which is
  not part of this model.

## Model

| member | source | states |
|---|---|---|
| Calendar.YmdIsTheDate | cmd/build.rs:137-149 | every day count becomes a real Gregorian date, and counting that date's years, months and days from the leap rule gives the count back |
| Calendar.YmdInvertsDayNumber | cmd/build.rs:137-149 | and converting any valid date's own day number gives that date: the conversion is a bijection |
| Calendar.NextDayIsSuccessor | cmd/build.rs:137-149 | day n+1 is always the calendar successor of day n, across months, leap days, years and eras |
| Calendar.DayNumberIsInjective | cmd/build.rs:137-149 | no two valid dates share a day number, so the conversion's answer is the only right one |
| Calendar.YearOfEraBrackets | cmd/build.rs:142 | the corrected division finds the one year of the 400-year era whose days contain the given day |
| Calendar.EpochIsTheFirstDay | cmd/build.rs:138 | day 0 is 1970-01-01 |
| Metering.Meter.BeginUsageCall | cmd/src/agent.rs:526-533 | a call starts from an empty slot and an empty live estimate, and touches nothing else |
| Metering.Meter.AccumulateUsage | cmd/src/agent.rs:742-764 | a turn event adds what it reports; a result event adds only what is not booked yet; neither does anything for an all-zero report |
| Metering.Meter.NoteUsage | cmd/src/agent.rs:773-781 | a direct model's usage is booked and then flushed, the booking left to a task when the caller is on the runtime |
| MeteringLaws.FlushIsLeftOrBooked | cmd/src/pipeline.rs:169-181 | on the runtime a flushed slice is left in flight with the account unchanged; elsewhere it is booked before the caller goes on |
| Metering.Meter.TakeUsage | cmd/src/agent.rs:783-794 | draining returns the pending charge, moves it to the call total and leaves none pending |
| Metering.Meter.TakeCallTotal | cmd/src/agent.rs:798-803 | returns and clears the call total, nothing else |
| Metering.Meter.FlushUsageLive | cmd/src/pipeline.rs:169-181 | with a flusher installed, the pending charge is drained and handed over: to a task on the runtime, to be booked later, and booked before returning elsewhere; without a flusher nothing happens |
| Metering.Meter.MeterRun | cmd/src/pipeline.rs:625-647 | the closing drain: what is pending is handed over and booked, and then the whole call's total goes to the stage tally |
| Metering.Meter.BookTokens | cmd/src/pipeline.rs:651-689 | a booking that is waited for: counted and then answered; nothing for an empty charge |
| Metering.Meter.CountBooking | cmd/src/pipeline.rs:659-663 | the first half of a booking: the charge joins the run's total, which is held against the cap |
| Metering.Meter.AnswerBooking | cmd/src/pipeline.rs:664-687 | the second half, whenever it comes: a debit reaches the account, and an error or an exhausted wallet stops the run; MeteringLaws.RunStopsExactly says of every run that nothing else does |
| Metering.Meter.SettleBookings | cmd/src/pipeline.rs:595-600 | whatever order the tasks get on in, in the end none is in flight, and nothing happened but bookings being counted and answered |
| Metering.Meter.ShowLiveTokens | cmd/src/pipeline.rs:692-733 | the estimate's unbooked part is held against the wallet, and booked plus estimate against the cap |
| Metering.Meter.CheckTokenCap | cmd/src/pipeline.rs:61-67 | latches both stop flags exactly when a cap is set, reached, and was not before |
| StreamEstimate.StreamMeter.Reset | cmd/src/agent.rs:530-532 | the live estimate starts over: nothing seen and nothing shown |
| MeteringLaws.Conservation | cmd/src/agent.rs:742-828 | over every interleaving of calls, turns, results, notes, flushes, drains, bookings and estimates, each figure pending before plus newly booked is handed over, still pending, or forgotten by a new call |
| MeteringLaws.HandedOverIsBilled | cmd/src/pipeline.rs:576-689 | at every point of every run, what was handed over is counted in the billed total or still waits in flight |
| MeteringLaws.HandedOverIsDebited | cmd/src/pipeline.rs:651-689 | and it reached the account, cost included, or was refused by the store, or is in flight |
| MeteringLaws.SettledIsBilledInFull | cmd/src/pipeline.rs:409-411 | with nothing in flight before and after, the billed total grew by exactly what was handed over, and the account by that less what was refused |
| MeteringLaws.SlotBalances | cmd/src/agent.rs:443-454 | from the start of a call, at every point: booked = pending + call total + already drained to the tally |
| MeteringLaws.WholeCallIsBilledOnce | cmd/src/pipeline.rs:602-647 | one call of a metered run from any drained slot, begun or not: any steps, the closing drain, bookings landing, the close; nothing is left, the tally grows by exactly what the call booked, and so does the billed total with what waits to join it |
| MeteringLaws.SettledCallIsBilledOnce | cmd/src/pipeline.rs:595-647 | and once bookings are settled the billed total has grown by exactly what the call booked |
| MeteringLaws.BookedIsHeard | cmd/src/agent.rs:742-828 | flushes, drains, bookings and estimates between a call's events make no difference to what they book |
| MeteringLaws.EveryCallIsBilledOnce | cmd/src/pipeline.rs:602-647 | over a whole run of calls the tally, and the billed total with what waits to join it, grow by exactly what each call's own events book, heard apart from all the others |
| MeteringLaws.LateResultBooksAllOfItself | cmd/src/agent.rs:742-764 | a result heard after the next call began books all of itself, and within its call only what is new |
| MeteringLaws.LateResultIsBookedTwice | cmd/src/agent.rs:526-533 | a concrete run in which a late result has the same tokens booked twice |
| MeteringLaws.MeteredForgetsNothing | cmd/src/pipeline.rs:625-647 | on a metered run no step inside a call forgets a token |
| MeteringLaws.ResultBooksTheMaximum | cmd/src/agent.rs:742-764 | a result leaves booked at the componentwise maximum of itself and what was booked |
| MeteringLaws.RepeatedResultAddsNothing | cmd/src/agent.rs:742-764 | hearing the same or a smaller result again books nothing, whatever was flushed or drained in between |
| MeteringLaws.EveryRunFailsClosed | cmd/src/pipeline.rs:651-689 | at every step of every run, overlapping bookings included: until the stop latch is set the account holds every counted token but those awaiting their answer; a refused debit stops the run; the latches never reset |
| MeteringLaws.BudgetTripsExactlyAtTheCap | cmd/src/pipeline.rs:58-67 | a run reaches its token limit if and only if some total held against it did, counted or live |
| MeteringLaws.RunStopsExactly | cmd/src/pipeline.rs:650-730 | over every run: it must stop if and only if it already had to, a booking was refused, a debit was answered exhausted, a live estimate's unbooked part was not covered, or a total first reached the limit |
| MeteringLaws.LiveEstimateTripsAlone | cmd/src/pipeline.rs:725-727 | a concrete run stopped by its first prompt's estimate with nothing booked |
| StreamEstimate.StreamMeter.NotePrompt | cmd/src/agent.rs:548-550 | the context restarts at the prompt's length, capped |
| StreamEstimate.StreamMeter.NoteEvent | cmd/src/agent.rs:552-579 | a turn bills a quarter of the context and adds its own text; other events only add to the context |
| StreamEstimate.StreamMeter.ShouldFlush | cmd/src/agent.rs:593-608 | a figure is shown exactly when it changed and the time or the amount since the last one is enough, and then it is remembered |
| StreamEstimate.RunIsClosedForm | cmd/src/agent.rs:552-579 | after any prefix of the events the meter holds the closed form: one quarter-context for each finished turn |
| StreamEstimate.ShownIsTheBill | cmd/src/agent.rs:581-591 | the figure shown is the bill of every finished turn plus one for the context waiting to go in next |
| StreamEstimate.ShownNeverDecreases | cmd/src/agent.rs:581-591 | no event ever lowers the shown input or output |
| StreamEstimate.ShownIsAtMostQuadratic | cmd/src/agent.rs:611 | after k events the shown input is at most 50000(k+1)(k+2)/2, from the cap on one chunk |
| StreamEstimate.QuadraticIsReached | cmd/src/agent.rs:611 | and the bound is exact: full-size turns reach it for every k |
| StreamEstimate.ShownFiguresClimb | cmd/src/agent.rs:593-608 | whatever came between, a figure that is due is larger than the last one shown |
| StreamEstimate.FigureIsDue | cmd/src/agent.rs:593-608 | a figure is shown exactly when it is not nothing, not the one shown, and the first, a quarter second later, or 2000 tokens up |
| StreamEstimate.Capped | cmd/src/agent.rs:611 | one event counts for its own length, and for 200000 characters when it is longer |
| Passes.Dedupe | cmd/src/pipeline.rs:1271-1320 | every scraped row is kept, counted a duplicate or counted dropped, and the kept ones are the rows the plan's kind lets through, in order; an artifact row's filters are those of Twins |
| Twins.DedupeArtifacts | cmd/src/pipeline.rs:1271-1320 | the artifact stage with its filters: every row is kept, known, unmappable, outside a limit or twinned, and known rows are remembered for the twin search |
| Twins.KeptAreApart | cmd/src/thrift/twins.rs:42-69 | the kept rows are mappable, new and inside the limits, and no two listings remembered are twins, asked either way |
| Twins.LeftOutForAReason | cmd/src/thrift/filters.rs:18-43 | and a row left out is unmappable, known, outside a limit, or the twin of a remembered listing |
| Twins.EachRowInTurn | cmd/src/pipeline.rs:1271-1310 | each row in its turn is kept if and only if it can be mapped, is new, inside the limits and no remembered listing is its twin; and remembered if and only if it is alone and was kept or known |
| Twins.TwinsAreMutual | cmd/src/thrift/twins.rs:60-69 | two listings are twins whichever is asked about the other |
| Twins.TwinsMean | cmd/src/thrift/twins.rs:57-66 | twins are on different known sites, nearly alike, with a number in common and every common number the same |
| Twins.AlikeMeans | cmd/src/thrift/twins.rs:74-79 | nearly alike means that what is in one title alone is at most a quarter of what is in both |
| Twins.InsideMeans | cmd/src/thrift/filters.rs:18-40 | inside the limits means no number above a stated maximum or below a stated minimum of its column |
| Twins.KnownRowsAreRemembered | cmd/src/pipeline.rs:1282-1288 | a known row's listing, or a twin of it, is held against the rows that follow |
| Twins.RememberedCameBy | cmd/src/pipeline.rs:1271-1310 | and each listing held against a row came with a row that was known or kept |
| Twins.PassKeepsTheSame | cmd/src/pipeline.rs:1271-1320 | the pass keeps exactly the rows this stage does, in order |
| Passes.RunRows | cmd/src/pipeline.rs:1323-1333 | the stages after one another are the pass: dedupe, the cut, the store; PassLaws says which rows that stores and what it counts |
| Passes.StoreRows | cmd/src/pipeline.rs:1335-1391 | storing counts the rows stored and gives up the whole pass at the first refusal by the store |
| Storing.PassCountsTheKeys | cmd/src/pipeline.rs:1335-1391 | the pass counts exactly the keys written, unless the store refuses one; then it counts nothing |
| Storing.WrittenCanPassTheTarget | cmd/src/pipeline.rs:864-884 | two passes that write three rows while counting two, because the first was refused its second row |
| Passes.RunPass | cmd/src/pipeline.rs:1411-1488 | a pass over a failed scrape fails with its fault, a document counts once, rows go through the stages |
| Passes.PassIsCapped | cmd/src/pipeline.rs:1323-1333 | no pass over rows reports more than it was asked for, and none of any kind when asked for a positive number |
| Passes.KeptRowsAreNew | cmd/src/pipeline.rs:1294-1299 | every row that reaches the store was absent from the snapshot of known keys, and no file is queued twice |
| Passes.DroppedForAReason | cmd/src/pipeline.rs:1076-1139 | a row that is left out was unmappable, known, filtered, or already queued |
| PassLaws.KeptAreThoseThatQualify | cmd/src/pipeline.rs:1271-1310 | the rows kept are exactly those that are new and wanted, of files the first of each link, each where it stood and none twice |
| PassLaws.CutKeepsTheFront | cmd/src/pipeline.rs:1323-1333 | what reaches the store is the front part of the kept rows, as long as there are rows, as many were asked for and, for files, one run may fetch |
| PassLaws.StoreAllCounts | cmd/src/pipeline.rs:1335-1391 | a queue the store refuses anything of breaks the pass; any other counts as many as were stored |
| PassLaws.EveryRowCounts | cmd/src/pipeline.rs:1141-1154 | a pass over rows the store takes counts exactly as many as were kept and there was room for |
| PassLaws.RowlessPasses | cmd/src/pipeline.rs:1412-1483 | a failed scrape breaks the pass and a document counts once, for a report that was written |
| RunLoop.RunPipeline | cmd/src/pipeline.rs:750-984 | the while loop over queue, iteration, patience, target and failures ends with the log and the outcome of its recursive specification, which RunLoopLaws.EveryEntryIsARealPass reads off the log entry by entry |
| RunLoopLaws.EveryRunEnds | cmd/src/pipeline.rs:794-964 | for every behaviour of the scrapes, the store and the planner the loop ends in a state that satisfies all of the laws below at once |
| RunLoopLaws.SeedsAreTakenInOrder | cmd/src/pipeline.rs:750-800 | at most the iteration budget of seeds is taken, one unless the run learns and writes no report, in queue order: the starting queue and then planned seeds as they came |
| RunLoopLaws.RunTakesUpTheQueue | cmd/src/pipeline.rs:766-785 | a run takes up the queue an earlier one left, and the plan's own seed when there is none or it starts over |
| RunLoopLaws.PatienceIsKept | cmd/src/pipeline.rs:896-906 | no seed is taken once the allowed number of zero-yield passes in a row is reached |
| RunLoopLaws.TargetIsNeverExceeded | cmd/src/pipeline.rs:884-894 | with a target set, the new results counted never exceed it |
| RunLoopLaws.OutcomeIsHonest | cmd/src/pipeline.rs:970-983 | a returned total is the sum of the passes, a zero total is returned only when no pass failed, a failed search is reported with its number of failures, and a run is halted exactly when a pass was fatal |
| RunLoopLaws.RunsStopForAReason | cmd/src/pipeline.rs:794-983 | a run that was not cut short used up its queue, its budget, its target or its patience |
| RunLoopLaws.EveryEntryIsARealPass | cmd/src/pipeline.rs:800-951 | each log entry is a recently explored seed skipped, or a fresh seed's own pass asked for exactly what the target lacked, with the planner's seeds behind it if and only if the entry did not end the run, planner and iterations are left and fewer seeds wait than iterations; a store error comes only from a failed lookup of the next seed |
| RunLoopLaws.SkippingThePlannerIsHarmless | cmd/src/pipeline.rs:907-918 | not asking the planner while the queue covers the iterations left gives the same seeds, passes and verdict as asking every time |
| Guard.Watcher.InspectCall | cmd/src/guard.rs:370-391 | one event: recall arguments, judge, log, latch; verdict and new memory are those of the specification, and the process-wide latch follows |
| Guard.Watcher.JudgeBefore | cmd/src/guard.rs:520-535 | judging ahead of a call gives the verdict without remembering the call |
| Guard.Watcher.Record | cmd/src/guard.rs:370-391 | a verdict latches when fatal and is logged while fewer than 32 are |
| Guard.Watcher.ArgsFor | cmd/src/guard.rs:395-412 | a start's arguments are kept for its call while there is room; a completion takes its own away |
| Guard.Watcher.Judge | cmd/src/guard.rs:414-510 | the verdict on a call and the refusal count and hosts it leaves; GuardVerdicts.VerdictsAreEarned and BrowsingVerdictsAreEarned say of the call itself which it is |
| Guard.Watcher.JudgeBrowserHost | cmd/src/guard.rs:543-585 | a browser call's hosts against the restricted list and the allowlist |
| Guard.Watcher.RememberHosts | cmd/src/guard.rs:543-585 | hosts are logged while fewer than 500 are |
| GuardLaws.EveryRunIsFaithful | cmd/src/guard.rs:370-391 | over every run of events: tripped exactly when some verdict was fatal, the log is exactly the first 32 verdicts, counted refusals are fatal from the fourth on and never before |
| GuardLaws.TrippingIsForever | cmd/src/guard.rs:594-596 | once tripped after some prefix of a run, tripped after every longer one |
| GuardLaws.MemoryIsBounded | cmd/src/guard.rs:395-412 | whatever the events, at most 500 hosts, 256 pending arguments and 32 verdicts are remembered |
| GuardLaws.PendingIsWaiting | cmd/src/guard.rs:395-412 | at every point of every run and for any interleaving, the guard holds exactly what a call's own latest start said if and only if that start found fewer than 256 calls in flight or its own arguments already there |
| GuardLaws.CompletedIsJudgedByItsStart | cmd/src/guard.rs:395-412 | a completed event without arguments is judged by its own started event's, whatever came between, under the same condition and only then |
| GuardLaws.ForgottenStart | cmd/src/guard.rs:402-405 | a reachable run in which it fails: 256 calls in flight, one more start, and its completion is judged with no arguments |
| GuardLaws.PendingIsItsOwn | cmd/src/guard.rs:395-412 | even when the table overflows nothing remembered for a call id came from another call |
| GuardLaws.SilentBrowsingStaysInside | cmd/src/guard.rs:520-592 | a browser event, asked before the call or from the stream, draws no verdict if and only if every host it names is inside the policy, and a verdict names one that is not |
| GuardLaws.NamedAreInTheValues | cmd/src/guard.rs:907-943 | the hosts an event names are those in its judged arguments and result, and no others |
| GuardLaws.LoggedHostsAreAccountedFor | cmd/src/guard.rs:543-585 | over any run each logged host was named by a browser event, and one the policy has something against drew a verdict |
| GuardVerdicts.VerdictsAreEarned | cmd/src/guard.rs:414-510 | an event that is not browsing draws a verdict if and only if it is a completed call to a foreign server, a denied browser tool, a web search or a forbidden tool, and then the one it earned: fatal unless refused, never for a search, and for a refused forbidden tool from the fourth on |
| GuardVerdicts.FirstDotNames | cmd/src/guard.rs:418-419 | a name is read as a provider and a tool at its first dot and nowhere else |
| GuardVerdicts.BrowsingVerdictsAreEarned | cmd/src/guard.rs:543-585 | a browser event's verdict names the least restricted host, a refused attempt like any other, and only without one the least host off the allowlist, fatal at once |
| GuardVerdicts.RefusalsAreMarked | cmd/src/guard.rs:845-860 | a result is a refusal if and only if it carries the policy layer's field or one of its marks, in any case, anywhere in its text |
| GuardVerdicts.DumpReadsAreExact | cmd/src/guard.rs:863-882 | a read is let through if and only if the path it names, in any case and with either slash, has both of the agent's own directories in it |
| GuardVerdicts.LogTakesTheFirst | cmd/src/guard.rs:553-559 | a browser event logs the first of the hosts it names, as many as there is room for out of 500 |
| GuardVerdicts.RunTripsExactly | cmd/src/guard.rs:370-394 | over every run: it is stopped if and only if one of its events ended it, said of that event and of the refusals before it |
| GuardVerdicts.BreakingOutTrips | cmd/src/guard.rs:414-497 | one call that got through to a foreign server, a denied browser tool or a forbidden tool stops the run, wherever it came and whatever followed |
| Hosts.SortedUniqueKeeps | cmd/src/guard.rs:543-550 | sorting a call's hosts puts them in order, each once, and drops nothing but repeats |
| HostLaws.HostReadsBack | cmd/src/guard.rs:887-905 | whatever scheme, login, port and path stand around it, the host of a URL is the part between the last at-sign and the port |
| HostLaws.BracketedPortStays | cmd/src/guard.rs:899-903 | but a port behind a closing bracket is not taken off |
| HostLaws.HostsAreFound | cmd/src/guard.rs:918-943 | a host is found in a value if and only if some string in it, however deep, is a link by its field's name or by how it begins and names that host |
| HostLaws.AllowedIsOnTheList | cmd/src/guard.rs:335-352 | a host is allowed if and only if it is some line's site or under it |
| HostLaws.ListedSiteIsAllowed | cmd/src/guard.rs:341-352 | a listed site and everything under it is allowed, however its line is written: any case, white space around it, a wildcard in front |
| HostLaws.StrippingMeans | cmd/src/guard.rs:341-352 | of a line every wildcard in front goes and nothing else |
| HostLaws.LookalikeIsOutside | cmd/src/guard.rs:587-592 | a name that only ends like the site's is not under it |
| HostLaws.RestrictedMeans | cmd/src/guard.rs:82-110 | the six platforms and everything under them are restricted, and nothing else is |
| Replay.Flatten | cmd/src/guard.rs:735-755 | the one-pass loop gives the value's words, single-spaced, on one line |
| Replay.SanitizeReplayed | cmd/src/guard.rs:713-731 | the kept and the dropped values, in order |
| Replay.FlatIsIdempotent | cmd/src/guard.rs:735-755 | a flattened value holds no line break and no control character, and flattening again changes nothing |
| Replay.FlatKeepsInk | cmd/src/guard.rs:735-755 | flattening drops and moves no character that shows, and leaves no white space but plain spaces |
| Replay.SanitizingLosesNothing | cmd/src/guard.rs:713-731 | kept and dropped together are exactly the flattened non-blank values |
| Replay.SanitizedIsFit | cmd/src/guard.rs:713-731 | every kept value is flat, short enough for its kind and no instruction; every dropped one is not |
| Replay.FitMeans | cmd/src/guard.rs:694-730 | a value is fit if and only if it holds no marker and has at most 120 characters, or 2048 as a link without spaces |
| Replay.MarkedIsNotReplayed | cmd/src/guard.rs:832-835 | a value with a marker in it is never replayed, whatever stands around it and whatever its case |
| Replay.SanitizingIsStable | cmd/src/guard.rs:713-731 | what was kept once is kept whole for ever after |
| Csv.WriteCell | cmd/src/csv.rs:128-143 | one defused cell, quoted exactly when it holds a comma, quote or line end |
| Csv.WriteRow | cmd/src/csv.rs:128-143 | appends one record: the defused cells separated by commas and a line feed |
| Csv.ProspectsCsv | cmd/src/csv.rs:46-78 | the header and one record for each row |
| Csv.CsvRoundTrip | cmd/src/csv.rs:128-143 | for any table of non-empty rows, quotes, commas, CR and LF included, an independent RFC 4180 reader recovers the defused table exactly |
| Csv.RoundTripExactly | cmd/src/csv.rs:128-143 | a table comes back whole if and only if no row is empty; an empty row reads back as a single empty cell |
| Csv.ProspectExportReadsBack | cmd/src/csv.rs:16-78 | a prospect export reads back as the fixed header and one record of its width for each row |
| Csv.FactsStandUnderTheirHeadings | cmd/src/csv.rs:20-78 | each fact of a prospect stands under its own heading, by name |
| Csv.DefusedCellsAreSafe | cmd/src/csv.rs:109-126 | defusing changes exactly the cells that open a formula, afterwards none does, and defusing again changes nothing |
| Csv.NoRecoveredCellOpensAFormula | cmd/src/csv.rs:109-143 | no cell recovered from an export opens a formula |
| ArtifactCsv.ArtifactsCsv | cmd/src/csv.rs:150-169 | headings and projected fields of the output columns, with provenance columns unless exact |
| ArtifactCsv.ArtifactExportReadsBack | cmd/src/csv.rs:150-169 | every record is as wide as the header, and the export reads back whole if and only if it has a column |
| ArtifactCsv.ValuesStandUnderTheirHeadings | cmd/src/csv.rs:148-190 | below each caption stands what the artifact says of that column's key, and the link, the key and the date follow under theirs |
| ArtifactCsv.TypedColumnsExport | cmd/src/csv.rs:145-169 | columns a person typed always export to a readable table headed by exactly the names they typed |
| Base64.B64 | cmd/src/cognito.rs:301-313 | three octets at a time from a 24-bit word gives the standard encoding |
| Base64.Quad | cmd/src/cognito.rs:301-313 | the four characters of one word are its four sextets, with pads for a short group |
| Base64.B64UrlDecode | cmd/src/cognito.rs:493-515 | the loop over the never-masked 32-bit accumulator returns the octets the string spells, or nothing |
| Base64.UnmaskedShift | cmd/src/cognito.rs:493-515 | high bits that fall off the 32-bit word leave its low bits equal to the new sextet |
| Base64.OctetsStep | cmd/src/cognito.rs:493-515 | one character into the accumulator emits exactly the octet that its sextet completes |
| Base64.Base64RoundTrip | cmd/src/cognito.rs:493-515 | decoding an encoding gives back every octet sequence |
| Base64.UrlFormSpellsTheSame | cmd/src/cognito.rs:493-515 | dropping pads and changing alphabet never changes what a string decodes to, valid or not |
| Base64.Base64UrlRoundTrip | cmd/src/cognito.rs:486-515 | so the unpadded URL form of an encoding decodes to the same octets |
| Base64.DecodeRefusesExactly | cmd/src/cognito.rs:493-515 | decoding fails if and only if the string holds a character of neither alphabet that is not a pad |
| Base64.CharIsStandard | cmd/src/cognito.rs:301-302 | the characters are the standard alphabet in its order |
| Base64.ValueIsStandard | cmd/src/cognito.rs:493-510 | and each is read as what it stands for, the two of the URL alphabet as the two they replace, and nothing else |
| Cidr.PrefixEqIsDivision | cmd/src/cidr.rs:90-101 | for addresses of any width the byte-and-mask comparison holds if and only if the two big-endian numbers agree after division by 2^(width-bits) |
| Cidr.MaskClearsLowBits | cmd/src/cidr.rs:99-100 | the 8-bit shift and mask take off exactly the low bits, for every octet and every leftover |
| Cidr.ShorterPrefixIsWider | cmd/src/cidr.rs:90-101 | shortening a prefix only adds addresses |
| Cidr.BlocksAreNestedOrDisjoint | cmd/src/cidr.rs:90-101 | two blocks that share an address are nested |
| Cidr.ContainsMeans | cmd/src/cidr.rs:37-87 | what each entry covers, for every entry that parses and every client, with the exact condition under which the slice is out of bounds |
| Cidr.ParseEntry | cmd/src/cidr.rs:38-74 | an entry is refused exactly when its length passes its address, and what parses has a length its address can carry |
| Cidr.ParsedIsWritten | cmd/src/cidr.rs:38-74 | and every such entry is one that can be written |
| Cidr.BareAddressMatchesItself | cmd/src/cidr.rs:37-87 | a bare address matches itself in either spelling and nothing else |
| Cidr.MappedIsTheSameHost | cmd/src/cidr.rs:20-28 | an IPv4 host in its mapped spelling gets the same answer from every list, and an entry written so covers what it would as an IPv4 one |
| Cidr.OthersAreThemselves | cmd/src/cidr.rs:20-28 | any other address is its own form |
| Cidr.AllowsMeans | cmd/src/cidr.rs:105-116 | for every list that parses: yes exactly when it is empty or an entry covers the client before one overruns, out of bounds exactly when one overruns first |
| Cidr.OwnFamilyAlwaysAnswers | cmd/src/cidr.rs:105-116 | a list without mapped entries always answers, and says yes exactly when it is empty or some entry covers the client |
| Cidr.MappedEntryHasNoAnswer | cmd/src/cidr.rs:76-87 | an IPv4-mapped entry with a prefix longer than 32 goes out of bounds for an IPv4 client |
| Mcp.Reader.ReadFrame | cmd/src/mcp.rs:423-465 | reads one frame, end of input or an error off the stream, in either dialect; a length no buffer can have stops the process |
| Mcp.ReadTakesWhatItReturns | cmd/src/mcp.rs:423-465 | on any stream, a frame that is read is exactly what was taken off it |
| Mcp.ReadMessage | cmd/src/mcp.rs:407-465 | a written message reads back as its own frame whatever follows it |
| Mcp.StreamRoundTrip | cmd/src/mcp.rs:407-465 | any mix of the two dialects reads back as exactly the frames sent, in order, and then the end of input, for any header decoding that leaves ASCII alone |
| Mcp.FrameComesApart | cmd/src/mcp.rs:391-405 | a frame gives back its dialect and its body |
| McpHeaders.AnyBlockIsRead | cmd/src/mcp.rs:437-465 | whatever headers stand in front, in any case and with either line end, a frame is its block and as much behind it as the first length says; a block past 64 KiB, a length past any buffer and a missing body each have their own error |
| McpHeaders.LineSays | cmd/src/mcp.rs:452-458 | a header line is read at its first colon, its name in any case and its value trimmed |
| McpHeaders.LengthsRead | cmd/src/mcp.rs:456 | a length is an optional plus and digits that a word holds |
| Normalize.Scrub | cmd/src/normalize.rs:103-156 | the one-pass loop equals: compose, drop the invisible, fold punctuation, split into words, join with single spaces |
| Normalize.ScrubIsIdempotent | cmd/src/normalize.rs:103-156 | scrubbed text is plain and scrubbing it again changes nothing, in both modes |
| Normalize.ScrubbedIsTrimmed | cmd/src/normalize.rs:150-156 | scrubbed text has no white space at either end |
| Normalize.FoldingKeepsWords | cmd/src/normalize.rs:125-149 | folding punctuation never moves a word boundary |
| Normalize.CleanseAfterKey | cmd/src/normalize.rs:68-80 | cleansing a cleansed key is cleansing the original |
| NormalizeLaws.InvisibleIsNothing | cmd/src/normalize.rs:120-131 | a character that renders as nothing is as if it were not there, wherever it stands |
| NormalizeLaws.PunctuationIsAscii | cmd/src/normalize.rs:137-150 | typographic punctuation is as if it were spelled in ASCII, wherever it is folded |
| NormalizeLaws.WhitespaceIsOneSpace | cmd/src/normalize.rs:107-118 | any run of white space is as if it were one space |
| NormalizeLaws.OrdinaryTextStays | cmd/src/normalize.rs:250-262 | and text of other characters, accented letters among them, in single-spaced words is left as it is |
| Multiline.CleanseMultiline | cmd/src/normalize.rs:85-101 | each line composed and scrubbed, blank runs collapsed, as a function of the lines |
| Multiline.CleansedLinesAreTidy | cmd/src/normalize.rs:82-101 | the result has no leading, trailing or doubled blank line, every line is scrubbed, and splitting it gives the kept lines back |
| Multiline.CleanseMultilineIsIdempotent | cmd/src/normalize.rs:82-101 | cleansing again changes nothing when every kept line is composed, and, where composing leaves lines scrubbed, only then |
| Multiline.CleanseIsIdempotent | cmd/src/normalize.rs:68-80 | with composition in front, in both modes: cleansing again changes nothing when the first result is composed, and, where composing leaves it scrubbed, only then |
| Multiline.CleanseOfKey | cmd/src/normalize.rs:68-80 | cleansing a key is cleansing the value it was made from if and only if composing the key changes nothing but punctuation that is folded anyway |
| Multiline.VisibleTextMakesAComposedKey | cmd/src/normalize.rs:71-108 | a value without invisible characters makes a key that composing leaves alone, by three laws of Unicode composition |
| Multiline.CleanseKeyCanMove | cmd/src/normalize.rs:103-108 | a letter, a zero-width space and a combining accent: the key is another the second time, and the two cleansed forms differ |
| TitleCase.TitleCaseWords | cmd/src/normalize.rs:189-233 | the loop that gathers a word and flushes it equals casing the text word by word |
| TitleCase.FlushWord | cmd/src/normalize.rs:194-218 | a finished word in capitals, small, or capitalized letter by letter with the apostrophe rule |
| TitleCase.SmartTitleCase | cmd/src/normalize.rs:158-172 | cleansed text with a lowercase letter is left as it is, any other is titled |
| TitleCase.TitlingChangesOnlyCase | cmd/src/normalize.rs:189-233 | titling never adds, drops or moves a character: each comes out in one of its two cases, or as it is outside words, for any case mapping and any word lists |
| TitleWords.WordsAreCased | cmd/src/normalize.rs:196-224 | a word on the list stays in capitals, a particle behind the first word is small, and any other has a capital first and behind each later apostrophe |
| TitleWords.TextIsCased | cmd/src/normalize.rs:190-235 | a text is titled word by word, only the first counting as first, and nothing between the words is touched |
| TitleLaws.CaseKeepsCleansed | cmd/src/normalize.rs:158-172 | a change of case leaves cleansed text scrubbed, and cleansed when composing leaves it alone, and, where composing leaves it scrubbed, only then |
| TitleLaws.TitledShowsExactly | cmd/src/normalize.rs:189-233 | a small letter is in the titled text if and only if some character of the text comes out small |
| TitleLaws.TitledAgain | cmd/src/normalize.rs:189-233 | titling capitals again changes nothing, unless a capitalized character became several of which a later one has a small form |
| TitleLaws.SmartTitlingIsIdempotent | cmd/src/normalize.rs:158-172 | when a name title-cased once is left alone the second time, exactly: composed as it came out, if and only if the cleansed name settles; not composed, only if composing shows no small letter and titling takes it back |
| TitleLaws.CaronIsComposedTheSecondTime | cmd/src/normalize.rs:163-172 | AJ with a combining caron: another name the second time |
| TitleLaws.GreekCapitalIsTitledTwice | cmd/src/normalize.rs:163-172 | a Greek letter that is titled differently the second time |
| TitleLaws.AsciiIsLawful | cmd/src/normalize.rs:189-233 | ASCII case obeys the laws asked of a case mapping |
| Template.RenderTemplate | cmd/src/prospect.rs:242-254 | one pass over the matches renders the template's literals and placeholders |
| Template.TokensConcatenateBack | cmd/src/prospect.rs:242-254 | literals and placeholders, in order, are the template itself |
| Template.FoundIsAPlaceholder | cmd/src/prospect.rs:233-236 | whatever is found as a placeholder is written as one |
| Template.PlaceholderIsFound | cmd/src/prospect.rs:233-236 | and every placeholder written out is found with its name, whatever follows it |
| Template.ValuesAreVerbatim | cmd/src/prospect.rs:242-254 | a substituted value goes in as it is, even when it is itself a template |
| TemplateLaws.RenderedIsTheMeaning | cmd/src/prospect.rs:242-254 | however a template is written, it renders to its text with every placeholder's value in its place |
| TemplateLaws.NamesMean | cmd/src/prospect.rs:233-240 | a field's name is letters, digits and underscores, at least one |
| TemplateLaws.ValuesShowAsTheyAre | cmd/src/prospect.rs:256-268 | missing and null show nothing; text, numbers and truth values show as they are |
| Template.RenderingDependsOnFields | cmd/src/prospect.rs:187-254 | contexts that agree on the fields a template names render it alike |
| Template.EveryFieldMatters | cmd/src/prospect.rs:187-254 | and on no fewer: every named field can change the text |
| Mapping.MappingDependsOnReferencedFields | cmd/src/prospect.rs:75-148 | the projected row depends on its context only through the referenced fields; MappingFields says which field through which template |
| Mapping.ReferencedFieldsMatter | cmd/src/prospect.rs:141-148 | and no referenced field is without effect on some template |
| Mapping.ContractDividesTheFields | cmd/src/prospect.rs:152-210 | required, optional and pipeline-supplied names divide the referenced fields without overlap, and required is exactly what the key needs from the row |
| MappingFields.ContractAsksForTheRest | cmd/src/prospect.rs:152-200 | a row is asked for the names the templates refer to, but for the seed's and those the pipeline sets itself, and those of the key are required |
| Mapping.ContractIsEnough | cmd/src/prospect.rs:194-227 | two contexts that agree on the contract's names and the supplied values map alike whatever else they hold |
| MappingFields.EachFieldIsItsOwn | cmd/src/prospect.rs:75-118 | a row maps if and only if its key says something; then each field is what its own template says, treated in that field's way, and the worth is read as money when something is said of it |
| MappingFields.OneTemplateOneField | cmd/src/prospect.rs:94-108 | mappings that differ in one field's template alone map a row to prospects that differ in that field alone |
| MappingFields.OnlyTheWorthDiffers | cmd/src/prospect.rs:110-118 | and so with the template of the worth |
| MappingFields.PlaceholderFillsItsField | cmd/src/prospect.rs:94-108 | a field whose template is one placeholder takes that value of the row, trimmed and treated |
| MappingFields.PlaceholderGivesTheWorth | cmd/src/prospect.rs:110-118 | a worth so given is the value read as money, and nothing when it is blank |
| MappingFields.PlaceholderKeyDecides | cmd/src/prospect.rs:89-92 | a key so given decides by that value alone whether the row is mapped |
| Settings.Settings.Get | cmd/src/config.rs:230-257 | the answer is the operator's value when it says something, and otherwise the first of database, remote and file that does |
| Settings.Settings.Export | cmd/src/config.rs:208-213 | writes the environment and remembers the value as this process's own |
| Settings.Settings.ExportLayer | cmd/src/config.rs:268-274 | walking a hash map in any order lays the layer over every key not held by an operator |
| Settings.Settings.InstallDbSettings | cmd/src/config.rs:264-277 | exports the non-blank rows, trimmed, and replaces the database layer by them |
| Settings.LastRowDecides | cmd/src/config.rs:264-285 | of the rows for a key the last one that is not blank decides, trimmed |
| Settings.KeptIsDecided | cmd/src/config.rs:264-285 | and a key is kept if and only if some row decides it |
| Settings.Settings.ExportToEnv | cmd/src/config.rs:412-430 | lays file, then remote, then database over the environment |
| Settings.ExportKeepsEveryLookup | cmd/src/config.rs:412-430 | exporting changes the answer for no key, blank values included |
| Settings.InstallReplacesTheLayer | cmd/src/config.rs:264-277 | installing rows answers as if only the database layer had been replaced |
| Settings.InheritedIsTheAnswer | cmd/src/config.rs:409-430 | after exporting, a key's inherited value equals the lookup if and only if the deciding value (the operator's, or the highest layer's) is not blank, or nothing defines the key |
| Settings.ChildAgreesUnlessStale | cmd/src/config.rs:409-430 | a child of a process that has just exported answers as its parent for a key if and only if the key is not a stale export |
| Settings.ChildAgreesUnlessMisled | cmd/src/config.rs:230-257 | for any process at any time, a child agrees on a key if and only if the environment does not mislead it: a non-blank value, not an operator's, that is not what the layers say |
| Settings.ChildAgreesAfterInstall | cmd/src/config.rs:259-277 | after an install, exported or not, a child agrees on a key if and only if the install did not drop a value the remaining layers contradict |
| Settings.EveryChildAgrees | cmd/src/config.rs:259-277 | over any run, at every point a child agrees on a key, if and only if no install dropped it so and no step set it back to a stale export |
| Settings.HeldKeyNeverMisleads | cmd/src/config.rs:259-263 | dropping a row behind an operator's value is harmless |
| Settings.OperatorsValueIsSafe | cmd/src/config.rs:259-263 | over every run of installs, exports and run-time settings of other keys, an operator's value stays and wins |
| Settings.DroppedRowLivesOn | cmd/src/config.rs:259-277 | without that they part: a removed row stays in the environment and only the child believes it, with or without a later export |
| Artifact.KeyFieldIsAColumn | cmd/src/artifact.rs:102-119 | a plan whose columns are named has a key column |
| ArtifactFields.SpecialColumns | cmd/src/artifact.rs:92-112 | the key, the title and the link are each the first column that grants the first wish any column grants, by role, then by type, then any |
| ArtifactFields.EachColumnIsItsOwn | cmd/src/artifact.rs:140-178 | a row maps if and only if its key column says something; then key, title and link are what their own columns say, cleansed, beside the columns' values and the row itself |
| ArtifactFields.ColumnTakesItsText | cmd/src/artifact.rs:140-157 | each column stores what the row says of it in its own type, and there are no values but the columns' |
| Artifact.EnrichAndStore | cmd/src/pipeline.rs:1346-1391 | the in-place loop over the queue: each row locked to its scraped key, mapped again and written, until the store refuses one; the rows behind it are untouched |
| Artifact.LockedKeyIsCleansedAgain | cmd/src/artifact.rs:136-176 | whatever enrichment wrote, a locked row's key is its scraped key cleansed once more |
| Artifact.EnrichmentCannotRename | cmd/src/artifact.rs:133-176 | the stored key is the scraped one whenever composing leaves that alone, and, where composing leaves it scrubbed, only then |
| Artifact.EnrichmentCanRename | cmd/src/artifact.rs:133-176 | a concrete key that locking does not protect |
| Artifact.AgainExactly | cmd/src/artifact.rs:133-176 | a scraped key is made again when composing leaves it alone, and, where composing leaves it scrubbed, only then |
| Artifact.EnrichmentKeepsTheKeys | cmd/src/pipeline.rs:1346-1377 | after the whole stage the queue's keys are the scraped keys, in order, if and only if each of them is made again; composed keys are |
| Artifact.StoredKeysAreScraped | cmd/src/pipeline.rs:1346-1391 | what the stage writes, for every queue: a front part of the keys made again, in order, all unless the store refuses one; they are the scraped keys if and only if each one written is made again |
| Artifact.StoredKeysAreNew | cmd/src/pipeline.rs:1294-1391 | nothing the stage writes was in the known-keys snapshot if and only if no key of the part written, made again, is in it; so it is whenever the scraped keys are made again as they were |
| Artifact.KnownRowIsWrittenOver | cmd/src/pipeline.rs:1294-1391 | a run in which a row kept as new is written over a known one |
| Artifact.LockingTouchesOnlyTheKey | cmd/src/artifact.rs:136-176 | locking changes no other column's value |
| ArtifactFields.LockedRowSays | cmd/src/artifact.rs:133-138 | a locked row says its original key under the key column and what it said under every other name |
| Artifact.KeyAndColumnAgree | cmd/src/artifact.rs:145-176 | a key and the column it came from cleanse to one display form if and only if composing the key changes nothing but punctuation that is folded anyway |
| Prospects.EnrichAndStore | cmd/src/pipeline.rs:1168-1227 | the in-place loop over the queue: each row mapped again over the seed's values, its scraped key put back, and written if it has a name, until the store refuses one |
| Prospects.EnrichedTakesTheRow | cmd/src/pipeline.rs:1179-1185 | an enriched item is what its row maps to now, over the seed's values, but for its key; a row that no longer maps leaves it as it was |
| Prospects.StoredKeysAreScraped | cmd/src/pipeline.rs:1168-1227 | whatever enrichment writes, the keys stored are scrape-time keys of queued rows that end with a name, and all of those unless the store refuses one |
| Prospects.StoredKeysAreNew | cmd/src/pipeline.rs:1106-1227 | so no key that was known when the pass began is written |
| Storing.StoredAreNamed | cmd/src/pipeline.rs:1196-1219 | what is written is a front part of the named rows' keys, in order, and all of them if and only if no named row is refused |
| Storing.RefusedAtTheFirst | cmd/src/pipeline.rs:1335-1391 | a refused stage has seen the rows up to the first named one the store refused, and wrote the keys of the named ones in front of it |
| Slugs.Slug | cmd/src/artifact.rs:336-355 | the one-pass loop equals the name's runs of letters and digits, lower-cased, joined by underscores, opened with a letter |
| Slugs.SlugIsAKey | cmd/src/artifact.rs:336-355 | a key is a letter followed by letters, digits and underscores, and is empty if and only if the name has no letter or digit |
| Slugs.TrimKeepsRuns | cmd/src/artifact.rs:339 | trimming a name first makes no difference to its key |
| Slugs.KeyedUrlIsAUrl | cmd/src/artifact.rs:362-378 | a name keyed url is guessed to be a link |
| Columns.ColumnsToSchema | cmd/src/artifact.rs:393-431 | the loops that collect, append the link and hand out roles in place give the specified schema |
| Columns.SpecsAreDistinct | cmd/src/artifact.rs:393-402 | the columns' keys are distinct, each comes from a usable name, and every usable name has its column |
| Columns.FirstColumnWins | cmd/src/artifact.rs:395-402 | of names with one key the first is the column |
| Columns.SchemaIsRunnable | cmd/src/artifact.rs:380-431 | the schema is empty if and only if no name is usable; otherwise keys are distinct and well formed, exactly one column is the link and it is the mapping's key and link, at most one is the title |
| Columns.LinkIsTheKey | cmd/src/artifact.rs:102-119 | the mapping over a schema with one link takes identity and link from that column |
| ColumnLaws.ColumnsAreRequests | cmd/src/artifact.rs:393-405 | each column is one request's, the first whose name comes out as its key: its caption, its note of at most 2000 characters, its guessed type |
| ColumnLaws.GuessMeans | cmd/src/artifact.rs:362-380 | the guessed type by the words the name mentions, a link before money before a date before a number before long text |
| ColumnLaws.LinkAndTitle | cmd/src/artifact.rs:406-430 | the link is the first column that holds links, appended and hidden if none was typed; the title is the first column of words but the link; no other has a role |
| Columns.TypedColumnsAreTheOutput | cmd/src/artifact.rs:380-391 | the output columns are exactly the typed ones, in order; an appended link is always hidden and a typed one never |
| ColumnLaws.OutputIsTheRest | cmd/src/artifact.rs:53-58 | a plan puts out every column that is neither marked internal nor the link as it was appended before columns were marked |
| Utf8.OctetsReadBack | cmd/src/aws.rs:370-373 | text survives the trip through its octets |
| ConnectionUrl.PercentEncode | cmd/src/aws.rs:370-381 | the loop escapes every octet outside the unreserved set |
| ConnectionUrl.PercentRoundTrip | cmd/src/aws.rs:369-381 | percent-decoding gives back any text, and no delimiter stands in the encoding |
| ConnectionUrl.PercentEncodingIsInjective | cmd/src/aws.rs:369-381 | two texts with one encoding are the same |
| ConnectionUrl.EscapesOnlyOthers | cmd/src/aws.rs:370-382 | an octet is escaped if and only if it is not unreserved |
| ConnectionUrl.PlainTextIsKept | cmd/src/aws.rs:370-382 | and unreserved text is left as it is |
| ConnectionUrl.FirstSetDecides | cmd/src/aws.rs:323-340 | a field is the first non-blank of its names, trimmed, and absent if and only if all are blank |
| ConnectionUrl.Compose | cmd/src/aws.rs:342-367 | the URL of the looked-up parts, or none without a host |
| ConnectionUrl.UrlRoundTrip | cmd/src/aws.rs:355-367 | splitting at the first @ and the first colon and decoding recovers user and password exactly, tells no password from an empty one, and leaves the address untouched |
| ConnectionUrl.UrlIsInjective | cmd/src/aws.rs:355-367 | equal URLs mean equal logins and addresses |
| ConnectionParts.EachPartIsItsOwn | cmd/src/aws.rs:323-366 | each part is the first of its own names that says something, with the defaults of port, user and database; there are parts if and only if a host is set |
| ConnectionParts.PoolFallsBack | cmd/src/aws.rs:289-294 | what the pool does not say of itself it takes from the main database, part by part |
| ConnectionParts.AddressReadsBack | cmd/src/aws.rs:357-366 | the address gives back host, port, database and mode, unless one holds the character that ends it |
| UrlAssembly.AssembleUrls | cmd/src/aws.rs:303-319 | appends the composed URLs that are wanted |
| UrlAssembly.AssemblingOnlyFillsIn | cmd/src/aws.rs:296-319 | each URL gets its explicit value or else its composed one, and no other setting changes |
| UrlAssembly.ExplicitUrlStays | cmd/src/aws.rs:300-302 | an explicit non-blank URL is never replaced |
| UrlAssembly.PoolHostIsItsOwn | cmd/src/aws.rs:312-318 | a pool URL is composed only for a named pool host and points at it |
| ConnectionParts.UrlsAreThere | cmd/src/aws.rs:303-320 | the main URL is composed when it is missing and a host is set, the pool's when it is missing and its own host is set, and neither otherwise |
| UrlAssembly.AssemblingIsIdempotent | cmd/src/aws.rs:303-319 | assembling a second time changes nothing |
| Tabs.Browser.CloseTarget | cmd/src/browser.rs:441-443 | closes one tab unless refused; the reply may be lost |
| Tabs.TabScope.constructor | cmd/src/browser.rs:472-474 | records the tabs there are, or none when the listing does not answer |
| Tabs.TabScope.Mine | cmd/src/browser.rs:477-479 | exactly the tabs that are there and were not recorded, in the listing's order |
| Tabs.TabScope.Close | cmd/src/browser.rs:505-521 | asks for each tab in turn while more than one is thought to remain |
| Tabs.TabScope.Reap | cmd/src/browser.rs:483-485 | closes the call's tabs |
| Tabs.TabScope.Trim | cmd/src/browser.rs:494-503 | closes the call's tabs past the newest max |
| Tabs.OthersAreLeftAlone | cmd/src/browser.rs:505-521 | whatever the replies, no tab but those asked for is touched and the rest keep their order |
| Tabs.CountIsRight | cmd/src/browser.rs:505-521 | the number reported is never too high, and right while every reply arrives |
| Tabs.EmptiesExactly | cmd/src/browser.rs:505-521 | the last tab is closed if and only if every tab was asked for, none was refused, and a reply was lost before the last |
| Tabs.UnaskedTabIsLeft | cmd/src/browser.rs:505-521 | a tab that is not asked for is left, whatever the replies |
| Tabs.LostReplyCanCloseTheBrowser | cmd/src/browser.rs:505-521 | one lost reply is enough to close the last tab |
| Tabs.ClosesInOrder | cmd/src/browser.rs:505-521 | when closes succeed, exactly the first min(asked, total-1) tabs asked for are closed |
| Tabs.TrimKeepsTheNewest | cmd/src/browser.rs:487-503 | a trim leaves exactly the newest min(max, mine) of the call's tabs and a second one closes none |
| Tabs.ReapClosesAllButOne | cmd/src/browser.rs:481-485 | a reap closes min(mine, total-1) tabs, sparing the call's oldest only when nothing else would be left |
| Tabs.EventEmptiesExactly | cmd/src/browser.rs:481-503 | a trim never closes the last tab; a reap does exactly when no earlier tab is left and its replies are as above |
| Tabs.CallLeavesTheRestAlone | cmd/src/browser.rs:454-521 | over any call of opens, trims and reaps, replies lost and closes refused included, the earlier tabs are all still there, in order |
| Tabs.CallKeepsOneTab | cmd/src/browser.rs:481-521 | and the browser keeps a tab if there was an earlier one, or no reap loses a reply while closing all it asks for |
| Tabs.UnansweredListingProtectsNothing | cmd/src/browser.rs:472-474 | a scope protects what it recorded; after an unanswered listing a reap closes all but one of the tabs that were there before |
| Span.FindSpan | cmd/src/agent.rs:1337-1359 | the depth-counting loop finds the first top-level bracket group, or reports that there is none |
| Span.BalancedSpan | cmd/src/agent.rs:1337-1359 | square brackets first, braces only when they give nothing |
| Span.SpanIsUnique | cmd/src/agent.rs:1337-1359 | that description has one answer for every text, and it is balanced and closed by its last character only |
| Span.ReplyAfterProse | cmd/src/agent.rs:1325-1335 | an array after prose without brackets comes back exactly, whatever follows |
| Span.UnclosedBracketHides | cmd/src/agent.rs:1337-1359 | an unclosed bracket hides every group behind it |
| Span.FirstClosingBraceEnds | cmd/src/agent.rs:1337-1359 | the first closing brace ends a flat object, even one inside a quoted value |

## Left out

- Integer widths: token counts, costs, day counts and counters are unbounded integers; only Base64's 32-bit word, the
  mask's 8-bit octet and the length header's 64-bit limit are modelled as widths.
- Interleavings inside a locked method: each one is a single step; a run is any sequence of such steps.
- Unicode composition and case tables, `f64` parsing, JSON encoding and decoding, and the alphabetic property: function
  parameters, or values already decoded.
- Digits of a formatted date, CSV time stamps and JSON text of an artifact's fields: formatting only.
- Base64.UnmaskedShift: the 32-bit shifts and ors are written as the arithmetic they do, the word's wrap-around
  included.
- Passes.Dedupe: a prospect's minimum value is one flag of a row.
- Twins.DedupeArtifacts: reading a value as a number and a title as three-letter runs; the listing holds the outcome,
  and numbers are real.
- Passes.StoreRows: a store that refuses a row ends the pass; what the database then holds is not modelled.
- RunLoopLaws.SkippingThePlannerIsHarmless: one run; planned seeds that are persisted for a later one are left out.
- Metering.Meter.BookTokens: a debit that fails is taken not to have happened, and a task is never cancelled.
- Multiline.CleanseMultilineIsIdempotent: where composing scrubbed text could leave it unscrubbed, only one direction.
- TitleCase.SmartTitleCase: words small by the list are cased letter by letter, without the library's rule for a final
  sigma, which no listed word has.
- Mcp.Reader.ReadFrame: a buffer that is allowed but cannot be had for want of memory.
- Settings.Settings.Export: names and values the operating system refuses, and environment values that are not Unicode.
- Tabs.TabScope.Close: listings after the first are taken to answer; one that does not makes the source close nothing.
- ConnectionUrl.Compose: host, port and database go into the URL as they are given, as in the source, so only the login
  is promised to read back; the address is shown to be left as it was, and to read back where no part holds the
  character that ends it (`ConnectionParts.AddressReadsBack`).
- The database, its SQL, leases and claims; HTTP, processes, Chrome, Cognito, S3 and mail: only the values that cross
  those edges appear.
- Cryptography, prompt text, page HTML, log lines, prices: no law of their own.
