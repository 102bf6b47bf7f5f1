# A verified model of xoslog

xoslog is an asynchronous logging library. Callers put records into a bounded queue behind a mutex; one
writer thread takes them out and hands each to every configured sink. This project models the parts of
it that are more than plumbing, in Dafny, and proves what they promise:

- **The logger protocol** (`Protocol`, `Conservation`, `CallOrder`, `CallRecords`, `Acknowledgements`, `Progress`,
  `Returning`, `ShutdownLoss`, `FlushPromise`, `Schedules`, `ProtocolWitnesses`, `SinkOrder`). Any number of caller threads and
  the writer thread form a transition system with one action per atomic step: check the closed flag, filter,
  stamp, lock, send or drop or write in an emergency, unlock; receive, handle, answer, leave, disconnect. A run
  is any sequence of possible actions, so every theorem about runs is about every interleaving. Sink failures, and panics while a
  message is handled, are inputs of the writer's steps.
- **The fan-out** (`Fanout`, `Writers`, `Fallbacks`, `WriterRuns`). Every sink has a failure automaton that gives up after eight
  failures in a row. `Fanout` is the reference on values, `Writers` the loops that update the slots in place.
  `Fallbacks` says what every sink holds and what goes to standard error from the outcomes alone, and
  `WriterRuns` shows that this writer is the one of the protocol's runs.
- **The rotating file sink** (`Slots`, `RotationSpec`, `RotationHistory`, `RotationCauses`, `FileSinks`). `FileSinks` has the
  sink and the directory as objects; `RotationSpec` says what each operation does; `RotationHistory` is a
  reference without directory or renames, a list of generations, that the directory is proved to show; `RotationCauses` says when and why a file is rotated.
- **The calendar** (`Calendar`, `Timestamps`, `Rfc3339`), against the Gregorian day-after rule, and the text of
  timestamps, against a reader written from the grammar of RFC 3339.
- **Filters** (`Filters`, `FilterGrammar`, `Thresholds`), the **JSON lines** (`Json`, `JsonGrammar`, `JsonRoundTrip`), the **context**
  (`Context`, `Entries`) and the **syslog datagrams** (`Utf8`, `Syslog`): each the code's own loops, and a
  reference meaning that shares nothing with them. `JsonGrammar` is a parser for all of RFC 8259, nested
  values and surrogate pairs included, written from the grammar.

`Basics`, `Text`, `Strings` and `Levels` hold shared vocabulary. `dafny verify dfyconfig.toml` checks everything.

## Where the code and its documentation differ

The model follows the code. Each difference has a theorem that says what holds instead.

- "Nothing is ever lost" under `Block` (README.md:143-144, src/logger.rs:29-30): a `log` call that is past the
  closed check can queue its record behind a shutdown, and the record goes down with the receiver
  (`ProtocolWitnesses.BlockCanLose`). This can happen if and only if, at the moment the shutdown closes the
  logger, some `log` call stands between the closed check and the sender's mutex with a record that passes the
  filter (`ShutdownLoss.ShutdownLosesNothingIff`); a program whose `log` calls have returned before it shuts the
  logger down loses nothing. The records that can be lost are exactly those of these calls, one for each
  thread at most (`ShutdownLoss.LostIffHeld`, `ShutdownLoss.OnePerCaller`), and lost is exactly what was
  queued behind the shutdown (`Acknowledgements.ShutdownDrains`, `Acknowledgements.LastHandleDrains`).
- "Callers never block" under `DropNewest` (src/logger.rs:31-33): they can wait for the mutex while a flush
  waits for room (`ProtocolWitnesses.DropNewestCanWait`; `Progress.LogWaitsExactly` says what its holder can wait
  for).
- `shutdown` joins the writer (src/logger.rs:198-214): if a sink's flush panics while a shutdown is handled, the
  writer goes on, and the join ends only when another shutdown stops it. Where no step is possible any more, all
  calls have returned if and only if no shutdown panicked or another one stopped the writer
  (`Returning.StuckIff`; `ProtocolWitnesses.PanickingShutdownHangs`, `ProtocolWitnesses.SecondShutdownRescues`).
  A shutdown whose message was sent returns only when the writer is gone (`Returning.SentShutdownOutlivesWriter`);
  one that comes too late to send its message returns at once, even if the writer is still finishing
  (`ProtocolWitnesses.UnsentShutdownDoesNotWait`).
- `flush` waits until every record enqueued so far has been written (src/logger.rs:190). While the logger is
  open it does (`FlushPromise.KeptWhileOpen`). Afterwards it can return with such a record discarded and never
  handled, even one that its own thread has logged before (`ProtocolWitnesses.FlushCanMiss`, for every capacity
  and both backpressures). When a shutdown closes the logger, every `flush` and `shutdown` keeps the promise,
  whatever happens next, if and only if no `log` call stands at that moment between the closed check and the
  sender's mutex with a record that passes the filter (`FlushPromise.PromiseKeptIff`). A call that is over
  finds every record queued when it began handled or discarded (`FlushPromise.OverFindsHandledOrDiscarded`).
- A failing sink falls back to standard error (src/lib.rs:20-21): the records that fail before that are
  lost at that sink, up to `7 * S + 8` of them for S successes, and no smaller bound holds
  (`Fanout.FailureAccounting`, `Fanout.FailureBoundIsAttained`).
- Datagrams of at most 1024 bytes (src/syslog.rs:27-28, 106-107). A record in valid UTF-8 can
  make 1026, and passes the limit exactly when the cut leaves one or two bytes of a character (`Syslog.PacketBound`, `Syslog.BoundIsAttained`). For any
  bytes, as `write_bytes` takes them, up to three for each byte kept, and past the limit exactly when the
  malformed runs among the bytes kept add more than the room left free (`Syslog.BytesBound`,
  `Syslog.BytesBoundIsAttained`).
- With three backups "the oldest (`app.log.4`)" is dropped (README.md:78-80): `app.log.3` is; no file numbered
  above `max_backups` is ever touched (`RotationHistory.RunRefines`).
- `max_size` 0 turns size rotation off: so does 2^64 - 1, because the sum saturates
  (`RotationHistory.SizeRotationOff`).

## Model

| member | source | states |
|---|---|---|
| Conservation.QueueIsFifo | src/logger.rs:615-636 | in every interleaving the records enqueued are, in order, those handled, the one with the writer, those queued and those discarded; the queue keeps to its capacity; nothing is discarded while the receiver lives, and nothing stays queued after it |
| Conservation.EveryCallInOnePlace | src/logger.rs:134-163 | conservation: every `log` call begun is in exactly one place, once: in its caller's hands, refused, filtered, dropped, written in an emergency, queued, with the writer, handled or discarded; calls not begun are nowhere |
| Conservation.LossesHaveCauses | src/logger.rs:146-162 | `dropped` equals the number of records dropped, is 0 under `Block`, and callers write to standard error only once the receiver is gone |
| CallOrder.HandledInProgramOrder | src/logger.rs:144-158 | the records handled are a prefix of the queue order, and both keep every thread's program order |
| CallOrder.ThreadSeesItsCalls | src/logger.rs:134-163 | projected on one thread the queue order is exactly that thread's calls in program order, less those refused, filtered, dropped or written in an emergency, and the one still in its hands |
| CallOrder.OnlyEnabledEnqueued | src/logger.rs:138-140 | no interleaving lets a record below its target's threshold into the queue or past the filter |
| CallRecords.RecordsAreOfTheirCalls | src/logger.rs:134-145 | in every run each record, in its caller's hands, queued, with the writer, handled or discarded, has exactly the level and the target that its `log` call was given, as read off the calls made |
| CallRecords.FilteredIff | src/logger.rs:134-163 | a call past the closed check that has left its caller's hands was filtered if and only if the level and target it was given do not pass the filter; those queued, dropped or written in an emergency are exactly those that pass |
| CallOrder.ClosedIsFinal | src/logger.rs:134-137 | once the logger is closed it stays closed, and no `log` call begun after that is filtered, queued, counted or written |
| CallOrder.RunGated | src/logger.rs:135 | the closed flag is set exactly from the first shutdown on, and every call past the check was begun before it |
| Acknowledgements.RunAcknowledged | src/logger.rs:191-214 | every waiting `flush` or `shutdown` has its own acknowledgement, in flight as long as it is silent; barriers count exactly the records ahead of a control message; whoever was answered a shutdown knows the writer stops or a flush panicked |
| Acknowledgements.FlushBarrier | src/logger.rs:190-196 | when the wait of a `flush` or `shutdown` is over, every record queued when it began and every record ahead of its message has been handled, in order, even after a panic, unless its message went down with the receiver of a stopped writer, and then every record ever queued has been handled or discarded; `FlushPromise.PromiseKeptIff` says when none is discarded |
| Acknowledgements.FailedSendHasCause | src/logger.rs:223-226 | a control call returns without waiting only when the receiver is gone, and then every record ever queued has been handled or discarded |
| Acknowledgements.ShutdownDrains | src/logger.rs:203-214 | a shutdown that stopped the writer handled exactly what was queued ahead of it; what is discarded with the receiver is exactly what was queued behind it |
| Acknowledgements.NothingDiscardedEarly | src/logger.rs:615-636 | nothing is discarded unless a shutdown has been consumed |
| Acknowledgements.LastHandleDrains | src/logger.rs:618-621 | a writer that stops without a shutdown stops because the last handle is gone, and has handled everything ever queued |
| Progress.SenderIsExclusive | src/logger.rs:228-231 | at most one thread is between locking the sender and unlocking it |
| Progress.LogWaitsExactly | src/logger.rs:144-158 | under `DropNewest` a `log` call waits only for the mutex, whose holder is another thread and goes on at once unless it is a control call facing a full queue |
| Progress.InternalRunsAreShort | src/logger.rs:607-641 | from any state, calls in progress and the writer make at most `Measure` steps before a new call is begun, without any fairness assumption |
| Returning.RunJoins | src/logger.rs:203-214 | in every run each shutdown in flight is expected by its caller, and until one stops the writer whoever took the join handle is joining and, after a panic, someone is on the way there |
| Returning.StuckIff | src/logger.rs:191-231 | no deadlock, exactly: with room for a message, where neither the writer nor a call in progress can step, all calls have returned and the writer is idle or gone if and only if no flush panicked during a shutdown or another shutdown has stopped the writer |
| Returning.JoinBlockedKeepsCaller | src/logger.rs:207-211 | after such a panic, until another shutdown stops the writer, not every call has returned |
| Returning.SomeStepPossible | src/logger.rs:191-231 | in every other state that is not quiescent some step of the writer or of a call in progress is possible |
| Returning.EveryCallReturns | src/logger.rs:191-231 | when no call is begun any more every scheduling ends within `Measure` steps, and ends with all calls returned under exactly that condition |
| Returning.RunGone | src/logger.rs:207-211 | in every run, whoever is past the join knows that the writer is gone; the join handle is taken only if the writer is gone or someone is joining it |
| Returning.SentShutdownOutlivesWriter | src/logger.rs:205-213 | a shutdown whose message was sent returns only when the writer is gone, also one that finds the join handle taken |
| ShutdownLoss.ShutdownLosesNothingIff | src/logger.rs:134-144 | a shutdown closing the logger never leads to a discarded record, whatever happens next, if and only if no `log` call then stands between the closed check and the mutex with a record that passes the filter |
| ShutdownLoss.LostIffHeld | src/logger.rs:134-144 | when a shutdown closes the logger, the record of a call can be discarded in what follows if and only if the call then stands between the closed check and the mutex with a record that passes the filter |
| ShutdownLoss.OnePerCaller | src/logger.rs:134-144 | any two records discarded are of two such calls, by different threads |
| FlushPromise.OverFindsHandledOrDiscarded | src/logger.rs:190-206 | a `flush` or `shutdown` that is over, answered or not sent, finds every record queued when it began handled or discarded, and, if it has waited and the receiver is not gone, handled |
| FlushPromise.PromiseOfCall | src/logger.rs:190-206 | the promise, said of one call: where it is kept, and the call is over, the records that were queued when it began are the first of those handled |
| FlushPromise.KeptWhileOpen | src/logger.rs:190-196 | as long as the logger is open, whoever returns from `flush` finds every record handled that was queued when it began |
| FlushPromise.PromiseKeptIff | src/logger.rs:190-214 | when a shutdown closes the logger, every `flush` and `shutdown` that returns, whatever happens next, finds the records queued when it began handled, if and only if no `log` call then stands between the closed check and the mutex with a record that passes the filter |
| ProtocolWitnesses.PanickingShutdownHangs | src/logger.rs:622-632 | a run in which a sink flush panics during the only shutdown and its caller is stuck in the join |
| ProtocolWitnesses.SecondShutdownRescues | src/logger.rs:203-214 | a run in which a flush panics during a shutdown, a second one stops the writer, and both return |
| ProtocolWitnesses.BlockCanLose | src/logger.rs:134-145 | a run under `Block` in which a `log` call has returned and its record is discarded, neither counted nor written |
| ProtocolWitnesses.FlushCanMiss | src/logger.rs:190-196 | for every capacity from 1 and both backpressures a run in which a `flush` is over and a record that the same thread has queued before has not been handled |
| ProtocolWitnesses.UnsentShutdownDoesNotWait | src/logger.rs:202-206 | a run in which a second shutdown cannot send its message and returns while the writer is still finishing |
| ProtocolWitnesses.QueueIsNotInTimeOrder | src/logger.rs:141-144 | a run in which a record with a later timestamp is queued first |
| ProtocolWitnesses.DropNewestCanWait | src/logger.rs:224-226 | a run under `DropNewest` in which a `log` call is blocked by a flush that waits for room |
| SinkOrder.RunFeeds | src/logger.rs:622-636 | in every run, panics included, the records handled are, in order, those the sinks were offered, each under its own level, and those whose handling panicked |
| SinkOrder.SinkHoldsWhatWasHandled | src/logger.rs:653-683 | a sink that never fails holds exactly the handled records at or above its floor, in queue order, whatever the other sinks do |
| Fanout.FailureAccounting | src/logger.rs:661-682 | at each sink eligible records are successes S, failures F and diverted ones; F <= 7 * S + 8; while not degraded there are fewer than 8 errors in a row and F <= 7 * S + errors |
| Fanout.DegradedIsAbsorbing | src/logger.rs:665-668 | a degraded sink is never called again and every further eligible record is diverted |
| Fanout.DegradedIff | src/logger.rs:672-680 | a sink is degraded if and only if eight eligible records in a row have failed or a panic escaped; until then the counter is the failures since the last success |
| Fanout.ReliableSinkHoldsAll | src/logger.rs:661-672 | a sink that accepts every eligible record holds exactly those records in order and is never degraded |
| Fanout.FailureBoundIsAttained | src/logger.rs:24 | for every S some run fails exactly 7 * S + 8 records, so the bound is tight |
| Fanout.SlotsAreIndependent | src/logger.rs:661-682 | each sink ends as if it had been alone with its own outcomes |
| Fallbacks.HoldsAccepted | src/logger.rs:661-672 | after any offers a sink holds exactly, in order, the eligible records that it accepted before eight failures in a row or a panic |
| Fallbacks.FateByOutcomes | src/logger.rs:661-682 | a record is skipped, diverted, written or failed exactly as its level, the earlier outcomes and its own outcome say |
| Fallbacks.StderrIsExactly | src/logger.rs:665-680 | standard error gets exactly, message by message and sink by sink, the eligible records of the sinks that have been given up, and a notice where a sink is given up for its eighth failure in a row |
| Fallbacks.OneNoticeEach | src/logger.rs:672-680 | there is one notice for each sink that has failed eight times in a row before any panic, and no other |
| Writers.HandleAllDelivers | src/logger.rs:685-698 | control messages leave the failure state of every sink as it is |
| Writers.Writer.Attempt | src/logger.rs:662-681 | one loop iteration: the slot afterwards, and exactly what goes to standard error |
| Writers.Writer.WriteRecord | src/logger.rs:661-683 | the in-place loop over the slots delivers the record to each slot once, with that slot's own outcome |
| Writers.Writer.HandleMessage | src/logger.rs:646-699 | one message: slots, standard error, acknowledgement and whether to stop; nothing changes when a panic escapes |
| Writers.Writer.DegradeAll | src/logger.rs:627-631 | after an escaped panic every slot is degraded and otherwise unchanged |
| Writers.Writer.Receive | src/logger.rs:622-635 | one turn of the loop, the panics that escape caught: slots, standard error and acknowledgements are those of the reference, and it stops exactly for a shutdown that did not panic |
| Writers.Writer.WriterLoop | src/logger.rs:607-636 | the loop handles messages in order up to and including the first shutdown that does not panic, and no further; its slots are those of the reference run |
| WriterRuns.RunMatches | src/logger.rs:607-636 | in every run what the sinks see is the deliveries of the messages the writer has received, the acknowledgements that have arrived are those it sent, each once, and only the last message may stop it, which it does if and only if a shutdown has stopped the writer |
| WriterRuns.WriterLoopServesRun | src/logger.rs:607-636 | the loop of the writer, reading the messages of any run, takes all of them, leaves the slots as the run's deliveries leave them and sends exactly the acknowledgements that have arrived |
| WriterRuns.OutputOfRun | src/logger.rs:607-683 | in every run each sink holds what it accepted before it was given up, and standard error what the sinks given up did not get |
| Slots.SlotContains | src/sink.rs:113-123 | an instant has a slot if and only if the interval has a period, and slot <= t < slot + period |
| Slots.SlotMonotone | src/sink.rs:113-155 | later instants never fall in earlier slots |
| Slots.SlotIdempotent | src/sink.rs:113-155 | the start of a slot lies in that slot |
| Slots.DailySlotIsDate | src/sink.rs:117-120 | two instants share a daily slot if and only if `civil_from_days` gives them the same date, up to the last day with a 32-bit year |
| Slots.DatesRepeatPastMaxDay | src/time.rs:111 | past that day the narrowed year repeats: every date of the next 2^32 years is taken, at its midnight, for the same day 2^32 years earlier, though its daily slot is another |
| Slots.SlotStartsOnTheHour | src/sink.rs:96-123 | an hourly slot starts at minute 0 and second 0 of the hour its instants print, a daily one at the midnight before them |
| Slots.EverySlotIsMultiple | src/sink.rs:96-123 | the slots of n seconds start at the multiples of n since the epoch, each multiple at its own |
| Slots.ClockIsStamped | src/sink.rs:132-137 | the clock that decides on slots agrees with the timestamps, from the epoch on |
| Slots.WeeklySlotIsLatestMonday | src/sink.rs:145-155 | a weekly slot starts at the midnight of the latest Monday, or at 0 before the first one |
| RotationSpec.RenameDownMovesUp | src/sink.rs:361-365 | the descending rename loop moves every backup up by one place, absent ones as absent, and touches nothing else |
| RotationSpec.ShiftBackupsShifts | src/sink.rs:358-367 | removing the oldest, the loop and the last rename together are exactly a one-place shift of the map |
| RotationSpec.BackupPathsDiffer | src/sink.rs:388-392 | backups of different numbers have different paths, none of them the active one |
| RotationHistory.RunRefines | src/sink.rs:335-380 | after any writes and clock readings the active file is the current generation, backup k the k-th newest closed one (then those found at open, moved up with their gaps), the counter and slot are the generation's, and no other file has been touched |
| RotationHistory.WritesAreChunks | src/sink.rs:371-380 | every write is one chunk of one generation, in order: records are never split over files |
| RotationHistory.KeptIsSuffix | src/sink.rs:335-367 | the backups the sink made, oldest first, and the active file are a suffix of everything ever written |
| RotationHistory.SizeTracksFile | src/sink.rs:305-318 | the counter never exceeds the file's length and equals it if and only if no failed write left bytes; the counter is within the limit, or the file holds one oversized record or untouched content found at open; and so is the length if no failed write left bytes |
| RotationHistory.SizeRotationOff | src/sink.rs:372-373 | size rotation never happens if and only if the limit is 0 or at least 2^64 - 1 |
| RotationHistory.SlotsNeverAhead | src/sink.rs:321-354 | with any clock, no record lies in a file of an earlier slot than its own |
| RotationHistory.FilesAreSlotPure | src/sink.rs:161-173 | with a clock that never goes back and a modification time not in the future, all records of a file were written in the slot recorded for it |
| RotationCauses.RotatesExactly | src/sink.rs:371-380 | in every run a write moves the active file to backup 1 if and only if it would take its counted bytes past the limit, or falls in a later slot than the file's; otherwise it is added to the file and no backup changes |
| RotationCauses.EveryRotationIsDue | src/sink.rs:371-380 | every closed generation was closed by such a write, found in the run |
| RotationCauses.OneFileWhileItFits | src/sink.rs:371-380 | without a schedule, while all writes together keep within the limit, everything is in the one file |
| RotationCauses.NeverRotatesIff | src/sink.rs:371-380 | a sink never rotates, whatever is written and whenever, if and only if it has no limit, or one of at least 2^64 - 1, and no period |
| RotationCauses.FileFoundAtOpen | src/sink.rs:161-173 | a file found at open belongs to the slot of its modification time: the first write extends it if it is not in a later slot and fits, and otherwise moves it to `.1` |
| FileSinks.FileSink.OpenWith | src/sink.rs:292-318 | the sink opened on a directory has the state of the specification |
| FileSinks.FileSink.RotateEvery | src/sink.rs:270-274 | only the schedule and its slot change |
| FileSinks.FileSink.IntervalElapsed | src/sink.rs:321-329 | agrees with the specification for every clock reading |
| FileSinks.FileSink.ShiftBackups | src/sink.rs:358-367 | the loop over the directory object performs the specified shift, errors included |
| FileSinks.FileSink.Rotate | src/sink.rs:335-354 | one rotation of the object is one rotation of the specification |
| FileSinks.FileSink.WriteBytes | src/sink.rs:371-380 | one write of the object is one write of the specification, and keeps the directory showing the history |
| Calendar.CivilFollowsCalendar | src/time.rs:100-112 | day 0 is 1970-01-01, every day is a real date, and each next day is its Gregorian successor, wherever the year fits 32 bits |
| Calendar.CivilBijection | src/time.rs:100-112 | `civil_from_days` and an independent day count are inverse bijections that keep the order |
| Calendar.WideCivilCounts | src/time.rs:101-110 | before the narrowing, every signed day count gives a real date with that count |
| Calendar.WideCivilInverts | src/time.rs:101-110 | before the narrowing, the era arithmetic inverts the independent count on every date |
| Calendar.WideSuccessor | src/time.rs:101-110 | before the narrowing, each next day is the Gregorian successor, for every signed day count |
| Calendar.YearFits | src/time.rs:111 | the narrowing keeps the date if and only if the day count lies between two given days |
| Calendar.CivilNarrows | src/time.rs:111 | of every real date the code finds the month and the day, and the year up to a multiple of 2^32 |
| Calendar.NextDayCounts | src/time.rs:96-99 | the independent count steps by one from each date to its successor |
| Timestamps.RoundTrip | src/time.rs:76-94 | the microsecond count can be rebuilt from the fields, which are all in range, for every signed count whose year fits 32 bits |
| Timestamps.FieldsOrder | src/time.rs:76-94 | fields compare as the counts do |
| Rfc3339.DisplayReadsBack | src/time.rs:47-62 | a reader written from section 5.6 of RFC 3339 recovers every field and the offset of a printed timestamp if and only if its year has at most four digits and its offset is in whole minutes below 100 hours |
| Rfc3339.NowReadsBack | src/time.rs:38-62 | the instant read from what `Timestamp::now` prints, local time less the offset, is the clock reading, whatever the offset |
| Rfc3339.MicrosOfClock | src/time.rs:64-73 | a clock reading loses less than a microsecond, towards the epoch |
| Timestamps.DisplayOrder | src/time.rs:47-62 | for years 0 to 9999 at one offset the printed timestamps sort as strings exactly as the instants do, and are equal only for equal counts |
| Filters.Position | src/filter.rs:103 | finds the first directive for a target, or none |
| Filters.UpsertPiece | src/filter.rs:75-107 | one item of a spec: a valid one sets the level of its target in place or at the end, an invalid one changes nothing |
| Filters.Parse | src/filter.rs:70-109 | the loop computes the reference parse, and every target has one directive |
| Filters.LastDirectiveWins | src/filter.rs:102-106 | each target's level is that of its last valid directive; others are absent |
| Filters.ParseIsCompositional | src/filter.rs:70-109 | parse(a,b) is parse(a) overlaid with parse(b) when a has no slash |
| Filters.PrintThenParse | src/filter.rs:70-109 | printing a filter as `target=level` items and parsing it returns the same list |
| FilterGrammar.LevelNames | src/level.rs:39-53 | a text parses to a level if and only if it is one of that level's names, in any mixture of case; `warning` is `warn` |
| FilterGrammar.CanonicalNames | src/level.rs:26-37 | the printed name of a level is its name in capitals |
| FilterGrammar.BlankItem | src/filter.rs:75-78 | white space alone gives no directive |
| FilterGrammar.BareLevel | src/filter.rs:81-86 | a level name alone, in any case, with white space around it, is the global default |
| FilterGrammar.BareTarget | src/filter.rs:81-86 | any other token alone is a target at `Trace` |
| FilterGrammar.TargetAlone | src/filter.rs:87-94 | `target=` is the target at `Trace`, whatever its name; a lone `=` gives nothing |
| FilterGrammar.TargetLevel | src/filter.rs:95-98 | `target=name` has the level named, in any case; a name that is no level's gives nothing |
| FilterGrammar.SecondEquals | src/filter.rs:99 | an item with a second `=` gives nothing |
| FilterGrammar.SlashEnds | src/filter.rs:72-75 | everything from the first `/` on is ignored |
| Thresholds.EnabledExactly | src/filter.rs:179-185 | a record passes if and only if its level is the threshold or one of the listed ones above it |
| Thresholds.InnermostDecides | src/filter.rs:159-174 | the threshold of a target is that of the directive for the innermost module, the target or one it is inside by `::`, that has one |
| Thresholds.DefaultDecides | src/filter.rs:136-152 | where no directive is for the target the global default decides if there is one, and else the base |
| Thresholds.BlankSpec | src/filter.rs:64-68 | a blank spec leaves the base level untouched |
| Thresholds.LevelSpec | src/filter.rs:136-185 | for a spec that is a level name exactly the levels at or above it pass, for every target and whatever the base |
| Thresholds.TargetSpec | src/filter.rs:159-197 | for a spec `path=level` that level decides for the module and inside it, and the base for all other targets |
| Thresholds.LevelAndTargetSpec | src/filter.rs:70-185 | for a spec `level,path=level` as written, exactly the levels at or above the second pass for the module and inside it, and those at or above the first for all other targets |
| Filters.MatchIsPrefix | src/filter.rs:190-197 | a directive matches exactly the targets it is a module prefix of |
| Filters.BestIsLongest | src/filter.rs:159-174 | the longest match in bytes is the most specific module prefix with a directive |
| Filters.FindEffectiveLevel | src/filter.rs:159-174 | the loop returns the level of the longest module prefix with a directive, else the global default, else the base |
| Filters.OrderDoesNotMatter | src/filter.rs:159-185 | permuting the directives changes no threshold |
| Filters.EnabledIsUpwardClosed | src/filter.rs:179-185 | what passes at a level passes at every higher one below Off; Off lets nothing pass |
| Entries.MergeContext | src/entry.rs:250-257 | the loop changes only the fields, and adds, for any context, exactly the first field of each unused key |
| Entries.MergeAddsUnused | src/entry.rs:250-257 | for any context the record's own fields stay an unchanged prefix, followed in order by the first field of each key the context has and the record does not use |
| Entries.ExplicitWins | src/entry.rs:240-249 | explicit fields win over context fields of the same key |
| Context.StackIsLivePushes | src/context.rs:62-71 | after any interleaving of pushes and drops the stack is the push sequence filtered to live scopes |
| Context.MergedMeaning | src/context.rs:150-167 | the merged context has unique keys in first-occurrence order, each with its last, innermost value |
| Context.RecordSeesInnermost | src/entry.rs:250-257 | a record carries for a key its own value, else that of the innermost live scope that sets it |
| Context.CaptureThenEnter | src/context.rs:99-101 | capturing and entering on an empty stack gives the same context |
| Context.ContextStack.PushContext | src/context.rs:121-133 | pushes a frame with a fresh number |
| Context.ContextStack.DropContext | src/context.rs:62-71 | removes exactly the guard's frame, wherever it is |
| Context.ContextStack.UpsertField | src/context.rs:159-162 | an existing key is overwritten in place, a new one goes to the end |
| Context.ContextStack.MergeFrame | src/context.rs:158-163 | the loop over one frame merges its fields into those of the outer frames |
| Context.ContextStack.CurrentContext | src/context.rs:150-167 | the nested loops compute the reference merge, with unique keys |
| Context.ContextStack.Enter | src/context.rs:99-101 | entering pushes the snapshot, which an empty stack then reproduces |
| Json.PushString | src/json.rs:72-90 | the loop appends the quoted, escaped text |
| Json.PushValue | src/json.rs:50-69 | appends the value's text, `null` for floats that are not finite |
| Json.RenderRecord | src/json.rs:20-45 | builds the whole line of the record in a fresh buffer |
| Json.WriteRecord | src/json.rs:20-47 | appends the UTF-8 bytes of the record's line to the output and changes nothing before |
| JsonRoundTrip.StringReadsBack | src/json.rs:72-90 | an escaped string reads back as itself under section 7 of RFC 8259 |
| JsonRoundTrip.ValueReadsBack | src/json.rs:50-69 | every value reads back with its type: the string, the integer, the decimal expansion, the boolean or null |
| JsonRoundTrip.RecordReadsBack | src/json.rs:20-47 | a record's line parses to an object of exactly its members in order: ts, level, msg, optional location, fields |
| JsonRoundTrip.OnlyControlIsNewline | src/json.rs:43-46 | the only control character of a line is its final newline, without which it still parses to the same members |
| JsonRoundTrip.StreamSplits | src/json.rs:1-11 | any concatenation of records splits at the newlines into exactly their lines |
| JsonRoundTrip.SameBytesSameRecords | src/json.rs:1-11 | two logs with the same bytes hold the same members, record for record: no field can imitate a record |
| Utf8.DecodeInverts | src/syslog.rs:374 | lossy decoding inverts encoding |
| Utf8.DecodedLength | src/syslog.rs:374 | lossy decoding of any bytes keeps the bytes of characters and turns each malformed run, of one to three bytes, into three |
| Utf8.TruncatedDecode | src/syslog.rs:369-374 | a text cut after n bytes decodes to the longest prefix that fits, and one U+FFFD if and only if the cut falls inside a character |
| Utf8.FittingIsLongest | src/syslog.rs:368-369 | that prefix fits and one character more would not |
| Syslog.BuildPacket | src/syslog.rs:354-376 | the steps of the code compute the specified packet, for any bytes |
| Syslog.BytesLength | src/syslog.rs:354-376 | for any bytes, the length of the datagram, to the byte, from the malformed runs among the bytes kept |
| Syslog.BytesBound | src/syslog.rs:354-376 | for any bytes, at most the header and three bytes for each byte kept, and more than max(1024, header) if and only if the malformed runs add more than the room left free |
| Syslog.BytesBoundIsAttained | src/syslog.rs:354-376 | behind every header, for every length, some bytes take three for each byte kept |
| Syslog.PacketHoldsLongestPrefix | src/syslog.rs:363-375 | for a record in valid UTF-8 the datagram is the header, the longest whole-character prefix of the record that fits, and at most one U+FFFD |
| Syslog.LineThatFits | src/syslog.rs:363-375 | a line that fits in 1024 bytes with its header is sent whole, without the newline at its end |
| Syslog.PacketLength | src/syslog.rs:368-375 | for a record in valid UTF-8, the length of the datagram, to the byte, from the bytes of the character that was cut |
| Syslog.PacketBound | src/syslog.rs:354-376 | for a record in valid UTF-8, at most max(1024, header) + 2 bytes, and more than max(1024, header) if and only if the cut leaves one or two bytes of a character |
| Syslog.AsciiKeepsToLimit | src/syslog.rs:368-369 | ASCII records are never cut inside a character and keep to the limit |
| Syslog.BoundIsAttained | src/syslog.rs:106-107 | behind any header that leaves room some record makes 1026 bytes |
| Syslog.SanitizeIdent | src/syslog.rs:380-394 | a tag is never empty and has only safe characters; each safe character is kept, every other becomes `_` |
| Syslog.HeaderReadsBack | src/syslog.rs:318-350 | a receiver recovers the facility and the severity of the tables of RFC 3164, time, host, program, process and message from a datagram (section 4.1 of RFC 3164) if and only if the host name has no space, the month is one of the twelve, and day, hour, minute and second are below 100 |

## Left out

- Standard output, standard error, UDP and Unix-socket sinks, reconnecting, host name and program name lookup: input and output without state worth proving.
- The environment, the builder, the global logger, the macros and the conversions to field values: plumbing.
- The plain-text record format: it does not escape messages, so it has no framing to prove.
- Weak memory: atomics are sequentially consistent steps. Mutex poisoning, and wrap-around of the frame-number and `dropped` counters, are not modelled.
- Returning.StuckIff: needs a queue capacity of at least 1; rendezvous channels are not modelled.
- Returning.EveryCallReturns: needs the same, and counts each call of a sink as one step that ends; a sink that logs through its own logger is not modelled.
- ShutdownLoss.ShutdownLosesNothingIff: needs the same; with it a record can always be queued behind the shutdown.
- ShutdownLoss.LostIffHeld: needs the same.
- FlushPromise.PromiseKeptIff: needs the same. A record counts as handled when the writer has offered it to the sinks, or its handling panicked; what a sink does with it is the business of `Fanout`.
- SinkOrder.SinkHoldsWhatWasHandled: a panic that escapes message handling is taken to strike before any sink is reached, as formatting comes first; sink panics inside `write_entry` are failures of that sink.
- RotationHistory.RunRefines: file operations other than writes succeed, as do the directory's creation and its metadata; writes may stop partway. What happens when a reopen fails is not modelled.
- RotationHistory.SizeTracksFile: file lengths and the counter stay below 2^64; only the sum in the size check saturates.
- Slots.SlotContains: a duration is a whole number of seconds, the code ignores the rest; seconds since the epoch are unbounded.
- FileSinks.FileSink.RotateEvery: the theorems about slots keep one schedule for the whole run.
- Rfc3339.DisplayReadsBack: is about the timestamps that a count decomposes into, whose fields are in range; offsets that are not whole minutes print without their seconds.
- Timestamps.DisplayOrder: the printed offset drops the seconds of offsets that are not whole minutes, so the order is stated at one common offset.
- JsonRoundTrip.ValueReadsBack: a finite float is the decimal expansion it prints as; which expansion Rust's formatter chooses, and the loss of the point in 1.0, are not modelled. Member names may repeat.
- Context.ContextStack.PushContext: a stack belongs to one thread; other threads appear only as numbers they take.
- Syslog.HeaderReadsBack: the year, the offset and the microseconds are not in the header.
