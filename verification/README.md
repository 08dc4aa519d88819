# DegenView, verified

A Dafny model of the parts of DegenView where a mistake costs data or trust: its calendar and codecs, the
price-alert runtime shared by the GUI and a background agent, the portfolio and paper-trading stores, the
MCP server's credentials and order memory, the iCloud sync coordinator, the editor's font loader, candle
folding, the icon resampler and the allocation counters.

`dafny verify dfyconfig.toml` checks everything. Code that changes state in place is modelled by classes
and loops whose contracts equate the new state with a function of the old one; what the code is for is then
proved about those functions, over every run and interleaving.

| files | about |
|---|---|
| Calendar, Timestamp, Text | dates, timestamps, and the reading of text they share |
| Bytes, Elf, ElfLayout, ElfImage, ElfRoundTrip | the glibc check of Linux binaries and the printer of its test files |
| AlertEngine, AlertCrossing, AlertPlanning | applying commands, judging quotes, planning edits on old snapshots |
| AlertProtocol, AlertTakeover, AlertRuntime, AlertOwnership, AlertPlay, AlertLosses, Machine | the queue, the stored snapshot, the processes that own it in turn, how they hand it over, and what a takeover can lose |
| Buckets, Candles | calendar buckets and the folding of candles |
| Resample | the box filter and the placement of the icon |
| AllocCounters | lock-free counters under any interleaving |
| OrderMemory | orders placed by an agent that may retry |
| PortfolioLedger, PortfolioHost, PortfolioRuns, PortfolioDays | the ledger, its value history, rebuilds racing with edits and sync, and the days they forget |
| PaperHost | the paper-trading ledger, accounts run on other Macs, and the panel's cache |
| McpHost | credentials that are saved first and published afterwards |
| SyncCoordinator, SyncOutbox, SyncRuns | queued and staged changes, batches and reports of the sync engine |
| EditorFont | fonts read on threads, and choices saved a moment later |

## What the code does not do

These are properties the repository's comments or tests promise and the code does not keep in general. Each
has a concrete run or input, or a family of them, and the exact condition under which the promise holds.

- A drained command can be lost. A reload replaces the engine but keeps the ids waiting to be acknowledged
  (AlertLosses.CommandCanBeLost); it is safe exactly when none of them is still queued
  (AlertTakeover.ReloadingFollows).
- A GUI that takes the lease before it has read the latest snapshot writes older history over newer
  (AlertLosses.EventCanBeLost). Taking over is safe exactly when the process follows the store or its tick
  saves nothing (AlertLosses.TakeoverIsSafeExactlyWhenFollowing).
- The outcome of an alert command is reported correctly only while it is recent: 200 refusals and 1000
  commands (AlertEngine.RefusalCanBeReportedAsApplied; exactly, AlertEngine.RefusalIsReportedWhileRecent and
  AlertEngine.ApplicationIsReportedWhileRecent). Saves of the alert sheet carry no precondition, so two
  of them can make two alike alerts (AlertEngine.SheetCanRepeatAnAlert); these are kept out exactly while each
  such save finds none (AlertEngine.RunsStayDistinctExactly).
- The glibc check promises an error message for every damaged file, but offsets of 2^63 and more end in a
  traceback (Elf.OverflowsExactlyAtHugeOffsets).
- A February candle closes in March (Candles.FebruaryClosesInMarch), as every month shorter than 30 days does
  (Candles.MonthCandlesOverlapInShortMonths).
- 66052 opaque white pixels come out black (Resample.WhiteTurnsBlack): an average is right exactly if its sum
  is less than 2^32 (Resample.TrueAverageExactly).
- A peak reset that overlaps an allocation forgets it, and one that comes between a count and its report brings
  back an old peak (AllocCounters.ResetsCanRace, AllocCounters.LateReportBringsBackAPeak); exactly when a reset
  is right is AllocCounters.ResetIsRightExactlyWhenWatched. A failed shrinking reallocation makes the live
  counter underflow (AllocCounters.FailedShrinkUnderflows), by exactly what AllocCounters.FailuresDrift says.
- A retried order can be answered with another order after its account was deleted and the number reused
  (OrderMemory.ReusedNumberAnswersARetry); it is not exactly while no step has removed the first
  (OrderMemory.RetriesAreSafe).
- A portfolio or paper ledger that sync stored and that could not be read again is written over by the next edit
  (PortfolioRuns.UnreadTransactionIsWiped, PaperHost.UnreadSyncIsWiped), and survives exactly until then
  (PortfolioRuns.UnreadLedgerSurvives, PaperHost.UnreadLedgerSurvives). A save refuses to rewrite portfolios and
  paper accounts it cannot decode (src/store/mod.rs:320-322), so the read must have failed for another reason: a
  busy database, a transaction that cannot be decoded, an integrity issue. A rebuild may be stored beside it
  (PortfolioRuns.UnreadSyncTakesAnOldResult; exactly, PortfolioRuns.HistoryStaysSound).
- Portfolio history can lose days for good: a result is stored whose stretch starts after a mark that has moved
  back (PortfolioDays.RebuildForgetsADay), or an edit marks a day while earlier ones are not built yet, and the
  rebuild starts at the mark (PortfolioDays.EditForgetsADay). Exactly when is PortfolioDays.DaysStayKept. Edits
  that change only notes or currencies must change the time of the edit (PortfolioRuns.SilentEditIsNotNoticed).
- A failed paper-trading save can leave an account without its owner, exactly when the owner cannot be
  written back (PaperHost.FailuresChangeNothing). Owners that cannot be read are taken for none
  (PaperHost.UnreadOwnersAreIgnored), and other Macs' orders are left alone exactly while every owner is known
  (PaperHost.SparedExactlyWhenKnown, PaperHost.OthersStaySpared).
- An account that signs in between the check and the staging receives the other account's changes
  (SyncRuns.SwitchDuringStaging), and only then (SyncRuns.AccountsStayApartThroughout,
  SyncRuns.ChecksKeepAccountsApart).
- An unsaved preference makes a reload skip themes from another Mac, and the next theme edit writes over
  them (EditorFont.SyncedThemeCanBeUndone). What is saved stays what is shown exactly while no sync meets unsaved
  edits and changes the other half (EditorFont.MirroredThroughout), and stored themes survive exactly until a
  frame saves themes (EditorFont.StoredThemesSurvive).

## Model

| member | source | states |
|---|---|---|
| Calendar.DaysAreCivil | src/format.rs:121-147 | every integer day converts to a real date, and that date converts back to the day |
| Calendar.CivilAreDays | src/format.rs:121-147 | every real date, in any year, converts to a day that converts back to it |
| Calendar.ConversionCountsDays | src/format.rs:121-137 | the closed conversion is the calendar that steps one day at a time from 1970-01-01, forwards and backwards, by the leap rule the parser uses |
| Calendar.NextDayIsLater | src/format.rs:81-86 | stepping one day from a real date gives a real date whose day number is one more |
| Calendar.LaterDaysAreLaterDates | src/format.rs:121-137 | later days have later dates in year, month, day order |
| Timestamp.TimestampRoundTrips | src/format.rs:53-105 | reading back what is printed gives the moment floored to its minute exactly for years 1 to 9999, and is refused for every other year |
| Timestamp.InstantRoundTrips | src/format.rs:68-119 | the RFC 3339 `date-time` text (section 5.6) without its fraction reads back as the moment floored to its second, for years 1 to 9999 |
| Timestamp.InstantIsNotATimestamp | src/format.rs:68-119 | with its fraction that text is never accepted, whatever the moment |
| Timestamp.AcceptedIsARealMoment | src/format.rs:68-105 | every accepted text names a real calendar date in years 1 to 9999 and a real time of day, and its value is that moment |
| Timestamp.AcceptedReprints | src/format.rs:53-105 | printing and reading the value of an accepted text gives that value floored to the minute |
| Timestamp.ReadsExactlyTheSpellings | src/format.rs:68-105 | for every text and moment: the text is read as that moment if and only if it spells it, in white space, a year, month and day, perhaps a space or T and an hour, minutes and seconds, and trailing Zs, with places left out being zero |
| Timestamp.UsualSpellings | src/format.rs:64-105 | for every date of years 1 to 9999 and time of day: a date alone, with an hour, with minutes and with seconds is read as that moment, under a space or a T, with or without a Z |
| Elf.GlibcNeeds | tools/check-glibc.py:31-62 | the three nested walks, on any byte string: every read in range, every loop bounded, ending in the result or the error of the specification |
| Elf.WalkEntries | tools/check-glibc.py:50-60 | the walk over version-need entries and their auxiliary entries |
| Elf.HighestIsHighest | tools/check-glibc.py:27-28 | the result of `max` is one of the versions, none has a higher key, and one version that is not numeric makes the whole a ValueError |
| Elf.OverflowsExactlyAtHugeOffsets | tools/check-glibc.py:36-52 | the parser fails with the OverflowError its caller does not catch if and only if the section table, or a version-need section with entries that the walk reaches, starts at 2^63 or beyond |
| Elf.StrayHeaderIsATraceback | tools/check-glibc.py:65-75 | a 64-byte header that does so ends the command without an exit status |
| Elf.AcceptedWithinTheBaseline | tools/check-glibc.py:65-90 | the command accepts a file exactly when it can be walked, all its versions are numeric and every version it insists on is within the baseline |
| Elf.OnlyElfIsRead | tools/check-glibc.py:31-35 | what is not a 64-bit little-endian ELF file by its length or its first six bytes is reported as an error |
| ElfLayout.FilesAreRead | tools/check-glibc.py:31-62 | every file, wherever its section table, its sections, the entries of a section and the versions of an entry lie and however they are chained: the answer is the highest of exactly the glibc versions of all entries of all version-need sections, those with the weak flag apart |
| ElfLayout.FilesAreAcceptedWithinTheBaseline | tools/check-glibc.py:65-90 | such a file is accepted if and only if all those versions are numbers and none the loader insists on is above the baseline |
| ElfImage.MakeElf | tools/test-check-glibc.py:26-55 | the printer: the image, or a struct error exactly when a count, a name offset or the table offset does not fit its field |
| ElfImage.PackedHeader | tools/test-check-glibc.py:39-43 | the header, packed into a byte array in place |
| Bytes.PackedRoundTrips | tools/test-check-glibc.py:34-50 | a number that fits its width survives packing and unpacking |
| Bytes.TextRoundTrips | tools/check-glibc.py:39-40 | UTF-8 encoding followed by strict decoding is the identity |
| ElfRoundTrip.LinkedFilesRoundTrip | tools/check-glibc.py:31-62 | for any list of version-need sections, each of any libraries with any versions, printed one after another with names that hold no NUL and numbers that fit: parsing finds the highest of exactly all those versions |
| ElfRoundTrip.RoundTrip | tools/check-glibc.py:31-62 | parsing a printed image finds the highest of exactly the printed versions, required and weak apart, for all lists and libraries whose numbers fit and whose names hold no NUL |
| ElfRoundTrip.NewestReleasesComeBack | tools/test-check-glibc.py:26-64 | for any list of numbered releases, whose numbers have at most the 4300 digits Python reads, the numerically newest required and newest weak one come back |
| AlertEngine.RunsStayDistinctExactly | src/model/alert_engine.rs:113-190 | over every run of commands with or without preconditions, quotes and heartbeats: in no state are two alerts alike or of one id, or more than the cap, if and only if each save that goes through finds no twin and has room |
| AlertEngine.SheetCanRepeatAnAlert | src/app.rs:1213-1222 | the run of two saves of the alert sheet that makes two alerts alike but for their ids |
| AlertEngine.GuardedRunsStayDistinct | src/model/alert_engine.rs:113-190 | while every save carries a precondition, no run of commands, quotes and heartbeats makes two alerts with one id or two identical alerts, or exceeds the cap |
| AlertEngine.TakenAreRemembered | src/model/alert_engine.rs:113-139 | after any run, with ids repeated or not, exactly the newest 1000 ids taken are remembered |
| AlertEngine.RepeatsAreIgnored | src/model/alert_engine.rs:113-139 | a repeated command changes nothing if and only if its id is among the newest 1000 taken |
| AlertEngine.EffectsAreFarApart | src/model/alert_engine.rs:113-139 | an id takes effect again only after at least 1000 others |
| AlertEngine.RefusalIsReportedWhileRecent | src/host/mcp_host.rs:1621-1629 | a refused command is reported as refused exactly while its refusal is among the last 200 |
| AlertEngine.RefusalCanBeReportedAsApplied | src/host/mcp_host.rs:1621-1629 | the run of 201 refusals after which the first refused command is reported as applied |
| AlertEngine.ApplicationIsReportedWhileRecent | src/host/mcp_host.rs:1621-1629 | an applied command is reported as applied exactly while it is among the last 1000 commands |
| AlertEngine.RequestsActOnTheirAlert | src/model/alert_engine.rs:141-275 | a request that goes through saves, pauses, resumes or deletes the alert it names, or empties the history, and changes nothing else |
| AlertCrossing.Alerts.Process | src/model/alert_engine.rs:298-382 | one quote against every alert, in place: each alert that is not muted ends as the judgement of one alert says, and the ids that fired are listed |
| AlertCrossing.Alerts.Judge | src/model/alert_engine.rs:319-376 | one alert compared with one quote |
| AlertCrossing.FiredAreListed | src/model/alert_engine.rs:298-382 | the ids a quote is answered with are exactly those of the alerts that fired and are not muted |
| AlertCrossing.JudgingKeepsDefinitions | src/model/alert.rs:405-420 | judging moves only what the runtime keeps, never what an alert is for |
| AlertCrossing.LatchIsKept | src/model/alert_engine.rs:212-260 | saving, pausing, resuming and judging keep the armed flag equal to the side of the target the alert last saw |
| AlertCrossing.EveryLatchIsTrue | src/model/alert_engine.rs:113-382 | in every reachable snapshot each armed flag says which side of its target the alert last saw |
| AlertCrossing.SpentByTheFirstCrossing | src/model/alert_engine.rs:348-366 | a one-time alert is spent by the first crossing in any stream of quotes; otherwise the alert goes on watching from the last price |
| AlertCrossing.FiresExactlyAtCrossings | src/model/alert_engine.rs:298-382 | a repeating alert fires at a quote if and only if the price crossed its target since the quote before, a one-time alert if and only if it is the first such crossing |
| AlertCrossing.ReachableAlertsFireAtCrossings | src/model/alert_engine.rs:298-382 | in every reachable snapshot an alert fires at a quote if and only if the quote is a new one of its market and currency and the price went from below the level up to it, for alerts that rise or cross above, or from above down to it, for alerts that fall or cross below |
| AlertPlanning.CreateAddsOrRefuses | src/host/mcp_host.rs:1438-1489 | a planned creation, applied to whatever the alerts have become, adds exactly the planned alert, or is refused as a duplicate or for want of room, and that reason is kept |
| AlertPlanning.AcceptedEditKeepsTheRest | src/host/mcp_host.rs:1491-1568 | an accepted edit changes only what was asked for, of the alert exactly as it was planned from |
| AlertPlanning.PlansDoWhatIsAsked | src/host/mcp_host.rs:1491-1568 | for every request: not found exactly without the alert, refused exactly if what is asked cannot be, no change exactly if the alert already is that, a conflict exactly if another one is, and otherwise the change that does what is asked and keeps the rest |
| AlertPlanning.EditIsAcceptedExactly | src/model/alert_engine.rs:161-190 | a queued edit is accepted if and only if the alert is still as it was planned from and no other is like the new one |
| AlertPlanning.PlannedChangeIsAChange | src/host/mcp_host.rs:1491-1568 | a plan that is not "no change" differs from the alert it was made from |
| AlertPlanning.SecondEditFromOneBaseIsRefused | src/model/alert_engine.rs:161-190 | of two edits planned from the same alert, the later one is refused |
| AlertProtocol.DrainAppliesInOrder | src/host/alert_host.rs:171-187 | draining applies the queued commands not yet applied, once each and in queue order |
| AlertProtocol.EnqueuedAdds | src/store/alert.rs:97-115 | queueing is idempotent by id and keeps every queued id once |
| AlertProtocol.AcknowledgedRemoves | src/store/alert.rs:54-88 | acknowledging removes exactly the acknowledged commands |
| AlertProtocol.StepKeepsEverything | src/host/alert_host.rs:40-59 | any step of any process keeps every command exactly once, queued or stored, and everything stored, if a process that takes the lease follows the store |
| AlertTakeover.RunsKeepEverything | src/host/alert_host.rs:111-187 | the same over whole runs; an unreadable snapshot is never replaced |
| AlertTakeover.StoredEventsStay | src/host/alert_host.rs:429-440 | no later save loses a stored trigger event unless the history is cleared on purpose |
| AlertTakeover.StartingFollows | src/host/alert_runtime.rs:169-190 | a process that has just loaded the store follows it, which is why the agent is safe |
| AlertTakeover.ReloadingFollows | src/host/alert_host.rs:111-141 | reading a newer snapshot makes a process follow exactly when no command it holds for acknowledgement is still queued |
| AlertTakeover.FollowingLasts | src/host/alert_host.rs:111-187 | a process that follows goes on doing so until another saves or it reloads itself |
| AlertLosses.TakeoverIsSafeExactlyWhenFollowing | src/app.rs:2333-2365 | from any state, taking the lease and running one whole tick, with its queue, its quotes and its heartbeat, keeps everything stored and every command exactly once if and only if the process followed the store or the tick saves nothing |
| AlertLosses.CommandCanBeLost | src/host/alert_host.rs:111-187 | a run of whole ticks of one GUI that loses a command: applied, not saved, reloaded away, then acknowledged; at its end the command is issued, not queued and not in the stored log |
| AlertLosses.EventCanBeLost | src/app.rs:2333-2365 | a run of whole ticks that loses a stored event: the agent fires an alert and stores the event, dies, and the GUI takes over with the history it read before; at its end the stored history is empty and nobody cleared it |
| AlertLosses.PlayedIsARun | src/host/alert_runtime.rs:106-166 | runs made of whole ticks, each on the snapshot and the queue as they are then, are runs of the protocol |
| AlertRuntime.AlertHost.constructor | src/host/alert_host.rs:42-59 | loading: the stored snapshot, or the defaults when nothing was saved, or an error |
| AlertRuntime.AlertHost.UpdateHealth | src/host/alert_host.rs:102-107 | only a changed health is recorded, and makes the host dirty |
| AlertRuntime.AlertHost.ReloadFromStore | src/host/alert_host.rs:111-141 | follows a newer snapshot and returns exactly the events not known before |
| AlertRuntime.AlertHost.DrainCommands | src/host/alert_host.rs:171-187 | the loop over the queue is the drain of the protocol |
| AlertRuntime.AlertHost.SaveIfDirty | src/host/alert_host.rs:429-440 | snapshot and acknowledgements are stored together or not at all |
| AlertRuntime.AlertStore.SaveAndAcknowledge | src/store/alert.rs:54-88 | one transaction: all of it or nothing |
| AlertRuntime.AlertRuntimeRunner.Tick | src/host/alert_runtime.rs:106-166 | a tick at most once a second: drain, judge, beat and save |
| AlertRuntime.TickIsARun | src/host/alert_runtime.rs:106-166 | a tick is a run of the protocol that ends in what Tick leaves in host and store |
| AlertRuntime.TicksAreSpaced | src/host/alert_runtime.rs:117-120 | ticks that run are at least a second apart |
| AlertRuntime.NobodyWaitsASecond | src/host/alert_runtime.rs:117-120 | while the clock does not go back, no call is a whole second after the latest tick before it |
| AlertRuntime.EventsAreShownOnce | src/host/alert_host.rs:111-141 | however often it looks, a follower of a growing history is shown every later event once, in order |
| AlertOwnership.AlertRuntimeControl.constructor | src/app.rs:101-109 | a new control owns nothing and has just registered |
| AlertOwnership.AlertRuntimeControl.Retrying | src/app.rs:111-118 | a new registration gives up the lease, restarts the grace period and drops older answers |
| AlertOwnership.AlertRuntimeControl.PollServiceStatus | src/app.rs:121-133 | takes the answer of a finished status query |
| AlertOwnership.AlertRuntimeControl.RunFrame | src/app.rs:2295-2365 | one frame: status query, decision, lease, and whether the alerts are run here |
| AlertOwnership.DeadAgentLeadsToForeground | src/host/alert_runtime.rs:58-80 | once the last heartbeat is more than 5 s and the registration at least 3 s old, every frame runs the alerts, whatever the service answers |
| AlertOwnership.ForegroundExactlyAfterTheBounds | src/host/alert_runtime.rs:58-80 | under an enabled service both bounds are exact, and within the grace period the lease is not held |
| AlertOwnership.NeverTwoOwners | src/host/alert_runtime.rs:24-49 | under any interleaving of frames, registrations, lease attempts and deaths at most one process owns the runtime |
| AlertPlay.MoveIsARun | src/app.rs:2333-2365 | each frame, poll, start or death is a run of protocol steps that are enabled: who ticks holds the lease, who does not only follows the store |
| AlertPlay.PlayIsARun | src/app.rs:2295-2365 | a whole play of the GUI and the agent is a run of the protocol that ends with the same owner and the same processes |
| Buckets.BucketFloors | src/service/mod.rs:258-277 | a bucket starts no later than its times, starts with itself, and later times have no earlier bucket |
| Buckets.NestsExactlyWhenDividing | src/service/mod.rs:258-277 | for every pair of intervals, exactly when rounding down to one and then the other is rounding down to the other at once |
| Buckets.FourWeeksAreNotAMonth | src/service/mod.rs:258-277 | four weeks are taken for a month, in which weeks do not nest, although one length divides the other |
| Buckets.BucketsFollowTheCalendar | src/service/mod.rs:258-277 | the bucket of a week, a month, a quarter or a year starts at midnight of the latest Monday, first of a month, of a third month or of January |
| Candles.FoldCandles | src/host/pine_host.rs:145-168 | the loop that folds candles in place into the last bucket is the fold |
| Candles.FoldsComposeExactlyWhenDividing | src/host/pine_host.rs:145-168 | folding twice is folding once for all lists of candles, ordered or not, if and only if the intervals nest |
| Candles.FoldIsSummaries | src/host/pine_host.rs:143-168 | for time-ordered candles the buckets strictly increase, each bucket with candles appears, and each candle is the summary of all of its own |
| Candles.HighestIsAMaximum | src/host/pine_host.rs:150-153 | the extremes of a summary are attained and bound every member |
| Candles.VolumeIsConserved | src/host/pine_host.rs:145-168 | total volume is conserved for any list |
| Candles.ChosenBaseLosesNothing | src/host/pine_host.rs:34-63 | the base chosen for an interval is the coarsest divisor listed, and folding from it gives what folding any finer candles would |
| Candles.EvenCandlesMeet | src/host/pine_host.rs:157-158 | below a week a candle closes one millisecond before the next bucket opens |
| Candles.MonthCandlesOverlapInShortMonths | src/host/pine_host.rs:157-158 | a month candle closes within its own month exactly when the month is as long as the nominal interval |
| Candles.FebruaryClosesInMarch | src/host/pine_host.rs:157-158 | so a February candle closes in March |
| Resample.ResampleRgba | src/lib.rs:120-149 | every byte of the result is the channel of its pixel; all reads and writes in range, for all positive sizes |
| Resample.Average | src/lib.rs:128-146 | one window, summed pixel by pixel in wrapping 32-bit arithmetic |
| Resample.WindowsTile | src/lib.rs:122-127 | no window is empty or leaves the source; shrinking they meet end to start, enlarging each is one pixel |
| Resample.EachColumnOnce | src/lib.rs:122-127 | shrinking, every source column is in exactly one window |
| Resample.EveryPixelCountsOnce | src/lib.rs:120-139 | shrinking, the window sums add up to the sum over the whole picture |
| Resample.TrueAverageExactly | src/lib.rs:140-145 | the alpha is the mean alpha, rounded down, if and only if the alphas add up to less than 2^32; and then a colour is the mean weighted by alpha if and only if the weighted sum does too |
| Resample.SmallWindowAverage | src/lib.rs:140-145 | windows of at most 66051 pixels always give these averages; a window with nothing visible gives black |
| Resample.ColourStaysBetween | src/lib.rs:140-145 | such a colour lies between the least and the greatest colour of the visible pixels of the window |
| Resample.WhiteTurnsBlack | src/lib.rs:128-145 | a window of opaque white pixels comes out white if and only if it has at most 66051 of them, and 66052 come out black |
| Resample.EnlargingCopiesPixels | src/lib.rs:120-149 | enlarging copies source pixels, and equal sizes keep every visible pixel where it is |
| Resample.Place | src/lib.rs:103-110 | each row of the canvas is transparent, or a row of the art between transparent margins; every row copied is in range |
| AllocCounters.StepKeepsCount | src/alloc_count.rs:30-61 | every atomic update, in any interleaving, keeps the live counter at the bytes in hand, in calls under way and lost to failures, modulo 2^64 |
| AllocCounters.LiveIsTheBytesInHand | src/alloc_count.rs:41-61 | while allocations succeed, the live counter equals the bytes in hand when no call is under way and never underflows |
| AllocCounters.FailuresDrift | src/alloc_count.rs:40-51 | with failing calls it is off by exactly what they asked for less what they would have replaced |
| AllocCounters.PeakIsRightExactlyWhenWatched | src/alloc_count.rs:53-73 | from any state the peak is, in every continuation and whenever no call is between counting and reporting, the most that was live, if and only if nobody is about to report more and the most is in the peak or about to be reported |
| AllocCounters.ResetIsRightExactlyWhenWatched | src/alloc_count.rs:71-73 | a reset that loads and then stores, with any steps of other threads in between, gives the right peak in every continuation if and only if the state after the store is so watched |
| AllocCounters.QuietResetIsWatched | src/alloc_count.rs:71-73 | a reset nothing comes between, while no call is about to report, always does |
| AllocCounters.ResetsCanRace | src/alloc_count.rs:71-73 | a reset whose load and store surround an allocation forgets it |
| AllocCounters.LateReportBringsBackAPeak | src/alloc_count.rs:53-73 | a call that counts before a reset and reports after it leaves a peak of 150 although 100 was live ever since |
| AllocCounters.FailedShrinkUnderflows | src/alloc_count.rs:46-50 | a failed reallocation to a smaller size makes the live counter underflow |
| OrderMemory.KeysDiffer | src/host/mcp_host.rs:2023-2025 | the composed text key is injective |
| OrderMemory.Memory.Recall | src/host/mcp_host.rs:2028-2038 | finds the record of the key |
| OrderMemory.Memory.Forget | src/host/mcp_host.rs:2041-2044 | drops the records of the key and keeps the others in order |
| OrderMemory.Memory.Remember | src/host/mcp_host.rs:2047-2060 | replaces the record of the key and drops the oldest at 512 |
| OrderMemory.RememberedIsTidy | src/host/mcp_host.rs:2047-2060 | never more than 512 records, one per key |
| OrderMemory.PlacePaperOrder | src/host/mcp_host.rs:2112-2167 | the whole call: answer, memory and orders for every combination of record, dry run and engine answer |
| OrderMemory.CallsAnswerForWhatTheyDo | src/host/mcp_host.rs:2112-2167 | for every call in every state: an account run elsewhere or an order on record changes nothing, a dry run answers whether the order passes the check and submits nothing, and the orders change only by a call answered as placed or rejected |
| OrderMemory.RecordsAreOfPlacedOrders | src/host/mcp_host.rs:2112-2167 | a record appears only for a placed order, and another call drops just its own, if its order is gone |
| OrderMemory.OrdersStayUnlessSubmitted | src/host/mcp_host.rs:2146-2155 | over every run the orders stay what they were while no call is answered as placed or rejected, as in every run of dry runs and refused accounts |
| OrderMemory.RetriesAreSafe | src/host/mcp_host.rs:2112-2141 | while fewer than 512 other ids were remembered, a repeated request stands for the very order first placed if and only if no step has removed it since; then the same request names it, another is refused, and nothing changes |
| OrderMemory.FullMemoryForgets | src/host/mcp_host.rs:2047-2060 | the bound is exact: 512 records under new keys push out every older one |
| OrderMemory.ReusedNumberAnswersARetry | src/model/paper_engine.rs:24-43 | an order number that was freed and used again: the retry of the first order is answered with the second |
| PortfolioLedger.EditsKeepHistorySound | src/model/portfolio_ledger.rs:91-369 | no edit leaves a stored point that was computed from other transactions than it depends on now |
| PortfolioLedger.EditsDoWhatTheyAsk | src/model/portfolio_ledger.rs:91-338 | an accepted edit leaves, told by ids, exactly the transactions it asks for: added, imported, copied, replaced, rebound or deleted, and all others as they were |
| PortfolioLedger.EditsMarkWhatTheyChange | src/model/portfolio_ledger.rs:91-369 | an edit drops exactly the points from the times on at which it changes something, and marks each portfolio from the earliest of them |
| PortfolioLedger.EditsAreAcceptedExactly | src/model/portfolio_ledger.rs:190-338 | an edit is accepted if and only if the portfolios and the transaction it names are there and the outcome can be replayed |
| PortfolioLedger.ListsChangeAsAsked | src/model/portfolio_ledger.rs:41-180 | the list of portfolios and the selection change only as an edit of them says |
| PortfolioLedger.DeletedPortfoliosLeaveNothing | src/model/portfolio_ledger.rs:164-180 | a deleted portfolio takes its points and its mark along, and no other's |
| PortfolioLedger.FingerprintTells | src/model/portfolio_history.rs:53-71 | equal fingerprints mean equal transactions in any order, provided that edits show in what is covered |
| PortfolioHost.Host.constructor | src/host/portfolio_host.rs:95-120 | loading: the stored ledger, or an error that blocks every write until a read succeeds |
| PortfolioHost.HostsStartAsStored | src/host/portfolio_host.rs:92-120 | a host starts with what is stored, or empty and failed |
| PortfolioHost.ReloadsShowTheStore | src/host/portfolio_host.rs:125-151 | a reload that can be read shows the store, ends an earlier failure and repairs the selection; one that cannot changes nothing |
| PortfolioHost.EditsTakeEffect | src/host/portfolio_host.rs:431-458 | an edit that is accepted and written is what memory and store both hold; any other leaves both as they were |
| PortfolioHost.SelectionsTakeEffect | src/host/portfolio_host.rs:232-250 | a selection of a portfolio that is there, once written, is made in both and changes nothing else |
| PortfolioHost.StretchesTakeEffect | src/host/portfolio_host.rs:404-430 | a stretch that is written replaces the points from its start in both and takes the mark off; nothing else changes |
| PortfolioHost.Host.Mutate | src/host/portfolio_host.rs:431-458 | whatever the store holds, an edit ends in memory and store or in neither |
| PortfolioHost.Host.Select | src/host/portfolio_host.rs:232-248 | a selection is saved alone and only then shown |
| PortfolioHost.Host.StoreSnapshots | src/host/portfolio_host.rs:404-421 | only the stretch and the marks are written, and a success dismisses no earlier error |
| PortfolioHost.OperationsMirror | src/host/portfolio_host.rs:404-458 | every operation keeps memory and store alike, writing only a stretch too; a saved edit or a successful read makes them alike whatever they were |
| PortfolioHost.Host.AcceptRebuilt | src/host/portfolio_host.rs:377-399 | a rebuild is stored only if its fingerprint is that of the current transactions |
| PortfolioHost.Host.Reload | src/host/portfolio_host.rs:129-151 | re-reads a ledger that sync has changed and repairs a selection that is gone; a failed read leaves memory alone and blocks nothing |
| PortfolioHost.PortfolioStore.ReplaceHistory | src/store/portfolio.rs:48-77 | replaces one portfolio's points from a time on, and the marks |
| PortfolioRuns.SoundExactlyWhenSettled | src/host/portfolio_host.rs:377-421 | any edit, start, read and sync keeps every point computed from exactly what it depends on now; storing a rebuild does if and only if the store has, for its days, the transactions memory has |
| PortfolioRuns.HistoryStaysSound | src/host/portfolio_host.rs:157-421 | over every interleaving of edits, rebuilds and syncs, read or not: the history in memory and store is sound in every state if and only if each rebuild is stored so |
| PortfolioRuns.ReadableSyncsSettle | src/host/portfolio_host.rs:129-151 | while every sync can be read, it always is |
| PortfolioRuns.UnreadSyncTakesAnOldResult | src/host/portfolio_host.rs:129-151 | a run in which a rebuild is stored beside a transaction it does not know, and clears the mark sync left |
| PortfolioRuns.UnreadLedgerSurvives | src/host/portfolio_host.rs:431-458 | a ledger that sync stored and a reload could not read survives a run, whatever it holds, if and only if no edit of the run is saved; after a failed load none is |
| PortfolioRuns.UnreadTransactionIsWiped | src/store/portfolio.rs:79-130 | a run in which another Mac's transaction, unread, is written away by the next edit |
| PortfolioRuns.SilentEditIsNotNoticed | src/model/portfolio_history.rs:53-71 | an edit the fingerprint does not cover lets a result for the old version in |
| PortfolioRuns.DeletedPortfolioTakesNoResult | src/host/portfolio_host.rs:377-399 | a rebuild that outlives its portfolio is dropped |
| PortfolioDays.RebuildsStartWhereTheyShould | src/model/portfolio_history.rs:73-103 | a rebuild starts at the day of the mark but no later than today, or without a mark the day after the last point if it has come, or without points the day of the first transaction, and else nowhere |
| PortfolioDays.AwaitedIsRebuilt | src/model/portfolio_history.rs:73-103 | a missing day inside the stale mark, or after all points, is filled by whatever rebuild starts on it or later; any other missing day by none that starts after it |
| PortfolioDays.FilledIsKept | src/host/portfolio_host.rs:404-421 | a stored stretch leaves no missing day outside the marks if and only if every day before it that should have a point has one and keeps it |
| PortfolioDays.EditedIsKept | src/model/portfolio_ledger.rs:340-369 | an edit leaves no missing day outside the marks if and only if each new mark is no later than the first day after all points |
| PortfolioDays.EditLosesOnlyMarked | src/model/portfolio_ledger.rs:91-369 | whatever the edit, a day outside the marks that is missing afterwards was missing before |
| PortfolioDays.KeptExactlyWhenReaching | src/host/portfolio_host.rs:377-458 | the same for every step of host and sync, as an if-and-only-if |
| PortfolioDays.DaysStayKept | src/host/portfolio_host.rs:157-458 | over whole runs no day is ever missing outside the marks if and only if every new mark and every stored stretch reaches |
| PortfolioDays.UndisturbedRebuildReaches | src/model/portfolio_history.rs:73-103 | a rebuild that starts where it should and that no edit overtakes forgets no day |
| PortfolioDays.RebuildForgetsADay | src/host/portfolio_host.rs:377-421 | a run that loses a day for good: a transaction is added and deleted again during a rebuild, whose result still fits |
| PortfolioDays.EditForgetsADay | src/model/portfolio_history.rs:73-103 | a run that loses a day for good: after two days away a purchase of today is entered before the missed days are built |
| PaperHost.Host.constructor | src/host/paper_host.rs:109-152 | loading: the stored ledger without quotes, or an error |
| PaperHost.Host.ApplyFor | src/host/paper_host.rs:522-592 | an operation, its save, the takeover of a foreign account and the publication, with every way they can fail |
| PaperHost.Host.ProcessQuote | src/host/paper_host.rs:369-434 | a quote is kept in memory, and saved only if it changed the ledger |
| PaperHost.Host.Reload | src/host/paper_host.rs:158-186 | re-reads the ledger, keeps live quotes and repairs the selection |
| PaperHost.PaperStore.Save | src/host/paper_host.rs:546-568 | the owner is cleared with the save and put back if it fails |
| PaperHost.LedgerIsMirrored | src/host/paper_host.rs:158-592 | over every run of operations, quotes and syncs, memory is in every state what is stored if and only if no sync brought a new ledger that could not be read |
| PaperHost.UnreadLedgerSurvives | src/host/paper_host.rs:183-592 | a ledger that sync stored and a reload could not read survives a run, whatever it holds, if and only if the run stores none |
| PaperHost.UnreadSyncIsWiped | src/host/paper_host.rs:183-592 | whatever another Mac stored, unread, the next operation here replaces |
| PaperHost.UnreadLedgerIsLeftAlone | src/host/paper_host.rs:370-373 | after a load that failed nothing is written |
| PaperHost.FailuresChangeNothing | src/host/paper_host.rs:546-572 | what is not published changes neither ledger, memory nor revision; the owner stays too, exactly unless he was cleared and could not be put back |
| PaperHost.OperationsTakeEffect | src/host/paper_host.rs:522-592 | what an operation leaves is stored and shown if and only if it is sound and every write it needs succeeds, and only the account it acts on changes hands |
| PaperHost.QuotesTakeEffect | src/host/paper_host.rs:369-434 | an older quote does nothing, any other is noted, and if an order awaits it what the evaluation leaves is kept and stored, or nothing happens when it is unsound or cannot be stored |
| PaperHost.HostsStartMirrored | src/host/paper_host.rs:109-152 | a host starts as the store has it, without quotes, or empty and failed |
| PaperHost.ReloadsShowTheStore | src/host/paper_host.rs:158-186 | a reload that can be read shows the store, keeps live quotes and selects an account that is there |
| PaperHost.TakeoversAreDeliberate | src/host/paper_host.rs:536-545 | a foreign account is taken over only by a published operation on it that succeeded or changed something |
| PaperHost.OnlyOwnOrdersFill | src/model/paper_engine.rs:379-405 | a quote is evaluated only against working orders of accounts this Mac runs |
| PaperHost.SparedExactlyWhenKnown | src/host/paper_host.rs:369-394 | for all books, quotes and orders of listed accounts, no order of an account another Mac runs is evaluated, if and only if every owner is known |
| PaperHost.StepSparesExactly | src/host/paper_host.rs:146-186 | operations and quotes keep every owner known, whichever writes fail; a sync does if and only if its reload learns them |
| PaperHost.OthersStaySpared | src/host/paper_host.rs:146-592 | over whole runs other Macs' orders are left alone in every state if and only if each sync's owners are learned |
| PaperHost.UnreadOwnersAreIgnored | src/host/paper_host.rs:146-152 | if the owners cannot be read, a working order of another Mac's account in the book is evaluated as well |
| PaperHost.PaperPanel.View | src/host/paper_host.rs:964-975 | the cached view, rebuilt when revision or selection moved on |
| PaperHost.PanelListsTheSelected | src/host/paper_host.rs:616-667 | the panel lists exactly what belongs to the selected account, its working orders only, and every account by name |
| PaperHost.ViewsAreOfTheSelected | src/host/paper_host.rs:964-975 | whatever was cached, the view handed out is of the selected account and the current revision |
| PaperHost.StepsBump | src/host/paper_host.rs:369-592 | a step that changes anything the panel lists moves the revision by one |
| PaperHost.CachedViewIsCurrent | src/host/paper_host.rs:616-667 | over any run of fewer than 2^64 changes, a cached view that is handed out is what building it anew would give |
| PaperHost.WrappedRevisionHidesAChange | src/host/paper_host.rs:210-214 | at exactly 2^64 changes an old view passes for a new one |
| McpHost.Host.constructor | src/host/mcp_host.rs:132-160 | fails closed: what cannot be read leaves no client and no permission |
| McpHost.Host.EditClients | src/host/mcp_host.rs:402-466 | the edited list is saved and then published, or neither; the shown token follows |
| McpHost.Host.ReplaceGlobal | src/host/mcp_host.rs:474-484 | global permissions are saved and then published, or neither |
| McpHost.Host.SaveUsage | src/host/mcp_host.rs:215-237 | last-used times are saved, or remembered as unsaved |
| McpHost.McpShared.Match | src/mcp/state.rs:225-238 | every verifier is compared; the last match counts |
| McpHost.McpShared.Confirm | src/mcp/state.rs:240-250 | the client must still be listed with the verifier that matched |
| McpHost.EditsListClients | src/host/mcp_host.rs:296-329 | only revoking takes a client off the list and only creating puts one on |
| McpHost.EditsChangeTheirClient | src/host/mcp_host.rs:296-329 | creating, revoking and setting permissions do that to the client named and leave every other as it is |
| McpHost.NeverMoreThanSixteen | src/host/mcp_host.rs:424-435 | over every interleaving there are never more than sixteen clients, and a list with fewer takes another |
| McpHost.PublishedIsSaved | src/host/mcp_host.rs:402-484 | in every interleaving, at rest the published clients and permissions are the saved ones but for last-used times, and a shown token belongs to a listed client |
| McpHost.FailedWritePublishesNothing | src/host/mcp_host.rs:402-420 | a failed write publishes nothing |
| McpHost.UnreadableIsNeverWritten | src/host/mcp_host.rs:289-295 | after a failed load nothing is ever written, published or let in |
| McpHost.IdentityHasTheVerifier | src/mcp/state.rs:225-250 | whoever is let in is listed at that moment with the presented verifier |
| McpHost.TokensAreLetInWhileListed | src/mcp/state.rs:225-250 | a token some client has is let in if and only if that client still has it at the second look, whatever happens in between; a token no client has is refused at once |
| McpHost.UsesAreSavedOrDue | src/host/mcp_host.rs:215-237 | over every interleaving, unless a use is still marked to be saved, what is saved is what is published, use times and all |
| McpHost.RevokingTakesEffect | src/host/mcp_host.rs:457-466 | publishing a revocation leaves the client on no list and hides its token |
| McpHost.RevocationRuns | src/host/mcp_host.rs:402-466 | from the request to the publication, whatever authenticates meanwhile, a revocation that is saved ends with the client on no list and its token hidden |
| McpHost.RevokedStaysOut | src/mcp/state.rs:216-250 | a revoked client stays out, also for an authentication that was half done |
| McpHost.EditsGoThrough | src/host/mcp_host.rs:402-466 | undisturbed, an edit that may be made and can be written ends saved and published |
| SyncCoordinator.Coordinator.Start | native/swift/Coordinator.swift:107-131 | a new engine with nothing staged |
| SyncCoordinator.Coordinator.Stage | native/swift/Coordinator.swift:179-215 | staging replaces what was staged and pending for the same records |
| SyncCoordinator.Coordinator.NextBatch | native/swift/Coordinator.swift:374-385 | a batch holds the records of exactly those pending saves that are staged as saves, each as staged now, and exactly the pending deletions |
| SyncCoordinator.Coordinator.SentRecordZoneChanges | native/swift/Coordinator.swift:332-372 | each outcome answers the staged change of its record and takes it off; failures are withdrawn |
| SyncCoordinator.Coordinator.AccountChanged | native/swift/Coordinator.swift:277-279 | an account change leaves nothing staged |
| SyncCoordinator.Coordinator.Stop | native/swift/Coordinator.swift:254-259 | stopping leaves nothing staged |
| SyncOutbox.Outbox.Enqueue | src/store/sync.rs:814-846 | queueing replaces the record's row and numbers it anew |
| SyncOutbox.Outbox.Acknowledge | src/store/sync.rs:1147-1151 | an acknowledged upload leaves the queue by its number |
| SyncOutbox.QueueingKeepsTheNewest | src/store/sync.rs:814-846 | one row per record however often it is queued, and acknowledging an older upload never takes away what was queued since |
| SyncOutbox.Pump | src/sync/core.rs:492-519 | the stage command made from the due rows: what waits is skipped, at most a hundred go |
| SyncOutbox.FirstOfAllGo | src/sync/core.rs:492-519 | a command takes the first hundred of everything that could go out; nothing that could is passed over |
| SyncOutbox.CommandsNameRecordsOnce | src/sync/core.rs:472-519 | no stage command names a record twice, or one that is on its way, or a change that is not due |
| SyncRuns.StepKeepsSound | native/swift/Coordinator.swift:48-54 | the invariant of every step: names, operations, batch and numbering agree |
| SyncRuns.StagingAgreesExactlyWithOneOp | native/swift/Coordinator.swift:191-214 | only what is staged stays pending exactly when a command has one kind of change per record |
| SyncRuns.AnswersAreTrue | native/swift/Coordinator.swift:332-372 | every reported save, deletion or failure names the change staged when the batch was built, and is of its kind |
| SyncRuns.FailedIsWithdrawn | native/swift/Coordinator.swift:366-368 | after a failure nothing is pending for the record |
| SyncRuns.ReportsSettleTheirRecords | native/swift/Coordinator.swift:332-372 | a report settles exactly the records it names: each still staged is answered and no longer staged, a success is no longer pending, all others are as they were |
| SyncRuns.CommandsGoThrough | native/swift/Coordinator.swift:179-385 | from any idle coordinator with nothing staged or pending, every change of a command is in the next batch, and when all have succeeded each was answered once and nothing is left staged or pending |
| SyncRuns.EachStagingIsAnsweredOnce | native/swift/Coordinator.swift:107-131 | over every run each staging is answered at most once; start, stop and account change leave nothing to answer |
| SyncRuns.AccountsStayApart | native/swift/Coordinator.swift:179-190 | a step keeps staged changes with their own account if and only if it does not stage for an account that changed since the check |
| SyncRuns.AccountsStayApartThroughout | native/swift/Coordinator.swift:179-190 | over whole runs no account gets another's changes if and only if none signed in between a check and its staging |
| SyncRuns.ChecksKeepAccountsApart | native/swift/Coordinator.swift:179-190 | a command for another account than the one signed in is not staged, and over every run in which nobody signs in between a check and its staging, what is staged is always the signed-in account's |
| SyncRuns.StartsAndStopsClear | native/swift/Coordinator.swift:107-131 | a start has what the last engine left pending, a stop and another account have nothing, and nothing stays staged |
| SyncRuns.SwitchDuringStaging | native/swift/Coordinator.swift:179-190 | a run in which changes are staged for the account that signed in meanwhile |
| EditorFont.Inner.constructor | src/host/editor_theme_host.rs:400-428 | the host starts by following the saved choices |
| EditorFont.Inner.UseFont | src/host/editor_theme_host.rs:202-219 | a font is given to the context unless it has it already |
| EditorFont.Inner.SyncFont | src/host/editor_theme_host.rs:232-291 | makes the font follow the wanted family |
| EditorFont.Inner.PollFonts | src/host/editor_theme_host.rs:295-337 | takes the replies, late and repeated ones too |
| EditorFont.Inner.Change | src/host/editor_theme_host.rs:193-199 | a change takes effect at once and schedules a save |
| EditorFont.Inner.Flush | src/host/editor_theme_host.rs:346-366 | saves what can be saved and stays scheduled for the rest |
| EditorFont.Inner.Tick | src/host/editor_theme_host.rs:446-457 | fonts that were read, and changes 400 ms old |
| EditorFont.Inner.Reload | src/host/editor_theme_host.rs:461-472 | reads what sync brought unless something is unsaved |
| EditorFont.HostStartsSound | src/host/editor_theme_host.rs:400-428 | the invariant holds at the start, whatever was saved |
| EditorFont.UsedFontIsWanted | src/host/editor_theme_host.rs:193-337 | however choices, scan and replies interleave, a font said to be used is installed and wanted |
| EditorFont.StaleReplyInstallsNothing | src/host/editor_theme_host.rs:295-316 | a reply for a family not wanted installs no font of its own |
| EditorFont.FontConverges | src/host/editor_theme_host.rs:295-337 | once fonts are listed and no read is outstanding, nothing is loading and the status names the wanted family |
| EditorFont.FontIsWhatWasRead | src/host/editor_theme_host.rs:193-337 | over every interleaving of choices, scans, threads and replies, once nothing is outstanding: the wanted family is missing exactly if not listed, used from its file exactly if listed and readable, failed exactly if listed and not, while threads could be started; the context has what the status says |
| EditorFont.ThemesChooseFirst | src/model/editor_theme/typography.rs:155-170 | the chosen theme's own font goes before the preference, and its "System Mono" is the system's font |
| EditorFont.ReadsOnlyWhatItMust | src/host/editor_theme_host.rs:232-291 | a file is read if and only if its family is wanted, listed, not settled yet and not being read |
| EditorFont.RepliesSettle | src/host/editor_theme_host.rs:295-337 | the awaited reply settles the wanted family at the next look: used if the read ended well and failed if not, with no further read |
| EditorFont.UnsavedIsScheduled | src/host/editor_theme_host.rs:346-366 | unsaved edits always have a save scheduled |
| EditorFont.SavesWriteOrKeep | src/host/editor_theme_host.rs:346-366 | a save writes each unsaved half or keeps it unsaved, exactly if it may not be written or writing failed, and then stays due |
| EditorFont.FramesSaveAfterAMoment | src/host/editor_theme_host.rs:446-457 | a frame saves only what has been left alone for 400 ms, and an edit puts that off |
| EditorFont.EditsAreNeverDiscarded | src/host/editor_theme_host.rs:461-472 | no reload or save discards an unsaved edit |
| EditorFont.MirroredExactly | src/host/editor_theme_host.rs:461-472 | what is saved is what is shown, after a sync exactly when nothing was unsaved or the clean half was not touched |
| EditorFont.MirroredThroughout | src/host/editor_theme_host.rs:346-366 | over every run of edits, frames and syncs, what is saved is in every state what is shown if and only if each sync met nothing unsaved or left the clean half alone |
| EditorFont.StoredThemesSurvive | src/host/editor_theme_host.rs:461-472 | over every run without syncs the stored themes survive, whatever they are, if and only if no frame saves themes |
| EditorFont.UnreadThemesAreKept | src/host/editor_theme_host.rs:346-366 | themes that came with some that could not be read survive every edit and frame until the next sync |
| EditorFont.SyncedThemeCanBeUndone | src/host/editor_theme_host.rs:461-472 | a theme that arrived while a preference was unsaved is written over by the next theme edit |

## Left out

- Drawing, windows, menus, sheets and notices: rendering, nothing to prove.
- SQLite, the keychain, file locks, HTTP, CloudKit and threads themselves: a write succeeds or fails as a
  whole, a lock has one holder, a read of a font ends in one reply, and CloudKit reports on what its batch held.
- Wall clocks: time is a parameter of every step.
- Prices, quantities and volumes are exact numbers; NaN, infinities and floating-point rounding are not modelled.
- 64-bit overflow of times, sizes and sums is not modelled, except the saturating differences of the alert
  runtime, the wrapping sums of the resampler, the wrapping allocation counters and the wrapping revisions.
- Deliveries: notifications, webhooks, Pine script alerts, the unseen counter, and the delivery records they
  leave on stored events; catch-up quotes after sleep.
- Muting is a parameter of judging. The original also moves the revision, and forgets the last price of an alert
  that is switched on again, whenever the muted alerts change (src/model/alert_engine.rs:65-79); a reload sets them
  anew, so a follower that mutes an alert stands one revision ahead of the snapshot it read, and passes over one
  that is newer by a single heartbeat.
- AlertRuntime.AlertHost.ReloadFromStore: does not set the muted alerts, nor feed the unseen counter.
- AlertRuntime.AlertHost.DrainCommands: does not set the muted alerts first.
- AlertCrossing.Alerts.Process: fired alerts are listed in the order of the alerts, while the original goes through
  their ids in ascending order; the ids of events are left to the runtime.
- AlertLosses.TakeoverIsSafeExactlyWhenFollowing: the tick's heartbeat and judgement are taken to be ones that were not
  stored before.
- AlertPlay.PlayIsARun: commands are queued between plays, as the protocol lets anybody queue at any time.
- AlertRuntime.AlertRuntimeRunner.Tick: the quote revision is part of the judging function, which may answer that
  nothing changed; records of deliveries, which dirty the snapshot as well, are left out.
- Elf.GlibcNeeds: Python's int() and str.isdigit() are parameters, fixed only on at most 4300 ASCII digits where the
  result needs it; files of 2^62 bytes and more are outside Elf.OverflowsExactlyAtHugeOffsets.
- ElfImage.MakeElf: lone surrogates, which Python text may hold and UTF-8 may not, are not characters here.
- Resample.ResampleRgba: requires that no window has a multiple of 2^32 pixels, where the original divides by zero;
  the rounding of icon corners and of the art's size is left out.
- AllocCounters.LiveIsTheBytesInHand: each counter is one atomic word and calls take their steps in program order;
  relaxed ordering between different counters is not visible in what is proved.
- OrderMemory.RetriesAreSafe: an order that was removed is taken not to come back.
- OrderMemory.PlacePaperOrder: the engine's answer and the orders that exist afterwards are parameters; fills and
  bracket orders in the reply are left out.
- PortfolioLedger.EditsKeepHistorySound: whether an edit can be replayed is a parameter, ids are taken to be unique,
  and a portfolio's base currency is not part of a point's basis; the list a description leaves is a parameter.
- PortfolioLedger.FingerprintTells: the hash is taken as collision-free.
- PortfolioDays.AwaitedIsRebuilt: days are those of a zone with a constant offset.
- PortfolioDays.DaysStayKept: is about runs in which each rebuild is stored while memory mirrors the store, which holds
  while every sync can be read (PortfolioDays.ReadableSyncsKeepTogether).
- PortfolioRuns.HistoryStaysSound: a sync is a sequence of additions, updates and deletions with the marks of its own
  rule; where a retry for an unpriced asset starts is a parameter, and pauses between rebuilds are left out.
- PaperHost.Host.ApplyFor: the engine's operations, its evaluation of orders and the integrity check are parameters.
- McpHost.PublishedIsSaved: the server's sockets, rate limits, generations and the activity log are left out.
- SyncCoordinator.Coordinator.Stage: malformed entries of a command are skipped before the model starts.
- SyncRuns.AnswersAreTrue: reports are about the batch built last, as commands run one at a time.
- EditorFont.Inner.SyncFont: colours, sizes, the tidying of font names and the parsing of theme files are left out; a
  thread that dies without a reply is not modelled.
- Snapshot jobs, the thinning of equity curves, the grouping of thousands, CSV and file dialogs, Pine itself: easy
  members or separate programs.
