# ChannelBin, modelled and proved in Dafny

ChannelBin is a DVR. This project models the logic in it that carries state from one run to the
next, and proves what its documentation promises about it. `dafny verify dfyconfig.toml` checks
everything. Times are integers; a database transaction is one step and a crash before its commit
is no step; tables are sequences, sets and maps.

| part | files | what is modelled |
|---|---|---|
| Auto-record rules | `RuleModel`, `RuleJudge`, `RulePass`, `RulePrograms`, `RuleEngine`, `RetrackModel`, `Retrack`, `RuleAgain`, `RuleLaws`, `RetrackLaws`, `Claim` | slots and program identities, the four checks as a pass over growing state, the index and judge objects that compute it, the ledger following the guide, the revision claim |
| Account stats | `LedgerFold`, `StatsLedger`, `StatsFold`, `StatsRun`, `StatsExact`, `StatsParts`, `StatsRace`, `StatsWorth`, `LedgerLaws`, `Calendar`, `Trend`, `TrendLaws` | the fold behind three watermarks, whole runs of it, what parts it from a rebuild, the trend's calendar buckets |
| Connection seats | `SlotSum`, `Seats`, `FreeSeat`, `SeatSearch`, `SeatWindow`, `SeatLaws` | blocks spread over ordered shared login pools, sibling reads, the first free instant, what a windowed answer is worth |
| Stream URLs | `UrlSplit`, `StreamUrl`, `UrlRender`, `UrlAlgebra`, `LoginFields`, `UrlLaws` | the split of RFC 3986 section 3, three spellings, the host and login splicers |
| Hosts, logins, providers | `HostList`, `ProviderModel`, `Providers`, `ProviderLaws` | the host list and its roll, logins shared inside one provider |
| Hiding | `Hiding`, `HideStats`, `HideLaws` | rules resolved over a scope against rules asked row by row, the steps that move their inputs, the derived counts |
| Guide import, check window | `EpgImport`, `CheckWindow` | the projected count against the writer, midnight-crossing windows |

A mutable object of the program is a class here, and its methods are proved against functions on
values; the properties are lemmas about those functions, over every state, run or input. The files
named `...Laws`, and `StatsWorth`, say what those functions answer in terms of the rows, times,
statuses and characters alone, without the functions they are made of: which program is recorded,
which listing is nearest, what each column of a day counts, when an account is full, how a URL is
spelled.

## What the code does not keep

Twelve of the properties one would state first are false of the code. Each is replaced by the
condition under which it does hold, with an input or a run where it fails.

- A rule can record an untitled listing beside a recording of that very listing, on the same channel
  with its start moved: without a title there is no identity to look up
  (`UntitledExistingIsCoverage`, `UntitledProgramsCanDouble`).
- The windowed answer to "which accounts are fully blocked" adds up blocks that never meet. It is
  some instant's answer, whatever the seats and whoever shares them, exactly when at some instant the
  blocks take the account whole or ask every account for what they ask in the window
  (`WindowIsExactWhenAskedAtOnce`, `WindowCanOverstate`, `SharersCanBeOverstated`); it is never too
  small (`WindowCoversItsInstants`).
- Deleting a channel parts the stats ledger from a rebuild exactly when a passed row counted on it
  (`DropChannelPartsExactly`), and a recording then counts again (`RecountedAfterDrop`,
  `RecordingCanCountTwice`). The design wants the counts of deleted rows kept; counting a recording
  twice is a side effect of it.
- So does pruning, exactly when it takes a passed row that counted (`PrunePartsExactly`), and closing
  a segment passed while it was open, unless it adds no stall and no capture - which is how the
  startup sweep closes it (`ClosingPartsExactly`). `EachCanPart` is a run to each of the three.
- `recording_segments` has no AUTOINCREMENT (app/database.py:1641), so once the newest counted
  segments are pruned the next segment takes an id the watermark has passed and is never counted
  (`NextSegmentIsLost`, `NextSegmentCanBeLost`).
- The first unfinished id and the rows below it are read in two statements. When the first finds
  none, a segment or test opened in between is passed while it runs (`ReadsOnlyFinishedExactly`,
  `OpenRowPassed`).
- Rewriting stored URLs after a roll differs from a fresh sync when the provider spells the new
  host in capitals (`RollEqualsFreshSync`, `OddUrlsPart`).
- Adding a host strands the URLs already on it until the next activation or sync
  (`AddStrandsExactly`, `AddCanStrand`, and on the first add `SeedStrandsExactly`, `SeedCanStrand`),
  though the table's comment says every listed URL carries the active one.
- Activating a host that was removed meanwhile leaves a non-empty list with nothing active
  (`ActivateExactly`, `ActivateCanLeaveNone`).
- Editing a shared login checks only the account it is edited from
  (`UpdateKeepsUsernamesExactly`, `UpdateCanDoubleAUsername`).
- Two holders that unshare a login at once delete it when nobody else holds it: the check and the
  removal are two units (`CrossedUnsharesDeleteExactly`, `UnsharesCanCross`).
- Hide rules resolved over a scope too narrow un-hide channels (`ResolvedAnswersExactly`,
  `NarrowUnhides`, `NarrowCanUnhide`), as the code's own comment warns.

## Model

| member | source | states |
|---|---|---|
| `RuleModel.FateDecidesBothQuestions` | app/auto_rules.py:487-551 | a pick a group change aborted neither blocks replays nor holds a slot; a failed one only holds its slot; the two answers differ in the other direction in two named cases only |
| `RuleLaws.WantedIsSpokenFor` | app/auto_rules.py:96-98 | scheduled, being recorded, or recorded: just these statuses speak for a program |
| `RuleModel.IdentityStable` | app/auto_rules.py:465-484 | the identity a slot gives reads back as itself |
| `RulePass.BlockedStaysBlocked` | app/auto_rules.py:1360-1421 | all four checks are monotone: what one refuses stays refused as the library and the picks grow |
| `RulePass.PassSettles` | app/auto_rules.py:1150-1219 | after a pass, judging any of its programs again would record nothing |
| `RulePass.EvaluationIsIdempotent` | app/auto_rules.py:1150-1219 | judging again what a pass left schedules nothing, also after other recordings were added meanwhile |
| `RulePass.LimitCheckIsExact` | app/auto_rules.py:1400-1413 | testing only windows that open at a pick or at the showing refuses it iff some window around it is over the count |
| `RulePass.PassKeepsLimit` | app/auto_rules.py:1400-1413 | after a pass every window around a showing it picked holds at most `count` counting picks |
| `RulePass.PassNeverDoubles` | app/auto_rules.py:1370-1380 | a pass leaves a titled program's recordings as they were or makes the only one |
| `RulePass.UntitledExistingIsCoverage` | app/auto_rules.py:1294-1326 | for an untitled program the existing check is exactly "some recording covers a showing on its channel or group" |
| `RulePass.UntitledProgramsCanDouble` | app/auto_rules.py:1370-1380 | an input where a pass records an untitled listing a second time, its recording standing on the same channel from a later start |
| `RulePass.PassPicksOneAiring` | app/auto_rules.py:1382-1398 | with skip-repeats on, one pass picks at most one airing per title and episode |
| `RulePass.PassStaysUnderCap` | app/auto_rules.py:1415-1421 | the rule's scheduled count never shrinks in a pass, and ends unchanged or within the cap |
| `RulePass.PassKeepsSlots` | app/auto_rules.py:465-484 | the rows and recordings a pass adds list no new episode in any slot |
| `RulePrograms.GroupPrograms` | app/auto_rules.py:1264-1276 | the grouping loop computes the program list its lemmas speak of |
| `RulePrograms.ProgramsExact` | app/auto_rules.py:1264-1276 | programs are distinct, in start order, each under the identity its slot gives and led by a showing found |
| `RulePrograms.EveryShowingInAProgram` | app/auto_rules.py:1264-1276 | every showing is in a program whose lead sorts no later |
| `RulePrograms.NoShowingInTwoPrograms` | app/auto_rules.py:1264-1276 | and in no second one |
| `RulePrograms.ReevaluationRecordsNothing` | app/auto_rules.py:1150-1219 | slots read afresh, showings grouped and programs judged again record nothing, from the state a later evaluation reads: each new recording under its listing's own episode, which may be none |
| `RuleAgain.ReevaluationChangesNothing` | app/auto_rules.py:1105-1219 | and the fill-in and the retrack before that change nothing: no episode is left to fill in, and no pick is gone when the planner can place what the search finds |
| `RuleAgain.GoneOnlyForTheUnplaceable` | app/auto_rules.py:1618-1637 | after a pass a pick is gone only to a program the planner could not place |
| `RuleEngine.LibIndex.Add` | app/auto_rules.py:1294-1307 | the four index dicts hold exactly the spoken-for recordings added, under the keys looked up |
| `RuleEngine.LibIndex.CoveredOn` | app/auto_rules.py:1312-1319 | true iff some indexed recording on the channel or group covers the showing |
| `RuleEngine.Judge.CheckExisting` | app/auto_rules.py:1370-1380 | the indexed check answers as the one over the whole library |
| `RuleEngine.Judge.CheckRepeat` | app/auto_rules.py:1382-1398 | likewise for replays |
| `RuleEngine.Judge.CheckLimit` | app/auto_rules.py:1400-1413 | likewise for the sliding window, counting starts in a list against distinct picks |
| `RuleEngine.Judge.Verdict` | app/auto_rules.py:1360-1368 | the checks in order give the stated verdict |
| `RuleEngine.JudgeRule` | app/auto_rules.py:1150-1219 | the loop, with its skips written together at the end, leaves exactly the state of the pass |
| `RuleLaws.DecidesExactly` | app/auto_rules.py:1150-1219 | a program is recorded iff no row settles it, nothing wanted is of it or runs over it, it is no replay, every stretch of the limit around it has a place left, the cap is not reached and its lead can be placed; each refusal names the first of these to fail. Statuses, reasons, times and places are written out |
| `RuleLaws.PlainRuleRecords` | app/auto_rules.py:1370-1380 | with repeats allowed, no limit and no cap, only a recording that has not failed, been aborted or ended in an unknown status stands in its way: one of its identity, or over one of its listings on the channel or group |
| `RuleLaws.RecordsWhat` | app/auto_rules.py:1429-1510 | one scheduled recording at the placement, of the program's title and episode and the rule, and the row now picks it; nothing else changes |
| `RuleLaws.RefusesWhat` | app/auto_rules.py:1150-1219 | a refusal writes its reason on the program's row, keeps what the row says of a recording, and records nothing |
| `RuleLaws.AddedIsListed` | app/auto_rules.py:465-484 | a read listing with title, start and episode adds just that episode to its slot, any other adds none |
| `RuleLaws.LeadIsBest` | app/auto_rules.py:1264-1276 | no listing of a program beats the one recorded from: a group first, then the higher score, then the older entry |
| `RuleLaws.ProgramsInOrder` | app/auto_rules.py:1264-1276 | programs are judged by the start of their lead, then title, then episode |
| `RuleLaws.BeforeInText` | app/auto_rules.py:1264-1276 | text compares at the first character that differs, a prefix first |
| `RetrackModel.TargetIsNearest` | app/auto_rules.py:1727-1741 | the chosen target is the nearest eligible one, the earlier of two equally near; none iff there is none |
| `Retrack.RetrackTarget` | app/auto_rules.py:1727-1741 | the loop finds it |
| `RetrackLaws.TargetExactly` | app/auto_rules.py:1727-1741 | every other program offered - another time, no row, not taken, in the pick's place - starts at least as far from the pick's start in minutes, and no earlier when as far; and the listing followed is the first in place |
| `Retrack.IndexedKeysUnique` | app/auto_rules.py:1835-1838 | rows indexed by their current key have distinct keys |
| `Retrack.MoveRow` | app/auto_rules.py:1835-1838 | moving a row keeps the dict the index of every row by its current key |
| `RetrackModel.RecordedTargetIsHeld` | app/auto_rules.py:1744-1790 | any other spoken-for recording of a listed target holds it |
| `Retrack.FindHolder` | app/auto_rules.py:1744-1781 | the indexed search says held iff some other recording that stays records the target, covers one of its showings or runs over its whole time in the same place |
| `RetrackLaws.HeldExactly` | app/auto_rules.py:1744-1790 | held iff a recording other than the pick's, not failed, aborted or unknown, and not itself leaving, is of the program, runs over one of its listings, or over the followed one where the pick's recording is |
| `RetrackLaws.HeldStays` | app/auto_rules.py:1784-1822 | a pick still to begin stays when its target is held and takes the target from later picks; no other is held back |
| `RetrackModel.MovedRecordingIsTheOnlyOne` | app/auto_rules.py:1641-1682 | over the whole walk: a recording that moved is at the end the only spoken-for recording of the program it moved to |
| `Retrack.GonePicks` | app/auto_rules.py:1618-1637 | in order of start and id, exactly the scheduled future picks of episodes listed nowhere at their time and somewhere at a free one |
| `RetrackLaws.GoneExactly` | app/auto_rules.py:1618-1637 | a pick is gone iff it is scheduled and ahead, names an episode, has not failed, is listed nowhere at its time, and its program is found at another time that has no row |
| `RetrackModel.NoTargetTwice` | app/auto_rules.py:1641-1650 | no two picks are sent to one target, whatever became of the first |
| `RetrackModel.TurnsLeave` | app/auto_rules.py:1641-1682 | each row is left as its own turn left it: unchanged, let go, or at a listed program of its title and episode, and there if its recording moved |
| `RetrackLaws.AnswersDo` | app/auto_rules.py:1641-1682 | what each answer of the write unit leaves of the row, its key, its recording, the edited set and the walk |
| `RetrackLaws.WalkGoesOn` | app/auto_rules.py:1641-1650 | the walk starts with nothing taken and stops only when the rule changed |
| `Retrack.Retrack` | app/auto_rules.py:1594-1682 | the gone picks in their order; their rows, the ledger's keys, the library and the edited recordings end exactly as the walk's turns leave them, held targets found by the index; every other row stands, and the dict stays the index of the rows by key |
| `Retrack.FillEpisodes` | app/auto_rules.py:1133-1147 | filling in episodes keeps keys distinct, leaves nothing a second fill-in would change, and answers exactly the rows filled |
| `RetrackLaws.FillableExactly` | app/auto_rules.py:1133-1147 | a row waits for an episode iff it names none and its slot lists a single one, which no row has |
| `Claim.EveryRunKeepsInv` | app/auto_rules.py:905-922 | in every interleaving no recording or ledger row names a missing rule and a current revision means current settings |
| `Claim.EngineWritesAreCurrent` | app/auto_rules.py:1471-1510 | an engine write that changes anything commits while the rule exists, is enabled and has the revision and settings judged |
| `Claim.LifecycleVoidsEarlierReads` | app/auto_rules.py:2403-2463 | after an edit, pause, resume or delete, however the run goes on, no write of an earlier read changes anything until that engine reads again |
| `Claim.DeletedIsNeverNamedAgain` | app/auto_rules.py:2494-2545 | a deleted rule is never named again, however the run goes on |
| `Claim.DeleteTakesOnlyTheUnstarted` | app/auto_rules.py:2506-2531 | deleting takes exactly the rule's unstarted recordings, when asked to, and releases the rest |
| `Claim.EditTouchesOnlyTheUnstarted` | app/auto_rules.py:2368-2446 | saving an edit cancels or releases just the chosen recordings that are the rule's and have not started |
| `Claim.StartedIsSettled` | app/auto_rules.py:2368-2400 | once a recording starts no answer to an edit applies to it |
| `Claim.EditKeepsOtherRows` | app/auto_rules.py:2403-2446 | an edit is the next revision and takes just the rule's skips still ahead and the rows of the recordings it cancels or releases |
| `Claim.HousekeepingExactly` | app/auto_rules.py:2184-2197 | a rename moves spellings, a deleted profile links, pruning takes the rows that start before its day; nothing else moves |
| `Claim.SwitchedRevises` | app/auto_rules.py:2449-2470 | pausing or resuming is the next revision with everything else kept; switching to what it is changes nothing |
| `Claim.SchedulesOne` | app/auto_rules.py:1429-1510 | an engine up to date makes one recording for its rule and one row names it, the row handed in or a new one; nothing else changes |
| `Claim.VerdictsSkip` | app/auto_rules.py:2075-2102 | its verdicts turn just the rule's named rows into skips and add a skip for each program newly judged; no recording changes |
| `Claim.RetrackMovesOne` | app/auto_rules.py:1845-1883 | it moves or lets go of one pick of its rule and touches no other row |
| `Claim.DeletionIsStamped` | app/database.py:1523-1562 | deleting a recording leaves its row with what had become of it, and every other row as it was |
| `LedgerFold.HeldChunkExact` | app/account_stats.py:157-218 | a chunk reads exactly the rows the new watermark passes, all finished, and moves iff something was pending |
| `LedgerFold.EventChunkIsBetween` | app/account_stats.py:221-241 | the failovers read are exactly those up to the last read, or all of them when fewer than the limit |
| `LedgerLaws.HeldPasses` | app/account_stats.py:157-218 | of the segments or tests above the watermark one is passed iff it and all before it are finished and fewer than the limit come before it |
| `LedgerLaws.EventsPass` | app/account_stats.py:221-241 | an event is passed iff fewer than the limit of those counted come before it |
| `LedgerLaws.HeldGoesOn` | app/account_stats.py:382-401 | a chunk asks for another iff it was full, and what is pending are the finished rows below the first still running |
| `LedgerLaws.EventsGoOn` | app/account_stats.py:221-241 | an event chunk asks for another iff the limit of those counted are above the watermark |
| `StatsLedger.FirstIds` | app/account_stats.py:173-182 | the ids found are exactly the first joined segments of each recording on each account |
| `StatsLedger.FoldSegments` | app/account_stats.py:157-195 | the loop adds what the passed segments are worth, and answers the mark and "more" |
| `StatsLedger.FoldTests` | app/account_stats.py:198-218 | likewise for channel tests |
| `StatsLedger.FoldEvents` | app/account_stats.py:221-241 | likewise for events, up to the ceiling read first |
| `StatsWorth.ColumnsAreWorth` | app/account_stats.py:157-241 | in an exact world each column of an account over any days is what the passed rows of the three tables are worth in it, over the source rows |
| `StatsWorth.SegmentsAreCounted` | app/account_stats.py:157-195 | `segments`, `stalls` and `capture_seconds`: the segments begun on those days on the account's channels, their stalls, and the seconds of those ended and not excluded, never below nothing |
| `StatsWorth.ChecksAreCounted` | app/account_stats.py:198-241 | `checks_passed` counts the passed-over tests in state passed, `checks_failed` those in state failed, `failovers` the failover events - each on an account channel on that day |
| `StatsWorth.RecordingsAreCounted` | app/account_stats.py:173-195 | over all days `recordings` is the number of recordings with a passed segment on the account that was not a placeholder |
| `StatsFold.Ledger.FoldChunk` | app/account_stats.py:256-306 | one commit adds exactly the passed rows' worth on existing accounts, or changes nothing when nothing is pending |
| `StatsFold.Ledger.FoldAll` | app/account_stats.py:337-355 | it terminates with nothing pending; where it ends and what it added do not depend on the chunk size |
| `StatsWorth.CatchUpPasses` | app/account_stats.py:337-355 | after a catch-up a segment is passed iff none still being captured stands at or below it |
| `StatsWorth.CatchUpPassesTests` | app/account_stats.py:337-355 | likewise a test |
| `StatsWorth.CatchUpPassesEvents` | app/account_stats.py:337-355 | and every event |
| `StatsFold.Ledger.PendingRows` | app/account_stats.py:382-401 | counts what the next folds can pass |
| `StatsFold.ChunkMoves` | app/account_stats.py:256-306 | a chunk moves a watermark iff something is pending, and only over finished rows |
| `StatsFold.AnyChunkingEndsTheSame` | app/account_stats.py:337-355 | any sequence of positive limits that leaves nothing pending ends at the same watermarks, having added the same to every cell |
| `StatsRun.EveryRunIsAccounted` | app/account_stats.py:157-306 | in every run of appends, changes, prunes, deletions, folds and resets the days are the sum of what each passed row counted for, each id once, finished; no test or event is skipped. A fold is one reading of the tables here |
| `StatsExact.EveryHarmlessRunIsExact` | app/account_stats.py:157-306 | in every run that removes and rewrites nothing counted - the startup sweep's closing of what was left open included - the ledger equals an aggregate from scratch of the rows at or below the watermarks |
| `StatsExact.FirstIsFinal` | app/account_stats.py:173-182 | whether a passed segment is its recording's first no longer changes |
| `StatsParts.DropChannelPartsExactly` | app/account_stats.py:173-195 | deleting a channel parts ledger and rebuild iff a passed row counted on it |
| `StatsParts.FirstAgainAfterDrop` | app/account_stats.py:173-182 | a counted recording's later segment is a first again iff every earlier one on the account was on the deleted channel |
| `StatsParts.RecountedAfterDrop` | app/account_stats.py:173-195 | and then whatever fold passes it adds a recording to its day |
| `StatsParts.CountedIsHeld` | app/account_stats.py:173-195 | which the days already hold |
| `StatsParts.RecordingCanCountTwice` | app/account_stats.py:173-195 | a run that counts one recording twice |
| `StatsParts.PrunePartsExactly` | app/account_stats.py:44-46 | pruning parts ledger and rebuild iff it takes a passed row that counted |
| `StatsParts.ClosingPartsExactly` | app/recorder.py:1462-1492 | writing to a passed segment parts them iff its channel is there and it adds stalls or capture; the startup sweep adds neither |
| `StatsParts.EachCanPart` | app/account_stats.py:44-46 | runs in which a deleted channel, a prune and a late close each part them |
| `StatsParts.NextSegmentIsLost` | app/account_stats.py:157-172 | after a prune the next segment falls at or below the watermark iff every segment from the watermark up is gone |
| `StatsParts.NextSegmentCanBeLost` | app/account_stats.py:157-172 | a run in which one is |
| `StatsExact.RecordingsAreFirstSegments` | app/account_stats.py:173-195 | over any days an account's `recordings` are the recordings whose first joined segment was passed and started then |
| `StatsExact.RecordingsCountedOnce` | app/account_stats.py:173-195 | over all days: one per recording with a passed joined segment on the account |
| `StatsRace.ReadsOnlyFinishedExactly` | app/account_stats.py:160-170 | with the stop and the rows read apart, no unfinished row is passed iff a stop was found or every row opened between the two reads and in reach is finished |
| `StatsRace.OpenRowPassed` | app/account_stats.py:160-170 | an input where one is passed |
| `Calendar.MonthStartClosedForm` | app/account_stats.py:554-556 | months counted one by one start where the calendar's closed form puts them |
| `Trend.BucketStarts` | app/account_stats.py:564-583 | the starts are strictly increasing and exactly the unit's boundaries from the last at or before the first day to the last day |
| `Trend.CoversOnce` | app/account_stats.py:564-583 | that determines them |
| `Trend.TrendUnit` | app/account_stats.py:586-594 | all time takes the finest unit with at most 26 buckets, and years only when none fits |
| `TrendLaws.UnitExactly` | app/account_stats.py:586-594 | days for 7 days, weeks for 30 and 90; for all time weeks while the Sundays from first to last are at most 26, then months, then quarters, then years, each count written out |
| `TrendLaws.BoundaryExactly` | app/account_stats.py:549-583 | weeks start on Sundays, months on a first, quarters on the first of months 1, 4, 7 and 10, years on 1 January |
| `TrendLaws.MonthsAreAsLong` | app/account_stats.py:554-561 | each month starts 28 to 31 days after the one before, leap years by the Gregorian rule |
| `TrendLaws.DayOne` | app/account_stats.py:554-561 | the first day is 1 January of year 1 |
| `Trend.WindowedStats` | app/account_stats.py:528-546 | every column's sum over the window for every account asked for |
| `Trend.WindowTakesIn` | app/account_stats.py:503-546 | the window is the last 7, 30 or 90 days with today among them, or every day so far |
| `Trend.PassRate` | app/account_stats.py:520-525 | none iff nothing was checked; else in [0, 1], 1 iff nothing failed, 0 iff nothing passed |
| `TrendLaws.RateIsShare` | app/account_stats.py:521-525 | the rate times the checks made is the checks passed |
| `Trend.InOneBucket` | app/account_stats.py:633-637 | a day from the first start to today lies in exactly the bucket bisection finds |
| `Trend.BucketsAddUp` | app/account_stats.py:633-642 | consecutive buckets add up to the days they span |
| `Trend.Chart` | app/account_stats.py:600-643 | each bucket holds its days of the window, and per account and charted column the buckets add up to the windowed total |
| `TrendLaws.BucketsShow` | app/account_stats.py:600-648 | bucket by bucket: the capture time and the checks of its own days from the first day charted on; the buckets follow on one another and the last ends today |
| `CheckWindow.ContainingExactly` | app/check_window.py:68-91 | the answer is the one occurrence that holds the instant, none iff none does, midnight and equal ends included |
| `CheckWindow.LengthInADay` | app/check_window.py:54-59 | an occurrence lasts up to a day, a whole one iff start and end are equal, and ends at the end time |
| `CheckWindow.OccurrenceByTheClock` | app/check_window.py:54-91 | an occurrence starts and ends at the configured minutes of its local days |
| `CheckWindow.ClosingExactly` | app/check_window.py:94-105 | the closing occurrence is the one that ends on the local date, and holds the instant before its end |
| `CheckWindow.ClosingIsLatestEnded` | app/check_window.py:94-105 | asked at or after its end, it is the last to have ended |
| `CheckWindow.NextOccurrenceStart` | app/check_window.py:108-125 | the least start strictly after now on an eligible day, always found within the loop |
| `CheckWindow.AsksForAWeekday` | app/check_window.py:62-65 | day 1 is Sunday and day 7 Saturday |
| `Seats.BlockedSlots` | app/account_blocks.py:107-123 | per account the slots taken, one block without a count taking all |
| `Seats.PoolTaken` | app/account_blocks.py:157-181 | what each pool loses to the ordered fill of every account's demand |
| `Seats.FullyBlockedPools` | app/account_blocks.py:184-193 | exactly the candidates with no usable seat in any pool |
| `SeatLaws.DemandIs` | app/account_blocks.py:107-123 | an account is asked for its partial blocks added up, or for everything when one takes it whole |
| `SeatLaws.OwnLimitDecides` | app/account_blocks.py:126-193 | an account without logins is full iff a block takes it whole or the blocks ask for its limit, 0 when it has none |
| `SeatLaws.OwnLoginsDecide` | app/account_blocks.py:142-193 | one whose logins nobody else holds is full iff they ask for the sum of its logins' seats |
| `SeatLaws.LoginsFillInOrder` | app/account_blocks.py:157-181 | each login takes what is left of the demand after those before it, up to its seats |
| `FreeSeat.FullyBlockedMonotone` | app/account_blocks.py:157-193 | more blocks never free an account, through the ordered fill |
| `FreeSeat.SiblingReadIsEnough` | app/account_blocks.py:196-223 | the blocks of accounts sharing a login with those asked answer as all blocks do |
| `SeatSearch.SearchIsExact` | app/account_blocks.py:260-277 | the linear search over sorted block ends, ties included, stops at the first instant with a seat |
| `SeatSearch.FreeAt` | app/account_blocks.py:260-277 | none iff not fully blocked at `at`; else the least instant from `at` on with a usable seat |
| `SeatLaws.StillFullExactly` | app/account_blocks.py:260-277 | still full at an instant: by the blocks that run at `at` and have not ended by then |
| `SeatSearch.BlockedAccountIds` | app/account_blocks.py:226-244 | exactly the fully blocked accounts asked for |
| `SeatLaws.FullAtInstantExactly` | app/account_blocks.py:226-244 | full at an instant: by the blocks that have started and not ended |
| `SeatLaws.CountsWhenItRuns` | app/account_blocks.py:67-98 | a block counts for a window iff it runs at some instant of it |
| `SeatWindow.WindowCoversItsInstants` | app/account_blocks.py:226-244 | an account blocked at some instant of a window is in the window's answer |
| `SeatWindow.WindowIsExactWhenAskedAtOnce` | app/account_blocks.py:226-244 | for every seating the window's answer is some instant's, iff at some instant the account is taken whole or every account is asked for what the window asks of it; blocks of any accounts, and pending ones |
| `SeatWindow.WindowIsExactWhenMeeting` | app/account_blocks.py:226-244 | for one account's blocks: iff one takes every seat or those that take one meet in pairs |
| `SeatWindow.WindowCanOverstate` | app/account_blocks.py:226-244 | when no instant does, some logins, shared between the blocked accounts, are called full over the window and at every instant one of them is free |
| `SeatWindow.SharersCanBeOverstated` | app/account_blocks.py:226-244 | as for two accounts blocked one after the other |
| `SeatWindow.MeetingBlocksAreExact` | app/account_blocks.py:226-244 | blocks of any accounts that meet pairwise in the window do so at one instant, which answers as the window |
| `SeatSearch.SpreadFillsAll` | app/account_blocks.py:142-181 | a demand spread over an account's logins leaves no seat iff it asks for them all |
| `UrlSplit.JoinSplits` | app/accounts.py:375-381 | components joined split back to themselves |
| `UrlSplit.SplitJoins` | app/accounts.py:375-381 | what splits joins back to the same bytes |
| `StreamUrl.ParseBuild` | app/accounts.py:363-406 | parsing reads back what any enabled mode printed, a user called "live" included |
| `StreamUrl.ParsedIsValid` | app/accounts.py:363-383 | every parse is printable and drops only spelling, scheme case and what follows the path |
| `StreamUrl.LastModeWins` | app/accounts.py:594-605 | normalising twice is normalising with the last enabled mode |
| `StreamUrl.NormalizeKeepsParts` | app/accounts.py:594-605 | no mode changes whether a URL has a triplet or which stream it is |
| `UrlLaws.ReadExactly` | app/accounts.py:363-383 | a URL is read iff it is scheme, host part, optional "live/", user, password, number and no extension, ".ts" or ".m3u8", then nothing or a query or fragment - as exactly those |
| `UrlLaws.NormalizedAs` | app/accounts.py:386-406 | what each mode stores, character by character: bare, "/live/" with ".ts", "/live/" with ".m3u8", or as it came |
| `UrlLaws.UnreadStands` | app/accounts.py:594-605 | any other URL is stored as it came |
| `UrlRender.RenderHostLands` | app/account_links.py:195-216 | a rendered URL is on the active host or on one outside the list |
| `UrlRender.RenderHostParts` | app/account_links.py:195-216 | rendering rewrites the host and keeps every other byte |
| `UrlRender.RenderHostAbsorbs` | app/account_links.py:195-216 | rendering to one listed host and then another is rendering to the other, iff the URL was not already there in another spelling |
| `UrlLaws.HostIs` | app/account_links.py:163-171 | the host is what stands between the userinfo and the path, in small letters |
| `UrlLaws.RenderedAs` | app/account_links.py:195-216 | another listed host is replaced by the active one, and nothing else |
| `UrlAlgebra.NormalizeCommutesWithHost` | app/accounts.py:2679-2680 | spelling and host can be rewritten in either order |
| `UrlAlgebra.RollEqualsFreshSync` | app/account_links.py:554-569 | re-rendering a stored URL after a roll equals a fresh sync, iff the provider does not spell the new host otherwise |
| `UrlAlgebra.OddUrlsPart` | app/account_links.py:195-216 | an input where they differ |
| `UrlAlgebra.LoginReadBack` | app/account_links.py:126-160 | a rendered login is read back with the stream id unchanged; a pair not on the list is left alone |
| `UrlAlgebra.RenderLoginSplit` | app/account_links.py:126-160 | only the two path segments move |
| `UrlAlgebra.RenderLoginAbsorbs` | app/account_links.py:126-160 | the last login rendered is the one carried |
| `UrlAlgebra.LoginCommutesWithHost` | app/account_links.py:126-216 | host and login can be rendered in either order |
| `LoginFields.AcceptedExactly` | app/account_links.py:800-827 | filled-in credentials pass iff their characters can be rendered and the seats are at least one |
| `LoginFields.AcceptedReadsBack` | app/account_links.py:800-827 | an accepted login is read back from every URL it is rendered into |
| `UrlLaws.FieldsExactly` | app/account_links.py:800-827 | the first refusal in the code's order, or the fields without the blanks around them; a username or password is refused for a blank, "/", "?", "#", "%" or "@" |
| `UrlLaws.PasswordLeft` | app/account_links.py:800-827 | an edit may leave the password out |
| `HostList.NormalizedIsValid` | app/account_links.py:174-192 | what the list stores is one lower-case host that can be spliced |
| `UrlLaws.PastedIsTaken` | app/account_links.py:174-192 | of a pasted URL the host with its port is kept, in small letters, iff it is a name with nothing, or a colon and digits, behind it |
| `UrlLaws.TypedIsTaken` | app/account_links.py:174-192 | so for one typed without a scheme |
| `HostList.CurrentHost` | app/account_links.py:247-269 | the host most URLs are on, of equally many the one met first, none iff no URL has one |
| `HostList.OneIsMost` | app/account_links.py:247-269 | which determines it |
| `UrlLaws.CountIs` | app/account_links.py:247-269 | a host counts once for each URL on it |
| `UrlLaws.FirstIs` | app/account_links.py:247-269 | and is met first where no URL before is on it |
| `HostList.ActivateExactly` | app/account_links.py:516-540 | activating leaves exactly one active host iff the host is still listed |
| `HostList.ActivateCanLeaveNone` | app/account_links.py:516-540 | an input where it was removed after it was chosen |
| `HostList.ActivateStrandsNone` | app/account_links.py:516-569 | afterwards no URL is on a listed host that is not active |
| `HostList.AddStrandsExactly` | app/account_links.py:274-313 | adding a host to a list strands exactly the URLs already on it |
| `HostList.AddCanStrand` | app/account_links.py:274-313 | an input where one is |
| `HostList.SeedStrandsExactly` | app/account_links.py:274-313 | so does the first add, unless they are on the host that seeds the list |
| `HostList.SeedCanStrand` | app/account_links.py:274-313 | an input where one is |
| `HostList.RemovedRows` | app/account_links.py:316-340 | removing keeps one active host iff the row was not active or was the last |
| `HostList.RollOrderIsCyclic` | app/account_links.py:437-438 | the hosts after the active one, wrapping around, the active one last |
| `HostList.Account.AddHost` | app/account_links.py:274-313 | refusals, the row appended, and the first list seeded from the host the URLs carry |
| `HostList.Account.RemoveHost` | app/account_links.py:316-340 | when it refuses and exactly what it takes out |
| `HostList.Account.Activate` | app/account_links.py:516-551 | the host active if listed, every listed URL and the stamped stream host on it, the list unchanged; nothing active when it is no longer listed |
| `HostList.Account.FindHost` | app/account_links.py:343-352 | the first of its two units: the row's host, or that there is none |
| `HostList.Account.SetActiveHost` | app/account_links.py:343-356 | with nothing in between, the chosen row alone is active, every listed URL is on it, nothing is left stranded |
| `HostList.Account.RollHost` | app/account_links.py:386-513 | moves to the first host in roll order that resolves; changes nothing in the cooldown, with fewer than two hosts or when none resolves; and answers nothing when the active host resolves and no URL moved |
| `ProviderSafety.CreateProviderExactly` | app/account_links.py:1171-1209 | the accounts put on a new provider keep just the logins no other account holds, in whatever order they are judged |
| `ProviderSafety.SetProviderExactly` | app/account_links.py:1132-1159 | a moved account gives up just the logins held with an account not on its new provider; nobody else's list changes |
| `ProviderSafety.StepKeepsInv` | app/account_links.py:905-974 | every operation keeps one provider per login and a holder for every login |
| `ProviderSafety.EveryRunKeepsInv` | app/account_links.py:1132-1342 | so does every run |
| `ProviderSafety.UpdateKeepsUsernamesExactly` | app/account_links.py:862-902 | an edit keeps usernames distinct on every account iff no holder has the new one on another login |
| `ProviderSafety.UpdateCanDoubleAUsername` | app/account_links.py:862-902 | a run from empty tables to an edit that does not |
| `ProviderSafety.DeleteProviderExactly` | app/account_links.py:1234-1260 | its accounts, and only they, end on none; nobody's list and no login changes |
| `ProviderSafety.AddLoginExactly` | app/account_links.py:830-859 | one hold more, last on the account's list, of a login nobody else holds; every other login and hold stands |
| `ProviderSafety.ShareLoginExactly` | app/account_links.py:1292-1330 | one hold more of the same login, and all its holders on one provider |
| `ProviderSafety.UpdateLoginExactly` | app/account_links.py:862-902 | one login changes for everyone who holds it; no hold moves |
| `ProviderSafety.RemoveLoginExactly` | app/account_links.py:905-930 | one hold goes; the login goes with it iff nobody else holds it |
| `ProviderSafety.DeleteAccountExactly` | app/account_links.py:959-974 | the account's holds go, and just the logins it alone held |
| `ProviderSafety.UnshareKeepsTheLogin` | app/account_links.py:1333-1342 | a removal right after the check leaves the login and every other hold |
| `ProviderSafety.CrossedUnsharesDeleteExactly` | app/account_links.py:1333-1342 | two checks passed before either removal delete the login iff the two are all its holders |
| `ProviderSafety.CrossedUnsharesCanDelete` | app/account_links.py:1333-1342 | and with two holders both checks do pass |
| `ProviderSafety.UnsharesCanCross` | app/account_links.py:1333-1342 | a run from empty tables after which they cross |
| `ProviderSafety.MovedSame` | app/account_links.py:933-956 | moving a login keeps the list's logins, each once |
| `ProviderSafety.MovesOnePlace` | app/account_links.py:933-956 | up swaps it with the one before, down with the one after; at either end nothing moves |
| `Providers.Registry.CreateProvider` | app/account_links.py:1171-1209 | the tables become exactly what the model's step says, all placed before any share is judged |
| `Providers.Registry.DeleteProvider` | app/account_links.py:1234-1260 | its accounts go to none; logins and lists are untouched |
| `Providers.Registry.SetAccountProvider` | app/account_links.py:1263-1289 | the step, or the refusal it states |
| `Providers.Registry.ShareLogin` | app/account_links.py:1292-1330 | appended when every holder and the target are on one provider, else the refusal in the code's order |
| `Providers.Registry.AddLogin` | app/account_links.py:830-859 | appended unless the username or name is taken on the account |
| `Providers.Registry.UpdateLogin` | app/account_links.py:862-902 | the row rewritten, checked against the edited account alone |
| `Providers.Registry.RemoveLogin` | app/account_links.py:905-930 | the hold goes, and the login with it when nobody else holds it |
| `Providers.Registry.CheckUnshare` | app/account_links.py:1333-1341 | refused iff the account does not hold the login or nobody else does |
| `Providers.Registry.MoveLogin` | app/account_links.py:933-956 | one swap with the neighbour on that side, if there is one |
| `Providers.Registry.DeleteAccount` | app/account_links.py:959-974 | takes the account's holds and exactly the logins only it held |
| `ProviderLaws.AddRefusedExactly` | app/account_links.py:830-859 | refused iff the account is gone or a login on its list has the username, or the name in any case |
| `ProviderLaws.UpdateRefusedExactly` | app/account_links.py:862-902 | refused iff the account does not hold it or another login on its list has the username or name |
| `ProviderLaws.ShareRefusedExactly` | app/account_links.py:1292-1320 | every refusal of a share, in order, over the rows it looks at |
| `ProviderLaws.CreateRefusedExactly` | app/account_links.py:1171-1186 | refused iff a provider has the name in any case or an account is gone |
| `ProviderLaws.OthersRefusedExactly` | app/account_links.py:905-974 | what is placed, moved, removed or deleted must be there |
| `ProviderLaws.UnshareRefusedExactly` | app/account_links.py:1333-1341 | unsharing goes ahead iff another account holds the login |
| `ProviderLaws.OnlyEditsDouble` | app/account_links.py:830-974 | every operation but an edit keeps each account's usernames apart |
| `HideRules.ResolvedAnswersExactly` | app/channel_hiding.py:164-276 | rules resolved over a scope answer a channel as the rules do, iff no category pattern takes a category absent from the scope |
| `HideRules.WideEnoughIsExact` | app/channel_hiding.py:164-276 | so a resolution at least as wide as the pass is always exact |
| `HideRules.NarrowUnhides` | app/channel_hiding.py:279-300 | and a narrower one un-hides what only a category pattern hides |
| `HideRules.NarrowCanUnhide` | app/channel_hiding.py:279-300 | as one account's resolution does over two |
| `HideRules.AnswersAreWell` | app/channel_hiding.py:249-276 | hidden and deferred exclude each other and a reason is set iff one holds |
| `HideLaws.AnswerExactly` | app/channel_hiding.py:249-276 | hidden iff wanted away and not protected, deferred iff wanted away and protected, wanted away by the person or - when the person said nothing - by some enabled rule for the account whose pattern fits; the reason is the person, else category pattern, category, name pattern in that order |
| `Hiding.ScopedIsPerRow` | app/channel_hiding.py:279-363 | a scoped pass gives each channel in scope the answer of override, rules, then protection, and leaves the rest alone |
| `HideLaws.PassWrites` | app/channel_hiding.py:279-363 | a pass writes the three columns of the channels it reaches and takes the guide source of those it hides; every other channel and column stands |
| `Hiding.PurgedHasNone` | app/channel_hiding.py:390-427 | purging only the pass's scope leaves no hidden channel with guide entries anywhere |
| `HideLaws.PurgeTakes` | app/channel_hiding.py:390-427 | the guide rows taken are those of the hidden channels it reached, each as often as it was there |
| `Hiding.RecountIsEnough` | app/channel_hiding.py:350-387 | recounting only the touched accounts keeps every account's count right |
| `HideLaws.HiddenAreCounted` | app/channel_hiding.py:366-387 | an account's count is one for each hidden channel of it |
| `Hiding.Table.Recompute` | app/channel_hiding.py:279-363 | the columns, both guide tables and the counts after a pass, with the invariants kept |
| `Hiding.PassAnswersExactly` | app/channel_hiding.py:279-363 | after a pass every row has the rules' answer iff every row out of its scope had |
| `Hiding.Table.SetOverride` | app/channel_hiding.py:700-727 | a person's answer moves and its channel is answered again; a table up to date stays so |
| `Hiding.Table.SetProtected` | app/routes/guide.py:552-572 | so when channels join or leave the guide or a group |
| `Hiding.Table.Sync` | app/accounts.py:1266-1269 | and when a sync renames and adds channels of its account |
| `Hiding.Table.SetRules` | app/routes/channel_hide_rules.py:84-95 | rules change and the whole table is answered by them, or the pass is refused and the answers stand |
| `HideStats.TotalsAreMatches` | app/channel_hiding.py:629-662 | a category rule's sum over categories is its count taken channel by channel |
| `HideLaws.FittingAreCounted` | app/channel_hiding.py:610-677 | a rule's two numbers are the channels it fits and those of them that are protected |
| `HideStats.RefreshRuleStats` | app/channel_hiding.py:610-677 | every rule's matched and deferred counts are its own per-channel counts |
| `EpgModel.FileIdFor` | app/epg_sources.py:127-143 | the key's own spelling, else the id with the most programs, the lowest among equals |
| `EpgModel.FeedMap` | app/accounts.py:3098-3113 | each key's channels under the one id it reads |
| `EpgModel.ReadsExactly` | app/epg_sources.py:127-143 | a key reads an id iff some non-empty id of the file folds to it: its own spelling, else the one with the most programmes, the first in text order among equals |
| `EpgModel.EachChannelReadsOneId` | app/accounts.py:3098-3113 | no programme is imported for a channel twice, and none of another id's |
| `EpgModel.ProjectedIsPairs` | app/accounts.py:3219-3221 | the count taken id by id is the number of in-window (programme, channel) pairs matched one by one |
| `EpgModel.MatchExactly` | app/accounts.py:3069-3095 | a programme is matched to a channel iff the channel reads its id and it is on air at some instant of the window |
| `EpgModel.PairsAreReaders` | app/accounts.py:3219-3221 | the count is, summed over the programmes in the window, the channels that read each |
| `EpgModel.CountProjected` | app/accounts.py:3130-3221 | the scan pass returns that number |
| `EpgWriter.RowsWhereWinnersSay` | app/accounts.py:3628-3643 | the rows of a table are exactly those its channels' winners put there |
| `EpgWriter.WritesExactly` | app/accounts.py:3628-3643 | a row is written iff its programme is on air in the window, on a channel reading its id: active when the channel's winner is this source, alternate when it is another |
| `EpgWriter.RemovesExactly` | app/accounts.py:3560-3577 | the rows an import removes are this source's that end at or after the window's start, and only those |
| `EpgWriter.WrittenIsProjected` | app/accounts.py:3611-3643 | as many rows are written as were projected iff every matched channel has a winner, else fewer |
| `EpgWriter.Guide.Import` | app/accounts.py:3560-3676 | at the end, on a cancel and on a parse error alike, the committed rows are those of the programmes read, the active ones `synced` in number, and nothing stays buffered |

## Left out

- Flask routes, templates, row payloads, alerts, logging, config backup, filename templates, startup and migrations: presentation and plumbing.
- SQLite, lock retries and DNS: resolver verdicts, cooldowns, cancels and parse-error positions are inputs.
- The search engine and the bulk planner of the rules: the showings and the placement of each are inputs.
- Reach, guide alerts and profile rendering of the rules (`_reach_for`, `refresh_guide_alert`): reporting.
- Daylight-saving changes: local time is at one UTC offset; the rebuild after a display timezone change is the reset step.
- Capture seconds are whole numbers and never negative.
- Deleting an account in a run of the stats ledger: `FoldChunk` drops the days of accounts that are gone, but no run deletes an account's days.
- The background catch-up thread and its notices; the fold lock is taken as held.
- Years are those of the proleptic Gregorian calendar; the trend is not asked for in its first weeks.
- Control characters and spaces urlsplit strips, bracketed IPv6 hosts it may refuse, non-ASCII hosts and digits: URLs are taken without them.
- GLOB and case folding of channel ids are parameters; lower-casing is ASCII.
- `_upsert_channels`, `resolve_row`, `promote`, `demote`, the collapse guard's thresholds and the change of winners before an import: the winners are an input.
- `apply_default_rules`, `preview`, the events an override writes and the duplicate-stream ranking beside hiding.
- ClosingPartsExactly: not for a segment its late close excludes from its recording; only a running watchdog does that, in the commit that ends the segment.
- EveryRunIsAccounted: a fold reads its tables as one snapshot; what the separate reads can miss is in StatsRace.
- A channel id may not be re-issued while a row still names it. Ids of ledger rows are never given twice in a run of the rules; `rule_matches` has no AUTOINCREMENT and the code finds a row by its id alone.
- Reading the check window's bounds from the configuration, and their fallbacks: the bounds are given.
- EngineWritesAreCurrent: the settings it protects are those judged; the search's spelling and the profile link do not raise the revision (renaming and unlinking leave it), so a write may commit after they change.
- Retrack: the write units' answers are inputs (`_follow`, `_note_held`), so it does not say which answer a target gets; MovedRecordingIsTheOnlyOne takes a pick's recording to have its row's title, and its episode or none, and the search's programs to be in the guide and in the slots.
