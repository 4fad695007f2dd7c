# Kymido, modelled and proved in Dafny

Kymido is an agent daemon written in Rust. This project models the parts of it whose behaviour is decided by
state and order rather than by I/O, in the form the source gives them (classes whose methods change fields, loops
over arrays and lists, pure functions), and proves what those parts promise over all inputs, all runs and all
orders of visits. `dafny verify dfyconfig.toml` checks the whole project.

| files | what they hold |
|---|---|
| `Attach`, `Lineage`, `Reaper`, `ReaperOrder` | which sessions stay loaded: attach counts of the open connections, the cycle-guarded ancestor walk, the grace clock, the tick |
| `EventBus`, `RunLedger`, `Stats`, `Calendar` | the daemon's shared state: the three-index event bus, the run ledger and its windowed statistics, day numbers and dates |
| `SessionStore`, `IdleSweep`, `SessionDb` | the durable sessions and the idle sweep, once as transcripts and once as tables whose methods refine them |
| `Lines`, `Checksum`, `Archive`, `TurnLog` | the stored line formats: the checksummed cold archive, the run log and its crash repair |
| `MemoryGraph`, `Recall` | the memory graph and the two-hop recall cascade |
| `Glob`, `Json`, `RepeatReminder` | the guards: the wildcard matcher and the repeat reminder |
| `Jobs` | background jobs, with every interleaving of calls and thread steps |
| `Workspace`, `CiScope` | the CI scope resolver |
| `Backoff`, `LlmCall` | the backoff curve and the retry loop of a streaming model call |
| `Wrappers`, `Text`, `Sorting` | option and result types, ASCII string helpers, the stable sort |

## How the model reads

* A class keeps the fields of the original object. Where a method changes state, its contract equates the new
  state (often through a `View()` value) with a function of the old one; the lemmas are about those functions and
  about runs, which are sequences of events folded from an initial state.
* Where a method and the function that specifies it share a helper, a lemma says of every input what comes out, in terms
  of the records, files and events themselves and without that helper.
* Collections the source iterates in hash order are visited in any order: loops take an arbitrary remaining
  element, and the tick of the reaper is proved for every enumeration of the live set.
* Clocks, random choices, the outcome of a send, the answers of a model provider, the abort signal and the wildcard
  matcher of the CI script are parameters, so every statement holds for all of them.
* A line encoding is a pair of functions of which only what JSON guarantees is used: it parses back, holds no line
  break, starts with a brace, and no proper prefix of it parses. The printer of canonical tool arguments is
  only assumed to be injective.
* Scores, averages and rates are exact (`real`). The checksum, the date arithmetic and the backoff use the
  machine constants of the source, including its multiplier `0x1000_0000_01b3`, truncating division, saturation and
  the shift limit.

## Findings

Where the code does not do what its comments or the obvious expectation say, the model follows the code and the
difference is a theorem.

* Every request attaches its target again, but teardown detaches each listed session once. The count of a session
  is exactly the number of open connections listing it plus the repeated requests, so a session is released by the
  last teardown if and only if no connection ever repeated it (`Attach.ReleasedUnlessRepeated`, `Attach.TwoPromptsLeak`);
  a repeated one stays attached whatever happens later, and if it is live no later tick unloads it
  (`Attach.RepeatedNeverReleased`, `Reaper.RepeatedStaysLoaded`). The safe direction holds: a listed session is always
  attached.
* A tick can unload a session together with a live descendant. `ReaperOrder.ParentUnloadableIffFamilyRipe` gives the
  exact condition; `Reaper.ParentOutlivesChild` shows that it cannot arise unless a lineage change between two ticks
  relates two sessions whose clocks are both running, which giving a parent to a new session never does
  (`Reaper.NewChildIsQuiet`), and `Reaper.LineageChangeBreaksOrder` that such a change suffices.
* The guard of `archive_session` compares lengths, although its comment speaks of the live rows subsuming the archive
  (and the comment above the function still says that any existing archive is refused). An operation keeps every archive
  a prefix of the live session beside it if and only if it is guarded: a cut does not reach into the archive, and rows
  for a session that exists only in its archive begin with the archived messages (`SessionStore.StepGrows`, and
  `SessionStore.PrefixesThroughoutIffGuarded` over runs). Over guarded runs archiving is never refused and, without cuts
  and deletions, nothing is ever lost. The code checks neither guard: after a deeper cut and as many appends
  (`SessionStore.GuardMissesDivergence`), or without any cut after an append to an archived session
  (`SessionStore.GuardMissesStartingOver`), the archive is replaced and a message is gone.
* The done hook of a job is documented to fire once per job that reaches a terminal state. It fires at most once
  (`Jobs.HookFiresOnce`). In every run a job whose thread is done has been announced if and only if the hook was
  registered before its thread came to it and neither a shutdown nor a successful removal fell between its start and the
  recording of its result (`Jobs.AnnouncedIffHookedAndRemembered`); `Jobs.KilledAndRemovedIsSilent` is one failing case.
* A larger change set can have a smaller CI scope: a manifest that joins a lock file changed without one turns
  the full scope into a narrow one (`CiScope.ManifestNarrowsLock`). The scope is kept if and only if that is not the
  case, or the larger change forces the full scope or reaches the whole workspace (`CiScope.MoreChangesKeepScope`).
* A session whose archive holds more messages is refused by the idle sweep, and the refusal ends the sweep: the sessions
  before it stay archived but their receipts are lost, and the ones after it are not touched
  (`SessionDb.SessionDb.CompressIdleSessions`, `IdleSweep.RefusedIffOneShrinks`). A restored and rewound session is such
  a case (`SessionDb.SweepOfCutStore`). It stays refused until it is appended to or deleted (`IdleSweep.RefusedStays`),
  and every sweep it qualifies for, the next one included, leaves all sessions ranked after it alone
  (`IdleSweep.RefusedBlocksRest`, `SessionDb.RefusalBlocksNextSweep`).
* The comment in `append_turn_log` says that a log that fails to decode is kept; the code replaces it by the new records.
  The stored log is kept if and only if it decodes (`TurnLog.AppendKeepsLogIffReadable`); a record followed by one torn
  line is a case in which the record is lost (`TurnLog.TornLineLosesLog`).
* The run ledger numbers records from one, but a record whose number is missing in the file is loaded with number 0. A
  first read returns the whole ledger if and only if every number is positive (`RunLedger.SkipsNothingIff`), and reading
  on yields exactly the new records if and only if the last record had the highest number
  (`RunLedger.CursorCoversAppendsIff`, `RunLedger.MissingNumberSkipsAndRepeats`). Every new record restores that
  (`RunLedger.LastStaysHighest`).

## Model

| member | source | states |
|---|---|---|
| Glob.GlobMatch | crates/guard/src/glob.rs:7-36 | the matcher answers true exactly on the texts in the declarative language of the pattern |
| Glob.MatchesIsAnchored | crates/guard/src/glob.rs:11-15 | a text is in the language of a pattern exactly when it is the first literal part followed by the other parts with arbitrary gaps |
| Glob.LeftmostIsEnough | crates/guard/src/glob.rs:30-34 | committing to the leftmost occurrence of a part that is not the last one never misses a match |
| Glob.FindIsLeftmost | crates/guard/src/glob.rs:30-31 | no occurrence comes before the one that is found |
| RepeatReminder.Validate | crates/guard/src/repeat_tool_reminder.rs:126-158 | a configuration passes exactly when its thresholds are non-empty, at least two and strictly ascending and the preview is positive; otherwise the first failing check in order names the error |
| RepeatReminder.NewReminder | crates/guard/src/repeat_tool_reminder.rs:126-158 | a reminder is built exactly for the valid configurations and starts with an empty history |
| RepeatReminder.IsTracked | crates/guard/src/repeat_tool_reminder.rs:75-92 | excluded patterns win, an empty include list means all tools |
| Json.SortValueDecidesSame | crates/guard/src/repeat_tool_reminder.rs:54-70 | deep key sorting makes two JSON values equal exactly when they are the same up to object key order, at every depth |
| RepeatReminder.CanonicalIffSame | crates/guard/src/repeat_tool_reminder.rs:53-72 | two argument values have one canonical text exactly when they are equal up to object key order |
| RepeatReminder.RepeatToolReminder.Observe | crates/guard/src/repeat_tool_reminder.rs:164-219 | after any interleaving the agent's counter is the length of the longest identical suffix of its tracked calls since its last reset, and a reminder is returned exactly when that length is a threshold; untracked calls change nothing |
| RepeatReminder.RepeatToolReminder.ResetAgent | crates/guard/src/repeat_tool_reminder.rs:236-238 | a reset starts the agent's history over and touches no other agent |
| RepeatReminder.StreakIsUnique | crates/guard/src/repeat_tool_reminder.rs:184-192 | the suffix length the counter is compared with is unique |
| RepeatReminder.ThresholdMetOncePerStreak | crates/guard/src/repeat_tool_reminder.rs:194-199 | along a streak the lengths are 1, 2, 3 and so on, so every threshold is met once per streak |
| Calendar.CivilRoundTrip | crates/daemon/src/state.rs:606-617 | the date of every day number is valid, and counting its days back gives the day number |
| Calendar.CivilIsBijective | crates/daemon/src/state.rs:606-617 | every valid proleptic Gregorian date belongs to exactly one day number |
| Calendar.CivilFollowsCalendar | crates/daemon/src/state.rs:606-617 | the next day number has the calendar successor as its date |
| Calendar.YearOfEraIsExact | crates/daemon/src/state.rs:611 | the quotient with its three corrections is the year whose March-based span holds the day of the era |
| Calendar.MarchDateIsExact | crates/daemon/src/state.rs:612-616 | the month formula gives a valid date and its day number |
| Calendar.EraIsFloor | crates/daemon/src/state.rs:608-610 | the correction for negative days turns truncating division into a floor |
| Calendar.EpochIsDayZero | crates/daemon/src/state.rs:606-617 | day 0 is 1970-01-01 |
| Calendar.DayLabelAdvances | crates/daemon/src/state.rs:599-604 | one day later the axis label is the one of the calendar successor |
| EventBus.EventBus.Subscribe | crates/daemon/src/state.rs:910-930 | the id is new for all time, the subscription is added to all three indexes |
| EventBus.EventBus.Unsubscribe | crates/daemon/src/state.rs:932-940 | exactly the subscription goes, from all three indexes |
| EventBus.EventBus.RemoveConn | crates/daemon/src/state.rs:942-953 | exactly the connection's subscriptions go |
| EventBus.EventBus.Broadcast | crates/daemon/src/state.rs:955-978 | every subscriber of the topic whose send succeeds is reached once, in subscription order; exactly the subscribers of the topic whose send failed are dropped |
| EventBus.EventBus.HasTopic | crates/daemon/src/state.rs:980-983 | true exactly when a subscription of the topic exists |
| EventBus.PushKeepsIndex | crates/daemon/src/state.rs:922-927 | adding a new id keeps an index exact, ordered and free of empty lists |
| EventBus.DropKeepsIndex | crates/daemon/src/state.rs:988-1001 | so does taking one out |
| EventBus.IndexUnique | crates/daemon/src/state.rs:877-902 | an index is determined by the subscriptions it lists |
| RunLedger.RunLedger.Start | crates/daemon/src/state.rs:92-114 | appends one open record with the next sequence number, above every one in the ledger, whatever the file held |
| RunLedger.RunLedger.Finish | crates/daemon/src/state.rs:116-143 | settles exactly the open records of the run, in any ledger, with the time and the status |
| RunLedger.FirstFinishStands | crates/daemon/src/state.rs:124-135 | a second finish of a run changes nothing |
| RunLedger.RunLedger.HasOpenRun | crates/daemon/src/state.rs:159-166 | true exactly when the session has an unfinished record |
| RunLedger.RunLedger.ReadFromCursor | crates/daemon/src/state.rs:200-215 | returns the records after the cursor and the cursor of the last record |
| RunLedger.SkipsNothingIff | crates/daemon/src/state.rs:200-208 | a read from a cursor returns the whole ledger exactly when every number is above the cursor, for cursor 0 when every number is positive |
| RunLedger.CursorCoversAppendsIff | crates/daemon/src/state.rs:200-215 | reading from a returned cursor yields exactly the records appended since, whatever was settled meanwhile, if and only if the last record had the highest number |
| RunLedger.LastStaysHighest | crates/daemon/src/state.rs:92-143 | a new record puts the highest number last whatever came before, and settling runs does not change it |
| RunLedger.MissingNumberSkipsAndRepeats | crates/session/src/lib.rs:187-189 | a file whose last record lacks its number: the first read skips that record and the second repeats the other |
| RunLedger.RunLedger.SnapshotSince | crates/daemon/src/state.rs:189-198 | copies exactly the records at or above the floor |
| RunLedger.RunLedger.Stats | crates/daemon/src/state.rs:171-185 | aggregating the filtered snapshot reports what the whole ledger would |
| Stats.SnapshotSuffices | crates/daemon/src/state.rs:171-185 | for every range the summary of the floor-filtered records is the summary of all records |
| Stats.AggregateStats | crates/daemon/src/state.rs:427-547 | the loop computes every number as a count, sum or set over the records of the window |
| Stats.TallyRuns | crates/daemon/src/state.rs:442-470 | the counters after the loop are the declarative counts of the five classes of records |
| Stats.TotalsAdd | crates/daemon/src/state.rs:450-472 | succeeded, failed, aborted and in-flight runs add up to the total |
| Stats.CountersMean | crates/daemon/src/state.rs:442-470 | the five counters are the numbers of ledger records in the window that ended ok, aborted or paused, otherwise, or not at all |
| Stats.WindowMeans | crates/daemon/src/state.rs:430-438 | the window begins its length before now, or with the earliest record or now |
| Stats.RangesMean | crates/daemon/src/state.rs:293-305 | the lengths the six tokens stand for |
| Stats.PreviousMeans | crates/daemon/src/state.rs:479-503 | the numbers of the window before: all runs, ok, ended otherwise |
| Stats.AverageMeans | crates/daemon/src/state.rs:463-473 | the average times the number of runs of the window that did not finish before they started is the time they took |
| Stats.PreviousAverageMeans | crates/daemon/src/state.rs:479-503 | the same for the window before |
| Stats.RateMeans | crates/daemon/src/state.rs:475-476 | the rate times the length of the window is the runs per hour of it; none for an empty window |
| Stats.SessionsMean | crates/daemon/src/state.rs:466-469 | the distinct named sessions with a run in the window |
| Stats.RecentMeans | crates/daemon/src/state.rs:505-525 | the feed shows the twelve newest records of the window, newest first and in ledger order among equals, each with its fields, duration and status |
| Stats.BucketsTile | crates/daemon/src/state.rs:552-588 | the twelve buckets tile the window without gap or overlap and their widths differ by at most a millisecond |
| Stats.BucketsSum | crates/daemon/src/state.rs:552-588 | the bucket counts add up to the runs started in the window |
| Stats.BucketMeans | crates/daemon/src/state.rs:552-588 | each bucket counts the records that started in it, the last one up to now |
| MemoryGraph.MemoryGraph.constructor | crates/memory/src/graph.rs:63-107 | the linked edges are exactly the ones the fields of the entries call for, and the latest entry wins an id |
| MemoryGraph.MemoryGraph.LinkEntry | crates/memory/src/graph.rs:80-105 | one entry contributes exactly its shared-tag, replacement and contradiction edges |
| MemoryGraph.MemoryGraph.LinkAll | crates/memory/src/graph.rs:80-105 | the loop links exactly the derived edges |
| MemoryGraph.MemoryGraph.Link | crates/memory/src/graph.rs:109-118 | both adjacency maps stay mirror images of the set of linked edges |
| MemoryGraph.TagIndex | crates/memory/src/graph.rs:72-79 | the index lists an id under a tag exactly when an entry with that id carries it |
| MemoryGraph.NeighborsSymmetric | crates/memory/src/graph.rs:122-132 | an edge can be crossed from both ends with the same kind |
| Recall.Cascade | crates/memory/src/recall.rs:156-186 | although it updates scores in place and extends only what it just improved, every node ends with the maximum over all walks of at most two hops, and the recorded path attains it |
| Recall.Relax | crates/memory/src/recall.rs:166-180 | one candidate is either taken or not better, and nothing settled before is unsettled |
| Recall.NothingLeft | crates/memory/src/recall.rs:181-184 | stopping early on an empty frontier changes no score |
| Recall.BestScoresUnique | crates/memory/src/recall.rs:156-186 | the scores do not depend on the order of visits, and no direct score is lowered |
| Recall.ScoresAreHighestOffers | crates/memory/src/recall.rs:147-180 | in numbers: every score is the highest offer and every offer is met, where a hit offers its score, one edge 0.56, 0.63 or 0.21 of it, a second edge 0.392, 0.441 or 0.147 of that, and an edge into a stored inactive entry half |
| Recall.DeadRanksBehindLivePeer | crates/memory/src/recall.rs:159-166 | of two entries that share the tag of a hit the live one is recalled at 0.56 and the dead one at 0.28, which a slice of two leaves out |
| Recall.TopK | crates/memory/src/recall.rs:156-205 | the result is the best k stored entries by score, then id |
| Recall.RecallDeterministic | crates/memory/src/recall.rs:186-205 | two recalls return the same entries with the same scores in the same order |
| Checksum.ChecksumOf | crates/session/src/archive.rs:114-121 | the loop computes the sixteen hex digits of the xor-multiply fold |
| Checksum.StepInjective | crates/session/src/archive.rs:116-119 | a step loses nothing modulo 2^64, because the multiplier is odd |
| Checksum.MultiplyInjective | crates/session/src/archive.rs:118 | wrapping multiplication by the constant is injective |
| Checksum.XorBit | crates/session/src/archive.rs:114-121 | the exclusive or is one bit by bit |
| Checksum.DigitAt | crates/session/src/archive.rs:114-121 | the digits are the hexadecimal digits of the hash, the last one first |
| Checksum.ChecksumDetectsChange | crates/session/src/archive.rs:114-121 | replacing any one byte by a different one changes the checksum |
| Archive.EncodeArchive | crates/session/src/archive.rs:123-158 | writes header, messages and a trailer whose checksum covers everything before it |
| Archive.DecodeArchive | crates/session/src/archive.rs:160-223 | the loop computes the decoding with all its error cases in order |
| Archive.DecodesExactly | crates/session/src/archive.rs:160-226 | a file decodes exactly when its last line is a trailer with the checksum of the body and the body is one header and as many messages as it declares, which are the result |
| Archive.RoundTrip | crates/session/src/archive.rs:123-223 | decoding undoes encoding for every session and message list |
| Archive.CorruptByteRejected | crates/session/src/archive.rs:160-190 | a file with any one body byte replaced is rejected for its checksum |
| Archive.TruncationRejected | crates/session/src/archive.rs:160-223 | of all proper prefixes of a file only the one that misses just the final line break decodes |
| TurnLog.InterruptedRunClosers | crates/session/src/turn_log.rs:35-66 | per run id exactly as many aborted ends as starts left unmatched, although the open list is reordered |
| TurnLog.UnmatchedIsLargestSurplus | crates/session/src/turn_log.rs:35-50 | the unmatched starts are the largest surplus of starts over ends in any suffix of the log |
| TurnLog.SwapRemoveCounts | crates/session/src/turn_log.rs:44-46 | removing by swap takes away one instance and nothing else |
| TurnLog.RepairBalances | crates/session/src/turn_log.rs:35-66 | appending the closers leaves no run open |
| TurnLog.RepairIdempotent | crates/session/src/turn_log.rs:35-66 | a repaired log gets no further closers |
| TurnLog.EncodeTurnLog | crates/session/src/turn_log.rs:69-79 | one terminated line per record |
| TurnLog.DecodeTurnLog | crates/session/src/turn_log.rs:82-97 | skips blank lines and reports the number of the first bad one |
| TurnLog.LogRoundTrip | crates/session/src/turn_log.rs:69-97 | decoding undoes encoding, and appending encoded records appends the records |
| TurnLog.TurnLogs.AppendTurnLog | crates/session/src/lib.rs:1657-1714 | the stored text of a log that decodes is kept and the new records follow it; the text of one that does not is replaced by the new records; a missing session is a no-op and a blank id an error |
| TurnLog.TurnLogs.RepairInterruptedRuns | crates/daemon/src/server.rs:674-698 | every readable log gets exactly its missing aborted ends and keeps its text when none is missing, an unreadable one is left alone, and no run is open afterwards |
| TurnLog.RepairTwice | crates/daemon/src/server.rs:674-698 | repairing the stored logs twice is repairing them once, to the byte |
| TurnLog.BalancedStays | crates/session/src/turn_log.rs:35-66 | a log without open runs gets no record |
| TurnLog.AppendDecodes | crates/session/src/lib.rs:1684-1708 | appending encoded records to a log in whole lines appends the records, whatever spelling the log has |
| TurnLog.AppendKeepsLogIffReadable | crates/session/src/lib.rs:1684-1708 | the stored log is a prefix that stays in front of the new records exactly when it decodes |
| TurnLog.TornLineLosesLog | crates/session/src/lib.rs:1684-1708 | with a record and a torn line behind it stored, the next append loses the record |
| SessionStore.RewindIsTruncateWithBackup | crates/session/src/lib.rs:1406-1469 | rewind, defined by the numbers of the messages, leaves the same live sessions as truncate, defined by cutting the list, and backs up exactly the dropped messages in order and with their numbers |
| SessionStore.RestoredFormIsSame | crates/session/src/lib.rs:1005-1083 | restoring an archive and archiving again gives the same messages |
| SessionStore.ArchiveRestoreRoundTrip | crates/session/src/lib.rs:918-1083 | archiving and restoring a session gives back its title, parent, times, run log and messages, all but the access time and the tool calls, and changes no other session |
| SessionStore.RoleRoundTrip | crates/session/src/lib.rs:132-151 | parsing the stored spelling of a role gives the role back |
| SessionStore.StepGrows | crates/session/src/lib.rs:918-1083 | for every operation: archives stay prefixes of the live messages exactly when the operation is guarded, and then every one but a cut or a deletion keeps all histories |
| SessionStore.PrefixesThroughoutIffGuarded | crates/session/src/lib.rs:918-1083 | over every run the archives are prefixes in all states exactly when every operation was guarded |
| SessionStore.ArchivingNeverRefused | crates/session/src/lib.rs:918-1083 | over every guarded run, with shallow cuts, deletions, and crashes between writing and deleting, archiving a live session is never refused and every archive can be restored |
| SessionStore.HistoryNeverLost | crates/session/src/lib.rs:918-1083 | over guarded runs without cuts and deletions no session is lost and its history only grows |
| SessionStore.CutKeepsPrefixIffShallow | crates/session/src/lib.rs:1406-1469 | truncate and rewind keep the archive a prefix exactly when they do not reach into it |
| SessionStore.GuardMissesDivergence | crates/session/src/lib.rs:939-963 | restore, rewind, append and archive replace an archived message although the guard passes |
| SessionStore.GuardMissesStartingOver | crates/session/src/lib.rs:939-963 | append to an archived session and archive it: the archived message is replaced although the guard passes, with no cut at all |
| SessionDb.SessionDb.EnsureSession | crates/session/src/lib.rs:659-706 | creates or bumps the session; blank ids and titles are refused |
| SessionDb.SessionDb.AppendMessage | crates/session/src/lib.rs:1294-1394 | the number assigned is one more than the messages so far, and the tables again hold transcripts numbered from one |
| SessionDb.SessionDb.TruncateMessages | crates/session/src/lib.rs:1406-1424 | drops exactly the messages from the given number on and reports how many |
| SessionDb.SessionDb.RewindMessages | crates/session/src/lib.rs:1439-1469 | the dropped rows are in the backup, and their number is reported |
| SessionDb.SessionDb.DeleteSession | crates/session/src/lib.rs:771-786 | the session goes with its messages and backups |
| SessionDb.SessionDb.ArchiveSession | crates/session/src/lib.rs:918-994 | each error in its order, and an archive that does not decode may be replaced; otherwise the archive holds the session and the rows are gone, or still there after the crash point |
| SessionDb.SessionDb.RestoreSession | crates/session/src/lib.rs:1005-1083 | each error in its order, for damaged and misnamed files, live sessions and unknown roles, with nothing changed; otherwise the session is live with the title, parent, times and run log of the archive, a new access time, and its messages in order with their roles, texts, times and attachments |
| SessionDb.SessionDb.LookUp | crates/session/src/lib.rs:839-851 | a live session is touched, an archived one restored, exactly, and no history changes if the archive spells roles as this program does; it fails exactly on a blank id and on an archive that cannot be restored |
| SessionDb.SessionDb.LoadMessages | crates/session/src/lib.rs:1508-1553 | the last messages up to the limit in ascending order, of live and archived sessions alike; the store afterwards is exactly the one with this session opened and touched |
| SessionDb.SessionDb.CompressIdleSessions | crates/session/src/lib.rs:1118-1168 | on every store the qualifying sessions of the batch are archived in order up to the first refused one, which is the error; the store afterwards is exactly that fold, and without a refusal the receipts are the batch |
| SessionDb.SweepOfCutStore | crates/session/src/lib.rs:1149-1167 | a session archived, restored and rewound, and one used since: the sweep archives the second one and ends with the error |
| SessionDb.RefusalBlocksNextSweep | crates/session/src/lib.rs:1149-1167 | the sweep after a refused one meets the refused session again and archives no session ranked after it |
| SessionDb.SweepLeavesOthers | crates/session/src/lib.rs:1149-1167 | the sessions that were not archived keep their messages, archives and backups |
| SessionDb.SweepOfPrefixStore | crates/session/src/lib.rs:1149-1167 | on a store whose archives are prefixes the whole batch is archived and no history shrinks |
| IdleSweep.ArchivableIsFirstRefusal | crates/session/src/lib.rs:1159-1165 | the sweep goes exactly as far as the first session whose archive holds more messages |
| IdleSweep.RefusedIffOneShrinks | crates/session/src/lib.rs:1159-1165 | it is refused exactly when the batch holds such a session |
| IdleSweep.RefusalIsReached | crates/session/src/lib.rs:939-963 | operations alone lead to a live session that cannot be archived, ranked behind one that can |
| IdleSweep.RefusedStays | crates/session/src/lib.rs:939-963 | over every run that neither appends to it nor deletes it a refused session stays refused |
| IdleSweep.RefusedBlocksRest | crates/session/src/lib.rs:1149-1167 | a sweep a refused session qualifies for touches no session ranked from it on |
| IdleSweep.NextSweepIsBlocked | crates/session/src/lib.rs:1149-1167 | after a refused sweep the same session qualifies again, with the same or a smaller floor and the same or a later cutoff |
| IdleSweep.OthersStay | crates/session/src/lib.rs:918-994 | archiving sessions changes nothing about any other one |
| IdleSweep.PrefixStoreSweeps | crates/session/src/lib.rs:1149-1167 | archiving a batch of a store whose archives are prefixes is never refused and loses nothing |
| SessionDb.CutRepresents | crates/session/src/lib.rs:1406-1424 | deleting the rows from a number on leaves numbers 1 to n without a gap |
| SessionDb.InsertRepresents | crates/session/src/lib.rs:1343-1375 | so does inserting a row at the largest number plus one |
| SessionDb.MaxSeq | crates/session/src/lib.rs:1343-1356 | the largest number of a session is the number of its messages |
| SessionDb.TailReversed | crates/session/src/lib.rs:1525-1551 | the descending window reversed is the tail of the transcript |
| IdleSweep.SweptEnough | crates/session/src/lib.rs:1149-1158 | stopping at a full batch gives the same sessions as going on |
| IdleSweep.QualifiesIff | crates/session/src/lib.rs:1126-1157 | a session qualifies exactly when neither its update nor its access is recent and at least the kept number of sessions was used after it |
| IdleSweep.BatchIsIdle | crates/session/src/lib.rs:1118-1158 | a sweep takes only sessions unused for the given time behind the kept ones, and all of them up to the batch limit of at least one |
| Lineage.IsAncestorInStore | crates/daemon/src/reaper.rs:159-179 | the walk ends on every store, cyclic or dangling, and is true exactly when the ancestor is some k-th parent with every session before it stored |
| Lineage.ChainRepeats | crates/daemon/src/reaper.rs:164-168 | once a parent chain meets itself it brings nothing new |
| Attach.AttachTracker.Attach | crates/daemon/src/reaper.rs:49-57 | counts one more, except for the empty id |
| Attach.AttachTracker.Detach | crates/daemon/src/reaper.rs:60-74 | counts one less, saturating, and drops a zero entry |
| Attach.AttachTracker.Route | crates/daemon/src/server.rs:1010-1036 | a request attaches its target each time and lists it once |
| Attach.RoutedAreListed | crates/daemon/src/server.rs:1010-1036 | after a request its connection lists what it listed, the target and the session of the subscription |
| Attach.RequestsGoTo | crates/daemon/src/server.rs:1010-1036 | after every run a request goes to the session it names, else to the one its connection named last, and without orbit to the legacy entry |
| Attach.AttachTracker.Release | crates/daemon/src/server.rs:939-941 | the teardown detaches every listed session once |
| Attach.StepSurplus | crates/daemon/src/server.rs:1010-1036 | an event changes the surplus of a count over the listing connections by exactly its repeats |
| Attach.CountIsListingPlusRepeats | crates/daemon/src/server.rs:1010-1036 | after every run a count is the open connections listing the session plus the repeated requests |
| Attach.ListedIsAttached | crates/daemon/src/server.rs:939-941 | a listed session is attached, so no teardown ever saturates |
| Attach.ReleasedUnlessRepeated | crates/daemon/src/server.rs:939-941 | the last teardown releases a session exactly when no request repeated it |
| Attach.TwoPromptsLeak | crates/daemon/src/server.rs:1018-1024 | two prompts and a hang-up leave the session attached |
| Attach.RepeatedNeverReleased | crates/daemon/src/server.rs:1018-1024 | once a request has repeated a session, it is attached after every continuation of the run |
| Reaper.TickOutcome | crates/daemon/src/reaper.rs:121-148 | for every order of visits, what a tick does to a session from what it observed and the clock before |
| Reaper.ClocksAreStreaks | crates/daemon/src/reaper.rs:121-148 | over every run a clock runs for a session exactly when there is an unbroken streak of ticks that observed it eligible and did not unload it, and it shows the start of the longest one |
| Reaper.UnloadedExactlyAfterGrace | crates/daemon/src/reaper.rs:121-148 | a tick unloads a live session exactly when it observes it eligible and, at some tick at least 180 seconds ago and at every one since, it was observed eligible and not unloaded |
| Reaper.TickUnrelates | crates/daemon/src/reaper.rs:121-157 | after any tick no clock runs for two sessions of which one descends from the other |
| Reaper.ParentOutlivesChild | crates/daemon/src/reaper.rs:121-157 | unless the last lineage change since the last tick relates two sessions with running clocks, no session is unloaded before, or in the same tick as, a live descendant |
| Reaper.QuietIffUnrelated | crates/daemon/src/reaper.rs:121-157 | over every run, that condition holds exactly when no two related sessions have running clocks |
| Reaper.NewChildIsQuiet | crates/daemon/src/reaper.rs:159-179 | giving any parent to a session that has no children and no running clock keeps it |
| Reaper.LineageChangeBreaksOrder | crates/daemon/src/reaper.rs:121-157 | a lineage change between two ticks can unload child and parent together |
| ReaperOrder.ParentUnloadableIffFamilyRipe | crates/daemon/src/reaper.rs:121-157 | some order of visits unloads a session despite a live descendant exactly when its whole live family is idle with clocks run out and acyclic |
| ReaperOrder.UnloadedFamilyIsRipe | crates/daemon/src/reaper.rs:121-157 | the necessary half, for every order |
| ReaperOrder.RemovalOrder | crates/daemon/src/reaper.rs:121-157 | visiting ancestors last unloads a whole ripe set |
| Reaper.TargetedStaysLoaded | crates/daemon/src/reaper.rs:129-131 | a session listed by an open connection is never unloaded |
| Reaper.RepeatedStaysLoaded | crates/daemon/src/reaper.rs:129-131 | a live session that some request has repeated stays live through every later event and tick |
| Reaper.SessionReaper.RunTick | crates/daemon/src/reaper.rs:121-148 | the loop is the tick for the order it happened to visit |
| Reaper.SessionReaper.LiveDescendant | crates/daemon/src/reaper.rs:151-157 | true exactly when another live session descends from this one |
| Reaper.SessionRegistry.WithSession | crates/daemon/src/registry.rs:89-112 | gets or creates the handle of the routed session |
| Reaper.SessionRegistry.Unload | crates/daemon/src/registry.rs:166-176 | removes exactly the routed handle |
| Jobs.LocalJobRegistry.StartJob | crates/jobs/src/lib.rs:440-470 | refused after shutdown or at the ceiling, otherwise one new running job under a new id |
| Jobs.LocalJobRegistry.KillJob | crates/jobs/src/lib.rs:563-577 | answers the state before; a running job is cancelled and killed, any other unchanged |
| Jobs.LocalJobRegistry.RemoveJob | crates/jobs/src/lib.rs:624-633 | forgets terminal jobs only |
| Jobs.LocalJobRegistry.ShutDownAll | crates/jobs/src/lib.rs:388-399 | cancels every running job and forgets all |
| Jobs.LocalJobRegistry.ConcludeTask | crates/jobs/src/lib.rs:478-498 | a returned output means killed or completed by the cancel flag at that moment, a raised error failed |
| Jobs.LocalJobRegistry.FinishTask | crates/jobs/src/lib.rs:324-344 | a killed record stays killed, and the summary is the record's |
| Jobs.LocalJobRegistry.NotifyDone | crates/jobs/src/lib.rs:512-522 | the hook gets the summary if there is one |
| Jobs.RunEvolves | crates/jobs/src/lib.rs:318-633 | over every interleaving record, cancel flag, thread and announcements agree, and a job only moves forward |
| Jobs.KillIsObserved | crates/jobs/src/lib.rs:563-577 | a kill that met a running job makes every later status and announcement say killed |
| Jobs.TerminalIsFinal | crates/jobs/src/lib.rs:324-344 | a terminal state never changes, and a removed job never comes back |
| Jobs.HookFiresOnce | crates/jobs/src/lib.rs:401-415 | at most one announcement per job, terminal and in agreement with its status |
| Jobs.AnnouncedIffHookedAndRemembered | crates/jobs/src/lib.rs:401-415 | in every run a job whose thread is done was announced exactly when the hook was registered by then and no shutdown or successful removal came between its start and its finish; the three moments exist and are unique |
| Jobs.HasBiography | crates/jobs/src/lib.rs:478-523 | in every run, how far the thread of a started job has come, when, and whether the registry still remembers the job |
| Jobs.MomentsAreUnique | crates/jobs/src/lib.rs:478-523 | a job is started, finished and notified at most once |
| Jobs.KilledAndRemovedIsSilent | crates/jobs/src/lib.rs:401-415 | a running job that is killed and removed is never announced |
| Jobs.JobEndsAsItsTaskDid | crates/jobs/src/lib.rs:478-523 | over every run a remembered job ends killed exactly if a kill came between its start and its finish, else completed if its task returned and failed if it raised, with the label, start and output of its task, and the announcement says the same |
| Jobs.FinishNeedsConclude | crates/jobs/src/lib.rs:478-498 | a thread that has a result has looked at its flag once, after its start |
| Jobs.CeilingHolds | crates/jobs/src/lib.rs:440-456 | the running jobs never exceed the ceiling |
| Jobs.IdsAreFresh | crates/jobs/src/lib.rs:457-458 | no id is handed out twice |
| Jobs.ShutdownIsFinal | crates/jobs/src/lib.rs:388-399 | after a shutdown there is never a job again |
| Workspace.OwnerOf | scripts/ci_scope.py:208-214 | the best-so-far loop computes the owner |
| Workspace.OwnerIsInnermost | scripts/ci_scope.py:208-214 | a path has an owner exactly when a package directory covers it, and every other covering directory lies around the owner's |
| Workspace.LoadDependents | scripts/ci_scope.py:196-206 | the edges are exactly the path dependencies between members under their real names |
| Workspace.Closure | scripts/ci_scope.py:216-225 | the worklist ends, with the least set that holds the seeds and is closed under dependents, which is what chains of dependents reach |
| CiScope.Resolve | scripts/ci_scope.py:421-566 | the mode, seeds, packages and errors of a change set |
| CiScope.ClassifyAll | scripts/ci_scope.py:481-512 | the loop collects exactly the directly hit packages, orphans and ignored paths, or reports the first unknown seed target |
| CiScope.ClassMeans | scripts/ci_scope.py:481-512 | the class of every path: workflow and root files first, then the first seed rule that fits, then the ignore rules, then the innermost package directory |
| CiScope.GraphMovesForcesFull | scripts/ci_scope.py:442-476 | a toolchain file, a root manifest that moves everything, or a lock file without any manifest puts the whole workspace in scope |
| CiScope.TouchedDependencyIsCovered | scripts/ci_scope.py:514-521 | a dependency the root manifest changed is tested in every package with an entry for it and in everything that uses these |
| CiScope.OwnedPathIsCovered | scripts/ci_scope.py:481-545 | the package that the first fitting seed rule names, or else the innermost directory, and every package that uses it directly or not, is in scope |
| CiScope.PlanIsInsideWorkspace | scripts/ci_scope.py:421-566 | a plan names members only |
| CiScope.PulledHasReason | scripts/ci_scope.py:553-562 | outside the closure exactly those packages are in scope that a chain of rules, one triggering the next, leads to from the closure |
| CiScope.OrphanCodeForcesFull | scripts/ci_scope.py:524-533 | no orphan Rust source or manifest is dropped |
| CiScope.SkipIsSafe | scripts/ci_scope.py:535-544 | a change set is skipped exactly when it moves nothing, no package has an entry for a dependency that the root manifest changed, and every path is a workflow, lock or root manifest file, ignored, or outside every package and not code |
| CiScope.MoreChangesKeepScope | scripts/ci_scope.py:421-566 | more changed paths keep every package in scope if and only if no manifest joins a lock file changed without one, or the larger change moves everything, holds orphan code, or reaches the whole workspace |
| CiScope.ManifestNarrowsLock | scripts/ci_scope.py:470-476 | then the full scope shrinks to what uses the manifest's package |
| CiScope.Scope.SplitBuckets | scripts/ci_scope.py:349-390 | fails exactly when a wasm directory matches nothing, otherwise deals every package in order |
| CiScope.BucketsCover | scripts/ci_scope.py:349-390 | the three buckets cover the scope and nothing else is in them: test holds the packages with tests, wasm the ones under a wasm directory, check the rest |
| Backoff.DelayCapped | crates/llm/src/backoff.rs:41-50 | no wait exceeds the ceiling, and a smaller `Retry-After` is taken as it is |
| Backoff.DelayNonDecreasing | crates/llm/src/backoff.rs:41-50 | computed waits never shrink from one attempt to a later one |
| Backoff.DelayDoubles | crates/llm/src/backoff.rs:41-50 | waits start at the base, double until the ceiling, and are constant from attempt 17 on |
| LlmCall.StreamCb | crates/llm/src/openai.rs:288-351 | the loop emits the events, makes the requests and computes the waits of the call |
| LlmCall.StreamRoundTrip | crates/llm/src/openai.rs:373-469 | one round: its events, its failure if it may be retried, whether text was emitted |
| LlmCall.StreamLines | crates/llm/src/openai.rs:422-463 | the loop over the lines, with the signal looked at before each |
| LlmCall.SleepAbortable | crates/llm/src/openai.rs:251-263 | the loop in steps of 25 ms |
| LlmCall.SleepHeedsSignal | crates/llm/src/openai.rs:251-263 | a wait is cut short exactly when one of its looks sees the signal, and never lasts longer than asked |
| LlmCall.RoundIsSound | crates/llm/src/openai.rs:373-469 | a round that may be retried has emitted neither text nor a terminal event, any other ends with its only one |
| LlmCall.ExactlyOneTerminalEvent | crates/llm/src/openai.rs:288-351 | whatever the provider does and whenever the abort comes, exactly one terminal event is emitted, as the last one |
| LlmCall.TextComesFromLastRound | crates/llm/src/openai.rs:320-338 | all text deltas of a call come from its last request |
| LlmCall.CallInFull | crates/llm/src/openai.rs:288-469 | every event of every call: the reasoning of the retried requests, then for the last one its text and reasoning in line order, all tool calls gathered from the lines read and `Done` with the last stop reason or `Aborted`, or its deltas and its error |
| LlmCall.RequestsAndWaitsBounded | crates/llm/src/openai.rs:318-349 | at most max(1, max_attempts) requests; waits capped, equal to a smaller `Retry-After` in milliseconds and, without one, non-decreasing |
| LlmCall.RetriesExactlyWhileWorthIt | crates/llm/src/openai.rs:318-349 | without an abort the requests go exactly up to the first round not worth retrying or the last allowed one |

## Left out

- Sockets, processes, HTTP, SQLite, zstd, file permissions: only the atomic effect of a transaction or a rename is modelled.
- Integer width: ids, sequence numbers, counters and day numbers are unbounded, so their wrap-around at the extremes of 64 bits is not modelled.
- Text: trimming, blankness and lower-casing are modelled on ASCII; archive text is bytes, and the UTF-8 check of a file is not modelled.
- Recall.Cascade: the direct scores are given positive numbers; tokenizing, inverse document frequency, embeddings and `f32` rounding are not modelled.
- Stats.AggregateStats: the axis labels are not fields of a bucket (`Calendar` has the `MM-DD` one, the `HH:MM` one is left out), and the list of unavailable metrics is left out; averages and rates are exact.
- RunLedger.RunLedger.Stats: requires start times that fit 64 bits, as the lower bound of the unlimited window is the smallest such number.
- RunLedger.RunLedger.constructor: takes the records of the file in any order and with any numbers; reading and writing the ledger file is left out.
- TurnLog.TurnLogs.AppendTurnLog: a log that decodes is taken to end in a line break, as every log this program writes does.
- TurnLog.InterruptedRunClosers: the order of the closers is not stated, as it depends on the reordering of the open list for repeated ids.
- SessionStore.HistoryNeverLost: opening a session that exists only in a non-empty archive, and appending to one whose archive does not agree, are excluded by the guard; an append between the read and the delete of an archiving is not covered. The code protects against none of them.
- SessionStore.RestoredFormIsSame: states the archived fields; tool calls and rewind backups do not survive archiving.
- SessionDb.SessionDb.ArchiveSession: the write of the file is one step before the crash point.
- SessionDb.SessionDb.RestoreSession: an archive that decodes is taken to number its messages from one, as every archive this program writes does.
- SessionDb.SessionDb.CompressIdleSessions: one sweep at a time, so that no session of the listing goes away meanwhile.
- SessionDb: listing, searching, titles, purging of archives, the identity and time columns of rewind backups, schema migration.
- Reaper.SessionReaper.RunTick: open runs, lineage and clock are read once per tick; the restoring side effect of the session lookup during the walk is not modelled.
- Attach.AttachTracker.Route: other parts of a request, and connections handled at the same time within one step.
- Jobs: join handles, `wait`, the listing order, tasks that panic, and the decimal spelling of ids.
- Workspace.OwnerOf: package names are taken as distinct, as cargo requires of workspace members.
- CiScope.Resolve: reading git, cargo metadata and the comparison of two root manifests (its verdict is an input), the explanatory texts and the owner report; the dependency names of `touched_deps` are taken as the manifest spells them.
- RepeatReminder.RepeatToolReminder.Observe: the text of a reminder and the cut of its argument preview.
- LlmCall.StreamCb: request bodies, parsing of chunks and tool call assembly (`flush` is a parameter); reasoning deltas may repeat on a retry, as in the code.
- Plan mode, the question broker, provider routing, injection gates, timeout rules, web and command line code: smaller claims than those above.
