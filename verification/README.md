# Recovery of the Wikimedia edit pipeline, proved in Dafny

The pipeline reads the live edit stream into `wiki.raw`, cleans it into `wiki.clean`, and derives from
that a table of edits, per-minute page counts, a compacted page table and edit war alerts. Every stage
keeps state in memory, may die at any step, and restarts from a committed offset. This project models
that recovery logic and proves what it is for: what survives every run, whatever dies when.

A partition is a sequence of records whose indices are the offsets. A stage is a state machine over what
outlives a process (committed offsets, output logs, tables, the checkpoint file) and what does not
(windows, caches, guards, pending sends). A run is any sequence of steps, dying and restarting included,
and the theorems hold in every state of every run. The stages that update objects in place are classes:
the methods of a stage that restarts are proved to be steps of its machine, the others to compute its functions.

| file | what it holds |
|---|---|
| `Common.dfy`, `Events.dfy`, `Sorting.dfy` | options, least elements; the records passed along; stable insertion sort |
| `Windows.dfy`, `Trending.dfy`, `TrendingProcess.dfy`, `Conservation.dfy` | minute windows, the trending machine and its theorems, the process and the upsert, where counted edits go when the cap is reached |
| `Dedup.dfy`, `Warmup.dfy`, `Cleaner.dfy`, `CleanerProcess.dfy`, `FirstCopies.dfy` | bucketed dedup as a sliding window, warm-up, the cleaning machine, the process, when exactly an event can be lost |
| `DeliveryTracker.dfy`, `Ingestor.dfy`, `ResendBound.dfy`, `IngestorProcess.dfy`, `Sse.dfy` | confirmations in any order, checkpoint safety, how much a crash re-reads, the process and its file, the stream format |
| `PageState.dfy`, `PageTable.dfy`, `PageProcess.dfy` | the changelog-backed guard, the page table as a stable sort, both classes |
| `EditWar.dfy`, `EditWarDetector.dfy`, `Expiry.dfy` | the alert rule on one page, the detector over all pages, when exactly forgetting pages shows |
| `Sink.dfy`, `EndToEnd.dfy` | the edits table, and the whole path of an event |

## Where the code and its promises part

- Warm-up loads the id of every readable raw record, also of heartbeats and of records the cleaner rejects
  (processors/warmup.py:166-173), while live cleaning records only ids of good events. After a crash a good
  event whose id was first seen in such a record is dropped as a duplicate. `FirstCopies.NeverLosesIffFirstCopiesValid`
  gives the exact condition on the raw log.
- A connection opened before any id was confirmed has no `Last-Event-ID` and may start anywhere
  (ingestor/checkpoint.py:74-78). If it starts past what the process has read, the checkpoint can pass the
  events in between. `Ingestor.LosesIff` says exactly which of them, whatever is still in flight and whatever
  happens afterwards, other connections and restarts included: the unconfirmed ones after which an id is given.
  `Ingestor.HeaderlessReconnectSkips` is such a run, and `Ingestor.CheckpointCoversStream` proves that without
  such a start every checkpoint covers the stream from its first event. Events the process has read are safe
  in either case.
- A page update dated before -1 ms is always stale, because an unknown page counts as last updated at -1
  (processors/page_state.py:56-64). `PageTable.TableIsSortedIff` gives the exact condition.
- A deletion dated exactly at the epoch asks for the timestamp 0, which the client takes for none and replaces by the
  time of day (processors/page_state.py:151-158; the cleaner relies on this at processors/cleaner.py:99-105). A guard
  rebuilt from that tombstone is later than the one in memory. `PageState.CrashesAreInvisibleIff` gives the exact
  condition on the input.
- A new page starts with `alerted_until_ms = -1` (processors/edit_war_detector.py:75), so a first revert dated
  before the epoch starts a suppression without an alert. `EditWar.MissesNoWarIff` gives the exact condition. For the
  same reason it can be noticed that a page was forgotten before the epoch, by `expire` or by starting it afresh after a
  quiet time: `Expiry.ExpiryIsInvisibleIff` and `EditWar.QuietCutIsInvisibleIff` give the exact conditions.
- The comment at sinks/db.py:29-33 says a recount sees the same edits or fewer. A reader restarted at an arbitrary
  offset would have a lower watermark and could count more; `Trending.RestartSeesTheSameLateness` proves the comment
  right below the window cap, because offsets are only ever committed where no earlier edit is later in event time.
- An event whose `event:` field is empty gets the empty type (ingestor/sse.py:44-45), where section 9.2.6 of the
  WHATWG HTML Living Standard says `message`. `Sse.FramingRoundTrip` holds for the type as parsed.

## Model

| member | source | states |
|---|---|---|
| Windows.CapKeepsNewestMinutes | processors/windows.py:114-120 | forcing out ends, and keeps exactly the newest whole minutes, as many as fit, unchanged, remembering every minute forced out |
| Windows.MinuteWindows.Add | processors/windows.py:93-112 | counts an edit in its page minute unless it is past the cutoff or its minute is already written; other partitions are untouched |
| Windows.EditIsCountedIff | processors/windows.py:93-124 | an edit is refused iff its minute lies before the minute that is the allowance behind the latest time, or its page minute is already written; any other adds one to the page minute that contains its time, and to no other |
| Windows.MinuteWindows.EnforceCap | processors/windows.py:114-120 | the loop forces out whole oldest minutes until the windows fit |
| Windows.MinuteWindows.PopClosed | processors/windows.py:126-153 | returns the rows of finished windows of every partition, one row for each, lowers the floor for open ones written early, forgets old minutes |
| Windows.FlushForgetsFinished | processors/windows.py:126-153 | a final flush writes every window, any flush keeps the windows it did not write, and remembers exactly the written minutes that an edit could still be refused for |
| Windows.MinuteWindows.CommitOffsets | processors/windows.py:155-168 | for each partition the oldest offset still needed, never past a partial total |
| Windows.CommitIsOldestNeeded | processors/windows.py:155-168 | the commit point is the first offset of an open window, what a final flush cut short, or the offset after the last edit, and never past any of them |
| Windows.MinuteWindows.Revoke | processors/windows.py:175-178 | drops the state of the revoked partitions and nothing else |
| Trending.NothingCommittedIsLost | processors/trending.py:91-117 | in every run, an on-time edit is either at or after the committed offset or its page minute is stored with at least the on-time count of one uninterrupted read |
| Trending.NothingIsCountedTwice | sinks/db.py:29-41 | no stored total exceeds the number of edits of that page minute, recounts and final flushes included |
| Trending.CommittedMinutesAreExact | processors/windows.py:93-168 | once committed past, a page minute is stored exactly as the uninterrupted read counts it |
| Trending.RestartSeesTheSameLateness | sinks/db.py:29-33 | a reader restarted at a committed offset finds on time exactly what the uninterrupted reader does |
| Trending.CommitsNeverMoveBack | processors/windows.py:155-168 | committed offsets are monotone across flushes, deaths and restarts |
| Trending.CommitPointInRange | processors/windows.py:155-168 | the next commit lies between the committed offset and the position |
| Trending.NormalFlushesCountExactly | processors/windows.py:126-153 | counted plus written equals the on-time edits read, for every page minute |
| Trending.FlushScheduleIsIrrelevant | processors/windows.py:126-153 | two readers of the same offsets agree on every page minute whatever their flush timing and the other partitions |
| Trending.EmittedOnce | processors/windows.py:93-112 | an incarnation never writes a page minute twice, final flushes included |
| Trending.ReaderCountsIff | processors/windows.py:93-124 | in every run, a reader refuses an edit at t iff t / 60000 is below (m - lateness) / 60000, with m the largest time it has read, or the page minute is already written; it counts any other edit once, in its minute |
| Trending.OnTimeIff | processors/windows.py:103-124 | on time means the same, stated over the log and the lateness alone |
| Trending.WithinLatenessIsOnTime | processors/windows.py:103-124 | no edit within the allowance of every time read so far is late |
| Trending.FlushWritesFinishedMinutes | processors/windows.py:122-138 | in every run, a flush that is not final writes exactly the windows whose minute ended at least the allowance before the largest time read |
| Trending.FlushCommitsOldestNeeded | processors/trending.py:91-117 | after a flush the committed offset of each of its partitions is the oldest one still needed |
| Trending.CountInCounts | processors/windows.py:93-112 | the reference count is the number of edits of the page in the minute |
| Trending.OnTimeInCounts | processors/windows.py:93-112 | and the on-time count is the number of those that are on time |
| Trending.CapCanLose | processors/windows.py:114-120 | a run with room for one window and two pages in which an on-time edit is forced out, committed past and stored nowhere |
| Conservation.CountedIsConserved | processors/windows.py:93-153 | however reads, flushes and the cap interleave, the edits counted for a page minute are those written plus open plus forced out, and only one of the three is not zero |
| TrendingProcess.UpsertTrending | sinks/db.py:34-41 | each key ends at the greater of the stored and the written count, in any order of rows |
| TrendingProcess.UpsertAgainChangesNothing | sinks/db.py:29-41 | repeating the write leaves the table as it is |
| TrendingProcess.WriteWithRetry | sinks/db.py:177-189 | attempts lost after the server committed, and repeats of them, leave the table as one write does, and attempts lost before leave it alone |
| TrendingProcess.TrendingProcess.OnAssign | processors/trending.py:60-63 | is the machine's Assign step |
| TrendingProcess.TrendingProcess.Handle | processors/trending.py:72-89 | is the machine's Read step |
| TrendingProcess.TrendingProcess.Flush | processors/trending.py:91-117 | pop, write, commit in this order is the machine's Flush step |
| TrendingProcess.TrendingProcess.OnRevoke | processors/trending.py:65-70 | is a final Flush step followed by losing the partitions |
| Dedup.DedupCache.IsNewId | processors/dedup.py:33-46 | expire, look up, record, trim, in place, with the answer of the value-level call |
| Dedup.DedupCache.EnforceSize | processors/dedup.py:53-57 | drops whole buckets in insertion order until the ids fit or one bucket is left |
| Dedup.TrimDropsOldest | processors/dedup.py:53-57 | what goes is the shortest front part of the buckets that makes the rest fit, and its ids are counted |
| Dedup.RecordKeepsOrder | processors/dedup.py:44-46 | a new id joins the bucket of its time where that stands, or opens a bucket behind all others |
| Dedup.SizeIsBounded | processors/dedup.py:29-57 | after any calls no id is in two buckets, and at most the cap of ids is held unless one bucket is left |
| Dedup.DuplicateIffInWindow | processors/dedup.py:25-51 | a call returns false exactly when an earlier call recorded the id and no call since had a window that begins in a later bucket, a bucket being the window divided by the number of buckets, rounded down and at least 1 |
| Dedup.RepeatWithinWindowIsCaught | processors/dedup.py:33-51 | a repeat is caught while no call is later than the window after the first |
| Dedup.RepeatPastWindowIsForgotten | processors/dedup.py:33-51 | one call for any id, a window and a bucket span after the id was recorded, forgets it, also for a repeat dated earlier |
| Dedup.NoFalseDuplicates | processors/dedup.py:33-46 | even with size eviction, a duplicate was recorded by an earlier call |
| Warmup.Warm | processors/warmup.py:107-142 | the replay loop loads exactly [window start, committed offset) and accounts for every record |
| Warmup.StartOffset | processors/warmup.py:87-105 | the replay starts inside the log and below the committed offset; it starts at a record of the window before the last committed record unless the record cap moved it, and every record it leaves out is older than that window or beyond the cap |
| Warmup.LoadableCounts | processors/warmup.py:107-142 | the loaded records are those with a readable id |
| Cleaner.TransformInto | processors/transform.py:65-83 | the four outcomes of a raw record, and that only good events touch the cache |
| Cleaner.WarmedKnowsOnly | processors/cleaner.py:53-75 | a warmed cache holds only ids from below the committed offset |
| Cleaner.NothingCommittedIsLost | processors/transactional.py:117-128 | in every run, each good event below the committed offset has its id in the output, for any window, caps and times |
| Cleaner.NothingIsInvented | processors/transform.py:65-83 | every output event is a good raw event below the committed offset |
| Cleaner.DeadLettersAreExact | processors/cleaner.py:113-121 | the dead letters are exactly the rejected offsets below the commit, once each, in order |
| Cleaner.ExactlyOnceInWindow | processors/dedup.py:33-51 | if the copies of an id stay within both windows of the first, it is committed exactly once wherever crashes and warm-ups fall |
| CleanerProcess.CleanerProcess.OnAssign | processors/cleaner.py:53-84 | warming up to the committed offset is the machine's Take step |
| CleanerProcess.CleanerProcess.ProcessBatch | processors/transactional.py:117-128 | one transaction is the machine's Batch step, the committed offset moves past it, and every message is counted under one outcome, good and rejected ones under their own |
| CleanerProcess.CleanerProcess.OnRevoke | processors/cleaner.py:86-91 | dropping the cache is the machine's Lose step |
| FirstCopies.BadFirstCopyLoses | processors/warmup.py:166-173 | a run that loses a good event first seen in a bad record |
| FirstCopies.NeverLosesIffFirstCopiesValid | processors/warmup.py:166-173 | a raw log is safe in all runs and setups if and only if no id is first seen in a record that is not a good event |
| FirstCopies.OddFirstCopyLoses | processors/warmup.py:166-173 | a heartbeat or a rejected record with the id of the good event behind it is enough to lose it, and one without an id is not |
| DeliveryTracker.DeliveryTracker.Confirm | ingestor/main.py:62-78 | releases the longest confirmed prefix of what is pending and reports its last usable id and its length |
| DeliveryTracker.DeliveryOrderIsIrrelevant | ingestor/main.py:52-82 | however registrations and confirmations interleave, the pending messages, the waiting confirmations, the last id reported and the total count are those of the registered sequence and the set of confirmations alone |
| DeliveryTracker.RegisterAppends | ingestor/main.py:59-60 | registering only adds to what is pending |
| DeliveryTracker.ConfirmReleases | ingestor/main.py:62-78 | what one confirmation pops is what the set of all confirmations releases |
| Ingestor.CheckpointIsSafe | ingestor/main.py:101-166 | in every run, every event at or before the checkpoint in memory or on file has been confirmed by Kafka or was passed over unread by a connection without a resume id |
| Ingestor.SkippedIsPassedOver | ingestor/main.py:185-209 | an event counts as passed over exactly when some connection without an id started past it, unconfirmed and beyond all the process knew of |
| Ingestor.CheckpointCoversStream | ingestor/main.py:101-166 | with no such start, every event from the first of the stream up to the checkpoint is confirmed |
| Ingestor.LosesIff | ingestor/main.py:185-209 | for each event between what the process knows and where a connection without a resume id starts: some continuation, with any deliveries, connections and restarts, has a checkpoint in memory or on file past that event while it is unconfirmed, iff it is unconfirmed now and an id is given after it |
| Ingestor.HeaderlessReconnectSkips | ingestor/checkpoint.py:74-78 | a concrete run that drops its connection and reconnects without an id, and a continuation whose checkpoint passes the first event, which was never confirmed |
| Ingestor.ReleasedIsSafe | ingestor/main.py:101-115 | every event before the id a confirmed prefix releases is confirmed, all read ones included, or was passed over |
| Ingestor.ResumeStaysInReach | ingestor/checkpoint.py:74-78 | a connection resumed by id never starts past what the process knows |
| ResendBound.ResendIsUnsavedPlusInFlight | ingestor/main.py:80-123 | on one connection, the sent events a crash makes the ingestor read again number unsaved plus in flight |
| IngestorProcess.Checkpoint.Load | ingestor/checkpoint.py:29-46 | a missing or broken file gives no id and no count, an empty or mistyped id gives no id, a mistyped count gives zero, and anything else is taken as it is |
| IngestorProcess.Checkpoint.Advance | ingestor/checkpoint.py:48-52 | an empty id does not move the checkpoint |
| IngestorProcess.Checkpoint.Save | ingestor/checkpoint.py:54-72 | loading what was saved gives back what was in memory |
| IngestorProcess.IngestorProcess.OnDelivery | ingestor/main.py:101-115 | a failure stops the ingestor and leaves the checkpoint alone; after a success fewer than 200 released events are unsaved, and each released event is counted |
| IngestorProcess.IngestorProcess.MaybeSave | ingestor/main.py:117-123 | writes what is in memory when 200 events are unsaved, or any are and 5 seconds have passed since the last save, and otherwise changes nothing |
| IngestorProcess.SendOutcome | ingestor/main.py:125-166 | a message joins the tracker, under the next number and behind all others, only if the producer took it; otherwise the ingestor has stopped and registered nothing |
| IngestorProcess.SendAcceptedIff | ingestor/main.py:143-163 | a message is taken in the end iff each time the queue was full less than a minute had passed since the first time and no delivery had failed |
| IngestorProcess.SendIsSteps | ingestor/main.py:125-166 | a send is callbacks followed by the machine's Read step if the producer took the message, else by QueueFull |
| IngestorProcess.IngestorProcess.Handle | ingestor/main.py:168-183 | error events are only logged and register nothing, others are sent, and either leads to where a Read or QueueFull step of the machine leads |
| IngestorProcess.IngestorProcess.Connect | ingestor/main.py:190-194 | sends the id in memory as the header and is the machine's Connect step |
| IngestorProcess.IngestorProcess.Disconnect | ingestor/main.py:200-207 | is the machine's Disconnect step |
| IngestorProcess.IngestorProcess.Shutdown | ingestor/main.py:217-228 | serves the callbacks still to come; if they leave anything unsaved the file then loads back as the id and count in memory, else it is left alone; returns how many messages are in flight |
| IngestorProcess.ShutdownIsSteps | ingestor/main.py:217-222 | a stop is callbacks of the machine, then its Save step if they left anything unsaved, else no step |
| IngestorProcess.CallbackIsSteps | ingestor/main.py:101-123 | each callback is one or two steps of the machine |
| IngestorProcess.ParserReportsIds | ingestor/sse.py:46-60 | the ids the parser carries forward are the ids the machine reads |
| PageState.GuardIsLast | processors/page_state.py:56-74 | a rebuilt guard holds exactly the time of each page's newest record |
| PageState.GuardSurvivesCompaction | processors/page_state.py:104-129 | any compaction keeping each key's newest record rebuilds the very same guard |
| PageState.CrashesAreInvisible | processors/page_state.py:104-165 | in every run, output and guard are those of one uninterrupted process over the same input |
| PageState.CrashesAreInvisibleIff | processors/page_state.py:151-158 | and this holds in all runs iff the input has no deletion dated exactly at the epoch whose page has no earlier update dated after it |
| PageTable.TableIsLast | web/pages.py:102-115 | a page shows its newest record, and nothing if that is a tombstone |
| PageTable.CompactionKeepsTable | web/pages.py:66-100 | a reader of the compacted topic, aged tombstones gone, gets the table of the whole topic |
| PageTable.SortSortsByTime | processors/page_state.py:8-14 | the reference order is sorted by event time and a permutation of the updates |
| PageTable.SortIsStable | processors/page_state.py:62-64 | and keeps the arrival order of updates with equal times |
| PageTable.LastOutIsNewest | processors/page_state.py:131-165 | the last record written for a page is its newest update by event time, ties to the later arrival |
| PageTable.TableIsSortedIff | processors/page_state.py:131-165 | for every arrival order the table is the stably sorted updates applied, iff no page's newest update is an edit dated before -1 |
| PageTable.EarlyEditIsDropped | processors/page_state.py:62-64 | an update dated before -1 that never shows |
| PageTable.ReaderSeesSortedUpdates | web/pages.py:66-115 | the same over every run, crash schedule and compaction |
| PageTable.TableShowsNewestChange | processors/page_latest.py:46-90 | a page is shown iff its newest edit, creation or deletion by event time is not a deletion and not dated before -1, and it then shows what that event says |
| PageProcess.LoadApplied | processors/page_state.py:104-129 | the loop over the output partition rebuilds the guard |
| PageProcess.PageProcess.OnAssign | processors/page_state.py:90-98 | is the machine's Take step for the compaction it read |
| PageProcess.PageProcess.Handle | processors/page_state.py:131-165 | writes one record, or counts the event as stale, ignored or unreadable |
| PageProcess.PageProcess.ProcessBatch | processors/transactional.py:117-128 | one transaction is the machine's Batch step, and every record is counted once |
| PageProcess.PageStore.Apply | web/pages.py:102-115 | folds one record and counts reads and tombstones |
| PageProcess.PageStore.Follow | web/pages.py:66-100 | clearing and reading again gives the table of the topic |
| EditWar.DequeIsWindow | processors/edit_war_detector.py:129-131 | for ordered times the deque is exactly the window of the page's history |
| EditWar.WindowIsExact | processors/edit_war_detector.py:95-131 | and that window is all reverts in [time - W, time] |
| EditWar.AlertsKeepTheRule | processors/edit_war_detector.py:111-127 | an alert is raised only where the rule holds, over reverts that span at most W |
| EditWar.RuleIsWar | processors/edit_war_detector.py:111-113 | for reverts in order the rule is: at least min_reverts reverts no older than the window, by at least min_users different people |
| EditWar.AlertedIff | processors/edit_war_detector.py:101-127 | a revert raises an alert iff it completes such a war and neither an earlier alert nor a first revert dated before the epoch is connected to it by reverts within the window |
| EditWar.NoMissedWar | processors/edit_war_detector.py:101-127 | wherever the rule holds the page is in a chain that an alert began |
| EditWar.MissesNoWarIff | processors/edit_war_detector.py:72-127 | no war is missed iff the rule never holds in a chain from a first revert dated before the epoch |
| EditWar.AlertsAreApart | processors/edit_war_detector.py:106-109 | between two alerts lies a revert-free gap longer than W, before the second one's window |
| EditWar.AlertsShareNoEvent | processors/edit_war_detector.py:115-127 | two alerts of a page have no event in common |
| EditWar.QuietCutIsInvisible | processors/edit_war_detector.py:72-127 | from the epoch on, starting a page from nothing after a gap longer than the window gives the same later alerts |
| EditWar.QuietCutIsInvisibleIff | processors/edit_war_detector.py:72-127 | for any times, it does iff the next revert is dated at the epoch or later or the rule never holds in the chain it begins |
| EditWar.WindowsAgree | processors/edit_war_detector.py:129-131 | and for any times, the reverts in each later window are the same |
| EditWarDetector.ExpiryIsInvisible | processors/edit_war_detector.py:133-144 | calling expire anywhere leaves every alert as it is |
| Expiry.ExpiryIsInvisibleIff | processors/edit_war_detector.py:133-144 | after any run in order of time, calling expire is invisible to every continuation iff the last event is dated at the epoch or later or every forgotten page was suppressed up to -1 |
| Expiry.ForgettingShows | processors/edit_war_detector.py:133-144 | otherwise some continuation raises an alert that is lost after expire |
| Expiry.ExpiryCanShow | processors/edit_war_detector.py:133-144 | every configuration has such a run |
| EditWarDetector.AlertsFollowHistories | processors/edit_war_detector.py:95-127 | the detector over all pages alerts exactly where each page's own history does, for that window |
| EditWarDetector.AlertsIffWar | processors/edit_war_detector.py:95-127 | in a run in order of time, expiries anywhere, an event raises an alert iff it is a revert that counts, completes a war on its page and is not connected to an earlier alert there |
| EditWarDetector.AlertsAreWars | processors/edit_war_detector.py:111-127 | in any run, times out of order included, every alert names at least min_reverts reverts and min_users people |
| EditWarDetector.OnlyRevertsCount | processors/edit_war_detector.py:95-104 | edits that are no reverts, and bots where they are ignored, change nothing but the clock; any other event is the newest revert of its own page and touches no other page |
| EditWarDetector.SortPermutes | processors/edit_war_detector.py:115 | an alert lists exactly the reverts of its window, by time, those of one time by event id |
| EditWarDetector.NotAfterIff | processors/edit_war_detector.py:115 | ids are compared as strings: by the first character that differs, a prefix first |
| EditWarDetector.AlertIgnoresArrival | processors/edit_war_detector.py:66-69 | the same reverts in any order of arrival give the same alert id, event ids and people |
| EditWarDetector.AlertDescribesWindow | processors/edit_war_detector.py:111-127 | an alert carries the page of its event, counts its window, names exactly its people, and runs from its earliest revert to its latest |
| EditWarDetector.AlertIdsDiffer | processors/edit_war_detector.py:66-69 | two wars on a page never get the same alert id |
| EditWarDetector.EditWarDetector.Observe | processors/edit_war_detector.py:95-127 | one event, in place, with its alert and counters |
| EditWarDetector.EditWarDetector.EvictOld | processors/edit_war_detector.py:129-131 | the loop drops from the front while older than the window |
| EditWarDetector.EditWarDetector.Expire | processors/edit_war_detector.py:133-144 | removes exactly the forgettable pages and returns how many |
| EditWarDetector.ExpireKeepsActive | processors/edit_war_detector.py:133-144 | a page stays, unchanged, iff its last revert is inside the window or its alert is still on |
| Sink.InsertEdits | sinks/db.py:88-95 | the insert loop adds a row per new id and returns how many |
| Sink.InsertAddsNewIds | sinks/db.py:19-27 | every id of the batch has one row, old rows stay, and nothing else is added |
| Sink.ReplayChangesNothing | sinks/db.py:1-7 | writing a batch again changes nothing |
| Sink.NextKeepsOk | sinks/postgres_sink.py:96-116 | every record below the committed offset keeps having a row, also when the process dies between rows and offsets |
| Sink.PostgresSink.WriteBatch | sinks/postgres_sink.py:96-116 | rows first, offsets second, as two steps of the machine, the second committing what the first wrote |
| EndToEnd.CleanedIsPublished | processors/transactional.py:117-128 | a good event with a raw copy below a cleaner's commit is in wiki.clean |
| EndToEnd.CommittedIsStored | sinks/postgres_sink.py:96-116 | a clean copy below a sink's commit has exactly one row, and it is the event's |
| EndToEnd.ExactlyOnceEndToEnd | ingestor/main.py:62-78 | the whole path: every good event at or before the saved checkpoint, not passed over unread, reaches wiki.raw, then wiki.clean, then exactly one row, for every crash schedule and no assumption on dedup windows |
| Sse.FramingRoundTrip | ingestor/sse.py:32-61 | feeding the rendered lines of any events, comments inserted anywhere, gives back those events in order, ids carried forward |
| Sse.FieldLineParses | ingestor/sse.py:39-41 | one space after the colon is dropped and only one; a line without a colon is a field without a value |
| Sse.FieldsMean | ingestor/sse.py:43-48 | data adds a piece, event and id replace what was there, any other field does nothing |
| Sse.CommentsAreIgnored | ingestor/sse.py:33-34 | comment lines change nothing |
| Sse.SseParser.Feed | ingestor/sse.py:32-48 | one line in place, with the event it completes |
| Sse.SseParser.Flush | ingestor/sse.py:50-61 | a blank line ends an event only if it had data |

## Left out

- Trending.NothingCommittedIsLost: holds as long as the window cap has forced nothing out (`capped` in the machine's state); `CapCanLose` shows why.
- Trending.CommittedMinutesAreExact: the same, and needs a lateness of at least zero and the page minute on one partition, which keying by page arranges.
- Trending.NothingIsCountedTwice: bounds a total by the edits of one log, so across partitions it relies on keying by page.
- Cleaner.NothingCommittedIsLost: needs that no id is first seen in a record that is not a good event; `FirstCopies` proves this is the exact condition.
- Cleaner.ExactlyOnceInWindow: needs timestamps not below event times for the first copy, no early eviction and the log start not past the first copy, as recorded in the machine's state.
- Ingestor.CheckpointIsSafe: exempts events that a connection without a resume id passed over unread; `LosesIff` says which of them a checkpoint can pass. Needs distinct stream ids.
- EndToEnd.ExactlyOnceEndToEnd: needs that copies of an id carry the same payload, and exempts the same events.
- EditWar.NoMissedWar: for reverts in order of event time, since eviction only looks at the front.
- EditWarDetector.ExpiryIsInvisible: for event times that start at the epoch and never go back; `Expiry.ExpiryIsInvisibleIff` covers earlier times.
- EditWar.QuietCutIsInvisible: for reverts from the epoch on; `QuietCutIsInvisibleIff` covers earlier times.
- PageState.CrashesAreInvisible: needs that the input has no deletion dated exactly at the epoch whose page has no earlier update dated after it, and compaction to keep the newest record of every key; a tombstone that has aged out is harmless to the reader but the rebuilt guard forgets it.
- `PartitionState` and the per-page state of the detector are values in a map that the methods replace, so aliasing of these objects is not captured.
- JSON decoding, field validation, the revert phrases, time parsing and the hash of an alert id: a payload already says what they made of it, and an alert id is the triple that is hashed.
- The brokers: a transaction commits output and offsets in one step; records of one transaction are appended to a partition together. Apart from a page record asking for the timestamp 0, record timestamps are taken as given.
- PostgreSQL: a write is atomic; only lost attempts and the conflict rules are modelled, not page size and row counts above one page.
- Unreadable records in `wiki.clean` are modelled for trending and page state; the sink's log holds readable events only, which is all the cleaner writes.
- The abort inside a running process (processors/transactional.py:93-98 and 129-133) and a rebalance in the middle of a batch.
- Retention gaps, replays cut short by a slow poll, consumer errors, and keyless messages without a position.
- Rebuilding the edit war detector from one window of history (processors/edit_war.py:68-90): only the quiet cut is claimed.
- The assignment watchdog, lag figures, metrics, logging, signals, the dashboard and its queries, `TTLCache`, chart scaling.
