# NetMon sensor: verified model

NetMon is a sensor that measures a network, keeps what it learned across outages, restarts and
kills, and delivers it later. This project models the parts of the collector whose promises
depend on state over whole runs, on exact byte formats or on bounded arithmetic, and proves them.

Code that changes things step by step is a class or a method with loops, proved against a
specification function; the main results are lemmas about those functions over all inputs, all
reachable states or all runs.

| file | what it models |
|---|---|
| `WatchStep`, `WatchHistory`, `WatchTargets`, `WatchDelivery` | the watch protocol: per-target state machine, its meaning over histories, the pushed list, and delivery of edges through a report file written before the state file |
| `BundleBuild`, `BundleTrace`, `BundleQueue`, `BundleRuns` | hourly bundles: interleaved builders under a lock, what their runs leave behind, catch-up of missed hours, the bounded flush, backoff and giving up |
| `ResultSpool`, `SpoolQueue`, `SpoolDelivery` | the spool of batch files, the flat queue it refines, and delivery when writes fail and drains are killed |
| `EnvFile`, `EnvRuns` | the env-file writer and its readers, over any sequence of pushes |
| `Bytes`, `Bpf`, `DhcpProbe`, `DhcpOptions`, `DhcpReplies`, `Igmp`, `DnsName`, `DnsMessage` | the Internet checksum, the BPF interpreter with both shipped programs, the DHCP frame builder and parsers and what they read from a frame, IGMP messages from wire to meaning, DNS names and messages |
| `Redact`, `AuthBreaker` | masking secrets in device configs; the login breaker under waves |
| `WanPath`, `Voice`, `VoiceScore`, `ScanCadence` | path baselines and comparison, call scoring, scan scheduling |

Verify everything with `dafny verify dfyconfig.toml`.

## Promises that hold under a condition

Each of these is proved twice: an input that shows how the promise fails, and the exact condition
under which it holds.

- Watch sequence numbers are documented as what lets the dashboard drop re-deliveries. A cycle
  killed between its report and its state write has its numbers used again, possibly for other
  edges (`WatchDelivery.SameNumberTwoEdges`, `WatchDelivery.SeqNosDistinctIff`). When the next cycle
  sees the same, they are the same edges (`WatchDelivery.RepeatedNumbersResend`). Until the next cycle
  the report is ahead of the state (`WatchDelivery.SnapshotAheadOfState`,
  `WatchDelivery.PendingSnapshot`).
- A bundle counts as complete when it was recorded at or after the end of its hour, but its scans
  are queried earlier. An operator's build that straddles the end of the hour can be partial for
  good (`BundleBuild.StraddlingBuildLooksComplete`). So can one queried after the end but within the
  15 s grace in which rows may still become visible; only the hourly tick waits for it
  (`BundleTrace.BuildWithinGraceMissesScan`). An archive is complete exactly when no row of its hour
  became visible after its query (`BundleTrace.CompleteIffNoScanAfterQuery`), so always when it was
  queried after the grace (`BundleTrace.QueriedAfterGraceIsComplete`).
- Catch-up is documented never to rebuild a complete hour. It decides before it waits for the lock,
  so it does rebuild one that an operator's build recorded in between
  (`BundleTrace.CompleteHourRebuilt`), and only then (`BundleTrace.StaleIffRecordedMeanwhile`); an
  hour nobody is at stays (`BundleTrace.CompleteHourStays`).
- A drain is meant not to send a confirmed payload again. It does
  (`SpoolQueue.ConfirmedSentTwice`) exactly when its write fails inside a batch or it is killed on a
  confirmed POST (`SpoolQueue.SendsAgainIff`).
- The watch key pattern ends in `$`, which admits one trailing newline
  (`WatchTargets.NewlineKeyAccepted`, `WatchTargets.KeyCharsetIff`).
- A DNS name of 128 labels or more is read with the offset left at its start
  (`DnsName.OneLabelTooMany`, `DnsName.RoundTripIff`). Labels of 64 to 191 bytes, longer than
  RFC 1035 allows, do round-trip; longer ones are read as pointers.
- The mean opinion score dips below 1 for small positive R (`Voice.MosDipsBelowOne`,
  `Voice.MosBelowOneIff`), and the loss runs disagree with sent minus received when an answer carries
  a number that was not sent (`Voice.StrayAnswerDisagrees`, `Voice.RunsAddUpIff`). The reported R can
  round up out of the band of the reported grade (`VoiceScore.ReportedGradeDisagrees`,
  `VoiceScore.GradeOfReportedIff`).
- A successful full scan is meant to hold off the next one for the rescan interval. It does
  (`ScanCadence.FullScanCounts`, `ScanCadence.WhatIsPlanned`), except an operator's scan given the
  reason "capture", the name of light passes, which never counts
  (`ScanCadence.MisnamedScanDoesNotCount`).
- A light pass can run on a network whose full scan is overdue, when its interface moves there
  (`ScanCadence.StrayLightPass`, `ScanCadence.OverdueRunsFullOnly`).

## Model

| member | source | states |
|---|---|---|
| `WatchStep.StepTarget` | collector/src/collector/watch.py:179-210 | The body of the loop for one target: new state, the edges appended to the shared list and the advanced sequence number, for every prior state, result and visibility. |
| `WatchStep.Step` | collector/src/collector/watch.py:147-224 | One cycle as a loop over the targets produces the state, events and summary of the specification that the history lemmas are about: a reset on an address change, no movement of a skipped or blindly failed target, one number per event. |
| `WatchHistory.CycleIsDelta` | collector/src/collector/watch.py:147-238 | Edges are a faithful delta: folding one cycle's down, up and cleared edges over what was down, restricted to the listed keys, gives exactly what is down afterwards, with address and time. |
| `WatchHistory.ReplayReproducesSnapshot` | collector/src/collector/watch.py:227-238 | Replaying the edges of any crash-free run from nothing reproduces the set of down targets, and the sequence number is the number of edges emitted. |
| `WatchHistory.StateIsRecord` | collector/src/collector/watch.py:147-224 | After any run a listed target's status, failure count, first-answer time, last-probe time, and since when it is up or down (the observation at which that became its status) are a function of what was seen of it since its last reset; unlisted keys have no state. |
| `WatchHistory.DownEdgeIff` | collector/src/collector/watch.py:179-210 | A down edge for a key is emitted if and only if the cycle completes success, failure, failure in the key's record at its current address (exactly two counted failures, no success between, blind and skipped cycles not counted). |
| `WatchHistory.RecoveryEdgesIff` | collector/src/collector/watch.py:185-201 | An up edge if and only if a target the record has down answers at the same address; a cleared edge if and only if a down key is listed at another address. |
| `WatchHistory.NothingMovesUnseen` | collector/src/collector/watch.py:189-210 | A skipped target, and any target in a blind cycle, keeps status, failure count and times, and no edge is emitted for it. |
| `WatchHistory.BlindIff` | collector/src/collector/watch.py:161-166 | A cycle is blind if and only if no listed target answered and either the gateway did not answer, or there is no reading of it and three different targets failed. |
| `WatchHistory.VisibilityEdgeIff` | collector/src/collector/watch.py:175-176 | A blind or sighted edge is emitted if and only if the visibility changed to it, with the time of the cycle, its gateway reading and the number of targets that answered or failed. |
| `WatchHistory.SummaryIsRecord` | collector/src/collector/watch.py:213-224 | The summary of the last cycle of any run counts the targets listed, probed and skipped, and those the record has up, down and never up. |
| `WatchHistory.VisibilityAlternates` | collector/src/collector/watch.py:161-176 | Over every run blind and sighted edges strictly alternate, starting with blind, and their parity is the current visibility. |
| `WatchTargets.ValidateTargets` | collector/src/collector/watch.py:109-136 | All or nothing: the list is accepted if and only if it is a list of at most 200 sound items; a refusal says which of the three reasons it was, names the first faulty item and its fault, and returns no target. |
| `WatchTargets.FaultIs` | collector/src/collector/watch.py:115-136 | Which fault an item has, in the order object, key, address, caption; a sound item keeps key and peer mark, has its address normalised and the first 64 characters of its caption. |
| `WatchTargets.KeyTextIff` | collector/src/collector/watch.py:85 | The key pattern matches exactly 1 to 64 letters, digits, colons, underscores and dashes, with or without one newline behind them. |
| `WatchTargets.DedupedIsFaithful` | collector/src/collector/watch.py:115-136 | What is accepted has distinct keys, exactly the keys pushed, and for each key the first item that carried it. |
| `WatchTargets.RevalidationIsIdentity` | collector/src/collector/watch.py:109-136 | The stored list is validated again on every read; once accepted it is accepted again, unchanged. |
| `WatchTargets.KeyCharsetIff` | collector/src/collector/watch.py:85 | The key pattern grants the strict charset exactly to keys that do not end in a newline. |
| `WatchTargets.NewlineKeyAccepted` | collector/src/collector/watch.py:85 | A concrete key with a trailing newline that the pattern lets through. |
| `WatchTargets.TargetStore.AcceptTargets` | collector/src/collector/watch.py:305-325 | A refused push keeps the targets in force and records why it was refused and its version; an accepted one replaces everything; no push changes nothing. |
| `WatchDelivery.MergeCarries` | collector/src/collector/watch.py:241-270 | If the pending report holds the last min(500, n) of n events and counts the rest, so does the merged report for the longer log. |
| `WatchDelivery.Box.RunCycle` | collector/src/collector/watch.py:384-411 | One cycle with a kill before the report, between report and state, or not at all: the whole new disk, unchanged when killed before the report or with neither targets nor a refusal; a report returned only when the cycle survives. |
| `WatchDelivery.Box.ClearReport` | collector/src/collector/watch.py:333-337 | Clearing removes the pending report and nothing else. |
| `WatchDelivery.NoEdgeLost` | collector/src/collector/watch.py:384-411 | Over every run of cycles, check-ins and kills, each edge of a committed state change is in a report the dashboard took, in the pending report, or counted there as dropped. |
| `WatchDelivery.TakenWasPending` | collector/src/collector/checkin.py:2704-2712 | A report counts as taken only if a check-in that the dashboard took carried it while it was the pending one. |
| `WatchDelivery.ReportsAreExact` | collector/src/collector/watch.py:241-270 | Over every run each report, pending or taken, holds exactly the last min(500, n) of the n events folded in since the last clear and counts the remainder, and every folded event is behind one of them. |
| `WatchDelivery.StateIsCommittedRun` | collector/src/collector/watch.py:384-411 | A killed cycle leaves no trace in the state: it is the state of the crash-free run of the committed cycles, whose edges are the committed events numbered 1, 2, 3, ... |
| `WatchDelivery.CommittedEventsRebuildDown` | collector/src/collector/watch.py:227-238 | Replaying the committed events of a run with kills rebuilds exactly the down targets on disk. |
| `WatchDelivery.PendingSnapshot` | collector/src/collector/watch.py:400-411 | Over every run with kills the pending report carries the snapshot its last cycle computed, and that is the state on disk unless that cycle was killed between its two writes. |
| `WatchDelivery.ReportTellsRecord` | collector/src/collector/watch.py:227-238 | Over every run with kills, what the pending report says of a key (status, address, since when, first answer, last probe) is that of its record in the cycles it tells of, and it speaks of no other key. |
| `WatchDelivery.ReportCounts` | collector/src/collector/watch.py:252-269 | Over every run a pending report counts the cycles that wrote one since the last clear, and the blind ones among them, and carries the version, refusal and summary of the last. |
| `WatchDelivery.SnapshotAheadOfState` | collector/src/collector/watch.py:404-411 | A concrete run in which the pending report is ahead of the state on disk. |
| `WatchDelivery.SeqNosDistinctIff` | collector/src/collector/watch.py:404-411 | Sequence numbers tell all folded events apart if and only if no cycle that folded events was killed between its two writes and followed by another cycle that folded events. |
| `WatchDelivery.RepeatedNumbersResend` | collector/src/collector/watch.py:404-411 | A cycle killed between its writes and a next one that lists and sees the same emit the same edges under the same numbers, up to their time. |
| `WatchDelivery.SameNumberTwoEdges` | collector/src/collector/watch.py:404-411 | A concrete run in which a blind edge and a down edge both carry number 1. |
| `BundleTrace.QueriedAfterGraceIsComplete` | collector/src/collector/uploader.py:45-48 | However builders interleave and die, when rows become visible within 15 s of their stamp, an archive whose query ran 15 s or more after the end of its hour holds every successful scan completed in that hour, from then on. |
| `BundleTrace.HourlyTickWritesComplete` | collector/src/collector/uploader.py:569-583 | Whatever the hourly tick, which waits for the grace, wrote last for an hour is complete. |
| `BundleTrace.BuildWithinGraceMissesScan` | collector/src/collector/uploader.py:45-48 | A concrete run, for an operator's build and for the tick at startup, neither of which waits: a query after the end of the hour but within the grace misses a scan of the hour, and catch-up takes the recorded bundle for a complete one. |
| `BundleTrace.CompleteIffNoScanAfterQuery` | collector/src/collector/uploader.py:128-164 | Every archive comes from some query step, and it holds every successful scan of its hour if and only if no row stamped in the hour became visible after that step, however late rows become visible. |
| `BundleBuild.NeverAnOlderSnapshot` | collector/src/collector/uploader.py:139-143 | Because the query is inside the lock, no step replaces an archive by one queried earlier or holding fewer scans. |
| `BundleBuild.NeverEmpty` | collector/src/collector/uploader.py:139-143 | However builders interleave and die, no archive is empty or holds a scan of another hour, and none is recorded that was not written. |
| `BundleBuild.StraddlingBuildLooksComplete` | collector/src/collector/db.py:502-537 | The recorded time is that of the record, not of the query: a concrete run in which an operator's build over the end of the hour is partial, yet catch-up takes it for complete. |
| `BundleTrace.StaleIffRecordedMeanwhile` | collector/src/collector/uploader.py:208-245 | Catch-up gets the lock of an hour it no longer owes, and builds a recorded hour again, if and only if another builder recorded the hour between its decision and the lock. |
| `BundleTrace.CompleteHourRebuilt` | collector/src/collector/uploader.py:208-245 | A concrete run of an operator's build that straddles the end of the hour and the hourly tick, which decides before the operator's complete bundle is recorded, waits, and then builds and records the hour again. |
| `BundleTrace.CompleteHourStays` | collector/src/collector/uploader.py:202-230 | With builds that take time, interleave and die: once an hour is recorded at or after its end and nobody is at it, archive and record stay as they are for good, unless an operator builds it; a complete archive stays complete if and only if no row of the hour becomes visible meanwhile, and always once the grace is over. |
| `BundleQueue.Uploader.BuildHour` | collector/src/collector/uploader.py:128-164 | An hour without successful scans changes nothing; otherwise its archive holds exactly the scans completed in it, and its row is pending with no retries, built now, and keeps its last attempt. |
| `BundleQueue.Uploader.HourWindowsWithScans` | collector/src/collector/uploader.py:167-184 | The closed hours within the 48-hour horizon that have a successful scan, each once, newest first. |
| `BundleQueue.Uploader.HoursToBuild` | collector/src/collector/uploader.py:208-232 | Exactly the owed hours (no row, or a partial bundle not given up on), newest first. |
| `BundleQueue.Uploader.CatchUpMissedHours` | collector/src/collector/uploader.py:187-259 | A pass builds only owed hours, at most 12; when no build fails and no stop comes, exactly min(12, owed) and the newest of them. |
| `BundleRuns.OwedIffNotBuiltSinceEnd` | collector/src/collector/uploader.py:167-232 | Over every run an hour owes a bundle if and only if it has ended, has a successful scan less than 48 hours old, was not built since it ended, and was not given up on: an hour built only before its end is owed. |
| `BundleQueue.Uploader.FlushPending` | collector/src/collector/uploader.py:294-413 | The loop with its counters, breaker and stop checks leaves exactly the rows and counters of the flush specification, after the give-up sweep. |
| `BundleRuns.FlushTally` | collector/src/collector/uploader.py:341-413 | At most 30 attempts, attempted = succeeded + failed, never a fourth failed upload in a row, from any state of the counters that satisfies this. |
| `BundleRuns.FlushOutcome` | collector/src/collector/uploader.py:341-413 | A flush visits exactly the rows before the first at which it is told to stop, has tried 30, or has seen three fail in a row (which alone trips the breaker). It tries every bundle among them that is on disk and does not rest, in order, and no other; each row is as its visit made it, and is counted once; all other rows are untouched. |
| `BundleRuns.FlushVisits` | collector/src/collector/uploader.py:341-413 | The same from any point of a flush on: what is left of the list is visited up to the first row at which it must end. |
| `BundleRuns.FlushUploadsOnce` | collector/src/collector/uploader.py:341-413 | No bundle is tried twice in one flush. |
| `BundleRuns.OneFlush` | collector/src/collector/uploader.py:294-413 | The whole flush in one statement: without a stop request, every bundle on disk that does not rest is tried unless 30 were or the last three failed; no row is tombstoned for a missing file while the bundle directory is absent. |
| `BundleRuns.BuildingPaysDebt` | collector/src/collector/uploader.py:187-259 | Building a set of owed hours takes exactly those off the debt, so a pass shrinks it by the number built. |
| `BundleRuns.PassesClearDebt` | collector/src/collector/uploader.py:187-259 | Full passes one after another take twelve hours each off a fixed debt: after k passes it is cleared if and only if 12 k covers it. |
| `BundleRuns.BackoffBoundsRetries` | collector/src/collector/uploader.py:281-291 | Over every run of passes one after another, a row with r >= 8 retries was last tried at least 20 h + 12 h (r - 8) after its build; at most 20 retries within 7 days; 60 retries only when already past the age limit. |
| `BundleRuns.SweepIs` | collector/src/collector/db.py:639-661 | The sweep gives up on exactly the pending bundles built more than seven days ago or failed 60 times, and changes nothing else. |
| `BundleRuns.SweepIffOld` | collector/src/collector/uploader.py:313-334 | Over every run of passes one after another it is the age alone that decides. |
| `BundleRuns.UploadedOrGivenUp` | collector/src/collector/db.py:540-683 | No row is ever both uploaded and given up on, and a given-up hour owes no bundle. |
| `ResultSpool.FileNameOrder` | collector/src/collector/checkin.py:143-152 | Sorting the zero-padded file names is sorting by time stamp and counter while both fit their widths. |
| `ResultSpool.AppendsIffLater` | collector/src/collector/checkin.py:143-152 | A new file lands at the end of the sorted directory if and only if its stamp is later than the newest one's. |
| `ResultSpool.Spool.SpoolResults` | collector/src/collector/checkin.py:155-176 | Spooling evicts from the oldest end until below 3000 files and stores one batch file; nothing to store changes nothing. |
| `ResultSpool.Spool.PostBatch` | collector/src/collector/checkin.py:210-221 | Delivered are the batch's payloads up to the first one refused or over budget. |
| `ResultSpool.SentIsMaximal` | collector/src/collector/checkin.py:210-221 | Sending stops exactly at the first payload that is not confirmed or exceeds the budget of 200. |
| `ResultSpool.Spool.DrainResultSpool` | collector/src/collector/checkin.py:193-222 | The loop over files with unlink and rewrite leaves exactly the directory and deliveries of the drain specification, whether rewrites succeed or not. |
| `SpoolQueue.DrainIsFlat` | collector/src/collector/checkin.py:193-222 | When the rewrite succeeds the directory of batches refines a flat FIFO queue: a prefix of the first files' payloads is delivered, exactly the rest stays, wherever in a batch it stops. |
| `SpoolQueue.DrainIsBounded` | collector/src/collector/checkin.py:193-222 | At most 200 payloads, and only from the first 50 files, leave in one drain. |
| `SpoolQueue.FailedRewriteLeaves` | collector/src/collector/checkin.py:210-222 | When the rewrite fails only whole files leave; exactly the confirmed part of the batch it stopped in is queued again, and nothing is lost. |
| `SpoolQueue.KilledDrainLeaves` | collector/src/collector/checkin.py:210-222 | A kill on a confirmed POST, before the file is touched, leaves the whole batch it belongs to; a kill after the drain ended changes nothing. |
| `SpoolQueue.SendsAgainIff` | collector/src/collector/checkin.py:193-222 | Whatever its end a drain loses nothing, and it leaves confirmed payloads queued to be sent again if and only if its write fails inside a batch or it is killed on a confirmed POST. |
| `SpoolQueue.ConfirmedSentTwice` | collector/src/collector/checkin.py:210-222 | A concrete batch of two whose first payload is confirmed and then delivered again by the next drain. |
| `SpoolDelivery.DeliveredAtLeastOnce` | collector/src/collector/checkin.py:143-222 | Over every history of stores, drains, failed writes, corrupt files and kills, each spooled payload is confirmed, evicted, lost or queued, as often as it was spooled; the counts are exact if and only if no drain sent confirmed payloads again. |
| `SpoolQueue.RunConserves` | collector/src/collector/checkin.py:143-222 | Over every run each spooled payload is confirmed once, evicted or queued; what left is a prefix in order; at most 3000 files. |
| `SpoolQueue.EvictsOldestFiles` | collector/src/collector/checkin.py:155-176 | Making room drops only whole oldest files, and only when there are 3000. |
| `EnvFile.RejectControlChars` | collector/src/collector/checkin.py:300-319 | A mapping is refused if and only if some value holds a control or line-breaking character. |
| `EnvFile.MergeLines` | collector/src/collector/checkin.py:334-345 | The two loops over lines and mapping produce the rewritten lines followed by the missing assignments. |
| `EnvFile.Env.Update` | collector/src/collector/checkin.py:322-356 | A refused mapping writes nothing; an accepted one leaves exactly the pushed text, a missing file reading as empty. |
| `EnvRuns.SeparatorsRefused` | collector/src/collector/checkin.py:291-319 | The splitter knows exactly ten separators, and refused in values are those, the other C0 controls and DEL, and nothing else. |
| `EnvRuns.LinesSplit` | collector/src/collector/checkin.py:333 | What either reader makes of any text: lines without a separator, each followed by one, a carriage return with its newline being one; only a last, non-empty line may have none. |
| `EnvRuns.ParseIff` | collector/src/collector/checkin.py:337 | A line is an assignment of a value to a name if and only if it is blanks, the name, blanks, an equals sign and the value. |
| `EnvRuns.BlanksAndNames` | collector/src/collector/checkin.py:337 | The blanks are the 29 white-space characters, the names are made of 37 characters. |
| `EnvRuns.LinesOfRender` | collector/src/collector/checkin.py:355-356 | Both a newline-only reader and the full line splitter get back exactly the lines that were written. |
| `EnvRuns.PushedValues` | collector/src/collector/checkin.py:334-345 | After a push every assignment to a pushed name gives the pushed value, there is at least one, and every other name keeps exactly its values. |
| `EnvRuns.OtherLinesKept` | collector/src/collector/checkin.py:334-345 | Lines that assign no pushed name stay unchanged and in order. |
| `EnvRuns.ReadersAgree` | collector/src/collector/checkin.py:300-356 | After any accepted push (the caller never pushes an empty mapping) both readers see the same lines. |
| `EnvRuns.PushTwice` | collector/src/collector/checkin.py:322-356 | Repeating a push leaves the text identical. |
| `EnvRuns.RunValues` | collector/src/collector/checkin.py:322-356 | Over any sequence of pushes a name reads as its latest accepted value and nothing else, and a name never pushed reads as at the start. |
| `EnvRuns.RunKeepsOthers` | collector/src/collector/checkin.py:322-356 | Over any sequence of pushes the lines that assign no pushed name stay unchanged and in order. |
| `Bytes.Checksum` | collector/src/collector/discovery/dhcp_probe.py:102-108 | The padding, summing and carry-folding loops compute the Internet checksum of the specification. |
| `Bytes.FoldedPreserves` | collector/src/collector/discovery/dhcp_probe.py:105-107 | Folding keeps the sum modulo 65535 and turns no positive sum into zero (section 3.1 of RFC 791). |
| `Bytes.ZeroChecksumIff` | collector/src/collector/discovery/dhcp_probe.py:102-108 | A checksum is zero if and only if the words sum to a positive multiple of 65535. |
| `Bytes.StoredChecksumVerifies` | collector/src/collector/discovery/dhcp_probe.py:146-152 | Storing the checksum of any header with a zero field into that field makes the header checksum to zero. |
| `Bpf.Run` | collector/src/collector/discovery/bpf.py:58-95 | The interpreter loop ends on every program with non-negative jumps and gives the verdict of the instruction semantics, out-of-range loads included. |
| `Bpf.LoadIs` | collector/src/collector/discovery/bpf.py:67-84 | Each of the four loads reads one or two bytes at its offset, big-endian, and is refused exactly when they are not all in the frame. |
| `Bpf.Stops` | collector/src/collector/discovery/bpf.py:58-95 | A program that runs off its end drops the frame, and an unknown opcode is reported as such. |
| `Bpf.IgmpProgram` | collector/src/collector/discovery/bpf.py:30-37 | On frames of any length the IGMP program accepts exactly IPv4 frames of protocol 2. |
| `Bpf.DhcpProgram` | collector/src/collector/discovery/bpf.py:38-55 | On frames of any length the DHCP program accepts exactly IPv4 UDP frames that are not later fragments and carry port 67 on either side. |
| `DhcpProbe.ParseOptions` | collector/src/collector/discovery/dhcp_probe.py:157-176 | The option loop gives the options of the specification, on truncated areas too. |
| `DhcpProbe.DiscoverIsWellFormed` | collector/src/collector/discovery/dhcp_probe.py:111-154 | For every MAC, transaction and identification: the IPv4 header checksums to zero, both length fields match what follows, ports and addresses are right. |
| `DhcpProbe.DiscoverIsRecognised` | collector/src/collector/discovery/dhcp_probe.py:185-267 | The echo check accepts the built DISCOVER exactly for its own transaction, the reply parser never does, and the kernel filter passes it. |
| `DhcpProbe.AcceptedFramesPassFilter` | collector/src/collector/discovery/dhcp_probe.py:185-267 | A frame that either parser accepts passes the DHCP filter if and only if it is not a later fragment. |
| `DhcpReplies.ReplyReads` | collector/src/collector/discovery/dhcp_probe.py:185-248 | Over all frames: one is a reply to the transaction if and only if it is IPv4 with a header of 5 to 15 words, UDP from port 67 to 68, a BOOTREPLY of that transaction with the cookie, and of message type 2, 5 or 6; all twelve fields of the reply are then what stands in their place in the frame or in their option, empty when absent. |
| `DhcpReplies.LaidReplyReads` | collector/src/collector/discovery/dhcp_probe.py:157-248 | A reply with options as a server encodes them, any pads and anything behind the end mark, reads back with the first value of each option. |
| `DhcpReplies.EchoIff` | collector/src/collector/discovery/dhcp_probe.py:248-267 | Over all frames: the probe takes exactly the IPv4 UDP frames from port 68 to 67 with a BOOTREQUEST of its transaction for its own echo. |
| `DhcpReplies.DiscoverSays` | collector/src/collector/discovery/dhcp_probe.py:111-154 | The built DISCOVER is broadcast by an unnamed sender, asks for a broadcast answer, leaves every other address and name zero, and its options parse to message type 1, the six parameters asked for and 1500 bytes (section 4.4.1 of RFC 2131). |
| `DhcpOptions.OptionsRoundTrip` | collector/src/collector/discovery/dhcp_probe.py:157-176 | Options encoded with any pads, prefix and trailing bytes parse back, the first value of each code winning. |
| `DhcpOptions.TruncationOnlyLoses` | collector/src/collector/discovery/dhcp_probe.py:157-176 | Cutting the area anywhere only loses options; no reported value changes. |
| `Igmp.DecodedFramesPassFilter` | collector/src/collector/discovery/igmp.py:82-146 | Every frame the IGMP parser decodes passes the IGMP filter. |
| `Igmp.TimeCodeIncreases` | collector/src/collector/discovery/igmp.py:72-79 | The response-time code is strictly increasing over all 256 bytes, across the switch to exponent form. |
| `Igmp.TimeCodeIs` | collector/src/collector/discovery/igmp.py:72-79 | Codes below 128 are literal; above, mantissa and exponent give (16 + m) 2^(e + 3) (section 4.1.1 of RFC 3376). |
| `Igmp.V3Groups` | collector/src/collector/discovery/igmp.py:131-145 | The index loop over v3 group records yields the groups of the specification and stays inside the frame. |
| `Igmp.RecordsRoundTrip` | collector/src/collector/discovery/igmp.py:131-145 | The walk steps over sources and auxiliary data and finds the group of every encoded record. |
| `Igmp.HeardIff` | collector/src/collector/discovery/igmp.py:82-146 | Over all frames: a message is heard if and only if an IPv4 header of protocol 2 is followed, within its own length, by at least eight bytes of one of the five types. |
| `Igmp.SentIsHeard` | collector/src/collector/discovery/igmp.py:82-146 | Queries and reports of versions 1 to 3 and leaves, behind a header of any length and before any padding, are heard as they were meant: version, group, response time, interval, robustness and groups. |
| `DnsName.EncodeName` | collector/src/collector/discovery/mdns_ssdp.py:237-246 | The encoder raises if and only if a label is longer than 255 bytes, and otherwise appends exactly the encoded name. |
| `DnsName.ReadName` | collector/src/collector/discovery/mdns_ssdp.py:260-290 | The read loop ends on any bytes and never indexes outside the buffer; its result is that of the specification. |
| `DnsName.WellFormedNameReads` | collector/src/collector/discovery/mdns_ssdp.py:260-290 | Any name laid out in a buffer, with or without compression pointers, within the 128-step guard reads back as itself with the offset just past it (section 4.1.4 of RFC 1035). |
| `DnsName.NameRoundTrip` | collector/src/collector/discovery/mdns_ssdp.py:237-290 | Names of up to 127 labels of 1 to 191 bytes encoded anywhere in a buffer decode to themselves. |
| `DnsName.RoundTripIff` | collector/src/collector/discovery/mdns_ssdp.py:237-290 | Over everything the encoder accepts and any step guard (128 in the reader): the offset is right if and only if fewer labels are written than there are steps, of at most 191 bytes each; the name comes back with it if and only if, besides, no label is empty. |
| `DnsName.OneLabelTooMany` | collector/src/collector/discovery/mdns_ssdp.py:260-290 | 128 labels of one letter read with the offset left where the name starts. |
| `DnsName.TooManyLabels` | collector/src/collector/discovery/mdns_ssdp.py:260-290 | A name that runs out of steps loses its end and leaves the offset unmoved. |
| `DnsName.CompressedNameReads` | collector/src/collector/discovery/mdns_ssdp.py:260-290 | Labels followed by a pointer read as the joined name, with the offset just past the pointer. |
| `DnsName.PointerLoop` | collector/src/collector/discovery/mdns_ssdp.py:260-290 | A pointer to itself ends and reads as no further labels. |
| `DnsMessage.DecodeMessage` | collector/src/collector/discovery/mdns_ssdp.py:293-346 | The record walk on arbitrary bytes stays inside the buffer and yields the records of the specification. |
| `DnsMessage.QueryIsSkipped` | collector/src/collector/discovery/mdns_ssdp.py:249-257 | The questions of any encoded query are stepped over exactly, to the end of the message. |
| `DnsMessage.QuestionAsks` | collector/src/collector/discovery/mdns_ssdp.py:249-257 | A question asks for pointers in the Internet class, with the top bit of the class set for an answer to the sender alone. |
| `DnsMessage.EncodedNameLaid` | collector/src/collector/discovery/mdns_ssdp.py:237-246 | A name the encoder writes anywhere in a buffer is laid out there, with its end just past it. |
| `DnsMessage.CompressedNameLaid` | collector/src/collector/discovery/mdns_ssdp.py:271-279 | Labels followed by a pointer to a laid-out name are the joined name laid out, with its end just past the pointer. |
| `DnsMessage.LaidRecordsDecode` | collector/src/collector/discovery/mdns_ssdp.py:304-346 | Records laid out anywhere, with compressed or plain names, any class and any time to live, come back in order with name, type and data. |
| `DnsMessage.MessageDecodes` | collector/src/collector/discovery/mdns_ssdp.py:293-346 | A message with any questions and any records in its answer, authority and additional sections decodes to exactly its records. |
| `Redact.MergeSpans` | collector/src/collector/discovery/device_config.py:500-509 | The union loop over sorted spans yields separated intervals that cover exactly the same positions. |
| `Redact.ReplaceRightToLeft` | collector/src/collector/discovery/device_config.py:510-511 | Replacing from the right keeps earlier offsets valid: the result is the text with each interval replaced by its token. |
| `Redact.RenderedIsMasked` | collector/src/collector/discovery/device_config.py:500-511 | For separated intervals, replacement equals masking each maximal covered run by one token and keeping every other character in order. |
| `Redact.RedactSpans` | collector/src/collector/discovery/device_config.py:457-521 | The pass over any collection of spans masks exactly the covered runs. |
| `Redact.OneSecret` | collector/src/collector/discovery/device_config.py:488-511 | One secret is replaced by its token between the text before it and the text behind it. |
| `Redact.MaskedByCoverage` | collector/src/collector/discovery/device_config.py:500-511 | Order, repetition, nesting and overlap of the spans do not matter: only the covered positions do. |
| `Redact.OnlyTokensLeak` | collector/src/collector/discovery/device_config.py:457-521 | Two texts that agree outside the covered positions and whose maximal covered runs have equal tokens are redacted alike. |
| `Redact.NextCredentialTail` | collector/src/collector/discovery/device_config.py:364-414 | The result is the first candidate at or after the start that is not stepped over, and nothing only if every candidate is: stepping over one never gives up on what stands further right. |
| `Redact.BackstopSpans` | collector/src/collector/discovery/device_config.py:417-454 | The loop ends with strictly increasing disjoint spans, each the suspect of the next keyword after the one before, and only when the next keyword has no suspect. |
| `Redact.NoSuspectLater` | collector/src/collector/discovery/device_config.py:417-454 | Fails closed: when the sweep has ended, no keyword from the last span on has a suspect, for searches that find the leftmost match, keywords that are whole words, and stepped-over candidates that are words of letters or dotted quads, as the shipped patterns are. |
| `Redact.KeywordsEndOutside` | collector/src/collector/discovery/device_config.py:301-340 | A keyword, which ends behind a letter and before none, never ends inside a candidate that is stepped over, which is all letters or has none. |
| `Redact.BackstopLine` | collector/src/collector/discovery/device_config.py:417-454 | The sweep masks the suspects found in the un-redacted remainder of the line, counts them and changes nothing else. |
| `AuthBreaker.Breaker.Record` | collector/src/collector/discovery/device_config.py:988-995 | The breaker's fields after any outcome: a rejection counts, a success resets the count, a neutral failure does neither, a trip is final. |
| `AuthBreaker.CounterSeesAll` | collector/src/collector/discovery/device_config.py:956-1004 | With no success since a point, the counter has seen every rejection from there on, whatever neutral failures are interleaved. |
| `AuthBreaker.CounterIs` | collector/src/collector/discovery/device_config.py:988-995 | The counter is exactly the number of rejections since the last success. |
| `AuthBreaker.TrippedIff` | collector/src/collector/discovery/device_config.py:988-995 | The breaker has tripped if and only if three credentials were rejected with no success between them, however many neutral failures there were. |
| `AuthBreaker.WaveKeepsBound` | collector/src/collector/discovery/device_config.py:997-1004 | A wave no wider than the breaker's headroom allows keeps the lockout bound. |
| `AuthBreaker.FetchAll` | collector/src/collector/discovery/device_config.py:1022-1078 | One result per target in order; at most 3 rejected logins with no success between; devices are tried up to the first one before which three were rejected with no success between or the budget ran out, and the code of the rest tells which. |
| `AuthBreaker.TestTargets` | collector/src/collector/discovery/device_config.py:1081-1165 | One result per target in order; at most max(max_workers, 3) rejections with no success between; each wave is as wide as the workers while no rejection has come since the last success, and then as what is left of three; it ends only when three were rejected or the budget ran out, and says which. |
| `WanPath.LastRespondingHop` | collector/src/collector/wan_path.py:351-363 | The loop finds the last hop that answered. |
| `WanPath.TrailingStarCount` | collector/src/collector/wan_path.py:366-373 | The count is that of the longest run of silent hops at the end. |
| `WanPath.LastIsBeforeTrailingStars` | collector/src/collector/wan_path.py:351-373 | The last responding hop is the one just before the trailing stars, whatever gaps come earlier. |
| `WanPath.MergeBaseline` | collector/src/collector/wan_path.py:385-440 | Every trace is folded in as specified: unusable ones change nothing, a new destination starts the mode over. |
| `WanPath.Compare` | collector/src/collector/wan_path.py:443-505 | The loops over hops compute the comparison of the specification. |
| `WanPath.BaselineIsSummary` | collector/src/collector/wan_path.py:385-440 | After any traces each mode's entry knows exactly the addresses answered since its last destination reset, each once, the deepest hop any answered, and where the last that reached its destination did. |
| `WanPath.SinceSharesDest` | collector/src/collector/wan_path.py:405-418 | When traces name their destination, everything merged since the reset went to one and the same destination. |
| `WanPath.BreakIff` | collector/src/collector/wan_path.py:443-505 | A break is reported if and only if the trace did not reach its destination, did not fail, something answered, and some merged trace of the same mode and destination answered two or more hops deeper; it is short by exactly the hops between its last answer and the deepest of those. |
| `WanPath.ComparedAgainst` | collector/src/collector/wan_path.py:443-505 | There is a baseline exactly when some trace of the mode was merged since the last reset for the same destination; its depth is the deepest answer; without one, or without a break, nothing is said of either. |
| `WanPath.RerouteIff` | collector/src/collector/wan_path.py:464-472 | A hop is reported rerouted if and only if the hop is known for this destination but never with this address. |
| `WanPath.RerouteNamesKnown` | collector/src/collector/wan_path.py:464-472 | A reported reroute carries exactly the addresses merged traces answered with at that hop, each once. |
| `WanPath.MergedTraceStaysClean` | collector/src/collector/wan_path.py:385-505 | A merged trace keeps comparing with no rerouted hop until its destination is reset. |
| `WanPath.BreakNamesAddress` | collector/src/collector/wan_path.py:474-505 | A reported break names the hop that answered last and the address it answered with. |
| `Voice.LossRuns` | collector/src/collector/voice.py:146-158 | The loop's runs are the lengths of the maximal blocks of missing numbers in 1..transmitted, in order, they add up to the number missing, and the longest is their maximum. |
| `Voice.BlocksAreUnique` | collector/src/collector/voice.py:146-158 | There is only one such list of blocks for a stream. |
| `Voice.RunsAddUpIff` | collector/src/collector/voice.py:132-158 | The runs add up to sent minus received if and only if every answer carries a number in 1..sent. |
| `Voice.StrayAnswerDisagrees` | collector/src/collector/voice.py:132-158 | One packet sent and one answer numbered 2: one run of one, although as much was received as sent. |
| `VoiceScore.Score` | collector/src/collector/voice.py:124-186 | Answers taken in sequence order; mean, 95th percentile, largest delay, jitter between consecutive answers, the rounded loss share and the burst ratio give R, MOS and grade, each rounded as reported; no figures when nothing answered. The mean and the 95th percentile never exceed the largest delay, R is at most 92.7, and MOS is between 0.98 and 4.5. |
| `VoiceScore.StreamIs` | collector/src/collector/voice.py:161-176 | The R of a stream is that of half its mean delay, the mean of the gaps between answers consecutive in sequence, the share lost as reported, and the burst ratio, each by its own equation. |
| `VoiceScore.GapsAre` | collector/src/collector/voice.py:165-168 | The gaps are the absolute differences between neighbouring answers, one fewer than answers. |
| `VoiceScore.BurstIs` | collector/src/collector/voice.py:169-174 | The burst ratio is the mean burst times the share received; 1 when nothing was lost or nothing received. |
| `VoiceScore.P95IsNearest` | collector/src/collector/voice.py:164 | The 95th percentile is taken at the rank nearest to 95 hundredths of the way, the even one of two; clamping never changes it. |
| `VoiceScore.RoundedIs` | collector/src/collector/voice.py:177-185 | Reported figures are the nearest whole number of tenths or hundredths, the even one of two. |
| `VoiceScore.GradeOfReportedIff` | collector/src/collector/voice.py:175-185 | The reported R falls in the reported grade's band if and only if R is not within a twentieth below 70 or 80. |
| `VoiceScore.ReportedGradeDisagrees` | collector/src/collector/voice.py:175-185 | An R of 69.96 is reported as 70 with the grade poor. |
| `Voice.RFactorFalls` | collector/src/collector/voice.py:93-102 | R never rises when delay, jitter, loss or burst ratio does (Annex B of ITU-T G.107). |
| `Voice.RFactorIs` | collector/src/collector/voice.py:93-102 | R by its equation for all inputs: 93.2 less the delay impairment, less 95 p b / (p + 25.1 b), with loss clamped to 0..100 and the burst ratio to at least 1. |
| `Voice.WorseIsNotBetter` | collector/src/collector/voice.py:93-121 | A call worse in every respect is never graded better, nor scored better while R is at least 4. |
| `Voice.MosIncreases` | collector/src/collector/voice.py:105-111 | MOS is strictly increasing in R from 4 to 100. |
| `Voice.MosBounds` | collector/src/collector/voice.py:105-111 | MOS is between 0.98 and 4.5 for every R. |
| `Voice.MosBelowOneIff` | collector/src/collector/voice.py:105-111 | MOS falls below 1 if and only if 0 < R < 80 and R^2 - 160 R + 1000 > 0 (R below about 6.5). |
| `Voice.MosDipsBelowOne` | collector/src/collector/voice.py:105-111 | A concrete R with MOS below 1. |
| `ScanCadence.Poller.RunScan` | collector/src/collector/scan.py:109-169 | A scan starts unless the lock is busy, the interface is gone or unusable, or an unforced one meets the cooldown; the whole new table either way. |
| `ScanCadence.Poller.Tick` | collector/src/collector/poller.py:201-273 | The planning loop and the run loop of one tick leave exactly the run table of the specification. |
| `ScanCadence.AttemptsAreSpaced` | collector/src/collector/scan.py:153-169 | Over every run of plans, forced and unforced scans, kills and restarts, an unforced attempt on a network starts at least one cooldown after every earlier attempt on it, failed ones included. |
| `ScanCadence.OneScanAtATime` | collector/src/collector/scan.py:109-140 | Until the running scan ends no row is added, whatever is planned or forced. |
| `ScanCadence.WhatIsPlanned` | collector/src/collector/poller.py:206-243 | Over every run an interface that can be scanned gets a full scan if and only if it has no stable network or no full scan of it started within the rescan interval has succeeded; a light pass if and only if one has, light passes are on and no scan of either kind has within the capture interval. Full scans are told by what ran, not by their label. |
| `ScanCadence.RunLabelled` | collector/src/collector/poller.py:223-243 | Over every run the reason "capture" is on light passes and on no other scan the poller plans. |
| `ScanCadence.ScanEndsDebtIff` | collector/src/collector/poller.py:223-236 | A job that runs on an overdue network ends that if and only if it is a full scan, succeeds and starts late enough: light passes never do. |
| `ScanCadence.FullScanCounts` | collector/src/collector/poller.py:223-236 | After a planned full scan that succeeds, whatever happens, no further full scan of the network is planned within the rescan interval of its start. |
| `ScanCadence.MisnamedScanDoesNotCount` | collector/src/collector/__main__.py:61-70 | An operator's successful full scan with the reason "capture": the next tick plans a full scan again. |
| `ScanCadence.OverdueIff` | collector/src/collector/db.py:172-211 | A network is overdue from a time on if and only if the freshness query finds no full scan at any later time. |
| `ScanCadence.OverdueRunsFullOnly` | collector/src/collector/poller.py:223-269 | While a network's full scan is overdue no light pass of it is planned, and none is run if and only if no interface moves onto the network between the planning of a light pass and its start. |
| `ScanCadence.StrayLightPass` | collector/src/collector/poller.py:256-269 | A concrete run in which such a light pass runs on an overdue network. |
| `ScanCadence.FullScanIsNotStarved` | collector/src/collector/poller.py:201-273 | Over any run in which the full scan stays overdue, each job for the network that meets a free lock a cooldown after the earlier attempts leaves a full scan started now or within the cooldown. |
| `ScanCadence.DueTickAttemptsFullScan` | collector/src/collector/poller.py:201-273 | The first tick at least one cooldown after the last attempt on a network whose full scan is due attempts that full scan. |
| `ScanCadence.TickSamplesEveryNetwork` | collector/src/collector/poller.py:201-269 | After a tick with light passes on, every network on an interface that stayed up has been scanned in the tick, or successfully within the capture interval before it, or attempted within the cooldown before it. |

## Left out

- SpoolQueue.RunConserves: order and exactly-once hold for runs whose writes succeed on a clock that does not go back; SpoolDelivery.DeliveredAtLeastOnce covers the other runs, where order is not promised.
- SpoolDelivery.DeliveredAtLeastOnce: assumes no two spool files get the same name.
- Redact.BackstopLine: states which spans it masks; that no later keyword has a suspect is Redact.NoSuspectLater, for searches with the properties of the shipped patterns, which are hypotheses here. It does not promise that a second sweep changes nothing.
- VoiceScore.Score: rounds reals; floating-point rounding before that is not modelled.
- BundleRuns.BackoffBoundsRetries: assumes flush passes run one after another; a manual upload racing the scheduler is not modelled.
- BundleRuns.OwedIffNotBuiltSinceEnd: as above; builds that interleave are the subject of BundleTrace.
- BundleRuns.SweepIffOld: as above; BundleRuns.SweepIs does not assume it.
- VoiceScore.StreamIs: speaks of streams in which something was sent.
- ResultSpool.FileNameOrder: assumes time stamps below 10^20 and fewer than 10^9 files per process, the widths of the name.
- BundleTrace.QueriedAfterGraceIsComplete: assumes that a row becomes visible within 15 s of its stamp, as the grace in the code does; BundleTrace.CompleteIffNoScanAfterQuery does not.
- BundleTrace.HourlyTickWritesComplete: as above; and a tick so late that a further hour has ended counts, for that hour, as the tick at startup.
- BundleRuns.PassesClearDebt: assumes that between passes no further hour closes and none leaves the 48-hour horizon.
- EnvRuns.ReadersAgree: assumes a non-empty mapping, as the only caller guarantees (collector/src/collector/checkin.py:755).
- EnvRuns.PushTwice: assumes a non-empty mapping, as above.
- AuthBreaker.TestTargets: assumes at least one worker; with none a wave would be empty and the loop would not progress.
- ScanCadence.FullScanCounts: speaks of scans the poller planned; an operator's counts unless its reason is "capture" (ScanCadence.WhatIsPlanned).
- WatchTargets.RevalidationIsIdentity: assumes that normalising a normalised address changes nothing; address parsing itself is a parameter.
- ScanCadence.DueTickAttemptsFullScan: assumes the tick begins with the scan lock free and that no interface planned for a light pass moves to another network before it runs.
- ScanCadence.AttemptsAreSpaced: says nothing of an interface without a stable network, which the code scans at every tick.
- Sockets, subprocesses, HTTP, WinRM, SSH and the probes themselves: their outcomes are arbitrary inputs.
- The SQL engine, JSON text, fsync: tables are maps and sequences, an atomic replace is one step, a kill falls between steps.
- The regular-expression engine and the vendor patterns: a pattern contributes arbitrary non-empty spans; the multi-line key-block step and the split into lines around the backstop are not modelled.
- Time zones and daylight saving: hours are numbers, and the fall-back hour's shared file name (collector/src/collector/uploader.py:210-213) is not modelled.
- Deleting bundle files on disk after upload or give-up, and retention purges of old scans.
- UTF-8 decoding of DNS labels, host names and DHCP strings, and address text: these stay bytes.
- The IGMP listener's bookkeeping, its start inside a tick, and the body of a scan.
- The capture ladder of the path probe (`decide`, `capture`), bundle rendering, config field copying, command line, logging, remote console, device dialogues and host metrics: input and output, or easy properties only.
