# csid verification

Dafny models of the parts of csid, the CSI capture daemon, and of its readers that have
state, arithmetic or crash ordering worth proving. Each module stands for one component
and keeps its form: what updates fields in place is a class with methods over those
fields, loops stay loops, and expressions are functions. Every method is proved against a
specification function or an independent definition, and the theorems are about those.

| Modules | Component |
|---|---|
| `Disk` | a directory across a power cut: fsync, rename, directory fsync, and the replace-a-file protocol |
| `Text`, `FleetKey` | the fleet key file and the daily one-way key chain |
| `ContinuousArchive`, `BleSeal` | the rotating BLE archive, and the background export that seals a segment |
| `Sealing`, `Summaries`, `Ftm` | sealing a capture segment, segment and session summaries, the FTM clock |
| `BleCursor`, `BleWindows` | attributing the growing BLE log to segments |
| `Runs`, `Burst`, `BurstMinutes` | maximal runs, the streaming burst statistic, and what its minutes report |
| `Radiotap`, `RadiotapLayout`, `RadiotapFrames`, `Airtime`, `AirtimeMinutes` | radiotap headers, on-air time and its minutes |
| `Hci`, `AdWalk` | HCI advertising reports and AD structures |
| `Bytes`, `Csiq`, `CsiqRoundTrip`, `CsiqStream` | the CSIQ container |
| `Prelude`, `Division` | shared types, and facts of integer division |
| `Calendar`, `Stamps` | civil dates and the two stamp formats |
| `Pacing` | the injector's pacing loop |
| `Collector`, `Quality` | the collector's session accounting, and qualification of a capture |

`Volume` in `Disk` fails nondeterministically, counts its failures in `faults` and records in
`trail` every state that a power cut can hit; `CrashOf` says what may come back from one.
Contracts tie every failure to a fault, so a method that always fails does not meet its own.
SHA-256, HMAC and the address digest are function parameters: results hold for any hash.

Constants and tables are fixed by value, apart from the functions that use them, in small lemmas
beside these: `Csiq.FitsByType`, `CsiqStream.FrameErrors`, `RadiotapLayout.FieldsByShape` and `StopBits`,
`Airtime.UnknownSchemes` and `NewestPhyCounts`, `AirtimeMinutes.MinuteStarts` and `LinesHaveFrames`,
`BurstMinutes.ChainMeasures` and `InjectorAddress`, `Text.ParsesDigits` and `Bytes.FourBytes`.

## Where the code and its comments differ

The models follow the code. For each point below the exact condition is proved, with an
input where one is named.

- The key file written for an all-zero key cannot be read back (`FleetKey.ParseOfRender`), so a
  chain that ratcheted to it would stop at the next reload, and only then
  (`FleetKey.ReloadFailsOnlyOnZero`).
- A daily key can come back after its day has passed. `KeyForDay` makes a new key file durable before
  it returns the key, but a process that is killed, or ends on an error, between the rename and the directory
  fsync leaves the new file visible and the old one pending; the restarted service loads and uses the
  new day without writing, and a power cut then restores the old one
  (`FleetKey.RestartLosesDay`). There is no way back exactly when no older file is pending
  (`FleetKey.NoWayBackIff`), which is so after every key that its own call wrote
  (`FleetKey.WrittenKeyIsFinal`).
- Archive directories are named by the opening nanosecond. A clock that comes back to the very
  nanosecond of an earlier segment empties that segment's log, and accepted rows are never
  sealed (`ContinuousArchive.ConservationIffStampsDiffer`, and a faultless run in `ReturningClockLosesRows`).
- The BLE export fsyncs the parquet and the seal but not the directory, so a power cut can leave
  `session.json` without its parquet (`BleSeal.SealCanOutliveParquet`), and in a reopened directory
  the old seal stands over a truncated parquet from the first step on (`BleSeal.ReopeningTearsParquet`).
  Every cut is survived exactly when the directory can bring back no seal and cannot lose the
  parquet's name (`BleSeal.ExportSurvivesCutsIff`), which a new directory can
  (`BleSeal.NewDirectoryCanLoseParquet`).
- A segment whose raw file does not open for the summary walk but opens for the export is sealed
  with `records` 0 over a full container (last clause of `Sealing.SealOne`).
- A BLE log line that is not UTF-8 is neither counted as malformed nor passed: a slice answers
  exactly when no such bytes stop it (`BleWindows.AnswersIff`), and once they have, so they do every
  later slice of the run whose window ends no earlier (`BleWindows.UndecodableLineStalls`).
- Rows that fall between two windows are consumed and counted by neither: a row is counted by at most
  one segment, and by exactly one only when it is in some window (`BleWindows.EveryRowIsCountedIff`,
  `RowBetweenWindows`).
- The injector moves its deadline by the low 32 bits of the missed slots but counts 64
  (`Pacing.SlotAccountIff`, `LongStallIsMiscounted`).
- Stamps sort as text only before the year 10000 (`Stamps.StampOrderIff`).
- The collector reports every late first arrival as a loss and a duplicate
  (`Collector.LostIsMissingIff`), and a backward clock step adds 2^64 ns to its interval sum in
  a release build (`Collector.IntervalSumTelescopesIff`).
- The durations follow the standard's training fields except for five and seven streams, which the
  code charges one too few (`Airtime.TrainingIff`).

## Model

| member | source | states |
|---|---|---|
| `Disk.ReplaceFile` | crates/csid/src/sidecar.rs:799-825 | At every step, a cut leaves under the target what it could show before or all of the new document, and every other file as it was; on success only the new document; a run without faults passes through the state between the rename and the directory fsync. |
| `FleetKey.ParseOfRender` | crates/csid/src/ble.rs:597-615 | The printed key file parses back to the same day and key, exactly when the key is not all zero. |
| `FleetKey.ParseIff` | crates/csid/src/ble.rs:597-615 | A text is a key file exactly when its trimmed, non-empty lines are three: the format's name, a day, and a key of 64 hexadecimal digits that are not all zero. |
| `FleetKey.FleetKeyChain.KeyForDay` | crates/csid/src/ble.rs:642-660 | A past day or one more than 366 ahead, and no other, is given no key and changes neither memory nor file; a later day hands out the key ratcheted by the difference, only after the file is durably replaced; a failure leaves memory alone and takes a fault. |
| `FleetKey.WriteKeyFile` | crates/csid/src/ble.rs:664-693 | Every state passed through shows after a cut the old or the whole new key file; success makes the new one certain; a run without faults passes through the renamed but unsettled file. |
| `FleetKey.StepKeepsInv` | crates/csid/src/ble.rs:642-693 | A call, a failed write, an exit or a power cut between calls or at any step of one, or a reload keeps memory and every file that may come back on the seed's chain, and hands out only keys of that chain. |
| `FleetKey.RunKeepsInv` | crates/csid/src/ble.rs:642-693 | Any run of such steps keeps that invariant. |
| `FleetKey.HandedOutIsRatcheted` | crates/csid/src/ble.rs:510-517 | In any run from a seeded file, with restarts and power cuts, each key handed out for day d is the seed ratcheted d minus seed day times. |
| `FleetKey.NodesAgree` | crates/csid/src/ble.rs:538-543 | Two nodes of one seed that are both given a key for a day are given the same key, whatever calls, failures, exits, cuts and reloads each went through. |
| `FleetKey.NoWayBackIff` | crates/csid/src/ble.rs:538-543 | After any run, no continuation hands out a day before a given one exactly when neither memory nor any key file that a cut may still bring back is of an earlier day. |
| `FleetKey.WrittenKeyIsFinal` | crates/csid/src/ble.rs:639-660 | After a key that its own call wrote, no continuation of the run hands out an earlier day's, whatever fails, exits or is cut. |
| `FleetKey.RestartLosesDay` | crates/csid/src/ble.rs:639-693 | For every seeded file and later day whose keys are not all zero: a run in which the process is killed in the very state of a faultless write before the directory fsync, a restart hands out the later day, and a power cut then brings the seed's day back. |
| `FleetKey.ReloadFailsOnlyOnZero` | crates/csid/src/ble.rs:571-595 | A reload at any point of any run, after an exit or a cut, gives a day of the chain and its ratcheted key, and fails exactly when that key is all zero. |
| `Text.ParseOfDecimal` | crates/csid/src/ble.rs:603-607 | A printed number parses back, with or without a plus sign, exactly when it fits in 64 bits. |
| `Text.ParseOfHex` | crates/csid/src/ble.rs:466-480 | A printed key parses back from its hexadecimal form. |
| `Text.HexPairs` | crates/csid/src/ble.rs:473-476 | A pair parses exactly when it is two hexadecimal digits of either case, or a plus sign and one, and then to the byte written. |
| `Text.HexOfParse` | crates/csid/src/ble.rs:371-386 | Lower-case digits are the print of what they parse to, so equal bytes and equal prints are the same. |
| `Text.TrimMeans` | crates/csid/src/ble.rs:598 | Trimming takes exactly the white space off both ends. |
| `Text.LinesJoin` | crates/csid/src/ble.rs:598 | The lines joined by line feeds are the text, and hold none themselves. |
| `ContinuousArchive.SameSegmentSameDay` | crates/csid/src/ble_continuous.rs:66-73 | If the segment length divides a day, stamps of one segment index fall on one UTC day. |
| `ContinuousArchive.DayFollowsIndexIffLengthDividesDay` | crates/csid/src/ble_continuous.rs:66-73 | The day is a function of the segment index exactly for the lengths that divide a day. |
| `ContinuousArchive.OnePseudonymPerSegment` | crates/csid/src/ble.rs:351-359 | Two nodes of one fleet that both hold the day's key give one address one pseudonym inside a segment, whatever their clocks did. |
| `ContinuousArchive.LogStandsForEntries` | crates/csid/src/ble.rs:371-386 | In the log of every segment that was not reopened, row i keeps observation i's stamp and body, and its hash is 2n lower-case hexadecimal digits that parse back to the first n bytes of the digest of the segment's salt and that observation's own address type and address, where n is the configured count forced into 4 to 32. |
| `ContinuousArchive.PseudonymsAgreeIff` | crates/csid/src/ble.rs:371-386 | Two rows of one segment's log carry one hash exactly when those n digest bytes of their own address types and addresses agree. |
| `ContinuousArchive.IndexBounds` | crates/csid/src/ble_continuous.rs:87-89 | Segment i holds the stamps from i to i + 1 segment lengths, and day d those from d to d + 1 times 86400 seconds. |
| `ContinuousArchive.SaltFor` | crates/csid/src/ble_continuous.rs:87-127 | The salt is the fleet salt of the time's own segment and day, or random exactly when the chain's day is later or more than 366 days earlier. |
| `ContinuousArchive.OpenAt` | crates/csid/src/ble_continuous.rs:79-151 | Opening a segment gives that salt, or takes a fault in drawing it or in creating the directory or its log. |
| `ContinuousArchive.Open` | crates/csid/src/ble_continuous.rs:58-75 | Opens an empty, properly salted archive, or refuses a length under 60 s or not dividing a day, or reports a fault. |
| `ContinuousArchive.ContinuousLog.RotateAt` | crates/csid/src/ble_continuous.rs:175-191 | Does nothing inside the current segment; otherwise enters the segment of the stamp, salted for it, with the old one handed to the export; loses no accepted observation and keeps at most one export in flight. |
| `ContinuousArchive.ContinuousLog.Enter` | crates/csid/src/ble_continuous.rs:180-190 | The new segment follows all earlier ones, empty, and the old one is what is exported. |
| `ContinuousArchive.ContinuousLog.Observe` | crates/csid/src/ble_continuous.rs:153-162 | On success exactly this observation is added to the accepted ones, to the last segment if its stamp is of that one and else to a new segment under its own salt, and the directory's last row stands for it; on failure none is. |
| `ContinuousArchive.ContinuousLog.Log` | crates/csid/src/ble_continuous.rs:155-161 | The row appended to the segment's directory keeps the stamp and body, and its hash is the hexadecimal of the first 4 to 32 bytes of the digest of the segment's salt, address type and address. |
| `ContinuousArchive.ContinuousLog.JoinExport` | crates/csid/src/ble_continuous.rs:267-279 | An unfinished export is an error when it must be finished; a joined one has sealed its segment's logged rows or has failed. |
| `ContinuousArchive.ContinuousLog.Finish` | crates/csid/src/ble_continuous.rs:281-285 | If it and every earlier call succeeded, every segment is sealed with its own row count, index and scope. |
| `ContinuousArchive.SealedAtMostAccepted` | crates/csid/src/ble_continuous.rs:193-285 | When every segment whose directory was not reopened is sealed, as after a clean finish, sealed row counts never sum to more than the accepted observations, and to exactly as many when only empty segments were reopened. |
| `ContinuousArchive.ConservationIffStampsDiffer` | crates/csid/src/ble_continuous.rs:101-125 | A finished archive's sealed counts sum to the accepted observations exactly when no segment with rows was followed by one opened at the same nanosecond. |
| `ContinuousArchive.ReturningClockLosesRows` | crates/csid/src/ble_continuous.rs:101-139 | A run of the calls, for every fleet, observation and pair of stamps in different segments: the clock leaves a segment and returns to its opening nanosecond, nothing fails, every segment is sealed, one observation was accepted and none is counted. |
| `BleSeal.ExportSegment` | crates/csid/src/ble_continuous.rs:205-258 | In any directory where the export's files are its own, even one with an earlier seal: every state is one of the export's steps, a run without faults ends in the exported directory, and however it ends another export can start. |
| `BleSeal.PassesKeepsReady` | crates/csid/src/ble_continuous.rs:205-254 | At every state of an export the directory is one that an export can start on. |
| `BleSeal.NewSealsFollowParquet` | crates/csid/src/ble_continuous.rs:206-254 | At every state of an export, a seal that was not there before is whole, counts the rows and stands over a parquet written and fsynced before it. |
| `BleSeal.CutKeepsWholeFiles` | crates/csid/src/ble_continuous.rs:206-254 | After a cut a seal of this export is whole, and so is its parquet if its name survived. |
| `BleSeal.ExportSurvivesCutsIff` | crates/csid/src/ble_continuous.rs:205-254 | No cut at any state of any run of the export leaves a readable seal without its whole parquet, exactly when the directory it starts on can bring back no seal and cannot lose the parquet's name. |
| `BleSeal.SealCanOutliveParquet` | crates/csid/src/ble_continuous.rs:205-254 | In every directory that can lose the parquet's name, a cut after a faultless export that leaves the new `session.json` without its parquet. |
| `BleSeal.ReopeningTearsParquet` | crates/csid/src/ble_continuous.rs:205-207 | In every directory that can bring back a seal, a cut after the export's first step that leaves the seal over a torn parquet. |
| `BleSeal.NewDirectoryCanLoseParquet` | crates/csid/src/ble_continuous.rs:137-139 | A directory made for the segment is one that can lose the parquet's name. |
| `Sealing.Drain` | crates/csid/src/export.rs:204-231 | Exactly the records before the first unreadable one are copied and counted. |
| `Sealing.Convert` | crates/csid/src/export.rs:130-196 | On success a cut can only leave the container with all readable records and the given session block; at no step is another file touched. |
| `Sealing.WriteSidecar` | crates/csid/src/sidecar.rs:799-825 | Atomic and durable: at every step a cut shows the old or the new document, and success makes the new one certain. |
| `Sealing.Persist` | crates/csid/src/sidecar.rs:771-775 | Writing the finalised sidecar is safe at every step, given a durable container or an excused one, and takes effect when nothing fails. |
| `Sealing.SealOne` | crates/csid/src/segment.rs:212-289 | At every state a cut can hit, `complete` implies a durable container with exactly the readable records and the identical finalised document, or no session block if that one did not serialise, or that the export was not asked for or failed; without faults the directory says `complete`. The finalised document names the given segment and carries the given BLE slice; it starts at the first readable record's non-zero stamp in whole seconds, or at the session's start when none has one or the raw file did not open; `records` is the container's count exactly when the summary walk opened the raw file or nothing is readable. |
| `Sealing.CutLeavesHonestFiles` | crates/csid/src/export.rs:162-174 | After a cut at any such state `metadata.json` is absent or whole, and `complete` means the container reads back as exported. |
| `Summaries.SummarizeSegment` | crates/csid/src/segment.rs:505-580 | The summary has the count, empties, sorted tone set and rate of the readable records, and their first and last stamps. |
| `Summaries.EmptiesAreCounted` | crates/csid/src/segment.rs:531-535 | The empty count is the number of records none of whose samples differs from zero. |
| `Summaries.RateOfTicks` | crates/csid/src/segment.rs:568-574 | For records whose true ticks step by less than 2^32, the sealed rate times the ticks from first to last is 320 million times the records, or zero when they stand still. |
| `Summaries.Summarize` | crates/csid/src/engine.rs:1436-1538 | The session summary totals segments on disk and sealed counts of pruned ones, with the rate over one unwrapped span, or over summed spans when any is pruned. |
| `Summaries.SealKeepsSpan` | crates/csid/src/segment.rs:474-481 | Over the reals, the span recovered from a sealed rate is the segment's own FTM span. |
| `Summaries.PruningIsInvisible` | crates/csid/src/engine.rs:1429-1435 | For any subset of pruned segments, records, empty records and tone counts are as with all files present, and the pruned ones are counted. |
| `Summaries.PrunedRateIsOneValue` | crates/csid/src/engine.rs:1432-1435 | Any two non-empty prunings give one rate, no lower than the whole run's unless no segment has a span. |
| `Ftm.FtmUnwrapper.Push` | python/csiq/reader.py:384-388 | One push adds a wrap exactly when the raw value steps down, and returns the wraps and the value together. |
| `Ftm.UnwrappedMonotone` | python/csiq/reader.py:377-388 | Unwrapped values never go back. |
| `Ftm.UnwrapRecoversTicksIff` | python/csiq/reader.py:377-388 | Unwrapped low halves of non-decreasing ticks stay at one constant distance from the truth exactly when no step is 2^32 or more. |
| `Ftm.SpanOfTicks` | crates/csid/src/segment.rs:539-570 | The span unwrapped from the low halves of true ticks is the true span when no step is 2^32 or more. |
| `Ftm.SegmentShift` | crates/csid/src/engine.rs:1421-1427 | Unwrapping a segment inside a longer run shifts all its values by one multiple of 2^32. |
| `Ftm.SpanSumBelowRunSpan` | crates/csid/src/engine.rs:1432-1435 | Per-segment spans never sum to more than the span of the whole run. |
| `BleCursor.Cursor.Slice` | crates/csid/src/segment.rs:323-417 | The slice consumes the complete lines before the first row later than the window or before a partial line, counts the rows from the window's start on and the malformed lines, and fails without moving on undecodable bytes. |
| `BleCursor.NoteIsAppend` | crates/csid/src/segment.rs:370-388 | The tally kept row by row is the batch summary: counts, distinct devices and participants, first and last time, widest gap. |
| `BleCursor.SummaryCounts` | crates/csid/src/segment.rs:370-378 | Observations, rows without RSSI and rows with a lab frame are the sizes of those sets of rows; devices and participants are those that occur. |
| `BleCursor.SummaryTimes` | crates/csid/src/segment.rs:379-387 | The first time is the first that is not zero and the last that of the last row. |
| `BleCursor.SummaryGap` | crates/csid/src/segment.rs:382-385 | The widest gap in milliseconds bounds every step from a row with a time to the next, and is one of them or zero. |
| `BleCursor.LinesMakeUp` | crates/csid/src/segment.rs:350-357 | Whole lines and the unread rest make up the bytes; every line ends with its only line feed and the rest has none. |
| `BleWindows.OffsetIsLineBoundary` | crates/csid/src/segment.rs:303-307 | Over any run on a growing log the offset is the end of the lines consumed so far, and the next slice reads exactly the lines after them. |
| `BleWindows.EachLineIsConsumedOnce` | crates/csid/src/segment.rs:291-297 | The pieces that slices consume follow each other without gap or overlap from the start of the log; a partial line is in none. |
| `BleWindows.AnswersAreOfThePiece` | crates/csid/src/segment.rs:293-297 | A slice that answers counts rows of its own piece only, none later than its window. |
| `BleWindows.AnswersIff` | crates/csid/src/segment.rs:323-352 | At any point of any run a slice answers exactly when it has a window and no bytes that are not UTF-8 come before the first row past the window; else it moves nothing. |
| `BleWindows.UndecodableLineStalls` | crates/csid/src/segment.rs:345-352 | In any run, once a slice has run into a complete line that is not UTF-8, no later slice whose window ends no earlier answers or moves, whatever the slices between do. |
| `BleWindows.SlicesCountTheirWindows` | crates/csid/src/segment.rs:317-322 | With ordered rows, increasing windows and rows written before their window is read, every slice counts exactly the rows in its window. |
| `BleWindows.EveryRowIsCountedIff` | crates/csid/src/segment.rs:291-297 | Over such a run the observations of all slices sum to at most the rows up to the last window's end, and to all of them exactly when none of those rows is outside every window. |
| `BleWindows.RowBetweenWindows` | crates/csid/src/segment.rs:354-388 | A log of three rows and two windows with one row between them: the slices together count fewer than three. |
| `Runs.CutIsMaximal` | crates/csid/src/burst.rs:207-233 | Cutting one element at a time gives the maximal runs of equal key. |
| `Runs.MaximalRunsAreCut` | crates/csid/src/burst.rs:207-233 | There is only one way to cut a sequence into maximal runs. |
| `Burst.GreatestIsMaximum` | crates/csid/src/burst.rs:55-58 | The strongest chain is the greatest non-zero value, and there is none exactly when all are zero. |
| `Burst.BurstStats.Observe` | crates/csid/src/burst.rs:199-243 | The accumulator's minutes and open state are always those of the batch computation over what it has seen. |
| `Burst.StreamEqualsBatch` | crates/csid/src/burst.rs:153-243 | For any cut of the input into maximal same-minute runs, the emitted minutes and the pending one are each run's statistic computed from scratch over its maximal same-window injector runs. |
| `BurstMinutes.EmittedMinutesReport` | crates/csid/src/burst.rs:170-193 | Every emitted minute, of its own maximal same-minute run cut into maximal same-window injector runs: `startS` is 60 times the first record's minute; the counts are the injector and the other records; `windows` is the number of deviations that count; p75 and p90 stand exactly at 3(n-1)/4 and 9(n-1)/10 of the ordered deviations, between neighbours in proportion to the remainder; the same for each chain's own deviations; and each chain's ambient median stands at (n-1)/2, its deviation being the root of the ambient variance. |
| `BurstMinutes.BatchMinuteReports` | crates/csid/src/burst.rs:170-193 | The batch statistic of any run reports the same. |
| `BurstMinutes.WindowsThatCount` | crates/csid/src/burst.rs:153-165 | The deviations are, in order, those of exactly the windows with the minimum of strongest-chain samples and at least two of them. |
| `BurstMinutes.ChainWindowsThatCount` | crates/csid/src/burst.rs:160-164 | A chain's deviations are those of exactly the windows that met the minimum and in which it has two samples. |
| `BurstMinutes.VarianceByMoments` | crates/csid/src/burst.rs:61-69 | The variance times n(n-1) is n times the sum of squares less the squared sum, and there is one exactly for two values or more. |
| `BurstMinutes.StrongestOfChains` | crates/csid/src/burst.rs:55-93 | The strongest RSSI is the greatest of the chains that measured, and there is none exactly when no chain did. |
| `BurstMinutes.SelectShares` | crates/csid/src/burst.rs:30-36 | Injector and ambient records share out the records. |
| `BurstMinutes.WindowAndMinute` | crates/csid/src/burst.rs:206-208 | A stamp, read as signed, lies in its window, and the window starts in the record's minute. |
| `Burst.WindowInOneMinute` | crates/csid/src/burst.rs:195-208 | Records of one window fall in one minute, for every positive window length. |
| `Burst.FramesAreConserved` | crates/csid/src/burst.rs:199-243 | Emitted and pending frame counts sum to the calls made. |
| `Burst.ChainSamplesBelowStrongest` | crates/csid/src/burst.rs:88-93 | A chain never has more samples than the strongest-chain series. |
| `Burst.SquaresSign` | crates/csid/src/burst.rs:61-69 | What the root is taken of is never negative, and zero exactly for values all equal to the mean. |
| `Burst.QuantileOfPermutation` | crates/csid/src/burst.rs:72-82 | The order of the values does not matter. |
| `Burst.QuantileBounds` | crates/csid/src/burst.rs:78-81 | A quantile lies between the order statistics around its position. |
| `Burst.QuantileEnds` | crates/csid/src/burst.rs:72-82 | Quantile 0 is the least value and quantile 1 the greatest. |
| `Calendar.CivilIsValid` | crates/csid/src/util.rs:29-40 | Every day number gives a valid Gregorian date. |
| `Calendar.EpochIsDayZero` | crates/csid/src/util.rs:28-40 | Day 0 is 1970-01-01. |
| `Calendar.CivilSteps` | crates/csid/src/util.rs:29-40 | Day n+1 is the calendar successor of day n. |
| `Calendar.CivilOfDays` | crates/csid/src/util.rs:29-40 | The date of a valid date's day count is that date. |
| `Calendar.DaysOfCivil` | crates/csid/src/util.rs:29-40 | The day count of a day number's date is that number. |
| `Stamps.SplitOfSeconds` | crates/csid/src/util.rs:42-54 | The parts are a valid date-time and give the seconds back. |
| `Stamps.SecondsOfSplit` | crates/csid/src/util.rs:42-54 | Every valid date-time from 1970 on is the split of its own seconds. |
| `Stamps.StampOrder` | crates/csid/src/util.rs:56-66 | For years up to 9999 both stamp formats sort as text exactly as the seconds do. |
| `Stamps.StampOrderIff` | crates/csid/src/util.rs:56-66 | All stamps up to n sort by time exactly when n is before the year 10000. |
| `Stamps.KnownStamps` | crates/csid/src/util.rs:110-117 | One known instant in both formats. |
| `Csiq.DecodePayload` | python/csiq/reader.py:420-499 | The loop returns the record, or the first error, of the recursive decoding. |
| `Csiq.DecodeIsLookup` | python/csiq/reader.py:420-499 | Decoding encoded fields that fit reads each field's last value on its own, then requires FTM, NRX, NTX and NTONE. |
| `Csiq.MisfitFails` | python/csiq/reader.py:436-487 | A payload that holds a field of a length its type does not accept fails with the error of the first such field, malformed for type 0x11 and Python's own otherwise, whatever else it holds or lacks. |
| `Csiq.MissingIff` | python/csiq/reader.py:490-492 | A payload of fitting fields is refused exactly when type 1, 6, 7 or 8 is missing, with that error. |
| `Csiq.CutPayload` | python/csiq/reader.py:425-434 | A payload cut at a field's end decodes as the fields before; cut in a field's header it is truncated, and in its value malformed. |
| `Csiq.BwAntselBits` | python/csiq/reader.py:494-498 | Bits 11 to 13 of RNF are the bandwidth and bits 14 and 15 the antennas; a zero word has neither. |
| `Csiq.SameKnownSameRecord` | python/csiq/reader.py:420-499 | The record, or the missing-field error, depends only on the last values of the known types. |
| `Csiq.FieldOrderIsIrrelevant` | python/csiq/reader.py:424-488 | Reordering fields of distinct types does not change the record. |
| `Csiq.UnknownFieldsAreInvisible` | python/csiq/reader.py:488 | Fields of unknown type at field boundaries change neither record nor error. |
| `Csiq.BwAntselIsRedundantIff` | python/csiq/reader.py:494-498 | A payload of fitting fields decodes the same with its BW_ANTSEL fields left out exactly when it is refused for a missing field anyway or the last of them holds the bits of RNF, which is what a writer puts there. |
| `CsiqRoundTrip.RoundTrip` | python/csiq/reader.py:420-499 | Any record that the field widths can hold, written as one field per type in any order, decodes to itself, with BW_ANTSEL filled in from RNF when it had none. |
| `CsiqStream.Stream.ReadExactly` | python/csiq/reader.py:505-517 | The next n bytes exactly when there are that many, else truncation. |
| `CsiqStream.Stream.ReadRecords` | python/csiq/reader.py:684-692 | The generator yields the records of the frames up to the first that is not whole, and the same ending. |
| `CsiqStream.ReadCsiq` | python/csiq/reader.py:669-694 | Opening checks magic, version and session block in that order; the session is kept exactly when flagged and not empty. |
| `CsiqStream.RefusedIff` | python/csiq/reader.py:671-680 | A file is refused for its magic, its length or its version, each exactly when that comes first; byte by byte. |
| `CsiqStream.CutYieldsPrefix` | python/csiq/reader.py:684-692 | Any bytes cut anywhere yield a prefix of the records, ending cleanly, as truncated, or as the whole does. |
| `CsiqStream.CutStream` | python/csiq/reader.py:684-692 | A record stream cut at byte k yields exactly the records whose frames end by k, cleanly exactly at a frame boundary and else as truncated. |
| `CsiqStream.CutFile` | python/csiq/reader.py:669-694 | A capture cut before its session block ends cannot be opened; cut later, it opens with its session and the records written in full. |
| `Radiotap.AlignUpAligns` | crates/csid/src/airtime.rs:153 | Every field starts at a multiple of its alignment. |
| `Radiotap.Parse` | crates/csid/src/airtime.rs:129-263 | The parse is a lookup of each field at the offset that the presence bits determine, and rejects a header exactly when it is not radiotap or its first word's fields do not fit. |
| `Radiotap.ReadFirstWord` | crates/csid/src/airtime.rs:149-231 | The field loop reads every first-word field, or fails exactly when they do not fit. |
| `Radiotap.ReadAntennaWord` | crates/csid/src/airtime.rs:239-258 | One antenna word fills the slot its antenna field names exactly when signal and antenna are present and fit; a field that does not fit ends the word. |
| `Radiotap.OnlyTheHeaderMatters` | crates/csid/src/airtime.rs:129-148 | Whatever the bytes, frames with one header differ only in payload length: nothing outside it is read. |
| `RadiotapLayout.ParseOfLayout` | crates/csid/src/airtime.rs:129-263 | Any header with fields at their aligned offsets, any number of words and any padding parses to exactly the fields, antenna signals and payload length of the words up to the first with a TLV, vendor or missing namespace bit, or of all when there is none; the words after it change nothing. |
| `RadiotapLayout.HeaderIsHeader` | crates/csid/src/airtime.rs:122-128 | Every choice of fields under chained presence words has such a header. |
| `RadiotapLayout.RoundTrip` | crates/csid/src/airtime.rs:129-263 | Parsing the encoder's header before any body recovers what was encoded in the words up to the first stop bit. |
| `RadiotapFrames.ParseOfDescription` | crates/csid/src/airtime.rs:129-263 | A header whose words hold the encodings of a signal in -128..127, rate, flags, HT, VHT and HE shape, aggregate reference and antenna signals, whatever else they hold and however it is padded, parses to exactly that description; the length is the body less four bytes, or zero, exactly when the FCS bit is set. |
| `RadiotapFrames.DescriptionRoundTrip` | crates/csid/src/airtime.rs:129-263 | Any such description, laid out by an encoder from the numbers themselves, parses to itself before any body. |
| `RadiotapLayout.HtRoundTrip` | crates/csid/src/airtime.rs:162-167 | MCS, width and guard interval of any HT description come back. |
| `RadiotapLayout.VhtRoundTrip` | crates/csid/src/airtime.rs:169-187 | MCS, streams, width and guard interval of any VHT description come back. |
| `RadiotapLayout.HeRoundTrip` | crates/csid/src/airtime.rs:188-228 | Format, MCS, streams, width, guard interval and LTF of any HE description come back. |
| `RadiotapLayout.HtUnknown` | crates/csid/src/airtime.rs:163-166 | What an HT field does not mark as known reads as 20 MHz and the long guard interval. |
| `RadiotapLayout.VhtUnknown` | crates/csid/src/airtime.rs:169-187 | Every VHT width code reads as its width, 20 MHz when unknown or past the table; no stream count reads as one. |
| `RadiotapLayout.HeUnknown` | crates/csid/src/airtime.rs:193-228 | What an HE field does not mark as known reads as 20 MHz, 0.8 us and 6.4 us; no stream count reads as one. |
| `RadiotapLayout.FlagsRoundTrip` | crates/csid/src/airtime.rs:157-160 | The FCS and short-preamble bits come back. |
| `RadiotapLayout.Ax210Offsets` | crates/csid/src/airtime.rs:79-108 | The AX210's presence words put rate, signal and antennas at the offsets the card uses. |
| `RadiotapLayout.StopBitsKeepFirstWord` | crates/csid/src/airtime.rs:233-238 | Whatever the bytes, a TLV, vendor or missing namespace bit in the first word empties the antenna slots and changes nothing else. |
| `RadiotapLayout.NoHeaderIff` | crates/csid/src/airtime.rs:130-136 | A frame has no radiotap header exactly when it is under eight bytes, of another version, or states a length out of 8 to 1024 or past its end. |
| `Airtime.Aggregates.DurationUs` | crates/csid/src/airtime.rs:378-395 | A frame is charged as first exactly when it is outside an aggregate or its reference differs from the frame before. |
| `Airtime.MinuteAirtime.Add` | crates/csid/src/airtime.rs:406-419 | A known time goes to its source's sum and an unknown one to the unknown count. |
| `Airtime.TallyIsSum` | crates/csid/src/airtime.rs:378-419 | Over any frames the two sums total the charged time, and known and unknown counts the frames. |
| `Airtime.TallyBySource` | crates/csid/src/airtime.rs:406-419 | The injector's sum is the charges of the injector's frames alone and the other sum those of the others, each charged by the frame before it whoever sent that; known frames are exactly those whose time the PHY fields determine. |
| `Airtime.SumIsOverRuns` | crates/csid/src/airtime.rs:378-395 | Charged time is the sum over the maximal runs of equal A-MPDU reference, each charged on its own. |
| `Airtime.AggregateTotal` | crates/csid/src/airtime.rs:360-367 | A run of one reference and shape totals one preamble and (22 + 8 (octets + 4 n)) / N_DBPS symbols for its n subframes. |
| `Airtime.WithinOneSymbol` | crates/csid/src/airtime.rs:368-369 | A frame outside an aggregate lasts its exact bit time rounded up by less than one symbol. |
| `Airtime.LegacyOfdmRate` | crates/csid/src/airtime.rs:339-343 | Legacy OFDM bits take their length over the nominal rate (section 17.4.3 of IEEE Std 802.11-2016). |
| `Airtime.LegacyRates` | crates/csid/src/airtime.rs:339-343 | Legacy OFDM is timed at its eight rates and no other. |
| `Airtime.DsssDuration` | crates/csid/src/airtime.rs:350-355 | DSSS is 192 us, or 96 for a short preamble above 1 Mb/s, and the octets at the rate. |
| `Airtime.BitsOfScheme` | crates/csid/src/airtime.rs:265-282 | A data subcarrier carries its constellation's bits times the code rate, for MCS 0 to 11 and no other. |
| `Airtime.HtShape` | crates/csid/src/airtime.rs:330-338 | HT of MCS 8(n-1)+m is n streams of scheme m: n times its rate at the width, 32 us and the training fields. |
| `Airtime.VhtShape` | crates/csid/src/airtime.rs:325-329 | VHT is n times the scheme's rate at the width, 36 us and the training fields, of which one is missing for five and seven streams. |
| `Airtime.HeShape` | crates/csid/src/airtime.rs:316-324 | HE single-user and extended-range frames: symbol, bits and preamble by width, scheme, streams and guard interval. |
| `Airtime.TrainingIff` | crates/csid/src/airtime.rs:306-312 | The training-field count is right exactly when there are not five or seven streams, where it is one too few. |
| `Airtime.MonotoneInLength` | crates/csid/src/airtime.rs:348-370 | A longer payload is never shorter on the air, in every PHY and inside an aggregate. |
| `Airtime.KnownDurations` | crates/csid/src/airtime.rs:315-370 | Known durations of one frame of each PHY. |
| `AirtimeMinutes.AirtimeOut.Loop` | crates/csid/src/census.rs:648-715 | The loop's lines and trackers are those of its passes one after the other: a frame or the clock outside the minute hands it on first, a frame is charged after the parsed one before it, and the last minute is handed on at the stop. |
| `AirtimeMinutes.LinesAddUp` | crates/csid/src/census.rs:551-574 | However the input falls into minutes, the lines total the tally of the whole input, each parsed frame charged by the one before it: an aggregate that crosses a minute pays its preamble once. |
| `AirtimeMinutes.WholeIsSum` | crates/csid/src/airtime.rs:378-419 | That whole tally is the summed airtime of the parsed frames, over both sources, and counts every classified frame. |
| `AirtimeMinutes.LinesBySource` | crates/csid/src/census.rs:551-574 | Over any input the lines' injector time totals the charges of the injector's parsed frames alone and their other time those of the others; `known` counts exactly the frames whose header parses and determines a time. |
| `AirtimeMinutes.LinesAreTheirMinutes` | crates/csid/src/census.rs:662-697 | For every minute, the lines of that minute total exactly the charges, by source, and the known and unknown counts of the classified frames received in it, however the clocks went. |
| `Hci.ParseHciEvent` | crates/csid/src/ble.rs:918-980 | The event's reports, whether it was cut short, or that it is another event. |
| `Hci.CutEvent` | crates/csid/src/ble.rs:918-980 | An event of any report list cut to at least five bytes yields the reports wholly there, `truncated` exactly when some are missing (Bluetooth Core Specification Vol 4 Part E, section 7.7.65.2). |
| `Hci.TrailingBytesAreIgnored` | crates/csid/src/ble.rs:933-936 | Bytes after the declared length are not read, and an uncut event yields all its reports. |
| `Hci.IgnoredIff` | crates/csid/src/ble.rs:930-939 | A packet is passed over exactly when it is under five bytes, not an LE advertising report event, or declares fewer than two bytes. |
| `AdWalk.StructuresAreLongestPrefix` | crates/csid/src/ble.rs:814-822 | The structures walked are the longest well-formed prefix of the payload. |
| `AdWalk.StructuresOfBytes` | crates/csid/src/ble.rs:817-842 | Encoded structures are walked back, before whatever follows them. |
| `AdWalk.CompanyId` | crates/csid/src/ble.rs:740-753 | The company of the first manufacturer structure with at least two payload bytes. |
| `AdWalk.CompanyRecovers` | crates/csid/src/ble.rs:740-753 | The company sent low byte first in a structure of type 0xFF comes back, after any structures without one and before any bytes. |
| `AdWalk.MatchUuidLe` | crates/csid/src/ble.rs:849-863 | A UUID matches exactly when its reversed bytes start with the namespace; the keys are the last two pairs. |
| `AdWalk.Extract` | crates/csid/src/ble.rs:817-846 | The first lab frame over the structures of the longest well-formed prefix. |
| `AdWalk.FirstMatchIsFirst` | crates/csid/src/ble.rs:812-813 | A first match is that of the least matching index, and there is none exactly when nothing matches. |
| `AdWalk.ExtractRecovers` | crates/csid/src/ble.rs:817-863 | Any participant and session sent little-endian in a UUID list or service data are recovered, after structures without a lab frame and before any bytes. |
| `AdWalk.OnlyTheNamespaceMatches` | crates/csid/src/ble.rs:775-777 | What is extracted comes from a UUID of the payload that carries the namespace. |
| `AdWalk.OfferedByType` | crates/csid/src/ble.rs:826-842 | Types 0x06 and 0x07 offer every whole UUID of their list, type 0x21 the first, and no other type any. |
| `AdWalk.CanonicalForm` | crates/csid/src/ble.rs:858-862 | The printed UUID is the sixteen bytes in lower-case hexadecimal, dashed after 8, 13, 18 and 23 characters. |
| `Pacing.Injector.Iterate` | crates/csid/src/inject.rs:312-345 | One pass under any clock that does not run back: sleep, or one send, and the skip of missed slots with both truncations. |
| `Pacing.Injector.RunLoop` | crates/csid/src/inject.rs:288-355 | The loop performs a run of such passes with ordered clock readings. |
| `Pacing.SlotAccountIff` | crates/csid/src/inject.rs:332-345 | The deadline is start + (sent + errors + skipped) * period exactly when no stall's missed slots overflow 32 bits, and never later. |
| `Pacing.LongStallIsMiscounted` | crates/csid/src/inject.rs:338-344 | A stall of 2^32 periods is counted as skipped and leaves the deadline. |
| `Pacing.RunIsPaced` | crates/csid/src/inject.rs:312-334 | Whatever stalls there are, no frame goes out before its slot, slots used are at least a period apart, frames are numbered by attempt, and sent and errors count the attempts that were taken and refused. |
| `Pacing.OverdueIff` | crates/csid/src/inject.rs:336-345 | After a pass the deadline is less than a period overdue exactly when the stall was under 2^32 periods. |
| `Pacing.RateIsBounded` | crates/csid/src/inject.rs:20-22 | In a run whose stalls are all under 2^32 periods the number of attempts made in any interval [a, b] is less than (b - a) / period + 3: missed slots are never bunched. |
| `Pacing.AttemptsInOrder` | crates/csid/src/inject.rs:312-334 | Attempts are listed in the order of their times, none later than the last clock reading. |
| `Collector.Session.RecordData` | crates/collector/src/session.rs:194-236 | The counters are always those of the arrivals written; a failed write counts nothing. |
| `Collector.Session.Summarise` | crates/collector/src/session.rs:248-285 | The summary computed in one pass is that of the whole run at once: raises of the highest number, mean interval, mean squared deviation, widest gap. |
| `Collector.SummaryMeans` | crates/collector/src/session.rs:248-285 | Rate times span is the packets, mean times intervals the interval sum, the widest gap is the greatest gap, and packets are raises and duplicates. |
| `Collector.TotalsMean` | crates/collector/src/session.rs:194-236 | The totals have the bytes of all arrivals, the last stamp, and the first that is not zero. |
| `Collector.HighsAreFirsts` | crates/collector/src/session.rs:216-223 | Raises never exceed the distinct numbers seen, and equal them exactly when first arrivals increase. |
| `Collector.LostIsMissingIff` | crates/collector/src/session.rs:264-268 | `lost` is at least the numbers in 0..highest that never arrived, and equals them exactly when first arrivals come in increasing order; the subtraction never saturates. |
| `Collector.IntervalSumTelescopesIff` | crates/collector/src/session.rs:225-234 | Intervals sum to last minus first exactly when stamps never decrease, and to 2^64 more for each step back. |
| `Collector.OnePassVariance` | crates/collector/src/session.rs:259-263 | The one-pass variance is the mean squared distance to the mean, so it is never negative and the clamp changes nothing. |
| `Quality.Qualify` | crates/csid/src/session_quality.rs:22-50 | Windows, gap and errors are those of the accepted stamps. |
| `Quality.UsableMeans` | crates/csid/src/session_quality.rs:22-49 | The usable fraction is that of the whole six-second windows that hold at least 150 accepted records. |
| `Quality.ErrorsMean` | crates/csid/src/session_quality.rs:32-49 | Errors and accepted stamps make up the records, and the gap is in seconds. |
| `Quality.NoErrorsIff` | crates/csid/src/session_quality.rs:32-36 | There are no clock errors exactly when the stamps are not zero and never decrease. |
| `Quality.GapCoversSession` | crates/csid/src/session_quality.rs:37-44 | Every instant from the first stamp to first + duration has, no more than the reported gap before it, an accepted record, or the first stamp itself if that is zero. |
| `Quality.GapIsAttained` | crates/csid/src/session_quality.rs:37-44 | The reported gap is a step between neighbouring accepted stamps, the end gap, or zero. |
| `Quality.WindowsPartition` | crates/csid/src/session_quality.rs:39-42 | The window counts sum to the accepted records inside whole windows. |

## Left out

- The hash functions: any function of the right shape, so one-wayness and collision resistance are not claimed.
- `FleetKeyChain::load`'s file mode check, and chains without a file.
- Text beyond ASCII; the key file, stamps and hexadecimal digits are ASCII.
- 64-bit overflow of day arithmetic, of counters and of `seconds * 1e9`; nanosecond clocks are naturals.
- Floating-point rounding: rates, times and deviations are reals. Square roots are a parameter of `Burst` and are left out of the collector's `interval_cv`.
- ContinuousArchive.ContinuousLog.SealAsync: the export thread touches only its own directory before the join, so its work is placed at the join; the file steps inside it are `BleSeal.ExportSegment`.
- ContinuousArchive.ContinuousLog.JoinExport: whether a background export has finished is any answer.
- FleetKey.FleetKeyChain.KeyForDay: a failed write may leave the file ahead of memory, as the code does; what a restart then makes of it is `FleetKey.NoWayBackIff`.
- ContinuousArchive.ContinuousLog.Log: a failed flush leaves the row in the writer's buffer, and `finish`, which the scan loop calls even after an error (crates/csid/src/hci.rs:751), may still write and seal it; in the model a row whose call failed is not in the log.
- ContinuousArchive.ContinuousLog.Enter: the directory and log are created by `OpenAt` before it, and a failed creation changes no directory; a directory created without its log is not kept apart from none.
- BleWindows.AnswersIff: in a run the log can always be opened and read; a slice that cannot open it answers nothing and moves nothing (`BleCursor.Cursor.Slice`).
- BleCursor.Cursor.Slice: `mean_rate_hz` and `max_gap_s` are quotients of fields it returns; the JSON of a row and the UTF-8 check are parameters.
- Sealing.SealOne: the BLE slice is a given value, as are the clock reading, whether the raw file opens for each reader and whether the sidecar serialises each time.
- Pacing.Injector.Iterate: the frame's bytes and the log line are not modelled; configuration keeps the rate at 1 to 1000 frames a second, so the period is positive.
- Csiq.DecodePayload: names of modulations and widths stay codes, and session JSON stays bytes; a field of a wrong length raises Python's own `struct.error`, `IndexError` or, for CSI_MATRIX, `TypeError`, except for BW_ANTSEL, and the three are one error `PythonError`.
- Quality.Qualify: 0 windows give no fraction where csid divides zero by zero.
- Summaries.SummarizeSegment: the raw file's size and the per-transmitter counts, sums beside the rest.
- zstd, Parquet, serde and TOML: assumed to write and read back what they are given; a file's content is a value.
- AirtimeMinutes.AirtimeOut.Flush: a line is handed on when it is made; the log and the text file that it goes to, and their failures, are not modelled, nor are frames the node sent itself.
- The transmitter census's own counters, time-transfer ticks, marker records, Prometheus text and the per-antenna frame RSSI: easy beside the rest.
- The Rust accelerator path, live datagrams and the raw driver stream of the Python reader.
- Sockets, netlink, HCI commands, debugfs and process supervision: foreign calls without logic of their own.
