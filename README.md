# secondary-db-watcher, modelled in Dafny

The watcher polls a legacy Firebird database ("Dekanat") for two facts:

- the datetime of its latest activity;
- the date of the first lesson registration, which fixes the education year.

From these it builds a snapshot `(datetime, education year)`. It compares the snapshot with the one it stored on the previous poll. When the two differ, it stores the new snapshot first. It then publishes a `CurrentYearEvent` (only when the year changed) and a `SecondaryDbLoadedEvent` to Kafka. If a publish fails, it writes the old bytes back. A supervising loop runs the poll over and over. It pauses after each run, gives up after too many consecutive errors, and stops on a signal. The process exit code then tells how the loop ended.

The model is organised by the program's own structure:

| file | module | what it holds |
|---|---|---|
| wrappers.dfy | `Wrappers` | `Option`, `Result` |
| errors.dfy | `Errors` | Go error values: their text and the sentinels `errors.Is` finds |
| numerals.dfy | `Numerals` | decimal digits, zero-padded numbers, `%d` text |
| calendar.dfy | `Calendar` | wall-clock readings in one fixed zone, their instants, and the proof that `Equal` is field equality on valid readings |
| world.dfy | `World` | the scripted collaborators: database rows, the persistent slot behind the `fileStorage` interface (a class), the Kafka writer (a class), and one shared `Journal` of effects |
| dbstate.dfy | `DbState` | the snapshot, `isEqual`, and an abstract encoding |
| dekanat_source.dfy | `DekanatSource` | `getDbStateDatetime` (the rewrite pipeline and the fixed-layout parse), `getCurrentYear`, `extractEducationYear`, `makeDbState` |
| metaeventbus.dfy | `MetaEventbus` | the publisher class and the messages it sends |
| dekanat.dfy | `Dekanat` | `checkDekanatDb` as an imperative method, proved equal to the specification function `Cycle`, and the saga's guarantees as lemmas about `Cycle` |
| mainloop.dfy | `MainLoop` | `runMainLoop` as a `while` loop, proved equal to the recursive specification `Loop`, and lemmas about `Loop` |
| storage.dfy | `FileCache` | the write-through cache of storage.go as a class over a file-system class |
| configloader.dfy | `ConfigLoader` | `loadConfig` as a function of the environment |
| app.dfy | `App` | `handleExitError` and the exit codes |

Every call the watcher makes on the database, the store and the Kafka writer is appended to one `Journal`. Statements about order are statements about that one sequence, for example "the new snapshot is stored before anything is published" or "the old bytes are written back last".

## Model

| member | source | states |
|---|---|---|
| Calendar.InstantInjective | dbState.go:11 | two valid readings denote the same instant (`Equal`) exactly when all their fields agree |
| DbState.IsEqualReflexive | dbState.go:10-12 | `isEqual` is reflexive |
| DbState.IsEqualSymmetric | dbState.go:10-12 | `isEqual` is symmetric |
| DbState.IsEqualTransitive | dbState.go:10-12 | `isEqual` is transitive |
| DbState.IsEqualIffSame | dbState.go:11 | `isEqual` holds exactly when the year and every datetime field agree |
| DbState.DifferentYearsNeverEqual | dbState.go:11 | snapshots with different education years are never equal, whatever their datetimes |
| DbState.DifferentDatetimesNeverEqual | dbState.go:11 | snapshots of one year that differ only in the datetime are not equal |
| DbState.Deserialize | dekanat.go:46 | decoding succeeds only on bytes that encode a well-formed snapshot, and only on that snapshot's encoding |
| DbState.SerializeRoundTrip | dekanat.go:57 | decoding the encoding of a snapshot gives the snapshot back |
| DekanatSource.ParseDate | dekanat.go:125 | a parsed `2006-01-02` date is a valid calendar date at midnight, of a year below 10000, and the text is exactly that date written in the layout |
| DekanatSource.ParseClock | dekanat.go:108 | a parsed clock is an hour below 24, a minute and a second below 60, and the text is exactly `T`, the hour in two digits (or one digit for hours below ten), `:`, the minute, `:`, the second |
| DekanatSource.ParseFirebird | dekanat.go:108 | a reading parsed against `2006-01-02T15:04:05` is valid, and the text is exactly that reading written in the layout, or with a one-digit hour below ten |
| DekanatSource.ParseDateRejects | dekanat.go:125 | `2023-02-30` (no such day) and `2023-1-05` (a one-digit month) are rejected |
| DekanatSource.ParseFirebirdRejects | dekanat.go:108 | hour 24 and a character after the seconds are rejected |
| DekanatSource.ParseDateFormatted | dekanat.go:125 | a date written as `YYYY-MM-DD` parses back to that date |
| DekanatSource.ParseFormatted | dekanat.go:108 | a reading written in the Firebird layout parses back to itself |
| DekanatSource.RemoveFirstZ | dekanat.go:104 | text without `Z` is unchanged; otherwise exactly one character goes |
| DekanatSource.RemoveFirstZAt | dekanat.go:104 | only the first `Z` is removed: the text before it and the whole text after it are kept |
| DekanatSource.RemoveTrailingOffset | dekanat.go:105 | text without a trailing `+HH:MM` is unchanged; otherwise exactly that suffix is cut |
| DekanatSource.TrailingOffsetRemoved | dekanat.go:84 | an offset at the end of any text is removed and the rest kept |
| DekanatSource.RemoveMilliseconds | dekanat.go:85 | the rewrite never lengthens the text |
| DekanatSource.MillisecondsKeepsStrayDot | dekanat.go:85 | a `.` that does not start three digits is kept, and the search resumes right after it |
| DekanatSource.MillisecondsShortFraction | dekanat.go:85 | `05.5` has no three-digit fraction and is left unchanged |
| DekanatSource.MillisecondsAbsent | dekanat.go:106 | text without `.` is left unchanged |
| DekanatSource.MillisecondsRemovedAt | dekanat.go:106 | a `.ddd` after dot-free text is removed, the prefix is kept, and the rest is rewritten in the same way |
| DekanatSource.NormaliseFormatted | dekanat.go:104-108 | a Firebird-layout reading followed by optional milliseconds and then an optional `Z` or `+HH:MM` reads back as that reading |
| DekanatSource.NormaliseExample | dekanat.go:104-108 | `"2022-11-02T04:00:00.123Z"` reads as 2022-11-02 04:00:00 |
| DekanatSource.DatetimeOfFormatted | dekanat.go:87-108 | a live database whose latest activity is in the Firebird layout yields exactly that reading |
| DekanatSource.GetDbStateDatetime | dekanat.go:87-109 | succeeds exactly when the probe succeeds, the row is a non-empty value and the rewritten text parses; the result is that parse; a probe error is returned as it is |
| DekanatSource.EducationYear | dekanat.go:131-135 | the calendar year or the one before, the calendar year exactly when the month is at or past the cutover |
| DekanatSource.GetCurrentYear | dekanat.go:111-142 | succeeds exactly when the row is a value whose first ten characters parse and whose August-cutover year is at least 2022; the result is at least 2022 and is the date's year or the year before |
| DekanatSource.ExtractEducationYear | dekanat.go:144-161 | fails on the zero datetime; otherwise applies the September cutover and the 2022 floor, with the same iff and bounds |
| DekanatSource.CurrentYearOfFormattedDate | dekanat.go:123-141 | a `YYYY-MM-DD` registration date yields its education year, or the floor error with that year in its text |
| DekanatSource.RegistrationCutoverBoundary | dekanat.go:133-135 | July 31 belongs to the previous education year and August 1 to the new one |
| DekanatSource.RegistrationBeforeFloor | dekanat.go:137-139 | a registration date in a year before 2022 is rejected |
| DekanatSource.DatetimeCutoverBoundary | dekanat.go:152-158 | August 31 belongs to the previous year and September 1 to the new one; a year before the floor is rejected |
| DekanatSource.MakeDbState | dekanat.go:22-34 | reads the datetime first and the year only after a good datetime; succeeds exactly when both succeed; otherwise it returns the first error with its prefix; it lists the database calls it made; a short registration row matters only after a good datetime |
| MetaEventbus.PreviousOrYearStart | metaEventbus.go:35-40 | a zero previous datetime becomes August 1, 00:00:00 of the given year; any other passes unchanged |
| MetaEventbus.LoadedMessagePayload | metaEventbus.go:43-47 | the loaded event is keyed by its name and carries (current, previous or year start, year) |
| MetaEventbus.MessagesDistinct | metaEventbus.go:43-53 | a loaded message and a year message never coincide, and neither do their keys |
| MetaEventbus.MetaEventbus.WriteMessage | metaEventbus.go:24-32 | exactly one message, keyed by the event name, is handed to the writer; the writer's error is returned unchanged |
| MetaEventbus.MetaEventbus.SendSecondaryDbLoadedEvent | metaEventbus.go:34-48 | appends exactly the loaded message to the journal and returns the writer's error for its key |
| MetaEventbus.MetaEventbus.SendCurrentYearEvent | metaEventbus.go:50-55 | appends exactly the year message, carrying only the year, and returns the writer's error for its key |
| Dekanat.DecodePrevious | dekanat.go:42-47 | nil bytes mean the zero snapshot; a decoded snapshot is well formed |
| Dekanat.CheckDekanatDb | dekanat.go:36-81 | the effects appended to the journal, the error returned and the store afterwards are those of `Cycle` on the database's reading, for every database whose registration row is only sliced after a good datetime |
| Dekanat.Reconcile | dekanat.go:37-55 | after the reading: the same effects, error and store as `Cycle` |
| Dekanat.LoadPrevious | dekanat.go:42-51 | one `Get`; the bytes it returned; no error exactly when the store is readable, and then the decoded snapshot (zero for nil bytes); otherwise the `Get` error or the unmarshal error |
| Dekanat.StoreAndPublish | dekanat.go:57-61 | on a change: the effects, error and store of `Persist`: store the new bytes, and publish only when the store took them |
| Dekanat.PublishEvents | dekanat.go:63-80 | the effects, error and store of `Publish`: the year event when the year changed, then the loaded event, and the old bytes written back on a failed send |
| Dekanat.CompareReadFailure | dekanat.go:49-51 | a failed or undecodable read ends the poll with the prefixed error, with nothing written |
| Dekanat.CompareUnchanged | dekanat.go:53-55 | an equal snapshot ends the poll with nil and nothing written |
| Dekanat.CompareChanged | dekanat.go:53-57 | a different snapshot goes on to be stored, with the decoded snapshot and the bytes read |
| Dekanat.CycleWritten | dekanat.go:37-80 | on a change that the store accepts, the poll is the database calls, the read, the write of the new bytes, then the publishing step |
| Dekanat.CycleSourceFailure | dekanat.go:37-40 | a failed reading returns an error after database calls only: no store access and no publish |
| Dekanat.CycleStoreReadFailure | dekanat.go:42-51 | a failed or undecodable store read returns an error with no write and no publish |
| Dekanat.CycleUnchanged | dekanat.go:53-55 | an unchanged snapshot succeeds with no write and no publish |
| Dekanat.CycleWritesBeforePublishing | dekanat.go:57-61 | on a change the first write stores the new snapshot, and only database calls and the read come before it |
| Dekanat.CycleWriteFailure | dekanat.go:58-61 | a failed write of the new snapshot is returned as it is and nothing is published |
| Dekanat.CycleYearEventIff | dekanat.go:63-69 | after a good write, the year message for the current year is sent exactly when the education years differ |
| Dekanat.SentKeysAppend | dekanat.go:63-80 | the keys sent by two runs of effects are the keys of the first followed by those of the second |
| Dekanat.PublishYearEvent | dekanat.go:63-69 | the publishing step sends the year message exactly when the education year changed |
| Dekanat.PublishOrder | dekanat.go:63-80 | the publishing step sends the year key when the year changed, then the loaded key unless the year send failed |
| Dekanat.CyclePublishOrder | dekanat.go:63-80 | a whole poll after a good write sends its keys in that order and no others |
| Dekanat.PublishFailureRollsBack | dekanat.go:63-78 | when a send that is attempted fails: an error, the loaded failure's own text, and a last write of the old bytes |
| Dekanat.CyclePublishFailureRollsBack | dekanat.go:63-78 | when the year send (after a year change) or the loaded send fails, the poll returns an error whatever the write-back does, with the exact text for a failed loaded send; it ends with a write of exactly the bytes the read returned, and a successful write-back restores the slot |
| Dekanat.CycleYearFailureSkipsLoaded | dekanat.go:63-69 | a failed year send returns its error and the loaded event is never attempted |
| Dekanat.CycleSuccess | dekanat.go:57-80 | when every send succeeds, the new snapshot stays stored, the loaded message was sent and no error is returned |
| Dekanat.PublishReplay | dekanat.go:63-80 | what the publishing step sends and returns does not depend on the store's state |
| Dekanat.CycleRetryAfterRollback | dekanat.go:57-78 | after a failed send and a good write-back, the store holds the old bytes and the next poll with the same data repeats the same effects and error |
| Dekanat.ReadFormatted | dekanat.go:22-34 | a database holding a Firebird-layout datetime and a `YYYY-MM-DD` registration date reads as that snapshot after three calls |
| Dekanat.FailedPingWithShortRow | dekanat.go:22-40 | a failed probe is reported with both prefixes after one call, even with a registration row too short to slice |
| Dekanat.YearChangeCycle | dekanat.go:36-81 | the year-change case: the new snapshot is written, then the 2023 year event, then the loaded event, and no error is returned |
| Dekanat.YearChangeScenario | dekanat.go:22-34 | the rows of that case read as the snapshot (2023-09-15 04:00, 2023) |
| MainLoop.Loop | mainloop.go:16-59 | the loop from a given iteration runs no more iterations than the script holds |
| MainLoop.RunMainLoop | mainloop.go:16-59 | the result, the log, the number of runs and the pauses are those of `Loop` from iteration 0 with no errors behind it |
| MainLoop.BreakEndsLoop | mainloop.go:27-29 | a break request ends the loop at once, with no pause and no log line, returning that error and not nil |
| MainLoop.FailingUntilTooMany | mainloop.go:31-41 | with every iteration failing, the loop runs up to the threshold, pauses after each run but the last, mentions the error once per failure plus once more, and returns `TooManyError` |
| MainLoop.AllFailing | mainloop.go:36-41 | with threshold N and every iteration failing: N runs, `TooManyError`, N + 1 mentions of the error |
| MainLoop.SuccessesThenBreak | mainloop.go:25-54 | successes followed by a break: one success pause and one success line per success, then the break error |
| MainLoop.TooManyMeansConsecutive | mainloop.go:36-46 | `TooManyError` is returned only after that many consecutive failed iterations, since a success resets the count |
| MainLoop.CancelReturnsNil | mainloop.go:48-53 | a signal during a pause logs "cancelled" last, runs nothing more and returns nil |
| MainLoop.PauseCount | mainloop.go:31-54 | a pause follows every iteration except one that breaks or gives up, and the k-th pause is the error pause when the k-th iteration failed and the success pause when it succeeded |
| MainLoop.PauseOnErrorScenario | mainloop.go:25-58 | two errors and a break with three allowed: three runs, the break error, two error pauses |
| MainLoop.SignalScenario | mainloop.go:44-53 | a success and then a signal: nil, one run, a success line and "cancelled" |
| FileCache.Read | storage.go:19-35 | `get`: the cached value once loaded; otherwise "" for a missing file, "" and the error for an unreadable one, or the file's contents |
| FileCache.Write | storage.go:37-50 | `set`: the cached value is not written again; a write that fails when the file is opened changes nothing; otherwise the file and the cache take the value |
| FileCache.Storage.Get | storage.go:19-35 | returns `Read` of the fields and the disk, and changes nothing |
| FileCache.Storage.Set | storage.go:37-50 | the new fields, the new disk and the error are those of `Write` |
| FileCache.ReadOwnWrite | storage.go:19-49 | after a good `set(v)`, `get` on the same cache returns v |
| FileCache.FreshReadAfterWrite | storage.go:19-49 | after a good write, a fresh cache on the same readable file reads v back from the disk |
| FileCache.FailedWriteChangesNothing | storage.go:42-45 | a failed `set` leaves the fields unchanged, and the disk too for a failure when the file is opened |
| FileCache.SecondWriteSkipped | storage.go:38-40 | setting the same value twice touches the disk once |
| FileCache.SetThenGetFresh | storage.go:19-49 | set on one cache, then get on a fresh one: the value comes back and the file holds it |
| ConfigLoader.Wrap64 | configLoader.go:50-51 | two's-complement wrap into `int64`: in range, unchanged when it fits, congruent modulo 2^64 |
| ConfigLoader.ParseInt | configLoader.go:30 | parses exactly the texts made of an optional sign and at least one digit whose value lies in the `int64` range, to that value |
| ConfigLoader.ParseIntRejects | configLoader.go:30-33 | "abc", "5s", " 5", "+", "-" and "1.5" do not parse, so such a count takes its default |
| ConfigLoader.ParseIntRoundTrip | configLoader.go:30 | the `%d` text of any `int64` parses back to it |
| ConfigLoader.CountOrDefault | configLoader.go:30-43 | an unparsable or zero value gives the default; any other value is used as it is |
| ConfigLoader.Seconds | configLoader.go:50-51 | `time.Second * n` equals n seconds in nanoseconds whenever that fits `int64`, and always lies in the `int64` range |
| ConfigLoader.LoadConfig | configLoader.go:22-72 | the env-file error; the zero config with every error; success exactly when the file loaded and the DSN and Kafka host are set; on success the DSN and host, the driver and storage file or their defaults when empty, the error count or 3 when unparsable or zero, and both pauses |
| ConfigLoader.DsnCheckedFirst | configLoader.go:59-61 | a missing DSN is reported first, even when the Kafka host is missing too |
| ConfigLoader.KafkaHostRequired | configLoader.go:63-65 | with the DSN set, a missing Kafka host gives "empty KAFKA_HOST" and the zero config |
| ConfigLoader.Defaults | configLoader.go:30-69 | unset optional variables give 600 s, 60 s, 3 errors, "firebirdsql" and "storage.txt" |
| ConfigLoader.PauseUsedAsSeconds | configLoader.go:30-51 | a set non-zero pause, negatives included, is used as that many seconds when it fits a duration |
| ConfigLoader.SecondsWrapToZero | configLoader.go:50 | 2^55 seconds wraps to a zero duration |
| ConfigLoader.OverflowGivesZeroPause | configLoader.go:30-51 | a configured pause of 2^55 seconds passes the zero check and loads as a zero pause |
| ConfigLoader.CheckedPause | configLoader.go:30-33 | the corrected pause: never zero, the default for an unparsable or zero value, otherwise the value in seconds when it fits |
| App.HandleExitError | app.go:64-82 | exit code 0 exactly for nil, 3 exactly for a `TooManyError` chain (checked first), 2 for a break chain, 1 for any other error; a non-nil error's text is printed once |
| App.LoopReturns | mainloop.go:25-58 | the loop returns nil, `TooManyError`, or the breaking iteration's own error |
| App.LoopExitCodes | app.go:69-79 | giving up exits with 3, a signal with 0, a break request with 2 |

## Left out

- Database access (`Ping`, `QueryRow`, `Scan` and the query strings) is a scripted `SecondaryDb`. Each row is a value, a query error or a scan error.
- The external `fileStorage` package used by dekanat.go is not part of this model. Only its `Get`/`Set` interface is modelled, as `World.Store` with a scripted outcome per `Set`. storage.go is modelled on its own in `FileCache`, and the watcher does not use it.
- The Kafka writer (`events.WriterInterface`) is `World.Writer`, which fails as scripted per message key. The `events` package is not part of this model. The event-name constants are placeholders, and only the fact that the two names differ is used.
- JSON: snapshots are encoded as seven integers. `Deserialize` accepts exactly the encodings of well-formed snapshots. The unmarshal error text is a placeholder.
- Time zones: readings are wall-clock fields in one fixed zone. `time.Local`, daylight-saving gaps and the Europe/Kyiv setup in main.go are not modelled. Nor is the location of the substituted August 1 datetime.
- DekanatSource.ParseFirebird: Go accepts fractional seconds after the seconds field even though the layout has none. Such text is rejected here, and so is a value whose milliseconds the rewrite did not remove (for example `.5`).
- DekanatSource.GetDbStateDatetime: the parse error text keeps only the value and the layout, not Go's full "cannot parse ... as ..." detail.
- DekanatSource.GetCurrentYear: slicing a registration date shorter than ten bytes panics in the source. The model counts characters rather than bytes; the two agree on the ASCII text a date column holds, and differ only for non-ASCII text, which the source reads without panicking and then fails to parse. This is a precondition (`Sliceable`), not an error path. `MakeDbState` and `Dekanat.CheckDekanatDb` require it only when the datetime was read successfully, because only then is the registration date read.
- MetaEventbus.MetaEventbus.SendSecondaryDbLoadedEvent: the line printed to `out` and the RFC 3339 timestamp text are not modelled.
- MetaEventbus.MetaEventbus.SendCurrentYearEvent: the line "send sendCurrentYearEvent <year>" printed to `out` is not modelled.
- FileCache.Write: a failed write is modelled as a failure when the file is opened, which leaves the file as it was. `os.WriteFile` truncates the file first, so a write or close that fails later (a full disk, an I/O error) can leave the file empty or partly written. `FileCache.FailedWriteChangesNothing` holds for the disk only under this abstraction; its statement about the cache's fields holds for every failure.
- MainLoop.RunMainLoop: timers and signal delivery are a per-pause flag (`cancels`), and the wall-clock prefix of log lines is dropped. The loop ends when the script of outcomes runs out, which the source's loop never does.
- ConfigLoader.LoadConfig: godotenv's parsing of the env file and the OS environment are inputs: a map and the load's error.
- `runApp` (process wiring: `os.Stat`, `sql.Open`, writer construction, deferred `Close`), main.go, eventbus.go and the generated storage mock are not part of this model.

## Findings

| source | as written | input that shows it | evidently intended | confidence | as-written member | corrected member |
|---|---|---|---|---|---|---|
| configLoader.go:30-33, 50 | the zero check runs on the seconds, before they are multiplied by `time.Second`, and the `int64` product wraps | `PAUSE_AFTER_SUCCESS=36028797018963968` (2^55) passes the check, and 2^55 × 10^9 is a multiple of 2^64, so the pause is zero and the loop polls without pausing | a pause that is never zero: a value whose duration does not fit falls back to the default | not executed | ConfigLoader.OverflowGivesZeroPause | ConfigLoader.CheckedPause |

`LoadConfig` keeps the behaviour as written. The main loop takes any `Config`, so none of its lemmas depends on either form.
