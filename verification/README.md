# OpenWOP SDK consumers: a Dafny model

This project models the parts of the OpenWOP SDKs that keep state or transform data, in TypeScript
(`sdk/typescript-v2`) and Go (`go/v2`, and `go` for version 1), and proves what they promise:

* the resumable event-stream consumer: line splitting, frame interpretation, batches, the duplicate
  guard, the terminal frame, the resume cursor and the reconnect controller;
* the tenant-bound id wire form, on bytes (Go) and on text (TypeScript);
* the webhook signer and verifier;
* the capability records and the discovery root.

`dafny verify dfyconfig.toml` checks everything.

## How it is laid out

| files | what they hold |
|---|---|
| `Json`, `Numbers`, `Lines`, `Frames`, `Delivery`, `Reading` | a connection as functions: lines, frames, documents, the state they leave |
| `Controller`, `ControllerProofs`, `Verdicts` | end, fail or wait; backoff; failure streaks; agreement of the two controllers; what each kind of attempt comes to |
| `Session` | a whole stream (`Play`) over a script of what the network does; ordering and exits |
| `Resume`, `HonestHost`, `Hazards`, `Snapshots` | exactly-once delivery, a host that meets its hypotheses, what goes wrong without them, and streams that mix in documents without a sequence |
| `Standard`, `Conformance`, `Departures`, `Printing` | sections 9.2.5 and 9.2.6 of the WHATWG HTML Living Standard, where the SDKs leave it, and the wire format read and written |
| `Batches`, `Versions`, `Parity` | batches against single frames, version 2 against version 1, TypeScript against Go |
| `TypeScriptStream`, `GoStream` | the programs themselves: classes with the source's fields and loops, proved against the functions above |
| `Utf8`, `Hex`, `WireId`, `WireText`, `WireBytes` | UTF-8 (section 3 of RFC 3629), hex, the id wire form, and Go runs on bytes against runs on characters |
| `Webhook`, `Capabilities`, `Seqs` | the two smaller codecs, and facts about sequences |

The network is a script: each attempt is a refusal, silence, a success without a body (such as 204), or a
body of text that ends by a clean close or a read error after living some milliseconds, and says whether the
caller has aborted before and after it. `Play` gives the stream state and the observable acts (connects with
their `Last-Event-ID`, waits, the end). The JSON parser and Go's typed decoder are arbitrary functions.
TypeScript times are milliseconds, Go times are 64-bit nanoseconds. `Resume.Lawful` pairs each attempt with
what the host does on it: the text it would send, of which some prefix arrives, and the log position it
resumes from. In `GoStream` the inner of the two reconnect loops is a method of its own, `Reconnect`, whose
turn is `Pause` and then `Redial`; the loop over a batch is `SendBatch`, and a turn of version 1's line loop
is `TakeLine`.

## Where code and documentation part ways

* The comments say an event is never re-yielded. Until a document with a sequence has been seen the
  duplicate guard is off (`maxSequence` is -1), whatever cursor the caller passed: a host that starts
  before that cursor, on the first connect or on a later one, repeats events
  (`Hazards.EarlyResumeRepeatsAnEntry`). What the caller then holds is a stretch of the log after the cursor
  exactly when none of the earlier entries that arrived can be handed over (`Hazards.EarlyResumeRepeats`).
  `Resume.HostServes` therefore asks the host not to start early, until then.
* A frame of which the `id:` line was read and the data was not still moves the cursor when it is flushed, on
  a clean close in TypeScript and on every ending in Go (`Hazards.HalfFrameLosesAnEntry`). The data need not
  be missing: a line of a mebibyte or more ends Go's scan, and the final flush commits the id of an entry that
  arrived in full and was never read (`Hazards.OversizedEntryIsLost`). Which endings keep delivery exact is
  `Resume.SafeCuts`, for any cut of a lawful transmission, the uncut one included: those whose last frame is
  not flushed, or hands over the next entries of the log, if any, under an id that names none after them. For
  a host that writes one frame an entry, a flushed cut loses an entry exactly when its id arrived and some of
  its data did not (`HonestHost.CutsInsideExactly`); between frames nothing is lost, in Go as long as every
  line fits the scanner (`HonestHost.BoundaryCuts`).
* The TypeScript header comment claims the EventSource grammar. The standard ends a line at a lone CR and
  discards an unfinished frame; the SDKs do neither (`Departures.LoneCRsHideAMessage` and
  `Departures.LoneCRsJoinLines`, `Departures.UnfinishedFrameIsHandedOver`). The standard takes a leading byte
  order mark off and reads lines of any length; Go's scanner does neither (`Departures.MarkHidesAMessage`,
  `Departures.OversizedLineHidesAMessage`). Go also reads signed retry values
  (`Departures.SignedRetryIsTaken`). The streams whose finished lines agree are exactly those of
  `Standard.LinesExactlyAgree`; `Conformance.BodyConforms` says when a connection follows the standard.
* A success without a body, such as 204, is an error to TypeScript and an empty connection to Go
  (`ControllerProofs.BodilessDiverges`).
* The two terminal tests differ on three shapes of document (`Json.TerminalTestsDiffer`), the trims on
  lines with two CRs (`Lines.TrimsDiffer`), and a batch that is empty or `null` counts as a frame in
  TypeScript only (`Batches.EmptyBatchCounts`).
* Two 64-bit computations of the Go programs overflow: the doubling of a wait, under the condition of
  `ControllerProofs.DoublingIsExact`, and the age of a webhook, under that of `Webhook.FreshnessIsExact`.

## Model

| member | source | states |
|---|---|---|
| `Resume.ExactlyOnce` | sdk/typescript-v2/src/sse.ts:190-371 | over any lawful run the caller holds exactly the log from the entry after the starting cursor up to the furthest entry that arrived in a flushed frame, in order, without gap, duplicate or loss (for Go, those it decodes), and the client would not resume past it |
| `Resume.ExactlyOnceOnWholeFrames` | sdk/typescript-v2/src/sse.ts:190-371 | the same under a condition on the connections alone: a host that keeps its contract, and no connection flushed in the middle of a frame; the caller holds the log up to the furthest entry that a completed frame brought |
| `Resume.ExactlyOnceOnReadErrors` | sdk/typescript-v2/src/sse.ts:330-334 | in TypeScript the same when every connection breaks off with a read error, anywhere at all |
| `Resume.CompletedRunHoldsAll` | sdk/typescript-v2/src/sse.ts:296-299 | when only the last entry can end the run, a lawful run that a completed frame ended holds the whole log after the starting cursor |
| `Snapshots.NumberedExactlyOnce` | sdk/typescript-v2/src/sse.ts:92-94 | on streams that mix documents without a sequence into the log, the documents with one are delivered exactly once, in order, and the client would not resume past them |
| `Resume.PlayDelivers` | sdk/typescript-v2/src/sse.ts:205-369 | the invariant over whole runs, both languages: output is the stretch of the log that arrived, and the resume point never runs ahead of it |
| `Resume.ConnectionDelivers` | go/v2/sse.go:295-415 | one connection, cut anywhere the client copes with: the output grows by exactly what its flushed frames add |
| `Resume.SafeCuts` | sdk/typescript-v2/src/sse.ts:327-334 | for any cut of a lawful transmission, delivery stays exact with the cursor behind it if and only if the last frame is unflushed, or its documents past the guard are the next entries and its id names none after them |
| `Resume.SilentCuts` | sdk/typescript-v2/src/sse.ts:262-264 | a cut that leaves no document behind is harmless exactly when unflushed, without an id, or with an id that is not ahead of delivery |
| `Resume.CarryingCuts` | go/v2/sse.go:412-414 | a cut that leaves whole entries behind is harmless exactly when unflushed or its id names nothing after them |
| `Resume.FlushExact` | sdk/typescript-v2/src/sse.ts:256-284 | flushing any frame keeps delivery exact, up to a position, exactly when the frame hands over the entries up to it |
| `Resume.DeliverCarried` | sdk/typescript-v2/src/sse.ts:256-284 | a frame re-sent, overlapping or new moves delivery to the furthest entry seen and commits an id that is not past it |
| `Resume.SendNew` | sdk/typescript-v2/src/sse.ts:274-281 | the entry at the position reached passes the guard and moves the position by one |
| `Resume.SendOld` | go/v2/sse.go:318-322 | an entry before the position reached changes nothing at all |
| `Resume.FramesOfPrefix` | sdk/typescript-v2/src/sse.ts:286-294 | the frames completed before a cut are the first frames of the uncut transmission |
| `Resume.TransmissionMoves` | go/v2/sse.go:312-338 | a transmission from any position reached moves delivery to the furthest entry flushed, whatever its ids |
| `HonestHost.PrintedLogServes` | sdk/typescript-v2/src/sse.ts:43-44 | what a host writes one frame an entry, with any line endings and comments, is a transmission of its log, and so is any cut of it |
| `HonestHost.BoundaryCuts` | sdk/typescript-v2/src/sse.ts:327-329 | a connection to such a host that ends between frames is one the client copes with, whatever the ending, in Go when every line fits the scanner |
| `HonestHost.CutsInsideExactly` | sdk/typescript-v2/src/sse.ts:327-329 | a connection cut inside a frame keeps delivery exact precisely when nothing is flushed, none of the frame or all but its blank line arrived, or the entry was a repetition |
| `HonestHost.BlankLineMayBeMissing` | sdk/typescript-v2/src/sse.ts:327-329 | a connection that lacks only the blank line after the next entry delivers the entry exactly when its ending flushes |
| `Hazards.HalfFrameCommitsItsId` | go/v2/sse.go:412-414 | a body that ends after an id line commits that id exactly when the ending is flushed, and delivers nothing |
| `Hazards.HalfFrameLosesAnEntry` | sdk/typescript-v2/src/sse.ts:262-264 | wherever a stream stands, a connection with the id line of the next entry alone puts the cursor ahead of delivery exactly when its ending flushes: a lawful host need never send the entry |
| `Hazards.OversizedEntryIsLost` | go/v2/sse.go:299-302 | an uncut connection to an honest host whose next entry has a data line of a mebibyte or more: Go hands nothing over and commits the id of the entry, on every ending |
| `Hazards.EarlyResumeRepeats` | sdk/typescript-v2/src/sse.ts:209-210 | a connection that starts before the position asked for, while nothing sequenced was seen, leaves the caller a stretch of the log from there exactly when none of the earlier entries that arrived can be handed over |
| `Hazards.EarlyResumeInvariant` | go/v2/sse.go:318-322 | it keeps the delivery invariant, guard included, exactly when it brings no entry, or also goes past that position |
| `Hazards.EarlyResumeInTypeScript` | sdk/typescript-v2/src/sse.ts:274-281 | in TypeScript both hold exactly when it does not start early or brings no entry |
| `Hazards.EarlyResumeRepeatsAnEntry` | sdk/typescript-v2/src/sse.ts:209-210 | an input: with nothing sequenced seen yet, the entry named as the starting cursor is handed over again |
| `Session.OutputStrictlyIncreases` | sdk/typescript-v2/src/sse.ts:209-281 | whatever host and network do, the sequences handed over across all connections strictly increase, in both languages |
| `Delivery.DeliverAllKeepsOrder` | go/v2/sse.go:312-338 | delivery of any frames keeps the output ordered and under the guard |
| `Delivery.GuardExactly` | sdk/typescript-v2/src/sse.ts:274-281 | on a run stream a document without a sequence passes, and one with a sequence exactly when it is above the guard, which it then raises |
| `Delivery.HostStreamIsUnguarded` | go/v2/sse.go:316-329 | a stream of host events hands over every document it accepts, and nothing ends it |
| `Delivery.GoAcceptsDecodable` | go/v2/sse.go:330-333 | Go hands over the documents that decode and no other |
| `Session.ExitClassified` | sdk/typescript-v2/src/sse.ts:349-357 | a resuming run stream that ends normally did so after a terminal frame, an abort, or a clean frameless close within the floor, and waited out every earlier attempt |
| `Session.TerminalStops` | sdk/typescript-v2/src/sse.ts:296-299 | a body with a flushed terminal frame is the last connect, and its documents the last output |
| `Session.LinesAfterTerminal` | go/v2/sse.go:376-379 | once the finished lines of a text ended the run, whatever follows them in the body changes nothing in the state |
| `Reading.ChunkingIndependence` | sdk/typescript-v2/src/sse.ts:287-326 | reading chunk by chunk, however cut, reaches the state of taking the lines of the whole text |
| `Reading.AnyTwoCuttingsAgree` | sdk/typescript-v2/src/sse.ts:290-294 | two cuttings of one text are indistinguishable |
| `Reading.TakeAllFactors` | sdk/typescript-v2/src/sse.ts:296-325 | the one-pass line loop is frame assembly followed by delivery up to the terminal frame |
| `Reading.BodySplits` | go/v2/sse.go:374-414 | a connection delivers the frames its finished lines complete, then the frame left at the end if the ending flushes it, an unfinished last line included in Go |
| `Reading.FlushedExactly` | sdk/typescript-v2/src/sse.ts:327-334 | what a body leaves unfinished is flushed on every ending in Go and on a clean close in TypeScript, and dropped on a read error |
| `Reading.DroppedKeepsCompleted` | sdk/typescript-v2/src/sse.ts:330-334 | after a read error TypeScript holds just what the completed frames brought |
| `Reading.TooLongExactly` | go/v2/sse.go:299-302 | Go's scan fails exactly on a line of a mebibyte or more |
| `Reading.UnfinishedLine` | go/v2/sse.go:374 | an unfinished last line is a line to Go and stays in the buffer of TypeScript |
| `Lines.CutConcat` | sdk/typescript-v2/src/sse.ts:290-294 | an unfinished line kept in the buffer is continued by what arrives next |
| `Lines.TrimsDiffer` | go/v2/sse.go:375 | the two trims differ exactly on lines that end in two CRs |
| `Lines.TrimAllExactly` | go/v2/sse.go:375 | Go's trim takes off the CRs a line ends in, all of them and nothing else |
| `Frames.TrimOfTwoCRs` | sdk/typescript-v2/src/sse.ts:292 | of two CRs at the end TypeScript keeps one, Go none |
| `Json.TerminalTestsDiffer` | go/v2/sse.go:184-197 | Go's terminal test implies TypeScript's; the converse fails on exactly three shapes |
| `Json.SnapshotEndsRun` | sdk/typescript-v2/src/run-helpers.ts:82-84 | to both tests a snapshot ends the run exactly when its status is none of the seven active names |
| `Json.EventEndsRun` | go/v2/sse.go:192-195 | to both tests any other document ends it exactly by one of the three event types |
| `Verdicts.SnapshotVerdict` | sdk/typescript-v2/src/sse.ts:138-143 | a snapshot frame ends a resuming run stream exactly when its status is none of the seven, an unknown one included, and is followed by a wait otherwise |
| `Verdicts.EventVerdict` | sdk/typescript-v2/src/sse.ts:138-143 | any other well-typed frame ends it exactly by one of the three event types |
| `Standard.InterpreterRefinesStandard` | sdk/typescript-v2/src/sse.ts:296-324 | on streams whose CRs belong to CRLFs and that, for Go, no byte order mark precedes and whose lines fit the scanner, both SDKs complete the messages the standard dispatches, with its last event id and reconnection time |
| `Standard.LinesExactlyAgree` | go/v2/sse.go:298-302 | the finished lines that reach an SDK are those of the standard exactly on streams without a lone CR whose lines, for Go, fit the scanner and that start with no mark or hold no finished line |
| `Standard.MarkDropsFirstLine` | go/v2/sse.go:298-302 | behind a byte order mark Go loses the first line, whatever it says |
| `Standard.RetryAgreesExactly` | go/v2/sse.go:406-409 | TypeScript's retry values are the standard's; Go's are, exactly when digits fit and no signed value is non-negative |
| `Numbers.ParsesSigned` | go/v2/sse.go:407 | digits with or without a sign are read, within 64 bits |
| `Numbers.ParsesOnlySigned` | go/v2/sse.go:407 | and nothing else is |
| `Conformance.BodyConforms` | sdk/typescript-v2/src/sse.ts:256-329 | the completed frames of a connection hand over what a consumer of the standard's messages does, up to the message that ends the run, whose id is the cursor; the whole connection does exactly when the unfinished frame that the SDK flushes comes to nothing; the retry delay is the standard's |
| `Conformance.HandledFilters` | go/v2/sse.go:312-338 | that consumer hands over the documents of the messages up to the one that ends the run, as far as the guard lets them through |
| `Conformance.BlankLastLine` | sdk/typescript-v2/src/sse.ts:328 | a stream that ends in a blank line leaves nothing unfinished |
| `Departures.LoneCRsHideAMessage` | sdk/typescript-v2/src/sse.ts:291-292 | a data line and a blank line ended by lone CRs: a message to the standard, nothing at all to TypeScript |
| `Departures.LoneCRsJoinLines` | go/v2/sse.go:374-375 | the same with a comment line after it: to both SDKs one data line, which no blank line follows and which is no JSON text |
| `Departures.MarkHidesAMessage` | go/v2/sse.go:298-302 | behind a byte order mark Go loses a message that the standard dispatches |
| `Departures.OversizedLineHidesAMessage` | go/v2/sse.go:299-302 | a message with a data line of a mebibyte or more: Go reads nothing and reports a read error |
| `Departures.SignedRetryIsTaken` | go/v2/sse.go:406-409 | `retry: +n` sets Go's delay, and neither the standard's nor TypeScript's |
| `Departures.UnfinishedFrameIsHandedOver` | sdk/typescript-v2/src/sse.ts:327-329 | a data line that no blank line follows: nothing to the standard, a document to an SDK that flushes |
| `Printing.PrintThenParse` | go/v2/sse.go:374-411 | frames written as `field: value` lines with comments anywhere and either line ending are read back unchanged, in Go exactly when every line fits the scanner, given a blank line at the end |
| `Batches.BatchIsTransparent` | sdk/typescript-v2/src/sse.ts:272-283 | a frame that parses to an array delivers what its items would deliver one frame each: documents, order, guard, end and cursor |
| `Batches.BatchIsTransparentInVersionOne` | go/sse.go:149-157 | in version 1 too: every decodable item of the array, in its place among the documents of the body |
| `Batches.EmptyBatchCounts` | go/v2/sse.go:355-363 | the SDKs agree on whether a frame counts exactly when it is not a batch of no items or of `null`, which only TypeScript counts |
| `Batches.EmptyBatchDelivers` | sdk/typescript-v2/src/sse.ts:272-273 | such a batch hands over nothing, but for `null`, which TypeScript yields |
| `Versions.VersionTwoFiltersVersionOne` | go/v2/sse.go:417-422 | with reconnect disabled, version 2 delivers version 1's documents up to the frame that ends the run, minus those whose sequence does not rise |
| `Versions.VersionsAgree` | go/sse.go:107-193 | on rising non-negative sequences and nothing after the terminal frame, versions 1 and 2 deliver the same |
| `Versions.UnguardedIsAll` | go/v2/sse.go:318-322 | the guard passes a list untouched exactly when its sequences rise strictly above it |
| `ControllerProofs.DoubledClosedForm` | go/v2/sse.go:446-454 | the doubling loop is a capped power of two as long as no doubling overflows |
| `ControllerProofs.DoublingIsExact` | go/v2/sse.go:449-451 | the loop waits the capped power of two after any number of failures exactly when no value it doubles is half the 64-bit range or more |
| `ControllerProofs.BackoffsAgree` | sdk/typescript-v2/src/sse.ts:366 | as long as no doubling overflows, Go's loop and TypeScript's formula give the same wait |
| `ControllerProofs.BackoffGrowsToCap` | go/v2/sse.go:446-458 | waits do not shrink with failures, stay under the cap, and only `Retry-After` exceeds it, in Go as long as no doubling overflows |
| `ControllerProofs.DoublingCanOverflow` | go/v2/sse.go:449-451 | an input on which a doubling overflows and the wait turns negative |
| `ControllerProofs.StreakIsBounded` | sdk/typescript-v2/src/sse.ts:349-367 | failures without a frame, a quick clean close of a host stream included, are waited out exactly until the allowance is used, and the next one fails the stream |
| `Verdicts.StreakWaits` | sdk/typescript-v2/src/sse.ts:361-368 | the verdicts on a streak: the first wait is the retry delay, each further one twice the one before, up to the cap, and none shorter than the host asks |
| `Verdicts.FruitlessRun` | go/v2/sse.go:438-459 | so do whole runs of such attempts sleep, and they break when the allowance is used up |
| `Verdicts.DefaultWaits` | sdk/typescript-v2/src/sse.ts:145-150 | with the settings left out: 1, 2, 4, 8, 16 and five times 30 seconds, then the error |
| `Verdicts.RefusalExactly` | go/v2/sse.go:475-481 | a refused reconnect is waited out exactly on 429, 502, 503 and 504 within the allowance |
| `Verdicts.QuietCloseExactly` | sdk/typescript-v2/src/sse.ts:353-357 | a clean frameless close ends a run stream within 15 seconds and is a failure of a host stream within one |
| `Verdicts.FramesAreProgress` | sdk/typescript-v2/src/sse.ts:359-360 | a connection that brought a frame is followed by the plain retry delay, however it ended |
| `Verdicts.FirstConnectFailsFast` | sdk/typescript-v2/src/sse.ts:236-245 | a first connect that fails is the only act besides the error |
| `Verdicts.AbortedBefore` | sdk/typescript-v2/src/sse.ts:213 | an attempt aborted before it starts makes no connect and is the last |
| `Verdicts.WaitsThenConnects` | sdk/typescript-v2/src/sse.ts:219 | a wait is followed by the next connect with the cursor that was left |
| `Verdicts.HostRetryIsKept` | sdk/typescript-v2/src/sse.ts:319-321 | the host's `retry:` is what the next wait lasts and stays in force on later connections |
| `Verdicts.EndsExactly` | go/v2/sse.go:420-422 | a terminal frame, or an abort of an established stream, ends it |
| `Verdicts.DisabledEnds` | sdk/typescript-v2/src/sse.ts:330-349 | with reconnect off nothing is waited for; a broken body is an error in TypeScript only |
| `ControllerProofs.ProgressResets` | sdk/typescript-v2/src/sse.ts:358-360 | a frame or a clean close after the floor, in Go also one without a body, resets the streak and waits the plain retry delay |
| `ControllerProofs.RespondsAgree` | go/v2/sse.go:424-485 | one attempt: the controllers agree exactly when it is not one of the abort, disabled or bodiless shapes listed in `Divergent` |
| `ControllerProofs.BodilessDiverges` | sdk/typescript-v2/src/sse.ts:243-245 | an input: a 204 within the floor is an error to TypeScript and the quiet end to Go |
| `ControllerProofs.ControllersAgree` | sdk/typescript-v2/src/sse.ts:335-369 | any sequence of attempts: the same choice each time and the same wait, exactly when no attempt up to the last is divergent |
| `ControllerProofs.PositiveSettingsAgree` | go/v2/sse.go:270-281 | absent or positive settings mean the same in both |
| `ControllerProofs.SettingsExactly` | go/v2/sse.go:270-281 | TypeScript takes every number it is given, Go replaces those that are not positive by the defaults |
| `Parity.RunParity` | sdk/PARITY.md:36 | on streams both read alike as far as the run lasts, with reconnect on or off, whole runs from cursors that send the same header make the same connects, wait the same, end alike and hand over the same documents |
| `Parity.SdkParity` | sdk/PARITY.md:36 | the same from the state each constructor sets up for the caller's options, with or without a cursor |
| `Parity.DisabledParity` | sdk/PARITY.md:36 | the same with reconnect disabled |
| `Parity.SdkParityOnBytes` | sdk/PARITY.md:36 | the same for TypeScript on decoded text and Go on its UTF-8 bytes, on streams of any characters |
| `Parity.DisabledParityOnBytes` | sdk/PARITY.md:36 | the same on text and bytes with reconnect disabled |
| `WireBytes.PlayOnWire` | go/v2/sse.go:295-488 | a Go run on the UTF-8 bytes of a script is the encoded run on its characters, when every line fits the scanner |
| `WireBytes.ReadBodyOnWire` | go/v2/sse.go:295-415 | so is the reading of one body |
| `Parity.BodyParity` | go/v2/sse.go:295-415 | one body leaves both readers in the same state, retry delay included |
| `TypeScriptStream.EventStream.constructor` | sdk/typescript-v2/src/sse.ts:205-210 | the state a stream starts from |
| `TypeScriptStream.EventStream.Collect` | sdk/typescript-v2/src/sse.ts:274-282 | the document loop sends what the guard lets through and notes the terminal frame |
| `TypeScriptStream.EventStream.Flush` | sdk/typescript-v2/src/sse.ts:256-284 | flushing commits the id, empties the pending frame and returns the documents to yield |
| `TypeScriptStream.EventStream.TakeField` | sdk/typescript-v2/src/sse.ts:301-324 | a comment changes nothing, a field changes its part of the pending frame or the retry delay |
| `TypeScriptStream.EventStream.ReadChunk` | sdk/typescript-v2/src/sse.ts:288-325 | a chunk takes every line it finishes and keeps the rest, stopping at a terminal frame |
| `TypeScriptStream.EventStream.ReadResponse` | sdk/typescript-v2/src/sse.ts:248-334 | a body in any chunks leaves the state of reading its text |
| `TypeScriptStream.EventStream.Reconnect` | sdk/typescript-v2/src/sse.ts:349-369 | the decision after an attempt, with its failure count |
| `TypeScriptStream.EventStream.Connect` | sdk/typescript-v2/src/sse.ts:212-369 | one turn of the loop, errors and aborts included |
| `TypeScriptStream.EventStream.StreamSse` | sdk/typescript-v2/src/sse.ts:190-371 | the loop's state and acts are those of `Play`, for every script and chunking |
| `GoStream.EventStream.constructor` | go/v2/sse.go:288-291 | the state the goroutine starts from |
| `GoStream.EventStream.SendOne` | go/v2/sse.go:312-338 | counts, guards, tests for the end, and sends what decodes |
| `GoStream.EventStream.SendBatch` | go/v2/sse.go:355-363 | a batch is sent document by document |
| `GoStream.EventStream.Flush` | go/v2/sse.go:340-372 | flushing commits the id, empties the pending frame and sends its documents |
| `GoStream.EventStream.TakeField` | go/v2/sse.go:382-410 | a field changes its part of the pending frame or the 64-bit retry delay |
| `GoStream.EventStream.Read` | go/v2/sse.go:295-415 | one body: scanner limit, unfinished last line and final flush included |
| `GoStream.EventStream.NextWait` | go/v2/sse.go:426-459 | the decision with the doubling loop |
| `GoStream.EventStream.Serve` | go/v2/sse.go:418-422 | an open connection ends the stream or is left to the decision |
| `GoStream.EventStream.Refuse` | go/v2/sse.go:460-485 | an aborted wait or a failed connect ends or breaks the stream, or is waited out |
| `GoStream.EventStream.FirstConnect` | go/v2/sse.go:263-268 | the first connect fails fast |
| `GoStream.EventStream.Pause` | go/v2/sse.go:424-464 | the decision and the wait: the stream is over, or goes on with the next attempt |
| `GoStream.EventStream.Redial` | go/v2/sse.go:465-485 | the next connect is open, ends the stream, or leaves a failure to decide on |
| `GoStream.EventStream.Reconnect` | go/v2/sse.go:423-486 | the inner loop reaches the next open connection or the end of the run |
| `GoStream.EventStream.StreamSSE` | go/v2/sse.go:417-488 | the two nested loops have the state and acts of the single loop `Play` |
| `GoStream.EventStreamV1.SendOne` | go/sse.go:124-136 | a document is sent if it decodes |
| `GoStream.EventStreamV1.Flush` | go/sse.go:138-161 | every decodable document of the pending frame is sent |
| `GoStream.EventStreamV1.TakeField` | go/sse.go:169-189 | only data and event fields count |
| `GoStream.EventStreamV1.TakeLine` | go/sse.go:164-189 | a blank line sends the decodable documents of the pending frame, any other line sends nothing |
| `GoStream.EventStreamV1.StreamEvents` | go/sse.go:163-192 | the loop sends the decodable documents of every frame |
| `Frames.SplitField` | sdk/typescript-v2/src/sse.ts:303-306 | a field line is split at its first colon and one space dropped |
| `Utf8.DecodeEncode` | sdk/typescript-v2/src/wire-id.ts:14-15 | strict decoding inverts encoding |
| `Utf8.EncodeDecode` | sdk/typescript-v2/src/wire-id.ts:14-15 | encoding inverts decoding: a text has one encoding |
| `Utf8.EncodesExactly` | sdk/typescript-v2/src/wire-id.ts:14-15 | the example of section 7 of RFC 3629 |
| `WireId.UnprojectID` | go/v2/wireid.go:28-41 | the byte loop computes the unprojection |
| `WireId.ProjectID` | go/v2/wireid.go:46-64 | the byte loop computes the projection |
| `WireId.UnprojectEscapeAll` | go/v2/wireid.go:25-27 | unprojecting undoes escaping, whatever the bytes |
| `WireId.RoundTrip` | go/v2/wireid.go:28-64 | unprojecting a projection gives the id back exactly when it has a slash or no escaped one |
| `WireId.ProjectionIsInjective` | go/v2/wireid.go:11-16 | ids with a slash never share a wire form |
| `WireId.EscapedShape` | go/v2/wireid.go:20-23 | only unreserved bytes and `~` come out, and each escaped byte costs two more |
| `WireId.EscapedAlphabet` | go/v2/wireid.go:20-23 | exactly the ids of letters, digits, `.`, `_` and `-` are left alone, nothing but those and `~` is written, and every other byte costs two more |
| `WireId.EscapeExactly` | go/v2/wireid.go:53-62 | a byte of the alphabet is written as it is, any other as `~` and two upper-case hex digits |
| `WireId.UnprojectExactly` | go/v2/wireid.go:31-36 | an escape with either lead and digits of either case is read as its byte |
| `WireId.ProjectsExactly` | go/v2/wireid.go:46-52 | an id is unprojected first exactly when it has no `/` and one of the four escaped ones somewhere |
| `WireId.TenantBound` | go/v2/wireid.go:11-16 | `acme/r-9f3c` is written `acme~2Fr-9f3c`, and so for every such pair |
| `WireId.ProjectTwice` | go/v2/wireid.go:43-50 | projecting twice is projecting once exactly for ids with a slash in some form or with nothing to escape |
| `WireId.SkipEscape` | go/v2/wireid.go:31-36 | the digits of an escape never open another one |
| `WireId.LegacyFormsConverge` | go/v2/wireid.go:43-50 | every percent-encoded form of a bound id projects to the wire form of the id |
| `WireText.UnprojectId` | sdk/typescript-v2/src/wire-id.ts:22-38 | the character loop computes the unprojection, or throws |
| `WireText.ProjectId` | sdk/typescript-v2/src/wire-id.ts:45-53 | the projection, or the exception of decoding |
| `WireText.DecodesExactly` | sdk/typescript-v2/src/wire-id.ts:15 | the fatal decoder drops one leading byte order mark and nothing else |
| `WireText.EscapeBytes` | sdk/typescript-v2/src/wire-id.ts:47-52 | the byte loop escapes what is reserved |
| `WireText.ScansAgree` | sdk/typescript-v2/src/wire-id.ts:23-36 | scanning characters and scanning bytes find the same escapes |
| `WireText.ProjectionsAgree` | sdk/typescript-v2/src/wire-id.ts:45-53 | TypeScript's projection is Go's of the UTF-8 bytes exactly when decoding first is not needed, or gives valid UTF-8 without a byte order mark |
| `Webhook.SignWebhookDelivery` | go/v2/webhook_helpers.go:153-158 | the two headers, from a hash fed piece by piece |
| `Webhook.VerifyWebhookSignature` | go/v2/webhook_helpers.go:86-138 | the verifier's verdict with its order of failure reasons |
| `Webhook.UnreadableExactly` | go/v2/webhook_helpers.go:94-110 | header, algorithm and timestamp that cannot be read are refused for the first of them, in that order |
| `Webhook.RejectedExactly` | go/v2/webhook_helpers.go:112-137 | a readable delivery is expired, too far ahead or mismatched exactly as its age, the window and the hash say, on every 64-bit clock |
| `Webhook.TenMinutes` | go/v2/webhook_helpers.go:121-126 | an input: ten minutes old is expired, ten minutes ahead is too far ahead |
| `Webhook.AcceptedExactly` | go/v2/webhook_helpers.go:81-138 | on every 64-bit clock, a delivery is accepted exactly when header and algorithm hold and its timestamp is within the window, or so far past it that the age overflows into it |
| `Webhook.FreshnessIsExact` | go/v2/webhook_helpers.go:116-123 | the test on the 64-bit age is that of true arithmetic exactly when the timestamp is less than a turn, bar the window, past the clock |
| `Webhook.AgeCanOverflow` | go/v2/webhook_helpers.go:116-123 | an input: the earliest clock takes the latest timestamp for a fresh one |
| `Webhook.SignedVerifies` | go/v2/webhook_helpers.go:149-158 | what is signed at a positive time verifies exactly while it is fresh, or when its age overflows |
| `Webhook.MessageIsInjective` | go/v2/webhook_helpers.go:129-131 | the signed message determines timestamp and body |
| `Webhook.MessageSplits` | go/v2/webhook_helpers.go:129-131 | up to its first full stop the message is the decimal timestamp, after it the body |
| `Webhook.ReplayNeedsCollision` | go/v2/webhook_helpers.go:129-136 | a signature accepted for another timestamp or body is a collision of the hash |
| `Hex.DecodeEncodeHex` | go/v2/webhook_helpers.go:157 | hex text decodes to the bytes it was made from |
| `Hex.EncodesExactly` | go/v2/webhook_helpers.go:157 | a byte is written as two lower-case digits, high one first |
| `Hex.ReadsExactly` | go/v2/webhook_helpers.go:97-100 | only pairs of hex digits are read |
| `Capabilities.UnmarshalRecord` | go/v2/types.go:103-119 | the record is split into its four members and the facets |
| `Capabilities.MarshalRecord` | go/v2/types.go:122-134 | the facets are folded back under the typed members |
| `Capabilities.DecodeThenEncode` | go/v2/types.go:102-134 | decoding then encoding keeps every key and value of exactly the well-formed records |
| `Capabilities.DecodesExactly` | go/v2/types.go:102-106 | a record decodes exactly when none of its four members has another type than string |
| `Capabilities.ReadsExactly` | go/v2/types.go:102-119 | each member is read from its own name and every other key is kept as a facet |
| `Capabilities.WritesExactly` | go/v2/types.go:122-134 | each member is written under its own name, an empty `until` left out |
| `Capabilities.EncodeThenDecode` | go/v2/types.go:102-134 | encoding then decoding returns the record exactly when no facet has a reserved name |
| `Capabilities.UnmarshalRoot` | go/v2/types.go:173-196 | every family member is decoded, or the root fails |
| `Capabilities.RootDecodesExactly` | go/v2/types.go:173-196 | a root decodes exactly when every family record in it does, and holds just those |
| `Capabilities.MarshalRoot` | go/v2/types.go:199-219 | the family records are merged over the metadata |
| `Capabilities.RootRoundTrip` | go/v2/types.go:171-219 | every well-formed family record survives and exactly the unmodelled root keys are dropped |
| `Capabilities.RootReadBack` | go/v2/types.go:171-219 | a root is read back as written exactly when no facet in it has a reserved name |

## Left out

* HTTP clients, URL building, registry clients, smoke scripts, generated tables and type guards: plumbing and single facts.
* fetch, AbortController, goroutines, channel buffering and timers: connection outcomes, aborts and time lived are inputs. An abort in the middle of a Go batch, which cuts the batch short, is one of them.
* JSON syntax: the parser is an arbitrary partial function to documents with a type, a status and a whole-number sequence; a fractional sequence, and Go's case-insensitive member names, are not modelled.
* The streaming UTF-8 decoder of the TypeScript reader: streams start as text, after a byte order mark was removed. In Go one character stands for one byte; `WireBytes` relates the two on valid UTF-8.
* How fetch encodes header values: `Last-Event-ID` is the cursor as text. Outside Latin-1 fetch refuses it.
* JavaScript numbers: retry values and waits are exact integers, without the rounding of very large doubles.
* Go's `Retry-After` parsing and HTTP dates: the value arrives in milliseconds.
* HMAC-SHA256 itself and constant-time comparison: any function of key and message, and equality. The clock is an input.
* `webhook-helpers.ts`, whose JavaScript number and hex leniency would dominate the model; the header getters.
* The Go types of the metadata keys of the discovery root: they are kept as nodes, so that `omitempty` of empty metadata is not modelled.
* The Go flush, where the source sends a single document outside the batch loop: the model sends a batch of one.
* Lone surrogates in TypeScript ids: text is a sequence of Unicode scalar values.
